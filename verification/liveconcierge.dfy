/** The live voice concierge: the model's tool calls put catalog products
    in the cart, and the audio it streams back is turned into samples and
    queued so that clips play one after another. Connection events, tool
    calls, clock readings and clip lengths are inputs. */
module LiveConciergeWidget {
  import opened Prelude
  import opened Types
  import Catalog
  import Store

  /** The connection flags behind the microphone button. */
  datatype Link = Link(isActive: bool, isConnecting: bool)

  const InitialLink := Link(false, false)

  /** Pressing the button starts connecting; opening makes the session
      active; closing ends it. */
  datatype LinkEvent = Start | Opened | Closed

  function OnLink(l: Link, e: LinkEvent): (r: Link)
    ensures e.Start? ==> r.isConnecting && r.isActive == l.isActive
    ensures e.Opened? ==> r.isActive && !r.isConnecting
    ensures e.Closed? ==> !r.isActive && r.isConnecting == l.isConnecting
  {
    match e
    case Start => l.(isConnecting := true)
    case Opened => Link(true, false)
    case Closed => l.(isActive := false)
  }

  // ---------------------------------------------------------------------
  // Tool calls
  // ---------------------------------------------------------------------

  /** A function call of the model, with its arguments. */
  datatype FunctionCall = FunctionCall(id: string, name: string, productId: string, color: string, size: string)

  /** The answer sent back for a call. */
  datatype ToolResponse = ToolResponse(id: string, name: string, result: string)

  predicate IsAddItem(fc: FunctionCall) { fc.name == "addItemToCart" }

  /** The response every addItemToCart call gets. */
  function Ok(fc: FunctionCall): ToolResponse
  {
    ToolResponse(fc.id, fc.name, "OK")
  }

  /** One call: addItemToCart puts a known product in the cart with the
      requested colour and size and is answered OK whether or not the
      product is known; any other call is ignored. */
  function HandleCall(products: seq<Product>, cart: seq<CartItem>, fc: FunctionCall): (r: (seq<CartItem>, Option<ToolResponse>))
    ensures r.1.Some? <==> IsAddItem(fc)
    ensures r.1.Some? ==> r.1.value == Ok(fc)
    ensures !IsAddItem(fc) || Catalog.Find(products, fc.productId).None? ==> r.0 == cart
    ensures IsAddItem(fc) && Catalog.Find(products, fc.productId).Some? ==>
      r.0 == Store.AddToCart(cart, Catalog.Find(products, fc.productId).value, fc.color, fc.size)
  {
    if !IsAddItem(fc) then (cart, None)
    else
      var product := Catalog.Find(products, fc.productId);
      if product.Some? then (Store.AddToCart(cart, product.value, fc.color, fc.size), Some(Ok(fc)))
      else (cart, Some(Ok(fc)))
  }

  /** The calls of one message, in order. */
  function HandleCalls(products: seq<Product>, cart: seq<CartItem>, calls: seq<FunctionCall>): (r: (seq<CartItem>, seq<ToolResponse>))
    ensures |r.1| <= |calls|
    ensures forall i :: 0 <= i < |r.1| ==> r.1[i].name == "addItemToCart" && r.1[i].result == "OK"
    decreases |calls|
  {
    if calls == [] then (cart, [])
    else
      var h := HandleCall(products, cart, calls[0]);
      var rest := HandleCalls(products, h.0, calls[1..]);
      (rest.0, (if h.1.Some? then [h.1.value] else []) + rest.1)
  }

  /** The calls that add a product that exists. */
  predicate AddsKnown(products: seq<Product>, fc: FunctionCall)
  {
    IsAddItem(fc) && Catalog.Find(products, fc.productId).Some?
  }

  /** The number of calls in a list that add a product that exists. */
  function CountKnown(products: seq<Product>, calls: seq<FunctionCall>): nat
    decreases |calls|
  {
    if calls == [] then 0 else (if AddsKnown(products, calls[0]) then 1 else 0) + CountKnown(products, calls[1..])
  }

  /** The responses a list of calls gets, one per addItemToCart call. */
  function Responses(calls: seq<FunctionCall>): seq<ToolResponse>
    decreases |calls|
  {
    if calls == [] then [] else (if IsAddItem(calls[0]) then [Ok(calls[0])] else []) + Responses(calls[1..])
  }

  /** The responses do not depend on the cart or the catalog. */
  lemma {:induction false} HandleCallsResponds(products: seq<Product>, cart: seq<CartItem>, calls: seq<FunctionCall>)
    ensures HandleCalls(products, cart, calls).1 == Responses(calls)
    decreases |calls|
  {
    if calls != [] {
      HandleCallsResponds(products, HandleCall(products, cart, calls[0]).0, calls[1..]);
    }
  }

  /** Responses answering a list of calls, one by one. */
  predicate Answers(r: seq<ToolResponse>, adds: seq<FunctionCall>)
  {
    |r| == |adds| && forall i :: 0 <= i < |adds| ==> r[i] == Ok(adds[i])
  }

  /** One step of the responses and of the filter, for a named tail. */
  lemma ResponsesStep(calls: seq<FunctionCall>, t: seq<FunctionCall>)
    requires calls != [] && t == calls[1..]
    ensures Filter(calls, IsAddItem) == (if IsAddItem(calls[0]) then [calls[0]] else []) + Filter(t, IsAddItem)
    ensures Responses(calls) == (if IsAddItem(calls[0]) then [Ok(calls[0])] else []) + Responses(t)
  {
  }

  lemma AnswersCons(fc: FunctionCall, r: seq<ToolResponse>, adds: seq<FunctionCall>)
    requires Answers(r, adds)
    ensures Answers([Ok(fc)] + r, [fc] + adds)
  {
    assert forall i :: 1 <= i < |adds| + 1 ==> ([Ok(fc)] + r)[i] == r[i - 1] && ([fc] + adds)[i] == adds[i - 1];
  }

  /** One response per addItemToCart call, in order. */
  lemma {:induction false} ResponsesAreFiltered(calls: seq<FunctionCall>)
    ensures Answers(Responses(calls), Filter(calls, IsAddItem))
    decreases |calls|
  {
    if calls != [] {
      var t := calls[1..];
      ResponsesAreFiltered(t);
      ResponsesStep(calls, t);
      if IsAddItem(calls[0]) {
        AnswersCons(calls[0], Responses(t), Filter(t, IsAddItem));
      } else {
        assert [] + Responses(t) == Responses(t);
        assert [] + Filter(t, IsAddItem) == Filter(t, IsAddItem);
      }
    }
  }

  /** Every addItemToCart call, and only those, is answered OK, in the
      order of the calls. */
  lemma ResponsesMatchCalls(products: seq<Product>, cart: seq<CartItem>, calls: seq<FunctionCall>)
    ensures Answers(HandleCalls(products, cart, calls).1, Filter(calls, IsAddItem))
  {
    HandleCallsResponds(products, cart, calls);
    ResponsesAreFiltered(calls);
  }

  /** The cart gains exactly one unit per call whose product exists, and
      keeps every line it had. */
  lemma {:induction false} CartGainsKnownUnits(products: seq<Product>, cart: seq<CartItem>, calls: seq<FunctionCall>)
    ensures var r := HandleCalls(products, cart, calls).0;
      Store.TotalQuantity(r) == Store.TotalQuantity(cart) + CountKnown(products, calls)
      && |cart| <= |r|
    decreases |calls|
  {
    if calls != [] {
      var fc := calls[0];
      var h := HandleCall(products, cart, fc);
      CartGainsKnownUnits(products, h.0, calls[1..]);
      if AddsKnown(products, fc) {
        Store.AddToCartAddsOneUnit(cart, Catalog.Find(products, fc.productId).value, fc.color, fc.size);
      }
    }
  }

  /** A message whose calls name only products outside the catalog, or
      only other functions, leaves the cart as it was. */
  lemma {:induction false} UnknownCallsLeaveCart(products: seq<Product>, cart: seq<CartItem>, calls: seq<FunctionCall>)
    requires forall i :: 0 <= i < |calls| ==> !AddsKnown(products, calls[i])
    ensures HandleCalls(products, cart, calls).0 == cart
    decreases |calls|
  {
    if calls != [] {
      assert forall i :: 0 <= i < |calls[1..]| ==> calls[1..][i] == calls[i + 1];
      UnknownCallsLeaveCart(products, cart, calls[1..]);
    }
  }

  /** On the shipped catalog, a call for an id no product has is answered
      and changes nothing. */
  lemma UnknownIdChangesNothing(cart: seq<CartItem>, fc: FunctionCall)
    requires IsAddItem(fc) && fc.productId !in Catalog.CatalogIds
    ensures HandleCall(Catalog.Products, cart, fc) == (cart, Some(Ok(fc)))
  {
    Catalog.CatalogIdsInOrder();
  }

  // ---------------------------------------------------------------------
  // Audio
  // ---------------------------------------------------------------------

  type Byte = b: int | 0 <= b < 256
  type Int16 = s: int | -32768 <= s < 32768

  /** Two bytes read as a little-endian two's-complement 16-bit sample. */
  function Int16LE(lo: Byte, hi: Byte): (s: Int16)
    ensures (s + 65536) % 65536 == lo + 256 * hi
  {
    var u := lo + 256 * hi;
    if u >= 32768 then u - 65536 else u
  }

  /** `new Int16Array(bytes.buffer)`: a buffer of odd length is refused. */
  function Int16Samples(bytes: seq<Byte>): (r: Option<seq<Int16>>)
    ensures r.Some? <==> |bytes| % 2 == 0
    ensures r.Some? ==> (|r.value| * 2 == |bytes|
      && forall i :: 0 <= i < |r.value| ==> r.value[i] == Int16LE(bytes[2 * i], bytes[2 * i + 1]))
    decreases |bytes|
  {
    if |bytes| % 2 == 1 then None
    else if bytes == [] then Some([])
    else
      var rest := Int16Samples(bytes[2..]).value;
      var r := [Int16LE(bytes[0], bytes[1])] + rest;
      assert forall i :: 1 <= i < |r| ==> r[i] == rest[i - 1] && bytes[2 * i] == bytes[2..][2 * (i - 1)];
      Some(r)
  }

  /** A channel sample: the 16-bit value over 32768. */
  function Scale(s: Int16): (x: real)
    ensures -1.0 <= x < 1.0
    ensures x * 32768.0 == s as real
  {
    s as real / 32768.0
  }

  /** A clip as queued: when it starts and when it ends, in seconds. */
  datatype Clip = Clip(start: real, end: real)

  /** Queueing one clip of `duration` seconds at clock time `now`, with the
      queue free from `next`: it starts at the later of the two. */
  function Enqueue(next: real, now: real, duration: real): (c: Clip)
    requires duration >= 0.0
    ensures c.start >= now && c.start >= next
    ensures c.start == now || c.start == next
    ensures c.end == c.start + duration
  {
    var start := if next >= now then next else now;
    Clip(start, start + duration)
  }

  /** A chunk of streamed audio: the clock when it arrives and its length. */
  datatype Chunk = Chunk(now: real, duration: real)

  predicate NonNegative(chunks: seq<Chunk>)
  {
    forall i :: 0 <= i < |chunks| ==> chunks[i].duration >= 0.0
  }

  /** The clips of a series of chunks, the queue free from `next` at first. */
  function Schedule(next: real, chunks: seq<Chunk>): (r: seq<Clip>)
    requires NonNegative(chunks)
    ensures |r| == |chunks|
    decreases |chunks|
  {
    if chunks == [] then []
    else
      var c := Enqueue(next, chunks[0].now, chunks[0].duration);
      [c] + Schedule(c.end, chunks[1..])
  }

  /** No clip starts before its chunk arrived or before the queue was
      free; each lasts its chunk's length; and a clip never starts before
      the one before it has ended, so clips never overlap and start in
      order. */
  lemma {:induction false} ClipsNeverOverlap(next: real, chunks: seq<Chunk>)
    requires NonNegative(chunks)
    ensures var r := Schedule(next, chunks);
      (forall i :: 0 <= i < |r| ==> (r[i].start >= chunks[i].now && r[i].start >= next
        && r[i].end == r[i].start + chunks[i].duration))
      && (forall i, j :: 0 <= i < j < |r| ==> r[i].end <= r[j].start)
    decreases |chunks|
  {
    if chunks != [] {
      var c := Enqueue(next, chunks[0].now, chunks[0].duration);
      var tail := chunks[1..];
      assert NonNegative(tail) by {
        forall i | 0 <= i < |tail| ensures tail[i].duration >= 0.0 {
          assert tail[i] == chunks[i + 1];
        }
      }
      ClipsNeverOverlap(c.end, tail);
      var rest := Schedule(c.end, tail);
      var r := Schedule(next, chunks);
      assert r == [c] + rest;
      forall i | 0 <= i < |r| ensures r[i].start >= chunks[i].now && r[i].start >= next && r[i].end == r[i].start + chunks[i].duration {
        if i > 0 {
          assert r[i] == rest[i - 1] && chunks[i] == tail[i - 1];
        }
      }
      forall i, j | 0 <= i < j < |r| ensures r[i].end <= r[j].start {
        assert r[j] == rest[j - 1];
        if i > 0 {
          assert r[i] == rest[i - 1];
        }
      }
    }
  }
}
