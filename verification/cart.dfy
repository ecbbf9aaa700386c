/** The cart page: the subtotal, the per-line totals, the unit counter and
    the −, + and purge controls of each line. */
module CartPage {
  import opened Prelude
  import opened Types
  import opened Store

  /** Σ price × quantity over the lines, as the page's `reduce` computes it. */
  function Subtotal(cart: seq<CartItem>): (r: int)
    ensures (forall i :: 0 <= i < |cart| ==> cart[i].product.price >= 0 && cart[i].quantity >= 0) ==> r >= 0
  {
    if cart == [] then 0 else cart[0].product.price * cart[0].quantity + Subtotal(cart[1..])
  }

  function Sum(xs: seq<int>): int
  {
    if xs == [] then 0 else xs[0] + Sum(xs[1..])
  }

  /** The totals printed next to each line, in cart order. */
  function LineTotals(cart: seq<CartItem>): (r: seq<int>)
    ensures |r| == |cart|
    ensures forall i :: 0 <= i < |cart| ==> r[i] == cart[i].product.price * cart[i].quantity
  {
    seq(|cart|, i requires 0 <= i < |cart| => cart[i].LineTotal())
  }

  /** The total in the summary box is the sum of the printed line totals. */
  lemma {:induction false} SubtotalIsSumOfLineTotals(cart: seq<CartItem>)
    ensures Subtotal(cart) == Sum(LineTotals(cart))
  {
    if cart != [] {
      SubtotalIsSumOfLineTotals(cart[1..]);
      assert LineTotals(cart)[1..] == LineTotals(cart[1..]);
    }
  }

  lemma {:induction false} SubtotalAppend(a: seq<CartItem>, b: seq<CartItem>)
    ensures Subtotal(a + b) == Subtotal(a) + Subtotal(b)
  {
    if a == [] {
      assert a + b == b;
    } else {
      assert (a + b)[1..] == a[1..] + b;
      SubtotalAppend(a[1..], b);
    }
  }

  /** Adding a unit raises the subtotal by one unit price: the price stored
      in the existing line, or the product's price for a new line. */
  lemma {:induction false} AddToCartRaisesSubtotal(cart: seq<CartItem>, product: Product, color: string, size: string)
    ensures var f := FirstLine(cart, product.id, color, size);
      Subtotal(AddToCart(cart, product, color, size))
        == Subtotal(cart) + (if f.Some? then cart[f.value].product.price else product.price)
  {
    var r := AddToCart(cart, product, color, size);
    if cart == [] {
      assert r[1..] == [];
    } else if IsLine(cart[0], product.id, color, size) {
      assert r[1..] == cart[1..];
    } else {
      assert r[1..] == AddToCart(cart[1..], product, color, size);
      AddToCartRaisesSubtotal(cart[1..], product, color, size);
    }
  }

  /** What the page renders. */
  datatype View =
    | EmptyVault
    | Manifest(units: int, lineTotals: seq<int>, total: int)

  /** The empty cart shows the empty view and no way to check out; otherwise
      the header counts lines (not units) and the summary shows the subtotal. */
  function Render(cart: seq<CartItem>): (v: View)
    ensures v.EmptyVault? <==> |cart| == 0
    ensures v.Manifest? ==> v.units == |cart| && |v.lineTotals| == |cart| && v.total == Sum(v.lineTotals)
    ensures v.Manifest? ==> forall i :: 0 <= i < |cart| ==> v.lineTotals[i] == cart[i].product.price * cart[i].quantity
  {
    if |cart| == 0 then EmptyVault
    else
      SubtotalIsSumOfLineTotals(cart);
      Manifest(|cart|, LineTotals(cart), Subtotal(cart))
  }

  /** With every line holding at least one unit, the number of units is at
      least the number of lines, with equality only when every line holds
      exactly one. */
  lemma {:induction false} LinesAtMostUnits(cart: seq<CartItem>)
    requires PositiveQuantities(cart)
    ensures |cart| <= TotalQuantity(cart)
    ensures |cart| == TotalQuantity(cart) <==> forall i :: 0 <= i < |cart| ==> cart[i].quantity == 1
  {
    if cart != [] {
      LinesAtMostUnits(cart[1..]);
      if |cart| == TotalQuantity(cart) {
        forall i | 0 <= i < |cart| ensures cart[i].quantity == 1 {
          if i > 0 {
            assert cart[1..][i - 1] == cart[i];
          }
        }
      } else {
        assert |cart| < TotalQuantity(cart);
      }
    }
  }

  /** So the header's unit count stays below the number of units as soon
      as one line holds two. */
  lemma UnitCountIsLineCount(cart: seq<CartItem>)
    requires PositiveQuantities(cart) && cart != []
    ensures Render(cart).units <= TotalQuantity(cart)
    ensures Render(cart).units == TotalQuantity(cart) <==> forall i :: 0 <= i < |cart| ==> cart[i].quantity == 1
  {
    LinesAtMostUnits(cart);
  }

  /** The − control of a line: that line loses a unit unless it holds
      only one, and every other line is kept. */
  function Decrement(cart: seq<CartItem>, line: CartItem): (r: seq<CartItem>)
    ensures |r| == |cart|
    ensures forall i :: 0 <= i < |cart| && cart[i].Key() != line.Key() ==> r[i] == cart[i]
    ensures forall i :: 0 <= i < |cart| && cart[i].Key() == line.Key() ==>
      r[i].Key() == cart[i].Key() && r[i].product == cart[i].product
      && (cart[i].quantity >= 2 ==> r[i].quantity == cart[i].quantity - 1)
      && (cart[i].quantity <= 1 ==> r[i].quantity == 1)
  {
    UpdateQuantity(cart, line.product.id, line.selectedColor, line.selectedSize, -1)
  }

  /** The + control of a line: that line gains a unit, and every other
      line is kept. */
  function Increment(cart: seq<CartItem>, line: CartItem): (r: seq<CartItem>)
    ensures |r| == |cart|
    ensures forall i :: 0 <= i < |cart| && cart[i].Key() != line.Key() ==> r[i] == cart[i]
    ensures forall i :: 0 <= i < |cart| && cart[i].Key() == line.Key() ==>
      r[i].Key() == cart[i].Key() && r[i].product == cart[i].product
      && (cart[i].quantity >= 0 ==> r[i].quantity == cart[i].quantity + 1)
  {
    UpdateQuantity(cart, line.product.id, line.selectedColor, line.selectedSize, 1)
  }

  /** PURGE_UNIT of a line. */
  function Purge(cart: seq<CartItem>, line: CartItem): (r: seq<CartItem>)
    ensures forall x :: x in r <==> x in cart && x.Key() != line.Key()
    ensures IsSubsequence(r, cart)
  {
    RemoveFromCart(cart, line.product.id, line.selectedColor, line.selectedSize)
  }

  /** − on a one-unit line leaves it at one unit. */
  lemma DecrementStopsAtOne(cart: seq<CartItem>, i: nat)
    requires i < |cart| && cart[i].quantity == 1
    ensures Decrement(cart, cart[i])[i] == cart[i]
  {
  }

  /** − undoes +: pressing + and then − on a line restores the cart, as
      long as every line holds at least one unit. */
  lemma DecrementUndoesIncrement(cart: seq<CartItem>, line: CartItem)
    requires PositiveQuantities(cart)
    ensures Decrement(Increment(cart, line), line) == cart
  {
    var up := Increment(cart, line);
    var down := Decrement(up, line);
    forall i | 0 <= i < |cart| ensures down[i] == cart[i] {
      assert up[i].Key() == cart[i].Key();
    }
  }

  /** The controls never change which lines exist, only their quantities. */
  lemma ControlsKeepLines(cart: seq<CartItem>, line: CartItem)
    ensures |Increment(cart, line)| == |cart| && |Decrement(cart, line)| == |cart|
    ensures forall i :: 0 <= i < |cart| ==> Increment(cart, line)[i].Key() == cart[i].Key()
    ensures forall i :: 0 <= i < |cart| ==> Decrement(cart, line)[i].Key() == cart[i].Key()
  {
  }
}
