/** The service layer around the generative model: the retry policy with
    exponential backoff, the design audit that falls back to a clean bill
    of health, the payload of a data URL (section 3 of RFC 2397), and the
    part-by-part merge of a couture design answer. Each call to the model
    is an input: the outcome of the k-th attempt is `outcome(k)`. */
module GeminiService {
  import opened Prelude

  /** What one attempt gives: a value, or an error. */
  datatype Attempt<T> = Success(value: T) | Failure(error: string)

  /** The end of a retried call: the attempt that decided it, the number of
      attempts made and the waits between them, in milliseconds. */
  datatype RetryTrace<T> = RetryTrace(result: Attempt<T>, calls: nat, waits: seq<int>)

  function Pow2(n: nat): (r: nat)
    ensures r >= 1
  {
    if n == 0 then 1 else 2 * Pow2(n - 1)
  }

  lemma MulAssoc(a: int, b: int, c: int)
    ensures (a * b) * c == a * (b * c)
  {
  }

  /** executeWithRetry from attempt `first`, with `retries` retries left and
      the next wait `delay`. */
  function RetryFrom<T>(outcome: nat -> Attempt<T>, first: nat, retries: int, delay: int): (r: RetryTrace<T>)
    ensures first < r.calls <= first + Max(retries, 0) + 1
    ensures r.result == outcome(r.calls - 1)
    ensures forall k :: first <= k < r.calls - 1 ==> outcome(k).Failure?
    ensures r.result.Failure? ==> r.calls == first + Max(retries, 0) + 1
    ensures |r.waits| == r.calls - first - 1
    ensures forall j :: 0 <= j < |r.waits| ==> r.waits[j] == delay * Pow2(j)
    decreases Max(retries, 0)
  {
    if outcome(first).Success? || retries <= 0 then RetryTrace(outcome(first), first + 1, [])
    else
      var rest := RetryFrom(outcome, first + 1, retries - 1, delay * 2);
      var waits := [delay] + rest.waits;
      forall j | 1 <= j < |waits| ensures waits[j] == delay * Pow2(j) {
        assert waits[j] == rest.waits[j - 1] == (delay * 2) * Pow2(j - 1);
        MulAssoc(delay, 2, Pow2(j - 1));
      }
      RetryTrace(rest.result, rest.calls, waits)
  }

  /** executeWithRetry(fn, retries, delay). */
  function ExecuteWithRetry<T>(outcome: nat -> Attempt<T>, retries: int, delay: int): (r: RetryTrace<T>)
    ensures 1 <= r.calls <= Max(retries, 0) + 1
    ensures r.result == outcome(r.calls - 1)
    ensures |r.waits| == r.calls - 1
  {
    RetryFrom(outcome, 0, retries, delay)
  }

  /** The retried call succeeds exactly when one of its at most retries + 1
      attempts does, and then with the first success; otherwise it rethrows
      the error of the last attempt. */
  lemma RetrySucceedsIffSomeAttemptDoes<T>(outcome: nat -> Attempt<T>, retries: int, delay: int)
    ensures var r := ExecuteWithRetry(outcome, retries, delay);
      (r.result.Success? <==> exists k :: 0 <= k <= Max(retries, 0) && outcome(k).Success?)
      && (r.result.Success? ==> exists k :: (0 <= k <= Max(retries, 0) && outcome(k) == r.result
          && forall j :: 0 <= j < k ==> outcome(j).Failure?))
      && (r.result.Failure? ==> r.result == outcome(Max(retries, 0)))
  {
    var r := ExecuteWithRetry(outcome, retries, delay);
    if r.result.Success? {
      assert outcome(r.calls - 1) == r.result;
    }
  }

  /** With the defaults, a call that keeps failing is tried four times,
      waiting 2, 4 and 8 seconds between the attempts. */
  lemma DefaultRetryWaits<T>(outcome: nat -> Attempt<T>)
    requires forall k :: outcome(k).Failure?
    ensures var r := ExecuteWithRetry(outcome, 3, 2000);
      r.calls == 4 && r.waits == [2000, 4000, 8000]
  {
    var r := ExecuteWithRetry(outcome, 3, 2000);
    assert Pow2(1) == 2 && Pow2(2) == 4;
    assert |r.waits| == 3;
  }

  // ---------------------------------------------------------------------
  // The design audit
  // ---------------------------------------------------------------------

  /** An audit answer; any field may be missing. Scores are whole numbers. */
  datatype AuditResult = AuditResult(status: Option<string>, integrityScore: Option<int>, cssRepairPayload: Option<string>)

  /** What the audit resolves to when every attempt has failed. */
  const AuditFallback := AuditResult(Some("OPTIMAL"), Some(100), None)

  /** performGlobalDesignAudit: the retried call with the defaults, its
      failure replaced by the fallback; a parse error of the answer is a
      failed attempt. The audit therefore never fails. */
  function PerformGlobalDesignAudit(outcome: nat -> Attempt<AuditResult>): (r: AuditResult)
    ensures (forall k :: 0 <= k <= 3 ==> outcome(k).Failure?) ==> r == AuditFallback
    ensures (exists k :: 0 <= k <= 3 && outcome(k).Success?) ==>
      exists k :: 0 <= k <= 3 && outcome(k) == Success(r) && forall j :: 0 <= j < k ==> outcome(j).Failure?
  {
    var t := ExecuteWithRetry(outcome, 3, 2000);
    RetrySucceedsIffSomeAttemptDoes(outcome, 3, 2000);
    if t.result.Success? then t.result.value else AuditFallback
  }

  // ---------------------------------------------------------------------
  // Data URLs
  // ---------------------------------------------------------------------

  /** The first piece of a split: everything up to the first separator. */
  lemma {:induction false} SplitHead(s: string, sep: char)
    ensures var h := Split(s, sep)[0];
      StartsWith(s, h) && (|h| == |s| || s[|h|] == sep)
    decreases |s|
  {
    if s != [] {
      SplitHead(s[1..], sep);
    }
  }

  /** `piece` is what stands between the comma at `i`, the first of `img`,
      and the next comma or the end. */
  predicate PieceAfterComma(img: string, i: int, piece: string)
  {
    0 <= i < |img| && img[i] == ',' && ',' !in img[..i]
    && StartsWith(img[i + 1..], piece) && ',' !in piece
    && (i + 1 + |piece| == |img| || img[i + 1 + |piece|] == ',')
  }

  /** The base64 payload of an image string: the piece after the first
      comma of a data URL, or the whole string when it has no comma. */
  function Base64Payload(img: string): (r: string)
    ensures ',' !in img ==> r == img
    ensures ',' in img ==> ',' !in r && exists i :: PieceAfterComma(img, i, r)
  {
    if ',' in img then
      var i := FirstComma(img);
      var rest := img[i + 1..];
      assert img == img[..i] + [','] + rest;
      SplitCons(img[..i], ',', rest);
      SplitHead(rest, ',');
      var r := Split(img, ',')[1];
      assert r == Split(rest, ',')[0];
      assert 0 <= i < |img| && img[i] == ',' && ',' !in img[..i] && StartsWith(img[i + 1..], r)
        && (i + 1 + |r| == |img| || img[i + 1 + |r|] == ',');
      assert PieceAfterComma(img, i, r);
      r
    else img
  }

  /** The index of the first comma. */
  function FirstComma(s: string): (i: nat)
    requires ',' in s
    ensures i < |s| && s[i] == ',' && ',' !in s[..i]
  {
    if s[0] == ',' then 0
    else
      var j := FirstComma(s[1..]);
      assert s[..j + 1] == [s[0]] + s[1..][..j];
      j + 1
  }

  /** A data URL gives back the data it was built from. */
  lemma PayloadOfDataUrl(header: string, data: string)
    requires ',' !in header && ',' !in data
    ensures Base64Payload(header + "," + data) == data
  {
    var img := header + "," + data;
    assert img[|header|] == ',';
    assert img == header + [','] + data;
    SplitCons(header, ',', data);
    SplitNone(data, ',');
  }

  // ---------------------------------------------------------------------
  // The couture answer
  // ---------------------------------------------------------------------

  /** A JSON value, as far as the pages look at it. */
  datatype Value = Str(s: string) | StrList(items: seq<string>) | OtherValue(json: string)

  /** A parsed JSON object. */
  type Object = map<string, Value>

  /** A part of the answer: inline image data, text, or neither. */
  datatype Part = Part(inlineData: Option<string>, text: Option<string>)

  /** `/\{[\s\S]*\}/`: from the first `{` that has a `}` after it to the
      last `}`. */
  function BraceSpan(text: string): (r: Option<string>)
    ensures r.Some? ==> |r.value| >= 2 && r.value[0] == '{' && r.value[|r.value| - 1] == '}'
    ensures r.None? <==> !exists i, j :: 0 <= i < j < |text| && text[i] == '{' && text[j] == '}'
  {
    if exists i, j :: 0 <= i < j < |text| && text[i] == '{' && text[j] == '}' then
      var i := FirstOf(text, '{');
      var j := LastOf(text, '}');
      assert i < j by {
        var i0, j0 :| 0 <= i0 < j0 < |text| && text[i0] == '{' && text[j0] == '}';
      }
      Some(text[i..j + 1])
    else None
  }

  function FirstOf(s: string, c: char): (i: nat)
    requires c in s
    ensures i < |s| && s[i] == c && forall k :: 0 <= k < i ==> s[k] != c
  {
    if s[0] == c then 0 else 1 + FirstOf(s[1..], c)
  }

  function LastOf(s: string, c: char): (j: nat)
    requires c in s
    ensures j < |s| && s[j] == c && forall k :: j < k < |s| ==> s[k] != c
  {
    if s[|s| - 1] == c then |s| - 1 else LastOf(s[..|s| - 1], c)
  }

  /** The image URL an inline-data part gives. */
  function ImageUrl(data: string): string
  {
    "data:image/png;base64," + data
  }

  /** The object a part's text gives: a non-empty text whose brace span
      parses. */
  function Parsed(part: Part, parse: string -> Option<Object>): Option<Object>
  {
    if part.text.Some? && part.text.value != "" then
      var span := BraceSpan(part.text.value);
      if span.Some? then parse(span.value) else None
    else None
  }

  /** One step of the loop: inline data sets the image URL; otherwise a
      parsed text merges its keys over the object, the parsed ones winning;
      anything else is skipped. */
  function MergePart(data: Object, part: Part, parse: string -> Option<Object>): (r: Object)
    ensures data.Keys <= r.Keys
    ensures part.inlineData.Some? ==> r == data["imageUrl" := Str(ImageUrl(part.inlineData.value))]
    ensures part.inlineData.None? && Parsed(part, parse).Some? ==>
      (r.Keys == data.Keys + Parsed(part, parse).value.Keys
      && forall key :: key in Parsed(part, parse).value ==> r[key] == Parsed(part, parse).value[key])
    ensures Skipped(part, parse) ==> r == data
  {
    var parsed := Parsed(part, parse);
    if part.inlineData.Some? then data["imageUrl" := Str(ImageUrl(part.inlineData.value))]
    else if parsed.Some? then data + parsed.value
    else data
  }

  /** A part the loop skips: no inline data and no text that parses. */
  predicate Skipped(part: Part, parse: string -> Option<Object>)
  {
    part.inlineData.None? && Parsed(part, parse).None?
  }

  const InitialCouture: Object := map["reasoningChain" := StrList([])]

  /** generateQuantumCouture's loop over the parts of the first candidate. */
  function MergeCouture(parts: seq<Part>, parse: string -> Option<Object>): (r: Object)
    ensures "reasoningChain" in r
    decreases |parts|
  {
    if parts == [] then InitialCouture
    else MergePart(MergeCouture(parts[..|parts| - 1], parse), parts[|parts| - 1], parse)
  }

  /** A part that cannot set the image URL: no inline data, and no parsed
      object with that key. */
  predicate LeavesImageAlone(part: Part, parse: string -> Option<Object>)
  {
    part.inlineData.None?
    && (Parsed(part, parse).Some? ==> "imageUrl" !in Parsed(part, parse).value)
  }

  /** The image URL comes from the last inline-data part, as long as no
      later text sets the key itself; with no inline data and no text that
      sets it, there is none. */
  lemma {:induction false} LastInlineDataWins(parts: seq<Part>, parse: string -> Option<Object>, k: int)
    requires -1 <= k < |parts|
    requires k >= 0 ==> parts[k].inlineData.Some?
    requires forall j :: k < j < |parts| ==> LeavesImageAlone(parts[j], parse)
    requires k < 0 ==> forall j :: 0 <= j < |parts| ==> LeavesImageAlone(parts[j], parse)
    ensures k >= 0 ==> ("imageUrl" in MergeCouture(parts, parse)
      && MergeCouture(parts, parse)["imageUrl"] == Str(ImageUrl(parts[k].inlineData.value)))
    ensures k < 0 ==> "imageUrl" !in MergeCouture(parts, parse)
    decreases |parts|
  {
    if parts != [] {
      var init := parts[..|parts| - 1];
      var last := parts[|parts| - 1];
      if k < |parts| - 1 {
        LastInlineDataWins(init, parse, k);
      }
    }
  }

  /** The filter of a list with one more element. */
  lemma FilterSnoc<T(!new)>(init: seq<T>, last: T, keep: T -> bool)
    ensures Filter(init + [last], keep) == Filter(init, keep) + (if keep(last) then [last] else [])
  {
    FilterAppend(init, [last], keep);
    assert Filter([last], keep) == (if keep(last) then [last] else []) + Filter([], keep);
  }

  /** A left fold, taking the last element last. */
  function Fold<S, T>(init: S, xs: seq<T>, step: (S, T) -> S): S
    decreases |xs|
  {
    if xs == [] then init else step(Fold(init, xs[..|xs| - 1], step), xs[|xs| - 1])
  }

  lemma FoldSnoc<S, T>(init: S, xs: seq<T>, x: T, step: (S, T) -> S)
    ensures Fold(init, xs + [x], step) == step(Fold(init, xs, step), x)
  {
    assert (xs + [x])[..|xs|] == xs;
  }

  /** Elements on which the step does nothing can be filtered out first. */
  lemma {:induction false} FoldSkipsNeutral<S, T(!new)>(init: S, xs: seq<T>, step: (S, T) -> S, keep: T -> bool)
    requires forall d, x :: !keep(x) ==> step(d, x) == d
    ensures Fold(init, xs, step) == Fold(init, Filter(xs, keep), step)
    decreases |xs|
  {
    if xs != [] {
      var init' := xs[..|xs| - 1];
      var last := xs[|xs| - 1];
      FoldSkipsNeutral(init, init', step, keep);
      assert xs == init' + [last];
      FilterSnoc(init', last, keep);
      if keep(last) {
        FoldSnoc(init, Filter(init', keep), last, step);
      } else {
        assert Filter(init', keep) + [] == Filter(init', keep);
      }
    }
  }

  /** The merge is a fold of its step. */
  lemma {:induction false} MergeIsFold(parts: seq<Part>, parse: string -> Option<Object>)
    ensures MergeCouture(parts, parse) == Fold(InitialCouture, parts, (d, p) => MergePart(d, p, parse))
    decreases |parts|
  {
    if parts != [] {
      MergeIsFold(parts[..|parts| - 1], parse);
    }
  }

  /** Skipped parts can be dropped: an answer with unparsable text merges
      to the same object as the answer without it. */
  lemma SkippedPartsDoNotMatter(parts: seq<Part>, parse: string -> Option<Object>, keep: Part -> bool)
    requires forall p :: !keep(p) ==> Skipped(p, parse)
    ensures MergeCouture(parts, parse) == MergeCouture(Filter(parts, keep), parse)
  {
    var step := (d, p) => MergePart(d, p, parse);
    MergeIsFold(parts, parse);
    MergeIsFold(Filter(parts, keep), parse);
    FoldSkipsNeutral(InitialCouture, parts, step, keep);
  }
}
