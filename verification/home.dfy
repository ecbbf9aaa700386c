/** The home page: the featured strip and the two telemetry counters that
    an interval timer moves every 2.5 seconds. Each timer tick is one
    transition; the random drift of the stability reading is an input. */
module HomePage {
  import opened Prelude
  import opened Types
  import Catalog

  function IsFeatured(p: Product): bool { p.featured }

  /** The number of featured products in a list. */
  function CountFeatured(s: seq<Product>): (n: nat)
    ensures n <= |s|
  {
    if s == [] then 0 else (if s[0].featured then 1 else 0) + CountFeatured(s[1..])
  }

  /** Counting the featured products before index `i` looks at the head
      and then at the tail's first `i - 1` products. */
  lemma CountPrefixStep(s: seq<Product>, i: nat)
    requires 0 < i <= |s|
    ensures CountFeatured(s[..i]) == (if s[0].featured then 1 else 0) + CountFeatured(s[1..][..i - 1])
  {
    assert s[..i][1..] == s[1..][..i - 1];
  }

  /** The featured products of a list in order, written out on its own:
      unlike the general filter it carries no membership facts, which keeps
      reasoning about positions small. FeaturedOfIsFilter ties the two. */
  function FeaturedOf(s: seq<Product>): (r: seq<Product>)
    ensures |r| == CountFeatured(s)
  {
    if s == [] then [] else (if s[0].featured then [s[0]] else []) + FeaturedOf(s[1..])
  }

  /** The written-out featured products are what the filter keeps. */
  lemma {:induction false} FeaturedOfIsFilter(s: seq<Product>)
    ensures FeaturedOf(s) == Filter(s, IsFeatured)
  {
    if s != [] {
      FeaturedOfIsFilter(s[1..]);
      if s[0].featured { StepKept(s, s[1..], IsFeatured); } else { StepDropped(s, s[1..], IsFeatured); }
    }
  }

  /** The featured product at index `i` comes right after the featured
      products before it. */
  lemma {:induction false} FeaturedAt(s: seq<Product>, i: nat)
    requires i < |s| && s[i].featured
    ensures CountFeatured(s[..i]) < |FeaturedOf(s)| && FeaturedOf(s)[CountFeatured(s[..i])] == s[i]
    decreases i
  {
    var t := s[1..];
    if i == 0 {
      assert s[..i] == [];
    } else {
      FeaturedAt(t, i - 1);
      CountPrefixStep(s, i);
      assert t[i - 1] == s[i];
      var k := CountFeatured(t[..i - 1]);
      if s[0].featured {
        assert FeaturedOf(s)[1 + k] == FeaturedOf(t)[k];
      }
    }
  }

  /** Every featured product, at the place the products before it give. */
  lemma FeaturedPositions(s: seq<Product>)
    ensures forall i :: 0 <= i < |s| && s[i].featured ==>
      CountFeatured(s[..i]) < |Filter(s, IsFeatured)| && Filter(s, IsFeatured)[CountFeatured(s[..i])] == s[i]
  {
    FeaturedOfIsFilter(s);
    forall i | 0 <= i < |s| && s[i].featured
      ensures CountFeatured(s[..i]) < |FeaturedOf(s)| && FeaturedOf(s)[CountFeatured(s[..i])] == s[i]
    {
      FeaturedAt(s, i);
    }
  }

  /** The featured strip: the first four featured products, in catalog
      order. It shows four products, or every featured one when there are
      fewer, and the featured product with `k` featured ones before it is
      shown in place `k` whenever `k` is below four, so none is skipped in
      favour of a later one. */
  function Featured(catalog: seq<Product>): (r: seq<Product>)
    ensures |r| == Min(4, CountFeatured(catalog))
    ensures forall i :: 0 <= i < |r| ==> r[i].featured
    ensures IsSubsequence(r, catalog)
    ensures |r| < 4 ==> forall p :: p in catalog && p.featured ==> p in r
    ensures forall i :: 0 <= i < |catalog| && catalog[i].featured && CountFeatured(catalog[..i]) < 4 ==>
      CountFeatured(catalog[..i]) < |r| && r[CountFeatured(catalog[..i])] == catalog[i]
  {
    var all := Filter(catalog, IsFeatured);
    FilterIsSubsequence(catalog, IsFeatured);
    FeaturedOfIsFilter(catalog);
    FeaturedPositions(catalog);
    var r := Take(all, 4);
    PrefixIsSubsequence(r, all);
    SubsequenceTransitive(r, all, catalog);
    r
  }

  /** A filter step that keeps the head, stated for a named tail. */
  lemma StepKept(s: seq<Product>, t: seq<Product>, keep: Product -> bool)
    requires s != [] && t == s[1..] && keep(s[0])
    ensures Filter(s, keep) == [s[0]] + Filter(t, keep)
  {
  }

  /** A filter step that drops the head, stated for a named tail. */
  lemma StepDropped(s: seq<Product>, t: seq<Product>, keep: Product -> bool)
    requires s != [] && t == s[1..] && !keep(s[0])
    ensures Filter(s, keep) == Filter(t, keep)
  {
  }

  /** When the fourth element is the only one of the first five that is
      dropped, the first four kept are the first, second, third and fifth. */
  lemma KeepFirstFour(s: seq<Product>, keep: Product -> bool)
    requires |s| >= 5 && keep(s[0]) && keep(s[1]) && keep(s[2]) && !keep(s[3]) && keep(s[4])
    ensures var f := Filter(s, keep);
      |f| >= 4 && f[0] == s[0] && f[1] == s[1] && f[2] == s[2] && f[3] == s[4]
  {
    var s1, s2, s3, s4, s5 := s[1..], s[2..], s[3..], s[4..], s[5..];
    StepKept(s4, s5, keep);
    StepDropped(s3, s4, keep);
    StepKept(s2, s3, keep);
    StepKept(s1, s2, keep);
    StepKept(s, s1, keep);
    var f1, f2, f4 := Filter(s1, keep), Filter(s2, keep), Filter(s4, keep);
    assert f4[0] == s[4];
    assert f2[0] == s[2] && f2[1] == s[4];
    assert f1[0] == s[1] && f1[1] == s[2] && f1[2] == s[4];
  }

  /** On the shipped catalog the strip shows m1, w4, a2 and w1: m2, the one
      product that is not featured, is skipped. */
  lemma HomeShowsFirstFourFeatured()
    ensures var r := Featured(Catalog.Products);
      |r| == 4 && r[0].id == "m1" && r[1].id == "w4" && r[2].id == "a2" && r[3].id == "w1"
  {
    Catalog.FeaturedProducts();
    Catalog.CatalogIdsInOrder();
    var s := Catalog.Products;
    assert s[0].id == "m1" && s[1].id == "w4" && s[2].id == "a2" && s[3].id == "m2" && s[4].id == "w1";
    KeepFirstFour(s, IsFeatured);
  }

  /** One tick of the node counter: up by one, wrapping at 1000. */
  function Tick(t: int): (r: int)
    ensures 0 <= r < 1000
    ensures 0 <= t < 999 ==> r == t + 1
    ensures t == 999 ==> r == 0
  {
    (t + 1) % 1000
  }

  /** The counter after `n` ticks from its initial 0. */
  function Ticks(n: nat): int
  {
    if n == 0 then 0 else Tick(Ticks(n - 1))
  }

  /** After any number of ticks the counter is that number modulo 1000, so
      it never leaves [0, 1000). */
  lemma {:induction false} TicksCountModulo(n: nat)
    ensures Ticks(n) == n % 1000
    ensures 0 <= Ticks(n) < 1000
  {
    if n > 0 {
      TicksCountModulo(n - 1);
      var q, m := (n - 1) / 1000, (n - 1) % 1000;
      if m == 999 {
        ModOfMultiple(n, q + 1);
      } else {
        ModOfSum(n, q, m + 1);
      }
    }
  }

  lemma ModOfMultiple(n: int, q: int)
    requires n == q * 1000
    ensures n % 1000 == 0
  {
  }

  lemma ModOfSum(n: int, q: int, r: int)
    requires 0 <= r < 1000 && n == q * 1000 + r
    ensures n % 1000 == r
  {
  }

  /** The counter as displayed: zero-padded to three digits. */
  function TickerText(t: int): (r: string)
    requires 0 <= t < 1000
    ensures |r| == 3
    ensures forall i :: 0 <= i < 3 ==> '0' <= r[i] <= '9'
    ensures r[3 - |NatToString(t)|..] == NatToString(t)
  {
    PadStart(NatToString(t), 3, '0')
  }

  /** One tick of the stability reading: the drift is added and the result
      clamped to [99.5, 100]. */
  function Stabilize(s: real, drift: real): (r: real)
    ensures 99.5 <= r <= 100.0
    ensures 99.5 <= s + drift <= 100.0 ==> r == s + drift
    ensures s + drift > 100.0 ==> r == 100.0
    ensures s + drift < 99.5 ==> r == 99.5
  {
    var moved := s + drift;
    var atLeast := if moved < 99.5 then 99.5 else moved;
    if atLeast > 100.0 then 100.0 else atLeast
  }

  /** The drift of one tick: a random number in [0, 1), less a half, times 0.05. */
  function Drift(random: real): real
  {
    (random - 0.5) * 0.05
  }

  /** The reading after a series of ticks, from its initial 100. */
  function Stability(randoms: seq<real>): (r: real)
    ensures 99.5 <= r <= 100.0
    decreases |randoms|
  {
    if randoms == [] then 100.0 else Stabilize(Stability(randoms[..|randoms| - 1]), Drift(randoms[|randoms| - 1]))
  }

  /** Whatever random numbers are drawn, each tick moves the reading by at
      most 0.025 and the reading stays in [99.5, 100]. */
  lemma {:induction false} StabilityStaysClamped(randoms: seq<real>)
    requires forall i :: 0 <= i < |randoms| ==> 0.0 <= randoms[i] < 1.0
    ensures 99.5 <= Stability(randoms) <= 100.0
    ensures randoms != [] ==>
      -0.025 <= Stability(randoms) - Stability(randoms[..|randoms| - 1]) <= 0.025
    decreases |randoms|
  {
    if randoms != [] {
      var prefix := randoms[..|randoms| - 1];
      assert forall i :: 0 <= i < |prefix| ==> prefix[i] == randoms[i];
      StabilityStaysClamped(prefix);
    }
  }
}
