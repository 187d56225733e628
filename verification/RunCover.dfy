/**
 If owners do go back along a stream, the runs that start at each domain's first byte and
 are as long as its share overlap, and so leave some stream position uncovered.
 */
module RunCover {
  import opened Extents
  import opened Domains
  import opened Shares

  /** Position k lies in the run of domain d. */
  ghost predicate InRun(starts: seq<int>, f: seq<int>, d: nat, k: int)
    requires |starts| > 0
  {
    First(starts, d, f) <= k < First(starts, d, f) + Count(starts, d, f)
  }

  /** The first byte of a domain, and that its run stays inside the stream. */
  lemma {:induction false} FirstFacts(starts: seq<int>, d: nat, f: seq<int>)
    requires |starts| > 0
    ensures First(starts, d, f) + Count(starts, d, f) <= |f|
    ensures Count(starts, d, f) > 0 ==> First(starts, d, f) < |f| && Owner(starts, f[First(starts, d, f)]) == d
    ensures forall j :: 0 <= j < First(starts, d, f) && j < |f| ==> Owner(starts, f[j]) != d
  {
    if f == [] {
    } else {
      FirstFacts(starts, d, f[..|f| - 1]);
    }
  }

  lemma OwnedCounts(starts: seq<int>, d: nat, f: seq<int>, k: nat)
    requires |starts| > 0 && k < |f| && Owner(starts, f[k]) == d
    ensures Count(starts, d, f) > 0 && First(starts, d, f) <= k
  {
    FirstFacts(starts, d, f);
    CountMonotone(starts, d, f, k, |f|);
    assert f[..|f|] == f;
  }

  /** Positions a..b - 1 of domain d and a later one make at least b - a + 1. */
  lemma ManyOwned(starts: seq<int>, d: nat, f: seq<int>, a: nat, b: nat, c: nat)
    requires |starts| > 0 && a <= b <= c < |f| && Owner(starts, f[c]) == d
    requires forall j :: a <= j < b ==> Owner(starts, f[j]) == d
    ensures Count(starts, d, f) > b - a
  {
    var r := f[a..b];
    ShareUniform(starts, d, d, r, r);
    CountConcat(starts, d, f[..a], r);
    assert f[..b] == f[..a] + r && f[..|f|] == f;
    CountMonotone(starts, d, f, b, c);
    CountMonotone(starts, d, f, c, |f|);
  }

  /** The first position from `a` on that d does not own. */
  lemma {:induction false} FirstOther(starts: seq<int>, d: nat, f: seq<int>, a: nat, b: nat) returns (m: nat)
    requires |starts| > 0 && a <= b < |f| && Owner(starts, f[b]) != d
    ensures a <= m <= b && Owner(starts, f[m]) != d && forall j :: a <= j < m ==> Owner(starts, f[j]) == d
    decreases b - a
  {
    if Owner(starts, f[a]) != d {
      m := a;
    } else {
      m := FirstOther(starts, d, f, a + 1, b);
    }
  }

  /** A domain that is left and returned to makes two runs overlap. */
  lemma {:induction false} RunsOverlap(starts: seq<int>, f: seq<int>, d: nat, a: nat, b: nat, c: nat)
    returns (e: nat, g: nat, k: nat)
    requires |starts| > 0 && a < b < c < |f|
    requires Owner(starts, f[a]) == Owner(starts, f[c]) == d != Owner(starts, f[b])
    ensures e < |starts| && g < |starts| && e != g && k < |f| && InRun(starts, f, e, k) && InRun(starts, f, g, k)
    decreases First(starts, d, f)
  {
    hide First, Count, Owner;
    OwnedCounts(starts, d, f, a);
    FirstFacts(starts, d, f);
    var first := First(starts, d, f);
    k := FirstOther(starts, d, f, first, b);
    ManyOwned(starts, d, f, first, k, c);
    e, g := d, Owner(starts, f[k]);
    OwnedCounts(starts, g, f, k);
    FirstFacts(starts, g, f);
    var first' := First(starts, g, f);
    if first' < k {
      assert first' < first;
      e, g, k := RunsOverlap(starts, f, g, first', first, k);
    }
  }

  // ---------- Counting ----------

  /** In how many of the first `n` domains' runs position k lies. */
  ghost function Hits(starts: seq<int>, f: seq<int>, n: nat, k: int): nat
    requires |starts| > 0
  {
    if n == 0 then 0 else Hits(starts, f, n - 1, k) + if InRun(starts, f, n - 1, k) then 1 else 0
  }

  ghost function HitsBelow(starts: seq<int>, f: seq<int>, n: nat, m: nat): nat
    requires |starts| > 0
  {
    if m == 0 then 0 else HitsBelow(starts, f, n, m - 1) + Hits(starts, f, n, m - 1)
  }

  ghost function CountAll(starts: seq<int>, f: seq<int>, n: nat): nat
    requires |starts| > 0
  {
    if n == 0 then 0 else CountAll(starts, f, n - 1) + Count(starts, n - 1, f)
  }

  lemma {:induction false} HitsStep(starts: seq<int>, f: seq<int>, n: nat, m: nat)
    requires |starts| > 0
    ensures HitsBelow(starts, f, n + 1, m) ==
            HitsBelow(starts, f, n, m) + Clamp(m, First(starts, n, f), Count(starts, n, f))
  {
    hide First, Count;
    if m == 0 {
    } else {
      HitsStep(starts, f, n, m - 1);
    }
  }

  /** Summed over the positions, the hits are the lengths of the runs. */
  lemma {:induction false} HitsAreCounts(starts: seq<int>, f: seq<int>, n: nat)
    requires |starts| > 0
    ensures HitsBelow(starts, f, n, |f|) == CountAll(starts, f, n)
  {
    if n == 0 {
      NoHits(starts, f, |f|);
    } else {
      HitsAreCounts(starts, f, n - 1);
      HitsStep(starts, f, n - 1, |f|);
      FirstFacts(starts, n - 1, f);
    }
  }

  lemma {:induction false} NoHits(starts: seq<int>, f: seq<int>, m: nat)
    requires |starts| > 0
    ensures HitsBelow(starts, f, 0, m) == 0
  {
    if m == 0 {
    } else {
      NoHits(starts, f, m - 1);
    }
  }

  /** Every position has one owner: the shares together are as long as the stream. */
  lemma {:induction false} SharesAddUp(starts: seq<int>, f: seq<int>)
    requires |starts| > 0
    ensures CountAll(starts, f, |starts|) == |f|
  {
    if f == [] {
      NoCounts(starts, |starts|);
    } else {
      SharesAddUp(starts, f[..|f| - 1]);
      CountAllStep(starts, f, |starts|);
    }
  }

  lemma {:induction false} NoCounts(starts: seq<int>, n: nat)
    requires |starts| > 0
    ensures CountAll(starts, [], n) == 0
  {
    if n == 0 {
    } else {
      NoCounts(starts, n - 1);
    }
  }

  lemma {:induction false} CountAllStep(starts: seq<int>, f: seq<int>, n: nat)
    requires |starts| > 0 && f != []
    ensures CountAll(starts, f, n) ==
            CountAll(starts, f[..|f| - 1], n) + if Owner(starts, f[|f| - 1]) < n then 1 else 0
  {
    if n == 0 {
    } else {
      CountAllStep(starts, f, n - 1);
    }
  }

  lemma {:induction false} HitsAtLeast(starts: seq<int>, f: seq<int>, n: nat, d: nat, k: int)
    requires |starts| > 0 && d < n && InRun(starts, f, d, k)
    ensures Hits(starts, f, n, k) >= 1
  {
    if d < n - 1 { HitsAtLeast(starts, f, n - 1, d, k); }
  }

  lemma {:induction false} HitsTwice(starts: seq<int>, f: seq<int>, n: nat, d: nat, e: nat, k: int)
    requires |starts| > 0 && d < e < n && InRun(starts, f, d, k) && InRun(starts, f, e, k)
    ensures Hits(starts, f, n, k) >= 2
  {
    if e < n - 1 { HitsTwice(starts, f, n - 1, d, e, k); } else { HitsAtLeast(starts, f, n - 1, d, k); }
  }

  lemma {:induction false} ManyHits(starts: seq<int>, f: seq<int>, n: nat, m: nat, k: nat)
    requires |starts| > 0 && forall j :: 0 <= j < m ==> Hits(starts, f, n, j) >= 1
    requires Hits(starts, f, n, k) >= 2
    ensures HitsBelow(starts, f, n, m) >= m + if k < m then 1 else 0
  {
    if m == 0 {
    } else {
      ManyHits(starts, f, n, m - 1, k);
      assert Hits(starts, f, n, m - 1) >= 1;
    }
  }

  /** If a domain is left and returned to, some position lies in no run. */
  lemma {:induction false} Uncovered(starts: seq<int>, f: seq<int>, a: nat, b: nat, c: nat) returns (k: nat)
    requires |starts| > 0 && a < b < c < |f|
    requires Owner(starts, f[a]) == Owner(starts, f[c]) != Owner(starts, f[b])
    ensures k < |f| && forall d :: 0 <= d < |starts| ==> !InRun(starts, f, d, k)
  {
    hide InRun, Owner, Hits;
    var n := |starts|;
    var e, g, m := RunsOverlap(starts, f, Owner(starts, f[a]), a, b, c);
    if e < g { HitsTwice(starts, f, n, e, g, m); } else { HitsTwice(starts, f, n, g, e, m); }
    HitsAreCounts(starts, f, n);
    SharesAddUp(starts, f);
    if forall j :: 0 <= j < |f| ==> Hits(starts, f, n, j) >= 1 {
      ManyHits(starts, f, n, |f|, m);
      assert false;
    }
    k :| k < |f| && Hits(starts, f, n, k) == 0;
    forall d | 0 <= d < n ensures !InRun(starts, f, d, k) {
      if InRun(starts, f, d, k) { HitsAtLeast(starts, f, n, d, k); }
    }
  }
}
