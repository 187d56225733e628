/**
 Hole detection over the merged requests of one window: does the received data cover the
 window, or must the window be read first?  Two variants: coalescing
 (`ADIOI_W_Exchange_data`) and the pairwise scan (`ADIOI_W_Exchange_data_alltoallv`).
 */
module Holes {
  import opened Extents
  import opened HeapMerge
  import opened Windows

  ghost predicate Touches(xs: seq<Extent>, x: int) {
    exists j :: 0 <= j < |xs| && xs[j].Has(x)
  }

  ghost predicate Covered(xs: seq<Extent>, lo: int, hi: int) {
    forall x :: lo <= x < hi ==> Touches(xs, x)
  }

  /** Every request starts in the window. */
  ghost predicate StartsIn(xs: seq<Extent>, lo: int, hi: int) {
    forall j :: 0 <= j < |xs| ==> lo <= xs[j].off < hi
  }

  /** No request runs past the window: the lengths were cut off at its end. */
  ghost predicate EndsIn(xs: seq<Extent>, hi: int) {
    forall j :: 0 <= j < |xs| ==> xs[j].End() <= hi
  }

  ghost predicate EndsSorted(xs: seq<Extent>) {
    forall i, j :: 0 <= i < j < |xs| ==> xs[i].End() <= xs[j].End()
  }

  lemma {:induction false} NondecreasingAll(xs: seq<Extent>, i: nat, j: nat)
    requires Nondecreasing(xs) && i <= j < |xs|
    ensures xs[i].off <= xs[j].off
    decreases j
  {
    if i == j {
    } else {
      NondecreasingAll(xs, i, j - 1);
    }
  }

  /** The first `i` requests coalesce to [lo, end): together they touch just that. */
  ghost predicate Coalesced(xs: seq<Extent>, i: nat, lo: int, end: int)
    requires i <= |xs|
  {
    (forall j :: 0 <= j < i ==> xs[j].End() <= end) && forall x :: lo <= x < end ==> Touches(xs[..i], x)
  }

  lemma CoalesceStep(xs: seq<Extent>, i: nat, k: nat, lo: int, end: int, end': int)
    requires i < |xs| && k == i + 1 && Coalesced(xs, i, lo, end) && xs[i].off <= end && end' == Max(end, xs[i].End())
    ensures Coalesced(xs, k, lo, end')
  {
    forall x | lo <= x < end' ensures Touches(xs[..k], x) {
      if x < end {
        assert Touches(xs[..i], x);
        var j :| 0 <= j < |xs[..i]| && xs[..i][j].Has(x);
        assert xs[..k][j].Has(x);
      } else {
        assert xs[..k][i].Has(x);
      }
    }
  }

  lemma CoalesceGap(xs: seq<Extent>, i: nat, lo: int, end: int)
    requires Nondecreasing(xs) && i < |xs| && Coalesced(xs, i, lo, end) && end < xs[i].off
    ensures !Touches(xs, end)
  {
    forall j | 0 <= j < |xs| ensures !xs[j].Has(end) {
      if i <= j { NondecreasingAll(xs, i, j); }
    }
  }

  lemma CoalesceAll(xs: seq<Extent>, lo: int, end: int, hi: int)
    requires Coalesced(xs, |xs|, lo, end) && lo <= end <= hi
    ensures Covered(xs, lo, hi) <==> end == hi
  {
    assert xs[..|xs|] == xs;
    if end < hi { assert !Touches(xs, end); }
  }

  lemma FrontGap(xs: seq<Extent>, lo: int)
    requires |xs| > 0 && Nondecreasing(xs) && lo < xs[0].off
    ensures !Touches(xs, lo)
  {
    forall j | 0 <= j < |xs| ensures !xs[j].Has(lo) { NondecreasingAll(xs, 0, j); }
  }

  /** Coalescing, in place on the first entry: exact. */
  method CoalesceHole(srt: array<Extent>, off: int, size: nat) returns (hole: bool)
    requires srt.Length > 0 && size > 0
    requires Nondecreasing(srt[..]) && StartsIn(srt[..], off, off + size) && EndsIn(srt[..], off + size)
    modifies srt
    ensures hole <==> !old(Covered(srt[..], off, off + size))
  {
    hide Nondecreasing, Coalesced, Touches, Covered;
    ghost var xs := srt[..];
    hole := false;
    if off != srt[0].off {
      FrontGap(xs, off);
      GapNotCovered(xs, off, off + size, off);
      hole := true;
    } else {
      var i := 1;
      CoalesceFirst(xs, off, srt[0].off + srt[0].len);
      while i < srt.Length && srt[i].off <= srt[0].off + srt[0].len
        invariant 1 <= i <= srt.Length && srt[0].off == off
        invariant srt[1..] == xs[1..]
        invariant Coalesced(xs, i, off, srt[0].off + srt[0].len)
        invariant srt[0].off + srt[0].len <= off + size
      {
        assert srt[i] == xs[i];
        ghost var end := srt[0].off + srt[0].len;
        var newLen := srt[i].off + srt[i].len - srt[0].off;
        if newLen > srt[0].len {
          srt[0] := Extent(srt[0].off, newLen);
        }
        CoalesceStep(xs, i, i + 1, off, end, srt[0].off + srt[0].len);
        i := i + 1;
      }
      if i < srt.Length {
        assert srt[i] == xs[i];
        CoalesceGap(xs, i, off, srt[0].off + srt[0].len);
        GapNotCovered(xs, off, off + size, srt[0].off + srt[0].len);
      } else {
        CoalesceAll(xs, off, srt[0].off + srt[0].len, off + size);
      }
      if i < srt.Length || size != srt[0].len {
        hole := true;
      }
    }
  }

  lemma CoalesceFirst(xs: seq<Extent>, lo: int, end: int)
    requires |xs| > 0 && xs[0].off == lo && end == xs[0].off + xs[0].len
    ensures Coalesced(xs, 1, lo, end)
  {
    forall x | lo <= x < end ensures Touches(xs[..1], x) { assert xs[..1][0].Has(x); }
  }

  lemma GapNotCovered(xs: seq<Extent>, lo: int, hi: int, x: int)
    requires lo <= x < hi && !Touches(xs, x)
    ensures !Covered(xs, lo, hi)
  {
  }

  // ---------- The pairwise scan ----------

  ghost predicate Chained(xs: seq<Extent>, n: int) {
    forall i :: 0 <= i < n && i + 1 < |xs| ==> xs[i].End() >= xs[i + 1].off
  }

  /** The request that reaches `x` in a chained list: the last one starting by then. */
  lemma {:induction false} ChainTouches(xs: seq<Extent>, n: nat, x: int)
    requires 0 < n <= |xs| && Chained(xs, n - 1) && xs[0].off <= x < xs[n - 1].End()
    ensures Touches(xs, x)
  {
    if xs[n - 1].off <= x {
      assert xs[n - 1].Has(x);
    } else {
      ChainTouches(xs, n - 1, x);
    }
  }

  lemma ChainCovers(xs: seq<Extent>, lo: int, hi: int)
    requires |xs| > 0 && Chained(xs, |xs| - 1) && xs[0].off <= lo && hi <= xs[|xs| - 1].End()
    ensures Covered(xs, lo, hi)
  {
    forall x | lo <= x < hi ensures Touches(xs, x) { ChainTouches(xs, |xs|, x); }
  }

  lemma PairGap(xs: seq<Extent>, i: nat, lo: int, hi: int)
    requires Nondecreasing(xs) && EndsSorted(xs) && StartsIn(xs, lo, hi)
    requires i + 1 < |xs| && xs[i].End() < xs[i + 1].off
    ensures !Covered(xs, lo, hi)
  {
    var x := xs[i].End();
    assert lo <= xs[i].off && xs[i + 1].off < hi;
    forall j | 0 <= j < |xs| ensures !xs[j].Has(x) {
      if i < j { NondecreasingAll(xs, i + 1, j); }
    }
    assert !Touches(xs, x);
  }

  lemma TailGap(xs: seq<Extent>, lo: int, hi: int)
    requires |xs| > 0 && EndsSorted(xs) && xs[|xs| - 1].End() < hi && lo < hi
    ensures !Covered(xs, lo, hi)
  {
    var x := hi - 1;
    forall j | 0 <= j < |xs| ensures !xs[j].Has(x) {
      assert xs[j].End() <= xs[|xs| - 1].End();
    }
    assert !Touches(xs, x);
  }

  /** What the pairwise scan looks for: a gap in front, a last request that stops short,
      or a request that stops before the next one starts. */
  ghost predicate Reported(xs: seq<Extent>, lo: int, hi: int)
    requires |xs| > 0
  {
    lo < xs[0].off || xs[|xs| - 1].End() < hi || !Chained(xs, |xs| - 1)
  }

  /** The pairwise scan never misses a hole, and when it reports one is settled by the
      list; whether there is a hole then is the subject of `PairwiseExactIff`. */
  method PairwiseHole(srt: array<Extent>, off: int, size: nat) returns (hole: bool)
    requires srt.Length > 0 && size > 0
    requires Nondecreasing(srt[..]) && StartsIn(srt[..], off, off + size)
    ensures !hole ==> Covered(srt[..], off, off + size)
    ensures EndsSorted(srt[..]) ==> (hole <==> !Covered(srt[..], off, off + size))
    ensures hole <==> Reported(srt[..], off, off + size)
  {
    hide Nondecreasing, Covered, Touches, EndsSorted, Chained;
    var sum := srt.Length;
    ghost var xs := srt[..];
    hole := false;
    if srt[0].off > off || srt[sum - 1].off + srt[sum - 1].len < off + size {
      hole := true;
    } else {
      var i := 0;
      ChainedNone(xs);
      while i < sum - 1 && !hole
        invariant 0 <= i <= sum - 1
        invariant !hole ==> Chained(xs, i)
        invariant hole ==> !Chained(xs, sum - 1)
        decreases sum - i, !hole
      {
        ChainedStep(xs, i);
        if srt[i].off + srt[i].len < srt[i + 1].off {
          hole := true;
        } else {
          i := i + 1;
        }
      }
      if !hole { ChainCovers(xs, off, off + size); }
    }
    if EndsSorted(xs) { SortedReport(xs, off, off + size); }
  }

  lemma ChainedNone(xs: seq<Extent>)
    ensures Chained(xs, 0)
  {
  }

  lemma ChainedStep(xs: seq<Extent>, i: nat)
    requires i + 1 < |xs|
    ensures Chained(xs, i) && xs[i + 1].off <= xs[i].End() ==> Chained(xs, i + 1)
    ensures xs[i].End() < xs[i + 1].off ==> !Chained(xs, |xs| - 1)
  {
  }

  lemma SortedReport(xs: seq<Extent>, lo: int, hi: int)
    requires |xs| > 0 && Nondecreasing(xs) && StartsIn(xs, lo, hi) && EndsSorted(xs) && lo < hi
    ensures Reported(xs, lo, hi) <==> !Covered(xs, lo, hi)
  {
    hide Nondecreasing, Covered, EndsSorted;
    if lo < xs[0].off {
      FrontGap(xs, lo);
      GapNotCovered(xs, lo, hi, lo);
    } else if xs[|xs| - 1].End() < hi {
      TailGap(xs, lo, hi);
    } else if Chained(xs, |xs| - 1) {
      ChainCovers(xs, lo, hi);
    } else {
      var i :| 0 <= i < |xs| - 1 && i + 1 < |xs| && xs[i].End() < xs[i + 1].off;
      PairGap(xs, i, lo, hi);
    }
  }

  // ---------- When the pairwise scan is right ----------

  /** The greatest end of the first `n` requests. */
  function Reach(xs: seq<Extent>, n: nat): int
    requires 0 < n <= |xs|
  {
    if n == 1 then xs[0].End() else Max(Reach(xs, n - 1), xs[n - 1].End())
  }

  /** Where the bytes after request i begin to be somebody else's: the next request's
      start, or the window's end. */
  function Next(xs: seq<Extent>, i: nat, hi: int): int
    requires i < |xs|
  {
    if i + 1 < |xs| then xs[i + 1].off else hi
  }

  /** Nothing up to request i reaches the next one: a hole ... */
  ghost predicate Gap(xs: seq<Extent>, i: nat, hi: int)
    requires i < |xs|
  {
    Reach(xs, i + 1) < Next(xs, i, hi)
  }

  /** ... while the scan looks at request i alone. */
  ghost predicate Short(xs: seq<Extent>, i: nat, hi: int)
    requires i < |xs|
  {
    xs[i].End() < Next(xs, i, hi)
  }

  lemma {:induction false} ReachBounds(xs: seq<Extent>, n: nat) returns (k: nat)
    requires 0 < n <= |xs|
    ensures k < n && xs[k].End() == Reach(xs, n)
    ensures forall j :: 0 <= j < n ==> xs[j].End() <= Reach(xs, n)
  {
    if n == 1 {
      k := 0;
    } else {
      k := ReachBounds(xs, n - 1);
      if Reach(xs, n - 1) < xs[n - 1].End() { k := n - 1; }
    }
  }

  /** A gap is a byte of the window that nobody touches. */
  lemma GapIsHole(xs: seq<Extent>, i: nat, lo: int, hi: int)
    requires Nondecreasing(xs) && StartsIn(xs, lo, hi) && i < |xs| && Gap(xs, i, hi)
    ensures !Covered(xs, lo, hi)
  {
    hide Nondecreasing, Covered;
    var k := ReachBounds(xs, i + 1);
    var x := Reach(xs, i + 1);
    assert lo <= xs[k].off <= x < hi;
    forall j | 0 <= j < |xs| ensures !xs[j].Has(x) {
      if i < j { NondecreasingAll(xs, i + 1, j); }
    }
    GapNotCovered(xs, lo, hi, x);
  }

  /** Without a gap up to request n - 1 everything before its successor is touched. */
  lemma {:induction false} NoGapTouches(xs: seq<Extent>, n: nat, hi: int, x: int)
    requires Nondecreasing(xs) && 0 < n <= |xs| && xs[0].off <= x < Next(xs, n - 1, hi)
    requires forall i :: 0 <= i < n ==> !Gap(xs, i, hi)
    ensures Touches(xs, x)
  {
    if n > 1 && x < xs[n - 1].off {
      NoGapTouches(xs, n - 1, hi, x);
    } else {
      var k := ReachBounds(xs, n);
      assert !Gap(xs, n - 1, hi);
      NondecreasingAll(xs, k, n - 1);
      assert xs[k].Has(x);
    }
  }

  /** The window has a hole exactly if the front is open or there is a gap. */
  lemma {:induction false} CoveredIff(xs: seq<Extent>, lo: int, hi: int)
    requires |xs| > 0 && Nondecreasing(xs) && StartsIn(xs, lo, hi) && lo < hi
    ensures Covered(xs, lo, hi) <==> xs[0].off <= lo && forall i :: 0 <= i < |xs| ==> !Gap(xs, i, hi)
  {
    hide Nondecreasing, Gap;
    if lo < xs[0].off {
      FrontGap(xs, lo);
      GapNotCovered(xs, lo, hi, lo);
    } else if i :| 0 <= i < |xs| && Gap(xs, i, hi) {
      GapIsHole(xs, i, lo, hi);
    } else {
      forall x | lo <= x < hi ensures Touches(xs, x) { NoGapTouches(xs, |xs|, hi, x); }
    }
  }

  lemma ReportedIff(xs: seq<Extent>, lo: int, hi: int)
    requires |xs| > 0
    ensures Reported(xs, lo, hi) <==> lo < xs[0].off || exists i :: 0 <= i < |xs| && Short(xs, i, hi)
  {
    var n := |xs| - 1;
    if xs[n].End() < hi { assert Short(xs, n, hi); }
    if !Chained(xs, n) {
      var i :| 0 <= i < n && i + 1 < |xs| && xs[i].End() < xs[i + 1].off;
      assert Short(xs, i, hi);
    }
    if i :| 0 <= i < |xs| && Short(xs, i, hi) {
      if i < n { assert xs[i].End() < xs[i + 1].off; }
    }
  }

  /** The pairwise scan is right about a window if and only if its front is open, or there
      is a real gap, or no request stops short of the next one.  Its false reports are
      just the windows in which some request stops short but an earlier one reaches on. */
  lemma {:induction false} PairwiseExactIff(xs: seq<Extent>, lo: int, hi: int)
    requires |xs| > 0 && Nondecreasing(xs) && StartsIn(xs, lo, hi) && lo < hi
    ensures (Reported(xs, lo, hi) <==> !Covered(xs, lo, hi)) <==>
      || lo < xs[0].off
      || (exists i :: 0 <= i < |xs| && Gap(xs, i, hi))
      || (forall i :: 0 <= i < |xs| ==> !Short(xs, i, hi))
  {
    hide Nondecreasing, Covered, Reported, Gap, Short;
    CoveredIff(xs, lo, hi);
    ReportedIff(xs, lo, hi);
    if i :| 0 <= i < |xs| && Gap(xs, i, hi) { GapIsShort(xs, i, hi); }
  }

  lemma GapIsShort(xs: seq<Extent>, i: nat, hi: int)
    requires i < |xs| && Gap(xs, i, hi)
    ensures Short(xs, i, hi)
  {
    var k := ReachBounds(xs, i + 1);
  }

  /** Requests that share no byte, in order of offset, also end in order. */
  lemma {:induction false} DisjointEndsSorted(xs: seq<Extent>)
    requires Nondecreasing(xs) && Positive(xs)
    requires forall i, j, x :: 0 <= i < j < |xs| && xs[i].Has(x) ==> !xs[j].Has(x)
    ensures EndsSorted(xs)
  {
    forall i, j | 0 <= i < j < |xs| ensures xs[i].End() <= xs[j].End() {
      NondecreasingAll(xs, i, j);
      assert xs[j].Has(xs[j].off);
    }
  }

  /** Overlapping requests of different processes can make the pairwise scan report a
      hole that is none: [0, 10), [1, 2) and [5, 10) cover [0, 10). */
  lemma {:induction false} NestedFalseHole()
    ensures var xs := [Extent(0, 10), Extent(1, 1), Extent(5, 5)];
      Nondecreasing(xs) && StartsIn(xs, 0, 10) && Covered(xs, 0, 10) && Reported(xs, 0, 10)
  {
    var xs := [Extent(0, 10), Extent(1, 1), Extent(5, 5)];
    forall x | 0 <= x < 10 ensures Touches(xs, x) { assert xs[0].Has(x); }
    assert xs[1].End() < xs[1 + 1].off;
  }

  /** Nested requests need not: [0, 10), [1, 2), [2, 10) end out of order and are judged
      rightly. */
  lemma {:induction false} NestedRightReport()
    ensures var xs := [Extent(0, 10), Extent(1, 1), Extent(2, 8)];
      !EndsSorted(xs) && Covered(xs, 0, 10) && !Reported(xs, 0, 10)
  {
    var xs := [Extent(0, 10), Extent(1, 1), Extent(2, 8)];
    forall x | 0 <= x < 10 ensures Touches(xs, x) { assert xs[0].Has(x); }
    assert xs[0].End() > xs[1].End();
    forall i | 0 <= i < 2 ensures xs[i + 1].off <= xs[i].End() { }
  }

  // ---------- What covering means for the request lists ----------

  lemma TouchesMultiset(xs: seq<Extent>, x: int)
    ensures Touches(xs, x) <==> exists e :: e in multiset(xs) && e.Has(x)
  {
    if Touches(xs, x) {
      var j :| 0 <= j < |xs| && xs[j].Has(x);
      assert xs[j] in multiset(xs);
    }
    if e :| e in multiset(xs) && e.Has(x) {
      assert e in xs;
      var j :| 0 <= j < |xs| && xs[j] == e;
      assert xs[j].Has(x);
    }
  }

  lemma {:induction false} AllTouches(lists: seq<seq<Extent>>, x: int)
    ensures (exists e :: e in All(lists) && e.Has(x)) <==> exists i :: 0 <= i < |lists| && Touches(lists[i], x)
  {
    if lists == [] {
    } else {
      var n := |lists| - 1;
      AllTouches(lists[..n], x);
      TouchesMultiset(lists[n], x);
      if i :| 0 <= i < |lists| && Touches(lists[i], x) {
        if i < n { assert Touches(lists[..n][i], x); }
      }
    }
  }

  /** The merged list touches what some process's list touches. */
  lemma MergedTouches(srt: seq<Extent>, lists: seq<seq<Extent>>, x: int)
    requires multiset(srt) == All(lists)
    ensures Touches(srt, x) <==> exists i :: 0 <= i < |lists| && Touches(lists[i], x)
  {
    TouchesMultiset(srt, x);
    AllTouches(lists, x);
  }

  /** Cutting the last length off at the window's end changes nothing inside the window. */
  lemma CutTouches(cs: seq<Extent>, start: nat, count: nat, partial: nat, hi: int, x: int)
    requires start + count <= |cs| && x < hi
    requires partial > 0 && count > 0 ==>
               cs[start + count - 1].off + partial == hi && partial < cs[start + count - 1].len
    ensures Touches(Pieces(cs, start, count, partial), x) <==> Touches(cs[start..start + count], x)
  {
    var ps, us := Pieces(cs, start, count, partial), cs[start..start + count];
    forall t | 0 <= t < count ensures ps[t].Has(x) <==> us[t].Has(x) {
    }
    if Touches(ps, x) {
      var t :| 0 <= t < |ps| && ps[t].Has(x);
      assert us[t].Has(x);
    }
    if Touches(us, x) {
      var t :| 0 <= t < |us| && us[t].Has(x);
      assert ps[t].Has(x);
    }
  }

  /** A window clip touches exactly the requested bytes of the window. */
  lemma {:induction false} ClipTouches(xs: seq<Extent>, lo: int, hi: int, x: int)
    requires lo <= x < hi
    ensures Touches(Clip(xs, lo, hi), x) <==> Touches(xs, x)
  {
    if xs == [] {
    } else {
      var n := |xs| - 1;
      var p, c := Clip(xs[..n], lo, hi), Cut(xs[n], lo, hi);
      ClipTouches(xs[..n], lo, hi, x);
      TouchesConcat(p, c, x);
      TouchesConcat(xs[..n], [xs[n]], x);
      assert xs[..n] + [xs[n]] == xs;
      TouchesOne(xs[n], x);
      if c != [] { TouchesOne(c[0], x); assert c == [c[0]]; }
    }
  }

  lemma TouchesOne(e: Extent, x: int)
    ensures Touches([e], x) <==> e.Has(x)
  {
    if e.Has(x) { assert [e][0].Has(x); }
  }

  lemma TouchesConcat(xs: seq<Extent>, ys: seq<Extent>, x: int)
    ensures Touches(xs + ys, x) <==> Touches(xs, x) || Touches(ys, x)
  {
    var zs := xs + ys;
    if Touches(xs, x) {
      var j :| 0 <= j < |xs| && xs[j].Has(x);
      assert zs[j].Has(x);
    }
    if Touches(ys, x) {
      var j :| 0 <= j < |ys| && ys[j].Has(x);
      assert zs[|xs| + j].Has(x);
    }
    if Touches(zs, x) {
      var j :| 0 <= j < |zs| && zs[j].Has(x);
      if j < |xs| { assert xs[j].Has(x); } else { assert ys[j - |xs|].Has(x); }
    }
  }
}
