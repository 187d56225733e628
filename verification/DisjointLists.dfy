/**
 Requests of different processes that have no byte in common: merged, they are all
 different, end in the order in which they start, and the pairwise hole check is exact.
 */
module DisjointLists {
  import opened Extents
  import opened HeapMerge
  import opened Holes

  ghost predicate NoCommonByte(a: seq<Extent>, b: seq<Extent>) {
    forall x :: Touches(a, x) ==> !Touches(b, x)
  }

  /** Different processes ask for different bytes. */
  ghost predicate ProcessesApart(lists: seq<seq<Extent>>) {
    forall i, j :: 0 <= i < j < |lists| ==> NoCommonByte(lists[i], lists[j])
  }

  ghost predicate Meet(e: Extent, f: Extent) {
    exists x :: e.Has(x) && f.Has(x)
  }

  lemma InTouches(xs: seq<Extent>, e: Extent, x: int)
    requires e in multiset(xs) && e.Has(x)
    ensures Touches(xs, x)
  {
    TouchesMultiset(xs, x);
  }

  /** One process's ordered pieces: all different, none meeting another. */
  lemma {:induction false} OrderedOnce(xs: seq<Extent>, e: Extent, f: Extent)
    requires Ordered(xs) && Positive(xs)
    ensures multiset(xs)[e] <= 1
    ensures e in multiset(xs) && f in multiset(xs) && e != f ==> !Meet(e, f)
  {
    if xs == [] {
    } else {
      var p, x := xs[..|xs| - 1], xs[|xs| - 1];
      assert xs == p + [x];
      OrderedOnce(p, e, f);
      BeforeLast(xs, e);
      BeforeLast(xs, f);
    }
  }

  lemma BeforeLast(xs: seq<Extent>, e: Extent)
    requires Ordered(xs) && Positive(xs) && xs != []
    ensures var p, x := xs[..|xs| - 1], xs[|xs| - 1];
      e in multiset(p) ==> e.End() <= x.off && e != x && !Meet(e, x) && !Meet(x, e)
  {
    var n := |xs| - 1;
    if e in multiset(xs[..n]) {
      assert e in xs[..n];
      var k :| 0 <= k < n && xs[..n][k] == e;
      assert xs[k].End() <= xs[n].off;
    }
  }

  /** All pieces together: the same. */
  lemma {:induction false} AllOnce(lists: seq<seq<Extent>>, e: Extent, f: Extent)
    requires ProcessesApart(lists) && forall i :: 0 <= i < |lists| ==> Ordered(lists[i]) && Positive(lists[i])
    ensures All(lists)[e] <= 1
    ensures e in All(lists) && f in All(lists) && e != f ==> !Meet(e, f)
  {
    if lists == [] {
    } else {
      var n := |lists| - 1;
      AllOnce(lists[..n], e, f);
      OrderedOnce(lists[n], e, f);
      ApartFromLast(lists, e, f);
      ApartFromLast(lists, f, e);
      ApartFromLast(lists, e, e);
    }
  }

  lemma ApartFromLast(lists: seq<seq<Extent>>, e: Extent, f: Extent)
    requires lists != [] && ProcessesApart(lists) && forall i :: 0 <= i < |lists| ==> Positive(lists[i])
    ensures e in All(lists[..|lists| - 1]) && f in multiset(lists[|lists| - 1]) ==> e != f && !Meet(e, f)
  {
    var n := |lists| - 1;
    if e in All(lists[..n]) && f in multiset(lists[n]) {
      forall x ensures !(e.Has(x) && f.Has(x)) {
        if e.Has(x) && f.Has(x) {
          AllTouches(lists[..n], x);
          var i :| 0 <= i < n && Touches(lists[..n][i], x);
          assert NoCommonByte(lists[i], lists[n]);
          InTouches(lists[n], f, x);
        }
      }
      assert f in lists[n];
      var k :| 0 <= k < |lists[n]| && lists[n][k] == f;
      assert f.Has(f.off);
    }
  }

  /** So the merged list ends in order, and the pairwise check is exact on it. */
  lemma {:induction false} MergedEndsSorted(srt: seq<Extent>, lists: seq<seq<Extent>>)
    requires ProcessesApart(lists) && forall i :: 0 <= i < |lists| ==> Ordered(lists[i]) && Positive(lists[i])
    requires multiset(srt) == All(lists) && Nondecreasing(srt)
    ensures EndsSorted(srt)
  {
    hide Ordered, Positive, ProcessesApart, EndsSorted, All;
    forall i, j, x | 0 <= i < j < |srt| && srt[i].Has(x) ensures !srt[j].Has(x) {
      AllOnce(lists, srt[i], srt[j]);
      if srt[i] == srt[j] { Twice(srt, i, j); }
    }
    MergedPositive(srt, lists);
    DisjointEndsSorted(srt);
  }

  lemma Twice(xs: seq<Extent>, i: nat, j: nat)
    requires i < j < |xs| && xs[i] == xs[j]
    ensures multiset(xs)[xs[i]] >= 2
  {
    var a, b := xs[..j], xs[j..];
    assert xs == a + b;
    assert a[i] in multiset(a) && b[0] in multiset(b);
  }

  lemma MergedPositive(srt: seq<Extent>, lists: seq<seq<Extent>>)
    requires multiset(srt) == All(lists) && forall i :: 0 <= i < |lists| ==> Positive(lists[i])
    ensures Positive(srt)
  {
    forall k | 0 <= k < |srt| ensures srt[k].len > 0 {
      assert srt[k] in multiset(srt);
      AllPositive(lists, srt[k]);
    }
  }

  lemma {:induction false} AllPositive(lists: seq<seq<Extent>>, e: Extent)
    requires e in All(lists) && forall i :: 0 <= i < |lists| ==> Positive(lists[i])
    ensures e.len > 0
  {
    var n := |lists| - 1;
    if e in multiset(lists[n]) { assert e in lists[n]; } else { AllPositive(lists[..n], e); }
  }
}
