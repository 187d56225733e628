/**
 `ADIOI_Heap_merge`: merges the sorted request lists of all processes with an array heap
 whose entries are list suffixes (pointer and remaining count in the source).
 */
module HeapMerge {
  import opened Extents

  /** The offset at the head of a list suffix. */
  function Key(xs: seq<Extent>): int { if xs == [] then 0 else xs[0].off }

  function Parent(j: int): int { (j - 1) / 2 }

  /** Heap order among the first `n` entries, for the parents from `lo` on. */
  ghost predicate Heap(s: seq<seq<Extent>>, lo: int, n: int) {
    0 <= lo && n <= |s| && forall j :: 0 < j < n && lo <= Parent(j) ==> Key(s[Parent(j)]) <= Key(s[j])
  }

  /** Heap order except between `k` and its children; those fit below k's parent. */
  ghost predicate HeapBut(s: seq<seq<Extent>>, lo: int, n: int, k: int) {
    && 0 <= lo <= k && n <= |s|
    && (forall j :: 0 < j < n && lo <= Parent(j) && Parent(j) != k ==> Key(s[Parent(j)]) <= Key(s[j]))
    && (0 < k && lo <= Parent(k) ==>
          forall j :: 0 < j < n && Parent(j) == k ==> Key(s[Parent(k)]) <= Key(s[j]))
  }

  /** All elements of the first lists, with multiplicity. */
  ghost function All(s: seq<seq<Extent>>): multiset<Extent> {
    if s == [] then multiset{} else All(s[..|s| - 1]) + multiset(s[|s| - 1])
  }

  ghost predicate Lists(s: seq<seq<Extent>>) {
    forall i :: 0 <= i < |s| ==> s[i] != [] && Sorted(s[i])
  }

  lemma {:induction false} AllUpdate(s: seq<seq<Extent>>, i: nat, v: seq<Extent>)
    requires i < |s|
    ensures All(s[i := v]) + multiset(s[i]) == All(s) + multiset(v)
  {
    var n := |s| - 1;
    var t := s[i := v];
    if i < n {
      AllUpdate(s[..n], i, v);
      assert t[..n] == s[..n][i := v];
      assert All(t) == All(t[..n]) + multiset(t[n]) && t[n] == s[n] && s[..n][i] == s[i];
      AddBoth(All(t[..n]), multiset(s[i]), All(s[..n]), multiset(v), multiset(s[n]));
    } else {
      assert t[..n] == s[..n];
      assert All(t) == All(s[..n]) + multiset(v);
    }
  }

  lemma AddBoth(a: multiset<Extent>, x: multiset<Extent>, b: multiset<Extent>, y: multiset<Extent>, z: multiset<Extent>)
    requires a + x == b + y
    ensures (a + z) + x == (b + z) + y
  {
    assert (a + z) + x == (a + x) + z && (b + z) + y == (b + y) + z;
  }

  function Swap(s: seq<seq<Extent>>, i: nat, j: nat): seq<seq<Extent>>
    requires i < |s| && j < |s|
  {
    s[i := s[j]][j := s[i]]
  }

  lemma AllSwap(s: seq<seq<Extent>>, i: nat, j: nat)
    requires i < |s| && j < |s| && i != j
    ensures All(Swap(s, i, j)) == All(s)
  {
    var u := s[i := s[j]];
    AllUpdate(s, i, s[j]);
    AllUpdate(u, j, s[i]);
    assert u[j] == s[j];
    CancelOut(All(s), All(u), All(Swap(s, i, j)), multiset(s[i]), multiset(s[j]));
  }

  lemma CancelOut(p: multiset<Extent>, q: multiset<Extent>, r: multiset<Extent>, x: multiset<Extent>,
                  y: multiset<Extent>)
    requires q + x == p + y && r + y == q + x
    ensures r == p
  {
    assert (p + y) - y == p && (r + y) - y == r;
  }

  lemma ListsSwap(s: seq<seq<Extent>>, i: nat, j: nat)
    requires i < |s| && j < |s| && Lists(s)
    ensures Lists(Swap(s, i, j))
  {
  }

  lemma Children(j: int, k: int)
    requires 0 < j
    ensures Parent(j) == k <==> j == 2 * k + 1 || j == 2 * k + 2
    ensures 0 <= Parent(j) < j
  {
  }

  /** Swapping `k` with its smaller child moves the gap down. */
  lemma SiftStep(s: seq<seq<Extent>>, lo: int, n: int, k: nat, c: nat)
    requires HeapBut(s, lo, n, k) && 0 < c < n && Parent(c) == k && Key(s[c]) < Key(s[k])
    requires forall j :: 0 < j < n && Parent(j) == k ==> Key(s[c]) <= Key(s[j])
    ensures HeapBut(Swap(s, k, c), lo, n, c)
  {
    var t := Swap(s, k, c);
    Children(c, k);
    forall j | 0 < j < n && lo <= Parent(j) && Parent(j) != c ensures Key(t[Parent(j)]) <= Key(t[j]) {
      Children(j, k);
    }
    forall j | 0 < j < n && Parent(j) == c ensures Key(t[Parent(c)]) <= Key(t[j]) {
      Children(j, c);
    }
  }

  /** No smaller child: the heap is whole. */
  lemma SiftStop(s: seq<seq<Extent>>, lo: int, n: int, k: nat)
    requires HeapBut(s, lo, n, k)
    requires forall j :: 0 < j < n && Parent(j) == k ==> Key(s[k]) <= Key(s[j])
    ensures Heap(s, lo, n)
  {
  }

  lemma SiftNone(s: seq<seq<Extent>>, lo: int, n: int, k: nat)
    requires HeapBut(s, lo, n, k) && n <= k
    ensures Heap(s, lo, n)
  {
    forall j | 0 < j < n ensures Parent(j) != k { Children(j, k); }
  }

  /** The index of the smallest of entry `k` and its children. */
  method Smallest(a: array<seq<Extent>>, n: nat, k: nat) returns (smallest: nat)
    requires k < n <= a.Length && Lists(a[..n])
    ensures smallest < n
    ensures smallest != k ==> Parent(smallest) == k && 0 < smallest && Key(a[smallest]) < Key(a[k])
    ensures forall j :: 0 < j < n && Parent(j) == k ==> Key(a[smallest]) <= Key(a[j])
  {
    var l, r := 2 * (k + 1) - 1, 2 * (k + 1);
    smallest := k;
    forall i | 0 <= i < n ensures a[i] != [] { assert a[i] == a[..n][i]; }
    if l < n && a[l][0].off < a[k][0].off { smallest := l; }
    if r < n && a[r][0].off < a[smallest][0].off { smallest := r; }
    forall j | 0 < j < n && Parent(j) == k ensures Key(a[smallest]) <= Key(a[j]) { Children(j, k); }
    Children(l, k);
    Children(r, k);
  }

  /** The sift-down loop, without recursion, on the first `n` entries. */
  method SiftDown(a: array<seq<Extent>>, lo: nat, n: nat)
    requires n <= a.Length && Lists(a[..n]) && HeapBut(a[..n], lo, n, lo)
    modifies a
    ensures Heap(a[..n], lo, n) && Lists(a[..n]) && All(a[..n]) == old(All(a[..n]))
    ensures forall i :: n <= i < a.Length ==> a[i] == old(a[i])
  {
    hide Lists, Heap, HeapBut, All, Key, Sorted, Parent;
    var k := lo;
    var more := k < n;
    if !more { SiftNone(a[..n], lo, n, k); }
    while more
      invariant Lists(a[..n]) && All(a[..n]) == old(All(a[..n]))
      invariant forall i :: n <= i < a.Length ==> a[i] == old(a[i])
      invariant more ==> lo <= k < n && HeapBut(a[..n], lo, n, k)
      invariant !more ==> Heap(a[..n], lo, n)
      decreases more, n - k
    {
      ghost var s := a[..n];
      var smallest := Smallest(a, n, k);
      if smallest != k {
        SiftStep(s, lo, n, k, smallest);
        AllSwap(s, k, smallest);
        ListsSwap(s, k, smallest);
        a[k], a[smallest] := a[smallest], a[k];
        assert a[..n] == Swap(s, k, smallest);
        Children(smallest, k);
        k := smallest;
      } else {
        SiftStop(s, lo, n, k);
        more := false;
      }
    }
  }

  // ---------- Filling and building the heap ----------

  /** The number of processes that have something to merge. */
  function NonEmpty(lists: seq<seq<Extent>>): nat {
    if lists == [] then 0 else
      NonEmpty(lists[..|lists| - 1]) + if lists[|lists| - 1] == [] then 0 else 1
  }

  lemma {:induction false} NonEmptyGrows(lists: seq<seq<Extent>>, i: nat)
    requires i < |lists|
    ensures NonEmpty(lists[..i]) <= NonEmpty(lists)
    ensures lists[i] != [] ==> NonEmpty(lists[..i]) < NonEmpty(lists)
  {
    var n := |lists| - 1;
    if i == n {
    } else {
      NonEmptyGrows(lists[..n], i);
      assert lists[..n][..i] == lists[..i];
    }
  }

  lemma AllAppend(s: seq<seq<Extent>>, v: seq<Extent>)
    ensures All(s + [v]) == All(s) + multiset(v)
  {
    assert (s + [v])[..|s|] == s;
  }

  lemma ListsNone()
    ensures Lists([])
  {
  }

  lemma ListsAppend(s: seq<seq<Extent>>, v: seq<Extent>)
    requires Lists(s) && v != [] && Sorted(v)
    ensures Lists(s + [v])
  {
  }

  method FillHeap(lists: seq<seq<Extent>>, nprocsRecv: nat) returns (a: array<seq<Extent>>)
    requires nprocsRecv == NonEmpty(lists) && forall i :: 0 <= i < |lists| ==> Sorted(lists[i])
    ensures fresh(a) && a.Length == nprocsRecv + 1
    ensures Lists(a[..nprocsRecv]) && All(a[..nprocsRecv]) == All(lists)
  {
    hide Sorted, Lists, All;
    a := new seq<Extent>[nprocsRecv + 1](_ => []);
    var j := 0;
    assert a[..0] == [] && lists[..0] == [];
    ListsNone();
    for i := 0 to |lists|
      invariant j == NonEmpty(lists[..i]) <= nprocsRecv
      invariant Lists(a[..j]) && All(a[..j]) == All(lists[..i])
    {
      NonEmptyGrows(lists, i);
      assert lists[..i + 1] == lists[..i] + [lists[i]] && lists[..i + 1][..i] == lists[..i];
      AllAppend(lists[..i], lists[i]);
      if lists[i] == [] {
        assert All(lists[..i]) + multiset(lists[i]) == All(lists[..i]);
      } else {
        ghost var s := a[..j];
        a[j] := lists[i];
        assert a[..j + 1] == s + [lists[i]];
        AllAppend(s, lists[i]);
        ListsAppend(s, lists[i]);
        j := j + 1;
      }
    }
    assert lists[..|lists|] == lists;
  }

  method BuildHeap(a: array<seq<Extent>>, n: nat)
    requires n <= a.Length && Lists(a[..n])
    modifies a
    ensures Heap(a[..n], 0, n) && Lists(a[..n]) && All(a[..n]) == old(All(a[..n]))
  {
    hide Lists, All, Key, Sorted;
    var i := n / 2 - 1;
    forall j | 0 < j < n ensures Parent(j) <= i { Children(j, Parent(j)); }
    while i >= 0
      invariant -1 <= i < n
      invariant Heap(a[..n], i + 1, n) && Lists(a[..n]) && All(a[..n]) == old(All(a[..n]))
    {
      GapAtTop(a[..n], i, n);
      SiftDown(a, i, n);
      i := i - 1;
    }
  }

  lemma GapAtTop(s: seq<seq<Extent>>, i: nat, n: nat)
    requires n == |s| && Heap(s, i + 1, n)
    ensures HeapBut(s, i, n, i)
  {
    if 0 < i { Children(i, 0); }
  }

  /** The root of a heap is its least entry. */
  lemma {:induction false} RootLeast(s: seq<seq<Extent>>, n: nat, i: nat)
    requires Heap(s, 0, n) && i < n
    ensures Key(s[0]) <= Key(s[i])
    decreases i
  {
    if i == 0 {
    } else {
      Children(i, 0);
      RootLeast(s, n, Parent(i));
    }
  }

  // ---------- Extraction ----------

  /** Every list starts at or after `x`. */
  ghost predicate From(s: seq<seq<Extent>>, x: int) {
    forall i :: 0 <= i < |s| ==> x <= Key(s[i])
  }

  ghost predicate Popped(s: seq<seq<Extent>>, t: seq<seq<Extent>>)
    requires |s| > 0
  {
    if |s[0]| > 1 then t == s[0 := s[0][1..]]
    else if |s| > 1 then t == s[..|s| - 1][0 := s[|s| - 1]] else t == []
  }

  /** Taking the head of the root leaves lists that start no earlier, and one element less. */
  lemma TakeHead(s: seq<seq<Extent>>, t: seq<seq<Extent>>)
    requires |s| > 0 && Lists(s) && Heap(s, 0, |s|) && Popped(s, t)
    ensures Lists(t) && From(s, Key(s[0])) && From(t, Key(s[0])) && HeapBut(t, 0, |t|, 0)
    ensures All(s) == All(t) + multiset{s[0][0]}
  {
    forall i | 0 <= i < |s| ensures Key(s[0]) <= Key(s[i]) { RootLeast(s, |s|, i); }
    TakeHeadAll(s, t);
    TakeHeadLists(s, t);
    TakeHeadGap(s, t);
  }

  lemma TakeHeadLists(s: seq<seq<Extent>>, t: seq<seq<Extent>>)
    requires |s| > 0 && Lists(s) && Popped(s, t) && From(s, Key(s[0]))
    ensures Lists(t) && From(t, Key(s[0]))
  {
    if |s[0]| > 1 {
      assert Sorted(s[0]);
      assert s[0][0].off <= s[0][1].off;
      TailSorted(s[0]);
    }
  }

  lemma TailSorted(xs: seq<Extent>)
    requires Sorted(xs) && |xs| > 0
    ensures Sorted(xs[1..])
  {
  }

  lemma TakeHeadGap(s: seq<seq<Extent>>, t: seq<seq<Extent>>)
    requires |s| > 0 && Heap(s, 0, |s|) && Popped(s, t)
    ensures HeapBut(t, 0, |t|, 0)
  {
    forall j | 0 < j < |t| && Parent(j) != 0 ensures Key(t[Parent(j)]) <= Key(t[j]) { Children(j, 0); }
  }

  lemma TakeHeadAll(s: seq<seq<Extent>>, t: seq<seq<Extent>>)
    requires |s| > 0 && s[0] != [] && Popped(s, t)
    ensures All(s) == All(t) + multiset{s[0][0]}
  {
    var x, n := s[0], |s| - 1;
    assert x == [x[0]] + x[1..];
    if |x| > 1 {
      AllUpdate(s, 0, x[1..]);
      MoveOver(All(s), multiset(x[1..]), All(t), multiset{x[0]});
    } else {
      assert x == [x[0]];
      if n > 0 {
        AllUpdate(s[..n], 0, s[n]);
      } else {
        assert s[..n] == [];
      }
    }
  }

  lemma MoveOver(a: multiset<Extent>, y: multiset<Extent>, b: multiset<Extent>, z: multiset<Extent>)
    requires b + (z + y) == a + y
    ensures a == b + z
  {
    assert (b + z) + y == b + (z + y);
    assert (a + y) - y == a && ((b + z) + y) - y == b + z;
  }

  /** Nondecreasing by offset. */
  ghost predicate Nondecreasing(xs: seq<Extent>) {
    forall i :: 0 < i < |xs| ==> xs[i - 1].off <= xs[i].off
  }

  /** State of the extraction: `out` so far, `s` still in the heap. */
  ghost predicate Merging(s: seq<seq<Extent>>, out: seq<Extent>, all: multiset<Extent>) {
    && Lists(s) && Heap(s, 0, |s|) && Nondecreasing(out)
    && (out != [] ==> From(s, out[|out| - 1].off))
    && All(s) + multiset(out) == all
  }

  /** Remove the root's head: the root becomes its own tail, or the last entry. */
  method PopRoot(a: array<seq<Extent>>, heapsize: nat) returns (x: Extent, n: nat)
    requires 0 < heapsize <= a.Length && Lists(a[..heapsize]) && Heap(a[..heapsize], 0, heapsize)
    modifies a
    ensures n <= heapsize && x == old(a[0])[0]
    ensures Lists(a[..n]) && Heap(a[..n], 0, n) && From(a[..n], x.off)
    ensures old(From(a[..heapsize], a[0][0].off))
    ensures old(All(a[..heapsize])) == All(a[..n]) + multiset{x}
  {
    hide Lists, Heap, HeapBut, All, Sorted, From, Key;
    ghost var s := a[..heapsize];
    HeadFacts(s);
    x := a[0][0];
    n := heapsize;
    if |a[0]| - 1 == 0 {
      a[0] := a[heapsize - 1];
      n := heapsize - 1;
    } else {
      a[0] := a[0][1..];
    }
    assert Popped(s, a[..n]);
    TakeHead(s, a[..n]);
    ghost var t := a[..n];
    SiftDown(a, 0, n);
    FromAll(t, a[..n], x.off);
  }

  lemma HeadFacts(s: seq<seq<Extent>>)
    requires |s| > 0 && Lists(s)
    ensures s[0] != [] && Key(s[0]) == s[0][0].off
  {
  }

  /** What all the elements start at does not depend on their arrangement. */
  lemma FromAll(s: seq<seq<Extent>>, t: seq<seq<Extent>>, x: int)
    requires Lists(s) && Lists(t) && From(s, x) && All(s) == All(t)
    ensures From(t, x)
  {
    forall i | 0 <= i < |t| ensures x <= Key(t[i]) {
      InAll(t, i, 0);
      AllFrom(s, x, t[i][0]);
    }
  }

  lemma {:induction false} InAll(s: seq<seq<Extent>>, i: nat, k: nat)
    requires i < |s| && k < |s[i]|
    ensures s[i][k] in All(s)
  {
    var n := |s| - 1;
    if i == n {
      assert s[n][k] in multiset(s[n]);
    } else {
      InAll(s[..n], i, k);
    }
  }

  lemma {:induction false} AllFrom(s: seq<seq<Extent>>, x: int, e: Extent)
    requires Lists(s) && From(s, x) && e in All(s)
    ensures x <= e.off
  {
    var n := |s| - 1;
    if e in multiset(s[n]) {
      assert e in s[n];
      var k :| 0 <= k < |s[n]| && s[n][k] == e;
      assert s[n][0].off <= s[n][k].off;
    } else {
      AllFrom(s[..n], x, e);
    }
  }

  lemma MergeStep(s: seq<seq<Extent>>, t: seq<seq<Extent>>, out: seq<Extent>, out': seq<Extent>, x: Extent,
                  all: multiset<Extent>)
    requires Merging(s, out, all) && s != [] && x == s[0][0] && out' == out + [x]
    requires Lists(t) && Heap(t, 0, |t|) && From(t, x.off) && All(s) == All(t) + multiset{x}
    ensures Merging(t, out', all)
  {
    hide Heap, All, Sorted, Lists, Key;
    AppendOut(All(s), All(t), out, out', x);
    HeadFacts(s);
    if out != [] { assert out[|out| - 1].off <= Key(s[0]); }
    assert out'[|out'| - 1] == x;
  }

  lemma AppendOut(p: multiset<Extent>, q: multiset<Extent>, out: seq<Extent>, out': seq<Extent>, x: Extent)
    requires out' == out + [x] && p == q + multiset{x}
    ensures q + multiset(out') == p + multiset(out)
  {
    assert multiset(out') == multiset(out) + multiset{x};
  }

  /** The merge: a sorted rearrangement of everything in the lists. */
  method Merge(lists: seq<seq<Extent>>, nprocsRecv: nat, total: nat) returns (srt: array<Extent>)
    requires forall i :: 0 <= i < |lists| ==> Sorted(lists[i])
    requires nprocsRecv == NonEmpty(lists) && total == |All(lists)|
    ensures fresh(srt) && srt.Length == total
    ensures Nondecreasing(srt[..]) && multiset(srt[..]) == All(lists)
  {
    hide *;
    var a := FillHeap(lists, nprocsRecv);
    var heapsize: nat := nprocsRecv;
    BuildHeap(a, heapsize);
    srt := new Extent[total](_ => Extent(0, 0));
    MergeStart(a[..heapsize], All(lists));
    assert srt[..0] == [];
    for i := 0 to total
      invariant heapsize <= a.Length
      invariant Merging(a[..heapsize], srt[..i], All(lists))
    {
      ghost var s, out := a[..heapsize], srt[..i];
      MoreToCome(s, out, All(lists), total);
      var x;
      x, heapsize := PopRoot(a, heapsize);
      srt[i] := x;
      assert srt[..i] == out;
      assert srt[..i + 1] == out + [x];
      MergeStep(s, a[..heapsize], out, srt[..i + 1], x, All(lists));
    }
    assert srt[..total] == srt[..];
    NothingLeft(a[..heapsize], srt[..], All(lists));
  }

  lemma MergeStart(s: seq<seq<Extent>>, all: multiset<Extent>)
    requires Lists(s) && Heap(s, 0, |s|) && All(s) == all
    ensures Merging(s, [], all)
  {
    assert All(s) + multiset([]) == all;
  }

  lemma MoreToCome(s: seq<seq<Extent>>, out: seq<Extent>, all: multiset<Extent>, total: nat)
    requires Merging(s, out, all) && |all| == total && |out| < total
    ensures s != [] && Lists(s) && Heap(s, 0, |s|) && s[0] != []
  {
    assert |All(s)| + |multiset(out)| == |all|;
  }

  lemma NothingLeft(s: seq<seq<Extent>>, out: seq<Extent>, all: multiset<Extent>)
    requires Merging(s, out, all) && |out| == |all|
    ensures multiset(out) == all && Nondecreasing(out)
  {
    assert |All(s)| + |multiset(out)| == |all|;
    assert All(s) == multiset{};
  }
}
