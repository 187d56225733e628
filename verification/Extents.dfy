/**
 File extents and the byte streams they denote.

 An access list, a request list and a list of received pieces are all sequences of
 (offset, length) pairs.  Everything the two-phase engine promises is about bytes, so
 each such list is read through `Flat`, the sequence of file offsets it names, in order.
 */
module Extents {

  newtype Byte = b: int | 0 <= b < 256

  /** The contents of a file: every offset holds a byte (no end of file). */
  type Image = int -> Byte

  function Min(a: int, b: int): int { if a <= b then a else b }

  function Max(a: int, b: int): int { if a <= b then b else a }

  /** The number of the first `len` units starting at `off` that lie below `b`. */
  function Clamp(b: int, off: int, len: nat): nat {
    if b <= off then 0 else if b - off <= len then b - off else len
  }

  datatype Extent = Extent(off: int, len: nat) {
    function End(): int { off + len }

    predicate Has(x: int) { off <= x < off + len }
  }

  function Range(off: int, len: nat): (r: seq<int>)
    ensures |r| == len
    ensures forall k :: 0 <= k < len ==> r[k] == off + k
  {
    seq(len, k => off + k)
  }

  /** The file offsets named by a list of extents, in list order. */
  function Flat(xs: seq<Extent>): seq<int> {
    if xs == [] then [] else
      Flat(xs[..|xs| - 1]) + Range(xs[|xs| - 1].off, xs[|xs| - 1].len)
  }

  /** Displacements in nondecreasing order: what MPI asks of any filetype. */
  ghost predicate Sorted(xs: seq<Extent>) {
    forall i, j :: 0 <= i < j < |xs| ==> xs[i].off <= xs[j].off
  }

  /** In order and without overlap: what MPI asks of a filetype used for writing. */
  ghost predicate Ordered(xs: seq<Extent>) {
    forall i, j :: 0 <= i < j < |xs| ==> xs[i].End() <= xs[j].off
  }

  ghost predicate Positive(xs: seq<Extent>) {
    forall i :: 0 <= i < |xs| ==> xs[i].len > 0
  }

  ghost predicate Increasing(s: seq<int>) {
    forall i, j :: 0 <= i < j < |s| ==> s[i] < s[j]
  }

  lemma FlatNone()
    ensures Flat([]) == []
  {
  }

  lemma FlatAppend(xs: seq<Extent>, x: Extent)
    ensures Flat(xs + [x]) == Flat(xs) + Range(x.off, x.len)
  {
    assert (xs + [x])[..|xs|] == xs;
  }

  lemma {:induction false} FlatConcat(xs: seq<Extent>, ys: seq<Extent>)
    ensures Flat(xs + ys) == Flat(xs) + Flat(ys)
    decreases |ys|
  {
    if ys == [] {
      assert xs + ys == xs;
    } else {
      var y, rest := ys[|ys| - 1], ys[..|ys| - 1];
      var zs, r := xs + rest, Range(y.off, y.len);
      assert zs + [y] == xs + ys && rest + [y] == ys;
      FlatConcat(xs, rest);
      FlatAppend(zs, y);
      FlatAppend(rest, y);
      Assoc(Flat(xs), Flat(rest), r);
    }
  }

  lemma Assoc<T>(a: seq<T>, b: seq<T>, c: seq<T>)
    ensures (a + b) + c == a + (b + c)
  {
  }

  lemma {:induction false} FlatHas(xs: seq<Extent>, x: int)
    ensures x in Flat(xs) <==> exists j :: 0 <= j < |xs| && xs[j].Has(x)
  {
    if xs == [] {
    } else {
      var n := |xs| - 1;
      FlatHas(xs[..n], x);
      var r := Range(xs[n].off, xs[n].len);
      if xs[n].Has(x) { assert r[x - xs[n].off] == x; }
      assert x in r <==> xs[n].Has(x);
      if x in Flat(xs[..n]) {
        var j :| 0 <= j < n && xs[..n][j].Has(x);
        assert xs[j].Has(x);
      }
      if j :| 0 <= j < |xs| && xs[j].Has(x) {
        if j < n { assert xs[..n][j].Has(x); }
      }
    }
  }

  /** An ordered list names strictly increasing offsets, all below its last end. */
  lemma {:induction false} FlatIncreasing(xs: seq<Extent>)
    requires Ordered(xs)
    ensures Increasing(Flat(xs))
    ensures forall k :: 0 <= k < |Flat(xs)| ==> Flat(xs)[k] < xs[|xs| - 1].End()
  {
    if xs == [] {
    } else {
      var n := |xs| - 1;
      FlatIncreasing(xs[..n]);
      var f, r := Flat(xs[..n]), Range(xs[n].off, xs[n].len);
      forall k | 0 <= k < |f| ensures f[k] < xs[n].off {
        assert xs[..n][n - 1].End() <= xs[n].off;
      }
      assert forall k :: 0 <= k < |Flat(xs)| ==>
          Flat(xs)[k] == if k < |f| then f[k] else r[k - |f|];
    }
  }

  // ---------- Clipping to a window ----------

  function Cut(x: Extent, lo: int, hi: int): seq<Extent> {
    var s, e := Max(x.off, lo), Min(x.End(), hi);
    if s < e then [Extent(s, e - s)] else []
  }

  /** The parts of the extents that lie in [lo, hi), in order. */
  function Clip(xs: seq<Extent>, lo: int, hi: int): seq<Extent> {
    if xs == [] then [] else Clip(xs[..|xs| - 1], lo, hi) + Cut(xs[|xs| - 1], lo, hi)
  }

  /** How many of the named bytes lie below offset `b`. */
  function Below(xs: seq<Extent>, b: int): nat {
    if xs == [] then 0 else
      Below(xs[..|xs| - 1], b) + Clamp(b, xs[|xs| - 1].off, xs[|xs| - 1].len)
  }

  lemma ClipAppend(xs: seq<Extent>, x: Extent, lo: int, hi: int)
    ensures Clip(xs + [x], lo, hi) == Clip(xs, lo, hi) + Cut(x, lo, hi)
  {
    assert (xs + [x])[..|xs|] == xs;
  }

  /** Extents that miss the window contribute nothing to the clip. */
  lemma {:induction false} ClipMiss(xs: seq<Extent>, ys: seq<Extent>, lo: int, hi: int)
    requires forall j :: 0 <= j < |ys| ==> ys[j].End() <= lo || hi <= ys[j].off
    ensures Clip(xs + ys, lo, hi) == Clip(xs, lo, hi)
    decreases |ys|
  {
    if ys == [] {
      assert xs + ys == xs;
    } else {
      var n := |ys| - 1;
      assert xs + ys == (xs + ys[..n]) + [ys[n]];
      ClipAppend(xs + ys[..n], ys[n], lo, hi);
      ClipMiss(xs, ys[..n], lo, hi);
    }
  }

  /** Clipped extents are non-empty and inside the window. */
  lemma {:induction false} ClipInside(xs: seq<Extent>, lo: int, hi: int)
    ensures forall j :: 0 <= j < |Clip(xs, lo, hi)| ==>
      var c := Clip(xs, lo, hi)[j]; c.len > 0 && lo <= c.off && c.End() <= hi
  {
    if xs == [] {
    } else {
      ClipInside(xs[..|xs| - 1], lo, hi);
    }
  }

  lemma {:induction false} ClipOrdered(xs: seq<Extent>, lo: int, hi: int)
    requires Ordered(xs)
    ensures Ordered(Clip(xs, lo, hi))
    ensures xs != [] ==>
      forall j :: 0 <= j < |Clip(xs, lo, hi)| ==> Clip(xs, lo, hi)[j].End() <= xs[|xs| - 1].End()
  {
    if xs == [] {
    } else {
      var n := |xs| - 1;
      ClipOrdered(xs[..n], lo, hi);
      if n > 0 { assert xs[..n][n - 1] == xs[n - 1]; }
    }
  }

  lemma {:induction false} ClipSorted(xs: seq<Extent>, lo: int, hi: int)
    requires Sorted(xs)
    ensures Sorted(Clip(xs, lo, hi))
    ensures xs != [] ==> StartsBy(Clip(xs, lo, hi), Max(lo, xs[|xs| - 1].off))
  {
    if xs == [] {
    } else {
      var n := |xs| - 1;
      var p, x := xs[..n], xs[n];
      ClipSorted(p, lo, hi);
      var b := if n > 0 then Max(lo, xs[n - 1].off) else lo;
      SortedAppend(Clip(p, lo, hi), Cut(x, lo, hi), b, Max(lo, x.off));
    }
  }

  ghost predicate StartsBy(xs: seq<Extent>, b: int) {
    forall j :: 0 <= j < |xs| ==> xs[j].off <= b
  }

  lemma SortedAppend(xs: seq<Extent>, ys: seq<Extent>, b: int, c: int)
    requires Sorted(xs) && StartsBy(xs, b) && b <= c && |ys| <= 1 && (ys != [] ==> ys[0].off == c)
    ensures Sorted(xs + ys) && StartsBy(xs + ys, c)
  {
  }

  lemma {:induction false} BelowAll(xs: seq<Extent>, b: int)
    ensures Below(xs, b) <= |Flat(xs)|
    ensures (forall j :: 0 <= j < |xs| ==> xs[j].End() <= b) ==> Below(xs, b) == |Flat(xs)|
    ensures (forall j :: 0 <= j < |xs| ==> b <= xs[j].off) ==> Below(xs, b) == 0
  {
    if xs == [] {
    } else {
      BelowAll(xs[..|xs| - 1], b);
    }
  }

  /** In an ordered list, `Below` is the position where the stream crosses `b`. */
  lemma {:induction false} BelowThreshold(xs: seq<Extent>, b: int, k: nat)
    requires Ordered(xs) && k < |Flat(xs)|
    ensures Flat(xs)[k] < b <==> k < Below(xs, b)
  {
    var n := |xs| - 1;
    var f := Flat(xs[..n]);
    BelowAll(xs[..n], b);
    if k < |f| {
      BelowThreshold(xs[..n], b, k);
      FlatIncreasing(xs[..n]);
    } else if xs[n].off < b {
      forall j | 0 <= j < n ensures xs[..n][j].End() <= b { assert xs[j].End() <= xs[n].off; }
    }
    if xs[n].off < b {
      forall j | 0 <= j < n ensures xs[..n][j].End() <= b { assert xs[j].End() <= xs[n].off; }
    }
  }

  lemma FlatCut(x: Extent, lo: int, hi: int)
    requires lo <= hi
    ensures Clamp(lo, x.off, x.len) <= Clamp(hi, x.off, x.len)
    ensures Flat(Cut(x, lo, hi)) == Range(x.off, x.len)[Clamp(lo, x.off, x.len)..Clamp(hi, x.off, x.len)]
  {
    var s, e := Max(x.off, lo), Min(x.End(), hi);
    if s < e {
      FlatAppend([], Extent(s, e - s));
      assert [] + [Extent(s, e - s)] == [Extent(s, e - s)];
    }
  }

  /** Once the stream's last extent reaches below `b`, all earlier ones lie below `b`. */
  lemma EarlierBelow(xs: seq<Extent>, b: int)
    requires Ordered(xs) && xs != []
    requires xs[|xs| - 1].off < b
    ensures Below(xs[..|xs| - 1], b) == |Flat(xs[..|xs| - 1])|
  {
    var n := |xs| - 1;
    forall j | 0 <= j < n ensures xs[..n][j].End() <= b { assert xs[j].End() <= xs[n].off; }
    BelowAll(xs[..n], b);
  }

  lemma FlatClipAppend(p: seq<Extent>, x: Extent, lo: int, hi: int)
    requires lo <= hi
    ensures Clamp(lo, x.off, x.len) <= Clamp(hi, x.off, x.len)
    ensures Flat(Clip(p + [x], lo, hi)) ==
            Flat(Clip(p, lo, hi)) + Range(x.off, x.len)[Clamp(lo, x.off, x.len)..Clamp(hi, x.off, x.len)]
  {
    ClipAppend(p, x, lo, hi);
    FlatConcat(Clip(p, lo, hi), Cut(x, lo, hi));
    FlatCut(x, lo, hi);
  }

  lemma BelowAppend(p: seq<Extent>, x: Extent, b: int)
    ensures Below(p + [x], b) == Below(p, b) + Clamp(b, x.off, x.len)
  {
    assert (p + [x])[..|p|] == p;
  }

  /** Clipping an ordered list to a window takes one contiguous slice of its stream. */
  lemma {:induction false} ClipIsSlice(xs: seq<Extent>, lo: int, hi: int)
    requires Ordered(xs) && lo <= hi
    ensures Below(xs, lo) <= Below(xs, hi) <= |Flat(xs)|
    ensures Flat(Clip(xs, lo, hi)) == Flat(xs)[Below(xs, lo)..Below(xs, hi)]
  {
    if xs == [] {
      assert Flat(xs)[0..0] == [];
    } else {
      var n := |xs| - 1;
      var p, x := xs[..n], xs[n];
      assert p + [x] == xs;
      ClipIsSlice(p, lo, hi);
      if x.off < lo { EarlierBelow(xs, lo); }
      if x.off < hi { EarlierBelow(xs, hi); }
      FlatClipAppend(p, x, lo, hi);
      FlatAppend(p, x);
      BelowAppend(p, x, lo);
      BelowAppend(p, x, hi);
      SliceAcross(Flat(xs), Flat(Clip(xs, lo, hi)), Flat(p), Flat(Clip(p, lo, hi)), Range(x.off, x.len),
                  Below(p, lo), Below(p, hi), Clamp(lo, x.off, x.len), Clamp(hi, x.off, x.len),
                  Below(xs, lo), Below(xs, hi));
    }
  }

  /** A slice that runs to the end of `f` continues into `r`. */
  lemma SliceAcross<T>(all: seq<T>, cut: seq<T>, f: seq<T>, fcut: seq<T>, r: seq<T>, a: nat, b: nat, c: nat, d: nat,
                       l: nat, h: nat)
    requires l == a + c && h == b + d
    requires a <= b <= |f| && c <= d <= |r|
    requires (c > 0 ==> a == |f|) && (d > 0 ==> b == |f|)
    requires all == f + r && fcut == f[a..b] && cut == fcut + r[c..d]
    ensures cut == all[l..h]
  {
  }

  // ---------- Direct writes, seen at one byte ----------

  /** The byte at `x`, initially `v`, after writing data[k] at offs[k] for k = 0, 1, ... */
  function Put<T>(v: T, offs: seq<int>, data: seq<T>, x: int): T
    requires |offs| == |data|
  {
    if offs == [] then v
    else
      var n := |offs| - 1;
      if offs[n] == x then data[n] else Put(v, offs[..n], data[..n], x)
  }

  ghost predicate Matching<T>(offs: seq<seq<int>>, data: seq<seq<T>>) {
    |offs| == |data| && forall i :: 0 <= i < |offs| ==> |offs[i]| == |data[i]|
  }

  /** The byte at `x` after process 0, then process 1, ... wrote their streams directly. */
  ghost function PutAll<T>(v: T, offs: seq<seq<int>>, data: seq<seq<T>>, x: int): T
    requires Matching(offs, data)
  {
    if offs == [] then v
    else
      var n := |offs| - 1;
      Put(PutAll(v, offs[..n], data[..n], x), offs[n], data[n], x)
  }

  lemma {:induction false} PutMiss<T>(v: T, offs: seq<int>, data: seq<T>, x: int)
    requires |offs| == |data|
    requires forall k :: 0 <= k < |offs| ==> offs[k] != x
    ensures Put(v, offs, data, x) == v
  {
    if offs == [] {
    } else {
      PutMiss(v, offs[..|offs| - 1], data[..|offs| - 1], x);
    }
  }

  /** A byte that is written does not depend on what was there before. */
  lemma {:induction false} PutHit<T>(v: T, w: T, offs: seq<int>, data: seq<T>, x: int)
    requires |offs| == |data| && x in offs
    ensures Put(v, offs, data, x) == Put(w, offs, data, x)
  {
    var n := |offs| - 1;
    if offs[n] != x {
      assert x in offs[..n];
      PutHit(v, w, offs[..n], data[..n], x);
    }
  }

  lemma {:induction false} PutConcat<T>(v: T, o1: seq<int>, d1: seq<T>, o2: seq<int>, d2: seq<T>, x: int)
    requires |o1| == |d1| && |o2| == |d2|
    ensures Put(v, o1 + o2, d1 + d2, x) == Put(Put(v, o1, d1, x), o2, d2, x)
    decreases |o2|
  {
    if o2 == [] {
      assert o1 + o2 == o1 && d1 + d2 == d1;
    } else {
      var n := |o2| - 1;
      assert (o1 + o2)[..|o1| + n] == o1 + o2[..n];
      assert (d1 + d2)[..|d1| + n] == d1 + d2[..n];
      PutConcat(v, o1, d1, o2[..n], d2[..n], x);
    }
  }

  /** Only the part of the streams that can hit `x` matters. */
  lemma PutSlice<T>(v: T, offs: seq<int>, data: seq<T>, l: nat, h: nat, x: int)
    requires |offs| == |data| && l <= h <= |offs|
    requires forall k :: (0 <= k < l || h <= k < |offs|) ==> offs[k] != x
    ensures Put(v, offs[l..h], data[l..h], x) == Put(v, offs, data, x)
  {
    assert offs == offs[..l] + (offs[l..h] + offs[h..]);
    assert data == data[..l] + (data[l..h] + data[h..]);
    PutConcat(v, offs[..l], data[..l], offs[l..h] + offs[h..], data[l..h] + data[h..], x);
    PutMiss(v, offs[..l], data[..l], x);
    PutConcat(v, offs[l..h], data[l..h], offs[h..], data[h..], x);
    PutMiss(Put(v, offs[l..h], data[l..h], x), offs[h..], data[h..], x);
  }

  /** In an increasing stream the one entry at `x` decides. */
  lemma PutAt<T>(v: T, offs: seq<int>, data: seq<T>, k: nat)
    requires |offs| == |data| && Increasing(offs) && k < |offs|
    ensures Put(v, offs, data, offs[k]) == data[k]
  {
    PutSlice(v, offs, data, k, k + 1, offs[k]);
    assert offs[k..k + 1] == [offs[k]] && data[k..k + 1] == [data[k]];
  }

  lemma {:induction false} PutAllMiss<T>(v: T, offs: seq<seq<int>>, data: seq<seq<T>>, x: int)
    requires Matching(offs, data)
    requires forall i :: 0 <= i < |offs| ==> x !in offs[i]
    ensures PutAll(v, offs, data, x) == v
  {
    if offs == [] {
    } else {
      var n := |offs| - 1;
      PutAllMiss(v, offs[..n], data[..n], x);
      assert x !in offs[n];
      PutMiss(v, offs[n], data[n], x);
    }
  }

  lemma {:induction false} PutAllHit<T>(v: T, w: T, offs: seq<seq<int>>, data: seq<seq<T>>, i: nat, x: int)
    requires Matching(offs, data) && i < |offs| && x in offs[i]
    ensures PutAll(v, offs, data, x) == PutAll(w, offs, data, x)
  {
    var n := |offs| - 1;
    if i < n {
      PutAllHit(v, w, offs[..n], data[..n], i, x);
    } else {
      PutHit(PutAll(v, offs[..n], data[..n], x), PutAll(w, offs[..n], data[..n], x), offs[n], data[n], x);
    }
  }

  /** Streams that act alike on `x` process by process act alike on `x` together. */
  lemma {:induction false} PutAllSame<T>(v: T, o1: seq<seq<int>>, d1: seq<seq<T>>, o2: seq<seq<int>>,
                                         d2: seq<seq<T>>, x: int)
    requires Matching(o1, d1) && Matching(o2, d2) && |o1| == |o2|
    requires forall i, w: T :: 0 <= i < |o1| ==> Put(w, o1[i], d1[i], x) == Put(w, o2[i], d2[i], x)
    ensures PutAll(v, o1, d1, x) == PutAll(v, o2, d2, x)
  {
    if o1 == [] {
    } else {
      var n := |o1| - 1;
      PutAllSame(v, o1[..n], d1[..n], o2[..n], d2[..n], x);
    }
  }

  /** When one process alone can write `x`, only its writes count. */
  lemma {:induction false} PutAllOnly<T>(v: T, offs: seq<seq<int>>, data: seq<seq<T>>, i: nat, x: int)
    requires Matching(offs, data) && i < |offs|
    requires forall j :: 0 <= j < |offs| && j != i ==> x !in offs[j]
    ensures PutAll(v, offs, data, x) == Put(v, offs[i], data[i], x)
  {
    var n := |offs| - 1;
    if i == n {
      PutAllMiss(v, offs[..n], data[..n], x);
    } else {
      PutAllOnly(v, offs[..n], data[..n], i, x);
      assert x !in offs[n];
      PutMiss(PutAll(v, offs[..n], data[..n], x), offs[n], data[n], x);
    }
  }

  /** So it gets that process's byte. */
  lemma {:induction false} PutAllSole<T>(v: T, offs: seq<seq<int>>, data: seq<seq<T>>, i: nat, k: nat)
    requires Matching(offs, data) && i < |offs| && Increasing(offs[i]) && k < |offs[i]|
    requires forall j :: 0 <= j < |offs| && j != i ==> offs[i][k] !in offs[j]
    ensures PutAll(v, offs, data, offs[i][k]) == data[i][k]
  {
    PutAllOnly(v, offs, data, i, offs[i][k]);
    PutAt(v, offs[i], data[i], k);
  }
}
