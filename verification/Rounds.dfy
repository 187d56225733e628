/**
 What one window of an aggregator receives, and what it must write: the streams of all
 processes, cut at the window's bounds.
 */
module Rounds {
  import opened Extents
  import opened Holes

  /** The requests of all processes at one aggregator: in order, no overlap within one. */
  ghost predicate Legal(origs: seq<seq<Extent>>) {
    forall i :: 0 <= i < |origs| ==> Ordered(origs[i]) && Positive(origs[i])
  }

  ghost predicate Fits(origs: seq<seq<Extent>>, data: seq<seq<Byte>>) {
    |origs| == |data| && forall i :: 0 <= i < |origs| ==> |Flat(origs[i])| == |data[i]|
  }

  ghost function Flats(origs: seq<seq<Extent>>): (r: seq<seq<int>>)
    ensures |r| == |origs| && forall i :: 0 <= i < |r| ==> r[i] == Flat(origs[i])
  {
    seq(|origs|, i requires 0 <= i < |origs| => Flat(origs[i]))
  }

  ghost function Clips(origs: seq<seq<Extent>>, lo: int, hi: int): (r: seq<seq<int>>)
    ensures |r| == |origs| && forall i :: 0 <= i < |r| ==> r[i] == Flat(Clip(origs[i], lo, hi))
  {
    seq(|origs|, i requires 0 <= i < |origs| => Flat(Clip(origs[i], lo, hi)))
  }

  /** The bytes of process i's stream that fall into the window. */
  ghost function Slice(orig: seq<Extent>, d: seq<Byte>, lo: int, hi: int): seq<Byte>
    requires Ordered(orig) && |Flat(orig)| == |d| && lo <= hi
  {
    ClipIsSlice(orig, lo, hi);
    d[Below(orig, lo)..Below(orig, hi)]
  }

  ghost predicate IsRecv(origs: seq<seq<Extent>>, data: seq<seq<Byte>>, recv: seq<seq<Byte>>, lo: int, hi: int)
    requires Legal(origs) && Fits(origs, data) && lo <= hi
  {
    |recv| == |origs| && forall i :: 0 <= i < |origs| ==> recv[i] == Slice(origs[i], data[i], lo, hi)
  }

  lemma RecvMatches(origs: seq<seq<Extent>>, data: seq<seq<Byte>>, recv: seq<seq<Byte>>, lo: int, hi: int)
    requires Legal(origs) && Fits(origs, data) && lo <= hi && IsRecv(origs, data, recv, lo, hi)
    ensures Matching(Clips(origs, lo, hi), recv) && Matching(Flats(origs), data)
  {
    forall i | 0 <= i < |origs| ensures |Clips(origs, lo, hi)[i]| == |recv[i]| {
      ClipIsSlice(origs[i], lo, hi);
    }
  }

  /** The byte at `x` once all processes wrote their requests directly, in rank order. */
  ghost function Target(origs: seq<seq<Extent>>, data: seq<seq<Byte>>, v: Byte, x: int): Byte
    requires Fits(origs, data)
  {
    PutAll(v, Flats(origs), data, x)
  }

  lemma SliceTarget(orig: seq<Extent>, d: seq<Byte>, lo: int, hi: int, x: int, w: Byte)
    requires Ordered(orig) && |Flat(orig)| == |d| && lo <= x < hi
    ensures |Flat(Clip(orig, lo, hi))| == |Slice(orig, d, lo, hi)|
    ensures Put(w, Flat(Clip(orig, lo, hi)), Slice(orig, d, lo, hi), x) == Put(w, Flat(orig), d, x)
  {
    ClipIsSlice(orig, lo, hi);
    var f, l, h := Flat(orig), Below(orig, lo), Below(orig, hi);
    forall k | 0 <= k < l || h <= k < |f| ensures f[k] != x {
      BelowThreshold(orig, lo, k);
      BelowThreshold(orig, hi, k);
    }
    PutSlice(w, f, d, l, h, x);
  }

  /** Inside the window, writing what was received there is writing everything. */
  lemma {:induction false} WindowTarget(origs: seq<seq<Extent>>, data: seq<seq<Byte>>, recv: seq<seq<Byte>>, lo: int,
                                        hi: int, v: Byte, x: int)
    requires Legal(origs) && Fits(origs, data) && lo <= x < hi && IsRecv(origs, data, recv, lo, hi)
    ensures Matching(Clips(origs, lo, hi), recv)
    ensures PutAll(v, Clips(origs, lo, hi), recv, x) == Target(origs, data, v, x)
  {
    RecvMatches(origs, data, recv, lo, hi);
    forall i, w: Byte | 0 <= i < |origs|
      ensures Put(w, Clips(origs, lo, hi)[i], recv[i], x) == Put(w, Flats(origs)[i], data[i], x)
    {
      SliceTarget(origs[i], data[i], lo, hi, x, w);
    }
    PutAllSame(v, Clips(origs, lo, hi), recv, Flats(origs), data, x);
  }

  /** Some process asked for byte `x`. */
  ghost predicate Requested(origs: seq<seq<Extent>>, x: int) {
    exists i :: 0 <= i < |origs| && Touches(origs[i], x)
  }

  lemma TouchesFlat(xs: seq<Extent>, x: int)
    ensures Touches(xs, x) <==> x in Flat(xs)
  {
    FlatHas(xs, x);
  }

  lemma EndsRequested(reqs: seq<seq<Extent>>, i: nat, j: nat)
    requires i < |reqs| && j < |reqs[i]| && Positive(reqs[i])
    ensures Requested(reqs, reqs[i][j].off) && Requested(reqs, reqs[i][j].off + reqs[i][j].len - 1)
  {
    assert reqs[i][j].Has(reqs[i][j].off) && reqs[i][j].Has(reqs[i][j].off + reqs[i][j].len - 1);
  }

  /** A byte nobody asked for keeps its value ... */
  lemma UnrequestedTarget(origs: seq<seq<Extent>>, data: seq<seq<Byte>>, v: Byte, x: int)
    requires Fits(origs, data) && !Requested(origs, x)
    ensures Target(origs, data, v, x) == v
  {
    forall i | 0 <= i < |origs| ensures x !in Flats(origs)[i] { TouchesFlat(origs[i], x); }
    PutAllMiss(v, Flats(origs), data, x);
  }

  /** ... and one that somebody asked for does not depend on its old value. */
  lemma RequestedTarget(origs: seq<seq<Extent>>, data: seq<seq<Byte>>, v: Byte, w: Byte, x: int)
    requires Fits(origs, data) && Requested(origs, x)
    ensures Target(origs, data, v, x) == Target(origs, data, w, x)
  {
    var i :| 0 <= i < |origs| && Touches(origs[i], x);
    TouchesFlat(origs[i], x);
    PutAllHit(v, w, Flats(origs), data, i, x);
  }

  // ---------- Tiling by ceiling division ----------

  function RoundCount(total: nat, cb: nat): nat
    requires cb > 0
  {
    (total + cb - 1) / cb
  }

  /** How many bytes the first `m` windows cover. */
  function Covers(m: nat, total: nat, cb: nat): nat { Min(m * cb, total) }

  lemma {:induction false} CoversStep(m: nat, total: nat, cb: nat)
    requires cb > 0 && m < RoundCount(total, cb)
    ensures Covers(m, total, cb) == m * cb < total
    ensures Covers(m + 1, total, cb) == Covers(m, total, cb) + Min(cb, total - Covers(m, total, cb))
    ensures 0 < Min(cb, total - Covers(m, total, cb)) <= cb
  {
    var n := RoundCount(total, cb);
    assert n * cb <= total + cb - 1;
    MulStep(m + 1, n, cb);
    assert (m + 1) * cb == m * cb + cb;
  }

  lemma MulStep(a: nat, b: nat, c: nat)
    requires a <= b
    ensures a * c <= b * c
  {
  }

  /** The windows tile the range exactly: none short, none too many. */
  lemma {:induction false} CoversAll(total: nat, cb: nat)
    requires cb > 0
    ensures Covers(RoundCount(total, cb), total, cb) == total && Covers(0, total, cb) == 0
  {
    var n := RoundCount(total, cb);
    assert total + cb - 1 < n * cb + cb;
  }
}
