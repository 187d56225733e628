/**
 The contiguous-buffer shortcut: with a contiguous user buffer nothing is packed; the
 bytes for rank p are taken straight from the buffer at buf_idx[p], which then advances
 by the amount exchanged.  This is right exactly when each aggregator's share of the
 stream is one slice of it.
 */
module Shortcut {
  import opened Sequences
  import opened Extents
  import opened Domains
  import opened Shares
  import opened Requests

  /** No access reaches into a domain beyond the one where a later access begins. */
  ghost predicate NoReturn(starts: seq<int>, xs: seq<Extent>)
    requires |starts| > 0
  {
    forall i, j :: 0 <= i < j < |xs| && xs[i].len > 0 && xs[j].len > 0 ==>
      Owner(starts, xs[i].End() - 1) <= Owner(starts, xs[j].off)
  }

  /** Domain d's bytes occupy the stream positions from its first byte on, without gap. */
  ghost predicate ShareIsRun(starts: seq<int>, offs: seq<int>, d: nat)
    requires |starts| > 0
  {
    Share(starts, d, offs, Range(0, |offs|)) == Range(First(starts, d, offs), Count(starts, d, offs))
  }

  /** An ordered list without overlap never returns: the shortcut is safe for writes. */
  lemma {:induction false} OrderedNoReturn(starts: seq<int>, ends: seq<int>, lo: int, hi: int, xs: seq<Extent>)
    requires Partition(starts, ends, lo, hi) && InRange(xs, lo, hi) && Ordered(xs)
    ensures NoReturn(starts, xs)
  {
    forall i, j | 0 <= i < j < |xs| && xs[i].len > 0 && xs[j].len > 0
      ensures Owner(starts, xs[i].End() - 1) <= Owner(starts, xs[j].off)
    {
      OwnerMonotone(starts, ends, lo, hi, xs[i].End() - 1, xs[j].off);
    }
  }

  lemma {:induction false} FlatAt(xs: seq<Extent>, i: nat, t: nat, k: nat)
    requires i < |xs| && t < xs[i].len && k == |Flat(xs[..i])| + t
    ensures k < |Flat(xs)| && Flat(xs)[k] == xs[i].off + t
  {
    var n := |xs| - 1;
    if i == n {
    } else {
      assert xs[..n][..i] == xs[..i];
      FlatAt(xs[..n], i, t, k);
    }
  }

  lemma {:induction false} FlatGrows(xs: seq<Extent>, i: nat, j: nat)
    requires i < j <= |xs|
    ensures |Flat(xs[..i])| + xs[i].len <= |Flat(xs[..j])|
    decreases j
  {
    assert xs[..j][..j - 1] == xs[..j - 1];
    if i < j - 1 { FlatGrows(xs, i, j - 1); }
  }

  /** Bytes of earlier accesses are owned no later than the last access begins. */
  lemma EarlierOwner(starts: seq<int>, ends: seq<int>, lo: int, hi: int, xs: seq<Extent>, x: int)
    requires Partition(starts, ends, lo, hi) && InRange(xs, lo, hi) && NoReturn(starts, xs)
    requires |xs| > 0 && xs[|xs| - 1].len > 0 && x in Flat(xs[..|xs| - 1])
    ensures lo <= x && Owner(starts, x) <= Owner(starts, xs[|xs| - 1].off)
  {
    var n := |xs| - 1;
    FlatHas(xs[..n], x);
    var j :| 0 <= j < n && xs[..n][j].Has(x);
    assert xs[j].Has(x);
    OwnerMonotone(starts, ends, lo, hi, x, xs[j].End() - 1);
  }

  lemma {:induction false} NoReturnMonotone(starts: seq<int>, ends: seq<int>, lo: int, hi: int, xs: seq<Extent>)
    requires Partition(starts, ends, lo, hi) && InRange(xs, lo, hi) && NoReturn(starts, xs)
    ensures OwnersMonotone(starts, Flat(xs))
  {
    if xs == [] {
    } else {
      var n := |xs| - 1;
      var x := xs[n];
      assert NoReturn(starts, xs[..n]) && InRange(xs[..n], lo, hi);
      NoReturnMonotone(starts, ends, lo, hi, xs[..n]);
      var f, r := Flat(xs[..n]), Range(x.off, x.len);
      forall i, j | 0 <= i < j < |f + r| ensures Owner(starts, (f + r)[i]) <= Owner(starts, (f + r)[j]) {
        if i < |f| <= j {
          EarlierOwner(starts, ends, lo, hi, xs, f[i]);
          OwnerMonotone(starts, ends, lo, hi, x.off, r[j - |f|]);
        } else if |f| <= i {
          OwnerMonotone(starts, ends, lo, hi, r[i - |f|], r[j - |f|]);
        }
      }
    }
  }

  /** Two accesses that break `NoReturn` leave a domain and return to it. */
  lemma ReturnPositions(starts: seq<int>, ends: seq<int>, lo: int, hi: int, xs: seq<Extent>, i: nat, j: nat)
    returns (k1: nat, k2: nat, k3: nat)
    requires Partition(starts, ends, lo, hi) && InRange(xs, lo, hi) && Sorted(xs)
    requires i < j < |xs| && xs[i].len > 0 && xs[j].len > 0
    requires Owner(starts, xs[i].End() - 1) > Owner(starts, xs[j].off)
    ensures k1 < k2 < k3 < |Flat(xs)| && Flat(xs)[k1] == Flat(xs)[k3] == xs[j].off
    ensures Owner(starts, Flat(xs)[k2]) != Owner(starts, xs[j].off)
  {
    hide Flat, Owner, Partition;
    var a, b := xs[i], xs[j];
    OwnerLess(starts, ends, lo, hi, b.off, a.End() - 1);
    var p := |Flat(xs[..i])|;
    var t, u := b.off - a.off, a.len - 1;
    k1, k2, k3 := p + t, p + u, |Flat(xs[..j])|;
    FlatAt(xs, i, t, k1);
    FlatAt(xs, i, u, k2);
    FlatAt(xs, j, 0, k3);
    FlatGrows(xs, i, j);
  }

  /** ... so the share has a gap. */
  lemma ReturnBreaks(starts: seq<int>, ends: seq<int>, lo: int, hi: int, xs: seq<Extent>, i: nat, j: nat)
    requires Partition(starts, ends, lo, hi) && InRange(xs, lo, hi) && Sorted(xs)
    requires i < j < |xs| && xs[i].len > 0 && xs[j].len > 0
    requires Owner(starts, xs[i].End() - 1) > Owner(starts, xs[j].off)
    ensures !ShareIsRun(starts, Flat(xs), Owner(starts, xs[j].off))
  {
    hide Flat, Owner, ShareIsRun;
    var k1, k2, k3 := ReturnPositions(starts, ends, lo, hi, xs, i, j);
    GapBreaks(starts, Flat(xs), k1, k2, k3, xs[j].off);
  }

  lemma GapBreaks(starts: seq<int>, f: seq<int>, k1: nat, k2: nat, k3: nat, x: int)
    requires |starts| > 0 && k1 < k2 < k3 < |f| && f[k1] == x == f[k3] && Owner(starts, f[k2]) != Owner(starts, x)
    ensures !ShareIsRun(starts, f, Owner(starts, x))
  {
    ReturnIsNotSlice(starts, f, First(starts, Owner(starts, x), f), k1, k2, k3);
  }

  lemma OwnerLess(starts: seq<int>, ends: seq<int>, lo: int, hi: int, x: int, y: int)
    requires Partition(starts, ends, lo, hi) && lo <= x && lo <= y && Owner(starts, x) < Owner(starts, y)
    ensures x < y
  {
    if y <= x { OwnerMonotone(starts, ends, lo, hi, y, x); }
  }

  /** The shortcut addresses the right bytes for every aggregator if and only if no
      access reaches past the domain where a later access begins. */
  lemma {:induction false} ShortcutIff(starts: seq<int>, ends: seq<int>, lo: int, hi: int, xs: seq<Extent>)
    requires Partition(starts, ends, lo, hi) && InRange(xs, lo, hi) && Sorted(xs)
    ensures NoReturn(starts, xs) <==> forall d :: 0 <= d < |starts| ==> ShareIsRun(starts, Flat(xs), d)
  {
    var f := Flat(xs);
    if NoReturn(starts, xs) {
      NoReturnMonotone(starts, ends, lo, hi, xs);
      forall d | 0 <= d < |starts| ensures ShareIsRun(starts, f, d) {
        MonotoneIsSlice(starts, d, f, Range(0, |f|));
      }
    } else {
      var i, j :| 0 <= i < j < |xs| && xs[i].len > 0 && xs[j].len > 0 &&
                  Owner(starts, xs[i].End() - 1) > Owner(starts, xs[j].off);
      ReturnBreaks(starts, ends, lo, hi, xs, i, j);
    }
  }

  /** Overlapping accesses, legal for reads, can break the shortcut: bytes [0, 100) then
      [10, 20), with a domain boundary at 50. */
  lemma {:induction false} OverlapBreaksShortcut()
    ensures var starts, ends, xs := [0, 50], [49, 99], [Extent(0, 100), Extent(10, 10)];
      Partition(starts, ends, 0, 99) && InRange(xs, 0, 99) && Sorted(xs) && !ShareIsRun(starts, Flat(xs), 0)
  {
    var starts, ends, xs := [0, 50], [49, 99], [Extent(0, 100), Extent(10, 10)];
    OwnerUnique(starts, ends, 0, 99, 99, 1);
    OwnerUnique(starts, ends, 0, 99, 10, 0);
    ReturnBreaks(starts, ends, 0, 99, xs, 0, 1);
  }

  // ---------- buf_idx is the position of the first byte ----------

  lemma {:induction false} FirstConcat(starts: seq<int>, d: nat, o1: seq<int>, o2: seq<int>)
    requires |starts| > 0
    ensures First(starts, d, o1 + o2) ==
            if Count(starts, d, o1) > 0 then First(starts, d, o1) else |o1| + First(starts, d, o2)
    decreases |o2|
  {
    if o2 == [] {
      assert o1 + o2 == o1;
      if Count(starts, d, o1) == 0 { FirstNone(starts, d, o1); }
    } else {
      var n := |o2| - 1;
      FirstConcat(starts, d, o1, o2[..n]);
      CountConcat(starts, d, o1, o2[..n]);
      assert (o1 + o2)[..|o1| + n] == o1 + o2[..n];
    }
  }

  lemma {:induction false} FirstNone(starts: seq<int>, d: nat, offs: seq<int>)
    requires |starts| > 0 && Count(starts, d, offs) == 0
    ensures First(starts, d, offs) == |offs|
  {
  }

  lemma {:induction false} FirstUniform(starts: seq<int>, d: nat, offs: seq<int>)
    requires |starts| > 0 && |offs| > 0 && forall k :: 0 <= k < |offs| ==> Owner(starts, offs[k]) == d
    ensures First(starts, d, offs) == 0
  {
    hide Owner, Share, Count;
    var n := |offs| - 1;
    var p := offs[..n];
    assert forall k :: 0 <= k < n ==> p[k] == offs[k];
    ShareUniform(starts, d, d, p, p);
    if n == 0 {
    } else {
      FirstUniform(starts, d, p);
    }
  }

  /** Every byte of a piece is owned by the piece's domain. */
  ghost predicate Owned(starts: seq<int>, ps: seq<Piece>)
    requires |starts| > 0
  {
    forall i, x :: 0 <= i < |ps| && ps[i].ext.Has(x) ==> Owner(starts, x) == ps[i].dom
  }

  lemma {:induction false} FirstIdxIsFirst(starts: seq<int>, ps: seq<Piece>, ranklist: seq<nat>, d: nat)
    requires |starts| > 0 && Owned(starts, ps) && Distinct(ranklist) && d < |ranklist|
    requires forall i :: 0 <= i < |ps| ==> ps[i].ext.len > 0
    ensures var f := Flat(Exts(ps));
      FirstIdx(ps, ranklist, ranklist[d]) == if Count(starts, d, f) > 0 then First(starts, d, f) else -1
  {
    if ps == [] {
    } else {
      var n := |ps| - 1;
      var p, q := ps[n], ps[..n];
      FirstIdxIsFirst(starts, q, ranklist, d);
      var f, r := Flat(Exts(q)), Range(p.ext.off, p.ext.len);
      FlatAppend(Exts(q), p.ext);
      FirstConcat(starts, d, f, r);
      CountConcat(starts, d, f, r);
      forall k | 0 <= k < |r| ensures Owner(starts, r[k]) == p.dom { assert p.ext.Has(r[k]); }
      ShareUniform(starts, d, p.dom, r, r);
      if p.dom == d { FirstUniform(starts, d, r); }
      assert p.dom < |ranklist| && p.dom != d ==> ranklist[p.dom] != ranklist[d];
    }
  }

  lemma {:induction false} SplitOwned(starts: seq<int>, ends: seq<int>, lo: int, hi: int, xs: seq<Extent>)
    requires Partition(starts, ends, lo, hi) && InRange(xs, lo, hi)
    ensures Owned(starts, SplitAll(starts, xs))
    ensures forall i :: 0 <= i < |SplitAll(starts, xs)| ==> SplitAll(starts, xs)[i].ext.len > 0
  {
    if xs == [] {
    } else {
      var n := |xs| - 1;
      var x := xs[n];
      SplitOwned(starts, ends, lo, hi, xs[..n]);
      var qs := Split(starts, x.off, x.len);
      if x.len > 0 {
        SplitInside(starts, ends, lo, hi, x.off, x.len);
        forall i, y | 0 <= i < |qs| && qs[i].ext.Has(y) ensures Owner(starts, y) == qs[i].dom {
          assert qs[i] in qs;
          OwnerUnique(starts, ends, lo, hi, y, qs[i].dom);
        }
        forall i | 0 <= i < |qs| ensures qs[i].ext.len > 0 { assert qs[i] in qs; }
      }
    }
  }

  /** buf_idx of a rank that gets any bytes is the stream position of its first byte. */
  lemma {:induction false} BufIdxIsFirst(starts: seq<int>, ends: seq<int>, lo: int, hi: int, xs: seq<Extent>,
                                         ranklist: seq<nat>, d: nat)
    requires Partition(starts, ends, lo, hi) && InRange(xs, lo, hi)
    requires Distinct(ranklist) && |ranklist| == |starts| && d < |starts|
    ensures FirstIdx(SplitAll(starts, xs), ranklist, ranklist[d]) ==
            if Count(starts, d, Flat(xs)) > 0 then First(starts, d, Flat(xs)) else -1
  {
    SplitOwned(starts, ends, lo, hi, xs);
    SplitAllTiles(starts, xs);
    FirstIdxIsFirst(starts, SplitAll(starts, xs), ranklist, d);
  }

  lemma WriteShareIsSlice<T>(starts: seq<int>, ends: seq<int>, lo: int, hi: int, xs: seq<Extent>, d: nat, data: seq<T>)
    requires Partition(starts, ends, lo, hi) && InRange(xs, lo, hi) && Ordered(xs) && |data| == |Flat(xs)|
    ensures var b, c := First(starts, d, Flat(xs)), Count(starts, d, Flat(xs));
      b + c <= |data| && Share(starts, d, Flat(xs), data) == data[b..b + c]
  {
    OrderedNoReturn(starts, ends, lo, hi, xs);
    NoReturnMonotone(starts, ends, lo, hi, xs);
    MonotoneIsSlice(starts, d, Flat(xs), data);
  }

  /** For writes, taking `m` bytes at buf_idx[p] plus what was already sent to p takes
      the next `m` bytes of p's share, whatever the data. */
  lemma {:induction false} ContiguousSend<T>(starts: seq<int>, ends: seq<int>, lo: int, hi: int, xs: seq<Extent>,
                                             ranklist: seq<nat>, d: nat, data: seq<T>, sent: nat, m: nat, at: int)
    requires Partition(starts, ends, lo, hi) && InRange(xs, lo, hi) && Ordered(xs)
    requires Distinct(ranklist) && |ranklist| == |starts| && d < |starts| && |data| == |Flat(xs)|
    requires m > 0 && sent + m <= Count(starts, d, Flat(xs))
    requires at == FirstIdx(SplitAll(starts, xs), ranklist, ranklist[d]) + sent
    ensures 0 <= at && at + m <= |data| && sent + m <= |Share(starts, d, Flat(xs), data)|
    ensures data[at..at + m] == Share(starts, d, Flat(xs), data)[sent..sent + m]
  {
    BufIdxIsFirst(starts, ends, lo, hi, xs, ranklist, d);
    WriteShareIsSlice(starts, ends, lo, hi, xs, d, data);
    SubSlice(data, Share(starts, d, Flat(xs), data), First(starts, d, Flat(xs)), Count(starts, d, Flat(xs)), sent, m,
             at);
  }

  lemma SubSlice<T>(data: seq<T>, sh: seq<T>, b: nat, c: nat, sent: nat, m: nat, at: int)
    requires b + c <= |data| && sh == data[b..b + c] && sent + m <= c && at == b + sent
    ensures |sh| == c && data[at..at + m] == sh[sent..sent + m]
  {
  }
}
