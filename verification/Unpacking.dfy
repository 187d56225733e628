/**
 Unpacking received bytes into a noncontiguous user buffer (`ADIOI_Fill_user_buffer`):
 the same walk over all accesses as packing, copying in the other direction.
 */
module Unpacking {
  import opened Sequences
  import opened Extents
  import opened Domains
  import opened Shares
  import opened Requests
  import opened FlatTypes
  import opened Packing

  /** One piece of `len` bytes from a process of which `c` bytes were passed before: the
      bytes with share index in [done, done + recvSize) come from the receive buffer. */
  method UnpackPiece(cur: BufferCursor, ub: array<Byte>, rb: array<Byte>, recvSize: nat, idx0: nat, curr0: nat,
                     done: nat, len: nat, ghost c: nat, ghost limit: nat)
    returns (idx: nat, curr: nat)
    requires cur.Valid() && ub != rb && rb.Length == recvSize && cur.pos + len <= limit && len > 0
    requires Within(cur.ft, limit, ub.Length) && Injective(cur.ft, limit)
    requires curr0 == Passed(c, done, recvSize) && idx0 == Filled(c, done, recvSize)
    modifies cur, ub
    ensures cur.Valid() && cur.pos == old(cur.pos) + len
    ensures curr == Passed(c + len, done, recvSize) && idx == Filled(c + len, done, recvSize)
    ensures idx0 <= idx <= recvSize
    ensures idx == idx0 ==> ub[..] == old(ub[..])
    ensures idx0 < idx ==>
      var from, to := old(cur.pos) + (done + idx0 - c), old(cur.pos) + (done + idx - c);
      old(cur.pos) <= from <= to <= old(cur.pos) + len &&
      Written(old(ub[..]), ub[..], rb[..], cur.ft, limit, from, to, idx0)
  {
    hide BufferCursor.Valid, Addr, Proper, Written, Within, Injective;
    cur.ProperHere();
    idx, curr := idx0, curr0;
    if idx < recvSize {
      if curr + len > done {
        var size, incr;
        if done > curr {
          size := if curr + len - done <= recvSize - idx then curr + len - done else recvSize - idx;
          cur.Incr(done - curr);
          incr := curr + len - done;
          curr := done + size;
        } else {
          size := if len <= recvSize - idx then len else recvSize - idx;
          incr := len;
          curr := curr + size;
        }
        cur.CopyIn(ub, rb, idx, size, limit);
        idx := idx + size;
        cur.Incr(incr - size);
      } else {
        curr := curr + len;
        cur.Incr(len);
      }
    } else {
      cur.Incr(len);
    }
  }

  /** Entry number of stream position k in its owner's share. */
  ghost function Nth(starts: seq<int>, f: seq<int>, k: nat): nat
    requires |starts| > 0 && k < |f|
  {
    Count(starts, Owner(starts, f[k]), f[..k])
  }

  /** Does position k arrive in this round, and from which rank? */
  ghost predicate Arrives(starts: seq<int>, ranklist: seq<nat>, f: seq<int>, done: seq<nat>, size: seq<nat>, k: nat)
    requires |ranklist| == |starts| > 0 && k < |f| && |done| == |size| && RanksBelow(ranklist, |done|)
  {
    var p := ranklist[Owner(starts, f[k])];
    done[p] <= Nth(starts, f, k) < done[p] + size[p]
  }

  /** The first `n` stream positions are dealt with: those that arrive in this round have
      their byte, the others are as before, and so is memory outside the data bytes. */
  ghost predicate UnpackedTo(now: seq<Byte>, was: seq<Byte>, recv: seq<seq<Byte>>, ft: FlatType, f: seq<int>,
                             starts: seq<int>, ranklist: seq<nat>, done: seq<nat>, size: seq<nat>, n: nat)
    requires |ranklist| == |starts| > 0 && |recv| == |done| == |size| && RanksBelow(ranklist, |done|)
    requires forall p :: 0 <= p < |recv| ==> |recv[p]| == size[p]
    requires Proper(ft) && Within(ft, |f|, |was|) && |now| == |was| && n <= |f|
  {
    && (forall k :: 0 <= k < |f| ==>
          now[Addr(ft, k)] ==
          if k < n && Arrives(starts, ranklist, f, done, size, k) then
            var p := ranklist[Owner(starts, f[k])]; recv[p][Nth(starts, f, k) - done[p]]
          else was[Addr(ft, k)])
    && (forall a :: 0 <= a < |was| && Outside(ft, |f|, a) ==> now[a] == was[a])
  }

  /** The counters of one call after `n` stream positions. */
  ghost predicate Counters(idx: seq<nat>, curr: seq<nat>, done: seq<nat>, size: seq<nat>, starts: seq<int>,
                           ranklist: seq<nat>, offs: seq<int>)
    requires |starts| > 0
  {
    && |idx| == |curr| == |done| == |size| && RanksBelow(ranklist, |done|)
    && forall d :: 0 <= d < |ranklist| ==>
         idx[ranklist[d]] == Filled(Count(starts, d, offs), done[ranklist[d]], size[ranklist[d]]) &&
         curr[ranklist[d]] == Passed(Count(starts, d, offs), done[ranklist[d]], size[ranklist[d]])
  }

  /** Positions n..n + len - 1 of domain d have consecutive share indices. */
  lemma NthInPiece(starts: seq<int>, f: seq<int>, n: nat, k: nat, d: nat)
    requires |starts| > 0 && n <= k < |f| && forall j :: n <= j <= k ==> Owner(starts, f[j]) == d
    ensures Nth(starts, f, k) == Count(starts, d, f[..n]) + (k - n)
  {
    var r := f[n..k];
    ShareUniform(starts, d, d, r, r);
    CountConcat(starts, d, f[..n], r);
    assert f[..k] == f[..n] + r;
  }

  /** One piece carries the statement on by `len` positions. */
  lemma UnpackedMore(now: seq<Byte>, next: seq<Byte>, was: seq<Byte>, recv: seq<seq<Byte>>, ft: FlatType,
                     f: seq<int>, starts: seq<int>, ranklist: seq<nat>, done: seq<nat>, size: seq<nat>, n: nat,
                     n': nat, d: nat, c: nat, idx: nat, idx': nat)
    requires |ranklist| == |starts| > 0 && |recv| == |done| == |size| && RanksBelow(ranklist, |done|)
    requires forall p :: 0 <= p < |recv| ==> |recv[p]| == size[p]
    requires Proper(ft) && Within(ft, |f|, |was|) && |next| == |now| == |was| && n <= n' <= |f|
    requires UnpackedTo(now, was, recv, ft, f, starts, ranklist, done, size, n)
    requires d < |starts| && c == Count(starts, d, f[..n]) && forall k :: n <= k < n' ==> Owner(starts, f[k]) == d
    requires idx == Filled(c, done[ranklist[d]], size[ranklist[d]])
    requires idx' == Filled(c + (n' - n), done[ranklist[d]], size[ranklist[d]])
    requires idx <= idx'
    requires idx == idx' ==> next == now
    requires idx < idx' ==>
      var from, to := n + (done[ranklist[d]] + idx - c), n + (done[ranklist[d]] + idx' - c);
      n <= from <= to <= n' && Written(now, next, recv[ranklist[d]], ft, |f|, from, to, idx)
    ensures UnpackedTo(next, was, recv, ft, f, starts, ranklist, done, size, n')
  {
    hide Addr, Proper, Owner, Nth, Outside;
    forall k | n <= k < n' ensures Nth(starts, f, k) == c + (k - n) { NthInPiece(starts, f, n, k, d); }
  }

  ghost predicate Sized(recv: seq<array<Byte>>, size: seq<nat>)
  {
    |recv| == |size| && forall p :: 0 <= p < |recv| ==> recv[p].Length == size[p]
  }

  ghost function Contents(recv: seq<array<Byte>>): (r: seq<seq<Byte>>)
    reads recv
    ensures |r| == |recv| && forall p :: 0 <= p < |r| ==> r[p] == recv[p][..]
  {
    seq(|recv|, p requires 0 <= p < |recv| reads recv => recv[p][..])
  }

  /** Stream positions from..to - 1 are consecutive file offsets, beginning at `off`. */
  ghost predicate Consecutive(f: seq<int>, from: nat, to: nat, off: int) {
    from <= to <= |f| && forall k :: from <= k < to ==> f[k] == off + (k - from)
  }

  lemma ConsecutiveRest(f: seq<int>, from: nat, via: nat, to: nat, off: int, off': int)
    requires Consecutive(f, from, to, off) && from <= via <= to && off' == off + (via - from)
    ensures Consecutive(f, via, to, off') && to <= |f|
  {
  }

  /** The next piece: find its aggregator and unpack it. */
  method UnpackNext(cur: BufferCursor, ub: array<Byte>, recv: seq<array<Byte>>, size: seq<nat>, idx0: seq<nat>,
                    curr0: seq<nat>, done: seq<nat>, starts: seq<int>, ends: seq<int>, ranklist: seq<nat>, off: int,
                    rem: nat, ghost lo: int, ghost hi: int, ghost f: seq<int>, ghost was: seq<Byte>)
    returns (idx: seq<nat>, curr: seq<nat>, len: nat)
    requires Partition(starts, ends, lo, hi) && |ranklist| == |starts| > 0 && Distinct(ranklist)
    requires lo <= off && off + rem <= hi + 1 && rem > 0
    requires Sized(recv, size) && ub !in recv && |done| == |size| && RanksBelow(ranklist, |size|)
    requires cur.Valid() && Consecutive(f, cur.pos, cur.pos + rem, off)
    requires Proper(cur.ft) && Within(cur.ft, |f|, |was|) && Injective(cur.ft, |f|) && |was| == ub.Length
    requires Counters(idx0, curr0, done, size, starts, ranklist, f[..cur.pos])
    requires UnpackedTo(ub[..], was, Contents(recv), cur.ft, f, starts, ranklist, done, size, cur.pos)
    modifies cur, ub
    ensures len == Room(starts, off, rem) && cur.Valid() && cur.pos == old(cur.pos) + len
    ensures Counters(idx, curr, done, size, starts, ranklist, f[..cur.pos])
    ensures UnpackedTo(ub[..], was, Contents(recv), cur.ft, f, starts, ranklist, done, size, cur.pos)
  {
    hide BufferCursor.Valid, UnpackedTo, Partition, Owner, Addr, Within, Injective, Written, Filled, Passed, Proper,
         Count;
    var p;
    p, len := CalcAggregator(starts, ends, ranklist, off, rem, lo, hi);
    ghost var d, pos, now := Owner(starts, off), cur.pos, ub[..];
    ghost var c := Count(starts, d, f[..pos]);
    PieceOwned(starts, ends, lo, hi, f, pos, off, rem, len, d);
    var i', c' := UnpackPiece(cur, ub, recv[p], size[p], idx0[p], curr0[p], done[p], len, c, |f|);
    idx, curr := idx0[p := i'], curr0[p := c'];
    UnpackedMore(now, ub[..], was, Contents(recv), cur.ft, f, starts, ranklist, done, size, pos, pos + len, d, c,
                 idx0[p], i');
    CountersMore(idx0, curr0, idx, curr, done, size, starts, ranklist, f, pos, pos + len, d);
  }

  lemma PieceOwned(starts: seq<int>, ends: seq<int>, lo: int, hi: int, f: seq<int>, pos: nat, off: int, rem: nat,
                   len: nat, d: nat)
    requires Partition(starts, ends, lo, hi) && lo <= off && off + rem <= hi + 1 && rem > 0
    requires Consecutive(f, pos, pos + rem, off) && len == Room(starts, off, rem) && d == Owner(starts, off)
    ensures d < |starts| && forall k :: pos <= k < pos + len ==> Owner(starts, f[k]) == d
  {
    forall k | pos <= k < pos + len ensures Owner(starts, f[k]) == d {
      RoomOwned(starts, ends, lo, hi, off, rem, f[k]);
    }
  }

  lemma CountersMore(idx0: seq<nat>, curr0: seq<nat>, idx: seq<nat>, curr: seq<nat>, done: seq<nat>, size: seq<nat>,
                     starts: seq<int>, ranklist: seq<nat>, f: seq<int>, n: nat, n': nat, d: nat)
    requires |starts| > 0 && n <= n' <= |f| && d < |ranklist| && Distinct(ranklist)
    requires Counters(idx0, curr0, done, size, starts, ranklist, f[..n])
    requires forall k :: n <= k < n' ==> Owner(starts, f[k]) == d
    requires var p, c := ranklist[d], Count(starts, d, f[..n]) + (n' - n);
      idx == idx0[p := Filled(c, done[p], size[p])] && curr == curr0[p := Passed(c, done[p], size[p])]
    ensures Counters(idx, curr, done, size, starts, ranklist, f[..n'])
  {
    hide Count, Owner, Filled, Passed;
    var r := f[n..n'];
    assert f[..n'] == f[..n] + r;
    forall e | 0 <= e < |ranklist|
      ensures Count(starts, e, f[..n']) == Count(starts, e, f[..n]) + if e == d then n' - n else 0
    {
      ShareUniform(starts, e, d, r, r);
      CountConcat(starts, e, f[..n], r);
    }
  }

  /** All pieces of one access. */
  method UnpackAccess(x: Extent, cur: BufferCursor, ub: array<Byte>, recv: seq<array<Byte>>, size: seq<nat>,
                      idx0: seq<nat>, curr0: seq<nat>, done: seq<nat>, starts: seq<int>, ends: seq<int>,
                      ranklist: seq<nat>, ghost lo: int, ghost hi: int, ghost f: seq<int>, ghost was: seq<Byte>)
    returns (idx: seq<nat>, curr: seq<nat>)
    requires Partition(starts, ends, lo, hi) && |ranklist| == |starts| > 0 && Distinct(ranklist)
    requires x.len > 0 ==> lo <= x.off && x.off + x.len <= hi + 1
    requires Sized(recv, size) && ub !in recv && |done| == |size| && RanksBelow(ranklist, |size|)
    requires cur.Valid() && Consecutive(f, cur.pos, cur.pos + x.len, x.off)
    requires Proper(cur.ft) && Within(cur.ft, |f|, |was|) && Injective(cur.ft, |f|) && |was| == ub.Length
    requires Counters(idx0, curr0, done, size, starts, ranklist, f[..cur.pos])
    requires UnpackedTo(ub[..], was, Contents(recv), cur.ft, f, starts, ranklist, done, size, cur.pos)
    modifies cur, ub
    ensures cur.Valid() && cur.pos == old(cur.pos) + x.len
    ensures Counters(idx, curr, done, size, starts, ranklist, f[..cur.pos])
    ensures UnpackedTo(ub[..], was, Contents(recv), cur.ft, f, starts, ranklist, done, size, cur.pos)
  {
    hide BufferCursor.Valid, UnpackedTo, Partition, Addr, Within, Injective, Counters, Proper, Consecutive;
    ConsecutiveRest(f, cur.pos, cur.pos, cur.pos + x.len, x.off, x.off);
    idx, curr := idx0, curr0;
    var off, rem := x.off, x.len;
    ghost var end := cur.pos + x.len;
    while rem > 0
      invariant 0 <= rem <= x.len && off == x.off + (x.len - rem) && cur.pos + rem == end
      invariant cur.Valid() && Consecutive(f, cur.pos, end, off)
      invariant Counters(idx, curr, done, size, starts, ranklist, f[..cur.pos])
      invariant UnpackedTo(ub[..], was, Contents(recv), cur.ft, f, starts, ranklist, done, size, cur.pos)
      decreases rem
    {
      ghost var pos := cur.pos;
      var len;
      idx, curr, len := UnpackNext(cur, ub, recv, size, idx, curr, done, starts, ends, ranklist, off, rem, lo, hi, f,
                                   was);
      ConsecutiveRest(f, pos, pos + len, end, off, off + len);
      off := off + len;
      rem := rem - len;
    }
  }

  /** ADIOI_Fill_user_buffer: in every round, exactly the stream positions whose share
      index lies in this round's slice get their byte; all else stays. */
  method FillUserBuffer(ub: array<Byte>, ft: FlatType, recv: seq<array<Byte>>, xs: seq<Extent>, size: seq<nat>,
                        recd: seq<nat>, starts: seq<int>, ends: seq<int>, ranklist: seq<nat>, ghost lo: int,
                        ghost hi: int)
    returns (recd': seq<nat>)
    requires Partition(starts, ends, lo, hi) && InRange(xs, lo, hi)
    requires |ranklist| == |starts| > 0 && Distinct(ranklist) && RanksBelow(ranklist, |recv|)
    requires Sized(recv, size) && |recd| == |size| && ub !in recv
    requires Proper(ft) && Within(ft, |Flat(xs)|, ub.Length) && Injective(ft, |Flat(xs)|)
    requires forall p :: 0 <= p < |recv| && p !in ranklist ==> size[p] == 0
    requires forall d :: 0 <= d < |starts| ==> recd[ranklist[d]] + size[ranklist[d]] <= Count(starts, d, Flat(xs))
    modifies ub
    ensures |recd'| == |recd| && forall p :: 0 <= p < |recd| ==> recd'[p] == recd[p] + size[p]
    ensures UnpackedTo(ub[..], old(ub[..]), Contents(recv), ft, Flat(xs), starts, ranklist, recd, size, |Flat(xs)|)
  {
    hide UnpackedTo, Partition, Addr, Within, Injective, Count, Counters;
    var idx, curr := UnpackAllAccesses(ub, ft, recv, xs, size, recd, starts, ends, ranklist, lo, hi);
    CountersDone(idx, curr, recd, size, starts, ranklist, Flat(xs));
    recd' := recd;
    for i := 0 to |recv|
      invariant |recd'| == |recd|
      invariant forall p :: 0 <= p < i ==> recd'[p] == if size[p] > 0 then curr[p] else recd[p]
      invariant forall p :: i <= p < |recd| ==> recd'[p] == recd[p]
    {
      if size[i] > 0 { recd' := recd'[i := curr[i]]; }
    }
    forall p | 0 <= p < |recd| ensures recd'[p] == recd[p] + size[p] {
      if p in ranklist { var d :| 0 <= d < |ranklist| && ranklist[d] == p; }
    }
  }

  lemma CountersDone(idx: seq<nat>, curr: seq<nat>, done: seq<nat>, size: seq<nat>, starts: seq<int>,
                     ranklist: seq<nat>, f: seq<int>)
    requires |starts| > 0 && Counters(idx, curr, done, size, starts, ranklist, f)
    requires forall d :: 0 <= d < |ranklist| ==> done[ranklist[d]] + size[ranklist[d]] <= Count(starts, d, f)
    ensures |curr| == |size|
    ensures forall d :: 0 <= d < |ranklist| && size[ranklist[d]] > 0 ==>
               curr[ranklist[d]] == done[ranklist[d]] + size[ranklist[d]]
  {
  }

  method UnpackAllAccesses(ub: array<Byte>, ft: FlatType, recv: seq<array<Byte>>, xs: seq<Extent>, size: seq<nat>,
                           recd: seq<nat>, starts: seq<int>, ends: seq<int>, ranklist: seq<nat>, ghost lo: int,
                           ghost hi: int)
    returns (idx: seq<nat>, curr: seq<nat>)
    requires Partition(starts, ends, lo, hi) && InRange(xs, lo, hi)
    requires |ranklist| == |starts| > 0 && Distinct(ranklist) && RanksBelow(ranklist, |recv|)
    requires Sized(recv, size) && |recd| == |size| && ub !in recv
    requires Proper(ft) && Within(ft, |Flat(xs)|, ub.Length) && Injective(ft, |Flat(xs)|)
    modifies ub
    ensures Counters(idx, curr, recd, size, starts, ranklist, Flat(xs))
    ensures UnpackedTo(ub[..], old(ub[..]), Contents(recv), ft, Flat(xs), starts, ranklist, recd, size, |Flat(xs)|)
  {
    hide BufferCursor.Valid, UnpackedTo, Partition, Addr, Within, Injective, Counters, Proper, Flat;
    idx, curr := seq(|recv|, _ => 0), seq(|recv|, _ => 0);
    var cur := new BufferCursor(ft);
    ghost var f, was := Flat(xs), ub[..];
    assert f[..0] == [] && xs[..0] == [];
    FlatNone();
    CountersStart(idx, curr, recd, size, starts, ranklist);
    UnpackedStart(was, Contents(recv), ft, f, starts, ranklist, recd, size);
    for i := 0 to |xs|
      invariant cur.Valid() && cur.ft == ft && fresh(cur) && cur.pos == |Flat(xs[..i])| <= |f|
      invariant Counters(idx, curr, recd, size, starts, ranklist, f[..cur.pos])
      invariant UnpackedTo(ub[..], was, Contents(recv), ft, f, starts, ranklist, recd, size, cur.pos)
    {
      FlatStep(xs, i, i + 1);
      FlatSegment(xs, i, cur.pos);
      idx, curr := UnpackAccess(xs[i], cur, ub, recv, size, idx, curr, recd, starts, ends, ranklist, lo, hi, f, was);
    }
    assert xs[..|xs|] == xs && f[..|f|] == f;
  }

  lemma FlatSegment(xs: seq<Extent>, i: nat, n: nat)
    requires i < |xs| && n == |Flat(xs[..i])|
    ensures Consecutive(Flat(xs), n, n + xs[i].len, xs[i].off)
  {
    FlatStep(xs, i, i + 1);
    assert xs == xs[..i + 1] + xs[i + 1..];
    FlatConcat(xs[..i + 1], xs[i + 1..]);
  }

  lemma CountersStart(idx: seq<nat>, curr: seq<nat>, done: seq<nat>, size: seq<nat>, starts: seq<int>,
                      ranklist: seq<nat>)
    requires |starts| > 0 && |idx| == |curr| == |done| == |size| && RanksBelow(ranklist, |done|)
    requires forall p :: 0 <= p < |idx| ==> idx[p] == curr[p] == 0
    ensures Counters(idx, curr, done, size, starts, ranklist, [])
  {
  }

  lemma UnpackedStart(was: seq<Byte>, recv: seq<seq<Byte>>, ft: FlatType, f: seq<int>, starts: seq<int>,
                      ranklist: seq<nat>, done: seq<nat>, size: seq<nat>)
    requires |ranklist| == |starts| > 0 && |recv| == |done| == |size| && RanksBelow(ranklist, |done|)
    requires forall p :: 0 <= p < |recv| ==> |recv[p]| == size[p]
    requires Proper(ft) && Within(ft, |f|, |was|)
    ensures UnpackedTo(was, was, recv, ft, f, starts, ranklist, done, size, 0)
  {
  }
}
