/**
 Packing a noncontiguous user buffer into per-aggregator send buffers, round by round
 (`ADIOI_Fill_send_buffer`), and unpacking received bytes into it
 (`ADIOI_Fill_user_buffer`).  Every round walks all accesses from the start again and
 skips what earlier rounds moved.
 */
module Packing {
  import opened Sequences
  import opened Extents
  import opened Domains
  import opened Shares
  import opened Requests
  import opened FlatTypes

  /** The user data in stream order. */
  ghost function Stream(ub: seq<Byte>, ft: FlatType, n: nat): (s: seq<Byte>)
    requires Proper(ft) && Within(ft, n, |ub|)
    ensures |s| == n && forall k :: 0 <= k < n ==> s[k] == ub[Addr(ft, k)]
  {
    seq(n, k requires 0 <= k < n => ub[Addr(ft, k)])
  }

  /** How many of the bytes c - done ... fall into a buffer of `size` bytes. */
  function Filled(c: nat, done: nat, size: nat): nat { Clamp(c, done, size) }

  /** The bytes of p accounted for so far: c, but not past what this round moves. */
  function Passed(c: nat, done: nat,
                  size: nat): nat { if size == 0 then 0 else if c <= done + size then c else done + size }

  /** One piece of `len` bytes for a process of which `c` bytes were passed before: the
      part of it with share index in [done, done + sendSize) goes to the send buffer. */
  method PackPiece(cur: BufferCursor, ub: array<Byte>, sb: array<Byte>, sendSize: nat, idx0: nat, curr0: nat,
                   done: nat, len: nat, ghost c: nat)
    returns (idx: nat, curr: nat)
    requires cur.Valid() && ub != sb && sb.Length == sendSize
    requires forall k :: cur.pos <= k < cur.pos + len ==> 0 <= Addr(cur.ft, k) < ub.Length
    requires curr0 == Passed(c, done, sendSize) && idx0 == Filled(c, done, sendSize)
    modifies cur, sb
    ensures cur.Valid() && cur.pos == old(cur.pos) + len
    ensures curr == Passed(c + len, done, sendSize) && idx == Filled(c + len, done, sendSize)
    ensures forall i :: 0 <= i < sb.Length ==>
              sb[i] == if idx0 <= i < idx then ub[Addr(cur.ft, old(cur.pos) + (done + i - c))] else old(sb[i])
  {
    hide BufferCursor.Valid, Addr, Proper;
    idx, curr := idx0, curr0;
    if idx < sendSize {
      if curr + len > done {
        var size, incr;
        if done > curr {
          size := if curr + len - done <= sendSize - idx then curr + len - done else sendSize - idx;
          cur.Incr(done - curr);
          incr := curr + len - done;
          curr := done + size;
        } else {
          size := if len <= sendSize - idx then len else sendSize - idx;
          incr := len;
          curr := curr + size;
        }
        cur.CopyOut(ub, sb, idx, size);
        idx := idx + size;
        cur.Incr(incr - size);
      } else {
        curr := curr + len;
        cur.Incr(len);
      }
    } else {
      cur.Incr(len);
    }
  }

  // ---------- All processes ----------

  /** The send buffer of a process of whose bytes `share` was passed so far. */
  ghost predicate Packed(sb: seq<Byte>, idx: nat, curr: nat, done: nat, size: nat, share: seq<Byte>) {
    && |sb| == size && idx == Filled(|share|, done, size) && curr == Passed(|share|, done, size)
    && forall i :: 0 <= i < idx ==> sb[i] == share[done + i]
  }

  /** After the last piece the buffer holds exactly the next `size` bytes of the share. */
  lemma PackedFull(sb: seq<Byte>, idx: nat, curr: nat, done: nat, size: nat, share: seq<Byte>)
    requires Packed(sb, idx, curr, done, size, share) && done + size <= |share|
    ensures sb == share[done..done + size] && (size > 0 ==> curr == done + size)
  {
  }

  /** What PackPiece does to the buffer, in terms of the share. */
  lemma PackedMore(sb: seq<Byte>, sb': seq<Byte>, idx: nat, idx': nat, curr: nat, curr': nat, done: nat, size: nat,
                   share: seq<Byte>, more: seq<Byte>)
    requires Packed(sb, idx, curr, done, size, share) && |sb'| == |sb|
    requires curr' == Passed(|share| + |more|, done, size) && idx' == Filled(|share| + |more|, done, size)
    requires forall i :: 0 <= i < |sb| ==> sb'[i] == if idx <= i < idx' then more[done + i - |share|] else sb[i]
    ensures Packed(sb', idx', curr', done, size, share + more)
  {
  }

  /** Pieces of domain d extend d's share and no other. */
  lemma ShareGrow<T>(starts: seq<int>, ends: seq<int>, lo: int, hi: int, offs: seq<int>, data: seq<T>, off: int,
                     len: nat, rest: nat, more: seq<T>, e: nat)
    requires Partition(starts, ends, lo, hi) && |offs| == |data| && |more| == len
    requires lo <= off && off + rest <= hi + 1 && rest > 0 && len == Room(starts, off, rest)
    ensures Share(starts, e, offs + Range(off, len), data + more) ==
            if e == Owner(starts, off) then Share(starts, e, offs, data) + more else Share(starts, e, offs, data)
  {
    var r := Range(off, len);
    forall k | 0 <= k < len ensures Owner(starts, r[k]) == Owner(starts, off) {
      RoomOwned(starts, ends, lo, hi, off, rest, r[k]);
    }
    ShareUniform(starts, e, Owner(starts, off), r, more);
    ShareConcat(starts, e, offs, data, r, more);
  }

  /** The per-process counters and buffers of one call. */
  ghost predicate PackedAll(bufs: seq<array<Byte>>, idx: seq<nat>, curr: seq<nat>, done: seq<nat>, size: seq<nat>,
                            starts: seq<int>, ranklist: seq<nat>, offs: seq<int>, data: seq<Byte>)
    requires |starts| > 0 && |offs| == |data|
    reads bufs
  {
    && |bufs| == |idx| == |curr| == |done| == |size| && RanksBelow(ranklist, |bufs|)
    && forall d :: 0 <= d < |ranklist| ==>
         Packed(bufs[ranklist[d]][..], idx[ranklist[d]], curr[ranklist[d]], done[ranklist[d]], size[ranklist[d]],
                Share(starts, d, offs, data))
  }

  /** One piece, in terms of the owner's share. */
  method PackInto(cur: BufferCursor, ub: array<Byte>, sb: array<Byte>, size: nat, idx0: nat, curr0: nat, done: nat,
                  len: nat, ghost share: seq<Byte>, ghost u: seq<Byte>)
    returns (idx: nat, curr: nat)
    requires cur.Valid() && ub != sb && cur.pos + len <= |u|
    requires Within(cur.ft, |u|, ub.Length) && u == Stream(ub[..], cur.ft, |u|)
    requires Packed(sb[..], idx0, curr0, done, size, share)
    modifies cur, sb
    ensures cur.Valid() && cur.pos == old(cur.pos) + len
    ensures Packed(sb[..], idx, curr, done, size, share + u[old(cur.pos)..old(cur.pos) + len])
  {
    hide BufferCursor.Valid, Packed, Stream, Addr;
    cur.ProperHere();
    ghost var sb0, pos, c := sb[..], cur.pos, |share|;
    PackedCounters(sb0, idx0, curr0, done, size, share);
    idx, curr := PackPiece(cur, ub, sb, size, idx0, curr0, done, len, c);
    forall i | 0 <= i < |sb0|
      ensures sb[i] == if idx0 <= i < idx then ub[..][Addr(cur.ft, pos + (done + i - c))] else sb0[i]
    {
    }
    StreamBytes(ub[..], cur.ft, u, pos, len, sb0, sb[..], idx0, idx, done, c);
    PackedMore(sb0, sb[..], idx0, idx, curr0, curr, done, size, share, u[pos..pos + len]);
  }

  /** The next piece: find its aggregator and pack it. */
  method PackNext(cur: BufferCursor, ub: array<Byte>, bufs: seq<array<Byte>>, size: seq<nat>, idx0: seq<nat>,
                  curr0: seq<nat>, done: seq<nat>, starts: seq<int>, ends: seq<int>, ranklist: seq<nat>, off: int,
                  rem: nat, ghost lo: int, ghost hi: int, ghost offs: seq<int>, ghost u: seq<Byte>)
    returns (idx: seq<nat>, curr: seq<nat>, len: nat)
    requires Partition(starts, ends, lo, hi) && |ranklist| == |starts| && Distinct(ranklist)
    requires lo <= off && off + rem <= hi + 1 && rem > 0
    requires Distinct(bufs) && ub !in bufs && cur.Valid() && cur.pos == |offs|
    requires |u| >= |offs| + rem && Within(cur.ft, |u|, ub.Length) && u == Stream(ub[..], cur.ft, |u|)
    requires PackedAll(bufs, idx0, curr0, done, size, starts, ranklist, offs, u[..|offs|])
    modifies cur, bufs
    ensures len == Room(starts, off, rem) && cur.Valid() && cur.pos == |offs| + len
    ensures PackedAll(bufs, idx, curr, done, size, starts, ranklist, offs + Range(off, len), u[..|offs| + len])
  {
    hide BufferCursor.Valid, Packed, Share, Stream, Partition, Owner, Addr, Within;
    var p;
    p, len := CalcAggregator(starts, ends, ranklist, off, rem, lo, hi);
    ghost var d, more := Owner(starts, off), u[|offs|..|offs| + len];
    var i', c' := PackInto(cur, ub, bufs[p], size[p], idx0[p], curr0[p], done[p], len,
                           Share(starts, d, offs, u[..|offs|]), u);
    idx, curr := idx0[p := i'], curr0[p := c'];
    assert u[..|offs|] + more == u[..|offs| + len];
    forall e | 0 <= e < |ranklist|
      ensures Packed(bufs[ranklist[e]][..], idx[ranklist[e]], curr[ranklist[e]], done[ranklist[e]], size[ranklist[e]],
                     Share(starts, e, offs + Range(off, len), u[..|offs| + len]))
    {
      ShareGrow(starts, ends, lo, hi, offs, u[..|offs|], off, len, rem, more, e);
      if e != d {
        assert ranklist[e] != p && bufs[ranklist[e]] != bufs[p];
        assert Packed(bufs[ranklist[e]][..], idx0[ranklist[e]], curr0[ranklist[e]], done[ranklist[e]],
                      size[ranklist[e]],
                      Share(starts, e, offs, u[..|offs|]));
      }
    }
  }

  lemma PackedCounters(sb: seq<Byte>, idx: nat, curr: nat, done: nat, size: nat, share: seq<Byte>)
    requires Packed(sb, idx, curr, done, size, share)
    ensures |sb| == size && idx == Filled(|share|, done, size) && curr == Passed(|share|, done, size)
  {
  }

  /** The bytes copied, read off the stream. */
  lemma StreamBytes(ub: seq<Byte>, ft: FlatType, u: seq<Byte>, pos: nat, len: nat, sb: seq<Byte>, sb': seq<Byte>,
                    idx: nat, idx': nat, done: nat, c: nat)
    requires Proper(ft) && Within(ft, |u|, |ub|) && u == Stream(ub, ft, |u|) && pos + len <= |u| && |sb| == |sb'|
    requires idx == Filled(c, done, |sb|) && idx' == Filled(c + len, done, |sb|)
    requires forall i :: 0 <= i < |sb| ==>
               sb'[i] == if idx <= i < idx' then ub[Addr(ft, pos + (done + i - c))] else sb[i]
    ensures forall i :: 0 <= i < |sb| ==> sb'[i] == if idx <= i < idx' then u[pos..pos + len][done + i - c] else sb[i]
  {
  }

  /** All pieces of one access. */
  method PackAccess(x: Extent, cur: BufferCursor, ub: array<Byte>, bufs: seq<array<Byte>>, size: seq<nat>,
                    idx0: seq<nat>, curr0: seq<nat>, done: seq<nat>, starts: seq<int>, ends: seq<int>,
                    ranklist: seq<nat>, ghost lo: int, ghost hi: int, ghost offs: seq<int>, ghost u: seq<Byte>)
    returns (idx: seq<nat>, curr: seq<nat>)
    requires Partition(starts, ends, lo, hi) && |ranklist| == |starts| > 0 && Distinct(ranklist)
    requires x.len > 0 ==> lo <= x.off && x.off + x.len <= hi + 1
    requires Distinct(bufs) && ub !in bufs && cur.Valid() && cur.pos == |offs|
    requires |u| >= |offs| + x.len && Within(cur.ft, |u|, ub.Length) && u == Stream(ub[..], cur.ft, |u|)
    requires PackedAll(bufs, idx0, curr0, done, size, starts, ranklist, offs, u[..|offs|])
    modifies cur, bufs
    ensures cur.Valid() && cur.pos == |offs| + x.len
    ensures PackedAll(bufs, idx, curr, done, size, starts, ranklist, offs + Range(x.off, x.len), u[..|offs| + x.len])
  {
    hide BufferCursor.Valid, PackedAll, Stream, Partition, Within, Addr, Distinct;
    idx, curr := idx0, curr0;
    var off, rem := x.off, x.len;
    ghost var now := offs;
    assert offs + Range(x.off, 0) == offs;
    while rem != 0
      invariant 0 <= rem <= x.len && off == x.off + (x.len - rem)
      invariant now == offs + Range(x.off, x.len - rem) && cur.Valid() && cur.pos == |now|
      invariant PackedAll(bufs, idx, curr, done, size, starts, ranklist, now, u[..|now|])
      decreases rem
    {
      var len;
      idx, curr, len := PackNext(cur, ub, bufs, size, idx, curr, done, starts, ends, ranklist, off, rem, lo, hi, now,
                                 u);
      assert now + Range(off, len) == offs + Range(x.off, x.len - rem + len);
      now := now + Range(off, len);
      off := off + len;
      rem := rem - len;
    }
  }

  /** ADIOI_Fill_send_buffer: each aggregator gets exactly the next send_size bytes of its
      share of the user data. */
  method FillSendBuffer(ub: array<Byte>, ft: FlatType, bufs: seq<array<Byte>>, xs: seq<Extent>, size: seq<nat>,
                        sent: seq<nat>, starts: seq<int>, ends: seq<int>, ranklist: seq<nat>, ghost lo: int,
                        ghost hi: int)
    returns (sent': seq<nat>)
    requires Partition(starts, ends, lo, hi) && InRange(xs, lo, hi)
    requires |ranklist| == |starts| > 0 && Distinct(ranklist) && RanksBelow(ranklist, |bufs|)
    requires |bufs| == |size| == |sent| && Distinct(bufs) && ub !in bufs
    requires forall p :: 0 <= p < |bufs| ==> bufs[p].Length == size[p]
    requires Proper(ft) && Within(ft, |Flat(xs)|, ub.Length)
    requires forall p :: 0 <= p < |bufs| && p !in ranklist ==> size[p] == 0
    requires forall d :: 0 <= d < |starts| ==> sent[ranklist[d]] + size[ranklist[d]] <= Count(starts, d, Flat(xs))
    modifies bufs
    ensures |sent'| == |sent| && forall p :: 0 <= p < |sent| ==> sent'[p] == sent[p] + size[p]
    ensures forall d :: 0 <= d < |starts| ==>
      var p, share := ranklist[d], Share(starts, d, Flat(xs), Stream(ub[..], ft, |Flat(xs)|));
      sent[p] + size[p] <= |share| && bufs[p][..] == share[sent[p]..sent[p] + size[p]]
  {
    hide Stream, Partition, Within, Addr, Packed, Share, Count, PackedAll;
    ghost var f := Flat(xs);
    ghost var u := Stream(ub[..], ft, |f|);
    var idx, curr := PackAllAccesses(ub, ft, bufs, xs, size, sent, starts, ends, ranklist, lo, hi, u);
    sent' := sent;
    for i := 0 to |bufs|
      invariant |sent'| == |sent|
      invariant forall p :: 0 <= p < i ==> sent'[p] == if size[p] > 0 then curr[p] else sent[p]
      invariant forall p :: i <= p < |sent| ==> sent'[p] == sent[p]
    {
      if size[i] > 0 { sent' := sent'[i := curr[i]]; }
    }
    forall d | 0 <= d < |starts|
      ensures var p, share := ranklist[d], Share(starts, d, f, u);
        sent[p] + size[p] <= |share| && bufs[p][..] == share[sent[p]..sent[p] + size[p]] &&
        sent'[p] == sent[p] + size[p]
    {
      AllFull(bufs, idx, curr, sent, size, starts, ranklist, f, u, d);
    }
    forall p | 0 <= p < |sent| ensures sent'[p] == sent[p] + size[p] {
      if p in ranklist { var d :| 0 <= d < |ranklist| && ranklist[d] == p; }
    }
  }

  lemma AllFull(bufs: seq<array<Byte>>, idx: seq<nat>, curr: seq<nat>, done: seq<nat>, size: seq<nat>,
                starts: seq<int>, ranklist: seq<nat>, offs: seq<int>, data: seq<Byte>, d: nat)
    requires |starts| > 0 && |offs| == |data| && d < |ranklist|
    requires PackedAll(bufs, idx, curr, done, size, starts, ranklist, offs, data)
    requires done[ranklist[d]] + size[ranklist[d]] <= Count(starts, d, offs)
    ensures var p, share := ranklist[d], Share(starts, d, offs, data);
      done[p] + size[p] <= |share| && bufs[p][..] == share[done[p]..done[p] + size[p]] &&
      (size[p] > 0 ==> curr[p] == done[p] + size[p])
  {
    ShareLength(starts, d, offs, data);
    var p := ranklist[d];
    PackedFull(bufs[p][..], idx[p], curr[p], done[p], size[p], Share(starts, d, offs, data));
  }

  /** The walk over all accesses, from the start of the user buffer. */
  method PackAllAccesses(ub: array<Byte>, ft: FlatType, bufs: seq<array<Byte>>, xs: seq<Extent>, size: seq<nat>,
                         sent: seq<nat>, starts: seq<int>, ends: seq<int>, ranklist: seq<nat>, ghost lo: int,
                         ghost hi: int, ghost u: seq<Byte>)
    returns (idx: seq<nat>, curr: seq<nat>)
    requires Partition(starts, ends, lo, hi) && InRange(xs, lo, hi)
    requires |ranklist| == |starts| > 0 && Distinct(ranklist) && RanksBelow(ranklist, |bufs|)
    requires |bufs| == |size| == |sent| && Distinct(bufs) && ub !in bufs
    requires forall p :: 0 <= p < |bufs| ==> bufs[p].Length == size[p]
    requires Proper(ft) && |u| == |Flat(xs)| && Within(ft, |u|, ub.Length) && u == Stream(ub[..], ft, |u|)
    modifies bufs
    ensures |idx| == |curr| == |bufs|
    ensures PackedAll(bufs, idx, curr, sent, size, starts, ranklist, Flat(xs), u)
  {
    hide BufferCursor.Valid, Stream, Partition, Within, Addr, PackedAll, Flat, Distinct, RanksBelow, Proper;
    idx, curr := seq(|bufs|, _ => 0), seq(|bufs|, _ => 0);
    var cur := new BufferCursor(ft);
    PackedStart(bufs, idx, curr, sent, size, starts, ranklist);
    assert u[..0] == [] && xs[..0] == [];
    FlatNone();
    ghost var n := 0;
    for i := 0 to |xs|
      invariant cur.Valid() && cur.ft == ft && cur.pos == n && fresh(cur) && n == |Flat(xs[..i])| <= |u|
      invariant PackedAll(bufs, idx, curr, sent, size, starts, ranklist, Flat(xs[..i]), u[..n])
    {
      FlatStep(xs, i, i + 1);
      idx, curr := PackAccess(xs[i], cur, ub, bufs, size, idx, curr, sent, starts, ends, ranklist, lo, hi,
                              Flat(xs[..i]), u);
      n := n + xs[i].len;
    }
    assert xs[..|xs|] == xs && u[..n] == u;
    PackedSizes(bufs, idx, curr, sent, size, starts, ranklist, Flat(xs), u);
  }

  lemma PackedSizes(bufs: seq<array<Byte>>, idx: seq<nat>, curr: seq<nat>, done: seq<nat>, size: seq<nat>,
                    starts: seq<int>, ranklist: seq<nat>, offs: seq<int>, data: seq<Byte>)
    requires |starts| > 0 && |offs| == |data| && PackedAll(bufs, idx, curr, done, size, starts, ranklist, offs, data)
    ensures |bufs| == |idx| == |curr| == |done| == |size|
  {
  }

  lemma FlatStep(xs: seq<Extent>, i: nat, q: nat)
    requires i < |xs| && q == i + 1
    ensures Flat(xs[..q]) == Flat(xs[..i]) + Range(xs[i].off, xs[i].len)
    ensures |Flat(xs[..i])| + xs[i].len <= |Flat(xs)|
  {
    assert xs[..q] == xs[..i] + [xs[i]];
    FlatAppend(xs[..i], xs[i]);
    assert xs == xs[..q] + xs[q..];
    FlatConcat(xs[..q], xs[q..]);
  }

  lemma PackedStart(bufs: seq<array<Byte>>, idx: seq<nat>, curr: seq<nat>, done: seq<nat>, size: seq<nat>,
                    starts: seq<int>, ranklist: seq<nat>)
    requires |starts| > 0 && |bufs| == |idx| == |curr| == |done| == |size| && RanksBelow(ranklist, |bufs|)
    requires forall p :: 0 <= p < |bufs| ==> idx[p] == curr[p] == 0 && bufs[p].Length == size[p]
    ensures PackedAll(bufs, idx, curr, done, size, starts, ranklist, [], [])
  {
  }
}
