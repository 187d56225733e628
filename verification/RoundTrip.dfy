/**
 Packing and unpacking are inverse over any schedule of rounds: the bytes that
 `ADIOI_Fill_send_buffer` takes out of a user buffer, handed round by round to
 `ADIOI_Fill_user_buffer`, end up where they came from.
 */
module RoundTrip {
  import opened Sequences
  import opened Extents
  import opened Domains
  import opened Shares
  import opened Requests
  import opened FlatTypes
  import opened Packing
  import opened Unpacking

  /** How many bytes process `p` exchanged in the first `t` rounds. */
  function Moved(sizes: seq<seq<nat>>, t: nat, p: nat): nat
    requires t <= |sizes| && forall i :: 0 <= i < t ==> p < |sizes[i]|
  {
    if t == 0 then 0 else Moved(sizes, t - 1, p) + sizes[t - 1][p]
  }

  /** The counters before round `t`. */
  ghost function MovedAll(sizes: seq<seq<nat>>, t: nat, nprocs: nat): (r: seq<nat>)
    requires t <= |sizes| && forall i :: 0 <= i < |sizes| ==> |sizes[i]| == nprocs
    ensures |r| == nprocs && forall p :: 0 <= p < nprocs ==> r[p] == Moved(sizes, t, p)
  {
    seq(nprocs, p requires 0 <= p < nprocs => Moved(sizes, t, p))
  }

  /** Stream positions whose byte was exchanged hold the byte of `u`, all else is as in `was`. */
  ghost predicate Restored(now: seq<Byte>, was: seq<Byte>, u: seq<Byte>, ft: FlatType, f: seq<int>, starts: seq<int>,
                           ranklist: seq<nat>, done: seq<nat>)
    requires |ranklist| == |starts| > 0 && RanksBelow(ranklist, |done|) && |u| == |f|
    requires Proper(ft) && Within(ft, |f|, |was|) && |now| == |was|
  {
    && (forall k :: 0 <= k < |f| ==>
          now[Addr(ft, k)] ==
          if Nth(starts, f, k) < done[ranklist[Owner(starts, f[k])]] then u[k] else was[Addr(ft, k)])
    && (forall a :: 0 <= a < |was| && Outside(ft, |f|, a) ==> now[a] == was[a])
  }

  /** What the aggregators hand over in a round: the next bytes of each share. */
  ghost predicate NextOfShares(recv: seq<seq<Byte>>, u: seq<Byte>, f: seq<int>, starts: seq<int>, ranklist: seq<nat>,
                               done: seq<nat>, size: seq<nat>)
    requires |ranklist| == |starts| > 0 && |u| == |f|
  {
    && |recv| == |done| == |size| && RanksBelow(ranklist, |done|)
    && (forall p :: 0 <= p < |recv| ==> |recv[p]| == size[p])
    && forall d :: 0 <= d < |starts| ==>
         var p, share := ranklist[d], Share(starts, d, f, u);
         done[p] + size[p] <= |share| && recv[p] == share[done[p]..done[p] + size[p]]
  }

  /** A byte that arrives is the byte of its stream position. */
  lemma ArrivesByte(recv: seq<seq<Byte>>, u: seq<Byte>, f: seq<int>, starts: seq<int>, ranklist: seq<nat>,
                    done: seq<nat>, size: seq<nat>, k: nat)
    requires |ranklist| == |starts| > 0 && |u| == |f| && k < |f|
    requires NextOfShares(recv, u, f, starts, ranklist, done, size)
    requires Arrives(starts, ranklist, f, done, size, k)
    ensures recv[ranklist[Owner(starts, f[k])]][Nth(starts, f, k) - done[ranklist[Owner(starts, f[k])]]] == u[k]
  {
    ShareIndex(starts, Owner(starts, f[k]), f, u, k);
  }

  /** One round of packing and unpacking restores the bytes it moved. */
  lemma {:induction false} RestoredStep(was: seq<Byte>, mid: seq<Byte>, now: seq<Byte>, u: seq<Byte>,
                                        recv: seq<seq<Byte>>, ft: FlatType, f: seq<int>, starts: seq<int>,
                                        ranklist: seq<nat>, done: seq<nat>, size: seq<nat>, done': seq<nat>)
    requires |ranklist| == |starts| > 0 && |u| == |f| && |done| == |size| && RanksBelow(ranklist, |done|)
    requires NextOfShares(recv, u, f, starts, ranklist, done, size)
    requires Proper(ft) && Within(ft, |f|, |was|) && |now| == |mid| == |was|
    requires Restored(mid, was, u, ft, f, starts, ranklist, done)
    requires UnpackedTo(now, mid, recv, ft, f, starts, ranklist, done, size, |f|)
    requires |done'| == |done| && forall p :: 0 <= p < |done| ==> done'[p] == done[p] + size[p]
    ensures Restored(now, was, u, ft, f, starts, ranklist, done')
  {
    hide Addr, Proper, Outside, Owner, Nth, Share, NextOfShares;
    forall k | 0 <= k < |f|
      ensures now[Addr(ft, k)] ==
              if Nth(starts, f, k) < done'[ranklist[Owner(starts, f[k])]] then u[k] else was[Addr(ft, k)]
    {
      if Arrives(starts, ranklist, f, done, size, k) {
        ArrivesByte(recv, u, f, starts, ranklist, done, size, k);
      }
    }
  }

  /** A run: user buffer before each round, what arrived in it, how much. */
  ghost predicate UnpackRun(bufs: seq<seq<Byte>>, recvs: seq<seq<seq<Byte>>>, sizes: seq<seq<nat>>, u: seq<Byte>,
                            ft: FlatType, f: seq<int>, starts: seq<int>, ranklist: seq<nat>, nprocs: nat)
    requires |ranklist| == |starts| > 0 && RanksBelow(ranklist, nprocs) && |u| == |f|
  {
    && |bufs| == |sizes| + 1 && |recvs| == |sizes|
    && (forall i :: 0 <= i < |sizes| ==> |sizes[i]| == nprocs)
    && Proper(ft) && (forall i :: 0 <= i < |bufs| ==> |bufs[i]| == |bufs[0]|) && Within(ft, |f|, |bufs[0]|)
    && forall i :: 0 <= i < |sizes| ==>
         && NextOfShares(recvs[i], u, f, starts, ranklist, MovedAll(sizes, i, nprocs), sizes[i])
         && UnpackedTo(bufs[i + 1], bufs[i], recvs[i], ft, f, starts, ranklist, MovedAll(sizes, i, nprocs), sizes[i],
                       |f|)
  }

  lemma {:induction false} RunRestores(bufs: seq<seq<Byte>>, recvs: seq<seq<seq<Byte>>>, sizes: seq<seq<nat>>,
                                       u: seq<Byte>, ft: FlatType, f: seq<int>, starts: seq<int>, ranklist: seq<nat>,
                                       nprocs: nat, t: nat)
    requires |ranklist| == |starts| > 0 && RanksBelow(ranklist, nprocs) && |u| == |f|
    requires UnpackRun(bufs, recvs, sizes, u, ft, f, starts, ranklist, nprocs) && t <= |sizes|
    ensures Restored(bufs[t], bufs[0], u, ft, f, starts, ranklist, MovedAll(sizes, t, nprocs))
    decreases t
  {
    hide Addr, Proper, Outside, Owner, Nth, Share, NextOfShares, UnpackedTo, Restored, Within;
    if t == 0 {
      RestoredNone(bufs[0], u, ft, f, starts, ranklist, MovedAll(sizes, 0, nprocs));
    } else {
      var i := t - 1;
      RunRestores(bufs, recvs, sizes, u, ft, f, starts, ranklist, nprocs, i);
      assert t == i + 1 && NextOfShares(recvs[i], u, f, starts, ranklist, MovedAll(sizes, i, nprocs), sizes[i]);
      RestoredStep(bufs[0], bufs[i], bufs[t], u, recvs[i], ft, f, starts, ranklist,
                   MovedAll(sizes, i, nprocs), sizes[i], MovedAll(sizes, t, nprocs));
    }
  }

  lemma RestoredNone(was: seq<Byte>, u: seq<Byte>, ft: FlatType, f: seq<int>, starts: seq<int>, ranklist: seq<nat>,
                     done: seq<nat>)
    requires |ranklist| == |starts| > 0 && RanksBelow(ranklist, |done|) && |u| == |f|
    requires Proper(ft) && Within(ft, |f|, |was|) && forall p :: 0 <= p < |done| ==> done[p] == 0
    ensures Restored(was, was, u, ft, f, starts, ranklist, done)
  {
  }

  /** When every share was exchanged completely, in whatever portions, the data are back. */
  lemma {:induction false} PackUnpackRestores(bufs: seq<seq<Byte>>, recvs: seq<seq<seq<Byte>>>, sizes: seq<seq<nat>>,
                                              u: seq<Byte>, ft: FlatType, f: seq<int>, starts: seq<int>,
                                              ranklist: seq<nat>, nprocs: nat)
    requires |ranklist| == |starts| > 0 && RanksBelow(ranklist, nprocs) && |u| == |f|
    requires UnpackRun(bufs, recvs, sizes, u, ft, f, starts, ranklist, nprocs)
    requires forall d :: 0 <= d < |starts| ==> Moved(sizes, |sizes|, ranklist[d]) == Count(starts, d, f)
    ensures Stream(bufs[|sizes|], ft, |f|) == u
    ensures forall a :: 0 <= a < |bufs[0]| && Outside(ft, |f|, a) ==> bufs[|sizes|][a] == bufs[0][a]
  {
    hide Addr, Proper, Outside, Owner, Nth, Share, NextOfShares, UnpackedTo, Restored, Within, Count, Moved;
    RunRestores(bufs, recvs, sizes, u, ft, f, starts, ranklist, nprocs, |sizes|);
    RestoredFull(bufs[|sizes|], bufs[0], u, ft, f, starts, ranklist, MovedAll(sizes, |sizes|, nprocs));
  }

  lemma RestoredFull(now: seq<Byte>, was: seq<Byte>, u: seq<Byte>, ft: FlatType, f: seq<int>, starts: seq<int>,
                     ranklist: seq<nat>, done: seq<nat>)
    requires |ranklist| == |starts| > 0 && RanksBelow(ranklist, |done|) && |u| == |f|
    requires Proper(ft) && Within(ft, |f|, |was|) && |now| == |was|
    requires Restored(now, was, u, ft, f, starts, ranklist, done)
    requires forall d :: 0 <= d < |starts| ==> done[ranklist[d]] == Count(starts, d, f)
    ensures Stream(now, ft, |f|) == u
    ensures forall a :: 0 <= a < |was| && Outside(ft, |f|, a) ==> now[a] == was[a]
  {
    hide Addr, Proper, Outside, Owner, Count;
    forall k | 0 <= k < |f| ensures now[Addr(ft, k)] == u[k] {
      CountMonotone(starts, Owner(starts, f[k]), f, k, |f|);
      assert f[..|f|] == f;
    }
  }

  /** The same, both directions at once: buffers filled from `src` by packing and from
      them `dst` by unpacking, one round at a time, for any admissible sizes. */
  method ExchangeRound(src: array<Byte>, dst: array<Byte>, ft: FlatType, bufs: seq<array<Byte>>, xs: seq<Extent>,
                       size: seq<nat>, done: seq<nat>, starts: seq<int>, ends: seq<int>, ranklist: seq<nat>,
                       ghost lo: int, ghost hi: int, ghost was: seq<Byte>)
    returns (done': seq<nat>)
    requires Partition(starts, ends, lo, hi) && InRange(xs, lo, hi)
    requires |ranklist| == |starts| > 0 && Distinct(ranklist) && RanksBelow(ranklist, |bufs|)
    requires |bufs| == |size| == |done| && Distinct(bufs) && src !in bufs && dst !in bufs && src != dst
    requires forall p :: 0 <= p < |bufs| ==> bufs[p].Length == size[p]
    requires Proper(ft) && Within(ft, |Flat(xs)|, src.Length) && Injective(ft, |Flat(xs)|)
    requires dst.Length == src.Length == |was|
    requires forall p :: 0 <= p < |bufs| && p !in ranklist ==> size[p] == 0
    requires forall d :: 0 <= d < |starts| ==> done[ranklist[d]] + size[ranklist[d]] <= Count(starts, d, Flat(xs))
    requires Restored(dst[..], was, Stream(src[..], ft, |Flat(xs)|), ft, Flat(xs), starts, ranklist, done)
    modifies bufs, dst
    ensures |done'| == |done| && forall p :: 0 <= p < |done| ==> done'[p] == done[p] + size[p]
    ensures Restored(dst[..], was, Stream(src[..], ft, |Flat(xs)|), ft, Flat(xs), starts, ranklist, done')
  {
    hide Addr, Proper, Outside, Owner, Share, Flat, Stream, UnpackedTo, Restored, Within, Injective, Count, Partition,
         InRange, Distinct;
    ghost var f, mid := Flat(xs), dst[..];
    ghost var u := Stream(src[..], ft, |f|);
    done' := FillSendBuffer(src, ft, bufs, xs, size, done, starts, ends, ranklist, lo, hi);
    ghost var recv := Contents(bufs);
    done' := FillUserBuffer(dst, ft, bufs, xs, size, done, starts, ends, ranklist, lo, hi);
    assert NextOfShares(recv, u, f, starts, ranklist, done, size);
    RestoredStep(was, mid, dst[..], u, recv, ft, f, starts, ranklist, done, size, done');
  }
}
