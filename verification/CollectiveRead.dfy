/**
 A whole collective read, seen from one process: what all aggregators send it over the
 rounds, unpacked as it arrives, leaves in its user buffer the bytes it would have got
 by reading its accesses from the file directly.
 */
module CollectiveRead {
  import opened Sequences
  import opened Extents
  import opened Domains
  import opened Shares
  import opened Requests
  import opened FlatTypes
  import opened Packing
  import opened Unpacking
  import opened RoundTrip
  import opened Reader

  /** The lists the aggregators receive are sorted and non-empty pieces, as the round loop
      of a read needs, even where one process's accesses overlap. */
  lemma {:induction false} ReadRequestsSorted(starts: seq<int>, ends: seq<int>, lo: int, hi: int, xs: seq<Extent>,
                                              ranklist: seq<nat>, d: nat)
    requires Partition(starts, ends, lo, hi) && InRange(xs, lo, hi) && Sorted(xs)
    requires Distinct(ranklist) && |ranklist| == |starts| && d < |starts|
    ensures var req := Mine(SplitAll(starts, xs), ranklist, ranklist[d]);
      Sorted(req) && Positive(req) && forall j :: 0 <= j < |req| ==> lo <= req[j].off
  {
    MineIsIn(SplitAll(starts, xs), ranklist, d);
    SplitAllIsClip(starts, ends, lo, hi, xs, d);
    ClipSorted(xs, starts[d], ends[d] + 1);
    ClipInside(xs, starts[d], ends[d] + 1);
  }

  lemma {:induction false} ShareBytes(starts: seq<int>, d: int, offs: seq<int>, image: Image)
    requires |starts| > 0
    ensures Share(starts, d, offs, Bytes(image, offs)) == Bytes(image, Share(starts, d, offs, offs))
  {
    if offs == [] {
    } else {
      var n := |offs| - 1;
      ShareBytes(starts, d, offs[..n], image);
      assert Bytes(image, offs)[..n] == Bytes(image, offs[..n]);
    }
  }

  /** What rank ranklist[d] sends is the process's share of its file bytes. */
  lemma {:induction false} SentIsShare(starts: seq<int>, ends: seq<int>, lo: int, hi: int, xs: seq<Extent>,
                                       ranklist: seq<nat>, d: nat, image: Image)
    requires Partition(starts, ends, lo, hi) && InRange(xs, lo, hi)
    requires Distinct(ranklist) && |ranklist| == |starts| && d < |starts|
    ensures Bytes(image, Flat(Mine(SplitAll(starts, xs), ranklist, ranklist[d]))) ==
            Share(starts, d, Flat(xs), Bytes(image, Flat(xs)))
  {
    MineIsIn(SplitAll(starts, xs), ranklist, d);
    SplitAllShare(starts, ends, lo, hi, xs, d);
    ShareBytes(starts, d, Flat(xs), image);
  }

  // ---------- Rounds on the receiving side ----------

  /** recv_size of one round. */
  ghost function Sizes(recv: seq<seq<Byte>>): (r: seq<nat>)
    ensures |r| == |recv| && forall p :: 0 <= p < |r| ==> r[p] == |recv[p]|
  {
    seq(|recv|, p requires 0 <= p < |recv| => |recv[p]|)
  }

  ghost function AllSizes(recvs: seq<seq<seq<Byte>>>): (r: seq<seq<nat>>)
    ensures |r| == |recvs| && forall t :: 0 <= t < |r| ==> r[t] == Sizes(recvs[t])
  {
    seq(|recvs|, t requires 0 <= t < |recvs| => Sizes(recvs[t]))
  }

  ghost predicate Wide(recvs: seq<seq<seq<Byte>>>, nprocs: nat) {
    forall t :: 0 <= t < |recvs| ==> |recvs[t]| == nprocs
  }

  /** The counter before round `t` is the length of what arrived before it, and the
      round's portion is the next slice of the whole. */
  lemma {:induction false} PortionIsSlice(recvs: seq<seq<seq<Byte>>>, nprocs: nat, p: nat, t: nat)
    requires Wide(recvs, nprocs) && p < nprocs && t <= |recvs|
    ensures Moved(AllSizes(recvs), t, p) == |Joined(recvs[..t], p)| <= |Joined(recvs, p)|
    ensures Joined(recvs[..t], p) == Joined(recvs, p)[..|Joined(recvs[..t], p)|]
    ensures t < |recvs| ==>
      var c := |Joined(recvs[..t], p)|;
      c + |recvs[t][p]| <= |Joined(recvs, p)| && recvs[t][p] == Joined(recvs, p)[c..c + |recvs[t][p]|]
    decreases |recvs| - t
  {
    MovedIsLength(recvs, nprocs, p, t);
    if t == |recvs| {
      assert recvs[..t] == recvs;
    } else {
      PortionIsSlice(recvs, nprocs, p, t + 1);
      assert recvs[..t + 1][..t] == recvs[..t];
    }
  }

  lemma {:induction false} MovedIsLength(recvs: seq<seq<seq<Byte>>>, nprocs: nat, p: nat, t: nat)
    requires Wide(recvs, nprocs) && p < nprocs && t <= |recvs|
    ensures Moved(AllSizes(recvs), t, p) == |Joined(recvs[..t], p)|
  {
    if t == 0 {
    } else {
      MovedIsLength(recvs, nprocs, p, t - 1);
      assert recvs[..t][..t - 1] == recvs[..t - 1];
    }
  }

  /** Every aggregator's messages, put together, are the process's share of `u`. */
  ghost predicate Delivered(recvs: seq<seq<seq<Byte>>>, u: seq<Byte>, f: seq<int>, starts: seq<int>,
                            ranklist: seq<nat>, nprocs: nat)
    requires |ranklist| == |starts| > 0 && |u| == |f| && RanksBelow(ranklist, nprocs)
  {
    Wide(recvs, nprocs) && forall d :: 0 <= d < |starts| ==> Joined(recvs, ranklist[d]) == Share(starts, d, f, u)
  }

  lemma DeliveredRound(recvs: seq<seq<seq<Byte>>>, u: seq<Byte>, f: seq<int>, starts: seq<int>, ranklist: seq<nat>,
                       nprocs: nat, t: nat)
    requires |ranklist| == |starts| > 0 && |u| == |f| && RanksBelow(ranklist, nprocs)
    requires Delivered(recvs, u, f, starts, ranklist, nprocs) && t < |recvs|
    ensures NextOfShares(recvs[t], u, f, starts, ranklist, MovedAll(AllSizes(recvs), t, nprocs), AllSizes(recvs)[t])
  {
    hide Share, Joined, Moved;
    forall d | 0 <= d < |starts|
      ensures var p, share := ranklist[d], Share(starts, d, f, u);
        var done := Moved(AllSizes(recvs), t, p);
        done + |recvs[t][p]| <= |share| && recvs[t][p] == share[done..done + |recvs[t][p]|]
    {
      PortionIsSlice(recvs, nprocs, ranklist[d], t);
    }
  }

  lemma DeliveredTotal(recvs: seq<seq<seq<Byte>>>, u: seq<Byte>, f: seq<int>, starts: seq<int>, ranklist: seq<nat>,
                       nprocs: nat, d: nat)
    requires |ranklist| == |starts| > 0 && |u| == |f| && RanksBelow(ranklist, nprocs)
    requires Delivered(recvs, u, f, starts, ranklist, nprocs) && d < |starts|
    ensures Moved(AllSizes(recvs), |recvs|, ranklist[d]) == Count(starts, d, f)
  {
    PortionIsSlice(recvs, nprocs, ranklist[d], |recvs|);
    assert recvs[..|recvs|] == recvs;
    ShareLength(starts, d, f, u);
  }

  /** The buffer's contents before each round and after the last, each step being one
      call of ADIOI_Fill_user_buffer. */
  ghost predicate FillSteps(bufs: seq<seq<Byte>>, recvs: seq<seq<seq<Byte>>>, ft: FlatType, f: seq<int>,
                            starts: seq<int>, ranklist: seq<nat>, nprocs: nat)
    requires |ranklist| == |starts| > 0 && RanksBelow(ranklist, nprocs)
  {
    && |bufs| == |recvs| + 1 && Wide(recvs, nprocs)
    && Proper(ft) && (forall t :: 0 <= t < |bufs| ==> |bufs[t]| == |bufs[0]|) && Within(ft, |f|, |bufs[0]|)
    && forall t :: 0 <= t < |recvs| ==>
         UnpackedTo(bufs[t + 1], bufs[t], recvs[t], ft, f, starts, ranklist, MovedAll(AllSizes(recvs), t, nprocs),
                    AllSizes(recvs)[t], |f|)
  }

  /** If each aggregator delivers its share of `u`, the buffer ends up holding `u`. */
  lemma {:induction false} DeliveredRestores(bufs: seq<seq<Byte>>, recvs: seq<seq<seq<Byte>>>, u: seq<Byte>,
                                             ft: FlatType, f: seq<int>, starts: seq<int>, ranklist: seq<nat>,
                                             nprocs: nat)
    requires |ranklist| == |starts| > 0 && RanksBelow(ranklist, nprocs) && |u| == |f|
    requires FillSteps(bufs, recvs, ft, f, starts, ranklist, nprocs) && Delivered(recvs, u, f, starts, ranklist, nprocs)
    ensures Stream(bufs[|recvs|], ft, |f|) == u
    ensures forall a :: 0 <= a < |bufs[0]| && Outside(ft, |f|, a) ==> bufs[|recvs|][a] == bufs[0][a]
  {
    hide Share, Joined, Moved, UnpackedTo, NextOfShares, Addr, Within, Outside, Proper, Count, Owner, Delivered, Stream;
    forall t | 0 <= t < |recvs|
      ensures NextOfShares(recvs[t], u, f, starts, ranklist, MovedAll(AllSizes(recvs), t, nprocs), AllSizes(recvs)[t])
    {
      DeliveredRound(recvs, u, f, starts, ranklist, nprocs, t);
    }
    forall d | 0 <= d < |starts| ensures Moved(AllSizes(recvs), |recvs|, ranklist[d]) == Count(starts, d, f) {
      DeliveredTotal(recvs, u, f, starts, ranklist, nprocs, d);
    }
    assert UnpackRun(bufs, recvs, AllSizes(recvs), u, ft, f, starts, ranklist, nprocs);
    PackUnpackRestores(bufs, recvs, AllSizes(recvs), u, ft, f, starts, ranklist, nprocs);
  }

  /** Over the rounds every aggregator sent what ADIOI_Read_and_exch sends: the file's
      bytes at the process's pieces in its domain. */
  ghost predicate SentByAll(recvs: seq<seq<seq<Byte>>>, xs: seq<Extent>, starts: seq<int>, ranklist: seq<nat>,
                            nprocs: nat, image: Image)
    requires |ranklist| == |starts| > 0 && RanksBelow(ranklist, nprocs)
  {
    && Wide(recvs, nprocs)
    && forall d :: 0 <= d < |starts| ==>
         Joined(recvs, ranklist[d]) == Bytes(image, Flat(Mine(SplitAll(starts, xs), ranklist, ranklist[d])))
  }

  lemma AllDelivered(recvs: seq<seq<seq<Byte>>>, xs: seq<Extent>, starts: seq<int>, ends: seq<int>, lo: int, hi: int,
                     ranklist: seq<nat>, nprocs: nat, image: Image)
    requires Partition(starts, ends, lo, hi) && InRange(xs, lo, hi)
    requires |ranklist| == |starts| && Distinct(ranklist) && RanksBelow(ranklist, nprocs)
    requires SentByAll(recvs, xs, starts, ranklist, nprocs, image)
    ensures Delivered(recvs, Bytes(image, Flat(xs)), Flat(xs), starts, ranklist, nprocs)
  {
    hide Share, Joined, Partition, Flat, Mine, SplitAll;
    forall d | 0 <= d < |starts|
      ensures Joined(recvs, ranklist[d]) == Share(starts, d, Flat(xs), Bytes(image, Flat(xs)))
    {
      SentIsShare(starts, ends, lo, hi, xs, ranklist, d, image);
    }
  }

  /** End to end, noncontiguous user buffer: its data bytes are the file's bytes at the
      process's accesses, in order, even where those overlap; nothing else changed. */
  lemma {:induction false} ReadIsDirect(bufs: seq<seq<Byte>>, recvs: seq<seq<seq<Byte>>>, ft: FlatType,
                                        xs: seq<Extent>, starts: seq<int>, ends: seq<int>, lo: int, hi: int,
                                        ranklist: seq<nat>, nprocs: nat, image: Image)
    requires Partition(starts, ends, lo, hi) && InRange(xs, lo, hi)
    requires |ranklist| == |starts| && Distinct(ranklist) && RanksBelow(ranklist, nprocs)
    requires SentByAll(recvs, xs, starts, ranklist, nprocs, image)
    requires FillSteps(bufs, recvs, ft, Flat(xs), starts, ranklist, nprocs)
    ensures Stream(bufs[|recvs|], ft, |Flat(xs)|) == Bytes(image, Flat(xs))
    ensures forall a :: 0 <= a < |bufs[0]| && Outside(ft, |Flat(xs)|, a) ==> bufs[|recvs|][a] == bufs[0][a]
  {
    AllDelivered(recvs, xs, starts, ends, lo, hi, ranklist, nprocs, image);
    DeliveredRestores(bufs, recvs, Bytes(image, Flat(xs)), ft, Flat(xs), starts, ranklist, nprocs);
  }

  // ---------- From the aggregators' messages to a process's ----------

  ghost predicate AllWide(sends: seq<seq<seq<seq<Byte>>>>, nprocs: nat) {
    forall d :: 0 <= d < |sends| ==> Wide(sends[d], nprocs)
  }

  /** What one aggregator sends process i in round t; nothing once it is done. */
  ghost function Portion(sent: seq<seq<seq<Byte>>>, nprocs: nat, i: nat, t: nat): seq<Byte>
    requires Wide(sent, nprocs) && i < nprocs
  {
    if t < |sent| then sent[t][i] else []
  }

  /** What process i gets in round t: from each aggregator's rank its portion. */
  ghost function Arrive(sends: seq<seq<seq<seq<Byte>>>>, ranklist: seq<nat>, nprocs: nat, i: nat,
                        t: nat): (r: seq<seq<Byte>>)
    requires |sends| == |ranklist| && Distinct(ranklist) && i < nprocs && AllWide(sends, nprocs)
    ensures |r| == nprocs
    ensures forall d :: 0 <= d < |sends| && ranklist[d] < nprocs ==> r[ranklist[d]] == Portion(sends[d], nprocs, i, t)
    ensures forall p :: 0 <= p < nprocs && p !in ranklist ==> r[p] == []
  {
    seq(nprocs, p requires 0 <= p < nprocs =>
      if p in ranklist then Portion(sends[DomainOf(ranklist, p)], nprocs, i, t) else [])
  }

  /** The domain a rank serves. */
  ghost function DomainOf(ranklist: seq<nat>, p: nat): (d: nat)
    requires p in ranklist
    ensures d < |ranklist| && ranklist[d] == p
  {
    var d :| 0 <= d < |ranklist| && ranklist[d] == p; d
  }

  ghost function ArriveAll(sends: seq<seq<seq<seq<Byte>>>>, ranklist: seq<nat>, nprocs: nat, i: nat,
                           rounds: nat): (r: seq<seq<seq<Byte>>>)
    requires |sends| == |ranklist| && Distinct(ranklist) && i < nprocs && AllWide(sends, nprocs)
    ensures |r| == rounds && Wide(r, nprocs)
    ensures forall t :: 0 <= t < rounds ==> r[t] == Arrive(sends, ranklist, nprocs, i, t)
  {
    seq(rounds, t requires 0 <= t < rounds => Arrive(sends, ranklist, nprocs, i, t))
  }

  lemma JoinedLast(recvs: seq<seq<seq<Byte>>>, nprocs: nat, p: nat, m: nat, q: nat)
    requires Wide(recvs, nprocs) && p < nprocs && m < |recvs| && q == m + 1
    ensures Joined(recvs[..q], p) == Joined(recvs[..m], p) + recvs[m][p]
  {
    assert recvs[..q][..m] == recvs[..m];
  }

  /** Nothing is lost or added on the way: after t rounds process i has, from domain d's
      rank, what that aggregator sent in its first t rounds (all, if it has no more). */
  lemma {:induction false} ArriveJoined(sends: seq<seq<seq<seq<Byte>>>>, ranklist: seq<nat>, nprocs: nat, i: nat,
                                        rounds: nat, t: nat, d: nat)
    requires |sends| == |ranklist| && Distinct(ranklist) && RanksBelow(ranklist, nprocs) && i < nprocs && d < |ranklist|
    requires AllWide(sends, nprocs) && t <= rounds
    ensures Wide(sends[d], nprocs)
    ensures Joined(ArriveAll(sends, ranklist, nprocs, i, rounds)[..t], ranklist[d]) ==
            Joined(sends[d][..Min(t, |sends[d]|)], i)
    decreases t
  {
    hide Joined;
    var all, mine := ArriveAll(sends, ranklist, nprocs, i, rounds), sends[d];
    assert Wide(mine, nprocs);
    if t == 0 {
      JoinedEmpty(all, ranklist[d]);
      JoinedEmpty(mine, i);
    } else {
      var m := t - 1;
      ArriveJoined(sends, ranklist, nprocs, i, rounds, m, d);
      JoinedLast(all, nprocs, ranklist[d], m, t);
      assert all[m][ranklist[d]] == Portion(mine, nprocs, i, m);
      if m < |mine| { JoinedLast(mine, nprocs, i, m, t); }
    }
  }

  lemma JoinedEmpty(recvs: seq<seq<seq<Byte>>>, p: nat)
    ensures Joined(recvs[..0], p) == []
  {
  }

  /** The whole read.  If every aggregator sends what ADIOI_Read_and_exch sends, in as many
      rounds as it needs, and the process unpacks round by round until the last of them,
      its buffer holds the file's bytes at its accesses. */
  lemma {:induction false} CollectiveReadIsDirect(bufs: seq<seq<Byte>>, sends: seq<seq<seq<seq<Byte>>>>, rounds: nat,
                                                  i: nat, ft: FlatType, xs: seq<Extent>, starts: seq<int>,
                                                  ends: seq<int>, lo: int, hi: int, ranklist: seq<nat>, nprocs: nat,
                                                  image: Image)
    requires Partition(starts, ends, lo, hi) && InRange(xs, lo, hi) && i < nprocs
    requires |sends| == |ranklist| == |starts| && Distinct(ranklist) && RanksBelow(ranklist, nprocs)
    requires AllWide(sends, nprocs) && forall d :: 0 <= d < |sends| ==> |sends[d]| <= rounds
    requires forall d :: 0 <= d < |sends| ==>
               Wide(sends[d], nprocs) &&
               Joined(sends[d], i) == Bytes(image, Flat(Mine(SplitAll(starts, xs), ranklist, ranklist[d])))
    requires FillSteps(bufs, ArriveAll(sends, ranklist, nprocs, i, rounds), ft, Flat(xs), starts, ranklist, nprocs)
    ensures Stream(bufs[rounds], ft, |Flat(xs)|) == Bytes(image, Flat(xs))
    ensures forall a :: 0 <= a < |bufs[0]| && Outside(ft, |Flat(xs)|, a) ==> bufs[rounds][a] == bufs[0][a]
  {
    hide Joined, Flat, Mine, SplitAll, FillSteps, Partition, InRange, Addr, Proper, Within, Outside;
    var recvs := ArriveAll(sends, ranklist, nprocs, i, rounds);
    forall d | 0 <= d < |starts|
      ensures Joined(recvs, ranklist[d]) == Bytes(image, Flat(Mine(SplitAll(starts, xs), ranklist, ranklist[d])))
    {
      ArriveJoined(sends, ranklist, nprocs, i, rounds, rounds, d);
      assert |sends[d]| <= rounds && sends[d][..|sends[d]|] == sends[d] && recvs[..rounds] == recvs;
    }
    ReadIsDirect(bufs, recvs, ft, xs, starts, ends, lo, hi, ranklist, nprocs, image);
  }
}
