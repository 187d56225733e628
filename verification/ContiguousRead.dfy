/**
 A collective read into a contiguous user buffer: every message is copied to buf_idx of its
 sender, which then moves on by the message's length.  Right for every file if and only
 if no access reaches past the domain in which a later access begins.
 */
module ContiguousRead {
  import opened Sequences
  import opened Extents
  import opened Domains
  import opened Shares
  import opened Requests
  import opened Shortcut
  import opened RunCover
  import opened Unpacking
  import opened RoundTrip
  import opened Reader
  import opened CollectiveRead
  import Writer

  /** Where a round's messages go. */
  ghost function Spots(bufIdx: seq<int>, recv: seq<seq<Byte>>): (r: seq<seq<int>>)
    requires |bufIdx| == |recv|
    ensures |r| == |recv| && forall p :: 0 <= p < |r| ==> r[p] == Range(bufIdx[p], |recv[p]|)
    ensures Matching(r, recv)
  {
    seq(|recv|, p requires 0 <= p < |recv| => Range(bufIdx[p], |recv[p]|))
  }

  /** One round: after it every place holds what the last message over it put there, and
      every buf_idx has moved on. */
  method ReceiveContig(ub: array<Byte>, recv: seq<seq<Byte>>, bufIdx: seq<int>) returns (bufIdx': seq<int>)
    requires |bufIdx| == |recv|
    requires forall p :: 0 <= p < |recv| && recv[p] != [] ==> 0 <= bufIdx[p] && bufIdx[p] + |recv[p]| <= ub.Length
    modifies ub
    ensures |bufIdx'| == |bufIdx| && forall p :: 0 <= p < |bufIdx| ==> bufIdx'[p] == bufIdx[p] + |recv[p]|
    ensures forall x :: 0 <= x < ub.Length ==> ub[x] == PutAll(old(ub[x]), Spots(bufIdx, recv), recv, x)
  {
    hide PutAll;
    bufIdx' := bufIdx;
    ghost var spots, was := Spots(bufIdx, recv), ub[..];
    forall x | 0 <= x < ub.Length ensures ub[x] == PutAll(was[x], spots[..0], recv[..0], x) {
      PutAllMiss(was[x], spots[..0], recv[..0], x);
    }
    for i := 0 to |recv|
      invariant |bufIdx'| == |bufIdx|
      invariant forall p :: 0 <= p < |bufIdx| ==> bufIdx'[p] == bufIdx[p] + if p < i then |recv[p]| else 0
      invariant forall x :: 0 <= x < ub.Length ==> ub[x] == PutAll(was[x], spots[..i], recv[..i], x)
    {
      ghost var mid := ub[..];
      if recv[i] != [] {
        Writer.CopyIn(ub, bufIdx[i], recv[i]);
        bufIdx' := bufIdx'[i := bufIdx'[i] + |recv[i]|];
      }
      forall x | 0 <= x < ub.Length ensures ub[x] == PutAll(was[x], spots[..i + 1], recv[..i + 1], x) {
        OneMore(was[x], spots, recv, i, i + 1, x);
        Writer.PutRange(mid[x], bufIdx[i], recv[i], x);
      }
    }
    assert spots[..|recv|] == spots && recv[..|recv|] == recv;
  }

  lemma OneMore(v: Byte, spots: seq<seq<int>>, recv: seq<seq<Byte>>, i: nat, q: nat, x: int)
    requires Matching(spots, recv) && i < |recv| && q == i + 1
    ensures PutAll(v, spots[..q], recv[..q], x) == Put(PutAll(v, spots[..i], recv[..i], x), spots[i], recv[i], x)
  {
    assert spots[..q][..i] == spots[..i] && recv[..q][..i] == recv[..i];
  }

  // ---------- A whole read ----------

  /** buf_idx before round t. */
  ghost function IdxAt(idx: seq<int>, recvs: seq<seq<seq<Byte>>>, nprocs: nat, t: nat): (r: seq<int>)
    requires |idx| == nprocs && Wide(recvs, nprocs) && t <= |recvs|
    ensures |r| == nprocs && forall p :: 0 <= p < nprocs ==> r[p] == idx[p] + Moved(AllSizes(recvs), t, p)
  {
    seq(nprocs, p requires 0 <= p < nprocs => idx[p] + Moved(AllSizes(recvs), t, p))
  }

  /** What ReceiveContig does to the buffer. */
  ghost predicate ContigStep(b: seq<Byte>, b': seq<Byte>, idx: seq<int>, recv: seq<seq<Byte>>)
    requires |idx| == |recv|
  {
    |b'| == |b| && forall x :: 0 <= x < |b| ==> b'[x] == PutAll(b[x], Spots(idx, recv), recv, x)
  }

  /** The buffer before each round and after the last, when the aggregators send what
      ADIOI_Read_and_exch sends and buf_idx starts as ADIOI_GPFS_Calc_my_req left it. */
  ghost predicate ContigRead(bufs: seq<seq<Byte>>, recvs: seq<seq<seq<Byte>>>, idx: seq<int>, xs: seq<Extent>,
                             starts: seq<int>, ranklist: seq<nat>, nprocs: nat, image: Image)
    requires |ranklist| == |starts| > 0 && RanksBelow(ranklist, nprocs)
  {
    && |bufs| == |recvs| + 1 && SentByAll(recvs, xs, starts, ranklist, nprocs, image)
    && (forall t, p :: 0 <= t < |recvs| && 0 <= p < nprocs && p !in ranklist ==> recvs[t][p] == [])
    && |idx| == nprocs && Indexed(idx, SplitAll(starts, xs), ranklist)
    && (forall t :: 0 <= t < |bufs| ==> |bufs[t]| == |Flat(xs)|)
    && forall t :: 0 <= t < |recvs| ==> ContigStep(bufs[t], bufs[t + 1], IdxAt(idx, recvs, nprocs, t), recvs[t])
  }

  /** Stream positions received so far hold their byte, the others are as before. */
  ghost predicate Landed(now: seq<Byte>, was: seq<Byte>, u: seq<Byte>, f: seq<int>, starts: seq<int>,
                         ranklist: seq<nat>, done: seq<nat>)
    requires |ranklist| == |starts| > 0 && RanksBelow(ranklist, |done|)
  {
    && |now| == |was| == |u| == |f|
    && forall k :: 0 <= k < |f| ==>
         now[k] == if Nth(starts, f, k) < done[ranklist[Owner(starts, f[k])]] then u[k] else was[k]
  }

  /** If owners never go back, entry number s of a share is at the first position plus s. */
  lemma MonotoneNth(starts: seq<int>, f: seq<int>, d: nat, k: nat)
    requires |starts| > 0 && OwnersMonotone(starts, f) && k < |f| && Owner(starts, f[k]) == d
    ensures Nth(starts, f, k) == k - First(starts, d, f) >= 0
  {
    MonotoneIsSlice(starts, d, f, Range(0, |f|));
    MonotoneIsRun(starts, d, f);
    ShareIndex(starts, d, f, Range(0, |f|), k);
  }

  /** A message of domain d covers the positions of d it is about, and no others. */
  lemma LandAt(u: seq<Byte>, f: seq<int>, starts: seq<int>, d: nat, at: int, s: nat, e: nat, k: nat)
    requires |starts| > 0 && OwnersMonotone(starts, f) && |u| == |f| && k < |f| && s <= e <= |Share(starts, d, f, u)|
    requires at == First(starts, d, f) + s
    ensures at <= k < at + (e - s) <==> Owner(starts, f[k]) == d && s <= Nth(starts, f, k) < e
    ensures at <= k < at + (e - s) ==> Share(starts, d, f, u)[s..e][k - at] == u[k]
  {
    ShareLength(starts, d, f, u);
    MonotoneIsRun(starts, d, f);
    if Owner(starts, f[k]) == d {
      MonotoneNth(starts, f, d, k);
      ShareIndex(starts, d, f, u, k);
    }
  }

  /** buf_idx of every rank that sends anything: where its next byte belongs. */
  ghost predicate Aimed(idx: seq<int>, f: seq<int>, starts: seq<int>, ranklist: seq<nat>, done: seq<nat>)
    requires |ranklist| == |starts| > 0 && RanksBelow(ranklist, |done|)
  {
    && |idx| == |done|
    && forall d :: 0 <= d < |starts| && Count(starts, d, f) > 0 ==>
         idx[ranklist[d]] == First(starts, d, f) + done[ranklist[d]]
  }

  /** What a round puts at one position: the owner's message alone decides. */
  lemma RoundAt(v: Byte, recv: seq<seq<Byte>>, idx: seq<int>, u: seq<Byte>, f: seq<int>, starts: seq<int>,
                ranklist: seq<nat>, done: seq<nat>, k: nat)
    requires |ranklist| == |starts| > 0 && Distinct(ranklist) && RanksBelow(ranklist, |done|)
    requires OwnersMonotone(starts, f)
    requires |u| == |f| && k < |f| && NextOfShares(recv, u, f, starts, ranklist, done, Sizes(recv))
    requires forall p :: 0 <= p < |recv| && p !in ranklist ==> recv[p] == []
    requires Aimed(idx, f, starts, ranklist, done)
    ensures var p := ranklist[Owner(starts, f[k])];
      PutAll(v, Spots(idx, recv), recv, k) == if done[p] <= Nth(starts, f, k) < done[p] + |recv[p]| then u[k] else v
  {
    hide Share, Count, First, OwnersMonotone, PutAll, Put, Owner, Nth;
    var d := Owner(starts, f[k]);
    var p, spots := ranklist[d], Spots(idx, recv);
    forall q | 0 <= q < |recv| && q != p ensures k !in spots[q] {
      if q in ranklist {
        var e := DomainOf(ranklist, q);
        MessageAt(recv, idx, u, f, starts, ranklist, done, e, k);
      }
    }
    PutAllOnly(v, spots, recv, p, k);
    MessageAt(recv, idx, u, f, starts, ranklist, done, d, k);
    Writer.PutRange(v, idx[p], recv[p], k);
  }

  lemma MessageAt(recv: seq<seq<Byte>>, idx: seq<int>, u: seq<Byte>, f: seq<int>, starts: seq<int>,
                  ranklist: seq<nat>, done: seq<nat>, d: nat, k: nat)
    requires |ranklist| == |starts| > 0 && RanksBelow(ranklist, |done|) && OwnersMonotone(starts, f) && d < |starts|
    requires |u| == |f| && k < |f| && NextOfShares(recv, u, f, starts, ranklist, done, Sizes(recv))
    requires Aimed(idx, f, starts, ranklist, done)
    ensures var p := ranklist[d];
      && (idx[p] <= k < idx[p] + |recv[p]| <==>
          Owner(starts, f[k]) == d && done[p] <= Nth(starts, f, k) < done[p] + |recv[p]|)
      && (idx[p] <= k < idx[p] + |recv[p]| ==> recv[p][k - idx[p]] == u[k])
  {
    hide Share, Count, First, OwnersMonotone, Owner, Nth;
    var p := ranklist[d];
    ShareLength(starts, d, f, u);
    if recv[p] != [] {
      LandAt(u, f, starts, d, idx[p], done[p], done[p] + |recv[p]|, k);
    }
  }

  lemma LandRound(b: seq<Byte>, b': seq<Byte>, was: seq<Byte>, recv: seq<seq<Byte>>, idx: seq<int>, u: seq<Byte>,
                  f: seq<int>, starts: seq<int>, ranklist: seq<nat>, done: seq<nat>, done': seq<nat>)
    requires |ranklist| == |starts| > 0 && Distinct(ranklist) && RanksBelow(ranklist, |done|)
    requires OwnersMonotone(starts, f)
    requires |u| == |f| && NextOfShares(recv, u, f, starts, ranklist, done, Sizes(recv))
    requires forall p :: 0 <= p < |recv| && p !in ranklist ==> recv[p] == []
    requires Aimed(idx, f, starts, ranklist, done) && Landed(b, was, u, f, starts, ranklist, done)
    requires ContigStep(b, b', idx, recv)
    requires |done'| == |done| && forall p :: 0 <= p < |done| ==> done'[p] == done[p] + |recv[p]|
    ensures Landed(b', was, u, f, starts, ranklist, done')
  {
    hide Share, Count, First, OwnersMonotone, PutAll, Owner, Nth, NextOfShares, Aimed;
    forall k | 0 <= k < |f|
      ensures b'[k] == if Nth(starts, f, k) < done'[ranklist[Owner(starts, f[k])]] then u[k] else was[k]
    {
      RoundAt(b[k], recv, idx, u, f, starts, ranklist, done, k);
    }
  }

  lemma AimedAt(idx: seq<int>, recvs: seq<seq<seq<Byte>>>, nprocs: nat, t: nat, xs: seq<Extent>, starts: seq<int>,
                ends: seq<int>, lo: int, hi: int, ranklist: seq<nat>)
    requires Partition(starts, ends, lo, hi) && InRange(xs, lo, hi) && |ranklist| == |starts| && Distinct(ranklist)
    requires RanksBelow(ranklist, nprocs) && Wide(recvs, nprocs) && t <= |recvs|
    requires |idx| == nprocs && Indexed(idx, SplitAll(starts, xs), ranklist)
    ensures Aimed(IdxAt(idx, recvs, nprocs, t), Flat(xs), starts, ranklist, MovedAll(AllSizes(recvs), t, nprocs))
  {
    hide Partition, Flat, SplitAll, Moved, First, Count, FirstIdx;
    forall d | 0 <= d < |starts| && Count(starts, d, Flat(xs)) > 0
      ensures idx[ranklist[d]] == First(starts, d, Flat(xs))
    {
      BufIdxIsFirst(starts, ends, lo, hi, xs, ranklist, d);
    }
  }

  /** All rounds, by induction. */
  lemma {:induction false} LandRounds(bufs: seq<seq<Byte>>, recvs: seq<seq<seq<Byte>>>, idx: seq<int>,
                                      xs: seq<Extent>, starts: seq<int>, ends: seq<int>, lo: int, hi: int,
                                      ranklist: seq<nat>, nprocs: nat, image: Image, t: nat)
    requires Partition(starts, ends, lo, hi) && InRange(xs, lo, hi) && |ranklist| == |starts| && Distinct(ranklist)
    requires RanksBelow(ranklist, nprocs) && OwnersMonotone(starts, Flat(xs))
    requires ContigRead(bufs, recvs, idx, xs, starts, ranklist, nprocs, image) && t <= |recvs|
    ensures Landed(bufs[t], bufs[0], Bytes(image, Flat(xs)), Flat(xs), starts, ranklist,
                   MovedAll(AllSizes(recvs), t, nprocs))
  {
    hide Partition, InRange, OwnersMonotone, Flat, Share, Joined, Mine, SplitAll, Indexed, ContigStep, Landed, Aimed,
         Moved;
    hide NextOfShares, Delivered, SentByAll;
    var f := Flat(xs);
    var u := Bytes(image, f);
    PartitionSome(starts, ends, lo, hi);
    SentIsWide(recvs, xs, starts, ranklist, nprocs, image);
    if t == 0 {
      LandedNone(bufs[0], u, f, starts, ranklist, MovedAll(AllSizes(recvs), 0, nprocs), AllSizes(recvs), nprocs);
    } else {
      var m := t - 1;
      LandRounds(bufs, recvs, idx, xs, starts, ends, lo, hi, ranklist, nprocs, image, m);
      AllDelivered(recvs, xs, starts, ends, lo, hi, ranklist, nprocs, image);
      DeliveredRound(recvs, u, f, starts, ranklist, nprocs, m);
      AimedAt(idx, recvs, nprocs, m, xs, starts, ends, lo, hi, ranklist);
      MovedStep(recvs, nprocs, m, t);
      assert ContigStep(bufs[m], bufs[m + 1], IdxAt(idx, recvs, nprocs, m), recvs[m]);
      LandRound(bufs[m], bufs[t], bufs[0], recvs[m], IdxAt(idx, recvs, nprocs, m), u, f, starts, ranklist,
                MovedAll(AllSizes(recvs), m, nprocs), MovedAll(AllSizes(recvs), t, nprocs));
    }
  }

  lemma PartitionSome(starts: seq<int>, ends: seq<int>, lo: int, hi: int)
    requires Partition(starts, ends, lo, hi)
    ensures |starts| > 0
  {
  }

  lemma SentIsWide(recvs: seq<seq<seq<Byte>>>, xs: seq<Extent>, starts: seq<int>, ranklist: seq<nat>, nprocs: nat,
                   image: Image)
    requires |ranklist| == |starts| > 0 && RanksBelow(ranklist, nprocs)
    requires SentByAll(recvs, xs, starts, ranklist, nprocs, image)
    ensures Wide(recvs, nprocs)
  {
  }

  lemma LandedNone(was: seq<Byte>, u: seq<Byte>, f: seq<int>, starts: seq<int>, ranklist: seq<nat>, done: seq<nat>,
                   sizes: seq<seq<nat>>, nprocs: nat)
    requires |ranklist| == |starts| > 0 && RanksBelow(ranklist, |done|) && |was| == |u| == |f|
    requires forall i :: 0 <= i < |sizes| ==> |sizes[i]| == nprocs
    requires done == MovedAll(sizes, 0, nprocs)
    ensures Landed(was, was, u, f, starts, ranklist, done)
  {
  }

  lemma MovedStep(recvs: seq<seq<seq<Byte>>>, nprocs: nat, m: nat, t: nat)
    requires Wide(recvs, nprocs) && m < |recvs| && t == m + 1
    ensures forall p :: 0 <= p < nprocs ==>
              MovedAll(AllSizes(recvs), t, nprocs)[p] == MovedAll(AllSizes(recvs), m, nprocs)[p] + |recvs[m][p]|
  {
  }

  lemma LandedAll(now: seq<Byte>, was: seq<Byte>, u: seq<Byte>, f: seq<int>, starts: seq<int>, ranklist: seq<nat>,
                  done: seq<nat>)
    requires |ranklist| == |starts| > 0 && RanksBelow(ranklist, |done|)
    requires Landed(now, was, u, f, starts, ranklist, done)
    requires forall d :: 0 <= d < |starts| ==> done[ranklist[d]] == Count(starts, d, f)
    ensures now == u
  {
    forall k | 0 <= k < |f| ensures now[k] == u[k] {
      CountMonotone(starts, Owner(starts, f[k]), f, k, |f|);
      assert f[..|f|] == f;
    }
  }

  /** If no access reaches past the domain in which a later one begins, the buffer ends up
      holding the file's bytes at the accesses. */
  lemma {:induction false} ContigReadIsDirect(bufs: seq<seq<Byte>>, recvs: seq<seq<seq<Byte>>>, idx: seq<int>,
                                              xs: seq<Extent>, starts: seq<int>, ends: seq<int>, lo: int, hi: int,
                                              ranklist: seq<nat>, nprocs: nat, image: Image)
    requires Partition(starts, ends, lo, hi) && InRange(xs, lo, hi) && |ranklist| == |starts| && Distinct(ranklist)
    requires RanksBelow(ranklist, nprocs) && NoReturn(starts, xs)
    requires ContigRead(bufs, recvs, idx, xs, starts, ranklist, nprocs, image)
    ensures bufs[|recvs|] == Bytes(image, Flat(xs))
  {
    hide Partition, InRange, OwnersMonotone, Flat, Share, Joined, Mine, SplitAll, Landed, Moved, Delivered, Count,
         NoReturn;
    var f := Flat(xs);
    var n, u := |recvs|, Bytes(image, f);
    PartitionSome(starts, ends, lo, hi);
    NoReturnMonotone(starts, ends, lo, hi, xs);
    LandRounds(bufs, recvs, idx, xs, starts, ends, lo, hi, ranklist, nprocs, image, n);
    AllDelivered(recvs, xs, starts, ends, lo, hi, ranklist, nprocs, image);
    forall d | 0 <= d < |starts| ensures Moved(AllSizes(recvs), n, ranklist[d]) == Count(starts, d, f) {
      DeliveredTotal(recvs, u, f, starts, ranklist, nprocs, d);
    }
    LandedAll(bufs[n], bufs[0], u, f, starts, ranklist, MovedAll(AllSizes(recvs), n, nprocs));
  }

  // ---------- When an access does reach past a later one's domain ----------

  /** The messages of a read done in one round. */
  ghost function OneRound(u: seq<Byte>, f: seq<int>, starts: seq<int>, ranklist: seq<nat>,
                          nprocs: nat): (r: seq<seq<Byte>>)
    requires |ranklist| == |starts| > 0 && Distinct(ranklist) && RanksBelow(ranklist, nprocs) && |u| == |f|
    ensures |r| == nprocs && forall d :: 0 <= d < |starts| ==> r[ranklist[d]] == Share(starts, d, f, u)
    ensures forall p :: 0 <= p < nprocs && p !in ranklist ==> r[p] == []
  {
    seq(nprocs, p requires 0 <= p < nprocs =>
      if p in ranklist then Share(starts, DomainOf(ranklist, p), f, u) else [])
  }

  /** A position in no run is written by no message. */
  lemma NeverWritten(v: Byte, idx: seq<int>, u: seq<Byte>, f: seq<int>, starts: seq<int>, ranklist: seq<nat>, k: nat)
    requires |ranklist| == |starts| > 0 && Distinct(ranklist) && RanksBelow(ranklist, |idx|) && |u| == |f|
    requires forall d :: 0 <= d < |starts| && Count(starts, d, f) > 0 ==> idx[ranklist[d]] == First(starts, d, f)
    requires forall d :: 0 <= d < |starts| ==> !InRun(starts, f, d, k)
    ensures var recv := OneRound(u, f, starts, ranklist, |idx|); PutAll(v, Spots(idx, recv), recv, k) == v
  {
    hide Share, Count, First;
    var recv := OneRound(u, f, starts, ranklist, |idx|);
    var spots := Spots(idx, recv);
    forall p | 0 <= p < |recv| ensures k !in spots[p] {
      if p in ranklist {
        var d := DomainOf(ranklist, p);
        ShareLength(starts, d, f, u);
        assert !InRun(starts, f, d, k);
      }
    }
    PutAllMiss(v, spots, recv, k);
  }

  /** Two accesses that break `NoReturn` leave a position that belongs to no run. */
  lemma {:induction false} ReturnUncovers(starts: seq<int>, ends: seq<int>, lo: int, hi: int,
                                          xs: seq<Extent>) returns (k: nat)
    requires Partition(starts, ends, lo, hi) && InRange(xs, lo, hi) && Sorted(xs) && !NoReturn(starts, xs)
    ensures k < |Flat(xs)| && forall d :: 0 <= d < |starts| ==> !InRun(starts, Flat(xs), d, k)
  {
    hide Flat, Owner, InRun, Partition;
    var i, j :| 0 <= i < j < |xs| && xs[i].len > 0 && xs[j].len > 0 &&
                Owner(starts, xs[i].End() - 1) > Owner(starts, xs[j].off);
    var k1, k2, k3 := ReturnPositions(starts, ends, lo, hi, xs, i, j);
    k := Uncovered(starts, Flat(xs), k1, k2, k3);
  }

  /** A read in one round that goes wrong: the file is all 0, the buffer was all 1, and one
      place keeps its 1. */
  lemma ContigReadFails(idx: seq<int>, xs: seq<Extent>, starts: seq<int>, ends: seq<int>, lo: int, hi: int,
                        ranklist: seq<nat>)
    returns (bufs: seq<seq<Byte>>, recvs: seq<seq<seq<Byte>>>, image: Image)
    requires Partition(starts, ends, lo, hi) && InRange(xs, lo, hi) && Sorted(xs) && !NoReturn(starts, xs)
    requires |ranklist| == |starts| && Distinct(ranklist) && RanksBelow(ranklist, |idx|)
    requires Indexed(idx, SplitAll(starts, xs), ranklist)
    ensures ContigRead(bufs, recvs, idx, xs, starts, ranklist, |idx|, image) && bufs[|recvs|] != Bytes(image, Flat(xs))
  {
    hide Partition, InRange, Sorted, NoReturn, Flat, Share, Mine, SplitAll, Indexed, InRun, PutAll, First, Count,
         OneRound;
    var f, nprocs := Flat(xs), |idx|;
    image := _ => 0;
    var u := Bytes(image, f);
    PartitionSome(starts, ends, lo, hi);
    var recv := OneRound(u, f, starts, ranklist, nprocs);
    recvs := [recv];
    var was: seq<Byte> := seq(|f|, _ => 1);
    var spots := Spots(idx, recv);
    var now := seq(|f|, x requires 0 <= x < |f| => PutAll(was[x], spots, recv, x));
    bufs := [was, now];
    OneRoundRead(bufs, recvs, idx, xs, starts, ends, lo, hi, ranklist, image, u);
    var k := ReturnUncovers(starts, ends, lo, hi, xs);
    forall d | 0 <= d < |starts| && Count(starts, d, f) > 0 ensures idx[ranklist[d]] == First(starts, d, f) {
      StartsAtFirst(idx, xs, starts, ends, lo, hi, ranklist, d);
    }
    NeverWritten(was[k], idx, u, f, starts, ranklist, k);
    assert now[k] == 1 && u[k] == 0;
  }

  lemma StartsAtFirst(idx: seq<int>, xs: seq<Extent>, starts: seq<int>, ends: seq<int>, lo: int, hi: int,
                      ranklist: seq<nat>, d: nat)
    requires Partition(starts, ends, lo, hi) && InRange(xs, lo, hi) && |ranklist| == |starts| && Distinct(ranklist)
    requires RanksBelow(ranklist, |idx|) && Indexed(idx, SplitAll(starts, xs), ranklist)
    requires d < |starts| && Count(starts, d, Flat(xs)) > 0
    ensures idx[ranklist[d]] == First(starts, d, Flat(xs))
  {
    BufIdxIsFirst(starts, ends, lo, hi, xs, ranklist, d);
  }

  lemma OneRoundRead(bufs: seq<seq<Byte>>, recvs: seq<seq<seq<Byte>>>, idx: seq<int>, xs: seq<Extent>,
                     starts: seq<int>, ends: seq<int>, lo: int, hi: int, ranklist: seq<nat>, image: Image,
                     u: seq<Byte>)
    requires Partition(starts, ends, lo, hi) && InRange(xs, lo, hi) && |ranklist| == |starts| && Distinct(ranklist)
    requires RanksBelow(ranklist, |idx|) && Indexed(idx, SplitAll(starts, xs), ranklist)
    requires u == Bytes(image, Flat(xs)) && |starts| > 0
    requires recvs == [OneRound(u, Flat(xs), starts, ranklist, |idx|)]
    requires |bufs| == 2 && |bufs[0]| == |bufs[1]| == |Flat(xs)| && ContigStep(bufs[0], bufs[1], idx, recvs[0])
    ensures ContigRead(bufs, recvs, idx, xs, starts, ranklist, |idx|, image)
  {
    hide Partition, InRange, Flat, Share, Mine, SplitAll, Indexed, ContigStep;
    forall d | 0 <= d < |starts|
      ensures Joined(recvs, ranklist[d]) == Bytes(image, Flat(Mine(SplitAll(starts, xs), ranklist, ranklist[d])))
    {
      SentIsShare(starts, ends, lo, hi, xs, ranklist, d, image);
      OneJoined(recvs[0], ranklist[d]);
    }
    assert IdxAt(idx, recvs, |idx|, 0) == idx;
  }

  lemma OneJoined(recv: seq<seq<Byte>>, p: nat)
    requires p < |recv|
    ensures Joined([recv], p) == recv[p]
  {
    assert [recv][..0] == [];
  }

  /** Does the contiguous read give every file's bytes, in whatever portions they come and
      whatever the buffer held before? */
  ghost predicate AlwaysRight(xs: seq<Extent>, idx: seq<int>, starts: seq<int>, ranklist: seq<nat>)
    requires |ranklist| == |starts| > 0 && RanksBelow(ranklist, |idx|)
  {
    forall bufs, recvs, image :: ContigRead(bufs, recvs, idx, xs, starts, ranklist, |idx|, image) ==>
      bufs[|recvs|] == Bytes(image, Flat(xs))
  }

  /** It does if and only if no access reaches past the domain in which a later access
      begins. */
  lemma {:induction false} ContiguousReadIff(xs: seq<Extent>, idx: seq<int>, starts: seq<int>, ends: seq<int>,
                                             lo: int, hi: int, ranklist: seq<nat>)
    requires Partition(starts, ends, lo, hi) && InRange(xs, lo, hi) && Sorted(xs) && |ranklist| == |starts|
    requires Distinct(ranklist) && RanksBelow(ranklist, |idx|) && Indexed(idx, SplitAll(starts, xs), ranklist)
    ensures AlwaysRight(xs, idx, starts, ranklist) <==> NoReturn(starts, xs)
  {
    hide ContigRead, Partition, InRange, Sorted, NoReturn, Indexed, Flat;
    PartitionSome(starts, ends, lo, hi);
    if NoReturn(starts, xs) {
      forall bufs, recvs, image | ContigRead(bufs, recvs, idx, xs, starts, ranklist, |idx|, image)
        ensures |bufs| == |recvs| + 1 && bufs[|recvs|] == Bytes(image, Flat(xs))
      {
        ReadSize(bufs, recvs, idx, xs, starts, ranklist, image);
        ContigReadIsDirect(bufs, recvs, idx, xs, starts, ends, lo, hi, ranklist, |idx|, image);
      }
    } else {
      var bufs, recvs, image := ContigReadFails(idx, xs, starts, ends, lo, hi, ranklist);
    }
  }

  lemma ReadSize(bufs: seq<seq<Byte>>, recvs: seq<seq<seq<Byte>>>, idx: seq<int>, xs: seq<Extent>, starts: seq<int>,
                 ranklist: seq<nat>, image: Image)
    requires |ranklist| == |starts| > 0 && RanksBelow(ranklist, |idx|)
    requires ContigRead(bufs, recvs, idx, xs, starts, ranklist, |idx|, image)
    ensures |bufs| == |recvs| + 1
  {
  }

  /** In any case no message goes outside the buffer. */
  lemma {:induction false} ContigInside(idx: seq<int>, recvs: seq<seq<seq<Byte>>>, xs: seq<Extent>, starts: seq<int>,
                                        ends: seq<int>, lo: int, hi: int, ranklist: seq<nat>, image: Image, t: nat,
                                        p: nat)
    requires Partition(starts, ends, lo, hi) && InRange(xs, lo, hi) && |ranklist| == |starts| && Distinct(ranklist)
    requires RanksBelow(ranklist, |idx|) && Indexed(idx, SplitAll(starts, xs), ranklist)
    requires SentByAll(recvs, xs, starts, ranklist, |idx|, image)
    requires t < |recvs| && p in ranklist && p < |idx| && recvs[t][p] != []
    ensures 0 <= IdxAt(idx, recvs, |idx|, t)[p] && IdxAt(idx, recvs, |idx|, t)[p] + |recvs[t][p]| <= |Flat(xs)|
  {
    hide Partition, InRange, Flat, Share, Joined, Mine, SplitAll, Indexed, Moved, First, Count, Delivered, NextOfShares;
    var f := Flat(xs);
    var u, d := Bytes(image, f), DomainOf(ranklist, p);
    AllDelivered(recvs, xs, starts, ends, lo, hi, ranklist, |idx|, image);
    DeliveredRound(recvs, u, f, starts, ranklist, |idx|, t);
    PortionFits(recvs[t], u, f, starts, ranklist, MovedAll(AllSizes(recvs), t, |idx|), AllSizes(recvs)[t], d);
    StartsAtFirst(idx, xs, starts, ends, lo, hi, ranklist, d);
    FirstFacts(starts, d, f);
  }

  lemma PortionFits(recv: seq<seq<Byte>>, u: seq<Byte>, f: seq<int>, starts: seq<int>, ranklist: seq<nat>,
                    done: seq<nat>, size: seq<nat>, d: nat)
    requires |ranklist| == |starts| > 0 && |u| == |f| && d < |starts|
    requires NextOfShares(recv, u, f, starts, ranklist, done, size)
    ensures done[ranklist[d]] + |recv[ranklist[d]]| <= Count(starts, d, f)
  {
    ShareLength(starts, d, f, u);
  }
}
