/**
 The collective read as one program: requests are split and transposed, every aggregator
 reads its windows and sends, and every process unpacks what arrives round by round.
 */
module ReadProgram {
  import opened Sequences
  import opened Extents
  import opened Domains
  import opened Shares
  import opened Requests
  import opened FlatTypes
  import opened Packing
  import opened Unpacking
  import opened RoundTrip
  import opened Writer
  import opened CarryOver
  import opened Reader
  import opened CollectiveRead

  /** Receive buffers with the given contents. */
  method Receive(recv: seq<seq<Byte>>) returns (bufs: seq<array<Byte>>)
    ensures |bufs| == |recv|
    ensures forall p :: 0 <= p < |bufs| ==> fresh(bufs[p]) && bufs[p].Length == |recv[p]| && bufs[p][..] == recv[p]
  {
    bufs := [];
    for p := 0 to |recv|
      invariant |bufs| == p
      invariant forall q :: 0 <= q < p ==> fresh(bufs[q]) && bufs[q].Length == |recv[q]| && bufs[q][..] == recv[q]
    {
      var b := new Byte[|recv[p]|](i requires 0 <= i < |recv[p]| => recv[p][i]);
      assert b[..] == recv[p];
      bufs := bufs + [b];
    }
  }

  method Lengths(recv: seq<seq<Byte>>) returns (size: seq<nat>)
    ensures size == Sizes(recv)
  {
    size := seq(|recv|, p requires 0 <= p < |recv| => |recv[p]|);
  }

  /** What a process has of its data after t rounds. */
  ghost predicate HasRounds(now: seq<Byte>, was: seq<Byte>, recvs: seq<seq<seq<Byte>>>, u: seq<Byte>, ft: FlatType,
                            f: seq<int>, starts: seq<int>, ranklist: seq<nat>, nprocs: nat, t: nat, recd: seq<nat>)
    requires |ranklist| == |starts| > 0 && RanksBelow(ranklist, nprocs) && |u| == |f| && Wide(recvs, nprocs)
    requires t <= |recvs|
    requires Proper(ft) && Within(ft, |f|, |was|)
  {
    && recd == MovedAll(AllSizes(recvs), t, nprocs)
    && |now| == |was| && Restored(now, was, u, ft, f, starts, ranklist, recd)
  }

  /** Messages come from the aggregators only. */
  ghost predicate OnlyRanks(recvs: seq<seq<seq<Byte>>>, ranklist: seq<nat>) {
    forall t, p :: 0 <= t < |recvs| && 0 <= p < |recvs[t]| && p !in ranklist ==> recvs[t][p] == []
  }

  /** One round at a process. */
  method UnpackRound(ub: array<Byte>, ft: FlatType, xs: seq<Extent>, recvs: seq<seq<seq<Byte>>>, t: nat,
                     recd: seq<nat>, nprocs: nat, starts: seq<int>, ends: seq<int>, ranklist: seq<nat>,
                     ghost lo: int, ghost hi: int, ghost u: seq<Byte>, ghost was: seq<Byte>)
    returns (recd': seq<nat>)
    requires Partition(starts, ends, lo, hi) && InRange(xs, lo, hi) && |ranklist| == |starts| > 0 && Distinct(ranklist)
    requires RanksBelow(ranklist, nprocs) && OnlyRanks(recvs, ranklist) && t < |recvs|
    requires |u| == |Flat(xs)| && Delivered(recvs, u, Flat(xs), starts, ranklist, nprocs)
    requires Proper(ft) && Within(ft, |Flat(xs)|, |was|) && Injective(ft, |Flat(xs)|) && |was| == ub.Length
    requires HasRounds(ub[..], was, recvs, u, ft, Flat(xs), starts, ranklist, nprocs, t, recd)
    modifies ub
    ensures HasRounds(ub[..], was, recvs, u, ft, Flat(xs), starts, ranklist, nprocs, t + 1, recd')
  {
    hide Partition, InRange, Within, Injective, Proper, Addr, Outside, UnpackedTo, Restored, NextOfShares, Delivered,
         Flat, Count;
    hide Moved, Share;
    ghost var f, mid := Flat(xs), ub[..];
    DeliveredWide(recvs, u, f, starts, ranklist, nprocs);
    DeliveredRound(recvs, u, f, starts, ranklist, nprocs, t);
    var size := Lengths(recvs[t]);
    RoundFits(recvs[t], u, f, starts, ranklist, recd, size);
    var bufs := Receive(recvs[t]);
    recd' := FillUserBuffer(ub, ft, bufs, xs, size, recd, starts, ends, ranklist, lo, hi);
    assert Contents(bufs) == recvs[t];
    RestoredStep(was, mid, ub[..], u, recvs[t], ft, f, starts, ranklist, recd, size, recd');
    MovedOn(recvs, nprocs, t, recd, recd');
  }

  lemma MovedOn(recvs: seq<seq<seq<Byte>>>, nprocs: nat, t: nat, recd: seq<nat>, recd': seq<nat>)
    requires Wide(recvs, nprocs) && t < |recvs| && recd == MovedAll(AllSizes(recvs), t, nprocs)
    requires |recd'| == |recd| && forall p :: 0 <= p < |recd| ==> recd'[p] == recd[p] + |recvs[t][p]|
    ensures recd' == MovedAll(AllSizes(recvs), t + 1, nprocs)
  {
  }

  lemma RoundFits(recv: seq<seq<Byte>>, u: seq<Byte>, f: seq<int>, starts: seq<int>, ranklist: seq<nat>,
                  done: seq<nat>, size: seq<nat>)
    requires |ranklist| == |starts| > 0 && |u| == |f| && NextOfShares(recv, u, f, starts, ranklist, done, size)
    ensures |recv| == |done| == |size| && RanksBelow(ranklist, |done|)
    ensures forall d :: 0 <= d < |starts| ==> done[ranklist[d]] + size[ranklist[d]] <= Count(starts, d, f)
  {
    forall d | 0 <= d < |starts| ensures |Share(starts, d, f, u)| == Count(starts, d, f) {
      ShareLength(starts, d, f, u);
    }
  }

  /** All rounds at a process. */
  method UnpackRounds(ub: array<Byte>, ft: FlatType, xs: seq<Extent>, recvs: seq<seq<seq<Byte>>>, nprocs: nat,
                      starts: seq<int>, ends: seq<int>, ranklist: seq<nat>, ghost lo: int, ghost hi: int,
                      ghost image: Image)
    requires Partition(starts, ends, lo, hi) && InRange(xs, lo, hi) && |ranklist| == |starts| > 0 && Distinct(ranklist)
    requires RanksBelow(ranklist, nprocs) && OnlyRanks(recvs, ranklist)
    requires SentByAll(recvs, xs, starts, ranklist, nprocs, image)
    requires Proper(ft) && Within(ft, |Flat(xs)|, ub.Length) && Injective(ft, |Flat(xs)|)
    modifies ub
    ensures Stream(ub[..], ft, |Flat(xs)|) == Bytes(image, Flat(xs))
    ensures forall a :: 0 <= a < ub.Length && Outside(ft, |Flat(xs)|, a) ==> ub[a] == old(ub[a])
  {
    hide Partition, InRange, Within, Injective, Proper, Addr, Outside, Flat, Delivered, HasRounds, SentByAll,
         OnlyRanks, Stream;
    ghost var f, was := Flat(xs), ub[..];
    ghost var u := Bytes(image, f);
    AllDelivered(recvs, xs, starts, ends, lo, hi, ranklist, nprocs, image);
    DeliveredWide(recvs, u, f, starts, ranklist, nprocs);
    var recd: seq<nat> := seq(nprocs, _ => 0);
    NoRounds(was, recvs, u, ft, f, starts, ranklist, nprocs, recd);
    for t := 0 to |recvs|
      invariant HasRounds(ub[..], was, recvs, u, ft, f, starts, ranklist, nprocs, t, recd)
    {
      recd := UnpackRound(ub, ft, xs, recvs, t, recd, nprocs, starts, ends, ranklist, lo, hi, u, was);
    }
    AllRounds(ub[..], was, recvs, u, ft, f, starts, ranklist, nprocs, recd);
  }

  lemma DeliveredWide(recvs: seq<seq<seq<Byte>>>, u: seq<Byte>, f: seq<int>, starts: seq<int>, ranklist: seq<nat>,
                      nprocs: nat)
    requires |ranklist| == |starts| > 0 && |u| == |f| && RanksBelow(ranklist, nprocs)
    requires Delivered(recvs, u, f, starts, ranklist, nprocs)
    ensures Wide(recvs, nprocs)
  {
  }

  lemma NoRounds(was: seq<Byte>, recvs: seq<seq<seq<Byte>>>, u: seq<Byte>, ft: FlatType, f: seq<int>,
                 starts: seq<int>, ranklist: seq<nat>, nprocs: nat, recd: seq<nat>)
    requires |ranklist| == |starts| > 0 && RanksBelow(ranklist, nprocs) && |u| == |f| && Wide(recvs, nprocs)
    requires Proper(ft) && Within(ft, |f|, |was|) && |recd| == nprocs && forall p :: 0 <= p < nprocs ==> recd[p] == 0
    ensures HasRounds(was, was, recvs, u, ft, f, starts, ranklist, nprocs, 0, recd)
  {
    RestoredNone(was, u, ft, f, starts, ranklist, recd);
  }

  lemma AllRounds(now: seq<Byte>, was: seq<Byte>, recvs: seq<seq<seq<Byte>>>, u: seq<Byte>, ft: FlatType,
                  f: seq<int>, starts: seq<int>, ranklist: seq<nat>, nprocs: nat, recd: seq<nat>)
    requires |ranklist| == |starts| > 0 && RanksBelow(ranklist, nprocs) && |u| == |f|
    requires Delivered(recvs, u, f, starts, ranklist, nprocs)
    requires Proper(ft) && Within(ft, |f|, |was|)
    requires HasRounds(now, was, recvs, u, ft, f, starts, ranklist, nprocs, |recvs|, recd)
    ensures |now| == |was| && Stream(now, ft, |f|) == u
    ensures forall a :: 0 <= a < |was| && Outside(ft, |f|, a) ==> now[a] == was[a]
  {
    hide Share, Joined, Moved, Restored, Within, Proper, Addr, Outside, Count, Delivered;
    DeliveredWide(recvs, u, f, starts, ranklist, nprocs);
    forall d | 0 <= d < |starts| ensures recd[ranklist[d]] == Count(starts, d, f) {
      DeliveredTotal(recvs, u, f, starts, ranklist, nprocs, d);
    }
    RestoredFull(now, was, u, ft, f, starts, ranklist, recd);
  }

  // ---------- The exchange of a round, for all rounds ----------

  /** What process i gets in round t. */
  method Route(sends: seq<seq<seq<seq<Byte>>>>, ranklist: seq<nat>, nprocs: nat, i: nat,
               t: nat) returns (recv: seq<seq<Byte>>)
    requires |sends| == |ranklist| && Distinct(ranklist) && RanksBelow(ranklist, nprocs) && i < nprocs
    requires AllWide(sends, nprocs)
    ensures recv == Arrive(sends, ranklist, nprocs, i, t)
  {
    recv := seq(nprocs, _ => []);
    for d := 0 to |ranklist|
      invariant |recv| == nprocs
      invariant forall e :: 0 <= e < d ==> recv[ranklist[e]] == Portion(sends[e], nprocs, i, t)
      invariant forall p :: 0 <= p < nprocs && p !in ranklist[..d] ==> recv[p] == []
    {
      assert Wide(sends[d], nprocs);
      recv := recv[ranklist[d] := if t < |sends[d]| then sends[d][t][i] else []];
      assert ranklist[..d + 1] == ranklist[..d] + [ranklist[d]];
    }
    assert ranklist[..|ranklist|] == ranklist;
    ghost var goal := Arrive(sends, ranklist, nprocs, i, t);
    forall p | 0 <= p < nprocs ensures recv[p] == goal[p] {
      if p in ranklist { assert ranklist[DomainOf(ranklist, p)] == p; }
    }
  }

  method RouteAll(sends: seq<seq<seq<seq<Byte>>>>, ranklist: seq<nat>, nprocs: nat, i: nat, rounds: nat)
    returns (recvs: seq<seq<seq<Byte>>>)
    requires |sends| == |ranklist| && Distinct(ranklist) && RanksBelow(ranklist, nprocs) && i < nprocs
    requires AllWide(sends, nprocs)
    ensures recvs == ArriveAll(sends, ranklist, nprocs, i, rounds) && OnlyRanks(recvs, ranklist)
  {
    recvs := [];
    for t := 0 to rounds
      invariant |recvs| == t && forall k :: 0 <= k < t ==> recvs[k] == Arrive(sends, ranklist, nprocs, i, k)
    {
      var recv := Route(sends, ranklist, nprocs, i, t);
      recvs := recvs + [recv];
    }
  }

  // ---------- The whole read ----------

  /** Every process's accesses are sorted and in range. */
  ghost predicate ReadLawful(access: seq<seq<Extent>>, starts: seq<int>, ends: seq<int>, lo: int, hi: int,
                             ranklist: seq<nat>) {
    && Partition(starts, ends, lo, hi) && 0 <= lo && |ranklist| == |starts| && Distinct(ranklist)
    && RanksBelow(ranklist, |access|)
    && forall i :: 0 <= i < |access| ==> Sorted(access[i]) && InRange(access[i], lo, hi)
  }

  /** others_req of the aggregator of domain d. */
  ghost predicate OthersReq(reqs: seq<seq<Extent>>, access: seq<seq<Extent>>, starts: seq<int>, ranklist: seq<nat>,
                            d: nat)
    requires |ranklist| == |starts| > 0 && d < |ranklist|
  {
    && |reqs| == |access|
    && forall i :: 0 <= i < |reqs| ==> reqs[i] == Mine(SplitAll(starts, access[i]), ranklist, ranklist[d])
  }

  /** my_req of every process. */
  method SplitAccesses(access: seq<seq<Extent>>, starts: seq<int>, ends: seq<int>, ranklist: seq<nat>, ghost lo: int,
                       ghost hi: int)
    returns (myReq: seq<seq<seq<Extent>>>)
    requires ReadLawful(access, starts, ends, lo, hi, ranklist) && |starts| > 0
    ensures |myReq| == |access|
    ensures forall i :: 0 <= i < |myReq| ==> |myReq[i]| == |access|
    ensures forall i, r :: 0 <= i < |myReq| && 0 <= r < |access| ==>
               myReq[i][r] == Mine(SplitAll(starts, access[i]), ranklist, r)
  {
    hide Partition, Mine, SplitAll, Sorted, InRange;
    myReq := [];
    for i := 0 to |access|
      invariant |myReq| == i && forall j :: 0 <= j < i ==> |myReq[j]| == |access|
      invariant forall j, r :: 0 <= j < i && 0 <= r < |access| ==>
                 myReq[j][r] == Mine(SplitAll(starts, access[j]), ranklist, r)
    {
      var reqs, _ := CalcMyReq(access[i], starts, ends, ranklist, |access|, lo, hi);
      var mine := [];
      for r := 0 to |reqs|
        invariant |mine| == r && forall q :: 0 <= q < r ==> mine[q] == Mine(SplitAll(starts, access[i]), ranklist, q)
      {
        mine := mine + [reqs[r][..]];
      }
      myReq := myReq + [mine];
    }
  }

  /** The transpose: what rank r is asked by all processes. */
  method Transpose(myReq: seq<seq<seq<Extent>>>, r: nat) returns (reqs: seq<seq<Extent>>)
    requires forall i :: 0 <= i < |myReq| ==> r < |myReq[i]|
    ensures |reqs| == |myReq| && forall i :: 0 <= i < |reqs| ==> reqs[i] == myReq[i][r]
  {
    reqs := seq(|myReq|, i requires 0 <= i < |myReq| => myReq[i][r]);
  }

  lemma OthersReqLawful(reqs: seq<seq<Extent>>, access: seq<seq<Extent>>, starts: seq<int>, ends: seq<int>, lo: int,
                        hi: int, ranklist: seq<nat>, d: nat)
    requires ReadLawful(access, starts, ends, lo, hi, ranklist) && d < |ranklist|
    requires OthersReq(reqs, access, starts, ranklist, d)
    ensures NonNegative(reqs) && forall i :: 0 <= i < |reqs| ==> Sorted(reqs[i]) && Positive(reqs[i])
  {
    hide Partition, Mine, SplitAll, Sorted, InRange, Positive;
    forall i | 0 <= i < |reqs|
      ensures Sorted(reqs[i]) && Positive(reqs[i]) && forall j :: 0 <= j < |reqs[i]| ==> reqs[i][j].off >= 0
    {
      ReadRequestsSorted(starts, ends, lo, hi, access[i], ranklist, d);
    }
  }

  method NewAskers(reqs: seq<seq<Extent>>) returns (askers: seq<Asker>)
    ensures |askers| == |reqs| && Distinct(askers)
    ensures forall i :: 0 <= i < |askers| ==>
              fresh(askers[i]) && askers[i].orig == askers[i].reqs == reqs[i] && |askers[i].mem| == |reqs[i]| &&
              askers[i].ptr == askers[i].partial == 0
  {
    askers := [];
    for i := 0 to |reqs|
      invariant |askers| == i && Distinct(askers)
      invariant forall j :: 0 <= j < i ==>
                  fresh(askers[j]) && askers[j].orig == askers[j].reqs == reqs[j] && |askers[j].mem| == |reqs[j]| &&
                  askers[j].ptr == askers[j].partial == 0
    {
      var a := new Asker(reqs[i]);
      askers := askers + [a];
    }
  }

  /** One aggregator, from its requests to its messages. */
  method Aggregate(reqs: seq<seq<Extent>>, cb: nat, disk: Disk) returns (sends: seq<seq<seq<Byte>>>)
    requires cb > 0 && NonNegative(reqs) && forall i :: 0 <= i < |reqs| ==> Sorted(reqs[i]) && Positive(reqs[i])
    ensures Wide(sends, |reqs|) && forall i :: 0 <= i < |reqs| ==> Joined(sends, i) == Bytes(disk.image, Flat(reqs[i]))
  {
    var askers := NewAskers(reqs);
    var ioBuf := new Byte[cb];
    sends := ReadAndExch(askers, reqs, cb, ioBuf, disk);
  }

  /** What aggregator d's messages are, in terms of the accesses. */
  ghost predicate SendsOfDomain(sent: seq<seq<seq<Byte>>>, access: seq<seq<Extent>>, starts: seq<int>,
                                ranklist: seq<nat>, image: Image, d: nat)
    requires |ranklist| == |starts| > 0 && d < |ranklist|
  {
    && Wide(sent, |access|)
    && forall i :: 0 <= i < |access| ==>
         Joined(sent, i) == Bytes(image, Flat(Mine(SplitAll(starts, access[i]), ranklist, ranklist[d])))
  }

  /** All aggregators. */
  method AggregateAll(access: seq<seq<Extent>>, starts: seq<int>, ends: seq<int>, ranklist: seq<nat>, cb: nat,
                      disk: Disk, ghost lo: int, ghost hi: int)
    returns (sends: seq<seq<seq<seq<Byte>>>>, rounds: nat)
    requires ReadLawful(access, starts, ends, lo, hi, ranklist) && |starts| > 0 && cb > 0
    ensures |sends| == |ranklist|
    ensures forall d :: 0 <= d < |sends| ==>
              SendsOfDomain(sends[d], access, starts, ranklist, disk.image, d) && |sends[d]| <= rounds
  {
    hide Partition, Mine, SplitAll, Sorted, InRange, Flat, Joined, Wide, Positive, NonNegative;
    var myReq := SplitAccesses(access, starts, ends, ranklist, lo, hi);
    sends, rounds := [], 0;
    for d := 0 to |ranklist|
      invariant |sends| == d
      invariant forall e :: 0 <= e < d ==>
                  SendsOfDomain(sends[e], access, starts, ranklist, disk.image, e) && |sends[e]| <= rounds
    {
      var reqs := Transpose(myReq, ranklist[d]);
      OthersReqLawful(reqs, access, starts, ends, lo, hi, ranklist, d);
      var sent := Aggregate(reqs, cb, disk);
      sends := sends + [sent];
      rounds := if rounds <= |sent| then |sent| else rounds;
    }
  }

  /** Process i's buffer, its type, and its accesses fit. */
  ghost predicate BufferFits(size: nat, ft: FlatType, xs: seq<Extent>) {
    Proper(ft) && Within(ft, |Flat(xs)|, size) && Injective(ft, |Flat(xs)|)
  }

  /** The buffer holds, in order, the file's bytes at the accesses; the rest of it is as
      before. */
  ghost predicate ReadInto(now: seq<Byte>, was: seq<Byte>, ft: FlatType, xs: seq<Extent>, image: Image) {
    && |now| == |was| && BufferFits(|was|, ft, xs)
    && Stream(now, ft, |Flat(xs)|) == Bytes(image, Flat(xs))
    && forall a :: 0 <= a < |was| && Outside(ft, |Flat(xs)|, a) ==> now[a] == was[a]
  }

  lemma ArriveSent(sends: seq<seq<seq<seq<Byte>>>>, rounds: nat, access: seq<seq<Extent>>, starts: seq<int>,
                   ranklist: seq<nat>, image: Image, i: nat)
    requires |sends| == |ranklist| == |starts| > 0 && Distinct(ranklist) && RanksBelow(ranklist, |access|)
    requires i < |access|
    requires forall d :: 0 <= d < |sends| ==>
               SendsOfDomain(sends[d], access, starts, ranklist, image, d) && |sends[d]| <= rounds
    ensures AllWide(sends, |access|)
    ensures SentByAll(ArriveAll(sends, ranklist, |access|, i, rounds), access[i], starts, ranklist, |access|, image)
  {
    hide Mine, SplitAll, Flat, Joined;
    var nprocs := |access|;
    assert AllWide(sends, nprocs);
    var recvs := ArriveAll(sends, ranklist, nprocs, i, rounds);
    forall d | 0 <= d < |starts|
      ensures Joined(recvs, ranklist[d]) == Bytes(image, Flat(Mine(SplitAll(starts, access[i]), ranklist, ranklist[d])))
    {
      assert SendsOfDomain(sends[d], access, starts, ranklist, image, d);
      ArriveJoined(sends, ranklist, nprocs, i, rounds, rounds, d);
      assert sends[d][..|sends[d]|] == sends[d] && recvs[..rounds] == recvs;
    }
  }

  /** One process, from the aggregators' messages to its buffer. */
  method ProcessRead(ub: array<Byte>, ft: FlatType, access: seq<seq<Extent>>, i: nat,
                     sends: seq<seq<seq<seq<Byte>>>>, rounds: nat, starts: seq<int>, ends: seq<int>,
                     ranklist: seq<nat>, ghost lo: int, ghost hi: int, ghost image: Image)
    requires ReadLawful(access, starts, ends, lo, hi, ranklist) && |sends| == |starts| > 0 && i < |access|
    requires forall d :: 0 <= d < |sends| ==>
               SendsOfDomain(sends[d], access, starts, ranklist, image, d) && |sends[d]| <= rounds
    requires BufferFits(ub.Length, ft, access[i])
    modifies ub
    ensures ReadInto(ub[..], old(ub[..]), ft, access[i], image)
  {
    hide Partition, Mine, SplitAll, Sorted, InRange, Flat, Joined, Stream, SendsOfDomain, Proper, Within, Injective,
         Outside;
    hide SentByAll, OnlyRanks;
    ArriveSent(sends, rounds, access, starts, ranklist, image, i);
    var recvs := RouteAll(sends, ranklist, |access|, i, rounds);
    UnpackRounds(ub, ft, access[i], recvs, |access|, starts, ends, ranklist, lo, hi, image);
  }

  /** After the whole collective read every process has its file bytes in its buffer. */
  method ReadStridedColl(access: seq<seq<Extent>>, ubs: seq<array<Byte>>, fts: seq<FlatType>, starts: seq<int>,
                         ends: seq<int>, ranklist: seq<nat>, cb: nat, disk: Disk, ghost lo: int, ghost hi: int)
    requires ReadLawful(access, starts, ends, lo, hi, ranklist) && cb > 0
    requires |ubs| == |fts| == |access| && Distinct(ubs)
    requires forall i :: 0 <= i < |access| ==> BufferFits(ubs[i].Length, fts[i], access[i])
    modifies ubs
    ensures forall i :: 0 <= i < |access| ==> ReadInto(ubs[i][..], old(ubs[i][..]), fts[i], access[i], disk.image)
  {
    hide Partition, Sorted, InRange, SendsOfDomain, BufferFits, ReadInto;
    LawfulSome(access, starts, ends, lo, hi, ranklist);
    var sends, rounds := AggregateAll(access, starts, ends, ranklist, cb, disk, lo, hi);
    for i := 0 to |access|
      invariant forall j :: 0 <= j < i ==> ReadInto(ubs[j][..], old(ubs[j][..]), fts[j], access[j], disk.image)
      invariant forall j :: i <= j < |access| ==> ubs[j][..] == old(ubs[j][..])
    {
      ProcessRead(ubs[i], fts[i], access, i, sends, rounds, starts, ends, ranklist, lo, hi, disk.image);
    }
  }

  lemma LawfulSome(access: seq<seq<Extent>>, starts: seq<int>, ends: seq<int>, lo: int, hi: int, ranklist: seq<nat>)
    requires ReadLawful(access, starts, ends, lo, hi, ranklist)
    ensures |starts| > 0
  {
  }
}
