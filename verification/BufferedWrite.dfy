/**
 A collective write from the user buffers on: what a process packs for an aggregator in
 round k is what that aggregator receives in its window k, so the file ends up with the
 data bytes of the user buffers.
 */
module BufferedWrite {
  import opened Sequences
  import opened Extents
  import opened Domains
  import opened Shares
  import opened Requests
  import opened FlatTypes
  import opened Packing
  import opened Rounds
  import opened WriteRun
  import opened WriteSystem
  import opened CollectiveWrite

  /** Every process's data are the data bytes of its user buffer. */
  ghost predicate FromBuffers(v: Call, ubs: seq<seq<Byte>>, fts: seq<FlatType>) {
    && |ubs| == |fts| == |v.access| == |v.data|
    && forall i :: 0 <= i < |ubs| ==> FromBuffer(v.access[i], v.data[i], ubs[i], fts[i])
  }

  ghost predicate FromBuffer(xs: seq<Extent>, data: seq<Byte>, ub: seq<Byte>, ft: FlatType) {
    Proper(ft) && Within(ft, |Flat(xs)|, |ub|) && data == Stream(ub, ft, |Flat(xs)|)
  }

  /** How many bytes aggregator c asks of process i in round k (its recv_size[i]); none
      once it is done. */
  ghost function Asked(c: Job, k: nat, i: nat): nat
    requires Sound(c) && i < |c.origs|
  {
    if k < NRounds(c) then |Received(c, k)[i]| else 0
  }

  /** How many bytes process i has sent aggregator c before round k (sent_to_proc). */
  ghost function SentBefore(c: Job, k: nat, i: nat): nat
    requires i < |c.origs|
  {
    Below(c.origs[i], Lo(c, k))
  }

  /** The next bytes of the share, as many as asked for, are what window k receives. */
  lemma {:induction false} NextIsReceived(v: Call, d: nat, c: Job, k: nat, i: nat)
    requires Lawful(v) && d < |v.starts| && JobOf(v, d, c) && Sound(c) && i < |v.access|
    ensures SentBefore(c, k, i) + Asked(c, k, i) == SentBefore(c, k + 1, i) <= |Load(v, d, i)|
    ensures k < NRounds(c) ==> Load(v, d, i)[SentBefore(c, k, i)..SentBefore(c, k + 1, i)] == Received(c, k)[i]
  {
    hide Flat, Clip, Below, Lawful, Load, Req, Requested, Covers;
    ReqFacts(v, d, i);
    if k < NRounds(c) {
      WinSize(c, k);
      ClipIsSlice(c.origs[i], Lo(c, k), Hi(c, k));
      assert Hi(c, k) == Lo(c, k + 1);
      assert Received(c, k)[i] == Slice(c.origs[i], c.data[i], Lo(c, k), Hi(c, k));
    } else {
      AtEnd(c, k);
      AtEnd(c, k + 1);
      BelowAll(c.origs[i], Lo(c, k));
    }
  }

  lemma AtEnd(c: Job, k: nat)
    requires c.cb > 0 && k >= NRounds(c)
    ensures Lo(c, k) == c.st + c.total
  {
    CoversAll(c.total, c.cb);
    MulStep(NRounds(c), k, c.cb);
  }

  lemma NothingBefore(c: Job, i: nat)
    requires Sound(c) && i < |c.origs|
    ensures SentBefore(c, 0, i) == 0
  {
    forall j | 0 <= j < |c.origs[i]| ensures Lo(c, 0) <= c.origs[i][j].off { EndsRequested(c.origs, i, j); }
    BelowAll(c.origs[i], Lo(c, 0));
  }

  /** The sizes process i learns in round k: what each aggregator asks of it. */
  ghost predicate SizesFor(size: seq<nat>, v: Call, cs: seq<Job>, i: nat, k: nat)
    requires Lawful(v) && JobsOf(v, cs) && AllSound(cs) && i < |v.access| && RanksBelow(v.ranklist, |size|)
  {
    && (forall p :: 0 <= p < |size| && p !in v.ranklist ==> size[p] == 0)
    && forall d :: 0 <= d < |cs| ==> size[v.ranklist[d]] == Asked(cs[d], k, i)
  }

  /** sent_to_proc before round k. */
  ghost predicate SentFor(sent: seq<nat>, v: Call, cs: seq<Job>, i: nat, k: nat)
    requires Lawful(v) && JobsOf(v, cs) && i < |v.access| && RanksBelow(v.ranklist, |sent|)
  {
    forall d :: 0 <= d < |cs| ==> i < |cs[d].origs| && sent[v.ranklist[d]] == SentBefore(cs[d], k, i)
  }

  /** What arrives at the aggregators from process i in round k. */
  ghost predicate SendsFor(send: seq<seq<Byte>>, v: Call, cs: seq<Job>, i: nat, k: nat)
    requires Lawful(v) && JobsOf(v, cs) && AllSound(cs) && i < |v.access| && RanksBelow(v.ranklist, |send|)
  {
    forall d :: 0 <= d < |cs| ==>
      |cs[d].origs| == |v.access| && send[v.ranklist[d]] == if k < NRounds(cs[d]) then Received(cs[d], k)[i] else []
  }

  /** Send buffers of the given sizes. */
  method NewBuffers(size: seq<nat>) returns (bufs: seq<array<Byte>>)
    ensures |bufs| == |size| && Distinct(bufs)
    ensures forall p :: 0 <= p < |bufs| ==> fresh(bufs[p]) && bufs[p].Length == size[p]
  {
    bufs := [];
    for p := 0 to |size|
      invariant |bufs| == p && Distinct(bufs)
      invariant forall q :: 0 <= q < p ==> fresh(bufs[q]) && bufs[q].Length == size[q]
    {
      var b := new Byte[size[p]];
      bufs := bufs + [b];
    }
  }

  method Contents(bufs: seq<array<Byte>>) returns (r: seq<seq<Byte>>)
    ensures |r| == |bufs| && forall p :: 0 <= p < |r| ==> r[p] == bufs[p][..]
  {
    r := [];
    for p := 0 to |bufs|
      invariant |r| == p && forall q :: 0 <= q < p ==> r[q] == bufs[q][..]
    {
      r := r + [bufs[p][..]];
    }
  }

  lemma AskedFits(v: Call, cs: seq<Job>, i: nat, k: nat, size: seq<nat>, sent: seq<nat>, d: nat)
    requires Lawful(v) && JobsOf(v, cs) && AllSound(cs) && i < |v.access| && d < |cs|
    requires |sent| == |size| && RanksBelow(v.ranklist, |size|) && SizesFor(size, v, cs, i, k)
    requires SentFor(sent, v, cs, i, k)
    ensures |v.data[i]| == |Flat(v.access[i])| && |cs[d].origs| == |v.access|
    ensures var p, share := v.ranklist[d], Share(v.starts, d, Flat(v.access[i]), v.data[i]);
      && sent[p] + size[p] == SentBefore(cs[d], k + 1, i) <= Count(v.starts, d, Flat(v.access[i])) == |share|
      && share[sent[p]..sent[p] + size[p]] == if k < NRounds(cs[d]) then Received(cs[d], k)[i] else []
  {
    hide Flat, Sound, SentBefore, NRounds, Received, Share, Count, Partition, Ordered, InRange;
    NextIsReceived(v, d, cs[d], k, i);
    ShareLength(v.starts, d, Flat(v.access[i]), v.data[i]);
  }

  lemma SendReady(v: Call, cs: seq<Job>, i: nat, k: nat, size: seq<nat>, sent: seq<nat>)
    requires Lawful(v) && JobsOf(v, cs) && AllSound(cs) && i < |v.access|
    requires |sent| == |size| && RanksBelow(v.ranklist, |size|) && SizesFor(size, v, cs, i, k)
    requires SentFor(sent, v, cs, i, k)
    ensures Partition(v.starts, v.ends, v.lo, v.hi) && InRange(v.access[i], v.lo, v.hi)
    ensures |v.ranklist| == |v.starts| > 0 && Distinct(v.ranklist)
    ensures forall p :: 0 <= p < |size| && p !in v.ranklist ==> size[p] == 0
    ensures forall d :: 0 <= d < |v.starts| ==>
              sent[v.ranklist[d]] + size[v.ranklist[d]] <= Count(v.starts, d, Flat(v.access[i]))
  {
    hide Flat, Sound, SentBefore, Share, Count, SentFor, JobOf;
    forall d | 0 <= d < |v.starts|
      ensures sent[v.ranklist[d]] + size[v.ranklist[d]] <= Count(v.starts, d, Flat(v.access[i]))
    {
      AskedFits(v, cs, i, k, size, sent, d);
    }
  }

  /** What packing promises, said in the aggregators' terms. */
  lemma SendDone(v: Call, cs: seq<Job>, i: nat, k: nat, size: seq<nat>, sent: seq<nat>, sent': seq<nat>,
                 send: seq<seq<Byte>>)
    requires Lawful(v) && JobsOf(v, cs) && AllSound(cs) && i < |v.access|
    requires |sent| == |size| && RanksBelow(v.ranklist, |size|) && SizesFor(size, v, cs, i, k)
    requires SentFor(sent, v, cs, i, k)
    requires |sent'| == |send| == |size| && forall p :: 0 <= p < |sent| ==> sent'[p] == sent[p] + size[p]
    requires |v.data[i]| == |Flat(v.access[i])|
    requires forall d :: 0 <= d < |v.starts| ==>
      var p, share := v.ranklist[d], Share(v.starts, d, Flat(v.access[i]), v.data[i]);
      sent[p] + size[p] <= |share| && send[p] == share[sent[p]..sent[p] + size[p]]
    ensures SendsFor(send, v, cs, i, k) && SentFor(sent', v, cs, i, k + 1)
  {
    hide Flat, SentBefore, NRounds, Received, Share, Count, Lawful, JobOf, Requested, Legal, Fits;
    LawfulSizes(v);
    forall d | 0 <= d < |cs|
      ensures |cs[d].origs| == |v.access| && sent'[v.ranklist[d]] == SentBefore(cs[d], k + 1, i)
      ensures send[v.ranklist[d]] == if k < NRounds(cs[d]) then Received(cs[d], k)[i] else []
    {
      AskedFits(v, cs, i, k, size, sent, d);
    }
  }

  lemma LawfulSizes(v: Call)
    requires Lawful(v)
    ensures |v.ranklist| == |v.starts| > 0
  {
  }

  /** One round of the sending side: the walk of ADIOI_Fill_send_buffer gives every
      aggregator just the bytes it receives for its window. */
  method SendRound(ub: array<Byte>, ft: FlatType, xs: seq<Extent>, size: seq<nat>, sent: seq<nat>, starts: seq<int>,
                   ends: seq<int>, ranklist: seq<nat>, ghost v: Call, ghost cs: seq<Job>, ghost i: nat, ghost k: nat)
    returns (send: seq<seq<Byte>>, sent': seq<nat>)
    requires Lawful(v) && JobsOf(v, cs) && AllSound(cs) && i < |v.access| && xs == v.access[i]
    requires starts == v.starts && ends == v.ends && ranklist == v.ranklist
    requires FromBuffer(xs, v.data[i], ub[..], ft)
    requires |sent| == |size| && RanksBelow(ranklist, |size|) && SizesFor(size, v, cs, i, k)
    requires SentFor(sent, v, cs, i, k)
    ensures |send| == |sent'| == |size| && SendsFor(send, v, cs, i, k) && SentFor(sent', v, cs, i, k + 1)
  {
    hide Flat, Sound, SentBefore, NRounds, Received, Share, Count, Partition, Ordered, InRange, Stream, Within, Proper;
    hide JobOf, SizesFor, SentFor;
    LawfulSizes(v);
    AskedFits(v, cs, i, k, size, sent, 0);
    var bufs := NewBuffers(size);
    SendReady(v, cs, i, k, size, sent);
    sent' := FillSendBuffer(ub, ft, bufs, xs, size, sent, starts, ends, ranklist, v.lo, v.hi);
    send := Contents(bufs);
    SendDone(v, cs, i, k, size, sent, sent', send);
  }

  /** All rounds of one process: over the whole call each aggregator gets from it, window
      by window, just what it receives. */
  method SendRounds(ub: array<Byte>, ft: FlatType, xs: seq<Extent>, sizes: seq<seq<nat>>, nprocs: nat,
                    starts: seq<int>, ends: seq<int>, ranklist: seq<nat>, ghost v: Call, ghost cs: seq<Job>,
                    ghost i: nat)
    returns (sends: seq<seq<seq<Byte>>>)
    requires Lawful(v) && JobsOf(v, cs) && AllSound(cs) && i < |v.access| && xs == v.access[i]
    requires starts == v.starts && ends == v.ends && ranklist == v.ranklist && RanksBelow(ranklist, nprocs)
    requires FromBuffer(xs, v.data[i], ub[..], ft)
    requires forall k :: 0 <= k < |sizes| ==> |sizes[k]| == nprocs && SizesFor(sizes[k], v, cs, i, k)
    ensures |sends| == |sizes|
    ensures forall k :: 0 <= k < |sends| ==> |sends[k]| == nprocs && SendsFor(sends[k], v, cs, i, k)
  {
    hide Lawful, JobsOf, AllSound, SizesFor, SendsFor, SentFor, FromBuffer;
    sends := [];
    var sent: seq<nat> := seq(nprocs, _ => 0);
    SentStart(v, cs, i, sent);
    for k := 0 to |sizes|
      invariant |sends| == k && |sent| == nprocs && SentFor(sent, v, cs, i, k)
      invariant forall j :: 0 <= j < k ==> |sends[j]| == nprocs && SendsFor(sends[j], v, cs, i, j)
    {
      var send;
      send, sent := SendRound(ub, ft, xs, sizes[k], sent, starts, ends, ranklist, v, cs, i, k);
      sends := sends + [send];
    }
  }

  lemma SentStart(v: Call, cs: seq<Job>, i: nat, sent: seq<nat>)
    requires Lawful(v) && JobsOf(v, cs) && AllSound(cs) && i < |v.access| && RanksBelow(v.ranklist, |sent|)
    requires forall p :: 0 <= p < |sent| ==> sent[p] == 0
    ensures SentFor(sent, v, cs, i, 0)
  {
    hide Sound, SentBefore, Lawful;
    LawfulSizes(v);
    forall d | 0 <= d < |cs| ensures i < |cs[d].origs| && SentBefore(cs[d], 0, i) == 0 {
      assert JobOf(v, d, cs[d]);
      NothingBefore(cs[d], i);
    }
  }

  /** The write from the user buffers: a byte that process i alone accesses, as its k-th,
      ends up with data byte k of its buffer. */
  lemma {:induction false} UserByteWritten(v: Call, ubs: seq<seq<Byte>>, fts: seq<FlatType>, cs: seq<Job>,
                                           run: seq<System>, i: nat, k: nat)
    requires Lawful(v) && FromBuffers(v, ubs, fts) && JobsOf(v, cs) && AllSound(cs) && Run(cs, run)
    requires AllDone(cs, run[|run| - 1]) && NoneLost(run[|run| - 1])
    requires i < |v.access| && k < |Flat(v.access[i])|
    requires forall j :: 0 <= j < |v.access| && j != i ==> Flat(v.access[i])[k] !in Flat(v.access[j])
    ensures Proper(fts[i]) && 0 <= Addr(fts[i], k) < |ubs[i]|
    ensures run[|run| - 1].image(Flat(v.access[i])[k]) == ubs[i][Addr(fts[i], k)]
  {
    hide Flat, Sound, Run, Proper, Addr, JobsOf, AllDone, Lawful;
    SoleWriter(v, cs, run, i, k);
    assert FromBuffer(v.access[i], v.data[i], ubs[i], fts[i]);
  }
}
