/**
 A whole collective write: the accesses of all processes, split along the file domains,
 handed to the aggregators and written window by window in any interleaving, have the
 effect of every process writing its own bytes directly.
 */
module CollectiveWrite {
  import opened Sequences
  import opened Extents
  import opened Domains
  import opened Shares
  import opened Requests
  import opened Holes
  import opened Rounds
  import opened WriteRun
  import opened WriteSystem

  /** A collective call: domains with the ranks that serve them, and for every process its
      access list and its data. */
  datatype Call = Call(starts: seq<int>, ends: seq<int>, lo: int, hi: int, ranklist: seq<nat>,
                       access: seq<seq<Extent>>, data: seq<seq<Byte>>)

  ghost predicate Lawful(v: Call) {
    && Partition(v.starts, v.ends, v.lo, v.hi) && |v.ranklist| == |v.starts| && Distinct(v.ranklist)
    && Fits(v.access, v.data)
    && forall i :: 0 <= i < |v.access| ==> Ordered(v.access[i]) && InRange(v.access[i], v.lo, v.hi)
  }

  /** What process i asks of the aggregator of domain d (my_req), and so, transposed,
      what that aggregator gets from process i (others_req). */
  ghost function Req(v: Call, d: nat, i: nat): seq<Extent>
    requires Lawful(v) && d < |v.starts| && i < |v.access|
  {
    Mine(SplitAll(v.starts, v.access[i]), v.ranklist, v.ranklist[d])
  }

  /** The bytes process i sends to that aggregator over all rounds. */
  ghost function Load(v: Call, d: nat, i: nat): seq<Byte>
    requires Lawful(v) && d < |v.starts| && i < |v.access|
  {
    Share(v.starts, d, Flat(v.access[i]), v.data[i])
  }

  /** From the first to the last requested byte; empty if there is none. */
  ghost predicate SpanOf(origs: seq<seq<Extent>>, st: int, total: nat) {
    && (forall x :: Requested(origs, x) ==> st <= x < st + total)
    && (total > 0 ==> Requested(origs, st) && Requested(origs, st + total - 1))
  }

  ghost predicate JobOf(v: Call, d: nat, c: Job)
    requires Lawful(v) && d < |v.starts|
  {
    && c.cb > 0 && SpanOf(c.origs, c.st, c.total)
    && |c.origs| == |c.data| == |v.access|
    && forall i :: 0 <= i < |v.access| ==> c.origs[i] == Req(v, d, i) && c.data[i] == Load(v, d, i)
  }

  ghost predicate JobsOf(v: Call, cs: seq<Job>)
    requires Lawful(v)
  {
    |cs| == |v.starts| && forall d :: 0 <= d < |cs| ==> JobOf(v, d, cs[d])
  }

  /** A request list is the process's accesses clipped to the domain, and it fits its data. */
  lemma ReqFacts(v: Call, d: nat, i: nat)
    requires Lawful(v) && d < |v.starts| && i < |v.access|
    ensures Req(v, d, i) == Clip(v.access[i], v.starts[d], v.ends[d] + 1)
    ensures Flat(Req(v, d, i)) == Share(v.starts, d, Flat(v.access[i]), Flat(v.access[i]))
    ensures Ordered(Req(v, d, i)) && Positive(Req(v, d, i)) && |Flat(Req(v, d, i))| == |Load(v, d, i)|
  {
    hide Clip, Share, Flat, Mine, SplitAll, Partition, In, Ordered, Positive, InRange;
    var xs := v.access[i];
    PartitionSize(v.starts, v.ends, v.lo, v.hi);
    MineIsIn(SplitAll(v.starts, xs), v.ranklist, d);
    SplitAllIsClip(v.starts, v.ends, v.lo, v.hi, xs, d);
    SplitAllShare(v.starts, v.ends, v.lo, v.hi, xs, d);
    ClipOrdered(xs, v.starts[d], v.ends[d] + 1);
    ClipPositive(xs, v.starts[d], v.ends[d] + 1);
    ShareLength(v.starts, d, Flat(xs), Flat(xs));
    ShareLength(v.starts, d, Flat(xs), v.data[i]);
  }

  lemma JobSound(v: Call, d: nat, c: Job)
    requires Lawful(v) && d < |v.starts| && JobOf(v, d, c)
    ensures Sound(c)
  {
    hide Lawful, Req, Load, Requested;
    forall i | 0 <= i < |c.origs|
      ensures Ordered(c.origs[i]) && Positive(c.origs[i]) && |Flat(c.origs[i])| == |c.data[i]|
    {
      ReqFacts(v, d, i);
    }
  }

  lemma PartitionSize(starts: seq<int>, ends: seq<int>, lo: int, hi: int)
    requires Partition(starts, ends, lo, hi)
    ensures |starts| == |ends| > 0
  {
  }

  lemma ClipPositive(xs: seq<Extent>, lo: int, hi: int)
    ensures Positive(Clip(xs, lo, hi))
  {
    ClipInside(xs, lo, hi);
  }

  /** What is requested at domain d is what is requested at all and owned by d. */
  lemma {:induction false} RequestedAt(v: Call, d: nat, c: Job, x: int)
    requires Lawful(v) && d < |v.starts| && JobOf(v, d, c)
    ensures Requested(c.origs, x) <==> Requested(v.access, x) && Owner(v.starts, x) == d
  {
    hide Clip, Share, Flat, Partition, Owner, Lawful, Ordered, Positive, Req, Load, SpanOf, Touches;
    forall i | 0 <= i < |v.access|
      ensures Touches(c.origs[i], x) <==> Touches(v.access[i], x) && Owner(v.starts, x) == d
    {
      TouchesAt(v, d, i, x);
    }
    if Requested(v.access, x) {
      var i :| 0 <= i < |v.access| && Touches(v.access[i], x);
      assert Touches(c.origs[i], x) <==> Owner(v.starts, x) == d;
    }
    if Requested(c.origs, x) {
      var i :| 0 <= i < |c.origs| && Touches(c.origs[i], x);
      assert Touches(v.access[i], x);
    }
  }

  lemma TouchesAt(v: Call, d: nat, i: nat, x: int)
    requires Lawful(v) && d < |v.starts| && i < |v.access|
    ensures Touches(Req(v, d, i), x) <==> Touches(v.access[i], x) && Owner(v.starts, x) == d
    ensures Touches(v.access[i], x) ==> v.lo <= x <= v.hi
  {
    hide Clip, Share, Flat, Owner, Req;
    ReqFacts(v, d, i);
    if v.starts[d] <= x <= v.ends[d] {
      ClipTouches(v.access[i], v.starts[d], v.ends[d] + 1, x);
    } else {
      ClipInside(v.access[i], v.starts[d], v.ends[d] + 1);
    }
    if Touches(v.access[i], x) { OwnerUnique(v.starts, v.ends, v.lo, v.hi, x, d); }
  }

  /** An aggregator's span lies in its domain. */
  lemma {:induction false} SpanOwned(v: Call, d: nat, c: Job, x: int)
    requires Lawful(v) && d < |v.starts| && JobOf(v, d, c) && InSpan(c, x)
    ensures v.lo <= x <= v.hi && Owner(v.starts, x) == d
  {
    hide Requested, Owner, Lawful, Req, Load;
    RequestedAt(v, d, c, c.st);
    RequestedAt(v, d, c, c.st + c.total - 1);
    RequestedRange(v, c.st);
    RequestedRange(v, c.st + c.total - 1);
    LawfulPartition(v);
    OwnerMonotone(v.starts, v.ends, v.lo, v.hi, c.st, x);
    OwnerMonotone(v.starts, v.ends, v.lo, v.hi, x, c.st + c.total - 1);
  }

  lemma LawfulPartition(v: Call)
    requires Lawful(v)
    ensures Partition(v.starts, v.ends, v.lo, v.hi)
  {
  }

  lemma RequestedRange(v: Call, x: int)
    requires Lawful(v) && Requested(v.access, x)
    ensures v.lo <= x <= v.hi
  {
    var i :| 0 <= i < |v.access| && Touches(v.access[i], x);
    TouchesAt(v, 0, i, x);
  }

  lemma JobsSound(v: Call, cs: seq<Job>)
    requires Lawful(v) && JobsOf(v, cs)
    ensures AllSound(cs) && SpansApart(cs)
  {
    hide Lawful, JobOf, Owner, Sound, InSpan;
    forall d | 0 <= d < |cs| ensures Sound(cs[d]) { JobSound(v, d, cs[d]); }
    forall q, r, x | 0 <= q < |cs| && 0 <= r < |cs| && InSpan(cs[q], x) && InSpan(cs[r], x) ensures q == r {
      SpanOwned(v, q, cs[q], x);
      SpanOwned(v, r, cs[r], x);
    }
  }

  /** At its own bytes an aggregator's goal is the direct write of all processes. */
  lemma {:induction false} GoalIsDirect(v: Call, d: nat, c: Job, init: Image, x: int)
    requires Lawful(v) && d < |v.starts| && JobOf(v, d, c) && Sound(c) && Owner(v.starts, x) == d
    ensures Goal(c, init, x) == Target(v.access, v.data, init(x), x)
  {
    hide Owner, SpanOf, Requested, Share, Clip, Ordered, Positive, Partition, InRange;
    forall i, w: Byte | 0 <= i < |v.access|
      ensures |Flat(c.origs[i])| == |c.data[i]|
      ensures Put(w, Flat(c.origs[i]), c.data[i], x) == Put(w, Flat(v.access[i]), v.data[i], x)
    {
      ReqFacts(v, d, i);
      PutShare(v.starts, d, Flat(v.access[i]), v.data[i], w, x);
    }
    PutAllSame(init(x), Flats(c.origs), c.data, Flats(v.access), v.data, x);
  }

  /** Is `x` in a window whose thread could not be created? */
  ghost predicate Dropped(cs: seq<Job>, s: System, x: int)
    requires |s.aggs| == |cs|
  {
    exists r, k: nat :: 0 <= r < |cs| && k in s.aggs[r].lost && InWin(cs[r], k, x)
  }

  ghost predicate AllDone(cs: seq<Job>, s: System) {
    |s.aggs| == |cs| && forall r :: 0 <= r < |cs| ==> s.aggs[r].phase == Trailing
  }

  /** The file after any run of all aggregators to their ends: as if every process had
      written its accesses directly, in rank order, except that windows whose thread could
      not be created keep their old contents. */
  lemma {:induction false} CollectiveWriteExact(v: Call, cs: seq<Job>, run: seq<System>, x: int)
    requires Lawful(v) && JobsOf(v, cs) && AllSound(cs) && Run(cs, run)
    requires AllDone(cs, run[|run| - 1])
    ensures run[|run| - 1].image(x) ==
            if Dropped(cs, run[|run| - 1], x) then run[0].image(x) else Target(v.access, v.data, run[0].image(x), x)
  {
    hide Owner, Sound, Goal, Target, InSpan, JobOf, InWin, Step, Lawful, AggOk;
    var i, init := |run| - 1, run[0].image;
    var s := run[i];
    JobsSound(v, cs);
    RunOk(cs, run, i);
    if r :| 0 <= r < |cs| && InSpan(cs[r], x) {
      SoundCb(cs[r]);
      InSpanBounds(cs[r], x);
      var k := SpanCovers(cs[r], x);
      WindowsWritten(cs, run, i, r, k, x);
      SpanOwned(v, r, cs[r], x);
      GoalIsDirect(v, r, cs[r], init, x);
      DroppedHere(cs, s, init, x, r, k);
    } else {
      Unwritten(v, cs, init, x);
      NotDropped(cs, s, init, x);
    }
  }

  lemma InSpanBounds(c: Job, x: int)
    requires InSpan(c, x)
    ensures c.st <= x < c.st + c.total
  {
  }

  /** A window of one aggregator is no window of another. */
  lemma DroppedHere(cs: seq<Job>, s: System, init: Image, x: int, r: nat, k: nat)
    requires AllSound(cs) && SpansApart(cs) && SystemOk(cs, s, init) && r < |cs| && k < NRounds(cs[r])
    requires InWin(cs[r], k, x)
    ensures Dropped(cs, s, x) <==> k in s.aggs[r].lost
  {
    hide Covers, Sound;
    SoundCb(cs[r]);
    if Dropped(cs, s, x) {
      var q, j: nat :| 0 <= q < |cs| && j in s.aggs[q].lost && InWin(cs[q], j, x);
      LostInSpan(cs, s, init, q, j, x);
      WinSize(cs[r], k);
      assert InSpan(cs[r], x);
      WinApart(cs[r], j, k, x);
    }
  }

  lemma LostInSpan(cs: seq<Job>, s: System, init: Image, r: nat, k: nat, x: int)
    requires AllSound(cs) && SystemOk(cs, s, init) && r < |cs| && k in s.aggs[r].lost && InWin(cs[r], k, x)
    ensures InSpan(cs[r], x)
  {
    hide Sound;
    SoundCb(cs[r]);
    assert AggOk(cs[r], s.aggs[r], s.image, init);
    WinSize(cs[r], k);
  }

  lemma NotDropped(cs: seq<Job>, s: System, init: Image, x: int)
    requires AllSound(cs) && SystemOk(cs, s, init) && forall r :: 0 <= r < |cs| ==> !InSpan(cs[r], x)
    ensures !Dropped(cs, s, x) && s.image(x) == init(x)
  {
    hide Sound, InSpan, AggOk, InWin;
    if Dropped(cs, s, x) {
      var q, j: nat :| 0 <= q < |cs| && j in s.aggs[q].lost && InWin(cs[q], j, x);
      LostInSpan(cs, s, init, q, j, x);
    }
  }

  /** Bytes in no aggregator's span are requested by nobody. */
  lemma Unwritten(v: Call, cs: seq<Job>, init: Image, x: int)
    requires Lawful(v) && JobsOf(v, cs) && forall r :: 0 <= r < |cs| ==> !InSpan(cs[r], x)
    ensures !Requested(v.access, x) && Target(v.access, v.data, init(x), x) == init(x)
  {
    hide Owner, Requested;
    var d := Owner(v.starts, x);
    RequestedAt(v, d, cs[d], x);
    assert !InSpan(cs[d], x);
    UnrequestedTarget(v.access, v.data, init(x), x);
  }

  ghost predicate NoneLost(s: System) {
    forall r :: 0 <= r < |s.aggs| ==> s.aggs[r].lost == {}
  }

  /** When all threads could be created: every byte is as after the direct writes, and a
      byte nobody asked for is unchanged, although whole windows are read and written back. */
  lemma {:induction false} CollectiveWriteIsDirect(v: Call, cs: seq<Job>, run: seq<System>, x: int)
    requires Lawful(v) && JobsOf(v, cs) && AllSound(cs) && Run(cs, run)
    requires AllDone(cs, run[|run| - 1]) && NoneLost(run[|run| - 1])
    ensures run[|run| - 1].image(x) == Target(v.access, v.data, run[0].image(x), x)
    ensures !Requested(v.access, x) ==> run[|run| - 1].image(x) == run[0].image(x)
  {
    hide Owner, Sound, Goal, InSpan, JobOf, InWin, Step, AggOk, Partition, Ordered, InRange;
    CollectiveWriteExact(v, cs, run, x);
    if !Requested(v.access, x) { UnrequestedTarget(v.access, v.data, run[0].image(x), x); }
  }

  /** A byte that one process alone asked for ends up with that process's data. */
  lemma {:induction false} SoleWriter(v: Call, cs: seq<Job>, run: seq<System>, i: nat, k: nat)
    requires Lawful(v) && JobsOf(v, cs) && AllSound(cs) && Run(cs, run)
    requires AllDone(cs, run[|run| - 1]) && NoneLost(run[|run| - 1])
    requires i < |v.access| && k < |Flat(v.access[i])|
    requires forall j :: 0 <= j < |v.access| && j != i ==> Flat(v.access[i])[k] !in Flat(v.access[j])
    ensures run[|run| - 1].image(Flat(v.access[i])[k]) == v.data[i][k]
  {
    hide Owner, Sound, Goal, InSpan, JobOf, InWin, Step, AggOk, AllDone, Partition, Ordered, InRange;
    var x := Flat(v.access[i])[k];
    CollectiveWriteIsDirect(v, cs, run, x);
    FlatIncreasing(v.access[i]);
    PutAllSole(run[0].image(x), Flats(v.access), v.data, i, k);
  }

  // ---------- The transpose ----------

  lemma OneMoreOccurrence(p: seq<int>, y: int, offs: seq<int>, x: int)
    requires |offs| == |p| + 1 && offs[..|p|] == p && offs[|p|] == y
    ensures multiset(offs)[x] == multiset(p)[x] + if x == y then 1 else 0
  {
    assert offs == p + [y];
  }

  lemma {:induction false} ShareOccurrences(starts: seq<int>, d: nat, offs: seq<int>, x: int)
    requires |starts| > 0
    ensures multiset(Share(starts, d, offs, offs))[x] == if Owner(starts, x) == d then multiset(offs)[x] else 0
  {
    hide Owner;
    if offs == [] {
    } else {
      var n := |offs| - 1;
      var p, y := offs[..n], offs[n];
      ShareOccurrences(starts, d, p, x);
      OneMoreOccurrence(p, y, offs, x);
      var sh, more := Share(starts, d, p, p), if Owner(starts, y) == d then [y] else [];
      assert Share(starts, d, offs, offs) == sh + more;
    }
  }

  /** After the transpose every requested byte of every process is held exactly once: by
      the aggregator of its domain, as often as the process asked for it, and by no other. */
  lemma {:induction false} HeldExactlyOnce(v: Call, d: nat, i: nat, x: int)
    requires Lawful(v) && d < |v.starts| && i < |v.access|
    ensures multiset(Flat(Req(v, d, i)))[x] == if Owner(v.starts, x) == d then multiset(Flat(v.access[i]))[x] else 0
  {
    ReqFacts(v, d, i);
    ShareOccurrences(v.starts, d, Flat(v.access[i]), x);
  }
}
