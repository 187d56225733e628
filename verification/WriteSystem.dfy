/**
 Runs of all aggregators together: safety in every reachable state, what the file holds
 at the end, and that every run gets there.
 */
module WriteSystem {
  import opened Extents
  import opened Rounds
  import opened WriteRun

  datatype System = System(aggs: seq<Agg>, image: Image)

  ghost predicate AllSound(cs: seq<Job>) {
    forall r :: 0 <= r < |cs| ==> Sound(cs[r])
  }

  ghost predicate InSpan(c: Job, x: int) { c.st <= x < c.st + c.total }

  /** Different aggregators serve different bytes. */
  ghost predicate SpansApart(cs: seq<Job>) {
    forall q, r, x :: 0 <= q < |cs| && 0 <= r < |cs| && InSpan(cs[q], x) && InSpan(cs[r], x) ==> q == r
  }

  ghost predicate Begins(cs: seq<Job>, s: System) {
    |s.aggs| == |cs| && forall r :: 0 <= r < |cs| ==> Start(cs[r], s.aggs[r])
  }

  /** One aggregator, or its thread, does one step; the others stand still. */
  ghost predicate StepOf(cs: seq<Job>, s: System, s': System, r: nat)
    requires AllSound(cs)
  {
    && r < |cs| == |s.aggs| == |s'.aggs|
    && s'.aggs == s.aggs[r := s'.aggs[r]]
    && AggStep(cs[r], s.aggs[r], s.image, s'.aggs[r], s'.image)
  }

  ghost predicate Step(cs: seq<Job>, s: System, s': System)
    requires AllSound(cs)
  {
    exists r: nat :: StepOf(cs, s, s', r)
  }

  ghost predicate Run(cs: seq<Job>, run: seq<System>)
    requires AllSound(cs)
  {
    && run != [] && Begins(cs, run[0])
    && forall i :: 0 <= i < |run| - 1 ==> Step(cs, run[i], run[i + 1])
  }

  ghost predicate SystemOk(cs: seq<Job>, s: System, init: Image)
    requires AllSound(cs)
  {
    && |s.aggs| == |cs|
    && (forall r :: 0 <= r < |cs| ==> AggOk(cs[r], s.aggs[r], s.image, init))
    && forall x :: (forall r :: 0 <= r < |cs| ==> !InSpan(cs[r], x)) ==> s.image(x) == init(x)
  }

  /** What another aggregator does outside our span does not concern us. */
  lemma Elsewhere(c: Job, a: Agg, image: Image, image': Image, init: Image)
    requires Sound(c) && AggOk(c, a, image, init)
    requires forall x :: InSpan(c, x) ==> image'(x) == image(x)
    ensures AggOk(c, a, image', init)
  {
    forall k: nat, x | k < NRounds(c) && InWin(c, k, x) ensures image'(x) == Expected(c, a, init, k, x) {
      WinSize(c, k);
      assert InSpan(c, x);
      assert image(x) == Expected(c, a, init, k, x);
    }
  }

  lemma SystemStepOk(cs: seq<Job>, s: System, s': System, init: Image, r: nat)
    requires AllSound(cs) && SpansApart(cs) && SystemOk(cs, s, init) && StepOf(cs, s, s', r)
    ensures SystemOk(cs, s', init)
  {
    hide AggOk, AggStep, Sound, InSpan;
    AggStepOk(cs[r], s.aggs[r], s.image, init, s'.aggs[r], s'.image);
    forall x | !InSpan(cs[r], x) ensures s'.image(x) == s.image(x) {
      OutOfSpan(cs[r], x);
      StepInside(cs[r], s.aggs[r], s.image, init, s'.aggs[r], s'.image, x);
    }
    forall q | 0 <= q < |cs| && q != r ensures AggOk(cs[q], s'.aggs[q], s'.image, init) {
      Elsewhere(cs[q], s.aggs[q], s.image, s'.image, init);
    }
  }

  lemma OutOfSpan(c: Job, x: int)
    requires !InSpan(c, x)
    ensures x < c.st || c.st + c.total <= x
  {
  }

  /** In every state of every run, everything is in order. */
  lemma {:induction false} RunOk(cs: seq<Job>, run: seq<System>, i: nat)
    requires AllSound(cs) && SpansApart(cs) && Run(cs, run) && i < |run|
    ensures SystemOk(cs, run[i], run[0].image)
  {
    hide AggOk, AggStep, Sound, SpansApart;
    if i == 0 {
      forall r | 0 <= r < |cs| ensures AggOk(cs[r], run[0].aggs[r], run[0].image, run[0].image) {
        StartOk(cs[r], run[0].aggs[r], run[0].image);
      }
    } else {
      var j := i - 1;
      RunOk(cs, run, j);
      assert i == j + 1 && Step(cs, run[j], run[j + 1]);
      var r: nat :| StepOf(cs, run[j], run[j + 1], r);
      SystemStepOk(cs, run[j], run[i], run[0].image, r);
    }
  }

  /** Safety of the background writer, in every state of every run: at most one write is
      in flight per aggregator; its half of the buffer is not the one being filled; its
      window is an earlier one, so a pre-read of the current window never meets it; all
      windows before it are complete (or lost) and all bytes after it untouched. */
  lemma {:induction false} WriterSafe(cs: seq<Job>, run: seq<System>, i: nat, r: nat)
    requires AllSound(cs) && SpansApart(cs) && Run(cs, run) && i < |run| && r < |cs|
    ensures |run[i].aggs| == |cs| && |run[i].aggs[r].threads| <= 1
    ensures var a, c, init := run[i].aggs[r], cs[r], run[0].image;
      a.threads != [] ==>
        var w := a.threads[0];
        && w.half < 2 && w.half != a.fill
        && (forall x :: InWin(c, w.round, x) ==> !InWin(c, a.m, x))
        && (forall k: nat, x :: k < w.round && k !in a.lost && InWin(c, k, x) ==> run[i].image(x) == Goal(c, init, x))
        && (forall k: nat, x :: a.m <= k < NRounds(c) && InWin(c, k, x) ==> run[i].image(x) == init(x))
  {
    hide Sound, SpansApart, Run, Covers;
    RunOk(cs, run, i);
    var a, c, init := run[i].aggs[r], cs[r], run[0].image;
    assert AggOk(c, a, run[i].image, init);
    if a.threads != [] {
      var w := a.threads[0];
      forall x | InWin(c, w.round, x) ensures !InWin(c, a.m, x) {
        if InWin(c, a.m, x) { WinApart(c, w.round, a.m, x); }
      }
    }
  }

  /** When an aggregator has got to its trailing exchanges, each of its windows is written
      completely, except those whose thread could not be created: they are untouched. */
  lemma {:induction false} WindowsWritten(cs: seq<Job>, run: seq<System>, i: nat, r: nat, k: nat, x: int)
    requires AllSound(cs) && SpansApart(cs) && Run(cs, run) && i < |run| && r < |cs|
    requires |run[i].aggs| == |cs| && run[i].aggs[r].phase == Trailing && k < NRounds(cs[r]) && InWin(cs[r], k, x)
    ensures run[i].image(x) == if k in run[i].aggs[r].lost then run[0].image(x) else Goal(cs[r], run[0].image, x)
  {
    hide Sound, SpansApart, Run, Covers;
    RunOk(cs, run, i);
    assert AggOk(cs[r], run[i].aggs[r], run[i].image, run[0].image);
  }

  // ---------- Every requested byte is received once ----------

  /** What the first `n` rounds take from one process, in order. */
  function RoundsTake(c: Job, orig: seq<Extent>, n: nat): seq<int> {
    if n == 0 then [] else RoundsTake(c, orig, n - 1) + Flat(Clip(orig, Lo(c, n - 1), Hi(c, n - 1)))
  }

  lemma {:induction false} RoundsTakePrefix(c: Job, orig: seq<Extent>, n: nat)
    requires c.cb > 0 && n <= NRounds(c) && Ordered(orig) && Below(orig, c.st) == 0
    ensures Below(orig, Lo(c, n)) <= |Flat(orig)| && RoundsTake(c, orig, n) == Flat(orig)[..Below(orig, Lo(c, n))]
  {
    hide Flat, Clip, Below, Covers, Ordered;
    CoversAll(c.total, c.cb);
    if n == 0 {
    } else {
      var m := n - 1;
      RoundsTakePrefix(c, orig, m);
      WinSize(c, m);
      assert Hi(c, m) == Lo(c, n);
      ClipIsSlice(orig, Lo(c, m), Lo(c, n));
      PrefixSlice(Flat(orig), Below(orig, Lo(c, m)), Below(orig, Lo(c, n)));
    }
  }

  lemma PrefixSlice<T>(f: seq<T>, a: nat, b: nat)
    requires a <= b <= |f|
    ensures f[..a] + f[a..b] == f[..b]
  {
  }

  /** Over all rounds a process's requests are taken completely, each byte once, in order. */
  lemma {:induction false} RoundsTakeAll(c: Job, i: nat)
    requires Sound(c) && i < |c.origs|
    ensures RoundsTake(c, c.origs[i], NRounds(c)) == Flat(c.origs[i])
  {
    hide Flat, Clip, Below, Covers, RoundCount, Requested;
    var orig := c.origs[i];
    forall j | 0 <= j < |orig| ensures c.st <= orig[j].off && orig[j].End() <= c.st + c.total {
      EndsRequested(c.origs, i, j);
    }
    BelowAll(orig, c.st);
    BelowAll(orig, c.st + c.total);
    CoversAll(c.total, c.cb);
    RoundsTakePrefix(c, orig, NRounds(c));
  }

  // ---------- Runs end ----------

  /** Work left: rounds, what is left of this round, and of the thread. */
  function Work(c: Job, a: Agg): int
    requires c.cb > 0
  {
    (NRounds(c) - a.m) * (2 * c.cb + 4) + PhaseWork(c, a.phase) + ThreadWork(c, a.threads)
  }

  function PhaseWork(c: Job, p: Phase): int {
    match p case Idle => c.cb + 3 case Reading(got) => c.cb + 2 - got case Filled => 1 case Trailing => 0
  }

  function ThreadWork(c: Job, ts: seq<Thread>): int {
    if ts == [] then 0 else ThreadWork(c, ts[..|ts| - 1]) + (c.cb + 1 - ts[|ts| - 1].done)
  }

  lemma OneThread(c: Job, t: Thread)
    ensures ThreadWork(c, [t]) == c.cb + 1 - t.done
  {
    assert [t][..0] == [];
  }

  lemma WorkLeft(c: Job, a: Agg, image: Image, init: Image)
    requires Sound(c) && AggOk(c, a, image, init)
    ensures Work(c, a) >= 0
  {
    hide Sound, FileOk, HalfOk, Busy, Covers, RoundCount, Goal;
    SoundCb(c);
    ProductNonNegative(NRounds(c) - a.m, 2 * c.cb + 4);
    if a.phase.Reading? { WinSize(c, a.m); }
    if a.threads != [] {
      WinSize(c, a.threads[0].round);
      assert a.threads == [a.threads[0]];
      OneThread(c, a.threads[0]);
    }
  }

  lemma ProductNonNegative(a: nat, b: nat)
    ensures a * b >= 0
  {
  }

  lemma RoundWork(n: int, m: int, w: int)
    ensures (n - m) * w == (n - (m + 1)) * w + w
  {
  }

  /** Every step leaves less to do. */
  lemma StepWorks(c: Job, a: Agg, image: Image, init: Image, a': Agg, image': Image)
    requires Sound(c) && AggOk(c, a, image, init) && AggStep(c, a, image, a', image')
    ensures Work(c, a') < Work(c, a)
  {
    hide Scatter, PhaseOk, FileOk, HalfOk, Busy, Covers;
    RoundWork(NRounds(c), a.m, 2 * c.cb + 4);
    if a.threads != [] {
      assert a.threads == [a.threads[0]];
      OneThread(c, a.threads[0]);
      WinSize(c, a.threads[0].round);
    }
    if t: nat :| WriteByte(c, a, image, t, a', image') {
      assert a'.threads == [a.threads[0].(done := a.threads[0].done + 1)];
      OneThread(c, a'.threads[0]);
    } else if Scatter(c, a, a') {
      ScatterWorks(c, a, a');
    } else if Launch(c, a, true, a') {
      assert a'.threads == [Thread(a.m, a.fill, 0)];
      OneThread(c, a'.threads[0]);
    }
  }

  lemma ScatterWorks(c: Job, a: Agg, a': Agg)
    requires Sound(c) && Scatter(c, a, a')
    ensures a' == a.(phase := Filled, buf := a'.buf) && PhaseWork(c, Filled) < PhaseWork(c, a.phase)
  {
    WinSize(c, a.m);
  }

  function TotalWork(cs: seq<Job>, aggs: seq<Agg>): int
    requires |cs| == |aggs| && forall r :: 0 <= r < |cs| ==> cs[r].cb > 0
  {
    if cs == [] then 0
    else var n := |cs| - 1; TotalWork(cs[..n], aggs[..n]) + Work(cs[n], aggs[n])
  }

  lemma {:induction false} TotalUpdate(cs: seq<Job>, aggs: seq<Agg>, r: nat, a: Agg)
    requires |cs| == |aggs| && r < |cs| && forall r :: 0 <= r < |cs| ==> cs[r].cb > 0
    ensures TotalWork(cs, aggs[r := a]) == TotalWork(cs, aggs) - Work(cs[r], aggs[r]) + Work(cs[r], a)
  {
    var n := |cs| - 1;
    if r < n {
      TotalUpdate(cs[..n], aggs[..n], r, a);
      assert aggs[r := a][..n] == aggs[..n][r := a];
    } else {
      assert aggs[r := a][..n] == aggs[..n];
    }
  }

  lemma {:induction false} TotalLeft(cs: seq<Job>, aggs: seq<Agg>)
    requires |cs| == |aggs| && forall r :: 0 <= r < |cs| ==> cs[r].cb > 0 && Work(cs[r], aggs[r]) >= 0
    ensures TotalWork(cs, aggs) >= 0
  {
    if cs == [] {
    } else {
      TotalLeft(cs[..|cs| - 1], aggs[..|cs| - 1]);
    }
  }

  /** No run is longer than the work at its start. */
  lemma {:induction false} RunsEnd(cs: seq<Job>, run: seq<System>, i: nat)
    requires AllSound(cs) && SpansApart(cs) && Run(cs, run) && i < |run|
    ensures |run[i].aggs| == |cs| && 0 <= TotalWork(cs, run[i].aggs) <= TotalWork(cs, run[0].aggs) - i
  {
    hide AggOk, AggStep, SpansApart, Work;
    RunOk(cs, run, i);
    forall r | 0 <= r < |cs| ensures Work(cs[r], run[i].aggs[r]) >= 0 {
      WorkLeft(cs[r], run[i].aggs[r], run[i].image, run[0].image);
    }
    TotalLeft(cs, run[i].aggs);
    if i == 0 {
    } else {
      var j := i - 1;
      RunsEnd(cs, run, j);
      RunOk(cs, run, j);
      assert i == j + 1 && Step(cs, run[j], run[j + 1]);
      var r: nat :| StepOf(cs, run[j], run[j + 1], r);
      StepWorks(cs[r], run[j].aggs[r], run[j].image, run[0].image, run[i].aggs[r], run[i].image);
      TotalUpdate(cs, run[j].aggs, r, run[i].aggs[r]);
    }
  }

  /** And it can always go on until the aggregator is done: no state is stuck. */
  lemma {:induction false} NotStuck(c: Job, a: Agg, image: Image, init: Image) returns (a': Agg, image': Image)
    requires Sound(c) && AggOk(c, a, image, init) && a.phase != Trailing
    ensures AggStep(c, a, image, a', image')
  {
    hide Covers, Target, Requested, HalfOk, FileOk;
    image' := image;
    if a.threads != [] && Lo(c, a.threads[0].round) + a.threads[0].done < Hi(c, a.threads[0].round) {
      a', image' := WriteMore(c, a, image, init);
    } else if a.phase == Idle && a.m < NRounds(c) {
      if Busy(c, a.m) {
        a' := a.(phase := Reading(0));
      } else {
        a' := DoScatter(c, a);
      }
    } else if a.phase == Idle {
      a' := if a.handle then a.(handle := false, threads := []) else a.(phase := Trailing);
      assert a.handle ==> a.threads[..0] == [];
    } else if a.phase == Filled {
      if !Busy(c, a.m) {
        a' := a.(m := a.m + 1, phase := Idle);
      } else if a.handle {
        a' := a.(handle := false, threads := []);
        assert a.threads[..0] == [];
      } else {
        a' := Agg(a.m + 1, Idle, a.buf, 1 - a.fill, a.threads + [Thread(a.m, a.fill, 0)], true, a.lost);
        assert Launch(c, a, true, a');
      }
    } else if Lo(c, a.m) + a.phase.got < Hi(c, a.m) {
      var x := Lo(c, a.m) + a.phase.got;
      SlotBounds(c, a.m, a.fill, x);
      a' := a.(phase := Reading(a.phase.got + 1), buf := a.buf[Slot(c, a.m, a.fill, x) := image(x)]);
    } else {
      a' := DoScatter(c, a);
    }
  }

  /** Every other aggregator has got to r's round or is in its trailing exchanges: the
      all-to-all of that round can complete. */
  ghost predicate Met(s: System, r: nat)
    requires r < |s.aggs|
  {
    forall q :: 0 <= q < |s.aggs| ==> s.aggs[q].phase == Trailing || s.aggs[q].m >= s.aggs[r].m
  }

  /** The aggregator furthest behind. */
  lemma {:induction false} Slowest(s: System, q: nat) returns (r: nat)
    requires q < |s.aggs| && s.aggs[q].phase != Trailing
    ensures r < |s.aggs| && s.aggs[r].phase != Trailing && Met(s, r)
    decreases s.aggs[q].m
  {
    if p :| 0 <= p < |s.aggs| && s.aggs[p].phase != Trailing && s.aggs[p].m < s.aggs[q].m {
      r := Slowest(s, p);
    } else {
      r := q;
    }
  }

  /** No state of any run is stuck before all aggregators are done, even if in every round
      each waits for all others to get there. */
  lemma {:induction false} SystemNotStuck(cs: seq<Job>, run: seq<System>, i: nat, q: nat) returns (s': System, r: nat)
    requires AllSound(cs) && SpansApart(cs) && Run(cs, run) && i < |run|
    requires q < |cs| == |run[i].aggs| && run[i].aggs[q].phase != Trailing
    ensures StepOf(cs, run[i], s', r) && Met(run[i], r)
  {
    hide Sound, SpansApart, Run, AggStep, AggOk, Met;
    RunOk(cs, run, i);
    var s := run[i];
    r := Slowest(s, q);
    var a, image := NotStuck(cs[r], s.aggs[r], s.image, run[0].image);
    s' := System(s.aggs[r := a], image);
  }

  lemma WriteMore(c: Job, a: Agg, image: Image, init: Image) returns (a': Agg, image': Image)
    requires Sound(c) && AggOk(c, a, image, init)
    requires a.threads != [] && Lo(c, a.threads[0].round) + a.threads[0].done < Hi(c, a.threads[0].round)
    ensures WriteByte(c, a, image, 0, a', image')
  {
    var w := a.threads[0];
    var x := Lo(c, w.round) + w.done;
    SlotBounds(c, w.round, w.half, x);
    var v := a.buf[Slot(c, w.round, w.half, x)];
    a' := a.(threads := a.threads[0 := w.(done := w.done + 1)]);
    image' := y => if y == x then v else image(y);
  }

  lemma DoScatter(c: Job, a: Agg) returns (a': Agg)
    requires Sound(c) && |a.buf| == 2 * c.cb && a.fill < 2 && a.m < NRounds(c)
    requires (a.phase == Idle && !Busy(c, a.m)) || a.phase == Reading(Hi(c, a.m) - Lo(c, a.m))
    ensures Scatter(c, a, a')
  {
    hide Covers, Target, Requested, Busy, Legal, Fits, PutAll;
    WinSize(c, a.m);
    var lo, hi, base := Lo(c, a.m), Hi(c, a.m), a.fill * c.cb;
    var offs, recv := Clips(c.origs, lo, hi), Received(c, a.m);
    var b := seq(|a.buf|, i requires 0 <= i < |a.buf| =>
      if base <= i < base + (hi - lo) then PutAll(a.buf[i], offs, recv, lo + (i - base)) else a.buf[i]);
    a' := a.(phase := Filled, buf := b);
    forall x | InWin(c, a.m, x)
      ensures var i := Slot(c, a.m, a.fill, x); 0 <= i < |a.buf| && b[i] == PutAll(a.buf[i], offs, recv, x)
    {
      SlotBounds(c, a.m, a.fill, x);
    }
  }
}
