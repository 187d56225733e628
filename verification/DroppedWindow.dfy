/**
 A run in which the background thread cannot be created, and the byte that is lost by it.
 */
module DroppedWindow {
  import opened Sequences
  import opened Extents
  import opened Domains
  import opened Shares
  import opened Requests
  import opened Holes
  import opened Rounds
  import opened WriteRun
  import opened WriteSystem
  import opened CollectiveWrite

  /** One process writes one byte through one aggregator with one-byte windows. */
  ghost predicate OneByte(v: Call, c: Job, x: Extent, b: Byte) {
    && x.off == 0 && x.len == 1
    && v == Call([0], [0], 0, 0, [0], [[x]], [[b]])
    && c == Job([[x]], [[b]], 0, 1, 1)
  }

  lemma OneByteFlat(x: Extent)
    requires x.off == 0 && x.len == 1
    ensures Flat([x]) == [0]
  {
    FlatOne(x);
  }

  lemma OneByteLawful(v: Call, c: Job, x: Extent, b: Byte)
    requires OneByte(v, c, x, b)
    ensures Lawful(v)
  {
    hide Flat, Partition, Distinct, Ordered, InRange;
    OneDomain(v.starts, v.ends, v.ranklist);
    OneAccess(x);
    OneByteFlat(x);
    assert v.access[0] == [x] && v.data[0] == [b];
  }

  lemma OneDomain(starts: seq<int>, ends: seq<int>, ranklist: seq<nat>)
    requires starts == ends == [0] && ranklist == [0]
    ensures Partition(starts, ends, 0, 0) && Distinct(ranklist)
  {
  }

  lemma OneAccess(x: Extent)
    requires x.off == 0 && x.len == 1
    ensures Ordered([x]) && InRange([x], 0, 0)
  {
  }

  lemma OneByteRequested(x: Extent, y: int)
    requires x.off == 0 && x.len == 1
    ensures Requested([[x]], y) <==> y == 0
  {
    var xs := [x];
    if y == 0 { assert xs[0].Has(0) && Touches([xs][0], 0); }
  }

  lemma OneByteClip(x: Extent)
    requires x.off == 0 && x.len == 1
    ensures Clip([x], 0, 1) == [x]
  {
    ClipAppend([], x, 0, 1);
    assert [] + [x] == [x];
  }

  lemma OneByteJobs(v: Call, c: Job, x: Extent, b: Byte)
    requires OneByte(v, c, x, b)
    ensures Lawful(v) && JobsOf(v, [c]) && AllSound([c])
  {
    hide Lawful, Sound, Requested, Clip, Flat, Share;
    OneByteLawful(v, c, x, b);
    OneByteFlat(x);
    OneByteClip(x);
    ReqFacts(v, 0, 0);
    ShareUniform(v.starts, 0, 0, [0], [b]);
    forall y ensures Requested(c.origs, y) <==> y == 0 { OneByteRequested(x, y); }
    assert JobOf(v, 0, c);
    JobSound(v, 0, c);
  }

  lemma OneByteWindow(v: Call, c: Job, x: Extent, b: Byte)
    requires OneByte(v, c, x, b)
    ensures NRounds(c) == 1 && Lo(c, 0) == 0 && Hi(c, 0) == 1 && Busy(c, 0) && InWin(c, 0, 0)
  {
    OneByteRequested(x, 0);
    assert InWin(c, 0, 0);
  }

  lemma OneByteTarget(v: Call, c: Job, x: Extent, b: Byte, w: Byte)
    requires OneByte(v, c, x, b)
    ensures Fits(v.access, v.data) && Target(v.access, v.data, w, 0) == b
  {
    hide Flat;
    OneByteFlat(x);
    assert v.access[0] == [x] && v.data[0] == [b];
    var offs := Flats(v.access);
    assert offs[0] == [0];
    PutAllSole(w, offs, v.data, 0, 0);
  }

  lemma Extend(cs: seq<Job>, run: seq<System>, a: Agg, b: Agg) returns (run': seq<System>)
    requires AllSound(cs) && Run(cs, run) && |cs| == 1
    requires run[|run| - 1].aggs == [a] && AggStep(cs[0], a, run[|run| - 1].image, b, run[|run| - 1].image)
    ensures Run(cs, run') && run'[|run'| - 1] == System([b], run[|run| - 1].image) && run'[0] == run[0]
  {
    hide AggStep, Sound;
    var s, s' := run[|run| - 1], System([b], run[|run| - 1].image);
    run' := run + [s'];
    assert StepOf(cs, s, s', 0);
    forall i | 0 <= i < |run'| - 1 ensures Step(cs, run'[i], run'[i + 1]) {
      if i < |run| - 1 { assert Step(cs, run[i], run[i + 1]); }
    }
  }

  ghost predicate OneWindow(c: Job) {
    Sound(c) && c.cb == 1 && NRounds(c) == 1 && Lo(c, 0) + 1 == Hi(c, 0) && Busy(c, 0)
  }

  /** The aggregator reads its window and fills it ... */
  lemma FillSteps(c: Job, a: Agg, init: Image) returns (b: Agg, d: Agg, e: Agg)
    requires OneWindow(c) && |a.buf| == 2 && a == Agg(0, Idle, a.buf, 0, [], false, {})
    ensures AggStep(c, a, init, b, init) && AggStep(c, b, init, d, init) && AggStep(c, d, init, e, init)
    ensures e == Agg(0, Filled, e.buf, 0, [], false, {})
  {
    hide Sound, Busy, Scatter, Covers, RoundCount, Lo, Hi;
    b := a.(phase := Reading(0));
    assert BeginRead(c, a, b);
    var x := Lo(c, 0) + 0;
    assert Slot(c, 0, 0, x) == 0;
    d := b.(phase := Reading(1), buf := a.buf[0 := init(x)]);
    assert ReadByte(c, b, init, d);
    e := DoScatter(c, d);
    ScatterShape(c, d, e);
  }

  lemma ScatterShape(c: Job, a: Agg, a': Agg)
    requires Sound(c) && Scatter(c, a, a')
    ensures a' == a.(phase := Filled, buf := a'.buf)
  {
  }

  /** ... fails to create the thread, and is done. */
  lemma DropSteps(c: Job, a: Agg, init: Image) returns (b: Agg, d: Agg)
    requires OneWindow(c) && a == Agg(0, Filled, a.buf, 0, [], false, {})
    ensures AggStep(c, a, init, b, init) && AggStep(c, b, init, d, init)
    ensures d.phase == Trailing && d.lost == {0}
  {
    hide Sound, Busy, Scatter, Covers, RoundCount;
    b := Agg(1, Idle, a.buf, 1, [], false, {0});
    assert a.lost + {a.m} == {0};
    assert Launch(c, a, false, b);
    d := b.(phase := Trailing);
    assert Trail(c, b, d);
  }

  lemma DropRun(c: Job, init: Image) returns (run: seq<System>)
    requires AllSound([c]) && OneWindow(c)
    ensures Run([c], run) && AllDone([c], run[|run| - 1])
    ensures run[0].image == init && run[|run| - 1].aggs[0].lost == {0}
  {
    hide Sound, AggStep, Run, OneWindow;
    var cs := [c];
    var a := Agg(0, Idle, [0, 0], 0, [], false, {});
    assert Sound(cs[0]);
    run := [System([a], init)];
    WindowCb(c);
    RunStart(cs, run[0]);
    var b, d, e := FillSteps(c, a, init);
    var f, g := DropSteps(c, e, init);
    run := Extend(cs, run, a, b);
    run := Extend(cs, run, b, d);
    run := Extend(cs, run, d, e);
    run := Extend(cs, run, e, f);
    run := Extend(cs, run, f, g);
    RunNotEmpty(cs, run);
  }

  lemma WindowCb(c: Job)
    requires OneWindow(c)
    ensures c.cb == 1
  {
  }

  lemma RunStart(cs: seq<Job>, s: System)
    requires AllSound(cs) && Begins(cs, s)
    ensures Run(cs, [s])
  {
  }

  lemma RunNotEmpty(cs: seq<Job>, run: seq<System>)
    requires AllSound(cs) && Run(cs, run)
    ensures run != []
  {
  }

  /** The file then lacks the byte that was written, whatever it held before. */
  lemma {:induction false} FailedThreadDropsWindow(v: Call, c: Job, x: Extent, b: Byte,
                                                   init: Image) returns (run: seq<System>)
    requires OneByte(v, c, x, b)
    ensures Lawful(v) && JobsOf(v, [c]) && AllSound([c]) && Run([c], run) && AllDone([c], run[|run| - 1])
    ensures run[0].image == init && run[|run| - 1].image(0) == init(0)
    ensures Target(v.access, v.data, init(0), 0) == b
  {
    hide Sound, Run, JobsOf, Lawful, Target, Fits, Busy, NRounds, Lo, Hi, InWin, OneByte;
    OneByteJobs(v, c, x, b);
    OneByteTarget(v, c, x, b, init(0));
    OneByteWindow(v, c, x, b);
    WindowOf(v, c, x, b);
    var cs := [c];
    run := DropRun(c, init);
    RunNotEmpty(cs, run);
    assert 0 in run[|run| - 1].aggs[0].lost && InWin(cs[0], 0, 0);
    CollectiveWriteExact(v, cs, run, 0);
  }

  lemma WindowOf(v: Call, c: Job, x: Extent, b: Byte)
    requires OneByte(v, c, x, b) && AllSound([c])
    ensures OneWindow(c)
  {
    hide Sound;
    OneByteWindow(v, c, x, b);
    assert Sound([c][0]);
  }
}
