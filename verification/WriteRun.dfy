/**
 All aggregators of a collective write running at once, each with a background thread
 that writes one half of the collective buffer while the exchange fills the other half
 (`ADIOI_Exch_and_write` with gpfsmpio_pthreadio).  A step system: pre-reads and thread
 writes go byte by byte, and steps of different aggregators interleave freely.
 */
module WriteRun {
  import opened Extents
  import opened Rounds

  /** One aggregator's job: requests and data of all processes, and the span of the
      requests (`total` is 0 if there are none). */
  datatype Job = Job(origs: seq<seq<Extent>>, data: seq<seq<Byte>>, st: int, total: nat, cb: nat)

  ghost predicate Sound(c: Job) {
    && c.cb > 0 && Legal(c.origs) && Fits(c.origs, c.data)
    && forall x :: Requested(c.origs, x) ==> c.st <= x < c.st + c.total
  }

  function NRounds(c: Job): nat
    requires c.cb > 0
  {
    RoundCount(c.total, c.cb)
  }

  /** Where window k starts, and where it ends. */
  function Lo(c: Job, k: nat): int { c.st + Covers(k, c.total, c.cb) }

  function Hi(c: Job, k: nat): int { c.st + Covers(k + 1, c.total, c.cb) }

  ghost predicate InWin(c: Job, k: nat, x: int) { Lo(c, k) <= x < Hi(c, k) }

  lemma WinSize(c: Job, k: nat)
    requires c.cb > 0 && k < NRounds(c)
    ensures c.st <= Lo(c, k) < Hi(c, k) <= Lo(c, k) + c.cb && Hi(c, k) <= c.st + c.total
  {
    CoversStep(k, c.total, c.cb);
  }

  lemma CoversMono(j: nat, k: nat, total: nat, cb: nat)
    requires j <= k
    ensures Covers(j, total, cb) <= Covers(k, total, cb)
  {
    MulStep(j, k, cb);
  }

  /** Windows do not overlap. */
  lemma WinApart(c: Job, j: nat, k: nat, x: int)
    requires InWin(c, j, x) && InWin(c, k, x)
    ensures j == k
  {
    if j < k { CoversMono(j + 1, k, c.total, c.cb); }
    if k < j { CoversMono(k + 1, j, c.total, c.cb); }
  }

  /** Every byte of the span lies in some window. */
  lemma {:induction false} WinCovers(c: Job, n: nat, x: int) returns (k: nat)
    requires c.cb > 0 && n <= NRounds(c) && c.st <= x < c.st + Covers(n, c.total, c.cb)
    ensures k < n && InWin(c, k, x)
  {
    if x >= Lo(c, n - 1) {
      k := n - 1;
    } else {
      k := WinCovers(c, n - 1, x);
    }
  }

  lemma SpanCovers(c: Job, x: int) returns (k: nat)
    requires c.cb > 0 && c.st <= x < c.st + c.total
    ensures k < NRounds(c) && InWin(c, k, x)
  {
    CoversAll(c.total, c.cb);
    k := WinCovers(c, NRounds(c), x);
  }

  /** Did window k receive anything? */
  ghost predicate Busy(c: Job, k: nat) {
    exists x :: InWin(c, k, x) && Requested(c.origs, x)
  }

  /** What the file should hold at `x`: all processes' direct writes over the old byte. */
  ghost function Goal(c: Job, init: Image, x: int): Byte
    requires Sound(c)
  {
    Target(c.origs, c.data, init(x), x)
  }

  /** The data received for window k. */
  ghost function Received(c: Job, k: nat): (r: seq<seq<Byte>>)
    requires Sound(c) && k < NRounds(c)
    ensures Lo(c, k) <= Hi(c, k) && IsRecv(c.origs, c.data, r, Lo(c, k), Hi(c, k))
    ensures Matching(Clips(c.origs, Lo(c, k), Hi(c, k)), r)
  {
    WinSize(c, k);
    var r := seq(|c.origs|, i requires 0 <= i < |c.origs| => Slice(c.origs[i], c.data[i], Lo(c, k), Hi(c, k)));
    RecvMatches(c.origs, c.data, r, Lo(c, k), Hi(c, k));
    r
  }

  // ---------- State and steps ----------

  datatype Thread = Thread(round: nat, half: nat, done: nat)

  datatype Phase = Idle | Reading(got: nat) | Filled | Trailing

  /** `buf` is io_buf, two halves of cb bytes; write_buf is half `fill`; `threads` are the
      threads created and not joined; `handle` says io_thread names one of them; `lost`
      are the rounds whose thread could not be created. */
  datatype Agg = Agg(m: nat, phase: Phase, buf: seq<Byte>, fill: nat, threads: seq<Thread>, handle: bool,
                     lost: set<nat>)

  ghost predicate Start(c: Job, a: Agg) {
    |a.buf| == 2 * c.cb && a == Agg(0, Idle, a.buf, 0, [], false, {})
  }

  /** Position of file offset `x` of round k in half h. */
  function Slot(c: Job, k: nat, h: nat, x: int): int { h * c.cb + (x - Lo(c, k)) }

  ghost predicate Same(b: seq<Byte>, b': seq<Byte>, from: int, to: int) {
    |b'| == |b| && forall i :: 0 <= i < |b| && !(from <= i < to) ==> b'[i] == b[i]
  }

  ghost predicate BeginRead(c: Job, a: Agg, a': Agg)
    requires Sound(c)
  {
    a.phase == Idle && a.m < NRounds(c) && Busy(c, a.m) && a' == a.(phase := Reading(0))
  }

  /** The pre-read copies the next byte of the window from the file. */
  ghost predicate ReadByte(c: Job, a: Agg, image: Image, a': Agg) {
    && a.phase.Reading? && Lo(c, a.m) + a.phase.got < Hi(c, a.m)
    && var x := Lo(c, a.m) + a.phase.got;
       && 0 <= Slot(c, a.m, a.fill, x) < |a.buf|
       && a' == a.(phase := Reading(a.phase.got + 1), buf := a.buf[Slot(c, a.m, a.fill, x) := image(x)])
  }

  /** The received bytes are put over the buffer's contents.  Without a pre-read this
      happens only if the hole check found every byte requested, or nothing came. */
  ghost predicate Scatter(c: Job, a: Agg, a': Agg)
    requires Sound(c)
  {
    && a.m < NRounds(c)
    && (a.phase == Reading(Hi(c, a.m) - Lo(c, a.m)) ||
        (a.phase == Idle && (!Busy(c, a.m) || forall x :: InWin(c, a.m, x) ==> Requested(c.origs, x))))
    && a' == a.(phase := Filled, buf := a'.buf)
    && Same(a.buf, a'.buf, a.fill * c.cb, a.fill * c.cb + (Hi(c, a.m) - Lo(c, a.m)))
    && forall x :: InWin(c, a.m, x) ==>
         var i := Slot(c, a.m, a.fill, x);
         0 <= i < |a.buf| && a'.buf[i] == PutAll(a.buf[i], Clips(c.origs, Lo(c, a.m), Hi(c, a.m)), Received(c, a.m), x)
  }

  /** Nothing was received, nothing is written. */
  ghost predicate Skip(c: Job, a: Agg, a': Agg) {
    a.phase == Filled && !Busy(c, a.m) && a' == a.(m := a.m + 1, phase := Idle)
  }

  /** Wait for the thread io_thread names: before the next launch, or after the last round. */
  ghost predicate Join(c: Job, a: Agg, a': Agg)
    requires c.cb > 0
  {
    && a.handle && |a.threads| > 0
    && ((a.phase == Filled && Busy(c, a.m)) || (a.phase == Idle && a.m == NRounds(c)))
    && var n := |a.threads| - 1;
       && Lo(c, a.threads[n].round) + a.threads[n].done == Hi(c, a.threads[n].round)
       && a' == a.(handle := false, threads := a.threads[..n])
  }

  /** Hand the filled half to a new thread and swap halves; `ok` is false if the thread
      could not be created. */
  ghost predicate Launch(c: Job, a: Agg, ok: bool, a': Agg) {
    && a.phase == Filled && Busy(c, a.m) && !a.handle && a.fill < 2
    && a' == Agg(a.m + 1, Idle, a.buf, 1 - a.fill,
                 if ok then a.threads + [Thread(a.m, a.fill, 0)] else a.threads, ok,
                 if ok then a.lost else a.lost + {a.m})
  }

  /** The trailing exchanges start. */
  ghost predicate Trail(c: Job, a: Agg, a': Agg)
    requires c.cb > 0
  {
    a.phase == Idle && a.m == NRounds(c) && !a.handle && a' == a.(phase := Trailing)
  }

  /** A thread writes its next byte. */
  ghost predicate WriteByte(c: Job, a: Agg, image: Image, t: nat, a': Agg, image': Image) {
    && t < |a.threads|
    && var w := a.threads[t];
       var x := Lo(c, w.round) + w.done;
       && x < Hi(c, w.round) && 0 <= Slot(c, w.round, w.half, x) < |a.buf|
       && a' == a.(threads := a.threads[t := w.(done := w.done + 1)])
       && forall y :: image'(y) == if y == x then a.buf[Slot(c, w.round, w.half, x)] else image(y)
  }

  ghost predicate AggStep(c: Job, a: Agg, image: Image, a': Agg, image': Image)
    requires Sound(c)
  {
    || (image' == image &&
        (BeginRead(c, a, a') || ReadByte(c, a, image, a') || Scatter(c, a, a') || Skip(c, a, a') || Join(c, a, a') ||
         Launch(c, a, true, a') || Launch(c, a, false, a') || Trail(c, a, a')))
    || exists t: nat :: WriteByte(c, a, image, t, a', image')
  }

  // ---------- What holds between steps ----------

  /** The windows already written, or on their way, look as they should. */
  ghost function Expected(c: Job, a: Agg, init: Image, k: nat, x: int): Byte
    requires Sound(c)
  {
    if k >= a.m || k in a.lost then init(x)
    else if |a.threads| > 0 && a.threads[0].round == k && x >= Lo(c, k) + a.threads[0].done then init(x)
    else Goal(c, init, x)
  }

  ghost predicate FileOk(c: Job, a: Agg, image: Image, init: Image)
    requires Sound(c)
  {
    forall k: nat, x :: k < NRounds(c) && InWin(c, k, x) ==> image(x) == Expected(c, a, init, k, x)
  }

  /** The half h holds window k as it should be written. */
  ghost predicate HalfOk(c: Job, buf: seq<Byte>, h: nat, k: nat, init: Image)
    requires Sound(c)
  {
    forall x :: InWin(c, k, x) ==> 0 <= Slot(c, k, h, x) < |buf| && buf[Slot(c, k, h, x)] == Goal(c, init, x)
  }

  /** At most one write is in flight; it is of an earlier round and uses the other half. */
  ghost predicate FlightOk(c: Job, a: Agg, init: Image)
    requires Sound(c)
  {
    && |a.threads| == (if a.handle then 1 else 0)
    && (a.threads != [] ==>
          var w := a.threads[0];
          w.round < a.m <= NRounds(c) && w.half == 1 - a.fill && w.round !in a.lost &&
          Lo(c, w.round) + w.done <= Hi(c, w.round) &&
          HalfOk(c, a.buf, w.half, w.round, init))
  }

  ghost predicate PhaseOk(c: Job, a: Agg, init: Image)
    requires Sound(c)
  {
    match a.phase
    case Idle => true
    case Reading(got) =>
      a.m < NRounds(c) && Lo(c, a.m) + got <= Hi(c, a.m) &&
      forall x :: Lo(c, a.m) <= x < Lo(c, a.m) + got ==>
        0 <= Slot(c, a.m, a.fill, x) < |a.buf| && a.buf[Slot(c, a.m, a.fill, x)] == init(x)
    case Filled => a.m < NRounds(c) && (Busy(c, a.m) ==> HalfOk(c, a.buf, a.fill, a.m, init))
    case Trailing => a.m == NRounds(c) && !a.handle
  }

  ghost predicate AggOk(c: Job, a: Agg, image: Image, init: Image)
    requires Sound(c)
  {
    && |a.buf| == 2 * c.cb && a.fill < 2 && a.m <= NRounds(c) && (forall k :: k in a.lost ==> k < a.m)
    && FlightOk(c, a, init) && PhaseOk(c, a, init) && FileOk(c, a, image, init)
  }

  // ---------- Every step keeps it ----------

  lemma StartOk(c: Job, a: Agg, init: Image)
    requires Sound(c) && Start(c, a)
    ensures AggOk(c, a, init, init)
  {
  }

  /** Places of different halves differ, and lie inside the buffer. */
  lemma SlotBounds(c: Job, k: nat, h: nat, x: int)
    requires c.cb > 0 && k < NRounds(c) && InWin(c, k, x) && h < 2
    ensures h * c.cb <= Slot(c, k, h, x) < (h + 1) * c.cb <= 2 * c.cb
  {
    WinSize(c, k);
  }

  /** Changes within one half leave the other half alone. */
  lemma OtherHalf(c: Job, b: seq<Byte>, b': seq<Byte>, h: nat, g: nat, k: nat, init: Image, size: nat)
    requires Sound(c) && h < 2 && g == 1 - h && k < NRounds(c) && HalfOk(c, b, g, k, init) && |b| == 2 * c.cb
    requires Same(b, b', h * c.cb, h * c.cb + size) && size <= c.cb
    ensures HalfOk(c, b', g, k, init)
  {
    forall x | InWin(c, k, x) ensures 0 <= Slot(c, k, g, x) < |b'| && b'[Slot(c, k, g, x)] == Goal(c, init, x) {
      SlotBounds(c, k, g, x);
    }
  }

  lemma ReadByteOk(c: Job, a: Agg, image: Image, init: Image, a': Agg)
    requires Sound(c) && AggOk(c, a, image, init) && ReadByte(c, a, image, a')
    ensures AggOk(c, a', image, init)
  {
    hide Requested, Target, Covers, Sound;
    var x := Lo(c, a.m) + a.phase.got;
    SoundCb(c);
    WinSize(c, a.m);
    SlotBounds(c, a.m, a.fill, x);
    assert InWin(c, a.m, x) && image(x) == init(x);
    assert Same(a.buf, a'.buf, a.fill * c.cb, a.fill * c.cb + (Hi(c, a.m) - Lo(c, a.m)));
    if a.threads != [] {
      OtherHalf(c, a.buf, a'.buf, a.fill, 1 - a.fill, a.threads[0].round, init, Hi(c, a.m) - Lo(c, a.m));
    }
  }

  lemma SoundCb(c: Job)
    requires Sound(c)
    ensures c.cb > 0 && Legal(c.origs) && Fits(c.origs, c.data)
  {
  }

  /** One byte of the scatter: over the old file byte, or over anything if requested. */
  lemma ScatterByte(c: Job, k: nat, v: Byte, init: Image, x: int)
    requires Sound(c) && k < NRounds(c) && InWin(c, k, x)
    requires v == init(x) || Requested(c.origs, x)
    ensures PutAll(v, Clips(c.origs, Lo(c, k), Hi(c, k)), Received(c, k), x) == Goal(c, init, x)
  {
    WindowTarget(c.origs, c.data, Received(c, k), Lo(c, k), Hi(c, k), v, x);
    if v != init(x) { RequestedTarget(c.origs, c.data, v, init(x), x); }
  }

  lemma {:induction false} ScatterOk(c: Job, a: Agg, image: Image, init: Image, a': Agg)
    requires Sound(c) && AggOk(c, a, image, init) && Scatter(c, a, a')
    ensures AggOk(c, a', image, init)
  {
    hide Requested, Target, Covers, Sound, PutAll, Clips, Received;
    SoundCb(c);
    WinSize(c, a.m);
    if Busy(c, a.m) {
      forall x | InWin(c, a.m, x)
        ensures 0 <= Slot(c, a.m, a.fill, x) < |a'.buf| && a'.buf[Slot(c, a.m, a.fill, x)] == Goal(c, init, x)
      {
        ScatterByte(c, a.m, a.buf[Slot(c, a.m, a.fill, x)], init, x);
      }
    }
    if a.threads != [] {
      OtherHalf(c, a.buf, a'.buf, a.fill, 1 - a.fill, a.threads[0].round, init, Hi(c, a.m) - Lo(c, a.m));
    }
  }

  /** A window without requests is as it should be already. */
  lemma SkipOk(c: Job, a: Agg, image: Image, init: Image, a': Agg)
    requires Sound(c) && AggOk(c, a, image, init) && Skip(c, a, a')
    ensures AggOk(c, a', image, init)
  {
    hide Target, Covers;
    forall x | InWin(c, a.m, x) ensures Goal(c, init, x) == init(x) {
      UnrequestedTarget(c.origs, c.data, init(x), x);
    }
    forall k: nat, x | k < NRounds(c) && InWin(c, k, x) ensures image(x) == Expected(c, a', init, k, x) {
      assert image(x) == Expected(c, a, init, k, x);
    }
  }

  lemma JoinOk(c: Job, a: Agg, image: Image, init: Image, a': Agg)
    requires Sound(c) && AggOk(c, a, image, init) && Join(c, a, a')
    ensures AggOk(c, a', image, init)
  {
    hide Target, Covers;
    forall k: nat, x | k < NRounds(c) && InWin(c, k, x) ensures image(x) == Expected(c, a', init, k, x) {
      assert image(x) == Expected(c, a, init, k, x);
    }
  }

  lemma {:induction false} LaunchOk(c: Job, a: Agg, image: Image, init: Image, ok: bool, a': Agg)
    requires Sound(c) && AggOk(c, a, image, init) && Launch(c, a, ok, a')
    ensures AggOk(c, a', image, init)
  {
    hide Target, Covers;
    SoundCb(c);
    WinSize(c, a.m);
    assert 1 - (1 - a.fill) == a.fill;
    forall k: nat, x | k < NRounds(c) && InWin(c, k, x) ensures image(x) == Expected(c, a', init, k, x) {
      assert image(x) == Expected(c, a, init, k, x);
    }
  }

  lemma {:induction false} WriteByteOk(c: Job, a: Agg, image: Image, init: Image, t: nat, a': Agg, image': Image)
    requires Sound(c) && AggOk(c, a, image, init) && WriteByte(c, a, image, t, a', image')
    ensures AggOk(c, a', image', init)
  {
    hide Target, Covers, Requested;
    var w := a.threads[0];
    var x := Lo(c, w.round) + w.done;
    assert InWin(c, w.round, x);
    forall k: nat, y | k < NRounds(c) && InWin(c, k, y) ensures image'(y) == Expected(c, a', init, k, y) {
      assert image(y) == Expected(c, a, init, k, y);
      if y == x { WinApart(c, k, w.round, x); }
    }
  }

  /** Only bytes of the aggregator's own span change. */
  lemma StepInside(c: Job, a: Agg, image: Image, init: Image, a': Agg, image': Image, x: int)
    requires Sound(c) && AggOk(c, a, image, init) && AggStep(c, a, image, a', image')
    requires x < c.st || c.st + c.total <= x
    ensures image'(x) == image(x)
  {
    if image' != image {
      var t: nat :| WriteByte(c, a, image, t, a', image');
      WinSize(c, a.threads[t].round);
    }
  }

  lemma {:induction false} AggStepOk(c: Job, a: Agg, image: Image, init: Image, a': Agg, image': Image)
    requires Sound(c) && AggOk(c, a, image, init) && AggStep(c, a, image, a', image')
    ensures AggOk(c, a', image', init)
  {
    hide *;
    StepCases(c, a, image, a', image');
    if t: nat :| WriteByte(c, a, image, t, a', image') {
      WriteByteOk(c, a, image, init, t, a', image');
    } else if BeginRead(c, a, a') {
      BeginReadOk(c, a, image, init, a');
    } else if ReadByte(c, a, image, a') {
      ReadByteOk(c, a, image, init, a');
    } else if Scatter(c, a, a') {
      ScatterOk(c, a, image, init, a');
    } else if Skip(c, a, a') {
      SkipOk(c, a, image, init, a');
    } else if Join(c, a, a') {
      JoinOk(c, a, image, init, a');
    } else if Launch(c, a, true, a') {
      LaunchOk(c, a, image, init, true, a');
    } else if Launch(c, a, false, a') {
      LaunchOk(c, a, image, init, false, a');
    } else {
      TrailOk(c, a, image, init, a');
    }
  }

  lemma StepCases(c: Job, a: Agg, image: Image, a': Agg, image': Image)
    requires Sound(c) && AggStep(c, a, image, a', image')
    ensures c.cb > 0
    ensures (exists t: nat :: WriteByte(c, a, image, t, a', image')) ||
      (image' == image &&
        (BeginRead(c, a, a') || ReadByte(c, a, image, a') || Scatter(c, a, a') || Skip(c, a, a') || Join(c, a, a') ||
         Launch(c, a, true, a') || Launch(c, a, false, a') || Trail(c, a, a')))
  {
  }

  lemma BeginReadOk(c: Job, a: Agg, image: Image, init: Image, a': Agg)
    requires Sound(c) && AggOk(c, a, image, init) && BeginRead(c, a, a')
    ensures AggOk(c, a', image, init)
  {
    WinSize(c, a.m);
    forall k: nat, x | k < NRounds(c) && InWin(c, k, x) ensures image(x) == Expected(c, a', init, k, x) {
      assert image(x) == Expected(c, a, init, k, x);
    }
  }

  lemma TrailOk(c: Job, a: Agg, image: Image, init: Image, a': Agg)
    requires Sound(c) && AggOk(c, a, image, init) && Trail(c, a, a')
    ensures AggOk(c, a', image, init)
  {
    forall k: nat, x | k < NRounds(c) && InWin(c, k, x) ensures image(x) == Expected(c, a', init, k, x) {
      assert image(x) == Expected(c, a, init, k, x);
    }
  }
}
