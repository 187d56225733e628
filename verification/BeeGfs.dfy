/**
 Cached writes of the BeeGFS driver: each write locks its extent (coherent mode), writes
 it to the cache in as many pieces as the system call makes of it, and queues it for
 flushing; flushing starts the transfer of the queued extents, waiting lets them finish
 and gives the locks back.  `trace` records the calls made to the file system.
 */
module BeeGfs {
  import opened Extents

  datatype Event = Lock(x: Extent) | Unlock(x: Extent) | PWrite(x: Extent) | FlushRange(x: Extent) | FlushWait | Fsync

  datatype FlushFlag = FlushImmediate | FlushOnClose | FlushNone

  /** The hints e10_cache, e10_cache_coherent, e10_cache_flush_flag, and is_open. */
  datatype Mode = Mode(cache: bool, coherent: bool, flag: FlushFlag, isOpen: bool)

  /** Is there a synchronisation thread? */
  predicate Queueing(m: Mode) { m.cache && m.flag != FlushNone }

  predicate Locking(m: Mode) { m.cache && m.coherent }

  /** The queues, the calls made so far, and fp_sys_posn. */
  datatype State = State(pen: seq<Extent>, sub: seq<Extent>, wait: seq<Extent>, trace: seq<Event>, posn: int)

  /** What successive calls of pwrite may return when `len` bytes are to be written: a
      number of bytes each time, until all is written or a call fails with -1. */
  ghost predicate Returns(len: nat, chunks: seq<int>) {
    if len == 0 then chunks == []
    else chunks != [] &&
         if chunks[0] == -1 then |chunks| == 1 else 0 <= chunks[0] <= len && Returns(len - chunks[0], chunks[1..])
  }

  predicate Fails(chunks: seq<int>) { -1 in chunks }

  function PWrites(off: int, chunks: seq<int>): seq<Event>
    decreases |chunks|
  {
    if chunks == [] || chunks[0] < 0 then []
    else [PWrite(Extent(off, chunks[0]))] + PWrites(off + chunks[0], chunks[1..])
  }

  function Flushes(xs: seq<Extent>): seq<Event> {
    if xs == [] then [] else Flushes(xs[..|xs| - 1]) + [FlushRange(xs[|xs| - 1])]
  }

  function Unlocks(xs: seq<Extent>): seq<Event> {
    if xs == [] then [] else Unlocks(xs[..|xs| - 1]) + [Unlock(xs[|xs| - 1])]
  }

  function AfterFlush(s: State): State {
    s.(pen := [], wait := s.wait + s.pen, trace := s.trace + Flushes(s.pen))
  }

  function AfterWait(m: Mode, s: State): State {
    s.(wait := [], trace := s.trace + [FlushWait] + if m.coherent then Unlocks(s.wait) else [])
  }

  /** The trace of a write up to queueing. */
  function WriteTrace(m: Mode, t: seq<Event>, x: Extent, chunks: seq<int>): seq<Event> {
    t + (if Locking(m) then [Lock(x)] else []) + PWrites(x.off, chunks)
  }

  function AfterWrite(m: Mode, s: State, x: Extent, chunks: seq<int>): State {
    var t := WriteTrace(m, s.trace, x, chunks);
    if Fails(chunks) then s.(trace := t, posn := -1)
    else if !Queueing(m) then s.(trace := t, posn := x.End())
    else
      var q := s.(pen := s.pen + [x], trace := t, posn := x.End());
      if m.flag == FlushImmediate then AfterFlush(q) else q
  }

  function AfterFlushCall(m: Mode, s: State): State {
    if Queueing(m) then AfterWait(m, AfterFlush(s)) else if m.isOpen then s.(trace := s.trace + [Fsync]) else s
  }

  class SyncThread {
    const mode: Mode
    var pen: seq<Extent>
    var sub: seq<Extent>
    var wait: seq<Extent>
    var trace: seq<Event>
    var posn: int

    constructor (m: Mode)
      ensures mode == m && Now() == State([], [], [], [], -1)
    {
      mode := m;
      pen, sub, wait, trace, posn := [], [], [], [], -1;
    }

    function Now(): State
      reads this
    {
      State(pen, sub, wait, trace, posn)
    }

    method Enqueue(x: Extent)
      modifies this
      ensures Now() == old(Now()).(pen := old(pen) + [x])
    {
      pen := pen + [x];
    }

    /** ADIOI_BEEGFS_Sync_thread_start: flush the front of the submitted requests. */
    method Start()
      requires sub != []
      modifies this
      ensures Now() == old(Now()).(sub := old(sub)[1..], trace := old(trace) + [FlushRange(old(sub)[0])])
    {
      var r := sub[0];
      sub := sub[1..];
      trace := trace + [FlushRange(r)];
    }

    /** ADIOI_BEEGFS_Sync_thread_flush */
    method FlushPending()
      requires sub == []
      modifies this
      ensures Now() == AfterFlush(old(Now()))
    {
      ghost var all, n := pen, 0;
      while pen != []
        invariant 0 <= n <= |all| && pen == all[n..] && sub == [] && posn == old(posn)
        invariant wait == old(wait) + all[..n] && trace == old(trace) + Flushes(all[..n])
        decreases |pen|
      {
        var r := pen[0];
        pen := pen[1..];
        sub := sub + [r];
        Start();
        wait := wait + [r];
        assert all[..n + 1] == all[..n] + [r] && all[..n + 1][..n] == all[..n];
        n := n + 1;
      }
      assert all[..n] == all;
    }

    /** ADIOI_BEEGFS_Sync_thread_wait */
    method WaitAll()
      modifies this
      ensures Now() == AfterWait(mode, old(Now()))
    {
      trace := trace + [FlushWait];
      ghost var all, n, t := wait, 0, trace;
      assert t + [] == t;
      while wait != []
        invariant 0 <= n <= |all| && wait == all[n..] && pen == old(pen) && sub == old(sub) && posn == old(posn)
        invariant trace == t + if mode.coherent then Unlocks(all[..n]) else []
        decreases |wait|
      {
        var w := wait[0];
        assert all[..n + 1] == all[..n] + [w] && all[..n + 1][..n] == all[..n];
        if mode.coherent {
          trace := trace + [Unlock(w)];
        }
        wait := wait[1..];
        n := n + 1;
      }
      assert all[..n] == all;
    }

    /** ADIOI_BEEGFS_WriteContig with an explicit offset; `chunks` is what pwrite returns. */
    method WriteContig(x: Extent, chunks: seq<int>) returns (ok: bool)
      requires sub == [] && Returns(x.len, chunks)
      modifies this
      ensures Now() == AfterWrite(mode, old(Now()), x, chunks)
      ensures ok <==> !Fails(chunks)
    {
      hide PWrites, Returns, Fails;
      if mode.cache && mode.coherent {
        trace := trace + [Lock(x)];
      }
      ok := PWriteAll(x, chunks);
      if !ok {
        posn := -1;
        return;
      }
      posn := x.off + x.len;
      if mode.cache && mode.flag != FlushNone {
        Enqueue(x);
        if mode.flag == FlushImmediate {
          FlushPending();
        }
      }
    }

    /** The loop over partial writes. */
    method PWriteAll(x: Extent, chunks: seq<int>) returns (ok: bool)
      requires Returns(x.len, chunks)
      modifies this
      ensures Now() == old(Now()).(trace := old(trace) + PWrites(x.off, chunks))
      ensures ok <==> !Fails(chunks)
    {
      ghost var t := trace;
      var xfered, i := 0, 0;
      assert t + [] == t && chunks[..0] == [] && chunks[0..] == chunks;
      while xfered < x.len
        invariant 0 <= xfered <= x.len && 0 <= i <= |chunks| && Returns(x.len - xfered, chunks[i..])
        invariant trace + PWrites(x.off + xfered, chunks[i..]) == t + PWrites(x.off, chunks)
        invariant Fails(chunks) <==> Fails(chunks[i..])
        invariant Now() == old(Now()).(trace := trace)
        decreases |chunks| - i
      {
        var err := chunks[i];
        assert chunks[i..][0] == err && chunks[i..][1..] == chunks[i + 1..];
        if err == -1 {
          return false;
        }
        trace := trace + [PWrite(Extent(x.off + xfered, err))];
        FailsRest(chunks[i..]);
        xfered := xfered + err;
        i := i + 1;
      }
      ok := true;
    }

    /** ADIOI_BEEGFS_Flush */
    method Flush()
      requires sub == []
      modifies this
      ensures Now() == AfterFlushCall(mode, old(Now()))
    {
      if mode.cache && mode.flag != FlushNone {
        FlushPending();
        WaitAll();
      } else if mode.isOpen {
        trace := trace + [Fsync];
      }
    }
  }

  lemma FailsRest(chunks: seq<int>)
    requires chunks != [] && chunks[0] != -1
    ensures Fails(chunks) <==> Fails(chunks[1..])
  {
    assert chunks == [chunks[0]] + chunks[1..];
  }

  // ---------- Reading a trace ----------

  datatype Kind = Locks | Unlocked | Writes | Flushed

  predicate Is(e: Event, k: Kind) {
    match k case Locks => e.Lock? case Unlocked => e.Unlock? case Writes => e.PWrite? case Flushed => e.FlushRange?
  }

  /** The extents of the events of one kind, in order. */
  function Of(t: seq<Event>, k: Kind): seq<Extent> {
    if t == [] then [] else Of(t[..|t| - 1], k) + if Is(t[|t| - 1], k) then [t[|t| - 1].x] else []
  }

  lemma {:induction false} OfConcat(a: seq<Event>, b: seq<Event>, k: Kind)
    ensures Of(a + b, k) == Of(a, k) + Of(b, k)
    decreases |b|
  {
    hide Of;
    if b == [] {
      OfNone(k);
      assert a + b == a;
    } else {
      var c, e := b[..|b| - 1], b[|b| - 1];
      assert b == c + [e] && a + b == (a + c) + [e];
      OfConcat(a, c, k);
      OfAppend(a + c, e, k);
      OfAppend(c, e, k);
    }
  }

  lemma OfNone(k: Kind)
    ensures Of([], k) == []
  {
  }

  lemma OfAppend(t: seq<Event>, e: Event, k: Kind)
    ensures Of(t + [e], k) == Of(t, k) + if Is(e, k) then [e.x] else []
  {
    assert (t + [e])[..|t|] == t;
  }

  lemma OfOne(e: Event, k: Kind)
    ensures Of([e], k) == if Is(e, k) then [e.x] else []
  {
    assert [e][..0] == [];
  }

  lemma {:induction false} OfFlushes(xs: seq<Extent>, k: Kind)
    ensures Of(Flushes(xs), k) == if k == Flushed then xs else []
  {
    hide Of;
    OfNone(k);
    if xs == [] {
    } else {
      var p, x := xs[..|xs| - 1], xs[|xs| - 1];
      assert xs == p + [x];
      OfFlushes(p, k);
      OfAppend(Flushes(p), FlushRange(x), k);
    }
  }

  lemma {:induction false} OfUnlocks(xs: seq<Extent>, k: Kind)
    ensures Of(Unlocks(xs), k) == if k == Unlocked then xs else []
  {
    hide Of;
    OfNone(k);
    if xs == [] {
    } else {
      var p, x := xs[..|xs| - 1], xs[|xs| - 1];
      assert xs == p + [x];
      OfUnlocks(p, k);
      OfAppend(Unlocks(p), Unlock(x), k);
    }
  }

  lemma {:induction false} OfPWrites(off: int, chunks: seq<int>, k: Kind)
    ensures k != Writes ==> Of(PWrites(off, chunks), k) == []
    decreases |chunks|
  {
    hide Of;
    if chunks == [] || chunks[0] < 0 {
      OfNone(k);
    } else {
      var e, rest := PWrite(Extent(off, chunks[0])), PWrites(off + chunks[0], chunks[1..]);
      OfPWrites(off + chunks[0], chunks[1..], k);
      OfConcat([e], rest, k);
      OfOne(e, k);
    }
  }

  /** How many bytes the calls wrote until they ended or one failed. */
  function Progress(chunks: seq<int>): nat {
    if chunks == [] || chunks[0] < 0 then 0 else chunks[0] + Progress(chunks[1..])
  }

  lemma {:induction false} PWritesFlat(off: int, chunks: seq<int>)
    ensures Flat(Of(PWrites(off, chunks), Writes)) == Range(off, Progress(chunks))
    decreases |chunks|
  {
    hide Of, Flat;
    if chunks == [] || chunks[0] < 0 {
      OfNone(Writes);
      FlatNone();
    } else {
      var c, n := chunks[0], Progress(chunks[1..]);
      var e, rest := Extent(off, c), PWrites(off + c, chunks[1..]);
      PWritesFlat(off + c, chunks[1..]);
      OfConcat([PWrite(e)], rest, Writes);
      OfOne(PWrite(e), Writes);
      CoverSplit(Extent(off, c + n), Extent(off + c, n), e, Of(rest, Writes));
    }
  }

  /** A call that does not fail writes everything. */
  lemma {:induction false} AllWritten(len: nat, chunks: seq<int>)
    requires Returns(len, chunks) && !Fails(chunks)
    ensures Progress(chunks) == len
    decreases |chunks|
  {
    if len == 0 {
    } else {
      assert chunks[0] in chunks;
      FailsRest(chunks);
      AllWritten(len - chunks[0], chunks[1..]);
    }
  }

  lemma CoverSplit(x: Extent, y: Extent, e: Extent, rest: seq<Extent>)
    requires e.off == x.off && y.off == x.off + e.len && e.len + y.len == x.len && Flat(rest) == Range(y.off, y.len)
    ensures Flat([e] + rest) == Range(x.off, x.len)
  {
    hide Flat;
    FlatNone();
    assert [e] == [] + [e];
    FlatAppend([], e);
    FlatConcat([e], rest);
    assert Range(x.off, x.len) == Range(x.off, e.len) + Range(y.off, y.len);
  }

  // ---------- Runs ----------

  datatype Op = Write(x: Extent, chunks: seq<int>) | Flush

  function After(m: Mode, ops: seq<Op>): State {
    if ops == [] then State([], [], [], [], -1)
    else
      var s := After(m, ops[..|ops| - 1]);
      match ops[|ops| - 1]
      case Write(x, chunks) => AfterWrite(m, s, x, chunks)
      case Flush => AfterFlushCall(m, s)
  }

  /** The extents of the writes that succeeded, and of all writes. */
  function Succeeded(ops: seq<Op>): seq<Extent> {
    if ops == [] then []
    else Succeeded(ops[..|ops| - 1]) + var o := ops[|ops| - 1]; if o.Write? && !Fails(o.chunks) then [o.x] else []
  }

  function Attempted(ops: seq<Op>): seq<Extent> {
    if ops == [] then []
    else Attempted(ops[..|ops| - 1]) + var o := ops[|ops| - 1]; if o.Write? then [o.x] else []
  }

  /** The number of range flushes before the last wait: those known to be finished. */
  function Finished(t: seq<Event>): nat {
    if t == [] then 0
    else if t[|t| - 1] == FlushWait then |Of(t, Flushed)|
    else Finished(t[..|t| - 1])
  }

  /** The n-th unlock comes only when the n-th range flush is finished. */
  ghost predicate UnlocksLate(t: seq<Event>) {
    forall i :: 0 <= i <= |t| ==> |Of(t[..i], Unlocked)| <= Finished(t[..i])
  }

  /** At any time in a run with queues: every successful write so far was flushed, or is
      pending, in order; of those flushed, the first were unlocked, the rest wait. */
  ghost predicate InOrder(m: Mode, s: State, ops: seq<Op>) {
    && s.sub == []
    && Of(s.trace, Flushed) + s.pen == Succeeded(ops)
    && Of(s.trace, Locks) == (if m.coherent then Attempted(ops) else [])
    && (if m.coherent then Of(s.trace, Unlocked) + s.wait == Of(s.trace, Flushed) else Of(s.trace, Unlocked) == [])
    && UnlocksLate(s.trace)
  }

  lemma LateAppend(t: seq<Event>, e: Event)
    requires UnlocksLate(t) && (e.Unlock? ==> |Of(t, Unlocked)| < Finished(t))
    ensures UnlocksLate(t + [e])
  {
    var u := t + [e];
    assert u[..|t|] == t;
    FinishedAtMost(t);
    forall i | 0 <= i <= |u| ensures |Of(u[..i], Unlocked)| <= Finished(u[..i]) {
      if i <= |t| {
        assert u[..i] == t[..i];
      } else {
        assert u[..i] == u && t[..|t|] == t;
        OfConcat(t, [e], Unlocked);
        OfOne(e, Unlocked);
        OfConcat(t, [e], Flushed);
      }
    }
  }

  lemma {:induction false} FinishedAtMost(t: seq<Event>)
    ensures Finished(t) <= |Of(t, Flushed)|
  {
    if t == [] {
    } else {
      FinishedAtMost(t[..|t| - 1]);
    }
  }

  lemma {:induction false} LateFlushes(t: seq<Event>, xs: seq<Extent>)
    requires UnlocksLate(t)
    ensures UnlocksLate(t + Flushes(xs))
  {
    if xs == [] {
      assert t + Flushes(xs) == t;
    } else {
      var n := |xs| - 1;
      LateFlushes(t, xs[..n]);
      LateAppend(t + Flushes(xs[..n]), FlushRange(xs[n]));
      Assoc(t, Flushes(xs[..n]), [FlushRange(xs[n])]);
    }
  }

  lemma {:induction false} LatePWrites(t: seq<Event>, off: int, chunks: seq<int>)
    requires UnlocksLate(t)
    ensures UnlocksLate(t + PWrites(off, chunks))
    decreases |chunks|
  {
    if chunks == [] || chunks[0] < 0 {
      assert t + PWrites(off, chunks) == t;
    } else {
      var e := PWrite(Extent(off, chunks[0]));
      LateAppend(t, e);
      LatePWrites(t + [e], off + chunks[0], chunks[1..]);
      Assoc(t, [e], PWrites(off + chunks[0], chunks[1..]));
    }
  }

  /** Unlocking after a wait, up to as many as were flushed. */
  lemma {:induction false} LateUnlocks(t: seq<Event>, xs: seq<Extent>)
    requires UnlocksLate(t) && |Of(t, Unlocked)| + |xs| <= Finished(t)
    ensures UnlocksLate(t + Unlocks(xs)) && Finished(t + Unlocks(xs)) == Finished(t)
  {
    if xs == [] {
      assert t + Unlocks(xs) == t;
    } else {
      var n := |xs| - 1;
      var u := t + Unlocks(xs[..n]);
      LateUnlocks(t, xs[..n]);
      OfConcat(t, Unlocks(xs[..n]), Unlocked);
      OfUnlocks(xs[..n], Unlocked);
      LateAppend(u, Unlock(xs[n]));
      Assoc(t, Unlocks(xs[..n]), [Unlock(xs[n])]);
      assert (u + [Unlock(xs[n])])[..|u|] == u;
    }
  }

  lemma FlushKeeps(m: Mode, s: State, ops: seq<Op>)
    requires InOrder(m, s, ops)
    ensures InOrder(m, AfterFlush(s), ops)
  {
    hide Of, UnlocksLate, Flushes, Succeeded, Attempted;
    FlushTraceOf(s.trace, s.pen, Locks);
    FlushTraceOf(s.trace, s.pen, Unlocked);
    FlushTraceOf(s.trace, s.pen, Flushed);
    LateFlushes(s.trace, s.pen);
    Assoc(Of(s.trace, Unlocked), s.wait, s.pen);
  }

  lemma FlushTraceOf(t: seq<Event>, pen: seq<Extent>, k: Kind)
    ensures Of(t + Flushes(pen), k) == if k == Flushed then Of(t, k) + pen else Of(t, k)
  {
    OfConcat(t, Flushes(pen), k);
    OfFlushes(pen, k);
  }

  lemma WaitKeeps(m: Mode, s: State, ops: seq<Op>)
    requires InOrder(m, s, ops)
    ensures InOrder(m, AfterWait(m, s), ops)
  {
    hide Of, UnlocksLate, Unlocks, Succeeded, Attempted;
    var t := s.trace + [FlushWait];
    WaitTraceOf(s.trace, s.wait, Locks);
    WaitTraceOf(s.trace, s.wait, Unlocked);
    WaitTraceOf(s.trace, s.wait, Flushed);
    LateAppend(s.trace, FlushWait);
    WaitFinishes(s.trace);
    if m.coherent { LateUnlocks(t, s.wait); } else { assert t + [] == t; }
  }

  lemma WaitTraceOf(t: seq<Event>, wait: seq<Extent>, k: Kind)
    ensures Of(t + [FlushWait], k) == Of(t, k)
    ensures Of(t + [FlushWait] + Unlocks(wait), k) == if k == Unlocked then Of(t, k) + wait else Of(t, k)
  {
    hide Of;
    OfAppend(t, FlushWait, k);
    OfConcat(t + [FlushWait], Unlocks(wait), k);
    OfUnlocks(wait, k);
  }

  lemma WriteTraceOf(m: Mode, t: seq<Event>, x: Extent, chunks: seq<int>, k: Kind)
    requires k != Writes
    ensures Of(WriteTrace(m, t, x, chunks), k) == if k == Locks && Locking(m) then Of(t, k) + [x] else Of(t, k)
  {
    var l := if Locking(m) then [Lock(x)] else [];
    OfConcat(t, l, k);
    OfOne(Lock(x), k);
    OfConcat(t + l, PWrites(x.off, chunks), k);
    OfPWrites(x.off, chunks, k);
  }

  lemma WriteTraceLate(m: Mode, t: seq<Event>, x: Extent, chunks: seq<int>)
    requires UnlocksLate(t)
    ensures UnlocksLate(WriteTrace(m, t, x, chunks))
  {
    if Locking(m) {
      LateAppend(t, Lock(x));
      LatePWrites(t + [Lock(x)], x.off, chunks);
    } else {
      assert t + [] == t;
      LatePWrites(t, x.off, chunks);
    }
  }

  lemma WriteKeeps(m: Mode, s: State, ops: seq<Op>, x: Extent, chunks: seq<int>)
    requires InOrder(m, s, ops) && Queueing(m)
    ensures InOrder(m, AfterWrite(m, s, x, chunks), ops + [Write(x, chunks)])
  {
    hide InOrder, AfterFlush, WriteTrace, Fails;
    var all := ops + [Write(x, chunks)];
    var u := WriteTrace(m, s.trace, x, chunks);
    WriteTraceOf(m, s.trace, x, chunks, Locks);
    WriteTraceOf(m, s.trace, x, chunks, Unlocked);
    WriteTraceOf(m, s.trace, x, chunks, Flushed);
    LateWhen(m, s, ops, x, chunks);
    if Fails(chunks) {
      Written(m, s, ops, x, chunks, u, [], -1);
      assert s.pen + [] == s.pen;
    } else {
      Written(m, s, ops, x, chunks, u, [x], x.End());
      FlushKeeps(m, s.(pen := s.pen + [x], trace := u, posn := x.End()), all);
    }
  }

  lemma LateWhen(m: Mode, s: State, ops: seq<Op>, x: Extent, chunks: seq<int>)
    requires InOrder(m, s, ops)
    ensures UnlocksLate(WriteTrace(m, s.trace, x, chunks))
  {
    WriteTraceLate(m, s.trace, x, chunks);
  }

  lemma AppendOp(ops: seq<Op>, o: Op)
    ensures Succeeded(ops + [o]) == Succeeded(ops) + if o.Write? && !Fails(o.chunks) then [o.x] else []
    ensures Attempted(ops + [o]) == Attempted(ops) + if o.Write? then [o.x] else []
  {
    assert (ops + [o])[..|ops|] == ops;
  }

  /** The write went into the trace, and `more` into the queue. */
  lemma Written(m: Mode, s: State, ops: seq<Op>, x: Extent, chunks: seq<int>, u: seq<Event>, more: seq<Extent>,
                posn: int)
    requires InOrder(m, s, ops) && Queueing(m) && more == (if Fails(chunks) then [] else [x])
    requires Of(u, Locks) == if Locking(m) then Of(s.trace, Locks) + [x] else Of(s.trace, Locks)
    requires Of(u, Unlocked) == Of(s.trace, Unlocked) && Of(u, Flushed) == Of(s.trace, Flushed) && UnlocksLate(u)
    ensures InOrder(m, s.(pen := s.pen + more, trace := u, posn := posn), ops + [Write(x, chunks)])
  {
    hide Of, UnlocksLate, Fails, Succeeded, Attempted;
    AppendOp(ops, Write(x, chunks));
    Assoc(Of(s.trace, Flushed), s.pen, more);
  }

  /** In every run. */
  lemma {:induction false} RunInOrder(m: Mode, ops: seq<Op>)
    requires Queueing(m)
    ensures InOrder(m, After(m, ops), ops)
  {
    hide InOrder, AfterWrite, AfterFlushCall;
    if ops == [] {
      NothingYet(m);
    } else {
      var n := |ops| - 1;
      RunInOrder(m, ops[..n]);
      var s := After(m, ops[..n]);
      assert ops[..n] + [ops[n]] == ops;
      match ops[n]
      case Write(x, chunks) => WriteKeeps(m, s, ops[..n], x, chunks);
      case Flush => FlushCallKeeps(m, s, ops[..n]);
    }
  }

  lemma NothingYet(m: Mode)
    ensures InOrder(m, State([], [], [], [], -1), [])
  {
    assert UnlocksLate([]);
  }

  lemma FlushCallKeeps(m: Mode, s: State, ops: seq<Op>)
    requires InOrder(m, s, ops) && Queueing(m)
    ensures InOrder(m, AfterFlushCall(m, s), ops + [Flush])
  {
    hide Of, UnlocksLate;
    var all := ops + [Flush];
    assert all[..|ops|] == ops;
    assert Succeeded(all) == Succeeded(ops) && Attempted(all) == Attempted(ops);
    assert InOrder(m, s, all);
    FlushKeeps(m, s, all);
    WaitKeeps(m, AfterFlush(s), all);
  }

  /** A run of cached writes that ends in a flush: all queues are empty, every extent that
      was written is flushed once, in order, and in coherent mode each of them is unlocked,
      in order, never before its flush is finished. */
  lemma {:induction false} RunEndsClean(m: Mode, ops: seq<Op>)
    requires Queueing(m) && ops != [] && ops[|ops| - 1] == Flush
    ensures var s := After(m, ops);
      && s.pen == s.sub == s.wait == []
      && Of(s.trace, Flushed) == Succeeded(ops)
      && Of(s.trace, Unlocked) == (if m.coherent then Succeeded(ops) else [])
      && Of(s.trace, Locks) == (if m.coherent then Attempted(ops) else [])
      && UnlocksLate(s.trace) && Finished(s.trace) == |Of(s.trace, Flushed)|
  {
    hide InOrder, Of, Finished;
    RunInOrder(m, ops);
    CleanFacts(m, After(m, ops), ops);
    FlushFinishes(m, After(m, ops[..|ops| - 1]), ops[..|ops| - 1]);
  }

  lemma CleanFacts(m: Mode, s: State, ops: seq<Op>)
    requires InOrder(m, s, ops)
    ensures s.sub == [] && UnlocksLate(s.trace) && Of(s.trace, Flushed) + s.pen == Succeeded(ops)
    ensures Of(s.trace, Locks) == (if m.coherent then Attempted(ops) else [])
    ensures if m.coherent then Of(s.trace, Unlocked) + s.wait == Of(s.trace, Flushed) else Of(s.trace, Unlocked) == []
  {
  }

  /** A flush call ends only when every range flush so far is finished. */
  lemma {:induction false} FlushFinishes(m: Mode, s: State, ops: seq<Op>)
    requires Queueing(m) && s == After(m, ops)
    ensures var t := AfterFlushCall(m, s).trace; Finished(t) == |Of(t, Flushed)|
  {
    hide Of, InOrder, UnlocksLate, Flushes, Unlocks;
    RunInOrder(m, ops);
    FlushKeeps(m, s, ops);
    var q := AfterFlush(s);
    var t := q.trace + [FlushWait];
    WaitFinishes(q.trace);
    if m.coherent {
      CleanFacts(m, q, ops);
      LateAppend(q.trace, FlushWait);
      OfAppend(q.trace, FlushWait, Unlocked);
      OfAppend(q.trace, FlushWait, Flushed);
      LateUnlocks(t, q.wait);
      OfConcat(t, Unlocks(q.wait), Flushed);
      OfUnlocks(q.wait, Flushed);
    } else {
      assert t + [] == t;
    }
  }

  lemma WaitFinishes(t: seq<Event>)
    ensures Finished(t + [FlushWait]) == |Of(t + [FlushWait], Flushed)|
  {
  }

  // ---------- What is written, and under which lock ----------

  /** What pwrite returned was possible. */
  ghost predicate Possible(ops: seq<Op>) {
    forall i :: 0 <= i < |ops| && ops[i].Write? ==> Returns(ops[i].x.len, ops[i].chunks)
  }

  /** The file offsets the writes of a run put data at, in order: all of its extent for a
      write that succeeds, what was written until then for one that fails. */
  function WrittenBytes(ops: seq<Op>): seq<int> {
    if ops == [] then []
    else
      WrittenBytes(ops[..|ops| - 1]) +
      match ops[|ops| - 1]
      case Write(x, chunks) => Range(x.off, if Fails(chunks) then Progress(chunks) else x.len)
      case Flush => []
  }

  /** In every mode and every run just those bytes are written, in that order. */
  lemma {:induction false} RunWrites(m: Mode, ops: seq<Op>)
    requires Possible(ops)
    ensures Flat(Of(After(m, ops).trace, Writes)) == WrittenBytes(ops)
  {
    hide Of, Flat, AfterWrite, AfterFlushCall, Fails, Returns;
    if ops == [] {
      OfNone(Writes);
      FlatNone();
    } else {
      var n := |ops| - 1;
      RunWrites(m, ops[..n]);
      var s := After(m, ops[..n]);
      match ops[n]
      case Write(x, chunks) =>
        assert Returns(x.len, chunks);
        WriteAdds(m, s, x, chunks);
      case Flush => FlushAddsNone(m, s);
    }
  }

  lemma WriteAdds(m: Mode, s: State, x: Extent, chunks: seq<int>)
    requires Returns(x.len, chunks)
    ensures Flat(Of(AfterWrite(m, s, x, chunks).trace, Writes)) ==
            Flat(Of(s.trace, Writes)) + Range(x.off, if Fails(chunks) then Progress(chunks) else x.len)
  {
    hide Of, Flat, PWrites, Returns, Progress;
    var l := if Locking(m) then [Lock(x)] else [];
    var t, w := s.trace + l, PWrites(x.off, chunks);
    OfNone(Writes);
    OfConcat(s.trace, l, Writes);
    OfOne(Lock(x), Writes);
    OfConcat(t, w, Writes);
    FlatConcat(Of(t, Writes), Of(w, Writes));
    PWritesFlat(x.off, chunks);
    assert Of(t, Writes) == Of(s.trace, Writes);
    assert Flat(Of(t + w, Writes)) == Flat(Of(s.trace, Writes)) + Range(x.off, Progress(chunks));
    var now := AfterWrite(m, s, x, chunks).trace;
    if Fails(chunks) {
      assert now == t + w;
    } else {
      AllWritten(x.len, chunks);
      FlushTraceOf(t + w, s.pen + [x], Writes);
      assert now == t + w || now == (t + w) + Flushes(s.pen + [x]);
      assert Of(now, Writes) == Of(t + w, Writes);
    }
  }

  lemma FlushAddsNone(m: Mode, s: State)
    ensures Of(AfterFlushCall(m, s).trace, Writes) == Of(s.trace, Writes)
  {
    hide Of;
    var t := s.trace + Flushes(s.pen);
    FlushTraceOf(s.trace, s.pen, Writes);
    OfAppend(t, FlushWait, Writes);
    OfConcat(t + [FlushWait], Unlocks(s.wait + s.pen), Writes);
    OfUnlocks(s.wait + s.pen, Writes);
    OfAppend(s.trace, Fsync, Writes);
    assert (t + [FlushWait]) + [] == t + [FlushWait];
  }

  /** The lock taken last, if only writes came since. */
  function Holder(t: seq<Event>): seq<Extent> {
    if t == [] then []
    else match t[|t| - 1]
      case Lock(x) => [x]
      case PWrite(_) => Holder(t[..|t| - 1])
      case _ => []
  }

  ghost predicate Under(h: seq<Extent>, y: Extent) {
    |h| == 1 && h[0].off <= y.off && y.End() <= h[0].End()
  }

  /** Every write of data lies in the extent locked just before. */
  ghost predicate WritesLocked(t: seq<Event>) {
    forall i :: 0 <= i < |t| && t[i].PWrite? ==> Under(Holder(t[..i]), t[i].x)
  }

  lemma LockedAppend(t: seq<Event>, e: Event)
    requires WritesLocked(t) && (e.PWrite? ==> Under(Holder(t), e.x))
    ensures WritesLocked(t + [e])
    ensures Holder(t + [e]) == if e.Lock? then [e.x] else if e.PWrite? then Holder(t) else []
  {
    var u := t + [e];
    assert u[..|t|] == t;
    forall i | 0 <= i < |u| && u[i].PWrite? ensures Under(Holder(u[..i]), u[i].x) {
      assert u[..i] == t[..i];
      if i == |t| { assert t[..i] == t; }
    }
  }

  lemma {:induction false} LockedPWrites(t: seq<Event>, x: Extent, off: int, len: nat, chunks: seq<int>)
    requires WritesLocked(t) && Holder(t) == [x] && x.off <= off && off + len == x.End() && Returns(len, chunks)
    ensures WritesLocked(t + PWrites(off, chunks))
    decreases |chunks|
  {
    hide WritesLocked, Holder;
    if chunks == [] || chunks[0] < 0 {
      assert t + PWrites(off, chunks) == t;
    } else {
      var e := PWrite(Extent(off, chunks[0]));
      LockedAppend(t, e);
      LockedPWrites(t + [e], x, off + chunks[0], len - chunks[0], chunks[1..]);
      Assoc(t, [e], PWrites(off + chunks[0], chunks[1..]));
    }
  }

  lemma {:induction false} LockedFlushes(t: seq<Event>, xs: seq<Extent>)
    requires WritesLocked(t)
    ensures WritesLocked(t + Flushes(xs))
  {
    hide WritesLocked, Holder;
    if xs == [] {
      assert t + Flushes(xs) == t;
    } else {
      var p, x := xs[..|xs| - 1], xs[|xs| - 1];
      LockedFlushes(t, p);
      LockedAppend(t + Flushes(p), FlushRange(x));
      Assoc(t, Flushes(p), [FlushRange(x)]);
    }
  }

  lemma {:induction false} LockedUnlocks(t: seq<Event>, xs: seq<Extent>)
    requires WritesLocked(t)
    ensures WritesLocked(t + Unlocks(xs))
  {
    hide WritesLocked, Holder;
    if xs == [] {
      assert t + Unlocks(xs) == t;
    } else {
      var p, x := xs[..|xs| - 1], xs[|xs| - 1];
      LockedUnlocks(t, p);
      LockedAppend(t + Unlocks(p), Unlock(x));
      Assoc(t, Unlocks(p), [Unlock(x)]);
    }
  }

  lemma WriteLocked(m: Mode, s: State, x: Extent, chunks: seq<int>)
    requires Locking(m) && WritesLocked(s.trace) && Returns(x.len, chunks)
    ensures WritesLocked(AfterWrite(m, s, x, chunks).trace)
  {
    hide WritesLocked, Holder, Returns, PWrites, Flushes, Fails;
    LockedAppend(s.trace, Lock(x));
    LockedPWrites(s.trace + [Lock(x)], x, x.off, x.len, chunks);
    LockedFlushes(WriteTrace(m, s.trace, x, chunks), s.pen + [x]);
  }

  lemma FlushLocked(m: Mode, s: State)
    requires WritesLocked(s.trace)
    ensures WritesLocked(AfterFlushCall(m, s).trace)
  {
    hide WritesLocked, Holder, Flushes, Unlocks;
    var t := s.trace + Flushes(s.pen);
    LockedFlushes(s.trace, s.pen);
    LockedAppend(t, FlushWait);
    LockedUnlocks(t + [FlushWait], s.wait + s.pen);
    LockedAppend(s.trace, Fsync);
    assert (t + [FlushWait]) + [] == t + [FlushWait];
  }

  /** In coherent mode, in every run: data are written only inside the extent that was
      locked just before. */
  lemma {:induction false} RunWritesLocked(m: Mode, ops: seq<Op>)
    requires Locking(m) && Possible(ops)
    ensures WritesLocked(After(m, ops).trace)
  {
    hide WritesLocked, AfterWrite, AfterFlushCall, Returns;
    if ops == [] {
      NothingWritten();
    } else {
      var n := |ops| - 1;
      RunWritesLocked(m, ops[..n]);
      match ops[n]
      case Write(x, chunks) =>
        assert Returns(x.len, chunks);
        WriteLocked(m, After(m, ops[..n]), x, chunks);
      case Flush => FlushLocked(m, After(m, ops[..n]));
    }
  }

  lemma NothingWritten()
    ensures WritesLocked([])
  {
  }

  // ---------- When things are flushed ----------

  /** The number of operations up to and with the last flush. */
  function ToLastFlush(ops: seq<Op>): (n: nat)
    ensures n <= |ops|
  {
    if ops == [] then 0 else if ops[|ops| - 1] == Flush then |ops| else ToLastFlush(ops[..|ops| - 1])
  }

  /** With immediate flushing every write is flushed at once; otherwise just the writes
      before the last flush are. */
  lemma {:induction false} FlushedWhen(m: Mode, ops: seq<Op>)
    requires Queueing(m)
    ensures Of(After(m, ops).trace, Flushed) ==
            if m.flag == FlushImmediate then Succeeded(ops) else Succeeded(ops[..ToLastFlush(ops)])
    ensures m.flag == FlushImmediate ==> After(m, ops).pen == []
  {
    hide Of, Fails, WriteTrace, InOrder;
    RunInOrder(m, ops);
    CleanFacts(m, After(m, ops), ops);
    if ops == [] {
      OfNone(Flushed);
    } else {
      var n := |ops| - 1;
      var p, s := ops[..n], After(m, ops[..n]);
      FlushedWhen(m, p);
      match ops[n]
      case Write(x, chunks) =>
        WriteTraceOf(m, s.trace, x, chunks, Flushed);
        assert ops[..ToLastFlush(p)] == p[..ToLastFlush(p)];
      case Flush =>
        assert ops[..|ops|] == ops;
    }
  }

  /** How often Flush was called. */
  function FlushCalls(ops: seq<Op>): nat {
    if ops == [] then 0 else FlushCalls(ops[..|ops| - 1]) + if ops[|ops| - 1] == Flush then 1 else 0
  }

  predicate Waiting(e: Event) { e == FlushWait || e == Fsync }

  lemma {:induction false} NoWaits(off: int, chunks: seq<int>, xs: seq<Extent>, e: Event)
    requires Waiting(e)
    ensures e !in PWrites(off, chunks) && e !in Flushes(xs) && e !in Unlocks(xs)
    decreases |chunks|, |xs|
  {
    if xs != [] {
      NoWaits(off, chunks, xs[..|xs| - 1], e);
    } else if chunks != [] && chunks[0] >= 0 {
      NoWaits(off + chunks[0], chunks[1..], xs, e);
    }
  }

  lemma Occurs(t: seq<Event>, u: seq<Event>, e: Event)
    requires e !in u
    ensures multiset(t + u)[e] == multiset(t)[e]
  {
    assert e !in multiset(u);
  }

  lemma WriteWaits(m: Mode, s: State, x: Extent, chunks: seq<int>, e: Event)
    requires Waiting(e)
    ensures multiset(AfterWrite(m, s, x, chunks).trace)[e] == multiset(s.trace)[e]
  {
    hide PWrites, Flushes, Fails;
    var l := if Locking(m) then [Lock(x)] else [];
    NoWaits(x.off, chunks, s.pen + [x], e);
    Occurs(s.trace, l, e);
    Occurs(s.trace + l, PWrites(x.off, chunks), e);
    Occurs(WriteTrace(m, s.trace, x, chunks), Flushes(s.pen + [x]), e);
  }

  lemma FlushWaits(m: Mode, s: State, e: Event)
    requires Waiting(e)
    ensures multiset(AfterFlushCall(m, s).trace)[e] ==
            multiset(s.trace)[e] + if (if Queueing(m) then e == FlushWait else m.isOpen && e == Fsync) then 1 else 0
  {
    hide Flushes, Unlocks;
    NoWaits(0, [], s.pen, e);
    NoWaits(0, [], s.wait + s.pen, e);
    var t := s.trace + Flushes(s.pen);
    Occurs(s.trace, Flushes(s.pen), e);
    Occurs(t + [FlushWait], Unlocks(s.wait + s.pen), e);
    Occurs(t + [FlushWait], [], e);
  }

  /** Each flush call waits exactly once if there are queues; without them it makes one
      fsync if the file is open; nothing else does either. */
  lemma {:induction false} WaitsPerFlush(m: Mode, ops: seq<Op>)
    ensures multiset(After(m, ops).trace)[FlushWait] == if Queueing(m) then FlushCalls(ops) else 0
    ensures multiset(After(m, ops).trace)[Fsync] == if !Queueing(m) && m.isOpen then FlushCalls(ops) else 0
  {
    hide AfterWrite, AfterFlushCall;
    if ops == [] {
    } else {
      var n := |ops| - 1;
      WaitsPerFlush(m, ops[..n]);
      var s := After(m, ops[..n]);
      match ops[n]
      case Write(x, chunks) =>
        WriteWaits(m, s, x, chunks, FlushWait);
        WriteWaits(m, s, x, chunks, Fsync);
      case Flush =>
        FlushWaits(m, s, FlushWait);
        FlushWaits(m, s, Fsync);
    }
  }

  /** fp_sys_posn after the last write: its end, or -1 if it failed. */
  function LastPosn(ops: seq<Op>): int {
    if ops == [] then -1
    else match ops[|ops| - 1]
      case Write(x, chunks) => if Fails(chunks) then -1 else x.off + x.len
      case Flush => LastPosn(ops[..|ops| - 1])
  }

  lemma {:induction false} RunPosn(m: Mode, ops: seq<Op>)
    ensures After(m, ops).posn == LastPosn(ops)
  {
    hide Fails;
    if ops == [] {
    } else {
      RunPosn(m, ops[..|ops| - 1]);
    }
  }

  // ---------- Locks given back ----------

  ghost predicate SomeFailed(ops: seq<Op>) {
    exists i :: 0 <= i < |ops| && ops[i].Write? && Fails(ops[i].chunks)
  }

  lemma {:induction false} AttemptsSucceed(ops: seq<Op>)
    ensures if SomeFailed(ops) then |Succeeded(ops)| < |Attempted(ops)| else Succeeded(ops) == Attempted(ops)
  {
    hide Fails;
    if ops == [] {
    } else {
      var p, o := ops[..|ops| - 1], ops[|ops| - 1];
      assert ops == p + [o];
      AttemptsSucceed(p);
      AppendOp(p, o);
      FailedAppend(p, o);
    }
  }

  lemma FailedAppend(ops: seq<Op>, o: Op)
    ensures SomeFailed(ops + [o]) <==> SomeFailed(ops) || (o.Write? && Fails(o.chunks))
  {
    hide Fails;
    var all := ops + [o];
    if SomeFailed(ops) {
      var i :| 0 <= i < |ops| && ops[i].Write? && Fails(ops[i].chunks);
      assert all[i] == ops[i];
    }
    if o.Write? && Fails(o.chunks) { assert all[|ops|] == o; }
    if i :| 0 <= i < |all| && all[i].Write? && Fails(all[i].chunks) {
      if i < |ops| { assert ops[i] == all[i]; }
    }
  }

  /** Without queues nothing is ever flushed or unlocked. */
  lemma {:induction false} RunWithoutQueues(m: Mode, ops: seq<Op>)
    requires !Queueing(m)
    ensures Of(After(m, ops).trace, Unlocked) == [] && Of(After(m, ops).trace, Flushed) == []
    ensures Of(After(m, ops).trace, Locks) == if Locking(m) then Attempted(ops) else []
  {
    hide Of, WriteTrace;
    OfNone(Locks);
    OfNone(Unlocked);
    OfNone(Flushed);
    if ops == [] {
    } else {
      var n := |ops| - 1;
      RunWithoutQueues(m, ops[..n]);
      var t := After(m, ops[..n]).trace;
      match ops[n]
      case Write(x, chunks) =>
        WriteTraceOf(m, t, x, chunks, Locks);
        WriteTraceOf(m, t, x, chunks, Unlocked);
        WriteTraceOf(m, t, x, chunks, Flushed);
      case Flush =>
        OfAppend(t, Fsync, Locks);
        OfAppend(t, Fsync, Unlocked);
        OfAppend(t, Fsync, Flushed);
    }
  }

  /** Every lock is given back, in a run that ends in a flush, exactly when no locks are
      taken at all, or there is nothing to write, or there are queues and no write fails. */
  lemma {:induction false} LocksReturnedIff(m: Mode, ops: seq<Op>)
    requires ops != [] && ops[|ops| - 1] == Flush
    ensures var t := After(m, ops).trace;
      Of(t, Unlocked) == Of(t, Locks) <==>
        !Locking(m) || Attempted(ops) == [] || (m.flag != FlushNone && !SomeFailed(ops))
  {
    AttemptsSucceed(ops);
    if Queueing(m) { RunEndsClean(m, ops); } else { RunWithoutQueues(m, ops); }
  }

  /** A failed write leaves its extent locked. */
  lemma {:induction false} FailedWriteKeepsLock()
    ensures var m, x := Mode(true, true, FlushImmediate, true), Extent(0, 10);
      var t := After(m, [Write(x, [4, -1]), Flush]).trace;
      Returns(x.len, [4, -1]) && Of(t, Locks) == [x] && Of(t, Unlocked) == []
  {
    var m, x := Mode(true, true, FlushImmediate, true), Extent(0, 10);
    var w := Write(x, [4, -1]);
    var ops := [w, Flush];
    assert Fails([4, -1]) by { assert [4, -1][1] == -1; }
    assert ops[..1] == [w] && [w][..0] == [];
    assert Attempted([w]) == [x] && Succeeded([w]) == [];
    RunEndsClean(m, ops);
    assert [4, -1][1..] == [-1];
  }
}
