/**
 The rank-ordered shared file pointer (`MPI_File_write_ordered`, `MPI_File_read_ordered`):
 in every call a process waits for a token from the rank below, takes its place by an
 atomic fetch-and-add on the shared pointer, hands the token on, and enters the collective
 transfer.  A step system over n processes making several calls in a row.
 */
module OrderedPointer {
  import opened Sequences

  /** incr[k][r]: what rank r adds in call k.  `sync` says that the collective transfer
      makes the processes wait for each other. */
  datatype Config = Config(n: nat, incr: seq<seq<nat>>, start: int, sync: bool)

  ghost predicate Wellformed(c: Config) {
    c.n > 0 && forall k :: 0 <= k < |c.incr| ==> |c.incr[k]| == c.n
  }

  /** The next thing a process does in its current call. */
  datatype Pc = Recv | Fetch | Send | Transfer

  /** A process is finished when it has made all calls. */
  datatype Proc = Proc(call: nat, pc: Pc, got: seq<int>)

  /** chan[r]: tokens on their way to rank r. */
  datatype State = State(procs: seq<Proc>, chan: seq<nat>, fp: int)

  /** All that was added in the calls before k. */
  function Earlier(incr: seq<seq<nat>>, k: nat): int
    requires k <= |incr|
  {
    if k == 0 then 0 else Earlier(incr, k - 1) + Sum(incr[k - 1])
  }

  /** Where rank r belongs in call k. */
  ghost function Place(c: Config, k: nat, r: nat): int
    requires Wellformed(c) && k <= |c.incr| && (k < |c.incr| ==> r <= c.n) && (k == |c.incr| ==> r == 0)
  {
    c.start + Earlier(c.incr, k) + if k < |c.incr| then Sum(c.incr[k][..r]) else 0
  }

  ghost predicate Begins(c: Config, s: State) {
    && |s.procs| == |s.chan| == c.n && s.fp == c.start
    && forall r :: 0 <= r < c.n ==> s.procs[r] == Proc(0, Recv, []) && s.chan[r] == 0
  }

  ghost predicate Busy(c: Config, s: State, r: nat) {
    r < c.n == |s.procs| == |s.chan| && s.procs[r].call < |c.incr|
  }

  ghost predicate DoRecv(c: Config, s: State, s': State, r: nat) {
    && Busy(c, s, r) && s.procs[r].pc == Recv && (r == 0 || s.chan[r] > 0)
    && s' == s.(procs := s.procs[r := s.procs[r].(pc := Fetch)],
                chan := if r == 0 then s.chan else s.chan[r := s.chan[r] - 1])
  }

  ghost predicate DoFetch(c: Config, s: State, s': State, r: nat)
    requires Wellformed(c)
  {
    && Busy(c, s, r) && s.procs[r].pc == Fetch
    && s' == s.(procs := s.procs[r := s.procs[r].(pc := Send, got := s.procs[r].got + [s.fp])],
                fp := s.fp + c.incr[s.procs[r].call][r])
  }

  ghost predicate DoSend(c: Config, s: State, s': State, r: nat) {
    && Busy(c, s, r) && s.procs[r].pc == Send
    && s' == s.(procs := s.procs[r := s.procs[r].(pc := Transfer)],
                chan := if r + 1 < c.n then s.chan[r + 1 := s.chan[r + 1] + 1] else s.chan)
  }

  /** Rank q has entered the transfer of call k. */
  ghost predicate Entered(s: State, q: nat, k: nat)
    requires q < |s.procs|
  {
    s.procs[q].call > k || (s.procs[q].call == k && s.procs[q].pc == Transfer)
  }

  ghost predicate DoTransfer(c: Config, s: State, s': State, r: nat) {
    && Busy(c, s, r) && s.procs[r].pc == Transfer
    && (c.sync ==> forall q :: 0 <= q < c.n ==> Entered(s, q, s.procs[r].call))
    && s' == s.(procs := s.procs[r := s.procs[r].(call := s.procs[r].call + 1, pc := Recv)])
  }

  ghost predicate StepOf(c: Config, s: State, s': State, r: nat)
    requires Wellformed(c)
  {
    DoRecv(c, s, s', r) || DoFetch(c, s, s', r) || DoSend(c, s, s', r) || DoTransfer(c, s, s', r)
  }

  ghost predicate Step(c: Config, s: State, s': State)
    requires Wellformed(c)
  {
    exists r: nat :: StepOf(c, s, s', r)
  }

  ghost predicate Run(c: Config, run: seq<State>)
    requires Wellformed(c)
  {
    run != [] && Begins(c, run[0]) && forall i :: 0 <= i < |run| - 1 ==> Step(c, run[i], run[i + 1])
  }

  /** Every rank got its place in every call it has fetched for. */
  ghost predicate InPlace(c: Config, s: State)
    requires Wellformed(c)
  {
    && |s.procs| == c.n
    && forall q, j :: 0 <= q < c.n && 0 <= j < |s.procs[q].got| ==>
         j < |c.incr| && s.procs[q].got[j] == Place(c, j, q)
  }

  /** When the calls cannot mix. */
  ghost predicate Separated(c: Config) { c.sync || c.n <= 1 || |c.incr| <= 1 }

  // ---------- It is always somebody's turn ----------

  /** What a process may be doing when rank r is next to fetch in call k. */
  ghost predicate Where(c: Config, p: Proc, q: nat, k: nat, r: nat) {
    if q < r then
      || (p.call == k && (p.pc == Transfer || (p.pc == Send && q == r - 1)))
      || (p.call == k + 1 == |c.incr| && p.pc == Recv && !c.sync)
    else
      || (p.call == k && (p.pc == Recv || (p.pc == Fetch && q == r && k < |c.incr|)))
      || (p.call == k - 1 && (p.pc == Transfer || (p.pc == Send && r == 0 && q == c.n - 1)))
  }

  /** Rank r is next to fetch, in call k; there is one token, with r - 1, on its way to r,
      or with r (for r = 0, nowhere: rank 0 needs none). */
  ghost predicate Turn(c: Config, s: State, k: nat, r: nat)
    requires Wellformed(c)
  {
    && |s.procs| == |s.chan| == c.n && k <= |c.incr| && r < c.n && (k == |c.incr| ==> r == 0)
    && s.fp == Place(c, k, r) && InPlace(c, s)
    && (forall q :: 0 <= q < c.n ==> |s.procs[q].got| == if q < r then k + 1 else k)
    && (forall q :: 0 <= q < c.n ==> Where(c, s.procs[q], q, k, r))
    && (k < |c.incr| && r == 0 && s.procs[c.n - 1].pc == Send ==> forall q :: 0 <= q < c.n ==> s.procs[q].call == k - 1)
    && (forall q :: 0 <= q < c.n && q != r ==> s.chan[q] == 0)
    && s.chan[r] <= 1 && (r == 0 ==> s.chan[r] == 0)
    && (r > 0 ==>
          (if s.procs[r - 1].pc == Send then 1 else 0) + s.chan[r] + (if s.procs[r].pc == Fetch then 1 else 0) == 1)
  }

  lemma SumStep(s: seq<nat>, r: nat)
    requires r < |s|
    ensures Sum(s[..r + 1]) == Sum(s[..r]) + s[r]
  {
    assert s[..r + 1][..r] == s[..r];
  }

  /** Regions follow each other without gap, in rank order, call after call. */
  lemma {:induction false} PlaceNext(c: Config, k: nat, r: nat)
    requires Wellformed(c) && k < |c.incr| && r < c.n
    ensures r + 1 < c.n ==> Place(c, k, r) + c.incr[k][r] == Place(c, k, r + 1)
    ensures r + 1 == c.n ==> Place(c, k, r) + c.incr[k][r] == Place(c, k + 1, 0)
  {
    SumStep(c.incr[k], r);
    if r + 1 == c.n {
      assert c.incr[k][..c.n] == c.incr[k];
      if k + 1 < |c.incr| { assert c.incr[k + 1][..0] == []; }
    }
  }

  lemma PlaceStart(c: Config)
    requires Wellformed(c)
    ensures Place(c, 0, 0) == c.start
  {
    if |c.incr| > 0 { assert c.incr[0][..0] == []; }
  }

  lemma StartTurn(c: Config, s: State)
    requires Wellformed(c) && Begins(c, s)
    ensures Turn(c, s, 0, 0)
  {
    PlaceStart(c);
  }

  lemma RecvTurn(c: Config, s: State, s': State, k: nat, r: nat, q: nat)
    requires Wellformed(c) && Separated(c) && Turn(c, s, k, r) && DoRecv(c, s, s', q)
    ensures Turn(c, s', k, r)
  {
    hide Place;
    assert Where(c, s.procs[q], q, k, r);
    assert q == r && s.procs[q].call == k;
  }

  lemma FetchTurn(c: Config, s: State, s': State, k: nat, r: nat, q: nat)
    requires Wellformed(c) && Separated(c) && Turn(c, s, k, r) && DoFetch(c, s, s', q)
    ensures if r + 1 < c.n then Turn(c, s', k, r + 1) else Turn(c, s', k + 1, 0)
  {
    hide Place;
    assert Where(c, s.procs[q], q, k, r);
    assert q == r && s.procs[q].call == k < |c.incr|;
    PlaceNext(c, k, r);
    if r + 1 < c.n {
      assert s'.procs[r].pc == Send;
      forall p | 0 <= p < c.n ensures Where(c, s'.procs[p], p, k, r + 1) { assert Where(c, s.procs[p], p, k, r); }
    } else {
      forall p | 0 <= p < c.n ensures Where(c, s'.procs[p], p, k + 1, 0) { assert Where(c, s.procs[p], p, k, r); }
    }
  }

  lemma SendTurn(c: Config, s: State, s': State, k: nat, r: nat, q: nat)
    requires Wellformed(c) && Separated(c) && Turn(c, s, k, r) && DoSend(c, s, s', q)
    ensures Turn(c, s', k, r)
  {
    hide Place;
    assert Where(c, s.procs[q], q, k, r);
  }

  lemma TransferTurn(c: Config, s: State, s': State, k: nat, r: nat, q: nat)
    requires Wellformed(c) && Separated(c) && Turn(c, s, k, r) && DoTransfer(c, s, s', q)
    ensures Turn(c, s', k, r)
  {
    hide Place;
    assert Where(c, s.procs[q], q, k, r) && Where(c, s.procs[r], r, k, r);
    assert Where(c, s.procs[c.n - 1], c.n - 1, k, r);
    if c.sync { assert Entered(s, r, s.procs[q].call) && Entered(s, c.n - 1, s.procs[q].call); }
    forall p | 0 <= p < c.n ensures Where(c, s'.procs[p], p, k, r) { assert Where(c, s.procs[p], p, k, r); }
  }

  /** Every step keeps it, moving the turn on when somebody fetches. */
  lemma {:induction false} StepTurn(c: Config, s: State, s': State, k: nat, r: nat) returns (k': nat, r': nat)
    requires Wellformed(c) && Separated(c) && Turn(c, s, k, r) && Step(c, s, s')
    ensures Turn(c, s', k', r')
  {
    hide Turn, Separated;
    var q: nat :| StepOf(c, s, s', q);
    k', r' := k, r;
    if DoRecv(c, s, s', q) {
      RecvTurn(c, s, s', k, r, q);
    } else if DoFetch(c, s, s', q) {
      FetchTurn(c, s, s', k, r, q);
      k', r' := if r + 1 < c.n then k else k + 1, if r + 1 < c.n then r + 1 else 0;
    } else if DoSend(c, s, s', q) {
      SendTurn(c, s, s', k, r, q);
    } else {
      TransferTurn(c, s, s', k, r, q);
    }
  }

  lemma {:induction false} RunTurn(c: Config, run: seq<State>, i: nat) returns (k: nat, r: nat)
    requires Wellformed(c) && Separated(c) && Run(c, run) && i < |run|
    ensures Turn(c, run[i], k, r)
  {
    hide Turn, Separated, Step;
    if i == 0 {
      StartTurn(c, run[0]);
      k, r := 0, 0;
    } else {
      var j := i - 1;
      k, r := RunTurn(c, run, j);
      assert i == j + 1 && Step(c, run[j], run[j + 1]);
      k, r := StepTurn(c, run[j], run[i], k, r);
    }
  }

  /** Tokens anywhere: in a channel, or held by a rank above 0, or to be sent to one. */
  ghost function Tokens(c: Config, s: State, r: nat): nat
    requires r < c.n == |s.procs| == |s.chan|
  {
    s.chan[r] +
    (if r > 0 && s.procs[r].pc == Fetch then 1 else 0) +
    (if r + 1 < c.n && s.procs[r].pc == Send then 1 else 0)
  }

  /** In every state of every run of separated calls: everyone has its place, and two
      ranks never have a token at the same time. */
  lemma {:induction false} OrderedRuns(c: Config, run: seq<State>, i: nat)
    requires Wellformed(c) && Separated(c) && Run(c, run) && i < |run|
    ensures InPlace(c, run[i])
    ensures |run[i].procs| == |run[i].chan| == c.n
    ensures forall p, q :: 0 <= p < q < c.n ==> Tokens(c, run[i], p) + Tokens(c, run[i], q) <= 1
    ensures forall p :: 0 <= p < c.n ==> Tokens(c, run[i], p) <= 1
  {
    hide Place, Run, Separated;
    var k, r := RunTurn(c, run, i);
    var s := run[i];
    forall p | 0 <= p < c.n ensures Tokens(c, s, p) <= (if p == r || p + 1 == r then 1 else 0) {
      assert Where(c, s.procs[p], p, k, r);
    }
  }

  // ---------- Tokens are neither lost nor made ----------

  function Sends(p: Proc): nat { p.call + if p.pc == Transfer then 1 else 0 }

  function Recvs(p: Proc): nat { p.call + if p.pc == Recv then 0 else 1 }

  /** The tokens on their way to rank q: those rank q - 1 sent and q has not received. */
  ghost predicate Accounted(c: Config, s: State) {
    && |s.procs| == |s.chan| == c.n
    && (forall q :: 0 <= q < c.n ==>
         s.procs[q].call <= |c.incr| && (s.procs[q].call == |c.incr| ==> s.procs[q].pc == Recv))
    && forall q :: 1 <= q < c.n ==> s.chan[q] == Sends(s.procs[q - 1]) - Recvs(s.procs[q])
  }

  lemma StepAccounted(c: Config, s: State, s': State, r: nat)
    requires Wellformed(c) && Accounted(c, s) && StepOf(c, s, s', r)
    ensures Accounted(c, s')
  {
    forall q | 1 <= q < c.n ensures s'.chan[q] == Sends(s'.procs[q - 1]) - Recvs(s'.procs[q]) {
      assert s.chan[q] == Sends(s.procs[q - 1]) - Recvs(s.procs[q]);
    }
  }

  /** In every run, synchronised or not. */
  lemma {:induction false} RunAccounted(c: Config, run: seq<State>, i: nat)
    requires Wellformed(c) && Run(c, run) && i < |run|
    ensures Accounted(c, run[i])
  {
    hide Accounted, StepOf;
    if i == 0 {
      StartAccounted(c, run[0]);
    } else {
      var j := i - 1;
      RunAccounted(c, run, j);
      assert i == j + 1 && Step(c, run[j], run[j + 1]);
      var r: nat :| StepOf(c, run[j], run[j + 1], r);
      StepAccounted(c, run[j], run[i], r);
    }
  }

  lemma StartAccounted(c: Config, s: State)
    requires Wellformed(c) && Begins(c, s)
    ensures Accounted(c, s)
  {
  }

  /** The lowest unfinished rank. */
  lemma {:induction false} Lowest(c: Config, s: State, q: nat) returns (r: nat)
    requires |s.procs| == c.n && q < c.n && s.procs[q].call < |c.incr|
    ensures r <= q && s.procs[r].call < |c.incr| && forall p :: 0 <= p < r ==> s.procs[p].call >= |c.incr|
  {
    if p :| 0 <= p < q && s.procs[p].call < |c.incr| {
      r := Lowest(c, s, p);
    } else {
      r := q;
    }
  }

  /** If nobody waits in the transfer, the lowest unfinished rank can always go on: all
      tokens meant for it were sent. */
  lemma LowestAble(c: Config, s: State, r: nat)
    requires Wellformed(c) && !c.sync && Accounted(c, s)
    requires r < c.n && s.procs[r].call < |c.incr| && forall p :: 0 <= p < r ==> s.procs[p].call >= |c.incr|
    ensures Able(c, s, r)
  {
    if r > 0 { assert s.chan[r] == Sends(s.procs[r - 1]) - Recvs(s.procs[r]); }
  }

  /** No unfinished state of any run is stuck, whether or not the transfer synchronises. */
  lemma {:induction false} NotStuck(c: Config, run: seq<State>, i: nat) returns (s': State)
    requires Wellformed(c) && Run(c, run) && i < |run|
    requires exists q :: 0 <= q < |run[i].procs| && run[i].procs[q].call < |c.incr|
    ensures Step(c, run[i], s')
  {
    hide Place, Run, Step, InPlace;
    var s := run[i];
    RunAccounted(c, run, i);
    var q: nat :| q < |s.procs| && s.procs[q].call < |c.incr|;
    if c.sync {
      var k, r := RunTurn(c, run, i);
      q := Mover(c, s, k, r);
    } else {
      q := Lowest(c, s, q);
      LowestAble(c, s, q);
    }
    s' := Move(c, s, q);
    StepIntro(c, s, s', q);
  }

  lemma StepIntro(c: Config, s: State, s': State, q: nat)
    requires Wellformed(c) && StepOf(c, s, s', q)
    ensures Step(c, s, s')
  {
  }

  /** Can rank q do something? */
  ghost predicate Able(c: Config, s: State, q: nat) {
    && Busy(c, s, q)
    && match s.procs[q].pc
       case Recv => q == 0 || s.chan[q] > 0
       case Fetch => true
       case Send => true
       case Transfer => c.sync ==> forall p :: 0 <= p < c.n ==> Entered(s, p, s.procs[q].call)
  }

  lemma Move(c: Config, s: State, q: nat) returns (s': State)
    requires Wellformed(c) && Able(c, s, q)
    ensures StepOf(c, s, s', q)
  {
    var p := s.procs[q];
    match p.pc
    case Recv =>
      s' := s.(procs := s.procs[q := p.(pc := Fetch)], chan := if q == 0 then s.chan else s.chan[q := s.chan[q] - 1]);
      assert DoRecv(c, s, s', q);
    case Fetch =>
      s' := s.(procs := s.procs[q := p.(pc := Send, got := p.got + [s.fp])], fp := s.fp + c.incr[p.call][q]);
    case Send =>
      s' := s.(procs := s.procs[q := p.(pc := Transfer)],
               chan := if q + 1 < c.n then s.chan[q + 1 := s.chan[q + 1] + 1] else s.chan);
      assert DoSend(c, s, s', q);
    case Transfer =>
      s' := s.(procs := s.procs[q := p.(call := p.call + 1, pc := Recv)]);
      assert DoTransfer(c, s, s', q);
  }

  lemma Mover(c: Config, s: State, k: nat, r: nat) returns (q: nat)
    requires Wellformed(c) && Separated(c) && Turn(c, s, k, r)
    requires exists q :: 0 <= q < c.n && s.procs[q].call < |c.incr|
    ensures Able(c, s, q)
  {
    hide Place, InPlace;
    if s.procs[c.n - 1].pc == Send {
      q := c.n - 1;
    } else if k < |c.incr| {
      assert Where(c, s.procs[r], r, k, r);
      q := if r > 0 && s.procs[r].pc == Recv && s.chan[r] == 0 then r - 1 else r;
    } else {
      q :| 0 <= q < c.n && s.procs[q].call < |c.incr|;
      assert Where(c, s.procs[q], q, k, r);
    }
    assert Where(c, s.procs[q], q, k, r);
  }

  /** Regions of different places do not overlap: a later place starts after the earlier
      one's end. */
  lemma {:induction false} RegionsApart(c: Config, k: nat, r: nat, k': nat, r': nat)
    requires Wellformed(c) && k < |c.incr| && r < c.n && k' < |c.incr| && r' < c.n
    requires k < k' || (k == k' && r < r')
    ensures Place(c, k, r) + c.incr[k][r] <= Place(c, k', r')
    decreases k' - k, c.n - r
  {
    hide Place;
    PlaceNext(c, k, r);
    if r + 1 < c.n {
      if !(k == k' && r + 1 == r') { RegionsApart(c, k, r + 1, k', r'); }
    } else if !(k + 1 == k' && r' == 0) {
      RegionsApart(c, k + 1, 0, k', r');
    }
  }

  // ---------- Calls that are not separated ----------

  lemma Extend(c: Config, run: seq<State>, q: nat) returns (run': seq<State>)
    requires Wellformed(c) && Run(c, run) && Able(c, run[|run| - 1], q)
    ensures Run(c, run') && |run'| == |run| + 1 && StepOf(c, run[|run| - 1], run'[|run|], q)
  {
    hide Step, Able;
    var s := run[|run| - 1];
    var s' := Move(c, s, q);
    StepIntro(c, s, s', q);
    run' := run + [s'];
    forall i | 0 <= i < |run'| - 1 ensures Step(c, run'[i], run'[i + 1]) {
      if i < |run| - 1 { assert Step(c, run[i], run[i + 1]); }
    }
  }

  /** Rank 0 does one whole call: nobody holds it back. */
  lemma FirstCall(c: Config, run: seq<State>) returns (run': seq<State>)
    requires Wellformed(c) && !c.sync && c.n >= 2 && |c.incr| >= 2 && Run(c, run) && |run| == 1
    ensures Run(c, run') && |run'| == 5
    ensures var s := run'[4];
      |s.procs| == |s.chan| == c.n && s.fp == c.start + c.incr[0][0] && s.procs[0].call == 1 && s.procs[0].pc == Recv &&
      s.procs[1] == Proc(0, Recv, []) && s.chan[1] == 1
  {
    var r1 := Extend(c, run, 0);
    var r2 := Extend(c, r1, 0);
    var r3 := Extend(c, r2, 0);
    run' := Extend(c, r3, 0);
  }

  /** ... and fetches for its second call before rank 1 has fetched for its first. */
  lemma Overtake(c: Config, run: seq<State>) returns (run': seq<State>)
    requires Wellformed(c) && c.n >= 2 && |c.incr| >= 2 && Run(c, run) && |run| == 5
    requires var s := run[4];
      |s.procs| == |s.chan| == c.n && s.fp == c.start + c.incr[0][0] && s.procs[0].call == 1 && s.procs[0].pc == Recv &&
      s.procs[1] == Proc(0, Recv, []) && s.chan[1] == 1
    ensures Run(c, run') && |run'| == 9
    ensures |run'[8].procs| == c.n && run'[8].procs[1].got == [c.start + c.incr[0][0] + c.incr[1][0]]
  {
    var r1 := Extend(c, run, 0);
    var r2 := Extend(c, r1, 0);
    var r3 := Extend(c, r2, 1);
    run' := Extend(c, r3, 1);
  }

  /** Without waiting in the transfer, two calls in a row can mix: rank 1 is put after what
      rank 0 writes in its second call. */
  lemma {:induction false} CallsMix(c: Config) returns (run: seq<State>)
    requires Wellformed(c) && !c.sync && c.n >= 2 && |c.incr| >= 2 && c.incr[1][0] > 0
    ensures Run(c, run) && |run| == 9 && !InPlace(c, run[8])
  {
    hide Step;
    var s := State(seq(c.n, _ => Proc(0, Recv, [])), seq(c.n, _ => 0), c.start);
    run := FirstCall(c, [s]);
    run := Overtake(c, run);
    var q := run[8].procs[1];
    SecondPlace(c);
    assert q.got[0] != Place(c, 0, 1);
  }

  lemma SecondPlace(c: Config)
    requires Wellformed(c) && c.n >= 2 && |c.incr| > 0
    ensures Place(c, 0, 1) == c.start + c.incr[0][0]
  {
    SumStep(c.incr[0], 0);
    assert c.incr[0][..0] == [];
  }

  ghost predicate AlwaysInPlace(n: nat, calls: nat, sync: bool) {
    forall c, run, i ::
      Wellformed(c) && c.n == n && |c.incr| == calls && c.sync == sync && Run(c, run) && 0 <= i < |run| ==>
      InPlace(c, run[i])
  }

  /** The promise holds in every interleaving, whatever the increments, exactly when the
      transfer synchronises or there is only one process or one call. */
  lemma {:induction false} OrderedIff(n: nat, calls: nat, sync: bool)
    requires n > 0
    ensures AlwaysInPlace(n, calls, sync) <==> sync || n <= 1 || calls <= 1
  {
    hide InPlace, Run;
    if sync || n <= 1 || calls <= 1 {
      forall c, run, i |
          Wellformed(c) && c.n == n && |c.incr| == calls && c.sync == sync && Run(c, run) && 0 <= i < |run|
        ensures InPlace(c, run[i])
      {
        OrderedRuns(c, run, i);
      }
    } else {
      var c := Config(n, seq(calls, _ => seq(n, _ => 1)), 0, false);
      var run := CallsMix(c);
      assert !InPlace(c, run[8]);
    }
  }
}
