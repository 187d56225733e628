/**
 The deferred close of MPIWRAP: opening a guard file really closes all files opened since
 the last one; in between, the application's own close does nothing.  Handles are numbered
 in the order of their opens, and `closes` records the closes passed on to MPI.
 */
module DeferredClose {
  import opened Extents

  datatype State = State(ofiles: seq<int>, next: nat, closes: seq<int>)

  /** What the application does: open a file whose name is or is not a guard name (the
      open succeeds or fails), or close a handle. */
  datatype Op = Open(guard: bool, ok: bool) | Close(h: int)

  function AfterOpen(s: State, guard: bool, ok: bool): State {
    var t := if guard then s.(ofiles := [], closes := s.closes + s.ofiles) else s;
    if !ok then t
    else t.(next := t.next + 1, ofiles := if guard || t.ofiles != [] then t.ofiles + [t.next] else [])
  }

  function AfterClose(s: State, h: int): State {
    if s.ofiles == [] then s.(closes := s.closes + [h]) else s
  }

  function AfterFinalize(s: State): State { s.(ofiles := [], closes := s.closes + s.ofiles) }

  class Wrapper {
    var ofiles: seq<int>
    var next: nat
    var closes: seq<int>

    constructor ()
      ensures Now() == State([], 0, [])
    {
      ofiles, next, closes := [], 0, [];
    }

    function Now(): State
      reads this
    {
      State(ofiles, next, closes)
    }

    /** Close every file in the list, first opened first. */
    method CloseAll()
      modifies this
      ensures Now() == AfterFinalize(old(Now()))
    {
      ghost var n := 0;
      while ofiles != []
        invariant 0 <= n <= |old(ofiles)| && ofiles == old(ofiles)[n..] && next == old(next)
        invariant closes == old(closes) + old(ofiles)[..n]
        decreases |ofiles|
      {
        closes := closes + [ofiles[0]];
        ofiles := ofiles[1..];
        n := n + 1;
      }
    }

    /** MPI_File_open */
    method FileOpen(guard: bool, ok: bool) returns (h: int)
      modifies this
      ensures Now() == AfterOpen(old(Now()), guard, ok)
      ensures h == if ok then old(next) else -1
    {
      if guard {
        CloseAll();
      }
      if !ok {
        return -1;
      }
      h := next;
      next := next + 1;
      if guard {
        ofiles := ofiles + [h];
      } else if ofiles != [] {
        ofiles := ofiles + [h];
      }
    }

    /** MPI_File_close */
    method FileClose(h: int)
      modifies this
      ensures Now() == AfterClose(old(Now()), h)
    {
      if ofiles == [] {
        closes := closes + [h];
      }
    }

    /** MPI_Finalize */
    method Finalize()
      modifies this
      ensures Now() == AfterFinalize(old(Now()))
    {
      CloseAll();
    }
  }

  // ---------- Runs ----------

  function After(ops: seq<Op>): State {
    if ops == [] then State([], 0, [])
    else
      var s := After(ops[..|ops| - 1]);
      match ops[|ops| - 1] case Open(guard, ok) => AfterOpen(s, guard, ok) case Close(h) => AfterClose(s, h)
  }

  /** Did the last attempt to open a guard file succeed? */
  predicate Deferring(ops: seq<Op>) {
    ops != [] && var o := ops[|ops| - 1]; if o.Open? && o.guard then o.ok else Deferring(ops[..|ops| - 1])
  }

  /** In every run the list is non-empty exactly when the last guard open succeeded, and
      it then holds the latest handles, in the order they were opened. */
  lemma {:induction false} ListIff(ops: seq<Op>)
    ensures After(ops).ofiles != [] <==> Deferring(ops)
    ensures |After(ops).ofiles| <= After(ops).next
    ensures After(ops).ofiles == Range(After(ops).next - |After(ops).ofiles|, |After(ops).ofiles|)
  {
    hide AfterOpen;
    if ops == [] {
    } else {
      var p, o := ops[..|ops| - 1], ops[|ops| - 1];
      ListIff(p);
      if o.Open? { OpenLatest(After(p), o.guard, o.ok); }
    }
  }

  lemma OpenLatest(s: State, guard: bool, ok: bool)
    requires |s.ofiles| <= s.next && s.ofiles == Range(s.next - |s.ofiles|, |s.ofiles|)
    ensures var t := AfterOpen(s, guard, ok);
      && |t.ofiles| <= t.next && t.ofiles == Range(t.next - |t.ofiles|, |t.ofiles|)
      && (t.ofiles != [] <==> if guard then ok else s.ofiles != [])
  {
  }

  ghost predicate OpensSucceed(ops: seq<Op>) {
    forall i :: 0 <= i < |ops| && ops[i].Open? ==> ops[i].ok
  }

  /** `t` is the first open of a guard file. */
  ghost predicate FirstGuard(ops: seq<Op>, t: nat) {
    && t < |ops| && ops[t].Open? && ops[t].guard
    && forall i :: 0 <= i < t && ops[i].Open? ==> !ops[i].guard
  }

  /** The handles the application closes. */
  function Closed(ops: seq<Op>): seq<int> {
    if ops == [] then [] else Closed(ops[..|ops| - 1]) + if ops[|ops| - 1].Close? then [ops[|ops| - 1].h] else []
  }

  /** Until the first guard open the wrapper passes every close on. */
  lemma {:induction false} BeforeGuard(ops: seq<Op>)
    requires forall i :: 0 <= i < |ops| && ops[i].Open? ==> !ops[i].guard
    ensures After(ops).ofiles == [] && After(ops).closes == Closed(ops)
  {
    if ops == [] {
    } else {
      BeforeGuard(ops[..|ops| - 1]);
    }
  }

  /** The list is not empty and holds the latest handles; the closes passed on are `pre`,
      then the handles from g on, in order of their opens, up to where the list begins. */
  ghost predicate InStep(s: State, pre: seq<int>, g: nat, first: nat) {
    && g <= first < s.next
    && s.ofiles == Range(first, s.next - first)
    && s.closes == pre + Range(g, first - g)
  }

  lemma OpenInStep(s: State, pre: seq<int>, g: nat, first: nat, guard: bool)
    requires InStep(s, pre, g, first)
    ensures InStep(AfterOpen(s, guard, true), pre, g, if guard then s.next else first)
  {
    if guard {
      JoinRanges(pre, g, first - g, first, s.next - first);
      assert [] + [s.next] == Range(s.next, 1);
    } else {
      assert Range(first, s.next - first) + [s.next] == Range(first, s.next + 1 - first);
    }
  }

  /** From the first guard open on, if opens succeed, this is how things are. */
  lemma {:induction false} SinceGuard(ops: seq<Op>, t: nat) returns (first: nat)
    requires FirstGuard(ops, t) && OpensSucceed(ops)
    ensures InStep(After(ops), Closed(ops[..t]), After(ops[..t]).next, first)
  {
    hide InStep;
    var n := |ops| - 1;
    var p := ops[..n];
    if t == n {
      BeforeGuard(p);
      first := After(p).next;
      GuardStarts(After(p), Closed(p));
    } else {
      assert p[..t] == ops[..t];
      first := SinceGuard(p, t);
      var s, g := After(p), After(ops[..t]).next;
      match ops[n]
      case Open(guard, ok) =>
        OpenInStep(s, Closed(ops[..t]), g, first, guard);
        first := if guard then s.next else first;
      case Close(h) =>
        NotEmpty(s, Closed(ops[..t]), g, first);
    }
  }

  lemma GuardStarts(s: State, pre: seq<int>)
    requires s.ofiles == [] && s.closes == pre
    ensures InStep(AfterOpen(s, true, true), pre, s.next, s.next)
  {
    assert [] + [s.next] == Range(s.next, 1);
    assert pre + [] == pre;
  }

  lemma NotEmpty(s: State, pre: seq<int>, g: nat, first: nat)
    requires InStep(s, pre, g, first)
    ensures s.ofiles != []
  {
  }

  lemma JoinRanges(pre: seq<int>, a: int, n: nat, b: int, m: nat)
    requires b == a + n
    ensures (pre + Range(a, n)) + Range(b, m) == pre + Range(a, n + m)
  {
  }

  /** A whole run in which opens succeed: what is really closed is what the application
      closed before the first guard open, and then every handle from that guard on exactly
      once, in the order they were opened.  The application's later closes do nothing. */
  lemma {:induction false} AllClosedInOrder(ops: seq<Op>, t: nat)
    requires FirstGuard(ops, t) && OpensSucceed(ops)
    ensures var s, g := AfterFinalize(After(ops)), After(ops[..t]).next;
      g <= s.next && s.ofiles == [] && s.closes == Closed(ops[..t]) + Range(g, s.next - g)
  {
    var first := SinceGuard(ops, t);
    var s, g := After(ops), After(ops[..t]).next;
    JoinRanges(Closed(ops[..t]), g, first - g, first, s.next - first);
  }

  /** At the next guard open just the handles opened since the last one are closed. */
  lemma {:induction false} ClosedAtNextGuard(ops: seq<Op>, ok: bool)
    ensures var s, s' := After(ops), After(ops + [Open(true, ok)]);
      s'.closes == s.closes + Range(s.next - |s.ofiles|, |s.ofiles|) && |s.ofiles| <= s.next
  {
    ListIff(ops);
    assert (ops + [Open(true, ok)])[..|ops|] == ops;
  }

  /** A handle opened before the first guard is really closed exactly if the application
      closes it before that guard is opened. */
  lemma {:induction false} EarlyHandleIff(ops: seq<Op>, t: nat, h: int)
    requires FirstGuard(ops, t) && OpensSucceed(ops) && h < After(ops[..t]).next
    ensures h in AfterFinalize(After(ops)).closes <==> h in Closed(ops[..t])
  {
    AllClosedInOrder(ops, t);
  }

  /** So a file opened first and closed after the guard is opened stays open. */
  lemma {:induction false} EarlyHandleLeaks()
    ensures var ops := [Open(false, true), Open(true, true), Close(0)]; 0 !in AfterFinalize(After(ops)).closes
  {
    var ops := [Open(false, true), Open(true, true), Close(0)];
    assert ops[..1] == [ops[0]] && [ops[0]][..0] == [];
    assert Closed([ops[0]]) == [];
    assert After([ops[0]]).next == 1;
    assert FirstGuard(ops, 1);
    EarlyHandleIff(ops, 1, 0);
  }

  // ---------- Every run, failed opens included ----------

  /** The number of opens that succeeded: the handle the next one gets. */
  function Opened(ops: seq<Op>): nat {
    if ops == [] then 0
    else Opened(ops[..|ops| - 1]) + if ops[|ops| - 1].Open? && ops[|ops| - 1].ok then 1 else 0
  }

  /** The position of the last attempt to open a guard file; -1 if there is none. */
  function LastGuard(ops: seq<Op>): int {
    if ops == [] then -1
    else if ops[|ops| - 1].Open? && ops[|ops| - 1].guard then |ops| - 1
    else LastGuard(ops[..|ops| - 1])
  }

  lemma {:induction false} LastGuardFacts(ops: seq<Op>)
    ensures var t := LastGuard(ops);
      && -1 <= t < |ops|
      && (t >= 0 ==> ops[t].Open? && ops[t].guard && (Deferring(ops) <==> ops[t].ok))
      && (t == -1 ==> !Deferring(ops))
      && forall i :: t < i < |ops| && ops[i].Open? ==> !ops[i].guard
  {
    if ops == [] {
    } else {
      LastGuardFacts(ops[..|ops| - 1]);
    }
  }

  /** While closes are deferred, in every run: the list is exactly the handles opened from
      the last guard open on, and nothing was really closed since. */
  lemma {:induction false} ListSinceGuard(ops: seq<Op>)
    requires Deferring(ops)
    ensures var t := LastGuard(ops);
      && 0 <= t < |ops| && Opened(ops[..t]) <= Opened(ops)
      && After(ops).ofiles == Range(Opened(ops[..t]), Opened(ops) - Opened(ops[..t]))
      && After(ops).closes == After(ops[..t + 1]).closes
  {
    hide Deferring, Opened, AfterOpen, AfterClose, Range;
    LastGuardFacts(ops);
    var n, t := |ops| - 1, LastGuard(ops);
    var p, o := ops[..n], ops[n];
    NextIsOpened(p);
    OpenedStep(ops);
    if t == n {
      assert ops[..n + 1] == ops;
      FreshList(After(p));
    } else {
      StillDeferring(ops);
      ListSinceGuard(p);
      assert p[..t] == ops[..t] && p[..t + 1] == ops[..t + 1];
      ListIff(p);
      match o
      case Open(_, ok) => GrowList(After(p), ok, Opened(ops[..t]));
      case Close(h) => KeepList(After(p), h);
    }
  }

  lemma FreshList(s: State)
    ensures AfterOpen(s, true, true).ofiles == Range(s.next, 1)
  {
    assert [] + [s.next] == Range(s.next, 1);
  }

  lemma GrowList(s: State, ok: bool, g: nat)
    requires s.ofiles != [] && g <= s.next && s.ofiles == Range(g, s.next - g)
    ensures var t := AfterOpen(s, false, ok);
      t.ofiles == Range(g, (if ok then s.next + 1 else s.next) - g) && t.closes == s.closes
  {
    assert Range(g, s.next - g) + [s.next] == Range(g, s.next + 1 - g);
  }

  lemma KeepList(s: State, h: int)
    requires s.ofiles != []
    ensures AfterClose(s, h) == s
  {
  }

  lemma StillDeferring(ops: seq<Op>)
    requires ops != [] && Deferring(ops) && LastGuard(ops) < |ops| - 1
    ensures Deferring(ops[..|ops| - 1]) && LastGuard(ops[..|ops| - 1]) == LastGuard(ops)
    ensures var o := ops[|ops| - 1]; o.Open? ==> !o.guard
  {
  }

  lemma OpenedStep(ops: seq<Op>)
    requires ops != []
    ensures var o := ops[|ops| - 1];
      Opened(ops) == Opened(ops[..|ops| - 1]) + if o.Open? && o.ok then 1 else 0
  {
  }

  /** The closes that reach MPI, said without the list: a guard open closes the handles
      opened since the last one, if that one succeeded, in the order of their opens; a
      close by the application goes through unless closes are deferred. */
  function RealCloses(ops: seq<Op>): seq<int> {
    if ops == [] then []
    else
      var p, o := ops[..|ops| - 1], ops[|ops| - 1];
      RealCloses(p) +
      match o
      case Open(guard, _) => if guard then OpenSince(p) else []
      case Close(h) => if Deferring(p) then [] else [h]
  }

  /** The handles opened from the last guard open on, if it succeeded. */
  function OpenSince(ops: seq<Op>): seq<int> {
    LastGuardFacts(ops);
    if Deferring(ops) && Opened(ops[..LastGuard(ops)]) <= Opened(ops)
    then Range(Opened(ops[..LastGuard(ops)]), Opened(ops) - Opened(ops[..LastGuard(ops)]))
    else []
  }

  /** In every run, at any time, this is what the list holds and what was really closed. */
  lemma {:induction false} ClosesExactly(ops: seq<Op>)
    ensures After(ops).ofiles == OpenSince(ops) && After(ops).closes == RealCloses(ops)
    ensures AfterFinalize(After(ops)).closes == RealCloses(ops) + OpenSince(ops)
  {
    hide Deferring, Opened, LastGuard, OpenSince;
    ListIsOpenSince(ops);
    if ops == [] {
    } else {
      var p := ops[..|ops| - 1];
      ClosesExactly(p);
      ListIff(p);
    }
  }

  lemma ListIsOpenSince(ops: seq<Op>)
    ensures After(ops).ofiles == OpenSince(ops)
  {
    hide Deferring, Opened, After;
    ListIff(ops);
    if Deferring(ops) { ListSinceGuard(ops); }
  }

  /** Was handle h opened by a guard open, or while closes were deferred? */
  predicate Listed(ops: seq<Op>, h: int) {
    ops != [] &&
    var p, o := ops[..|ops| - 1], ops[|ops| - 1];
    Listed(p, h) || (o.Open? && o.ok && Opened(p) == h && (o.guard || Deferring(p)))
  }

  /** How often the application closes handle h while closes are not deferred. */
  function LooseCloses(ops: seq<Op>, h: int): nat {
    if ops == [] then 0
    else
      var p, o := ops[..|ops| - 1], ops[|ops| - 1];
      LooseCloses(p, h) + if o == Close(h) && !Deferring(p) then 1 else 0
  }

  lemma {:induction false} NextIsOpened(ops: seq<Op>)
    ensures After(ops).next == Opened(ops)
  {
    if ops == [] {
    } else {
      NextIsOpened(ops[..|ops| - 1]);
    }
  }

  lemma {:induction false} ListedBelow(ops: seq<Op>, h: int)
    requires Listed(ops, h)
    ensures 0 <= h < Opened(ops)
  {
    var p := ops[..|ops| - 1];
    if Listed(p, h) { ListedBelow(p, h); }
  }

  /** How often handle h was really closed or is on the list. */
  function Held(s: State, h: int): nat { multiset(s.closes + s.ofiles)[h] }

  /** In every run, at any time: once if it was put on the list, and once for every loose
      close. */
  lemma {:induction false} CountNow(ops: seq<Op>, h: int)
    ensures Held(After(ops), h) == (if Listed(ops, h) then 1 else 0) + LooseCloses(ops, h)
  {
    hide Held, AfterOpen, AfterClose, Opened, Deferring;
    if ops == [] {
      HeldNone(h);
    } else {
      var p, o := ops[..|ops| - 1], ops[|ops| - 1];
      CountNow(p, h);
      ListIff(p);
      NextIsOpened(p);
      if Listed(p, h) { ListedBelow(p, h); }
      match o
      case Open(guard, ok) => OpenCount(After(p), guard, ok, h);
      case Close(g) => CloseCount(After(p), g, h);
    }
  }

  lemma HeldNone(h: int)
    ensures Held(State([], 0, []), h) == 0
  {
  }

  lemma OpenCount(s: State, guard: bool, ok: bool, h: int)
    ensures Held(AfterOpen(s, guard, ok), h) ==
            Held(s, h) + if ok && (guard || s.ofiles != []) && s.next == h then 1 else 0
  {
    var t := AfterOpen(s, guard, ok);
    if ok && (guard || s.ofiles != []) {
      assert t.closes + t.ofiles == (s.closes + s.ofiles) + [s.next];
    } else {
      assert t.closes + t.ofiles == s.closes + s.ofiles;
    }
  }

  lemma CloseCount(s: State, g: int, h: int)
    ensures Held(AfterClose(s, g), h) == Held(s, h) + if s.ofiles == [] && g == h then 1 else 0
  {
    var t := AfterClose(s, g);
    if s.ofiles == [] {
      assert t.closes + t.ofiles == (s.closes + s.ofiles) + [g];
    }
  }

  /** After Finalize, in every run: handle h is closed as often as it was listed and
      loosely closed. */
  lemma {:induction false} ClosedAsOften(ops: seq<Op>, h: int)
    ensures multiset(AfterFinalize(After(ops)).closes)[h] == (if Listed(ops, h) then 1 else 0) + LooseCloses(ops, h)
  {
    CountNow(ops, h);
  }

  /** Every close of handle h by the application is made while closes are deferred. */
  ghost predicate ClosedOnlyDeferred(ops: seq<Op>, h: int) {
    forall i :: 0 <= i < |ops| && ops[i] == Close(h) ==> Deferring(ops[..i])
  }

  lemma {:induction false} NoLooseCloses(ops: seq<Op>, h: int)
    ensures LooseCloses(ops, h) == 0 <==> ClosedOnlyDeferred(ops, h)
  {
    if ops == [] {
    } else {
      var n := |ops| - 1;
      var p := ops[..n];
      NoLooseCloses(p, h);
      assert forall i :: 0 <= i < n ==> p[i] == ops[i] && p[..i] == ops[..i];
      if ClosedOnlyDeferred(ops, h) {
        assert ClosedOnlyDeferred(p, h);
      }
      if LooseCloses(ops, h) == 0 {
        forall i | 0 <= i < |ops| && ops[i] == Close(h) ensures Deferring(ops[..i]) {
          if i < n { assert p[i] == Close(h); }
        }
      }
    }
  }

  /** A handle opened under a guard is really closed, and exactly once if and only if the
      application never closes it while closes are not deferred. */
  lemma {:induction false} ClosedOnceIff(ops: seq<Op>, h: int)
    requires Listed(ops, h)
    ensures multiset(AfterFinalize(After(ops)).closes)[h] >= 1
    ensures multiset(AfterFinalize(After(ops)).closes)[h] == 1 <==> ClosedOnlyDeferred(ops, h)
  {
    ClosedAsOften(ops, h);
    NoLooseCloses(ops, h);
  }

  /** A handle opened otherwise is really closed as often as the application closes it
      while closes are not deferred: not at all, if it waits for a guard. */
  lemma {:induction false} UnlistedClosedIff(ops: seq<Op>, h: int)
    requires !Listed(ops, h)
    ensures h in AfterFinalize(After(ops)).closes <==> !ClosedOnlyDeferred(ops, h)
  {
    var closes := AfterFinalize(After(ops)).closes;
    ClosedAsOften(ops, h);
    NoLooseCloses(ops, h);
    assert h in closes <==> h in multiset(closes);
  }

  /** So if a guard open fails, a handle that it closed can be closed a second time. */
  lemma {:induction false} FailedGuardClosesTwice()
    ensures var ops := [Open(true, true), Open(true, false), Close(0)];
      Listed(ops, 0) && !ClosedOnlyDeferred(ops, 0) && multiset(AfterFinalize(After(ops)).closes)[0] == 2
  {
    var ops := [Open(true, true), Open(true, false), Close(0)];
    var p, q := ops[..2], ops[..1];
    assert p[..1] == q && q[..0] == [] && p[1] == ops[1] && q[0] == ops[0];
    assert Listed(q, 0) && Listed(p, 0) && !Deferring(p);
    assert LooseCloses(q[..0], 0) == 0 && LooseCloses(q, 0) == 0;
    assert LooseCloses(p, 0) == 0;
    ClosedAsOften(ops, 0);
    assert ops[2] == Close(0);
  }
}
