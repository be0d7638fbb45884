/** The Single Writer: callers, closers and one goroutine meeting on an unbuffered request
    channel, one answer channel per call (capacity 1), and two channels that are only ever
    closed. One step is one channel operation, one database call or one cancellation. */
module SingleWriter {
  import opened Options

  datatype Answer = Success | Error

  /** What `Do` returned. */
  datatype Reply = Answered(answer: Answer) | ContextError | ErrClosed

  datatype Stage = Offering | Waiting | Returned(reply: Reply)

  datatype Call = Call(stage: Stage, cancelled: bool, channel: Option<Answer>)

  datatype Progress = Starting | InTransaction | Committing

  datatype Goroutine = Selecting | Executing(c: nat, progress: Progress) | Sending(c: nat, answer: Answer) | Stopped

  /** A call of `Close`: the check of w.closed and close(w.closed) are two steps. */
  datatype Closer = Checking | Closing | Awaiting | Back

  datatype TxEvent = Began(c: nat) | Committed(c: nat) | Aborted(c: nat)

  /** `handed` and `trace` are history: requests in the order of hand-over, and what the
      database saw. */
  datatype State = State(calls: map<nat, Call>, writer: Goroutine, closed: bool, stopped: bool,
                         closers: map<nat, Closer>, panicked: bool, handed: seq<nat>, trace: seq<TxEvent>)

  const INITIAL := State(map[], Selecting, false, false, map[], false, [], [])

  datatype Action =
    | Do(c: nat)
    | Cancel(c: nat)
    | HandOver(c: nat)
    | SeeClosed(c: nat)
    | GiveUp(c: nat)
    | Receive(c: nat)
    | BeginTx(ok: bool)
    | CallFn(ok: bool)
    | Commit(ok: bool, applied: bool)
    | Send
    | Stop
    | EnterClose(k: nat)
    | CheckClosed(k: nat)
    | CloseChannel(k: nat)
    | LeaveClose(k: nat)

  predicate Enabled(s: State, a: Action) {
    match a
    case Do(c) => c !in s.calls
    case Cancel(c) => c in s.calls
    case HandOver(c) => c in s.calls && s.calls[c].stage.Offering? && s.writer.Selecting?
    case SeeClosed(c) => c in s.calls && s.calls[c].stage.Offering? && s.closed
    case GiveUp(c) => c in s.calls && !s.calls[c].stage.Returned? && s.calls[c].cancelled
    case Receive(c) => c in s.calls && s.calls[c].stage.Waiting? && s.calls[c].channel.Some?
    case BeginTx(_) => s.writer.Executing? && s.writer.progress.Starting?
    case CallFn(_) => s.writer.Executing? && s.writer.progress.InTransaction?
    case Commit(ok, applied) => s.writer.Executing? && s.writer.progress.Committing? && (ok ==> applied)
    case Send => s.writer.Sending? && s.writer.c in s.calls && s.calls[s.writer.c].channel.None?
    case Stop => s.writer.Selecting? && s.closed
    case EnterClose(k) => k !in s.closers
    case CheckClosed(k) => k in s.closers && s.closers[k].Checking?
    case CloseChannel(k) => k in s.closers && s.closers[k].Closing?
    case LeaveClose(k) => k in s.closers && s.closers[k].Awaiting? && s.stopped
  }

  function WithStage(s: State, c: nat, stage: Stage): State
    requires c in s.calls
  {
    s.(calls := s.calls[c := s.calls[c].(stage := stage)])
  }

  /** The goroutine ends a transaction (or never got one) and turns to the answer. */
  function Finished(s: State, applied: bool, answer: Answer): State
    requires s.writer.Executing?
  {
    s.(trace := s.trace + [if applied then Committed(s.writer.c) else Aborted(s.writer.c)],
      writer := Sending(s.writer.c, answer))
  }

  function Effect(s: State, a: Action): State
    requires Enabled(s, a)
  {
    match a
    case Do(c) => s.(calls := s.calls[c := Call(Offering, false, None)])
    case Cancel(c) => s.(calls := s.calls[c := s.calls[c].(cancelled := true)])
    case HandOver(c) =>
      WithStage(s, c, Waiting).(writer := Executing(c, Starting), handed := s.handed + [c],
        trace := s.trace + [Began(c)])
    case SeeClosed(c) => WithStage(s, c, Returned(ErrClosed))
    case GiveUp(c) => WithStage(s, c, Returned(ContextError))
    case Receive(c) => s.(calls :=
        s.calls[c := s.calls[c].(stage := Returned(Answered(s.calls[c].channel.value)), channel := None)])
    case BeginTx(ok) => if ok then s.(writer := Executing(s.writer.c, InTransaction)) else Finished(s, false, Error)
    case CallFn(ok) => if ok then s.(writer := Executing(s.writer.c, Committing)) else Finished(s, false, Error)
    case Commit(ok, applied) => Finished(s, applied, if ok then Success else Error)
    case Send =>
      s.(calls := s.calls[s.writer.c := s.calls[s.writer.c].(channel := Some(s.writer.answer))], writer := Selecting)
    case Stop => s.(writer := Stopped, stopped := true)
    case EnterClose(k) => s.(closers := s.closers[k := Checking])
    case CheckClosed(k) => s.(closers := s.closers[k := if s.closed then Awaiting else Closing])
    case CloseChannel(k) => s.(closers := s.closers[k := Awaiting], closed := true, panicked := s.panicked || s.closed)
    case LeaveClose(k) => s.(closers := s.closers[k := Back])
  }

  function Act(s: State, a: Action): State {
    if Enabled(s, a) then Effect(s, a) else s
  }

  function Run(s: State, acts: seq<Action>): State
    decreases |acts|
  {
    if acts == [] then s else Run(Act(s, acts[0]), acts[1..])
  }

  // ---------------------------------------------------------------- the invariant

  /** Transactions never overlap, and run in the order of hand-over. */
  ghost predicate Serial(trace: seq<TxEvent>, handed: seq<nat>) {
    && |trace| <= 2 * |handed|
    && forall i :: 0 <= i < |trace| ==> trace[i].c == handed[i / 2] && (trace[i].Began? <==> i % 2 == 0)
  }

  ghost predicate Distinct(handed: seq<nat>) {
    forall i, j :: 0 <= i < j < |handed| ==> handed[i] != handed[j]
  }

  predicate Working(w: Goroutine, c: nat) {
    (w.Executing? || w.Sending?) && w.c == c
  }

  ghost predicate WriterAgrees(s: State) {
    && |s.trace| == 2 * |s.handed| - (if s.writer.Executing? then 1 else 0)
    && (s.writer.Executing? || s.writer.Sending? ==>
          && |s.handed| > 0 && s.handed[|s.handed| - 1] == s.writer.c && s.writer.c in s.calls
          && s.calls[s.writer.c].channel.None?)
    && (s.writer.Sending? && s.writer.answer.Success? ==> Committed(s.writer.c) in s.trace)
    && (s.stopped <==> s.writer.Stopped?) && (s.stopped ==> s.closed)
  }

  ghost predicate CallAgrees(s: State, c: nat)
    requires c in s.calls
  {
    var call := s.calls[c];
    && (call.channel == Some(Success) ==> Committed(c) in s.trace)
    && match call.stage
       case Offering => c !in s.handed && call.channel.None?
       case Waiting => c in s.handed && (call.channel.None? <==> Working(s.writer, c))
       case Returned(Answered(a)) => c in s.handed && !Working(s.writer, c) && (a.Success? ==> Committed(c) in s.trace)
       case Returned(ErrClosed) => c !in s.handed && s.closed
       case Returned(ContextError) => call.cancelled
  }

  ghost predicate Inv(s: State) {
    && Serial(s.trace, s.handed) && Distinct(s.handed)
    && WriterAgrees(s)
    && (forall c :: c in s.calls ==> CallAgrees(s, c))
    && (forall c :: c in s.handed ==> c in s.calls)
    && (forall k :: k in s.closers ==> (s.closers[k].Awaiting? ==> s.closed) && (s.closers[k].Back? ==> s.stopped))
  }

  lemma HandOverKeeps(s: State, c: nat)
    requires Inv(s) && Enabled(s, HandOver(c))
    ensures Inv(Act(s, HandOver(c)))
  {
    var t := Act(s, HandOver(c));
    forall i | 0 <= i < |t.trace| ensures t.trace[i].c == t.handed[i / 2] && (t.trace[i].Began? <==> i % 2 == 0) {
      assert i < |s.trace| ==> i / 2 < |s.handed|;
    }
    forall d | d in t.calls ensures CallAgrees(t, d) {
      assert CallAgrees(s, d);
    }
  }

  lemma FinishedKeeps(s: State, applied: bool, answer: Answer)
    requires Inv(s) && s.writer.Executing? && (answer.Success? ==> applied)
    ensures Inv(Finished(s, applied, answer))
  {
    var t := Finished(s, applied, answer);
    assert t.trace[|s.trace|] in t.trace;
    forall d | d in t.calls ensures CallAgrees(t, d) {
      assert CallAgrees(s, d);
    }
  }

  lemma SendKeeps(s: State)
    requires Inv(s) && Enabled(s, Send)
    ensures Inv(Effect(s, Send))
  {
    hide Serial, Distinct;
  }

  lemma CallerKeeps(s: State, a: Action)
    requires Inv(s) && Enabled(s, a)
    requires a.Do? || a.Cancel? || a.SeeClosed? || a.GiveUp? || a.Receive?
    ensures Inv(Effect(s, a))
  {
    hide Serial, Distinct;
    var t := Effect(s, a);
    forall d | d in t.calls ensures CallAgrees(t, d) {
      assert d in s.calls ==> CallAgrees(s, d);
    }
  }

  lemma StopKeeps(s: State, a: Action)
    requires Inv(s) && Enabled(s, a)
    requires a.Stop? || a.EnterClose? || a.CheckClosed? || a.CloseChannel? || a.LeaveClose?
    ensures Inv(Effect(s, a))
  {
    hide Serial, Distinct;
    var t := Effect(s, a);
    forall d | d in t.calls ensures CallAgrees(t, d) {
      assert CallAgrees(s, d);
    }
  }

  lemma AdvanceKeeps(s: State, progress: Progress)
    requires Inv(s) && s.writer.Executing?
    ensures Inv(s.(writer := Executing(s.writer.c, progress)))
  {
    hide Serial, Distinct;
    var t := s.(writer := Executing(s.writer.c, progress));
    forall d | d in t.calls ensures CallAgrees(t, d) {
      assert CallAgrees(s, d);
    }
  }

  lemma ActKeeps(s: State, a: Action)
    requires Inv(s)
    ensures Inv(Act(s, a))
  {
    if Enabled(s, a) {
      match a
      case HandOver(c) => HandOverKeeps(s, c);
      case BeginTx(ok) => if ok { AdvanceKeeps(s, InTransaction); } else { FinishedKeeps(s, false, Error); }
      case CallFn(ok) => if ok { AdvanceKeeps(s, Committing); } else { FinishedKeeps(s, false, Error); }
      case Commit(ok, applied) => FinishedKeeps(s, applied, if ok then Success else Error);
      case Send => SendKeeps(s);
      case Stop => StopKeeps(s, a);
      case EnterClose(_) => StopKeeps(s, a);
      case CheckClosed(_) => StopKeeps(s, a);
      case CloseChannel(_) => StopKeeps(s, a);
      case LeaveClose(_) => StopKeeps(s, a);
      case _ => CallerKeeps(s, a);
    }
    hide Inv;
  }

  lemma InitialIsSound()
    ensures Inv(INITIAL) && CloseInv(INITIAL)
  {
  }

  // ---------------------------------------------------------------- laws

  /** Whatever the interleaving: transactions are serial, in hand-over order, each request
      handed over at most once; a nil from `Do` means committed; ErrClosed means never run; a
      caller that still waits is being served or has its answer. */
  lemma {:induction false} WriterLaw(s: State, acts: seq<Action>)
    requires Inv(s)
    ensures var t := Run(s, acts);
            && Inv(t) && Serial(t.trace, t.handed) && Distinct(t.handed)
            && forall c :: c in t.calls ==>
                 && (t.calls[c].stage == Returned(Answered(Success)) ==>
                      Committed(c) in t.trace && Aborted(c) !in t.trace)
                 && (t.calls[c].stage == Returned(ErrClosed) ==> Began(c) !in t.trace)
                 && (t.calls[c].stage.Waiting? ==> Working(t.writer, c) || t.calls[c].channel.Some?)
    decreases |acts|
  {
    if acts == [] {
      forall c | c in s.calls && Committed(c) in s.trace ensures Aborted(c) !in s.trace {
        OneOutcome(s, c);
      }
      forall c | Began(c) in s.trace ensures c in s.handed {
        var i :| 0 <= i < |s.trace| && s.trace[i] == Began(c);
        assert s.handed[i / 2] == c;
      }
    } else {
      ActKeeps(s, acts[0]);
      WriterLaw(Act(s, acts[0]), acts[1..]);
    }
  }

  /** A request has one outcome. */
  lemma OneOutcome(s: State, c: nat)
    requires Inv(s) && Committed(c) in s.trace
    ensures Aborted(c) !in s.trace
  {
    var i :| 0 <= i < |s.trace| && s.trace[i] == Committed(c);
    forall j | 0 <= j < |s.trace| && s.trace[j].c == c && !s.trace[j].Began? ensures s.trace[j] == Committed(c) {
      assert s.handed[i / 2] == c && s.handed[j / 2] == c;
      assert i / 2 == j / 2;
    }
  }

  /** A request whose BEGIN or whose function fails is rolled back: no continuation commits it. */
  lemma FailureRollsBack(s: State, c: nat, more: seq<Action>)
    requires Inv(s) && s.writer.Executing? && s.writer.c == c
    ensures s.writer.progress.Starting? ==> Committed(c) !in Run(Act(s, BeginTx(false)), more).trace
    ensures s.writer.progress.InTransaction? ==> Committed(c) !in Run(Act(s, CallFn(false)), more).trace
  {
    hide Run;
    if s.writer.progress.Starting? {
      AbortedStays(s, c, BeginTx(false), more);
    } else if s.writer.progress.InTransaction? {
      AbortedStays(s, c, CallFn(false), more);
    }
  }

  lemma AbortedStays(s: State, c: nat, a: Action, more: seq<Action>)
    requires Inv(s) && s.writer.Executing? && s.writer.c == c
    requires (s.writer.progress.Starting? && a == BeginTx(false)) || (s.writer.progress.InTransaction? &&
      a == CallFn(false))
    ensures Committed(c) !in Run(Act(s, a), more).trace
  {
    var t := Act(s, a);
    ActKeeps(s, a);
    assert t.trace[|s.trace|] == Aborted(c);
    WriterLaw(t, more);
    TraceGrows(t, more);
    var u := Run(t, more);
    assert u.trace[|s.trace|] == Aborted(c);
    if Committed(c) in u.trace {
      OneOutcome(u, c);
    }
  }

  lemma {:induction false} TraceGrows(s: State, more: seq<Action>)
    ensures s.trace <= Run(s, more).trace
    decreases |more|
  {
    hide Act;
    if more != [] {
      TraceStep(s, more[0]);
      TraceGrows(Act(s, more[0]), more[1..]);
    }
  }

  lemma TraceStep(s: State, a: Action)
    ensures s.trace <= Act(s, a).trace
  {
  }

  /** A transaction commits only by a commit that took effect. */
  lemma {:induction false} CommittedByCommit(s: State, acts: seq<Action>, c: nat)
    requires Committed(c) !in s.trace && Committed(c) in Run(s, acts).trace
    ensures exists i :: 0 <= i < |acts| && acts[i].Commit? && acts[i].applied
    decreases |acts|
  {
    var t := Act(s, acts[0]);
    if Committed(c) !in t.trace {
      CommittedByCommit(t, acts[1..], c);
      var i :| 0 <= i < |acts[1..]| && acts[1..][i].Commit? && acts[1..][i].applied;
      assert acts[i + 1].Commit? && acts[i + 1].applied;
    }
  }

  /** The goroutine never blocks on an answer, whether or not anybody still waits for it. */
  lemma SendNeverBlocks(acts: seq<Action>)
    ensures var t := Run(INITIAL, acts); t.writer.Sending? ==> Enabled(t, Send)
  {
    WriterLaw(INITIAL, acts);
  }

  /** After any `Close` returned: every request ever handed over has run to its end and has
      its answer, nobody can be stuck, and nothing runs in any continuation. */
  lemma {:induction false} CloseIsFinal(acts: seq<Action>, k: nat, more: seq<Action>)
    requires k in Run(INITIAL, acts).closers && Run(INITIAL, acts).closers[k].Back?
    ensures var t := Run(INITIAL, acts);
            && |t.trace| == 2 * |t.handed|
            && (forall c :: c in t.calls && t.calls[c].stage.Offering? ==> Enabled(t, SeeClosed(c)))
            && (forall c :: c in t.calls && t.calls[c].stage.Waiting? ==> Enabled(t, Receive(c)))
            && Run(t, more).trace == t.trace && Run(t, more).handed == t.handed
  {
    WriterLaw(INITIAL, acts);
    StoppedStays(Run(INITIAL, acts), more);
  }

  lemma {:induction false} StoppedStays(s: State, more: seq<Action>)
    requires s.writer.Stopped?
    ensures Run(s, more).trace == s.trace && Run(s, more).handed == s.handed && Run(s, more).writer.Stopped?
    decreases |more|
  {
    if more != [] {
      StoppedStays(Act(s, more[0]), more[1..]);
    }
  }

  // ---------------------------------------------------------------- limits

  lemma {:induction false} RunConcat(s: State, a: seq<Action>, b: seq<Action>)
    ensures Run(s, a + b) == Run(Run(s, a), b)
    decreases |a|
  {
    if a == [] {
      assert a + b == b;
    } else {
      assert (a + b)[0] == a[0] && (a + b)[1..] == a[1..] + b;
      RunConcat(Act(s, a[0]), a[1..], b);
    }
  }

  lemma Then(acts: seq<Action>, a: Action) returns (longer: seq<Action>)
    ensures longer == acts + [a] && Run(INITIAL, longer) == Act(Run(INITIAL, acts), a)
  {
    longer := acts + [a];
    RunConcat(INITIAL, acts, [a]);
    assert [a][1..] == [];
    assert Run(Run(INITIAL, acts), [a]) == Run(Act(Run(INITIAL, acts), a), []);
  }

  lemma RunNothing()
    ensures Run(INITIAL, []) == INITIAL
  {
  }

  lemma CommittedUnsent() returns (acts: seq<Action>)
    ensures var t := Run(INITIAL, acts);
            t.calls == map[0 := Call(Waiting, false, None)] && t.trace == [Began(0), Committed(0)]
  {
    hide Run;
    RunNothing();
    acts := Then([], Do(0));
    acts := Then(acts, HandOver(0));
    acts := Then(acts, BeginTx(true));
    acts := Then(acts, CallFn(true));
    acts := Then(acts, Commit(true, true));
  }

  /** `Do` may report the context's error although its transaction committed. */
  lemma ContextErrorThoughCommitted() returns (acts: seq<Action>)
    ensures var t := Run(INITIAL, acts);
            0 in t.calls && t.calls[0].stage == Returned(ContextError) && Committed(0) in t.trace
  {
    hide Run;
    acts := CommittedUnsent();
    assert Run(INITIAL, acts).trace[1] == Committed(0);
    acts := Then(acts, Cancel(0));
    acts := Then(acts, GiveUp(0));
  }

  /** A `Close` past its close(w.closed), with nothing accepted so far. */
  lemma ClosedUnstopped() returns (acts: seq<Action>)
    ensures var t := Run(INITIAL, acts); t.closed && t.calls == map[] && t.writer.Selecting? && t.handed == []
  {
    hide Run;
    RunNothing();
    acts := Then([], EnterClose(0));
    acts := Then(acts, CheckClosed(0));
    acts := Then(acts, CloseChannel(0));
  }

  /** Closing the channel does not yet stop new work: both selects may still choose the
      request. Only the return of `Close` is a barrier. */
  lemma AcceptedAfterClosing() returns (before: seq<Action>, acts: seq<Action>)
    ensures Run(INITIAL, before).closed && Run(INITIAL, before).calls == map[] && before <= acts
    ensures Run(INITIAL, acts).handed == [0]
  {
    hide Run;
    before := ClosedUnstopped();
    acts := Then(before, Do(0));
    acts := Then(acts, HandOver(0));
  }

  /** Somebody is past the check of w.closed and has not closed the channel yet. */
  ghost predicate SomeoneClosing(s: State) {
    exists k :: k in s.closers && s.closers[k].Closing?
  }

  /** Two `Close` calls never sit between the check and the close at the same time. */
  ghost predicate ClosesApart(s: State, acts: seq<Action>)
    decreases |acts|
  {
    acts == [] ||
    ((acts[0].CheckClosed? && !s.closed ==> !SomeoneClosing(s)) && ClosesApart(Act(s, acts[0]), acts[1..]))
  }

  ghost predicate CloseInv(s: State) {
    && !s.panicked
    && (SomeoneClosing(s) ==> !s.closed)
    && forall k, l :: k in s.closers && l in s.closers && s.closers[k].Closing? && s.closers[l].Closing? ==> k == l
  }

  /** Calls of `Close` one after another, any number of them, never close a closed channel. */
  lemma {:induction false} ClosesApartNeverPanic(s: State, acts: seq<Action>)
    requires CloseInv(s) && ClosesApart(s, acts)
    ensures !Run(s, acts).panicked
    decreases |acts|
  {
    if acts != [] {
      CloseStepKeeps(s, acts[0]);
      ClosesApartNeverPanic(Act(s, acts[0]), acts[1..]);
    }
  }

  lemma CloseStepKeeps(s: State, a: Action)
    requires CloseInv(s) && (a.CheckClosed? && !s.closed ==> !SomeoneClosing(s))
    ensures CloseInv(Act(s, a))
  {
    var t := Act(s, a);
    if a.CloseChannel? && Enabled(s, a) {
      assert SomeoneClosing(s);
      assert forall k :: k in t.closers && k != a.k ==> t.closers[k] == s.closers[k];
    } else if SomeoneClosing(t) && !SomeoneClosing(s) {
      assert a.CheckClosed?;
    } else if SomeoneClosing(t) {
      assert !t.closed;
    }
  }

  lemma TwoPastTheCheck() returns (acts: seq<Action>)
    ensures Run(INITIAL, acts).closers == map[0 := Closing, 1 := Closing]
  {
    hide Run;
    RunNothing();
    acts := Then([], EnterClose(0));
    acts := Then(acts, EnterClose(1));
    acts := Then(acts, CheckClosed(0));
    acts := Then(acts, CheckClosed(1));
  }

  /** Two calls of `Close` that both pass the check before either closes the channel panic. */
  lemma OverlappingClosesPanic() returns (acts: seq<Action>)
    ensures Run(INITIAL, acts).panicked
  {
    hide Run;
    acts := TwoPastTheCheck();
    acts := Then(acts, CloseChannel(0));
    acts := Then(acts, CloseChannel(1));
  }
}
