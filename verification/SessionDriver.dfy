/**
 tunnel.go's session drivers as a protocol: runTunnelSession, which runs a server
 over the session in a goroutine, and waitForTunnelClose, which only observes
 the session. Both go through closeOnCancel and waitOrCancel; they differ in the
 `done` channel that is waited for.
 */
module SessionDriver {
  import opened Wrappers

  type Error = int

  /** Which `done` channel the driver waits on: its runner's, or the session's own. */
  datatype Kind = Runs | Observes

  datatype Runner = NoRunner | Running | Sending(err: Option<Error>) | ClosingDone | RunnerDone

  /** The driver's position, function by function from the inside out. */
  datatype Driver =
    | Selecting
    | OnCancel
    | AwaitingDone
    | ClosingSession(cancelled: bool)
    | ReceivingError
    | Returned(cancelled: bool, err: Option<Error>)

  /** A nil error is None; `errCh` is the one-place channel, `ran` what run returned. */
  datatype State = State(
    kind: Kind, ctxDone: bool, sessionClosed: bool,
    runner: Runner, errCh: Option<Option<Error>>, doneClosed: bool, driver: Driver,
    ran: Option<Option<Error>>)

  datatype Step =
    | Cancel
    | SessionDies
    | RunReturns(err: Option<Error>)
    | SendError
    | CloseDone
    | SelectCancelled
    | SelectDone
    | CloseOnCancel
    | DoneFires
    | CloseSession
    | ReceiveError

  function Start(kind: Kind, ctxDone: bool, sessionClosed: bool): State {
    State(kind, ctxDone, sessionClosed, if kind.Runs? then Running else NoRunner, None, false, Selecting, None)
  }

  predicate Done(s: State) {
    if s.kind.Runs? then s.doneClosed else s.sessionClosed
  }

  predicate Enabled(s: State, step: Step) {
    match step
    case Cancel => !s.ctxDone
    case SessionDies => !s.sessionClosed
    case RunReturns(_) => s.runner.Running?
    case SendError => s.runner.Sending? && s.errCh.None?
    case CloseDone => s.runner.ClosingDone?
    case SelectCancelled => s.driver.Selecting? && s.ctxDone
    case SelectDone => s.driver.Selecting? && Done(s)
    case CloseOnCancel => s.driver.OnCancel?
    case DoneFires => s.driver.AwaitingDone? && Done(s)
    case CloseSession => s.driver.ClosingSession?
    case ReceiveError => s.driver.ReceivingError? && s.errCh.Some?
  }

  function Apply(s: State, step: Step): State
    requires Enabled(s, step)
  {
    match step
    case Cancel => s.(ctxDone := true)
    case SessionDies => s.(sessionClosed := true)
    case RunReturns(err) => s.(runner := Sending(err), ran := Some(err))
    case SendError => s.(runner := ClosingDone, errCh := Some(s.runner.err))
    case CloseDone => s.(runner := RunnerDone, doneClosed := true)
    case SelectCancelled => s.(driver := OnCancel)
    case SelectDone => s.(driver := ClosingSession(false))
    case CloseOnCancel => s.(driver := AwaitingDone, sessionClosed := true)
    case DoneFires => s.(driver := ClosingSession(true))
    case CloseSession =>
      s.(sessionClosed := true,
         driver := if s.driver.cancelled then Returned(true, None)
                   else if s.kind.Runs? then ReceivingError
                   else Returned(false, None))
    case ReceiveError => s.(driver := Returned(false, s.errCh.value), errCh := None)
  }

  function Run(s: State, schedule: seq<Step>): State
    decreases |schedule|
  {
    if schedule == [] then s
    else
      var t := Run(s, schedule[..|schedule| - 1]);
      var step := schedule[|schedule| - 1];
      if Enabled(t, step) then Apply(t, step) else t
  }

  ghost predicate PastWait(s: State) {
    s.driver.ClosingSession? || s.driver.ReceivingError? || s.driver.Returned?
  }

  ghost predicate Inv(s: State) {
    && (s.kind.Observes? <==> s.runner.NoRunner?)
    && (s.ran.Some? <==> !s.runner.NoRunner? && !s.runner.Running?)
    && (s.runner.Sending? ==> s.errCh.None? && s.ran == Some(s.runner.err))
    && (s.errCh.Some? ==> s.errCh == s.ran)
    && ((s.runner.ClosingDone? || s.runner.RunnerDone?) && s.errCh.None? ==>
          s.driver.Returned? && !s.driver.cancelled)
    && (s.doneClosed <==> s.runner.RunnerDone?)
    && (PastWait(s) ==> Done(s))
    && (s.driver.AwaitingDone? || s.driver.ReceivingError? || s.driver.Returned? ==> s.sessionClosed)
    && (s.driver.OnCancel? || s.driver.AwaitingDone? ==> s.ctxDone)
    && ((s.driver.ClosingSession? || s.driver.Returned?) && s.driver.cancelled ==> s.ctxDone)
    && (s.driver.ReceivingError? ==> s.kind.Runs?)
    && (s.driver.Returned? ==>
          s.driver.err == if s.driver.cancelled || s.kind.Observes? then None else s.ran.value)
  }

  lemma StepKeepsInv(s: State, step: Step)
    requires Inv(s) && Enabled(s, step)
    ensures Inv(Apply(s, step))
  {
  }

  lemma {:induction false} RunKeepsInv(kind: Kind, ctxDone: bool, sessionClosed: bool, schedule: seq<Step>)
    ensures Inv(Run(Start(kind, ctxDone, sessionClosed), schedule))
    ensures Run(Start(kind, ctxDone, sessionClosed), schedule).kind == kind
    decreases |schedule|
  {
    if schedule != [] {
      var before, step := schedule[..|schedule| - 1], schedule[|schedule| - 1];
      RunKeepsInv(kind, ctxDone, sessionClosed, before);
      var t := Run(Start(kind, ctxDone, sessionClosed), before);
      if Enabled(t, step) {
        StepKeepsInv(t, step);
      }
    }
  }

  /** A value is waiting whenever the driver gets to its receive. */
  lemma ReceiveNeverBlocks(kind: Kind, ctxDone: bool, sessionClosed: bool, schedule: seq<Step>)
    ensures var s := Run(Start(kind, ctxDone, sessionClosed), schedule);
            s.driver.ReceivingError? ==> Enabled(s, ReceiveError)
  {
    RunKeepsInv(kind, ctxDone, sessionClosed, schedule);
  }

  function StepsLeft(s: State): nat {
    One(!s.ctxDone) + One(!s.sessionClosed)
    + (match s.runner
       case NoRunner => 0 case Running => 3 case Sending(_) => 2 case ClosingDone => 1 case RunnerDone => 0)
    + (match s.driver
       case Selecting => 5 case OnCancel => 4 case AwaitingDone => 3
       case ClosingSession(_) => 2 case ReceivingError => 1 case Returned(_, _) => 0)
  }

  /** Steps that must happen: the code's own, and run returning once its session is closed. */
  predicate Obliged(s: State, step: Step) {
    && Enabled(s, step)
    && !step.Cancel? && !step.SessionDies?
    && (step.RunReturns? ==> s.sessionClosed)
  }

  /** Nothing has happened yet that the driver should react to. */
  ghost predicate Quiet(s: State) {
    s.driver.Selecting? && !s.ctxDone && !s.sessionClosed
  }

  ghost predicate Finished(s: State) {
    s.driver.Returned? && (s.kind.Runs? ==> s.runner.RunnerDone?)
  }

  /** Steps of a schedule that actually ran. */
  function Taken(s: State, schedule: seq<Step>): nat
    decreases |schedule|
  {
    if schedule == [] then 0
    else
      var before := schedule[..|schedule| - 1];
      Taken(s, before) + One(Enabled(Run(s, before), schedule[|schedule| - 1]))
  }

  lemma StepCountsDown(s: State, step: Step)
    requires Enabled(s, step)
    ensures StepsLeft(Apply(s, step)) < StepsLeft(s)
  {
  }

  /** No schedule goes on forever: every step that runs counts down. */
  lemma {:induction false} SchedulesEnd(s: State, schedule: seq<Step>)
    ensures Taken(s, schedule) + StepsLeft(Run(s, schedule)) <= StepsLeft(s)
    decreases |schedule|
  {
    if schedule != [] {
      var before, step := schedule[..|schedule| - 1], schedule[|schedule| - 1];
      SchedulesEnd(s, before);
      if Enabled(Run(s, before), step) {
        StepCountsDown(Run(s, before), step);
      }
    }
  }

  /**
   No deadlock: unless everything has finished, or the context and the session
   are both still alive, some step is due. (A runner that returned on its own
   leaves its send and its close due.)
   */
  lemma SomethingIsDue(kind: Kind, ctxDone: bool, sessionClosed: bool, schedule: seq<Step>)
    ensures var s := Run(Start(kind, ctxDone, sessionClosed), schedule);
            || Finished(s)
            || (Quiet(s) && (kind.Runs? ==> s.runner.Running?))
            || exists step :: Obliged(s, step)
  {
    RunKeepsInv(kind, ctxDone, sessionClosed, schedule);
    var s := Run(Start(kind, ctxDone, sessionClosed), schedule);
    match s.runner {
      case Running => assert s.sessionClosed ==> Obliged(s, RunReturns(None));
      case Sending(_) => assert Obliged(s, SendError);
      case ClosingDone => assert Obliged(s, CloseDone);
      case _ =>
    }
    match s.driver {
      case Selecting => assert s.ctxDone ==> Obliged(s, SelectCancelled); assert Done(s) ==> Obliged(s, SelectDone);
      case OnCancel => assert Obliged(s, CloseOnCancel);
      case AwaitingDone => assert Done(s) ==> Obliged(s, DoneFires);
      case ClosingSession(_) => assert Obliged(s, CloseSession);
      case ReceivingError => assert Obliged(s, ReceiveError);
      case Returned(_, _) =>
    }
  }

  // ----- Which arm of the select was taken -----

  /** The step at position k of the schedule is this one, and it could run. */
  ghost predicate Ran(start: State, schedule: seq<Step>, k: nat, step: Step) {
    k < |schedule| && schedule[k] == step && Enabled(Run(start, schedule[..k]), step)
  }

  ghost predicate Happened(start: State, schedule: seq<Step>, step: Step) {
    exists k :: Ran(start, schedule, k, step)
  }

  lemma HappenedLonger(start: State, before: seq<Step>, last: Step, step: Step)
    ensures Happened(start, before + [last], step)
       <==> Happened(start, before, step) || (last == step && Enabled(Run(start, before), step))
  {
    var schedule := before + [last];
    assert schedule[..|before|] == before;
    assert forall k: nat | k < |before| :: schedule[..k] == before[..k] && schedule[k] == before[k];
    if Happened(start, before, step) {
      var k: nat :| Ran(start, before, k, step);
      assert Ran(start, schedule, k, step);
    }
    if last == step && Enabled(Run(start, before), step) {
      assert Ran(start, schedule, |before|, step);
    }
    if Happened(start, schedule, step) {
      var k: nat :| Ran(start, schedule, k, step);
      assert k < |before| ==> Ran(start, before, k, step);
    }
  }

  ghost predicate Remembers(driver: Driver, byCancel: bool, byDone: bool) {
    match driver
    case Selecting => !byCancel && !byDone
    case OnCancel => byCancel && !byDone
    case AwaitingDone => byCancel && !byDone
    case ClosingSession(cancelled) => byCancel == cancelled && byDone == !cancelled
    case ReceivingError => !byCancel && byDone
    case Returned(cancelled, _) => byCancel == cancelled && byDone == !cancelled
  }

  lemma RemembersStep(s: State, step: Step, byCancel: bool, byDone: bool)
    requires Enabled(s, step) && Remembers(s.driver, byCancel, byDone)
    ensures Remembers(Apply(s, step).driver, byCancel || step == SelectCancelled, byDone || step == SelectDone)
  {
  }

  /** The driver reports cancelled exactly if cancellation is what ended the wait. */
  lemma {:induction false} CancelledExactly(kind: Kind, ctxDone: bool, sessionClosed: bool, schedule: seq<Step>)
    ensures var start := Start(kind, ctxDone, sessionClosed);
            Remembers(Run(start, schedule).driver,
                      Happened(start, schedule, SelectCancelled), Happened(start, schedule, SelectDone))
    decreases |schedule|
  {
    if schedule != [] {
      var start := Start(kind, ctxDone, sessionClosed);
      var before, last := schedule[..|schedule| - 1], schedule[|schedule| - 1];
      assert schedule == before + [last];
      CancelledExactly(kind, ctxDone, sessionClosed, before);
      HappenedLonger(start, before, last, SelectCancelled);
      HappenedLonger(start, before, last, SelectDone);
      if Enabled(Run(start, before), last) {
        RemembersStep(Run(start, before), last,
                      Happened(start, before, SelectCancelled), Happened(start, before, SelectDone));
      }
    }
  }

  /**
   What a finished driver leaves behind: the session closed, the runner gone, and
   run's own error exactly when cancellation did not end the wait.
   */
  lemma FinishedCleanly(kind: Kind, ctxDone: bool, sessionClosed: bool, schedule: seq<Step>)
    requires Run(Start(kind, ctxDone, sessionClosed), schedule).driver.Returned?
    ensures var s := Run(Start(kind, ctxDone, sessionClosed), schedule);
            && s.sessionClosed
            && (kind.Runs? ==> s.runner.RunnerDone? && s.ran.Some?)
            && (s.driver.cancelled ==> s.driver.err == None && s.ctxDone)
            && (!s.driver.cancelled && kind.Runs? ==> s.driver.err == s.ran.value)
  {
    RunKeepsInv(kind, ctxDone, sessionClosed, schedule);
  }
}
