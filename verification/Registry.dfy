/**
 The tunnel session registry of remote.go under concurrency. Accept threads
 install their session last-writer-wins, close what they displaced after
 dropping the lock, wait for their session to close, and clear the slot late.
 Device requests check the tunnel's revocation on a snapshot and dial whatever
 session they get later. Sessions also die on their own.
 */
module Registry {
  import opened Wrappers

  type Session = nat
  type Cert = nat

  // ----- Threads -----

  /** An accept thread is named by the session it accepted. */
  datatype AcceptPhase =
    | Accepted
    | Swapped(previous: Option<Session>)
    | Closing(victim: Session, replacedLive: bool)
    | Waiting
    | Clearing
    | Gone

  datatype Accept = Accept(cert: Cert, phase: AcceptPhase)

  datatype Snapshot = Snapshot(session: Option<Session>, cert: Option<Cert>)

  datatype RequestPhase =
    | Looked(snapshot: Snapshot)
    | StillOpen(session: Session, cert: Cert)
    | Condemning(session: Session, cert: Cert)
    | Finished(closed: bool)
    | Dialled(reached: Option<Session>)

  datatype Install = Install(session: Session, cert: Cert)

  /**
   `slot` and `slotCert` are the two guarded fields; `installs` is the history of
   lock-protected swaps in Set; `denied` is what the revocation list holds now.
   */
  datatype State = State(
    slot: Option<Session>, slotCert: Option<Cert>,
    closed: set<Session>, accepts: map<Session, Accept>, requests: map<nat, RequestPhase>,
    installs: seq<Install>, denied: set<Cert>, shutdown: bool)

  datatype Step =
    | Accepting(session: Session, cert: Cert)
    | Swap(session: Session)
    | Probe(session: Session)
    | CloseOld(session: Session)
    | StopWaiting(session: Session)
    | Clear(session: Session)
    | Look(request: nat)
    | CheckOpen(request: nat)
    | CheckDenied(request: nat)
    | CloseRevoked(request: nat)
    | Dial(request: nat)
    | Die(session: Session)
    | EditDenied(denied': set<Cert>)
    | Shutdown

  function Start(): State {
    State(None, None, {}, map[], map[], [], {}, false)
  }

  predicate Enabled(s: State, step: Step) {
    match step
    case Accepting(x, _) => x !in s.accepts
    case Swap(x) => x in s.accepts && s.accepts[x].phase == Accepted
    case Probe(x) => x in s.accepts && s.accepts[x].phase.Swapped?
    case CloseOld(x) => x in s.accepts && s.accepts[x].phase.Closing?
    case StopWaiting(x) => x in s.accepts && s.accepts[x].phase == Waiting && (x in s.closed || s.shutdown)
    case Clear(x) => x in s.accepts && s.accepts[x].phase == Clearing
    case Look(r) => r !in s.requests
    case CheckOpen(r) => r in s.requests && s.requests[r].Looked?
    case CheckDenied(r) => r in s.requests && s.requests[r].StillOpen?
    case CloseRevoked(r) => r in s.requests && s.requests[r].Condemning?
    case Dial(r) => r in s.requests && s.requests[r] == Finished(false)
    case Die(x) => x in s.accepts
    case EditDenied(_) => true
    case Shutdown => true
  }

  function Move(s: State, x: Session, phase: AcceptPhase): State
    requires x in s.accepts
  {
    s.(accepts := s.accepts[x := s.accepts[x].(phase := phase)])
  }

  function MoveRequest(s: State, r: nat, phase: RequestPhase): State {
    s.(requests := s.requests[r := phase])
  }

  function Apply(s: State, step: Step): State
    requires Enabled(s, step)
  {
    match step
    case Accepting(x, cert) => s.(accepts := s.accepts[x := Accept(cert, Accepted)])
    case Swap(x) =>
      var cert := s.accepts[x].cert;
      Move(s, x, Swapped(s.slot))
      .(slot := Some(x), slotCert := Some(cert), installs := s.installs + [Install(x, cert)])
    case Probe(x) =>
      (match s.accepts[x].phase.previous
       case None => Move(s, x, Waiting)
       case Some(previous) => Move(s, x, Closing(previous, previous !in s.closed)))
    case CloseOld(x) => Move(s, x, Waiting).(closed := s.closed + {s.accepts[x].phase.victim})
    case StopWaiting(x) => Move(s, x, Clearing).(closed := s.closed + {x})
    case Clear(x) =>
      if s.slot == Some(x) then Move(s, x, Gone).(slot := None, slotCert := None)
      else Move(s, x, Gone)
    case Look(r) => MoveRequest(s, r, Looked(Snapshot(s.slot, s.slotCert)))
    case CheckOpen(r) =>
      var Looked(snapshot) := s.requests[r];
      if snapshot.session.None? || snapshot.cert.None? || snapshot.session.value in s.closed
      then MoveRequest(s, r, Finished(false))
      else MoveRequest(s, r, StillOpen(snapshot.session.value, snapshot.cert.value))
    case CheckDenied(r) =>
      var StillOpen(session, cert) := s.requests[r];
      if cert in s.denied then MoveRequest(s, r, Condemning(session, cert))
      else MoveRequest(s, r, Finished(false))
    case CloseRevoked(r) =>
      MoveRequest(s, r, Finished(true)).(closed := s.closed + {s.requests[r].session})
    case Dial(r) => MoveRequest(s, r, Dialled(Get(s)))
    case Die(x) => s.(closed := s.closed + {x})
    case EditDenied(denied') => s.(denied := denied')
    case Shutdown => s.(shutdown := true)
  }

  function Run(s: State, schedule: seq<Step>): State
    decreases |schedule|
  {
    if schedule == [] then s
    else
      var t := Run(s, schedule[..|schedule| - 1]);
      var step := schedule[|schedule| - 1];
      if Enabled(t, step) then Apply(t, step) else t
  }

  /** What Get answers: the slot's session unless it has closed. */
  function Get(s: State): Option<Session> {
    if s.slot.None? || s.slot.value in s.closed then None else s.slot
  }

  // ----- The invariant -----

  /** The thread that displaced the i-th installed session still owes its Close. */
  predicate OwesClose(s: State, x: Session, victim: Session) {
    && x in s.accepts
    && (|| s.accepts[x].phase == Swapped(Some(victim))
        || (s.accepts[x].phase.Closing? && s.accepts[x].phase.victim == victim))
  }

  ghost predicate InstallsMatchThreads(s: State) {
    && (forall i | 0 <= i < |s.installs| ::
          && s.installs[i].session in s.accepts
          && s.accepts[s.installs[i].session].cert == s.installs[i].cert
          && s.accepts[s.installs[i].session].phase != Accepted)
    && (forall i, j | 0 <= i < j < |s.installs| :: s.installs[i].session != s.installs[j].session)
  }

  /** The slot is the last install, or empty once that install has closed. */
  ghost predicate SlotIsLastInstall(s: State) {
    && (s.slot.None? <==> s.slotCert.None?)
    && (s.slot.Some? ==>
          && s.installs != []
          && s.installs[|s.installs| - 1] == Install(s.slot.value, s.slotCert.value))
    && (s.slot.None? && s.installs != [] ==> s.installs[|s.installs| - 1].session in s.closed)
  }

  /** Every earlier install is closed, or its successor in the history still owes the Close. */
  ghost predicate DisplacedAreHandled(s: State) {
    forall i | 0 <= i < |s.installs| - 1 ::
      || s.installs[i].session in s.closed
      || OwesClose(s, s.installs[i + 1].session, s.installs[i].session)
  }

  ghost predicate ClearersHaveClosed(s: State) {
    forall x | x in s.accepts && (s.accepts[x].phase == Clearing || s.accepts[x].phase == Gone) :: x in s.closed
  }

  /** What a request carries was installed, as a pair. */
  ghost predicate ActsOnHistory(s: State, phase: RequestPhase) {
    match phase
    case Looked(snapshot) =>
      && (snapshot.session.None? <==> snapshot.cert.None?)
      && (snapshot.session.Some? ==> Install(snapshot.session.value, snapshot.cert.value) in s.installs)
    case StillOpen(session, cert) => Install(session, cert) in s.installs
    case Condemning(session, cert) => Install(session, cert) in s.installs
    case _ => true
  }

  ghost predicate RequestsActOnHistory(s: State) {
    forall r | r in s.requests :: ActsOnHistory(s, s.requests[r])
  }

  ghost predicate Inv(s: State) {
    && InstallsMatchThreads(s)
    && SlotIsLastInstall(s)
    && DisplacedAreHandled(s)
    && ClearersHaveClosed(s)
    && RequestsActOnHistory(s)
  }

  lemma HistoryGrows(s: State, t: State)
    requires RequestsActOnHistory(s)
    requires s.installs <= t.installs && t.requests == s.requests
    ensures RequestsActOnHistory(t)
  {
    forall r | r in t.requests
      ensures ActsOnHistory(t, t.requests[r])
    {
      assert ActsOnHistory(s, s.requests[r]);
    }
  }

  /** A thread that gives up no debt leaves the displaced sessions handled. */
  lemma DebtsKept(s: State, t: State)
    requires DisplacedAreHandled(s)
    requires t.installs == s.installs && s.closed <= t.closed
    requires forall x, victim :: OwesClose(s, x, victim) ==> OwesClose(t, x, victim) || victim in t.closed
    ensures DisplacedAreHandled(t)
  {
    forall i | 0 <= i < |t.installs| - 1
      ensures t.installs[i].session in t.closed || OwesClose(t, t.installs[i + 1].session, t.installs[i].session)
    {
      assert s.installs[i].session in s.closed || OwesClose(s, s.installs[i + 1].session, s.installs[i].session);
    }
  }

  lemma SwapKeepsInv(s: State, x: Session)
    requires Inv(s) && Enabled(s, Swap(x))
    ensures Inv(Apply(s, Swap(x)))
  {
    var t := Apply(s, Swap(x));
    HistoryGrows(s, t);
    forall i | 0 <= i < |t.installs| - 1
      ensures t.installs[i].session in t.closed || OwesClose(t, t.installs[i + 1].session, t.installs[i].session)
    {
      if i < |s.installs| - 1 {
        assert s.installs[i].session in s.closed || OwesClose(s, s.installs[i + 1].session, s.installs[i].session);
      }
    }
  }

  lemma AcceptKeepsInv(s: State, x: Session, cert: Cert)
    requires Inv(s) && Enabled(s, Accepting(x, cert))
    ensures Inv(Apply(s, Accepting(x, cert)))
  {
    HistoryGrows(s, Apply(s, Accepting(x, cert)));
    DebtsKept(s, Apply(s, Accepting(x, cert)));
  }

  lemma ProbeKeepsInv(s: State, x: Session)
    requires Inv(s) && Enabled(s, Probe(x))
    ensures Inv(Apply(s, Probe(x)))
  {
    HistoryGrows(s, Apply(s, Probe(x)));
    DebtsKept(s, Apply(s, Probe(x)));
  }

  lemma CloseOldKeepsInv(s: State, x: Session)
    requires Inv(s) && Enabled(s, CloseOld(x))
    ensures Inv(Apply(s, CloseOld(x)))
  {
    HistoryGrows(s, Apply(s, CloseOld(x)));
    DebtsKept(s, Apply(s, CloseOld(x)));
  }

  lemma StopWaitingKeepsInv(s: State, x: Session)
    requires Inv(s) && Enabled(s, StopWaiting(x))
    ensures Inv(Apply(s, StopWaiting(x)))
  {
    HistoryGrows(s, Apply(s, StopWaiting(x)));
    DebtsKept(s, Apply(s, StopWaiting(x)));
  }

  lemma ClearKeepsInv(s: State, x: Session)
    requires Inv(s) && Enabled(s, Clear(x))
    ensures Inv(Apply(s, Clear(x)))
  {
    HistoryGrows(s, Apply(s, Clear(x)));
    DebtsKept(s, Apply(s, Clear(x)));
  }

  lemma RequestMoves(s: State, r: nat, phase: RequestPhase, closed': set<Session>)
    requires Inv(s) && ActsOnHistory(s, phase) && s.closed <= closed'
    ensures Inv(MoveRequest(s, r, phase).(closed := closed'))
  {
    var t := MoveRequest(s, r, phase).(closed := closed');
    DebtsKept(s, t);
    forall q | q in t.requests
      ensures ActsOnHistory(t, t.requests[q])
    {
      assert ActsOnHistory(s, t.requests[q]);
    }
  }

  lemma LookKeepsInv(s: State, r: nat)
    requires Inv(s) && Enabled(s, Look(r))
    ensures Inv(Apply(s, Look(r)))
  {
    if s.slot.Some? {
      assert s.installs[|s.installs| - 1] == Install(s.slot.value, s.slotCert.value);
    }
    RequestMoves(s, r, Apply(s, Look(r)).requests[r], s.closed);
  }

  lemma RequestKeepsInv(s: State, step: Step)
    requires Inv(s) && Enabled(s, step)
    requires step.CheckOpen? || step.CheckDenied? || step.CloseRevoked? || step.Dial?
    ensures Inv(Apply(s, step))
  {
    var t, r := Apply(s, step), step.request;
    assert ActsOnHistory(s, s.requests[r]);
    RequestMoves(s, r, t.requests[r], t.closed);
  }

  lemma EnvironmentKeepsInv(s: State, step: Step)
    requires Inv(s) && Enabled(s, step)
    requires step.Die? || step.EditDenied? || step.Shutdown?
    ensures Inv(Apply(s, step))
  {
    HistoryGrows(s, Apply(s, step));
    DebtsKept(s, Apply(s, step));
  }

  lemma StepKeepsInv(s: State, step: Step)
    requires Inv(s) && Enabled(s, step)
    ensures Inv(Apply(s, step))
  {
    match step
    case Accepting(x, cert) => AcceptKeepsInv(s, x, cert);
    case Swap(x) => SwapKeepsInv(s, x);
    case Probe(x) => ProbeKeepsInv(s, x);
    case CloseOld(x) => CloseOldKeepsInv(s, x);
    case StopWaiting(x) => StopWaitingKeepsInv(s, x);
    case Clear(x) => ClearKeepsInv(s, x);
    case Look(r) => LookKeepsInv(s, r);
    case CheckOpen(_) => RequestKeepsInv(s, step);
    case CheckDenied(_) => RequestKeepsInv(s, step);
    case CloseRevoked(_) => RequestKeepsInv(s, step);
    case Dial(_) => RequestKeepsInv(s, step);
    case _ => EnvironmentKeepsInv(s, step);
  }

  lemma {:induction false} RunKeepsInv(schedule: seq<Step>)
    ensures Inv(Run(Start(), schedule))
    decreases |schedule|
  {
    if schedule != [] {
      var before, step := schedule[..|schedule| - 1], schedule[|schedule| - 1];
      RunKeepsInv(before);
      if Enabled(Run(Start(), before), step) {
        StepKeepsInv(Run(Start(), before), step);
      }
    }
  }

  // ----- What follows for every schedule -----

  /** Every installed session is current, closed, or about to be closed by its displacer. */
  lemma NoInstalledSessionIsLost(schedule: seq<Step>, i: nat)
    requires i < |Run(Start(), schedule).installs|
    ensures var s := Run(Start(), schedule);
            var x := s.installs[i].session;
            || s.slot == Some(x)
            || x in s.closed
            || (i + 1 < |s.installs| && OwesClose(s, s.installs[i + 1].session, x))
  {
    RunKeepsInv(schedule);
  }

  ghost predicate NoSetInFlight(s: State) {
    forall x | x in s.accepts :: !s.accepts[x].phase.Swapped? && !s.accepts[x].phase.Closing?
  }

  /** With no Set in flight, the only live installed session is the registry's. */
  lemma AtMostOneLive(schedule: seq<Step>, i: nat)
    requires i < |Run(Start(), schedule).installs|
    requires NoSetInFlight(Run(Start(), schedule))
    ensures var s := Run(Start(), schedule);
            var x := s.installs[i].session;
            x !in s.closed ==> s.slot == Some(x) && i == |s.installs| - 1
  {
    NoInstalledSessionIsLost(schedule, i);
    RunKeepsInv(schedule);
  }

  /** Last writer wins: Get answers the latest install while it lives, and nothing else ever. */
  lemma GetIsTheLatestInstall(schedule: seq<Step>)
    ensures var s := Run(Start(), schedule);
            Get(s) == if s.installs == [] || s.installs[|s.installs| - 1].session in s.closed
                      then None
                      else Some(s.installs[|s.installs| - 1].session)
  {
    RunKeepsInv(schedule);
  }

  /** The certificate in the registry is the one its session was accepted with. */
  lemma SlotCertBelongsToSlot(schedule: seq<Step>)
    ensures var s := Run(Start(), schedule);
            s.slot.Some? ==> s.slot.value in s.accepts && s.slotCert == Some(s.accepts[s.slot.value].cert)
  {
    RunKeepsInv(schedule);
    var s := Run(Start(), schedule);
    if s.slot.Some? {
      assert s.installs[|s.installs| - 1] == Install(s.slot.value, s.slotCert.value);
    }
  }

  /**
   A session leaves the slot only because a newer one was installed, or because
   its own thread cleared it after it closed: a delayed Clear removes nothing else.
   */
  lemma {:induction false} OnlyNewerOrClosedLeavesSlot(schedule: seq<Step>, step: Step, x: Session)
    requires Enabled(Run(Start(), schedule), step)
    requires Run(Start(), schedule).slot == Some(x)
    ensures var s := Run(Start(), schedule);
            var t := Apply(s, step);
            t.slot != Some(x) ==>
              || (step.Swap? && step.session != x && t.slot == Some(step.session))
              || (step == Clear(x) && x in s.closed && t.slot == None && t.slotCert == None)
  {
    RunKeepsInv(schedule);
    var s := Run(Start(), schedule);
    assert s.installs[|s.installs| - 1].session == x;
  }

  /** The step at position j of the schedule is this one, and it could run. */
  ghost predicate Ran(schedule: seq<Step>, j: nat, step: Step) {
    j < |schedule| && schedule[j] == step && Enabled(Run(Start(), schedule[..j]), step)
  }

  /** At position j of the schedule, r took the snapshot (session, cert) of the slot. */
  ghost predicate LookedAt(schedule: seq<Step>, j: nat, r: nat, session: Session, cert: Cert) {
    && Ran(schedule, j, Look(r))
    && Run(Start(), schedule[..j]).slot == Some(session)
    && Run(Start(), schedule[..j]).slotCert == Some(cert)
  }

  /** At position j of the schedule, r found the slot empty. */
  ghost predicate EmptyAt(schedule: seq<Step>, j: nat, r: nat) {
    Ran(schedule, j, Look(r)) && Run(Start(), schedule[..j]).slot == None
  }

  /** At position k of the schedule, r found cert on the denylist. */
  ghost predicate DeniedAt(schedule: seq<Step>, k: nat, r: nat, cert: Cert) {
    Ran(schedule, k, CheckDenied(r)) && cert in Run(Start(), schedule[..k]).denied
  }

  /** What a request carries can be traced back through the schedule. */
  ghost predicate Traced(schedule: seq<Step>, r: nat, phase: RequestPhase) {
    match phase
    case Looked(snapshot) =>
      && (snapshot.session.Some? && snapshot.cert.Some? ==>
            exists j :: LookedAt(schedule, j, r, snapshot.session.value, snapshot.cert.value))
      && (snapshot.session.None? ==> exists j :: EmptyAt(schedule, j, r))
    case StillOpen(session, cert) => exists j :: LookedAt(schedule, j, r, session, cert)
    case Condemning(session, cert) =>
      exists j, k :: LookedAt(schedule, j, r, session, cert) && DeniedAt(schedule, k, r, cert) && j < k
    case _ => true
  }

  lemma TracedLonger(before: seq<Step>, step: Step, r: nat, phase: RequestPhase)
    requires Traced(before, r, phase)
    ensures Traced(before + [step], r, phase)
  {
    var schedule := before + [step];
    assert forall j: nat | j <= |before| :: schedule[..j] == before[..j];
    assert forall j: nat, session, cert ::
        LookedAt(before, j, r, session, cert) ==> LookedAt(schedule, j, r, session, cert);
    assert forall k: nat, cert :: DeniedAt(before, k, r, cert) ==> DeniedAt(schedule, k, r, cert);
    assert forall j: nat :: EmptyAt(before, j, r) ==> EmptyAt(schedule, j, r);
  }

  lemma {:induction false} RequestsAreTraced(schedule: seq<Step>, r: nat)
    ensures r in Run(Start(), schedule).requests ==> Traced(schedule, r, Run(Start(), schedule).requests[r])
    decreases |schedule|
  {
    if schedule != [] {
      var before, step := schedule[..|schedule| - 1], schedule[|schedule| - 1];
      assert schedule == before + [step] && schedule[..|before|] == before;
      RequestsAreTraced(before, r);
      var s, t := Run(Start(), before), Run(Start(), schedule);
      if r in s.requests {
        TracedLonger(before, step, r, s.requests[r]);
      }
      if step == Look(r) {
        TracedLook(before, r);
      } else if step == CheckDenied(r) {
        TracedDenial(before, r);
      }
    }
  }

  lemma TracedLook(before: seq<Step>, r: nat)
    ensures var s, schedule := Run(Start(), before), before + [Look(r)];
            Enabled(s, Look(r)) ==> Traced(schedule, r, Apply(s, Look(r)).requests[r])
  {
    var s, schedule := Run(Start(), before), before + [Look(r)];
    assert schedule[..|before|] == before;
    if s.slot.Some? && s.slotCert.Some? && Enabled(s, Look(r)) {
      assert LookedAt(schedule, |before|, r, s.slot.value, s.slotCert.value);
    }
    if s.slot.None? && Enabled(s, Look(r)) {
      assert EmptyAt(schedule, |before|, r);
    }
  }

  lemma TracedDenial(before: seq<Step>, r: nat)
    requires r in Run(Start(), before).requests ==> Traced(before, r, Run(Start(), before).requests[r])
    ensures var s, schedule := Run(Start(), before), before + [CheckDenied(r)];
            Enabled(s, CheckDenied(r)) ==> Traced(schedule, r, Apply(s, CheckDenied(r)).requests[r])
  {
    var s, schedule := Run(Start(), before), before + [CheckDenied(r)];
    assert schedule[..|before|] == before;
    if Enabled(s, CheckDenied(r)) && s.requests[r].cert in s.denied {
      var session, cert := s.requests[r].session, s.requests[r].cert;
      assert DeniedAt(schedule, |before|, r, cert);
      var j: nat :| LookedAt(before, j, r, session, cert);
      assert schedule[..j] == before[..j];
      assert LookedAt(schedule, j, r, session, cert);
    }
  }

  /**
   Revocation closes one session. It sat in the slot, with this certificate, when
   the thread took its snapshot; later in the schedule that certificate was on
   the denylist; and it was never installed after the snapshot.
   */
  lemma RevocationClosesOnlyTheListed(schedule: seq<Step>, r: nat)
    returns (session: Session, cert: Cert, j: nat, k: nat)
    requires Enabled(Run(Start(), schedule), CloseRevoked(r))
    ensures var s := Run(Start(), schedule);
            && Apply(s, CloseRevoked(r)).closed == s.closed + {session}
            && session in s.accepts && s.accepts[session].cert == cert
    ensures j < k && LookedAt(schedule, j, r, session, cert) && DeniedAt(schedule, k, r, cert)
    ensures var s := Run(Start(), schedule);
            forall i | |Run(Start(), schedule[..j]).installs| <= i < |s.installs| :: s.installs[i].session != session
  {
    var s := Run(Start(), schedule);
    RunKeepsInv(schedule);
    RequestsAreTraced(schedule, r);
    session, cert := s.requests[r].session, s.requests[r].cert;
    assert ActsOnHistory(s, s.requests[r]);
    j, k :| LookedAt(schedule, j, r, session, cert) && DeniedAt(schedule, k, r, cert) && j < k;
    RunKeepsInv(schedule[..j]);
    var earlier := Run(Start(), schedule[..j]);
    RunsOnlyGrow(schedule, j);
    assert earlier.installs[|earlier.installs| - 1] == Install(session, cert);
    assert s.installs[|earlier.installs| - 1] == Install(session, cert);
  }

  /** At position k of the schedule, r found the session closed already. */
  ghost predicate ClosedAt(schedule: seq<Step>, k: nat, r: nat, session: Session) {
    Ran(schedule, k, CheckOpen(r)) && session in Run(Start(), schedule[..k]).closed
  }

  /** At position k of the schedule, r did not find cert on the denylist. */
  ghost predicate SparedAt(schedule: seq<Step>, k: nat, r: nat, cert: Cert) {
    Ran(schedule, k, CheckDenied(r)) && cert !in Run(Start(), schedule[..k]).denied
  }

  /** The reasons for which a check may leave the tunnel alone. */
  ghost predicate Excused(schedule: seq<Step>, r: nat) {
    || (exists j :: EmptyAt(schedule, j, r))
    || (exists j, k, session, cert ::
          j < k && LookedAt(schedule, j, r, session, cert) && ClosedAt(schedule, k, r, session))
    || (exists j, k, session, cert ::
          j < k && LookedAt(schedule, j, r, session, cert) && SparedAt(schedule, k, r, cert))
  }

  lemma ExcusedLonger(before: seq<Step>, step: Step, r: nat)
    requires Excused(before, r)
    ensures Excused(before + [step], r)
  {
    var schedule := before + [step];
    assert forall j: nat | j <= |before| :: schedule[..j] == before[..j];
    assert forall j: nat :: EmptyAt(before, j, r) ==> EmptyAt(schedule, j, r);
    assert forall j: nat, session, cert ::
        LookedAt(before, j, r, session, cert) ==> LookedAt(schedule, j, r, session, cert);
    assert forall k: nat, session :: ClosedAt(before, k, r, session) ==> ClosedAt(schedule, k, r, session);
    assert forall k: nat, cert :: SparedAt(before, k, r, cert) ==> SparedAt(schedule, k, r, cert);
  }

  /** The step with which a check gives up is itself the reason. */
  lemma GivesUpWithReason(before: seq<Step>, step: Step, r: nat)
    requires step == CheckOpen(r) || step == CheckDenied(r)
    requires var s := Run(Start(), before);
             Enabled(s, step) && Apply(s, step).requests[r] == Finished(false)
    ensures Excused(before + [step], r)
  {
    var s, schedule := Run(Start(), before), before + [step];
    RunKeepsInv(before);
    RequestsAreTraced(before, r);
    TracedLonger(before, step, r, s.requests[r]);
    assert ActsOnHistory(s, s.requests[r]);
    assert schedule[..|before|] == before;
    match s.requests[r]
    case Looked(snapshot) =>
      if snapshot.session.Some? {
        assert ClosedAt(schedule, |before|, r, snapshot.session.value);
        var j: nat :| LookedAt(before, j, r, snapshot.session.value, snapshot.cert.value);
        LookedLonger(before, step, j, r, snapshot.session.value, snapshot.cert.value);
      }
    case StillOpen(session, cert) =>
      assert SparedAt(schedule, |before|, r, cert);
      var j: nat :| LookedAt(before, j, r, session, cert);
      LookedLonger(before, step, j, r, session, cert);
    case _ =>
  }

  lemma LookedLonger(before: seq<Step>, step: Step, j: nat, r: nat, session: Session, cert: Cert)
    requires LookedAt(before, j, r, session, cert)
    ensures LookedAt(before + [step], j, r, session, cert)
  {
    assert (before + [step])[..j] == before[..j];
  }

  /** The check has let the tunnel stand. */
  predicate Passed(phase: RequestPhase) {
    phase == Finished(false) || phase.Dialled?
  }

  /**
   A revocation check that leaves the tunnel standing found the slot empty, or
   the session it found closed, or its certificate not listed when it asked.
   */
  lemma {:induction false} SparedOnlyWithReason(schedule: seq<Step>, r: nat)
    requires r in Run(Start(), schedule).requests && Passed(Run(Start(), schedule).requests[r])
    ensures Excused(schedule, r)
    decreases |schedule|
  {
    if schedule != [] {
      var before, step := schedule[..|schedule| - 1], schedule[|schedule| - 1];
      assert schedule == before + [step];
      var s := Run(Start(), before);
      if r in s.requests && Passed(s.requests[r]) {
        SparedOnlyWithReason(before, r);
        ExcusedLonger(before, step, r);
      } else {
        GivesUpWithReason(before, step, r);
      }
    }
  }

  lemma StepOnlyGrows(s: State, step: Step)
    requires Enabled(s, step)
    ensures s.installs <= Apply(s, step).installs && s.closed <= Apply(s, step).closed
  {
  }

  /** Installs are only appended, and what has closed stays closed. */
  lemma {:induction false} RunsOnlyGrow(schedule: seq<Step>, j: nat)
    requires j <= |schedule|
    ensures Run(Start(), schedule[..j]).installs <= Run(Start(), schedule).installs
    ensures Run(Start(), schedule[..j]).closed <= Run(Start(), schedule).closed
    decreases |schedule|
  {
    if j == |schedule| {
      assert schedule[..j] == schedule;
    } else {
      var before := schedule[..|schedule| - 1];
      RunsOnlyGrow(before, j);
      assert before[..j] == schedule[..j];
      if Enabled(Run(Start(), before), schedule[|before|]) {
        StepOnlyGrows(Run(Start(), before), schedule[|before|]);
      }
    }
  }

  // ----- Nothing hangs -----

  /** The step an accept thread takes next. */
  function NextOf(s: State, x: Session): Step
    requires x in s.accepts && s.accepts[x].phase != Gone
  {
    match s.accepts[x].phase
    case Accepted => Swap(x)
    case Swapped(_) => Probe(x)
    case Closing(_, _) => CloseOld(x)
    case Waiting => StopWaiting(x)
    case Clearing => Clear(x)
  }

  /** An accept thread waits only for an open session, and only until shutdown. */
  lemma OnlyOpenTunnelsAreWaitedFor(s: State, x: Session)
    requires x in s.accepts && s.accepts[x].phase != Gone
    ensures Enabled(s, NextOf(s, x)) <==>
      (s.accepts[x].phase == Waiting ==> x in s.closed || s.shutdown)
    ensures Enabled(s, NextOf(s, x)) && s.accepts[x].phase == Clearing ==>
      Apply(s, Clear(x)).accepts[x].phase == Gone && Apply(s, Clear(x)).slot != Some(x)
  {
  }

  /** A request never waits: until it has dialled or closed the tunnel, a step of its own is due. */
  lemma RequestsNeverWait(s: State, r: nat)
    requires r in s.requests && s.requests[r] != Finished(true) && !s.requests[r].Dialled?
    ensures Enabled(s, CheckOpen(r)) || Enabled(s, CheckDenied(r)) || Enabled(s, CloseRevoked(r)) || Enabled(s, Dial(r))
  {
  }

  // ----- What a request dials after its check -----

  /** A Set took the lock at or after position j. */
  ghost predicate SwapRan(schedule: seq<Step>, j: nat) {
    exists k, x :: j <= k && Ran(schedule, k, Swap(x))
  }

  lemma SwapRanLonger(before: seq<Step>, step: Step, j: nat)
    requires j <= |before|
    ensures SwapRan(before + [step], j) <==>
      SwapRan(before, j) || (step.Swap? && Enabled(Run(Start(), before), step))
  {
    var schedule := before + [step];
    assert schedule[..|before|] == before;
    assert forall k: nat | k < |before| :: schedule[..k] == before[..k] && schedule[k] == before[k];
    if SwapRan(before, j) {
      var k: nat, x :| j <= k && Ran(before, k, Swap(x));
      assert Ran(schedule, k, Swap(x));
    }
    if step.Swap? && Enabled(Run(Start(), before), step) {
      assert Ran(schedule, |before|, Swap(step.session));
    }
    if SwapRan(schedule, j) {
      var k: nat, x :| j <= k && Ran(schedule, k, Swap(x));
      assert k < |before| ==> Ran(before, k, Swap(x));
    }
  }

  lemma {:induction false} InstallsCountSwaps(schedule: seq<Step>, j: nat)
    requires j <= |schedule|
    ensures SwapRan(schedule, j) <==> |Run(Start(), schedule[..j]).installs| < |Run(Start(), schedule).installs|
    decreases |schedule|
  {
    if j == |schedule| {
      assert schedule[..j] == schedule;
    } else {
      var before, step := schedule[..|schedule| - 1], schedule[|schedule| - 1];
      assert schedule == before + [step] && before[..j] == schedule[..j];
      SwapRanLonger(before, step, j);
      InstallsCountSwaps(before, j);
      RunsOnlyGrow(before, j);
    }
  }

  /** A session that is open and in the slot was in the slot since the last Set, and only since then. */
  lemma InSlotSinceTheSwap(schedule: seq<Step>, j: nat, x: Session)
    requires j <= |schedule| && Get(Run(Start(), schedule)) == Some(x)
    ensures Run(Start(), schedule[..j]).slot == Some(x) <==> !SwapRan(schedule, j)
    ensures SwapRan(schedule, j) ==>
      exists i :: |Run(Start(), schedule[..j]).installs| <= i < |Run(Start(), schedule).installs|
                  && Run(Start(), schedule).installs[i].session == x
  {
    var earlier, s := Run(Start(), schedule[..j]), Run(Start(), schedule);
    RunKeepsInv(schedule[..j]);
    RunKeepsInv(schedule);
    RunsOnlyGrow(schedule, j);
    InstallsCountSwaps(schedule, j);
    var last := |s.installs| - 1;
    assert s.installs[last].session == x;
  }

  lemma RanLonger(before: seq<Step>, last: Step, k: nat, step: Step)
    requires Ran(before, k, step)
    ensures Ran(before + [last], k, step) && (before + [last])[..k] == before[..k]
  {
    assert (before + [last])[..k] == before[..k];
  }

  /** The most recent install, if it is open. */
  function LatestOpen(s: State): Option<Session> {
    if s.installs == [] || s.installs[|s.installs| - 1].session in s.closed then None
    else Some(s.installs[|s.installs| - 1].session)
  }

  /** A request's dialled session is set by its own dial and never changed. */
  lemma OnlyDialDials(s: State, step: Step, r: nat)
    requires Enabled(s, step)
    requires r in Apply(s, step).requests && Apply(s, step).requests[r].Dialled?
    ensures if r in s.requests && s.requests[r].Dialled? then Apply(s, step).requests[r] == s.requests[r]
            else step == Dial(r) && Apply(s, step).requests[r] == Dialled(Get(s))
  {
  }

  lemma OnlyProbeDecides(s: State, step: Step, x: Session)
    requires Enabled(s, step)
    requires x in Apply(s, step).accepts && Apply(s, step).accepts[x].phase.Closing?
    ensures var phase := Apply(s, step).accepts[x].phase;
            if x in s.accepts && s.accepts[x].phase.Closing? then phase == s.accepts[x].phase
            else step == Probe(x) && (phase.replacedLive <==> phase.victim !in s.closed)
  {
  }

  /** What a request has dialled is the session installed last before its dial, and open then. */
  lemma {:induction false} DialledIsTheLatest(schedule: seq<Step>, r: nat) returns (k: nat)
    requires r in Run(Start(), schedule).requests && Run(Start(), schedule).requests[r].Dialled?
    ensures Ran(schedule, k, Dial(r))
    ensures Run(Start(), schedule).requests[r] == Dialled(LatestOpen(Run(Start(), schedule[..k])))
    decreases |schedule|
  {
    var before, step := schedule[..|schedule| - 1], schedule[|schedule| - 1];
    assert schedule == before + [step];
    var s := Run(Start(), before);
    assert Run(Start(), schedule) == if Enabled(s, step) then Apply(s, step) else s;
    if Enabled(s, step) {
      OnlyDialDials(s, step, r);
    }
    if r in s.requests && s.requests[r].Dialled? {
      k := DialledIsTheLatest(before, r);
      RanLonger(before, step, k, Dial(r));
    } else {
      k := |before|;
      GetIsTheLatestInstall(before);
      assert schedule[..k] == before;
    }
  }

  /** Whether a displaced session counts as replaced while live is decided by one look at it. */
  lemma {:induction false} ReplacedLiveIsTrue(schedule: seq<Step>, x: Session) returns (k: nat)
    requires x in Run(Start(), schedule).accepts && Run(Start(), schedule).accepts[x].phase.Closing?
    ensures Ran(schedule, k, Probe(x))
    ensures var phase := Run(Start(), schedule).accepts[x].phase;
            phase.replacedLive <==> phase.victim !in Run(Start(), schedule[..k]).closed
    decreases |schedule|
  {
    var before, step := schedule[..|schedule| - 1], schedule[|schedule| - 1];
    assert schedule == before + [step];
    var s := Run(Start(), before);
    assert Run(Start(), schedule) == if Enabled(s, step) then Apply(s, step) else s;
    if Enabled(s, step) {
      OnlyProbeDecides(s, step, x);
    }
    if x in s.accepts && s.accepts[x].phase.Closing? {
      k := ReplacedLiveIsTrue(before, x);
      RanLonger(before, step, k, Probe(x));
    } else {
      k := |before|;
      assert schedule[..k] == before;
    }
  }

  /**
   The session a request has dialled after passing the tunnel check: it is the one
   the check was about, with its certificate not listed when the check asked,
   exactly if no Set took the lock between the snapshot and the dial. Otherwise it
   is a session installed after the snapshot, which this check has not seen.
   */
  lemma DialReachesCheckedOrNewer(schedule: seq<Step>, r: nat, x: Session) returns (j: nat, k: nat)
    requires r in Run(Start(), schedule).requests
    requires Run(Start(), schedule).requests[r] == Dialled(Some(x))
    ensures j < k && Ran(schedule, j, Look(r)) && Ran(schedule, k, Dial(r))
    ensures x !in Run(Start(), schedule[..k]).closed
    ensures Run(Start(), schedule[..j]).slot == Some(x) <==> !SwapRan(schedule[..k], j)
    ensures var s := Run(Start(), schedule[..k]);
      if SwapRan(schedule[..k], j)
      then exists i :: |Run(Start(), schedule[..j]).installs| <= i < |s.installs| && s.installs[i].session == x
      else x in s.accepts && exists i :: j < i && SparedAt(schedule[..k], i, r, s.accepts[x].cert)
  {
    k := DialledIsTheLatest(schedule, r);
    GetIsTheLatestInstall(schedule[..k]);
    j := CheckedOrNewer(schedule[..k], r, x);
    assert schedule[..k][..j] == schedule[..j];
  }

  /** The same for the session a request is about to dial. */
  lemma CheckedOrNewer(schedule: seq<Step>, r: nat, x: Session) returns (j: nat)
    requires Enabled(Run(Start(), schedule), Dial(r)) && Get(Run(Start(), schedule)) == Some(x)
    ensures Ran(schedule, j, Look(r))
    ensures Run(Start(), schedule[..j]).slot == Some(x) <==> !SwapRan(schedule, j)
    ensures var s := Run(Start(), schedule);
      if SwapRan(schedule, j)
      then exists i :: |Run(Start(), schedule[..j]).installs| <= i < |s.installs| && s.installs[i].session == x
      else x in s.accepts && exists k :: j < k && SparedAt(schedule, k, r, s.accepts[x].cert)
  {
    var s := Run(Start(), schedule);
    SparedOnlyWithReason(schedule, r);
    if exists j: nat :: EmptyAt(schedule, j, r) {
      j :| EmptyAt(schedule, j, r);
      InSlotSinceTheSwap(schedule, j, x);
    } else if exists j: nat, k: nat, session, cert ::
        j < k && LookedAt(schedule, j, r, session, cert) && ClosedAt(schedule, k, r, session) {
      ghost var k: nat, session, cert;
      j, k, session, cert :| j < k && LookedAt(schedule, j, r, session, cert) && ClosedAt(schedule, k, r, session);
      InSlotSinceTheSwap(schedule, j, x);
      RunsOnlyGrow(schedule, k);
    } else {
      ghost var k: nat, session, cert;
      j, k, session, cert :| j < k && LookedAt(schedule, j, r, session, cert) && SparedAt(schedule, k, r, cert);
      InSlotSinceTheSwap(schedule, j, x);
      if !SwapRan(schedule, j) {
        SlotCertStays(schedule, j, x);
        assert SparedAt(schedule, k, r, s.accepts[x].cert);
      }
    }
  }

  /** The schedule leads to s. */
  ghost predicate Reaches(schedule: seq<Step>, s: State) {
    Run(Start(), schedule) == s
  }

  lemma OneMore(schedule: seq<Step>, s: State, step: Step) returns (longer: seq<Step>)
    requires Reaches(schedule, s) && Enabled(s, step)
    ensures Reaches(longer, Apply(s, step))
  {
    longer := schedule + [step];
    assert longer[..|schedule|] == schedule;
  }

  /** One tunnel, and a request whose check it has passed. */
  function OneTunnelChecked(r: nat, cert: Cert): State {
    State(Some(0), Some(cert), {}, map[0 := Accept(cert, Waiting)], map[r := Finished(false)],
          [Install(0, cert)], {}, false)
  }

  lemma CheckPasses(r: nat, cert: Cert) returns (schedule: seq<Step>)
    ensures Reaches(schedule, OneTunnelChecked(r, cert))
  {
    var s := Start();
    schedule := OneMore([], s, Accepting(0, cert));
    s := s.(accepts := map[0 := Accept(cert, Accepted)]);
    schedule := OneMore(schedule, s, Swap(0));
    s := Apply(s, Swap(0));
    schedule := OneMore(schedule, s, Probe(0));
    s := State(Some(0), Some(cert), {}, map[0 := Accept(cert, Waiting)], map[], [Install(0, cert)], {}, false);
    schedule := CheckPassesFrom(schedule, s, r, cert);
  }

  lemma CheckPassesFrom(before: seq<Step>, idle: State, r: nat, cert: Cert) returns (schedule: seq<Step>)
    requires Reaches(before, idle) && idle == OneTunnelChecked(r, cert).(requests := map[])
    ensures Reaches(schedule, OneTunnelChecked(r, cert))
  {
    var s := idle;
    schedule := OneMore(before, s, Look(r));
    s := s.(requests := map[r := Looked(Snapshot(Some(0), Some(cert)))]);
    schedule := OneMore(schedule, s, CheckOpen(r));
    s := s.(requests := map[r := StillOpen(0, cert)]);
    schedule := OneMore(schedule, s, CheckDenied(r));
  }

  /**
   The second case happens: a certificate listed after its tunnel was accepted,
   and a Set after the check, and the request has dialled a tunnel that is listed and open.
   */
  lemma UncheckedSessionCanBeDialled(r: nat, c0: Cert, c1: Cert) returns (schedule: seq<Step>, s: State)
    ensures Reaches(schedule, s) && r in s.requests && s.requests[r] == Dialled(Some(1))
    ensures 1 in s.accepts && s.accepts[1].cert == c1 && c1 in s.denied && 1 !in s.closed
  {
    schedule := CheckPasses(r, c0);
    s := OneTunnelChecked(r, c0);
    schedule := OneMore(schedule, s, Accepting(1, c1));
    s := Apply(s, Accepting(1, c1));
    schedule := OneMore(schedule, s, EditDenied({c1}));
    s := Apply(s, EditDenied({c1}));
    schedule := OneMore(schedule, s, Swap(1));
    s := Apply(s, Swap(1));
    schedule := OneMore(schedule, s, Dial(r));
    s := Apply(s, Dial(r));
  }

  lemma SlotCertStays(schedule: seq<Step>, j: nat, x: Session)
    requires j <= |schedule| && Run(Start(), schedule[..j]).slot == Some(x)
    ensures x in Run(Start(), schedule).accepts
    ensures Run(Start(), schedule[..j]).slotCert == Some(Run(Start(), schedule).accepts[x].cert)
  {
    var earlier, s := Run(Start(), schedule[..j]), Run(Start(), schedule);
    RunKeepsInv(schedule[..j]);
    RunKeepsInv(schedule);
    RunsOnlyGrow(schedule, j);
    assert s.installs[|earlier.installs| - 1] == earlier.installs[|earlier.installs| - 1];
  }
}
