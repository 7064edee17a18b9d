/**
 The device admission pipeline of remote.go under concurrency: any number of
 `deviceRequest` calls, each a thread that passes the guard checklist, takes a
 per-certificate slot, then a slot of the counting semaphore, serves, and gives
 both back in LIFO order. A schedule is any sequence of steps of any threads.
 */
module Admission {
  import opened Wrappers
  import opened PerCertLimiter

  const FORBIDDEN := 403
  const BAD_REQUEST := 400
  const UNAVAILABLE := 503
  const SERVED := 200

  // ----- The guard checklist -----

  datatype Guards = Guards(
    deviceRole: bool, certRevoked: bool, tunnelRevoked: bool, normalized: bool, allowed: bool)

  /** Status of the first guard that refuses, or None. */
  function Checklist(g: Guards): Option<int> {
    if !g.deviceRole then Some(FORBIDDEN)
    else if g.certRevoked then Some(FORBIDDEN)
    else if g.tunnelRevoked then Some(UNAVAILABLE)
    else if !g.normalized then Some(BAD_REQUEST)
    else if !g.allowed then Some(FORBIDDEN)
    else None
  }

  /** Who gets past the guards, and with which answer everybody else is turned away. */
  lemma ChecklistMeans(g: Guards)
    ensures Checklist(g).None? <==>
      g.deviceRole && !g.certRevoked && !g.tunnelRevoked && g.normalized && g.allowed
    ensures !g.deviceRole || g.certRevoked ==> Checklist(g) == Some(403)
    ensures g.deviceRole && !g.certRevoked && g.tunnelRevoked ==> Checklist(g) == Some(503)
    ensures g.deviceRole && !g.certRevoked && !g.tunnelRevoked && !g.normalized ==> Checklist(g) == Some(400)
    ensures g.deviceRole && !g.certRevoked && !g.tunnelRevoked && g.normalized && !g.allowed ==>
      Checklist(g) == Some(403)
  {
  }

  // ----- Threads and steps -----

  /** Where a request stands; the last three still run their deferred calls. */
  datatype Phase =
    | Checking(guards: Guards)
    | CertHeld
    | Serving
    | Draining
    | Leaving(status: int)
    | Done(status: int)

  datatype Request = Request(serial: Serial, phase: Phase)

  type Requests = map<nat, Request>

  /** `slots` is len(sem), of a channel with capacity `streams`. */
  datatype State = State(cap: int, streams: nat, inUse: Counts, slots: nat, requests: Requests)

  datatype Step =
    | Arrive(id: nat, serial: Serial, guards: Guards)
    | Refuse(id: nat)
    | AcquireCert(id: nat)
    | TrySemaphore(id: nat)
    | Finish(id: nat)
    | ReceiveSemaphore(id: nat)
    | ReleaseCert(id: nat)

  function Start(cap: int, streams: nat): State {
    State(cap, streams, map[], 0, map[])
  }

  predicate At(s: State, id: nat, phase: Phase) {
    id in s.requests && s.requests[id].phase == phase
  }

  predicate Enabled(s: State, step: Step) {
    match step
    case Arrive(id, _, _) => id !in s.requests
    case Refuse(id) =>
      && id in s.requests && s.requests[id].phase.Checking?
      && Checklist(s.requests[id].phase.guards).Some?
    case AcquireCert(id) =>
      && id in s.requests && s.requests[id].phase.Checking?
      && Checklist(s.requests[id].phase.guards).None?
    case TrySemaphore(id) => At(s, id, CertHeld)
    case Finish(id) => At(s, id, Serving)
    case ReceiveSemaphore(id) => At(s, id, Draining) && s.slots > 0
    case ReleaseCert(id) => id in s.requests && s.requests[id].phase.Leaving?
  }

  function Move(s: State, id: nat, phase: Phase): State
    requires id in s.requests
  {
    s.(requests := s.requests[id := s.requests[id].(phase := phase)])
  }

  predicate CertSlotFree(s: State, serial: Serial) {
    s.cap <= 0 || Held(s.inUse, serial) < s.cap
  }

  function Apply(s: State, step: Step): State
    requires Enabled(s, step)
  {
    match step
    case Arrive(id, serial, guards) =>
      s.(requests := s.requests[id := Request(serial, Checking(guards))])
    case Refuse(id) =>
      Move(s, id, Done(Checklist(s.requests[id].phase.guards).value))
    case AcquireCert(id) =>
      var serial := s.requests[id].serial;
      if !CertSlotFree(s, serial) then Move(s, id, Done(UNAVAILABLE))
      else Move(s, id, CertHeld).(inUse := if s.cap <= 0 then s.inUse else Taken(s.inUse, serial))
    case TrySemaphore(id) =>
      if s.slots < s.streams then Move(s, id, Serving).(slots := s.slots + 1)
      else Move(s, id, Leaving(UNAVAILABLE))
    case Finish(id) => Move(s, id, Draining)
    case ReceiveSemaphore(id) => Move(s, id, Leaving(SERVED)).(slots := s.slots - 1)
    case ReleaseCert(id) =>
      var serial := s.requests[id].serial;
      Move(s, id, Done(s.requests[id].phase.status))
      .(inUse := if s.cap <= 0 then s.inUse else GivenBack(s.inUse, serial))
  }

  /** The state after a schedule; a step that cannot run yet leaves the state alone. */
  function Run(s: State, schedule: seq<Step>): State
    decreases |schedule|
  {
    if schedule == [] then s
    else
      var t := Run(s, schedule[..|schedule| - 1]);
      var step := schedule[|schedule| - 1];
      if Enabled(t, step) then Apply(t, step) else t
  }

  // ----- Who holds what -----

  predicate HoldsCert(phase: Phase) {
    phase.CertHeld? || phase.Serving? || phase.Draining? || phase.Leaving?
  }

  predicate HoldsSemaphore(phase: Phase) {
    phase.Serving? || phase.Draining?
  }

  function CertHolders(requests: Requests, serial: Serial): set<nat> {
    set id | id in requests && requests[id].serial == serial && HoldsCert(requests[id].phase)
  }

  function SemaphoreHolders(requests: Requests): set<nat> {
    set id | id in requests && HoldsSemaphore(requests[id].phase)
  }

  /** Both counters count exactly the requests that took and have not given back. */
  ghost predicate Counted(s: State) {
    && WithinCap(s.inUse, s.cap)
    && (s.cap > 0 ==> forall serial :: Held(s.inUse, serial) == |CertHolders(s.requests, serial)|)
    && s.slots == |SemaphoreHolders(s.requests)| <= s.streams
  }

  /** Whoever holds a stream also holds a slot of its certificate. */
  ghost predicate Nested(requests: Requests) {
    forall id | id in SemaphoreHolders(requests) :: id in CertHolders(requests, requests[id].serial)
  }

  ghost predicate Conserved(s: State) {
    Counted(s) && Nested(s.requests)
  }

  lemma SetRequest(requests: Requests, id: nat, request: Request, serial: Serial)
    ensures CertHolders(requests[id := request], serial) - {id} == CertHolders(requests, serial) - {id}
    ensures SemaphoreHolders(requests[id := request]) - {id} == SemaphoreHolders(requests) - {id}
  {
  }

  lemma Without(ids: set<nat>, id: nat)
    ensures |ids - {id}| == |ids| - One(id in ids)
  {
    if id !in ids {
      assert ids - {id} == ids;
    }
  }

  /** What one step does to the number of holders of every serial and of the semaphore. */
  lemma HoldersAfter(requests: Requests, id: nat, request: Request)
    ensures forall serial ::
      |CertHolders(requests[id := request], serial)|
      == |CertHolders(requests, serial)| - One(id in CertHolders(requests, serial))
         + One(request.serial == serial && HoldsCert(request.phase))
    ensures
      |SemaphoreHolders(requests[id := request])|
      == |SemaphoreHolders(requests)| - One(id in SemaphoreHolders(requests))
         + One(HoldsSemaphore(request.phase))
  {
    forall serial
      ensures
        |CertHolders(requests[id := request], serial)|
        == |CertHolders(requests, serial)| - One(id in CertHolders(requests, serial))
           + One(request.serial == serial && HoldsCert(request.phase))
    {
      SetRequest(requests, id, request, serial);
      Without(CertHolders(requests, serial), id);
      Without(CertHolders(requests[id := request], serial), id);
    }
    SetRequest(requests, id, request, request.serial);
    Without(SemaphoreHolders(requests), id);
    Without(SemaphoreHolders(requests[id := request]), id);
  }

  lemma StepConserves(s: State, step: Step)
    requires Conserved(s) && Enabled(s, step)
    ensures Conserved(Apply(s, step))
  {
    StepKeepsCount(s, step);
  }

  lemma StepKeepsCount(s: State, step: Step)
    requires Counted(s) && Enabled(s, step)
    ensures Counted(Apply(s, step))
  {
    var t := Apply(s, step);
    HoldersAfter(s.requests, step.id, t.requests[step.id]);
    assert t.requests == s.requests[step.id := t.requests[step.id]];
    if s.cap > 0 {
      forall serial
        ensures Held(t.inUse, serial) == |CertHolders(t.requests, serial)|
      {
      }
      forall serial | serial in t.inUse
        ensures 1 <= t.inUse[serial] <= s.cap
      {
        assert Held(s.inUse, serial) >= 0;
      }
    }
  }

  /** Slot conservation in every state of every schedule. */
  lemma {:induction false} SlotsAreConserved(cap: int, streams: nat, schedule: seq<Step>)
    ensures Conserved(Run(Start(cap, streams), schedule))
    ensures Run(Start(cap, streams), schedule).cap == cap
    ensures Run(Start(cap, streams), schedule).streams == streams
    decreases |schedule|
  {
    if schedule != [] {
      var before := schedule[..|schedule| - 1];
      SlotsAreConserved(cap, streams, before);
      var t, step := Run(Start(cap, streams), before), schedule[|schedule| - 1];
      if Enabled(t, step) {
        StepConserves(t, step);
      }
    } else {
      assert SemaphoreHolders(map[]) == {};
      assert forall serial :: CertHolders(map[], serial) == {};
    }
  }

  /** Once every request has returned, both budgets are whole again. */
  lemma AllDoneGivesAllBack(s: State)
    requires Conserved(s)
    requires forall id | id in s.requests :: s.requests[id].phase.Done?
    ensures s.inUse == map[] && s.slots == 0
  {
    assert SemaphoreHolders(s.requests) == {};
    if s.cap > 0 {
      forall serial
        ensures serial !in s.inUse
      {
        assert CertHolders(s.requests, serial) == {};
        assert Held(s.inUse, serial) == 0;
      }
    }
  }

  /**
   The two admission decisions, in terms of the requests in flight: a request
   gets its certificate slot exactly when fewer than `cap` requests of that
   certificate hold one, and a stream exactly when fewer than `streams` do.
   */
  lemma AdmissionCountsRequests(cap: int, streams: nat, schedule: seq<Step>, id: nat)
    ensures var s := Run(Start(cap, streams), schedule);
            && (Enabled(s, AcquireCert(id)) ==>
                  At(Apply(s, AcquireCert(id)), id, CertHeld)
                  == (cap <= 0 || |CertHolders(s.requests, s.requests[id].serial)| < cap))
            && (Enabled(s, TrySemaphore(id)) ==>
                  At(Apply(s, TrySemaphore(id)), id, Serving)
                  == (|SemaphoreHolders(s.requests)| < streams))
  {
    SlotsAreConserved(cap, streams, schedule);
  }

  // ----- No request ever blocks -----

  function Rank(phase: Phase): nat {
    match phase
    case Checking(_) => 5
    case CertHeld => 4
    case Serving => 3
    case Draining => 2
    case Leaving(_) => 1
    case Done(_) => 0
  }

  function NextStep(s: State, id: nat): Step
    requires id in s.requests && !s.requests[id].phase.Done?
  {
    match s.requests[id].phase
    case Checking(guards) => if Checklist(guards).Some? then Refuse(id) else AcquireCert(id)
    case CertHeld => TrySemaphore(id)
    case Serving => Finish(id)
    case Draining => ReceiveSemaphore(id)
    case Leaving(_) => ReleaseCert(id)
  }

  /**
   The deferred receive always finds a token, so every unfinished request can
   move; its own steps bring it strictly closer to returning and nobody
   else's step touches it.
   */
  lemma NoRequestBlocks(s: State, id: nat, other: Step)
    requires Conserved(s) && id in s.requests && !s.requests[id].phase.Done?
    ensures Enabled(s, NextStep(s, id))
    ensures Rank(Apply(s, NextStep(s, id)).requests[id].phase) < Rank(s.requests[id].phase)
    ensures Enabled(s, other) && other.id != id ==> Apply(s, other).requests[id] == s.requests[id]
    ensures Enabled(s, other) && other.id == id ==> other == NextStep(s, id)
  {
    if s.requests[id].phase.Draining? {
      assert id in SemaphoreHolders(s.requests);
    }
    if Enabled(s, other) && other.id != id {
      OthersLeaveAlone(s, id, other);
    }
  }

  lemma OthersLeaveAlone(s: State, id: nat, other: Step)
    requires id in s.requests && Enabled(s, other) && other.id != id
    ensures id in Apply(s, other).requests && Apply(s, other).requests[id] == s.requests[id]
  {
  }

  /** Nobody reaches the budgets except past every guard, and nobody past them is refused by one. */
  lemma GuardsComeFirst(s: State, id: nat)
    requires id in s.requests && s.requests[id].phase.Checking?
    ensures var g := s.requests[id].phase.guards;
      var passes := g.deviceRole && !g.certRevoked && !g.tunnelRevoked && g.normalized && g.allowed;
      && (Enabled(s, AcquireCert(id)) <==> passes)
      && (Enabled(s, Refuse(id)) <==> !passes)
  {
    ChecklistMeans(s.requests[id].phase.guards);
  }

  // ----- What the status tells -----

  /** The step at position k of the schedule is this one, and it could run. */
  ghost predicate Ran(start: State, schedule: seq<Step>, k: nat, step: Step) {
    k < |schedule| && schedule[k] == step && Enabled(Run(start, schedule[..k]), step)
  }

  ghost predicate Happened(start: State, schedule: seq<Step>, step: Step) {
    exists k :: Ran(start, schedule, k, step)
  }

  lemma HappenedLonger(start: State, before: seq<Step>, last: Step, step: Step)
    ensures Happened(start, before + [last], step)
       <==> Happened(start, before, step) || (last == step && Enabled(Run(start, before), step))
  {
    var schedule := before + [last];
    assert schedule[..|before|] == before;
    assert forall k: nat | k < |before| :: schedule[..k] == before[..k] && schedule[k] == before[k];
    if Happened(start, before, step) {
      var k: nat :| Ran(start, before, k, step);
      assert Ran(start, schedule, k, step);
    }
    if last == step && Enabled(Run(start, before), step) {
      assert Ran(start, schedule, |before|, step);
    }
    if Happened(start, schedule, step) {
      var k: nat :| Ran(start, schedule, k, step);
      assert k < |before| ==> Ran(start, before, k, step);
    }
  }

  /** A request's phase in terms of what it has done; the budgets answer 503. */
  ghost predicate Explained(phase: Phase, refused: bool, served: bool) {
    match phase
    case Checking(_) => !refused && !served
    case CertHeld => !refused && !served
    case Serving => !refused && !served
    case Draining => !refused && served
    case Leaving(status) => !refused && status == if served then 200 else 503
    case Done(status) =>
      && (served ==> !refused && status == 200)
      && (refused ==> status == 400 || status == 403 || status == 503)
      && (!served && !refused ==> status == 503)
  }

  /**
   A request is answered 200 exactly if it was forwarded, and 503 if a budget
   turned it away; the guards answer with their own statuses.
   */
  lemma {:induction false} StatusTellsWhy(cap: int, streams: nat, schedule: seq<Step>, id: nat)
    ensures var start, s := Start(cap, streams), Run(Start(cap, streams), schedule);
      if id in s.requests
      then Explained(s.requests[id].phase, Happened(start, schedule, Refuse(id)), Happened(start, schedule, Finish(id)))
      else !Happened(start, schedule, Refuse(id)) && !Happened(start, schedule, Finish(id))
    decreases |schedule|
  {
    if schedule != [] {
      var start, before, last := Start(cap, streams), schedule[..|schedule| - 1], schedule[|schedule| - 1];
      assert schedule == before + [last];
      StatusTellsWhy(cap, streams, before, id);
      HappenedLonger(start, before, last, Refuse(id));
      HappenedLonger(start, before, last, Finish(id));
      var s := Run(start, before);
      if Enabled(s, last) {
        ExplainedStep(s, last, id, Happened(start, before, Refuse(id)), Happened(start, before, Finish(id)));
      }
    }
  }

  lemma ExplainedStep(s: State, step: Step, id: nat, refused: bool, served: bool)
    requires Enabled(s, step)
    requires if id in s.requests then Explained(s.requests[id].phase, refused, served) else !refused && !served
    ensures var t := Apply(s, step);
      if id in t.requests
      then Explained(t.requests[id].phase, refused || step == Refuse(id), served || step == Finish(id))
      else !refused && !served && step != Refuse(id) && step != Finish(id)
  {
    if id in s.requests && s.requests[id].phase.Checking? {
      ChecklistMeans(s.requests[id].phase.guards);
    }
  }

  // ----- Fairness -----

  function SerialsOf(requests: Requests, ids: set<nat>): set<Serial>
    requires ids <= requests.Keys
  {
    set id | id in ids :: requests[id].serial
  }

  function OfSerial(requests: Requests, ids: set<nat>, serial: Serial): set<nat>
    requires ids <= requests.Keys
  {
    set id | id in ids && requests[id].serial == serial
  }

  /** Taking one serial's requests out leaves every other serial's as they were. */
  lemma OthersKeepTheirs(requests: Requests, ids: set<nat>, serial: Serial)
    requires ids <= requests.Keys
    ensures var rest := ids - OfSerial(requests, ids, serial);
      && (forall s | s != serial :: OfSerial(requests, rest, s) == OfSerial(requests, ids, s))
      && |ids| == |rest| + |OfSerial(requests, ids, serial)|
  {
    var mine := OfSerial(requests, ids, serial);
    assert ids == (ids - mine) + mine;
  }

  /** Pigeonhole: few per serial means many serials. */
  lemma {:induction false} FewEachMeansMany(requests: Requests, ids: set<nat>, serials: set<Serial>, cap: nat)
    requires ids <= requests.Keys
    requires forall id | id in ids :: requests[id].serial in serials
    requires forall serial | serial in serials :: |OfSerial(requests, ids, serial)| <= cap
    ensures |ids| <= |serials| * cap
    decreases serials
  {
    if serials == {} {
      assert ids == {};
    } else {
      var serial :| serial in serials;
      OthersKeepTheirs(requests, ids, serial);
      FewEachMeansMany(requests, ids - OfSerial(requests, ids, serial), serials - {serial}, cap);
      OneMore(serials, serial, cap);
    }
  }

  lemma OneMore(serials: set<Serial>, serial: Serial, cap: nat)
    requires serial in serials
    ensures |serials| * cap == |serials - {serial}| * cap + cap
  {
    assert |serials| == |serials - {serial}| + 1;
  }

  lemma SubsetIsSmaller(a: set<nat>, b: set<nat>)
    requires a <= b
    ensures |a| <= |b|
  {
    assert b == a + (b - a);
  }

  function CeilDiv(n: nat, d: nat): nat
    requires d > 0
  {
    (n + d - 1) / d
  }

  lemma CeilDivBound(n: nat, d: nat, k: nat)
    requires d > 0 && n <= k * d
    ensures CeilDiv(n, d) <= k
  {
    if CeilDiv(n, d) > k {
      QuotientTimes(n + d - 1, d, k + 1);
    }
  }

  lemma QuotientTimes(n: nat, d: nat, k: nat)
    requires d > 0 && k <= n / d
    ensures k * d <= n
  {
    var extra := n / d - k;
    assert (k + extra) * d == k * d + extra * d;
  }

  /**
   Whenever the semaphore turns a request away, its slots are spread over at
   least ceil(streams/cap) certificates, and the refused certificate itself has
   fewer than cap of them.
   */
  lemma RefusalMeansManyCertificates(s: State, id: nat)
    requires Conserved(s) && s.cap > 0
    requires Enabled(s, TrySemaphore(id))
    requires !At(Apply(s, TrySemaphore(id)), id, Serving)
    ensures SemaphoreHolders(s.requests) <= s.requests.Keys
    ensures |SemaphoreHolders(s.requests)| == s.streams
    ensures |SerialsOf(s.requests, SemaphoreHolders(s.requests))| >= CeilDiv(s.streams, s.cap)
    ensures |OfSerial(s.requests, SemaphoreHolders(s.requests), s.requests[id].serial)| <= s.cap - 1
  {
    var holders := SemaphoreHolders(s.requests);
    var serials := SerialsOf(s.requests, holders);
    forall serial
      ensures |OfSerial(s.requests, holders, serial)| <= s.cap
    {
      SubsetIsSmaller(OfSerial(s.requests, holders, serial), CertHolders(s.requests, serial));
      assert Held(s.inUse, serial) <= s.cap;
    }
    FewEachMeansMany(s.requests, holders, serials, s.cap);
    CeilDivBound(s.streams, s.cap, |serials|);

    var serial := s.requests[id].serial;
    var mine := OfSerial(s.requests, holders, serial);
    SubsetIsSmaller(mine + {id}, CertHolders(s.requests, serial));
    assert |mine + {id}| == |mine| + 1;
    assert Held(s.inUse, serial) <= s.cap;
  }

  /** The fairness guarantee, for every schedule. */
  lemma NoCertificateStarvesTheOthers(cap: int, streams: nat, schedule: seq<Step>, id: nat)
    requires cap > 0
    ensures var s := Run(Start(cap, streams), schedule);
            Enabled(s, TrySemaphore(id)) && !At(Apply(s, TrySemaphore(id)), id, Serving) ==>
              && SemaphoreHolders(s.requests) <= s.requests.Keys
              && |SerialsOf(s.requests, SemaphoreHolders(s.requests))| >= CeilDiv(streams, cap)
              && |OfSerial(s.requests, SemaphoreHolders(s.requests), s.requests[id].serial)| <= cap - 1
  {
    SlotsAreConserved(cap, streams, schedule);
    var s := Run(Start(cap, streams), schedule);
    if Enabled(s, TrySemaphore(id)) && !At(Apply(s, TrySemaphore(id)), id, Serving) {
      RefusalMeansManyCertificates(s, id);
    }
  }
}
