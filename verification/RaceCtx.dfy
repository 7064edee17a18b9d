/**
 tunnel.go's raceCtx as a protocol: a worker goroutine, a channel with room for
 one result, a caller selecting on the context and the channel, and a reaper
 that is started when the context wins. Every select choice is a separate step.
 */
module RaceCtx {
  import opened Wrappers

  /** What work returns: an error, or a value that may have a Close method. */
  datatype Outcome = Failed | Value(closable: bool)

  datatype Worker = Working | Sending(outcome: Outcome) | WorkerDone

  datatype Caller = Selecting | GaveUp | Got(outcome: Outcome)

  datatype Reaper = NotStarted | Receiving | Holding(outcome: Outcome) | ReaperDone

  /** `result` is what work returned, and `closes` how often its value was closed. */
  datatype State = State(
    cancelled: bool, worker: Worker, channel: Option<Outcome>, caller: Caller, reaper: Reaper,
    result: Option<Outcome>, closes: nat)

  datatype Step =
    | Cancel
    | WorkReturns(outcome: Outcome)
    | Send
    | SelectCancelled
    | SelectResult
    | Receive
    | Reap

  function Start(): State {
    State(false, Working, None, Selecting, NotStarted, None, 0)
  }

  predicate Enabled(s: State, step: Step) {
    match step
    case Cancel => !s.cancelled
    case WorkReturns(_) => s.worker.Working?
    case Send => s.worker.Sending? && s.channel.None?
    case SelectCancelled => s.caller.Selecting? && s.cancelled
    case SelectResult => s.caller.Selecting? && s.channel.Some?
    case Receive => s.reaper.Receiving? && s.channel.Some?
    case Reap => s.reaper.Holding?
  }

  function Apply(s: State, step: Step): State
    requires Enabled(s, step)
  {
    match step
    case Cancel => s.(cancelled := true)
    case WorkReturns(outcome) => s.(worker := Sending(outcome), result := Some(outcome))
    case Send => s.(worker := WorkerDone, channel := Some(s.worker.outcome))
    case SelectCancelled => s.(caller := GaveUp, reaper := Receiving)
    case SelectResult => s.(caller := Got(s.channel.value), channel := None)
    case Receive => s.(reaper := Holding(s.channel.value), channel := None)
    case Reap =>
      s.(reaper := ReaperDone, closes := s.closes + if s.reaper.outcome == Value(true) then 1 else 0)
  }

  function Run(schedule: seq<Step>): State
    decreases |schedule|
  {
    if schedule == [] then Start()
    else
      var t := Run(schedule[..|schedule| - 1]);
      var step := schedule[|schedule| - 1];
      if Enabled(t, step) then Apply(t, step) else t
  }

  /** How many places hold the result once work has returned. */
  function Places(s: State): nat {
    One(s.worker.Sending?) + One(s.channel.Some?) + One(s.caller.Got?)
    + One(s.reaper.Holding?) + One(s.reaper.ReaperDone?)
  }

  ghost predicate Inv(s: State) {
    && (s.worker.Working? <==> s.result.None?)
    && Places(s) == One(s.result.Some?)
    && (s.worker.Sending? ==> s.result == Some(s.worker.outcome))
    && (s.channel.Some? ==> s.result == s.channel)
    && (s.caller.Got? ==> s.result == Some(s.caller.outcome))
    && (s.reaper.Holding? ==> s.result == Some(s.reaper.outcome))
    && (s.caller.GaveUp? <==> !s.reaper.NotStarted?)
    && (s.caller.GaveUp? ==> s.cancelled)
    && s.closes == One(s.reaper.ReaperDone? && s.result == Some(Value(true)))
  }

  lemma {:induction false} RunKeepsInv(schedule: seq<Step>)
    ensures Inv(Run(schedule))
    decreases |schedule|
  {
    if schedule != [] {
      RunKeepsInv(schedule[..|schedule| - 1]);
    }
  }

  /** The worker's send has room whenever it gets there. */
  lemma SendNeverBlocks(schedule: seq<Step>)
    ensures Run(schedule).worker.Sending? ==> Enabled(Run(schedule), Send)
  {
    RunKeepsInv(schedule);
  }

  /** Steps left before everything has ended. */
  function StepsLeft(s: State): nat {
    One(!s.cancelled)
    + (match s.worker case Working => 2 case Sending(_) => 1 case WorkerDone => 0)
    + (match s.caller case Selecting => 3 case _ => 0)
    + (match s.reaper case Receiving => 2 case Holding(_) => 1 case _ => 0)
  }

  ghost predicate Ended(s: State) {
    s.worker.WorkerDone? && !s.caller.Selecting? && (s.reaper.NotStarted? || s.reaper.ReaperDone?)
  }

  /** Every step counts down, and until all goroutines have ended one of theirs can run. */
  lemma AllGoroutinesEnd(schedule: seq<Step>)
    ensures var s := Run(schedule);
            && (forall step | Enabled(s, step) :: StepsLeft(Apply(s, step)) < StepsLeft(s))
            && (!Ended(s) ==>
                  || Enabled(s, WorkReturns(Failed)) || Enabled(s, Send)
                  || Enabled(s, SelectCancelled) || Enabled(s, SelectResult)
                  || Enabled(s, Receive) || Enabled(s, Reap))
  {
    RunKeepsInv(schedule);
  }

  /** Steps of a schedule that actually ran. */
  function Taken(schedule: seq<Step>): nat
    decreases |schedule|
  {
    if schedule == [] then 0
    else
      var before := schedule[..|schedule| - 1];
      Taken(before) + One(Enabled(Run(before), schedule[|schedule| - 1]))
  }

  lemma {:induction false} SchedulesEnd(schedule: seq<Step>)
    ensures Taken(schedule) + StepsLeft(Run(schedule)) <= StepsLeft(Start())
    decreases |schedule|
  {
    if schedule != [] {
      SchedulesEnd(schedule[..|schedule| - 1]);
    }
  }

  /**
   Exactly-once ownership. When all goroutines have ended, the caller either has
   the result, and nobody closed it, or gave up on a cancelled context, and a
   successful closable value was closed once.
   */
  lemma ResultHasOneOwner(schedule: seq<Step>)
    requires Ended(Run(schedule))
    ensures var s := Run(schedule);
            && s.result.Some?
            && (s.caller == Got(s.result.value) || (s.caller.GaveUp? && s.cancelled))
            && s.closes == One(s.caller.GaveUp? && s.result == Some(Value(true)))
  {
    RunKeepsInv(schedule);
  }

  /** Along the way: never returned and closed, and never closed twice. */
  lemma NeverReturnedAndClosed(schedule: seq<Step>)
    ensures var s := Run(schedule);
            s.closes <= 1 && (s.caller.Got? ==> s.closes == 0 && s.result == Some(s.caller.outcome))
  {
    RunKeepsInv(schedule);
  }
}
