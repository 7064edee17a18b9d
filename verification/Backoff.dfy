/**
 Reconnect backoff (local.go). Durations are int64 nanoseconds and `min << attempt`
 wraps around, as in Go; the theorems relate what the code computes to exact
 arithmetic, and bound the delays over whole runs of LocalClient.Run.
 */
module Backoff {
  const MAX_DURATION := 0x7fff_ffff_ffff_ffff
  const TWO_64 := 0x1_0000_0000_0000_0000

  type Duration = d: int | -MAX_DURATION - 1 <= d <= MAX_DURATION

  function Pow2(n: nat): (p: nat)
    ensures p >= 1
  {
    if n == 0 then 1 else 2 * Pow2(n - 1)
  }

  /** d*2^n, by doubling. */
  function Scaled(d: int, n: nat): int {
    if n == 0 then d else 2 * Scaled(d, n - 1)
  }

  lemma {:induction false} ScaledIsProduct(d: int, n: nat)
    ensures Scaled(d, n) == d * Pow2(n)
    ensures d >= 1 ==> Scaled(d, n) >= Pow2(n) && Scaled(d, n) >= d
  {
    if n > 0 {
      ScaledIsProduct(d, n - 1);
      assert d * (2 * Pow2(n - 1)) == 2 * (d * Pow2(n - 1));
    }
  }

  /** Two's complement wrap-around into int64. */
  function Wrap(x: int): (r: Duration)
    ensures (x - r) % TWO_64 == 0
  {
    var r := x % TWO_64;
    if r > MAX_DURATION then r - TWO_64 else r
  }

  function ShiftLeft(d: Duration, n: nat): Duration {
    Wrap(Scaled(d, n))
  }

  /** The smaller of min*2^n and max, in exact arithmetic. */
  function Base(min: Duration, max: Duration, n: nat): int {
    if Scaled(min, n) > max then max else Scaled(min, n)
  }

  /** Attempts only advance past a shift that was still within max. */
  ghost predicate Reached(min: Duration, max: Duration, attempt: nat) {
    attempt > 0 ==> 0 < min && Scaled(min, attempt - 1) <= max
  }

  predicate PastMax(min: Duration, max: Duration, attempt: nat) {
    ShiftLeft(min, attempt) <= 0 || ShiftLeft(min, attempt) > max
  }

  /** In a reached state the wrapped comparison is exact: one doubling past max at most. */
  lemma ComparisonIsExact(min: Duration, max: Duration, attempt: nat)
    requires 0 < min && Reached(min, max, attempt)
    ensures PastMax(min, max, attempt) <==> Scaled(min, attempt) > max
    ensures !PastMax(min, max, attempt) ==> ShiftLeft(min, attempt) == Scaled(min, attempt)
  {
    var exact := Scaled(min, attempt);
    ScaledIsProduct(min, attempt);
    assert 0 < exact < TWO_64;
    assert exact % TWO_64 == exact;
  }

  lemma {:induction false} Pow2Bound(n: nat, k: nat)
    requires Pow2(n) < Pow2(k)
    ensures n < k
    decreases n
  {
    if n > 0 && k > 0 {
      Pow2Bound(n - 1, k - 1);
    }
  }

  lemma {:induction false} Pow2Sum(m: nat, n: nat)
    ensures Pow2(m + n) == Pow2(m) * Pow2(n)
  {
    if m > 0 {
      Pow2Sum(m - 1, n);
    }
  }

  /** The ladder from 2^8 to 2^63. */
  lemma Pow2Of63()
    ensures Pow2(63) == MAX_DURATION + 1
  {
    var p8, p16, p32, p64 := Pow2(8), Pow2(16), Pow2(32), Pow2(64);
    assert p8 == 0x100 by { Pow2Sum(4, 4); }
    assert p16 == p8 * p8 by { Pow2Sum(8, 8); }
    assert p32 == p16 * p16 by { Pow2Sum(16, 16); }
    assert p64 == p32 * p32 by { Pow2Sum(32, 32); }
    assert p64 == 2 * Pow2(63) by { Pow2Sum(1, 63); }
  }

  lemma AttemptsStayBelow64(min: Duration, max: Duration, attempt: nat)
    requires Reached(min, max, attempt)
    ensures attempt <= 63
  {
    if attempt > 0 {
      ScaledIsProduct(min, attempt - 1);
      Pow2Of63();
      Pow2Bound(attempt - 1, 63);
    }
  }

  /** From an attempt that Next never reaches, the same comparison is fooled. */
  lemma ComparisonNeedsTheInvariant()
    ensures !PastMax(0x4000_0000_0000_0001, MAX_DURATION, 2)
    ensures Scaled(0x4000_0000_0000_0001, 2) > MAX_DURATION
  {
    assert Scaled(0x4000_0000_0000_0001, 2) == TWO_64 + 4;
    assert ShiftLeft(0x4000_0000_0000_0001, 2) == 4;
  }

  // ----- The object -----

  /** What rand.Int63n(limit) may return, as a function of the generator's raw draw. */
  function Draw(raw: nat, limit: nat): nat
    requires limit > 0
  {
    raw % limit
  }

  /** The delay for attempt number n with a given draw. */
  function Delay(min: Duration, max: Duration, n: nat, raw: nat): int {
    var base := Base(min, max, n);
    if base < 5 then base
    else
      var jitter := Draw(raw, base / 5);
      if jitter > max - base then max else base + jitter
  }

  function AttemptAfter(min: Duration, max: Duration, attempt: nat): nat {
    if Scaled(min, attempt) > max then attempt else attempt + 1
  }

  class Timer {
    const min: Duration
    const max: Duration
    var attempt: nat

    /** Holds of every timer, by construction; `0 < min` is what config validation adds. */
    ghost predicate Valid()
      reads this
    {
      Reached(min, max, attempt)
    }

    constructor (min: Duration, max: Duration)
      ensures Valid() && this.min == min && this.max == max && attempt == 0
    {
      this.min := min;
      this.max := max;
      attempt := 0;
    }

    method NextBase() returns (d: Duration)
      requires Valid()
      modifies this
      ensures Valid()
      ensures 0 < min ==> d == Base(min, max, old(attempt))
      ensures 0 < min ==> attempt == AttemptAfter(min, max, old(attempt))
      ensures min <= 0 ==> d == max && attempt == old(attempt)
    {
      if 0 < min {
        ComparisonIsExact(min, max, attempt);
      } else {
        assert ShiftLeft(min, 0) == min;
      }
      d := ShiftLeft(min, attempt);
      if d <= 0 || d > max {
        return max;
      }
      attempt := attempt + 1;
    }

    /** Never forms an overflowing sum, and never exceeds max. */
    method Next(raw: nat) returns (d: Duration)
      requires Valid()
      modifies this
      ensures Valid()
      ensures d <= max
      ensures 0 < min ==> d == Delay(min, max, old(attempt), raw)
      ensures 0 < min ==> attempt == AttemptAfter(min, max, old(attempt))
    {
      var base := NextBase();
      if base < 5 {
        return base;
      }
      var jitter := Draw(raw, base / 5);
      if jitter > max - base {
        return max;
      }
      return base + jitter;
    }

    method Reset()
      modifies this
      ensures Valid() && attempt == 0
    {
      attempt := 0;
    }

    method ResetIfStable(uptime: Duration)
      requires Valid()
      modifies this
      ensures Valid()
      ensures attempt == if uptime >= min then 0 else old(attempt)
    {
      if uptime >= min {
        Reset();
      }
    }
  }

  // ----- One delay -----

  lemma DelayBounds(min: Duration, max: Duration, n: nat, raw: nat)
    requires 0 < min <= max
    ensures min <= Base(min, max, n) <= Delay(min, max, n, raw) <= max
    ensures Base(min, max, n) >= 5 ==> Delay(min, max, n, raw) < Base(min, max, n) + Base(min, max, n) / 5
    ensures Base(min, max, n) < 5 ==> Delay(min, max, n, raw) == Base(min, max, n)
  {
    ScaledIsProduct(min, n);
  }

  /** A delay is below the next base, unless both are the cap already. */
  lemma DelayBelowNextBase(min: Duration, max: Duration, n: nat, raw: nat)
    requires 0 < min <= max
    ensures var d, next := Delay(min, max, n, raw), Base(min, max, n + 1);
            d <= next && (d < max ==> d < next) && (d == max ==> next == max)
  {
    DelayBounds(min, max, n, raw);
    ScaledIsProduct(min, n);
  }

  lemma {:induction false} BaseMonotone(min: Duration, max: Duration, m: nat, n: nat)
    requires 0 < min && m <= n
    ensures Scaled(min, m) <= Scaled(min, n)
    ensures Base(min, max, m) <= Base(min, max, n)
    decreases n
  {
    if m < n {
      BaseMonotone(min, max, m, n - 1);
      ScaledIsProduct(min, n - 1);
    }
  }

  /** Delays between resets never decrease, strictly increase up to max, and stay there. */
  lemma DelaysGrow(min: Duration, max: Duration, m: nat, rawM: nat, n: nat, rawN: nat)
    requires 0 < min <= max && m < n
    ensures var d, later := Delay(min, max, m, rawM), Delay(min, max, n, rawN);
            d <= later && (d < max ==> d < later) && (d == max ==> later == max)
  {
    DelayBelowNextBase(min, max, m, rawM);
    BaseMonotone(min, max, m + 1, n);
    DelayBounds(min, max, n, rawN);
  }

  /** The delay without jitter, in exact arithmetic: it doubles from min, and stops at max. */
  lemma BaseIsExact(min: Duration, max: Duration, n: nat)
    requires 0 < min <= max
    ensures Base(min, max, n) == if min * Pow2(n) <= max then min * Pow2(n) else max
    ensures Base(min, max, 0) == min
  {
    ScaledIsProduct(min, n);
  }

  lemma SmallDraw(raw: nat, limit: nat)
    requires raw < limit
    ensures Draw(raw, limit) == raw
  {
  }

  /** Every delay within the bounds can be drawn. */
  lemma EveryDelayCanBeDrawn(min: Duration, max: Duration, n: nat, d: int) returns (raw: nat)
    requires 0 < min <= max
    requires Base(min, max, n) <= d <= max
    requires d == Base(min, max, n) || d < Base(min, max, n) + Base(min, max, n) / 5
    ensures Delay(min, max, n, raw) == d
  {
    raw := d - Base(min, max, n);
    if Base(min, max, n) >= 5 {
      SmallDraw(raw, Base(min, max, n) / 5);
    }
  }

  // ----- The attempt counter saturates, the delay does not notice -----

  /** `attempt` stands for n waits since the last reset. */
  ghost predicate StandsFor(min: Duration, max: Duration, attempt: nat, n: nat) {
    attempt <= n && (attempt == n || Scaled(min, attempt) > max)
  }

  lemma SaturatedDelay(min: Duration, max: Duration, attempt: nat, n: nat, raw: nat)
    requires 0 < min && StandsFor(min, max, attempt, n)
    ensures Base(min, max, attempt) == Base(min, max, n)
    ensures Delay(min, max, attempt, raw) == Delay(min, max, n, raw)
    ensures StandsFor(min, max, AttemptAfter(min, max, attempt), n + 1)
  {
    BaseMonotone(min, max, attempt, n);
  }

  lemma {:induction false} ScaledTwice(d: int, n: nat)
    ensures Scaled(2 * d, n) == Scaled(d, n + 1)
  {
    if n > 0 {
      ScaledTwice(d, n - 1);
    }
  }

  /** The least n with min*2^n >= max, that is ceil(log2(max/min)). */
  function Doublings(min: nat, max: int): (n: nat)
    requires 0 < min
    ensures Scaled(min, n) >= max
    ensures n > 0 ==> Scaled(min, n - 1) < max
    decreases max - min
  {
    if min >= max then 0
    else
      var n := Doublings(2 * min, max);
      ScaledTwice(min, n);
      if n > 0 then (ScaledTwice(min, n - 1); n + 1) else n + 1
  }

  lemma ShortDelaysComeEarly(min: Duration, max: Duration, n: nat, raw: nat)
    requires 0 < min <= max
    requires Delay(min, max, n, raw) < max
    ensures n < Doublings(min, max)
  {
    DelayBounds(min, max, n, raw);
    if n >= Doublings(min, max) {
      BaseMonotone(min, max, Doublings(min, max), n);
    }
  }

  // ----- Whole runs of LocalClient.Run -----

  /**
   One turn of the loop. The dial fails, or a session runs and ends with `uptime`
   unless it was cancelled; then comes a wait that cancellation may interrupt.
   The loop also stops when the rounds end: ctx.Err() is not nil any more.
   */
  datatype Round =
    | DialFailed(raw: nat, interrupted: bool)
    | Session(cancelled: bool, uptime: Duration, raw: nat, interrupted: bool)

  datatype Entry = Waited(delay: int) | SessionEnded(uptime: Duration)

  function WaitLog(min: Duration, max: Duration, attempt: nat, raw: nat, interrupted: bool, rest: seq<Round>)
    : seq<Entry>
    decreases |rest|, 1
  {
    [Waited(Delay(min, max, attempt, raw))]
    + if interrupted then [] else RunLog(min, max, AttemptAfter(min, max, attempt), rest)
  }

  function RunLog(min: Duration, max: Duration, attempt: nat, rounds: seq<Round>): seq<Entry>
    decreases |rounds|, 0
  {
    if rounds == [] then []
    else match rounds[0]
      case DialFailed(raw, interrupted) => WaitLog(min, max, attempt, raw, interrupted, rounds[1..])
      case Session(cancelled, uptime, raw, interrupted) =>
        if cancelled then []
        else [SessionEnded(uptime)]
             + WaitLog(min, max, if uptime >= min then 0 else attempt, raw, interrupted, rounds[1..])
  }

  /** What the run logs before the wait of its first round. */
  function SessionLog(round: Round): seq<Entry> {
    if round.Session? then [SessionEnded(round.uptime)] else []
  }

  function AttemptBeforeWait(min: Duration, attempt: nat, round: Round): nat {
    if round.Session? && round.uptime >= min then 0 else attempt
  }

  lemma RunLogUnrolled(min: Duration, max: Duration, attempt: nat, todo: seq<Round>)
    requires todo != []
    ensures RunLog(min, max, attempt, todo) ==
      if todo[0].Session? && todo[0].cancelled then []
      else SessionLog(todo[0])
           + WaitLog(min, max, AttemptBeforeWait(min, attempt, todo[0]), todo[0].raw, todo[0].interrupted, todo[1..])
  {
  }

  /** After this round the loop is left. */
  predicate Stops(round: Round) {
    (round.Session? && round.cancelled) || round.interrupted
  }

  function Uptimes(rounds: seq<Round>): seq<Duration> {
    if rounds == [] then []
    else (if rounds[0].Session? then [rounds[0].uptime] else []) + Uptimes(rounds[1..])
  }

  function LoggedUptimes(log: seq<Entry>): seq<Duration> {
    if log == [] then []
    else (if log[0].SessionEnded? then [log[0].uptime] else []) + LoggedUptimes(log[1..])
  }

  function Waits(log: seq<Entry>): nat {
    if log == [] then 0 else (if log[0].Waited? then 1 else 0) + Waits(log[1..])
  }

  lemma LoggedRound(round: Round, delay: int, tail: seq<Entry>)
    ensures var log := SessionLog(round) + ([Waited(delay)] + tail);
      && Waits(log) == 1 + Waits(tail)
      && LoggedUptimes(log) == (if round.Session? then [round.uptime] else []) + LoggedUptimes(tail)
  {
    var waited := [Waited(delay)] + tail;
    assert waited[1..] == tail;
    assert LoggedUptimes(waited) == LoggedUptimes(tail);
    if round.Session? {
      assert (SessionLog(round) + waited)[1..] == waited;
    } else {
      assert SessionLog(round) + waited == waited;
    }
  }

  /** The loop goes on: while nothing stops it, every round logs its session and waits once. */
  lemma {:induction false} EveryRoundIsLogged(min: Duration, max: Duration, attempt: nat, rounds: seq<Round>)
    requires forall i | 0 <= i < |rounds| :: !Stops(rounds[i])
    ensures var log := RunLog(min, max, attempt, rounds);
            Waits(log) == |rounds| && LoggedUptimes(log) == Uptimes(rounds)
    decreases |rounds|
  {
    if rounds != [] {
      var round, rest := rounds[0], rounds[1..];
      var before := AttemptBeforeWait(min, attempt, round);
      var after := AttemptAfter(min, max, before);
      assert !Stops(round);
      EveryRoundIsLogged(min, max, after, rest);
      RunLogUnrolled(min, max, attempt, rounds);
      LoggedRound(round, Delay(min, max, before, round.raw), RunLog(min, max, after, rest));
    }
  }

  /** And it ends there: nothing is logged behind a round that stops it. */
  lemma {:induction false} NothingAfterAStop(
      min: Duration, max: Duration, attempt: nat, front: seq<Round>, last: Round, rest: seq<Round>)
    requires Stops(last)
    ensures RunLog(min, max, attempt, front + [last] + rest) == RunLog(min, max, attempt, front + [last])
    decreases |front|
  {
    var rounds, cut := front + [last] + rest, front + [last];
    RunLogUnrolled(min, max, attempt, rounds);
    RunLogUnrolled(min, max, attempt, cut);
    if front != [] {
      var after := AttemptAfter(min, max, AttemptBeforeWait(min, attempt, front[0]));
      NothingAfterAStop(min, max, after, front[1..], last, rest);
      assert rounds[1..] == front[1..] + [last] + rest && cut[1..] == front[1..] + [last];
    }
  }

  class LocalClient {
    const backoff: Timer

    constructor (backoff: Timer)
      ensures this.backoff == backoff
    {
      this.backoff := backoff;
    }

    method WaitToRetry(raw: nat, ghost interrupted: bool, ghost rest: seq<Round>) returns (wait: Entry)
      requires backoff.Valid() && 0 < backoff.min
      modifies backoff
      ensures backoff.Valid()
      ensures WaitLog(backoff.min, backoff.max, old(backoff.attempt), raw, interrupted, rest)
           == [wait] + if interrupted then [] else RunLog(backoff.min, backoff.max, backoff.attempt, rest)
    {
      var delay := backoff.Next(raw);
      return Waited(delay);
    }

    /** One turn of the loop: what it logs, and whether the loop is left. */
    method Turn(round: Round, ghost todo: seq<Round>) returns (entries: seq<Entry>, stop: bool)
      requires backoff.Valid() && 0 < backoff.min
      requires todo != [] && todo[0] == round
      modifies backoff
      ensures backoff.Valid()
      ensures RunLog(backoff.min, backoff.max, old(backoff.attempt), todo)
           == entries + if stop then [] else RunLog(backoff.min, backoff.max, backoff.attempt, todo[1..])
    {
      RunLogUnrolled(backoff.min, backoff.max, backoff.attempt, todo);
      if round.Session? {
        if round.cancelled {
          return [], true;
        }
        backoff.ResetIfStable(round.uptime);
      }
      assert backoff.attempt == AttemptBeforeWait(backoff.min, old(backoff.attempt), round);
      var wait := WaitToRetry(round.raw, round.interrupted, todo[1..]);
      ghost var after := if round.interrupted then [] else RunLog(backoff.min, backoff.max, backoff.attempt, todo[1..]);
      assert SessionLog(round) + ([wait] + after) == (SessionLog(round) + [wait]) + after;
      return SessionLog(round) + [wait], round.interrupted;
    }

    method Run(rounds: seq<Round>) returns (log: seq<Entry>)
      requires backoff.Valid() && 0 < backoff.min
      modifies backoff
      ensures backoff.Valid()
      ensures log == RunLog(backoff.min, backoff.max, old(backoff.attempt), rounds)
    {
      log := [];
      ghost var todo := rounds;
      ghost var ahead := RunLog(backoff.min, backoff.max, backoff.attempt, rounds);
      for i := 0 to |rounds|
        invariant backoff.Valid()
        invariant todo == rounds[i..]
        invariant ahead == RunLog(backoff.min, backoff.max, backoff.attempt, todo)
        invariant log + ahead == RunLog(backoff.min, backoff.max, old(backoff.attempt), rounds)
      {
        var entries, stop := Turn(rounds[i], todo);
        todo := todo[1..];
        ahead := ahead[|entries|..];
        log := log + entries;
        if stop {
          return log;
        }
      }
    }
  }

  /**
   A log in which every wait respects the backoff, `n` waits having been made
   since the last session of at least min when it starts.
   */
  ghost predicate Paced(min: Duration, max: Duration, log: seq<Entry>, n: nat)
    requires 0 < min
    decreases |log|
  {
    log == [] ||
    match log[0]
    case Waited(d) =>
      && min <= d && Base(min, max, n) <= d <= max
      && d <= Base(min, max, n + 1) && (d < max ==> d < Base(min, max, n + 1))
      && (d < max ==> n < Doublings(min, max))
      && Paced(min, max, log[1..], n + 1)
    case SessionEnded(uptime) => Paced(min, max, log[1..], if uptime >= min then 0 else n)
  }

  lemma WaitIsPaced(min: Duration, max: Duration, attempt: nat, n: nat, raw: nat, interrupted: bool, rest: seq<Round>)
    requires 0 < min <= max && StandsFor(min, max, attempt, n)
    requires interrupted || Paced(min, max, RunLog(min, max, AttemptAfter(min, max, attempt), rest), n + 1)
    ensures Paced(min, max, WaitLog(min, max, attempt, raw, interrupted, rest), n)
  {
    SaturatedDelay(min, max, attempt, n, raw);
    DelayBounds(min, max, n, raw);
    DelayBelowNextBase(min, max, n, raw);
    if Delay(min, max, n, raw) < max {
      ShortDelaysComeEarly(min, max, n, raw);
    }
    var log := WaitLog(min, max, attempt, raw, interrupted, rest);
    assert log[1..] == if interrupted then [] else RunLog(min, max, AttemptAfter(min, max, attempt), rest);
  }

  lemma {:induction false} RunIsPaced(min: Duration, max: Duration, attempt: nat, n: nat, rounds: seq<Round>)
    requires 0 < min <= max && StandsFor(min, max, attempt, n)
    ensures Paced(min, max, RunLog(min, max, attempt, rounds), n)
    decreases |rounds|
  {
    if rounds != [] {
      var round, rest := rounds[0], rounds[1..];
      var stable := round.Session? && round.uptime >= min;
      var attempt', n' := if stable then 0 else attempt, if stable then 0 else n;
      if !round.Session? || !round.cancelled {
        SaturatedDelay(min, max, attempt', n', 0);
        RunIsPaced(min, max, AttemptAfter(min, max, attempt'), n' + 1, rest);
        WaitIsPaced(min, max, attempt', n', round.raw, round.interrupted, rest);
        var log := RunLog(min, max, attempt, rounds);
        assert round.Session? ==>
          log[1..] == WaitLog(min, max, attempt', round.raw, round.interrupted, rest);
      }
    }
  }

  function ShortWaits(max: Duration, log: seq<Entry>): nat {
    if log == [] then 0
    else (if log[0].Waited? && log[0].delay < max then 1 else 0) + ShortWaits(max, log[1..])
  }

  ghost predicate NoStableSession(min: Duration, log: seq<Entry>) {
    forall i | 0 <= i < |log| :: log[i].SessionEnded? ==> log[i].uptime < min
  }

  lemma {:induction false} FewShortWaits(min: Duration, max: Duration, log: seq<Entry>, n: nat)
    requires 0 < min && Paced(min, max, log, n) && NoStableSession(min, log)
    ensures ShortWaits(max, log) <= if n <= Doublings(min, max) then Doublings(min, max) - n else 0
    decreases |log|
  {
    if log != [] {
      assert forall i | 0 <= i < |log[1..]| :: log[1..][i] == log[i + 1];
      FewShortWaits(min, max, log[1..], if log[0].Waited? then n + 1 else n);
    }
  }

  lemma {:induction false} PacedSlice(min: Duration, max: Duration, log: seq<Entry>, n: nat, i: nat, j: nat)
    returns (n': nat)
    requires 0 < min && Paced(min, max, log, n) && i <= j <= |log|
    ensures Paced(min, max, log[i..j], n')
    decreases |log|, j - i
  {
    if i == j {
      n' := 0;
    } else {
      var after := if log[0].Waited? then n + 1 else if log[0].uptime >= min then 0 else n;
      if i > 0 {
        n' := PacedSlice(min, max, log[1..], after, i - 1, j - 1);
        assert log[1..][i - 1..j - 1] == log[i..j];
      } else {
        n' := n;
        PacedPrefix(min, max, log, n, j);
        assert log[0..j] == log[..j];
      }
    }
  }

  lemma {:induction false} PacedPrefix(min: Duration, max: Duration, log: seq<Entry>, n: nat, j: nat)
    requires 0 < min && Paced(min, max, log, n) && j <= |log|
    ensures Paced(min, max, log[..j], n)
    decreases |log|
  {
    if j > 0 {
      var after := if log[0].Waited? then n + 1 else if log[0].uptime >= min then 0 else n;
      PacedPrefix(min, max, log[1..], after, j - 1);
      assert log[..j][1..] == log[1..][..j - 1];
    }
  }

  /**
   Reconnect rate: in any stretch of a run without a session that lasted at least
   min, at most ceil(log2(max/min)) waits are shorter than max, and none is
   shorter than min. Short sessions cannot hold the delay down.
   */
  lemma ReconnectRate(min: Duration, max: Duration, rounds: seq<Round>, log: seq<Entry>, i: nat, j: nat)
    requires 0 < min <= max && log == RunLog(min, max, 0, rounds)
    requires i <= j <= |log| && NoStableSession(min, log[i..j])
    ensures ShortWaits(max, log[i..j]) <= Doublings(min, max)
    ensures forall k | i <= k < j :: log[k].Waited? ==> min <= log[k].delay <= max
  {
    RunIsPaced(min, max, 0, 0, rounds);
    var n := PacedSlice(min, max, log, 0, i, j);
    FewShortWaits(min, max, log[i..j], n);
    PacedWaits(min, max, log, 0);
  }

  lemma {:induction false} PacedWaits(min: Duration, max: Duration, log: seq<Entry>, n: nat)
    requires 0 < min && Paced(min, max, log, n)
    ensures forall k | 0 <= k < |log| :: log[k].Waited? ==> min <= log[k].delay <= max
    decreases |log|
  {
    if log != [] {
      PacedWaits(min, max, log[1..], if log[0].Waited? then n + 1 else if log[0].uptime >= min then 0 else n);
      assert forall k | 1 <= k < |log| :: log[k] == log[1..][k - 1];
    }
  }

  lemma NoStableTail(min: Duration, log: seq<Entry>)
    requires log != [] && NoStableSession(min, log)
    ensures NoStableSession(min, log[1..])
  {
    assert forall i | 0 <= i < |log| - 1 :: log[1..][i] == log[i + 1];
  }

  /** A wait with no stable session before it is at least the base for its place. */
  lemma {:induction false} PacedWaitAt(min: Duration, max: Duration, log: seq<Entry>, n: nat, j: nat)
    requires 0 < min && Paced(min, max, log, n)
    requires j < |log| && log[j].Waited? && NoStableSession(min, log[..j])
    ensures Base(min, max, n) <= log[j].delay <= max
    decreases |log|
  {
    if j > 0 {
      NoStableTail(min, log[..j]);
      assert log[1..][..j - 1] == log[..j][1..];
      assert log[0] == log[..j][0];
      PacedWaitAt(min, max, log[1..], if log[0].Waited? then n + 1 else n, j - 1);
      BaseMonotone(min, max, n, n + 1);
    }
  }

  /**
   Over a whole run: between two waits with no stable session in between the
   delay grows, strictly until it reaches max, where it stays.
   */
  lemma WaitsGrowUntilStable(min: Duration, max: Duration, rounds: seq<Round>, i: nat, j: nat)
    requires 0 < min <= max
    requires var log := RunLog(min, max, 0, rounds);
      i < j < |log| && log[i].Waited? && log[j].Waited? && NoStableSession(min, log[i..j])
    ensures var log := RunLog(min, max, 0, rounds);
      && log[i].delay <= log[j].delay <= max
      && (log[i].delay < max ==> log[i].delay < log[j].delay)
  {
    var log := RunLog(min, max, 0, rounds);
    RunIsPaced(min, max, 0, 0, rounds);
    var n := PacedSlice(min, max, log, 0, i, |log|);
    var tail := log[i..|log|];
    assert tail[0] == log[i] && tail[1..][j - i - 1] == log[j];
    NoStableTail(min, log[i..j]);
    assert tail[1..][..j - i - 1] == log[i..j][1..];
    PacedWaitAt(min, max, tail[1..], n + 1, j - i - 1);
  }
}
