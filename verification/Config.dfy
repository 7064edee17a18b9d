/**
 Configuration layering and validation (config.go). JSON decoding and
 time.ParseDuration are outside: a decoded file is a record of optional values
 in which a duration text has either been parsed or found malformed.
 */
module Config {
  import opened Wrappers
  import opened Backoff
  import PathClean

  const SECOND := 1_000_000_000

  datatype Config = Config(
    backoffMin: Duration, backoffMax: Duration, keepAliveInterval: Duration,
    streamOpenTimeout: Duration, readHeaderTimeout: Duration, idleTimeout: Duration,
    tunnelPath: string,
    maxConcurrentStreams: int, maxRequestBytes: int, maxHeaderBytes: int,
    tunnelCN: string, allowedPathPrefixes: seq<string>,
    maxStreamDuration: Duration, maxStreamsPerCert: int)

  const ZERO := Config(0, 0, 0, 0, 0, 0, "", 0, 0, 0, "", [], 0, 0)

  function DefaultConfig(): Config {
    Config(SECOND, 30 * SECOND, 30 * SECOND, 120 * SECOND, 10 * SECOND, 120 * SECOND, "/_tunnel",
           256, 0x200_0000, 0x10_0000, "", [], 0, 0)
  }

  datatype DurationText = Parsed(d: Duration) | Malformed

  /** One optional value per JSON key; None is an absent key. */
  datatype Raw = Raw(
    backoffMin: Option<DurationText>, backoffMax: Option<DurationText>,
    keepAliveInterval: Option<DurationText>, streamOpenTimeout: Option<DurationText>,
    readHeaderTimeout: Option<DurationText>, idleTimeout: Option<DurationText>,
    tunnelPath: Option<string>,
    maxConcurrentStreams: Option<int>, maxRequestBytes: Option<int>, maxHeaderBytes: Option<int>,
    tunnelCN: Option<string>, allowedPathPrefixes: Option<seq<string>>,
    maxStreamDuration: Option<DurationText>, maxStreamsPerCert: Option<int>)

  // ----- What layering means -----

  function Chosen<T>(text: Option<T>, kept: T): T {
    match text
    case None => kept
    case Some(value) => value
  }

  function ChosenDuration(text: Option<DurationText>, kept: Duration): Duration {
    match text
    case Some(Parsed(d)) => d
    case _ => kept
  }

  /** `c` with exactly the present keys overridden. */
  function Layered(c: Config, raw: Raw): Config {
    Config(
      ChosenDuration(raw.backoffMin, c.backoffMin), ChosenDuration(raw.backoffMax, c.backoffMax),
      ChosenDuration(raw.keepAliveInterval, c.keepAliveInterval),
      ChosenDuration(raw.streamOpenTimeout, c.streamOpenTimeout),
      ChosenDuration(raw.readHeaderTimeout, c.readHeaderTimeout),
      ChosenDuration(raw.idleTimeout, c.idleTimeout),
      Chosen(raw.tunnelPath, c.tunnelPath),
      Chosen(raw.maxConcurrentStreams, c.maxConcurrentStreams),
      Chosen(raw.maxRequestBytes, c.maxRequestBytes), Chosen(raw.maxHeaderBytes, c.maxHeaderBytes),
      Chosen(raw.tunnelCN, c.tunnelCN), Chosen(raw.allowedPathPrefixes, c.allowedPathPrefixes),
      ChosenDuration(raw.maxStreamDuration, c.maxStreamDuration),
      Chosen(raw.maxStreamsPerCert, c.maxStreamsPerCert))
  }

  /** What a key says, or what was there. */
  ghost predicate Takes<T>(text: Option<T>, kept: T, result: T) {
    && (text.Some? ==> result == text.value)
    && (text == None ==> result == kept)
  }

  predicate TakesDuration(text: Option<DurationText>, kept: Duration, result: Duration) {
    && (text.Some? && text.value.Parsed? ==> result == text.value.d)
    && (text == None ==> result == kept)
  }

  /** Every key reaches the field of its own name. */
  lemma EveryKeyItsOwnField(c: Config, raw: Raw)
    ensures var r := Layered(c, raw);
      && TakesDuration(raw.backoffMin, c.backoffMin, r.backoffMin)
      && TakesDuration(raw.backoffMax, c.backoffMax, r.backoffMax)
      && TakesDuration(raw.keepAliveInterval, c.keepAliveInterval, r.keepAliveInterval)
      && TakesDuration(raw.streamOpenTimeout, c.streamOpenTimeout, r.streamOpenTimeout)
      && TakesDuration(raw.readHeaderTimeout, c.readHeaderTimeout, r.readHeaderTimeout)
      && TakesDuration(raw.idleTimeout, c.idleTimeout, r.idleTimeout)
      && Takes(raw.tunnelPath, c.tunnelPath, r.tunnelPath)
      && Takes(raw.maxConcurrentStreams, c.maxConcurrentStreams, r.maxConcurrentStreams)
      && Takes(raw.maxRequestBytes, c.maxRequestBytes, r.maxRequestBytes)
      && Takes(raw.maxHeaderBytes, c.maxHeaderBytes, r.maxHeaderBytes)
      && Takes(raw.tunnelCN, c.tunnelCN, r.tunnelCN)
      && Takes(raw.allowedPathPrefixes, c.allowedPathPrefixes, r.allowedPathPrefixes)
      && TakesDuration(raw.maxStreamDuration, c.maxStreamDuration, r.maxStreamDuration)
      && Takes(raw.maxStreamsPerCert, c.maxStreamsPerCert, r.maxStreamsPerCert)
  {
  }

  // ----- The duration rows -----

  /** A row of durationFields: which field a name, a text and a destination belong to. */
  datatype Row = BackoffMin | BackoffMax | KeepAlive | StreamOpen | ReadHeader | Idle

  const ROWS: seq<Row> := [BackoffMin, BackoffMax, KeepAlive, StreamOpen, ReadHeader, Idle]

  function TextOf(raw: Raw, row: Row): Option<DurationText> {
    match row
    case BackoffMin => raw.backoffMin
    case BackoffMax => raw.backoffMax
    case KeepAlive => raw.keepAliveInterval
    case StreamOpen => raw.streamOpenTimeout
    case ReadHeader => raw.readHeaderTimeout
    case Idle => raw.idleTimeout
  }

  function Get(c: Config, row: Row): Duration {
    match row
    case BackoffMin => c.backoffMin
    case BackoffMax => c.backoffMax
    case KeepAlive => c.keepAliveInterval
    case StreamOpen => c.streamOpenTimeout
    case ReadHeader => c.readHeaderTimeout
    case Idle => c.idleTimeout
  }

  function Set(c: Config, row: Row, d: Duration): Config {
    match row
    case BackoffMin => c.(backoffMin := d)
    case BackoffMax => c.(backoffMax := d)
    case KeepAlive => c.(keepAliveInterval := d)
    case StreamOpen => c.(streamOpenTimeout := d)
    case ReadHeader => c.(readHeaderTimeout := d)
    case Idle => c.(idleTimeout := d)
  }

  ghost predicate RowsParsed(raw: Raw, k: nat)
    requires k <= |ROWS|
  {
    forall i | 0 <= i < k :: TextOf(raw, ROWS[i]) != Some(Malformed)
  }

  /** `c` after the first k rows have been overlaid. */
  function Overlaid(c: Config, raw: Raw, k: nat): Config
    requires k <= |ROWS|
  {
    if k == 0 then c
    else
      var before, row := Overlaid(c, raw, k - 1), ROWS[k - 1];
      match TextOf(raw, row)
      case Some(Parsed(d)) => Set(before, row, d)
      case _ => before
  }

  ghost predicate AllParsed(raw: Raw) {
    && raw.backoffMin != Some(Malformed) && raw.backoffMax != Some(Malformed)
    && raw.keepAliveInterval != Some(Malformed) && raw.streamOpenTimeout != Some(Malformed)
    && raw.readHeaderTimeout != Some(Malformed) && raw.idleTimeout != Some(Malformed)
    && raw.maxStreamDuration != Some(Malformed)
  }

  /** The six duration fields as layering should leave them, everything else as it was. */
  function WithDurations(c: Config, raw: Raw): Config {
    var layered := Layered(c, raw);
    c.(backoffMin := layered.backoffMin, backoffMax := layered.backoffMax,
       keepAliveInterval := layered.keepAliveInterval, streamOpenTimeout := layered.streamOpenTimeout,
       readHeaderTimeout := layered.readHeaderTimeout, idleTimeout := layered.idleTimeout)
  }

  /** Row by row, every text went to its own field. */
  lemma AllRowsOverlaid(c: Config, raw: Raw)
    ensures Overlaid(c, raw, |ROWS|) == WithDurations(c, raw)
    ensures RowsParsed(raw, |ROWS|) ==> raw.maxStreamDuration == Some(Malformed) || AllParsed(raw)
    ensures AllParsed(raw) ==> RowsParsed(raw, |ROWS|)
  {
    assert ROWS[0] == BackoffMin && ROWS[1] == BackoffMax && ROWS[2] == KeepAlive;
    assert ROWS[3] == StreamOpen && ROWS[4] == ReadHeader && ROWS[5] == Idle;
    assert Overlaid(c, raw, 0) == c;
    var c1 := Overlaid(c, raw, 1);
    var c2 := Overlaid(c, raw, 2);
    var c3 := Overlaid(c, raw, 3);
    var c4 := Overlaid(c, raw, 4);
    var c5 := Overlaid(c, raw, 5);
    assert c1 == c.(backoffMin := ChosenDuration(raw.backoffMin, c.backoffMin));
    assert c2 == c1.(backoffMax := ChosenDuration(raw.backoffMax, c.backoffMax));
    assert c3 == c2.(keepAliveInterval := ChosenDuration(raw.keepAliveInterval, c.keepAliveInterval));
    assert c4 == c3.(streamOpenTimeout := ChosenDuration(raw.streamOpenTimeout, c.streamOpenTimeout));
    assert c5 == c4.(readHeaderTimeout := ChosenDuration(raw.readHeaderTimeout, c.readHeaderTimeout));
    assert RowsParsed(raw, 6) ==>
      && TextOf(raw, ROWS[0]) != Some(Malformed) && TextOf(raw, ROWS[1]) != Some(Malformed)
      && TextOf(raw, ROWS[2]) != Some(Malformed) && TextOf(raw, ROWS[3]) != Some(Malformed)
      && TextOf(raw, ROWS[4]) != Some(Malformed) && TextOf(raw, ROWS[5]) != Some(Malformed);
  }

  datatype ParseError = BadRow(row: Row) | BadMaxStreamDuration

  /** The struct behind the pointer receiver of UnmarshalJSON. */
  class Target {
    var c: Config

    constructor (c: Config)
      ensures this.c == c
    {
      this.c := c;
    }

    /** The loop over the rows: overlaid in order, up to the first malformed one. */
    method OverlayDurations(raw: Raw) returns (err: Option<ParseError>)
      modifies this
      ensures err.None? ==> RowsParsed(raw, |ROWS|) && c == Overlaid(old(c), raw, |ROWS|)
      ensures err.Some? ==> exists k | 0 <= k < |ROWS| ::
        && err.value == BadRow(ROWS[k]) && TextOf(raw, ROWS[k]) == Some(Malformed)
        && RowsParsed(raw, k) && c == Overlaid(old(c), raw, k)
    {
      for i := 0 to |ROWS|
        invariant RowsParsed(raw, i) && c == Overlaid(old(c), raw, i)
      {
        var row := ROWS[i];
        match TextOf(raw, row) {
          case None =>
          case Some(Malformed) =>
            return Some(BadRow(row));
          case Some(Parsed(d)) =>
            c := Set(c, row, d);
        }
      }
      return None;
    }

    method UnmarshalJSON(raw: Raw) returns (err: Option<ParseError>)
      modifies this
      ensures err.None? <==> AllParsed(raw)
      ensures err.None? ==> c == Layered(old(c), raw)
      ensures err.Some? && err.value.BadRow? ==> exists k | 0 <= k < |ROWS| ::
        && err.value.row == ROWS[k] && TextOf(raw, ROWS[k]) == Some(Malformed)
        && RowsParsed(raw, k) && c == Overlaid(old(c), raw, k)
      ensures err == Some(BadMaxStreamDuration) ==>
        && RowsParsed(raw, |ROWS|) && raw.maxStreamDuration == Some(Malformed)
        && c == Layered(old(c), raw.(maxStreamDuration := None, maxStreamsPerCert := None))
    {
      AllRowsOverlaid(c, raw);
      err := OverlayDurations(raw);
      if err.Some? {
        return err;
      }
      assert c == WithDurations(old(c), raw);
      if raw.tunnelPath.Some? {
        c := c.(tunnelPath := raw.tunnelPath.value);
      }
      if raw.maxConcurrentStreams.Some? {
        c := c.(maxConcurrentStreams := raw.maxConcurrentStreams.value);
      }
      if raw.maxRequestBytes.Some? {
        c := c.(maxRequestBytes := raw.maxRequestBytes.value);
      }
      if raw.maxHeaderBytes.Some? {
        c := c.(maxHeaderBytes := raw.maxHeaderBytes.value);
      }
      if raw.tunnelCN.Some? {
        c := c.(tunnelCN := raw.tunnelCN.value);
      }
      if raw.allowedPathPrefixes.Some? {
        c := c.(allowedPathPrefixes := raw.allowedPathPrefixes.value);
      }
      match raw.maxStreamDuration {
        case None =>
        case Some(Malformed) =>
          return Some(BadMaxStreamDuration);
        case Some(Parsed(d)) =>
          c := c.(maxStreamDuration := d);
      }
      if raw.maxStreamsPerCert.Some? {
        c := c.(maxStreamsPerCert := raw.maxStreamsPerCert.value);
      }
      return None;
    }
  }

  // ----- Validation -----

  ghost predicate Valid(c: Config) {
    && 0 < c.backoffMin <= c.backoffMax
    && 0 < c.keepAliveInterval && 0 < c.streamOpenTimeout
    && 0 < c.readHeaderTimeout && 0 < c.idleTimeout
    && PathClean.IsRooted(c.tunnelPath)
    && 0 < c.maxConcurrentStreams && 0 < c.maxRequestBytes && 0 < c.maxHeaderBytes
    && 0 <= c.maxStreamDuration && 0 <= c.maxStreamsPerCert
    && forall prefix | prefix in c.allowedPathPrefixes :: PathClean.IsRooted(prefix)
  }

  datatype Problem =
    | NotPositive(row: Row)
    | BackoffInverted
    | TunnelPathUnrooted
    | LimitNotPositive(which: nat)
    | NegativeStreamDuration
    | NegativeStreamsPerCert
    | PrefixUnrooted(prefix: string)

  function Limits(c: Config): seq<int> {
    [c.maxConcurrentStreams, c.maxRequestBytes, c.maxHeaderBytes]
  }

  /** What each complaint asserts about the configuration. */
  predicate Justified(c: Config, problem: Problem) {
    match problem
    case NotPositive(row) => Get(c, row) <= 0
    case BackoffInverted => c.backoffMin > c.backoffMax
    case TunnelPathUnrooted => !PathClean.IsRooted(c.tunnelPath)
    case LimitNotPositive(which) => which < 3 && Limits(c)[which] <= 0
    case NegativeStreamDuration => c.maxStreamDuration < 0
    case NegativeStreamsPerCert => c.maxStreamsPerCert < 0
    case PrefixUnrooted(prefix) => prefix in c.allowedPathPrefixes && !PathClean.IsRooted(prefix)
  }

  /** The complaints in the order in which they are looked for, the entries' own apart. */
  const CHECKS: seq<Problem> :=
    [NotPositive(BackoffMin), NotPositive(BackoffMax), NotPositive(KeepAlive),
     NotPositive(StreamOpen), NotPositive(ReadHeader), NotPositive(Idle),
     BackoffInverted, TunnelPathUnrooted, LimitNotPositive(0), LimitNotPositive(1), LimitNotPositive(2),
     NegativeStreamDuration, NegativeStreamsPerCert]

  /** All complaints there could be about `c`, in order. */
  function Complaints(c: Config): seq<Problem> {
    var entries := c.allowedPathPrefixes;
    CHECKS + seq(|entries|, i requires 0 <= i < |entries| => PrefixUnrooted(entries[i]))
  }

  /** None of the first k complaints is justified. */
  ghost predicate Passes(c: Config, k: nat)
    requires k <= |Complaints(c)|
  {
    forall j | 0 <= j < k :: !Justified(c, Complaints(c)[j])
  }

  /** The first justified complaint is number k. */
  ghost predicate First(c: Config, k: nat, problem: Problem) {
    && k < |Complaints(c)| && Complaints(c)[k] == problem
    && Justified(c, problem) && Passes(c, k)
  }

  /** No complaint of the fixed list means the fixed fields are in order. */
  lemma FixedChecks(c: Config)
    requires forall k | 0 <= k < |CHECKS| :: !Justified(c, CHECKS[k])
    ensures Valid(c.(allowedPathPrefixes := []))
  {
    assert !Justified(c, CHECKS[0]) && !Justified(c, CHECKS[1]) && !Justified(c, CHECKS[2]) && !Justified(c, CHECKS[3]);
    assert !Justified(c, CHECKS[4]) && !Justified(c, CHECKS[5]) && !Justified(c, CHECKS[6]) && !Justified(c, CHECKS[7]);
    assert !Justified(c, CHECKS[8]) && !Justified(c, CHECKS[9]) && !Justified(c, CHECKS[10]);
    assert !Justified(c, CHECKS[11]) && !Justified(c, CHECKS[12]);
  }

  lemma ValidIsUnjustified(c: Config, problem: Problem)
    requires Valid(c)
    ensures !Justified(c, problem)
  {
  }

  /** Nothing to complain about is what validity means. */
  lemma PassesIsValid(c: Config)
    ensures Passes(c, |Complaints(c)|) <==> Valid(c)
  {
    var all := Complaints(c);
    if Passes(c, |all|) {
      forall k | 0 <= k < |CHECKS|
        ensures !Justified(c, CHECKS[k])
      {
        assert all[k] == CHECKS[k];
      }
      FixedChecks(c);
      forall i | 0 <= i < |c.allowedPathPrefixes|
        ensures PathClean.IsRooted(c.allowedPathPrefixes[i])
      {
        assert all[|CHECKS| + i] == PrefixUnrooted(c.allowedPathPrefixes[i]);
      }
    }
    if Valid(c) {
      forall k | 0 <= k < |all|
        ensures !Justified(c, all[k])
      {
        ValidIsUnjustified(c, all[k]);
      }
    }
  }

  /** The six duration rows are the first six complaints, and so on down the list. */
  lemma RowComplaint(c: Config, k: nat)
    requires k < |ROWS|
    ensures Complaints(c)[k] == NotPositive(ROWS[k])
  {
    assert Complaints(c)[k] == CHECKS[k];
  }

  method Validate(c: Config) returns (problem: Option<Problem>)
    ensures problem.None? <==> Valid(c)
    ensures problem.Some? ==> exists k :: First(c, k, problem.value)
  {
    PassesIsValid(c);
    for i := 0 to |ROWS|
      invariant Passes(c, i)
    {
      RowComplaint(c, i);
      if Get(c, ROWS[i]) <= 0 {
        assert First(c, i, NotPositive(ROWS[i]));
        return Some(NotPositive(ROWS[i]));
      }
    }
    if c.backoffMin > c.backoffMax {
      assert First(c, 6, BackoffInverted);
      return Some(BackoffInverted);
    }
    if !PathClean.IsRooted(c.tunnelPath) {
      assert First(c, 7, TunnelPathUnrooted);
      return Some(TunnelPathUnrooted);
    }
    for i := 0 to 3
      invariant Passes(c, 8 + i)
    {
      assert Complaints(c)[8 + i] == LimitNotPositive(i);
      if Limits(c)[i] <= 0 {
        assert First(c, 8 + i, LimitNotPositive(i));
        return Some(LimitNotPositive(i));
      }
    }
    if c.maxStreamDuration < 0 {
      assert First(c, 11, NegativeStreamDuration);
      return Some(NegativeStreamDuration);
    }
    if c.maxStreamsPerCert < 0 {
      assert First(c, 12, NegativeStreamsPerCert);
      return Some(NegativeStreamsPerCert);
    }
    for i := 0 to |c.allowedPathPrefixes|
      invariant Passes(c, |CHECKS| + i)
    {
      var complaint := PrefixUnrooted(c.allowedPathPrefixes[i]);
      assert Complaints(c)[|CHECKS| + i] == complaint;
      if !PathClean.IsRooted(c.allowedPathPrefixes[i]) {
        assert First(c, |CHECKS| + i, complaint);
        return Some(complaint);
      }
    }
    return None;
  }

  // ----- Loading -----

  /** What reading the named file gives. */
  datatype File = Unreadable | BadJSON | Decoded(raw: Raw)

  datatype LoadError = ReadFailed | ParseFailed | Invalid(problem: Problem)

  /** The configuration a process with this file runs with, if there is one. */
  ghost function Loaded(path: string, file: File): Option<Config> {
    if path == "" then Some(DefaultConfig())
    else if file.Decoded? && AllParsed(file.raw) && Valid(Layered(DefaultConfig(), file.raw))
    then Some(Layered(DefaultConfig(), file.raw))
    else None
  }

  method LoadConfig(path: string, file: File) returns (cfg: Config, err: Option<LoadError>)
    ensures err.None? <==> Loaded(path, file).Some?
    ensures err.None? ==> cfg == Loaded(path, file).value && Valid(cfg)
    ensures err.None? ==>
      && 0 < cfg.backoffMin <= cfg.backoffMax
      && 0 < cfg.keepAliveInterval && 0 < cfg.streamOpenTimeout && 0 < cfg.readHeaderTimeout && 0 < cfg.idleTimeout
      && 0 < cfg.maxConcurrentStreams && 0 < cfg.maxRequestBytes && 0 < cfg.maxHeaderBytes
      && 0 <= cfg.maxStreamDuration && 0 <= cfg.maxStreamsPerCert
      && cfg.tunnelPath != "" && cfg.tunnelPath[0] == '/'
      && forall prefix | prefix in cfg.allowedPathPrefixes :: prefix != "" && prefix[0] == '/'
    ensures err.Some? ==> cfg == ZERO
    ensures err == Some(ReadFailed) <==> path != "" && file.Unreadable?
    ensures err == Some(ParseFailed) <==> path != "" && (file.BadJSON? || (file.Decoded? && !AllParsed(file.raw)))
    ensures err.Some? && err.value.Invalid? ==>
      && file.Decoded? && AllParsed(file.raw)
      && exists k :: First(Layered(DefaultConfig(), file.raw), k, err.value.problem)
  {
    var target := new Target(DefaultConfig());
    if path == "" {
      return target.c, None;
    }
    match file {
      case Unreadable =>
        return ZERO, Some(ReadFailed);
      case BadJSON =>
        return ZERO, Some(ParseFailed);
      case Decoded(raw) =>
        var parseErr := target.UnmarshalJSON(raw);
        if parseErr.Some? {
          return ZERO, Some(ParseFailed);
        }
        var problem := Validate(target.c);
        if problem.Some? {
          return ZERO, Some(Invalid(problem.value));
        }
        return target.c, None;
    }
  }
}
