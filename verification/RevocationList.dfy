/**
 The reloading denylist cache of tlsconf.go. `List.IsRevoked` is the method:
 stat first, load only if the stamp moved, keep the last good set on any error.
 The state machine below lets the file be edited at any moment, also between a
 call's stat and its load, and proves that the cache agrees with the file.
 */
module RevocationList {
  import opened Wrappers
  import opened RevokedFile

  /** Modification time and size together; None is Go's zero value, which no file has. */
  type Stamp = int

  /** A check reads the file again exactly if its stamp moved, and keeps what it read if it loads. */
  predicate Reloads(held: Option<Stamp>, stat: Option<Stamp>, contents: Contents) {
    stat.Some? && stat != held && Denylist(contents).Some?
  }

  /** The set a list holds, and the stamp it holds it under. */
  datatype Cache = Cache(serials: set<string>, stamp: Option<Stamp>)

  /** The cache a check leaves behind; the check answers from it. */
  function Refreshed(cache: Cache, stat: Option<Stamp>, contents: Contents): Cache {
    if Reloads(cache.stamp, stat, contents) then Cache(Denylist(contents).value, stat) else cache
  }

  /** A configured path: an empty one never makes a list. */
  type Path = p: string | p != "" witness "revoked.txt"

  class List {
    const path: Path
    var serials: set<string>
    var stamp: Option<Stamp>

    function View(): Cache
      reads this
    {
      Cache(serials, stamp)
    }

    constructor (path: Path, serials: set<string>, stat: Option<Stamp>)
      ensures this.path == path && this.serials == serials && this.stamp == stat
    {
      this.path := path;
      this.serials := serials;
      this.stamp := stat;
    }

    /** `stat` is what os.Stat gives, `contents` what a load would read after it. */
    method IsRevoked(serial: string, stat: Option<Stamp>, contents: Contents) returns (bad: bool)
      modifies this
      ensures View() == Refreshed(old(View()), stat, contents)
      ensures if stat.Some? && stat != old(stamp) && Denylist(contents).Some?
              then serials == Denylist(contents).value && stamp == stat
              else serials == old(serials) && stamp == old(stamp)
      ensures bad <==> serial in serials
    {
      if stat.Some? && stat != stamp {
        var loaded := LoadRevokedSerials(path, contents);
        if loaded.Ok? {
          serials := loaded.value;
          stamp := stat;
        }
      }
      return serial in serials;
    }
  }

  /** Loads first and stats second; see `Constructed` below for what that can cost. */
  method NewRevocationList(path: string, contents: Contents, stat: Option<Stamp>)
    returns (list: List?, err: Option<LoadError>)
    ensures list == null <==> path == "" || Denylist(contents).None?
    ensures err.Some? <==> path != "" && Denylist(contents).None?
    ensures list != null ==> fresh(list) && list.path == path
    ensures list != null ==> Denylist(contents) == Some(list.serials) && list.stamp == stat
  {
    if path == "" {
      return null, None;
    }
    var loaded := LoadRevokedSerials(path, contents);
    if loaded.Err? {
      return null, Some(loaded.error);
    }
    list := new List(path, loaded.value, stat);
    return list, None;
  }

  // ----- The file and the calls, interleaved -----

  /** One version of the file; a missing file has no stamp and cannot be read. */
  datatype Version = Version(stamp: Option<Stamp>, contents: Contents)

  /** IsRevoked holds the mutex throughout, so at most one call is under way. */
  datatype Call =
    | Idle
    | Statted(serial: string, stat: Option<Stamp>, at: nat)
    | Answered(serial: string, stat: Option<Stamp>, at: nat, loaded: bool, bad: bool, now: nat)

  /**
   `history` is every version so far, the last one being on disk. `held` is the
   index of the version the held set was read from, kept to state the theorems.
   */
  datatype State = State(
    history: seq<Version>, serials: set<string>, stamp: Option<Stamp>, held: nat, call: Call)

  datatype Step =
    | Edit(version: Version)
    | Stat(serial: string, ok: bool)
    | Answer(readOk: bool)

  function Current(s: State): Version
    requires s.history != []
  {
    s.history[|s.history| - 1]
  }

  /** What a load at this moment reads; reading may fail for its own reasons. */
  function Seen(s: State, readOk: bool): Contents
    requires s.history != []
  {
    if readOk then Current(s).contents else Unreadable
  }

  predicate AttemptsLoad(s: State) {
    s.call.Statted? && s.call.stat.Some? && s.call.stat != s.stamp
  }

  predicate FreshStamp(history: seq<Version>, stamp: Option<Stamp>) {
    stamp.Some? ==> forall i | 0 <= i < |history| :: history[i].stamp != stamp
  }

  predicate Enabled(s: State, step: Step) {
    && s.history != []
    && match step
       case Edit(version) =>
         && FreshStamp(s.history, version.stamp)
         && (version.stamp.None? ==> version.contents.Unreadable?)
       case Stat(_, _) => !s.call.Statted?
       case Answer(_) => s.call.Statted?
  }

  function Apply(s: State, step: Step): State
    requires Enabled(s, step)
  {
    match step
    case Edit(version) => s.(history := s.history + [version])
    case Stat(serial, ok) =>
      s.(call := Statted(serial, if ok then Current(s).stamp else None, |s.history| - 1))
    case Answer(readOk) =>
      var Statted(serial, stat, at) := s.call;
      var now := |s.history| - 1;
      if Reloads(s.stamp, stat, Seen(s, readOk)) then
        var serials := Denylist(Seen(s, readOk)).value;
        State(s.history, serials, stat, now, Answered(serial, stat, at, true, serial in serials, now))
      else
        s.(call := Answered(serial, stat, at, false, serial in s.serials, now))
  }

  /** What the machine's cache holds, as a list would. */
  function CacheOf(s: State): Cache {
    Cache(s.serials, s.stamp)
  }

  /**
   The method is the machine's call: stat in one state, load and answer in a
   later one, with nothing but edits in between, which leave the cache alone.
   `List.IsRevoked` promises of its fields what is said here of the machine's.
   */
  lemma CallIsTheMethod(s: State, serial: string, ok: bool, edited: seq<Version>, readOk: bool)
    requires Enabled(s, Stat(serial, ok)) && s.history <= edited
    ensures var u := Apply(s, Stat(serial, ok)).(history := edited);
      && CacheOf(u) == CacheOf(s) && Enabled(u, Answer(readOk))
      && var stat := if ok then Current(s).stamp else None;
         var contents := if readOk then Current(u).contents else Unreadable;
         var t := Apply(u, Answer(readOk));
         && CacheOf(t) == Refreshed(CacheOf(s), stat, contents)
         && t.history == edited
         && (t.call.bad <==> serial in Refreshed(CacheOf(s), stat, contents).serials)
  {
  }

  function Run(s: State, schedule: seq<Step>): State
    decreases |schedule|
  {
    if schedule == [] then s
    else
      var t := Run(s, schedule[..|schedule| - 1]);
      var step := schedule[|schedule| - 1];
      if Enabled(t, step) then Apply(t, step) else t
  }

  /** NewRevocationList, loading version i and then statting version j. */
  function Constructed(history: seq<Version>, i: nat, j: nat, statOk: bool): State
    requires i <= j < |history|
    requires Denylist(history[i].contents).Some?
  {
    State(history, Denylist(history[i].contents).value, if statOk then history[j].stamp else None, i, Idle)
  }

  ghost predicate StampsIdentify(history: seq<Version>) {
    forall i, j | 0 <= i < j < |history| :: history[j].stamp.Some? ==> history[i].stamp != history[j].stamp
  }

  /** The held set is that of `held`, and never older than the version the stamp names. */
  ghost predicate HeldIsFresh(s: State) {
    && s.held < |s.history|
    && Denylist(s.history[s.held].contents) == Some(s.serials)
    && (s.stamp.Some? ==> exists v | 0 <= v <= s.held :: s.history[v].stamp == s.stamp)
  }

  ghost predicate CallIsFresh(s: State) {
    match s.call
    case Idle => true
    case Statted(_, stat, at) =>
      && s.held <= at < |s.history|
      && (stat.Some? ==> stat == s.history[at].stamp)
    case Answered(serial, stat, at, loaded, bad, now) =>
      && at <= now < |s.history|
      && s.held <= now
      && (stat.Some? ==> stat == s.history[at].stamp)
      && (bad <==> serial in s.serials)
      && (loaded ==> s.held == now && s.stamp == stat)
      && (stat.Some? && stat == s.stamp ==> at <= s.held)
  }

  ghost predicate Inv(s: State) {
    s.history != [] && StampsIdentify(s.history) && HeldIsFresh(s) && CallIsFresh(s)
  }

  lemma StepKeepsInv(s: State, step: Step)
    requires Inv(s) && Enabled(s, step)
    ensures Inv(Apply(s, step))
    ensures Apply(s, step).held >= s.held && s.history <= Apply(s, step).history
  {
    var t := Apply(s, step);
    if s.stamp.Some? {
      var v :| 0 <= v <= s.held && s.history[v].stamp == s.stamp;
      assert t.history[v].stamp == s.stamp;
      if step.Answer? && s.call.stat == s.stamp {
        assert s.history[s.call.at].stamp == s.stamp;
        assert v == s.call.at;
      }
    }
    if step.Answer? && s.call.stat.Some? {
      assert t.history[s.call.at].stamp == s.call.stat;
    }
  }

  lemma {:induction false} RunKeepsInv(s: State, schedule: seq<Step>)
    requires Inv(s)
    ensures Inv(Run(s, schedule))
    ensures Run(s, schedule).held >= s.held && s.history <= Run(s, schedule).history
    decreases |schedule|
  {
    if schedule != [] {
      var before, step := schedule[..|schedule| - 1], schedule[|schedule| - 1];
      RunKeepsInv(s, before);
      if Enabled(Run(s, before), step) {
        StepKeepsInv(Run(s, before), step);
      }
    }
  }

  /**
   A call whose stat succeeded and which either needed no load or loaded
   successfully answers from a version that was on disk at some moment of the call.
   */
  lemma AnswersFromTheFile(start: State, schedule: seq<Step>, readOk: bool) returns (v: nat)
    requires Inv(start)
    requires Enabled(Run(start, schedule), Answer(readOk))
    requires Run(start, schedule).call.stat.Some?
    requires var s := Run(start, schedule);
             AttemptsLoad(s) ==> Denylist(Seen(s, readOk)).Some?
    ensures var s := Run(start, schedule);
            var t := Apply(s, Answer(readOk));
            && s.call.at <= v < |s.history|
            && Denylist(s.history[v].contents).Some?
            && (t.call.bad <==> s.call.serial in Denylist(s.history[v].contents).value)
            && Refreshed(CacheOf(s), s.call.stat, Seen(s, readOk)) == CacheOf(t)
  {
    RunKeepsInv(start, schedule);
    var s := Run(start, schedule);
    StepKeepsInv(s, Answer(readOk));
    if AttemptsLoad(s) {
      v := |s.history| - 1;
    } else {
      v := s.held;
      var w :| 0 <= w <= s.held && s.history[w].stamp == s.stamp;
      assert w == s.call.at;
    }
  }

  /**
   Any other call (its stat failed, or the load did) answers from the last version
   that loaded and keeps the old stamp. Whatever edits come next, the next
   successful stat attempts the load exactly if the stamp on disk is another one,
   which after a failed load it is bound to be.
   */
  lemma FailedReloadIsRetried(start: State, schedule: seq<Step>, readOk: bool, edits: seq<Version>, serial: string)
    requires Inv(start)
    requires Enabled(Run(start, schedule), Answer(readOk))
    requires var s := Run(start, schedule);
             s.call.stat.None? || (AttemptsLoad(s) && Denylist(Seen(s, readOk)).None?)
    ensures var s := Run(start, schedule);
            var t := Apply(s, Answer(readOk));
            && t.serials == s.serials && t.stamp == s.stamp && t.held == s.held
            && s.held < |s.history| && Denylist(s.history[s.held].contents) == Some(s.serials)
            && (t.call.bad <==> s.call.serial in s.serials)
    ensures var s := Run(start, schedule);
            var t := Run(Apply(s, Answer(readOk)), EditSteps(edits));
            && Enabled(t, Stat(serial, true))
            && (Current(t).stamp.Some? ==>
                  && (AttemptsLoad(Apply(t, Stat(serial, true))) <==> Current(t).stamp != s.stamp)
                  && (s.call.stat.Some? ==> AttemptsLoad(Apply(t, Stat(serial, true)))))
  {
    RunKeepsInv(start, schedule);
    var s := Run(start, schedule);
    var t := Apply(s, Answer(readOk));
    StepKeepsInv(s, Answer(readOk));
    RunKeepsInv(t, EditSteps(edits));
    EditsOnlyEdit(t, edits);
    if s.stamp.Some? && s.call.stat.Some? {
      StampStaysBehind(s, Run(t, EditSteps(edits)));
    }
  }

  /** A stamp that differs from the statted version's stays different from every later one. */
  lemma StampStaysBehind(s: State, u: State)
    requires Inv(s) && Inv(u) && s.history <= u.history
    requires s.call.Statted? && s.call.stat.Some? && s.stamp.Some? && s.call.stat != s.stamp
    ensures Current(u).stamp != s.stamp
  {
    var v :| 0 <= v <= s.held && s.history[v].stamp == s.stamp;
    assert v < s.call.at;
    assert u.history[v].stamp == s.stamp;
  }

  function EditSteps(edits: seq<Version>): seq<Step> {
    seq(|edits|, i requires 0 <= i < |edits| => Edit(edits[i]))
  }

  lemma {:induction false} EditsOnlyEdit(s: State, edits: seq<Version>)
    requires Inv(s)
    ensures var t := Run(s, EditSteps(edits));
            t == s.(history := t.history) && s.history <= t.history
    decreases |edits|
  {
    if edits != [] {
      var before := edits[..|edits| - 1];
      EditsOnlyEdit(s, before);
      assert EditSteps(edits)[..|edits| - 1] == EditSteps(before);
    }
  }

  // ----- Construction -----

  /**
   Construction loads before it stats. What it leaves behind is sound exactly
   when the stat failed or no edit (to an existing file) fell between the two.
   */
  lemma ConstructionIsSoundUnlessItOverlapsAnEdit(history: seq<Version>, i: nat, j: nat, statOk: bool)
    requires StampsIdentify(history) && i <= j < |history|
    requires Denylist(history[i].contents).Some?
    ensures Inv(Constructed(history, i, j, statOk)) <==> !statOk || history[j].stamp.None? || i == j
  {
    var s := Constructed(history, i, j, statOk);
    if i == j && s.stamp.Some? {
      assert s.history[i].stamp == s.stamp;
    }
    if Inv(s) && s.stamp.Some? {
      var v :| 0 <= v <= s.held && s.history[v].stamp == s.stamp;
      assert v == j;
    }
  }

  ghost predicate NoEdit(schedule: seq<Step>) {
    forall i | 0 <= i < |schedule| :: !schedule[i].Edit?
  }

  /** The set of version i is held under the stamp of the version on disk. */
  ghost predicate StuckAt(s: State, history: seq<Version>, i: nat)
    requires i < |history| && Denylist(history[i].contents).Some?
  {
    && s.history == history && s.stamp == Current(s).stamp
    && s.serials == Denylist(history[i].contents).value
    && (s.call.Statted? ==> s.call.stat.None? || s.call.stat == s.stamp)
    && (s.call.Answered? ==> (s.call.bad <==> s.call.serial in s.serials))
  }

  lemma StuckStep(s: State, history: seq<Version>, i: nat, step: Step)
    requires i < |history| && Denylist(history[i].contents).Some?
    requires StuckAt(s, history, i) && Enabled(s, step) && !step.Edit?
    ensures StuckAt(Apply(s, step), history, i)
  {
  }

  /** After an overlapped construction the stale set is served until the next edit. */
  lemma {:induction false} OverlappedConstructionStaysStale(history: seq<Version>, i: nat, schedule: seq<Step>)
    requires StampsIdentify(history) && i < |history| - 1
    requires Denylist(history[i].contents).Some?
    requires history[|history| - 1].stamp.Some?
    requires NoEdit(schedule)
    ensures StuckAt(Run(Constructed(history, i, |history| - 1, true), schedule), history, i)
    decreases |schedule|
  {
    if schedule != [] {
      var before, step := schedule[..|schedule| - 1], schedule[|schedule| - 1];
      OverlappedConstructionStaysStale(history, i, before);
      var s := Run(Constructed(history, i, |history| - 1, true), before);
      if Enabled(s, step) {
        StuckStep(s, history, i, step);
      }
    }
  }
}
