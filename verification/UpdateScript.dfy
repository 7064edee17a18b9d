/**
 One run of scripts/update-image.sh, command by command with its early exits, on
 a host whose state it changes in place. The run is proved to be the uninterrupted
 history of the Updater machine for the same command outcomes.
 */
module UpdateScript {
  import opened Wrappers
  import opened Updater

  /** What each command returns in this run, and whether it takes effect. */
  datatype Outcomes = Outcomes(
    shaFetched: bool, newSha: string, keyPresent: bool, tarFetched: bool, tar: Tar, signatureOk: bool,
    tagEffect: bool, importOk: bool, importEffect: bool, restartOk: bool, restartEffect: bool, active: bool,
    truncateOk: bool, writeOk: bool,
    tagBackOk: bool, tagBackEffect: bool, restartBackOk: bool, restartBackEffect: bool, activeBack: bool)

  function Fetching(o: Outcomes): seq<Step> {
    [Begin, DidFetchSha(o.shaFetched, o.newSha), DidCompare, DidCheckKey(o.keyPresent),
     DidFetchTar(o.tarFetched, o.tar), DidCheckSum, DidVerify(o.signatureOk)]
  }

  function Installing(o: Outcomes): seq<Step> {
    [DidTagRollback(o.tagEffect), DidImport(o.importOk, o.importEffect), DidRestart(o.restartOk, o.restartEffect),
     DidHealthCheck(o.active), DidTruncate(o.truncateOk), DidWrite(o.writeOk)]
  }

  function RollingBack(o: Outcomes): seq<Step> {
    [DidTagBack(o.tagBackOk, o.tagBackEffect), DidRestartBack(o.restartBackOk, o.restartBackEffect),
     DidHealthCheckBack(o.activeBack)]
  }

  function Play(m: Machine, steps: seq<Step>): Machine
    decreases |steps|
  {
    if steps == [] then m else Play(StepOrSkip(m, steps[0]), steps[1..])
  }

  lemma {:induction false} PlayIsRun(m: Machine, done: seq<Step>, steps: seq<Step>)
    ensures Play(Run(m, done), steps) == Run(m, done + steps)
    decreases |steps|
  {
    if steps == [] {
      assert done + steps == done;
    } else {
      RunSnoc(m, done, steps[0]);
      PlayIsRun(m, done + [steps[0]], steps[1..]);
      assert done + steps == (done + [steps[0]]) + steps[1..];
    }
  }

  function Three(m: Machine, a: Step, b: Step, c: Step): Machine {
    StepOrSkip(StepOrSkip(StepOrSkip(m, a), b), c)
  }

  lemma PlayThree(m: Machine, a: Step, b: Step, c: Step, rest: seq<Step>)
    ensures Play(m, [a, b, c] + rest) == Play(Three(m, a, b, c), rest)
  {
    var steps := [a, b, c] + rest;
    assert steps[1..][1..] == steps[2..] && steps[2..][1..] == rest;
    assert Play(m, steps) == Play(StepOrSkip(m, a), steps[1..]);
    assert Play(StepOrSkip(m, a), steps[1..]) == Play(StepOrSkip(StepOrSkip(m, a), b), steps[2..]);
  }

  lemma {:induction false} IdleStays(m: Machine, steps: seq<Step>)
    requires m.next.Idle? && forall i | 0 <= i < |steps| :: !steps[i].Begin?
    ensures Play(m, steps) == m
    decreases |steps|
  {
    if steps != [] {
      IdleStays(m, steps[1..]);
    }
  }

  predicate Downloaded(o: Outcomes) {
    o.keyPresent && o.tarFetched && o.tar.sha == o.newSha && o.signatureOk
  }

  predicate Installed(o: Outcomes) {
    o.importOk && o.restartOk && o.active && o.truncateOk && o.writeOk
  }

  /** The machine's part in fetching: it only gets past the checks if they all pass. */
  lemma FetchingEffect(host: Host, o: Outcomes)
    ensures Play(Start(host), Fetching(o)).host == host
    ensures var t := Play(Start(host), Fetching(o));
      t.next == (if o.shaFetched && CurrentSha(host) != o.newSha && Downloaded(o) then TagRollback(o.tar) else Idle)
  {
    var m3 := Three(Start(host), Begin, DidFetchSha(o.shaFetched, o.newSha), DidCompare);
    var m6 := Three(m3, DidCheckKey(o.keyPresent), DidFetchTar(o.tarFetched, o.tar), DidCheckSum);
    var last := [DidVerify(o.signatureOk)];
    PlayThree(Start(host), Begin, DidFetchSha(o.shaFetched, o.newSha), DidCompare, Fetching(o)[3..]);
    PlayThree(m3, DidCheckKey(o.keyPresent), DidFetchTar(o.tarFetched, o.tar), DidCheckSum, last);
    assert Fetching(o) == [Begin, DidFetchSha(o.shaFetched, o.newSha), DidCompare] + Fetching(o)[3..];
    assert Fetching(o)[3..] == [DidCheckKey(o.keyPresent), DidFetchTar(o.tarFetched, o.tar), DidCheckSum] + last;
    assert Play(m6, last) == StepOrSkip(m6, last[0]);
  }

  /** The host after the commands from the snapshot to the digest file. */
  function InstallHost(host: Host, o: Outcomes): Host {
    var tagged := if o.tagEffect && host.image.Some? then host.(rollback := host.image) else host;
    var imported := if o.importEffect then tagged.(image := Some(o.tar)) else tagged;
    if !o.importOk then imported
    else
      var restarted := if o.restartEffect then imported.(running := imported.image) else imported;
      if !o.restartOk || !o.active || !o.truncateOk then restarted
      else restarted.(current := Some(if o.writeOk then o.tar.sha else ""))
  }

  lemma FirstThreeInstall(m: Machine, o: Outcomes)
    requires m.next == TagRollback(o.tar)
    ensures var t := Three(m, DidTagRollback(o.tagEffect), DidImport(o.importOk, o.importEffect),
                           DidRestart(o.restartOk, o.restartEffect));
      && t.host == InstallHost(m.host, o.(active := false))
      && t.next == (if o.importOk && o.restartOk then HealthCheck(o.tar) else Idle)
  {
  }

  lemma LastThreeInstall(m: Machine, o: Outcomes)
    requires m.next == HealthCheck(o.tar) || m.next == Idle
    ensures var t := Three(m, DidHealthCheck(o.active), DidTruncate(o.truncateOk), DidWrite(o.writeOk));
      && t.next == (if m.next.HealthCheck? && !o.active then TagBack else Idle)
      && t.host == (if m.next.Idle? || !o.active || !o.truncateOk then m.host
                    else m.host.(current := Some(if o.writeOk then o.tar.sha else "")))
  {
  }

  lemma InstallingEffect(m: Machine, o: Outcomes)
    requires m.next == TagRollback(o.tar)
    ensures Play(m, Installing(o)).host == InstallHost(m.host, o)
    ensures Play(m, Installing(o)).next == if o.importOk && o.restartOk && !o.active then TagBack else Idle
  {
    var s := Installing(o);
    var m3 := Three(m, s[0], s[1], s[2]);
    FirstThreeInstall(m, o);
    LastThreeInstall(m3, o);
    PlayThree(m, s[0], s[1], s[2], s[3..]);
    PlayThree(m3, s[3], s[4], s[5], []);
    assert s == [s[0], s[1], s[2]] + s[3..] && s[3..] == [s[3], s[4], s[5]] + [];
  }

  /** The host after a rollback attempt. */
  function RollBackHost(host: Host, o: Outcomes): Host {
    var tagged := if o.tagBackEffect && host.rollback.Some? then host.(image := host.rollback) else host;
    if o.tagBackOk && o.restartBackEffect then tagged.(running := tagged.image) else tagged
  }

  lemma RollingBackEffect(m: Machine, o: Outcomes)
    requires m.next == TagBack
    ensures Play(m, RollingBack(o)).host == RollBackHost(m.host, o)
    ensures Play(m, RollingBack(o)).next == Idle
  {
    var s := RollingBack(o);
    PlayThree(m, s[0], s[1], s[2], []);
    assert s == [s[0], s[1], s[2]] + [];
  }

  class Updating {
    var image: Option<Tar>
    var rollback: Option<Tar>
    var current: Option<string>
    var running: Option<Tar>

    function View(): Host
      reads this
    {
      Host(image, rollback, current, running)
    }

    constructor (host: Host)
      ensures View() == host
    {
      image, rollback, current, running := host.image, host.rollback, host.current, host.running;
    }

    /** Tag, import, restart, check; `failed` is the health check's verdict. */
    method Install(o: Outcomes) returns (ok: bool, failed: bool)
      requires o.tar.sha == o.newSha
      modifies this
      ensures View() == InstallHost(old(View()), o)
      ensures failed <==> o.importOk && o.restartOk && !o.active
      ensures ok <==> Installed(o)
    {
      if o.tagEffect && image.Some? {
        rollback := image;
      }
      if o.importEffect {
        image := Some(o.tar);
      }
      if !o.importOk {
        return false, false;
      }
      if o.restartEffect {
        running := image;
      }
      if !o.restartOk {
        return false, false;
      }
      if !o.active {
        return false, true;
      }
      if !o.truncateOk {
        return false, false;
      }
      current := Some("");
      if !o.writeOk {
        return false, false;
      }
      current := Some(o.newSha);
      return true, false;
    }

    method RollBack(o: Outcomes)
      modifies this
      ensures View() == RollBackHost(old(View()), o)
    {
      if o.tagBackEffect && rollback.Some? {
        image := rollback;
      }
      if !o.tagBackOk {
        return;
      }
      if o.restartBackEffect {
        running := image;
      }
    }

    /** The whole script; exit status 0 is "up to date" or "updated". */
    method Update(o: Outcomes) returns (exit: int)
      modifies this
      ensures var t := Run(Start(old(View())), Fetching(o) + Installing(o) + RollingBack(o));
        View() == t.host && t.next.Idle?
      ensures !o.shaFetched || !o.keyPresent || !o.tarFetched || o.tar.sha != o.newSha || !o.signatureOk ==>
        View() == old(View())
      ensures exit == 0 && CurrentSha(old(View())) != o.newSha ==>
        && o.signatureOk && o.tar.sha == o.newSha && o.active
        && current == Some(o.newSha)
        && (o.importEffect ==> image == Some(o.tar))
        && (o.tagEffect && old(image).Some? ==> rollback == old(image))
      ensures o.shaFetched && old(current) == Some(o.newSha) ==> exit == 0 && View() == old(View())
      ensures exit == 0 && o.newSha != "none" ==> current == Some(o.newSha)
      ensures exit != 0 ==> current == old(current) || (o.active && current == Some(""))
      ensures exit == 0 <==> o.shaFetched && (CurrentSha(old(View())) == o.newSha || (Downloaded(o) && Installed(o)))
    {
      ghost var start := Start(View());
      ghost var fetched := Play(start, Fetching(o));
      ghost var installed := Play(fetched, Installing(o));
      FetchingEffect(View(), o);
      ScriptIsHistory(start, o);
      if !o.shaFetched {
        IdleStays(fetched, Installing(o));
        IdleStays(installed, RollingBack(o));
        return 1;
      }
      if CurrentSha(View()) == o.newSha {
        IdleStays(fetched, Installing(o));
        IdleStays(installed, RollingBack(o));
        return 0;
      }
      if !o.keyPresent || !o.tarFetched || o.tar.sha != o.newSha || !o.signatureOk {
        IdleStays(fetched, Installing(o));
        IdleStays(installed, RollingBack(o));
        return 1;
      }
      InstallingEffect(fetched, o);
      var ok, failed := Install(o);
      if failed {
        RollingBackEffect(installed, o);
        RollBack(o);
        return 1;
      }
      IdleStays(installed, RollingBack(o));
      return if ok then 0 else 1;
    }
  }

  lemma ScriptIsHistory(start: Machine, o: Outcomes)
    ensures Run(start, Fetching(o) + Installing(o) + RollingBack(o))
         == Play(Play(Play(start, Fetching(o)), Installing(o)), RollingBack(o))
  {
    PlayIsRun(start, [], Fetching(o));
    assert [] + Fetching(o) == Fetching(o);
    PlayIsRun(start, Fetching(o), Installing(o));
    PlayIsRun(start, Fetching(o) + Installing(o), RollingBack(o));
  }
}
