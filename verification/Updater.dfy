/**
 The image updater (scripts/update-image.sh) as a state machine over its
 commands. curl, openssl, ctr and systemctl are oracles: a step carries what the
 command returned and whether it took effect. A run can be killed before any
 command, and any number of runs follow each other.
 */
module Updater {
  import opened Wrappers

  /** A release tar, with the digest sha256sum gives for it. */
  datatype Tar = Tar(id: nat, sha: string)

  /**
   What outlives a run: the two image references, the text of current.sha256 (None
   if missing), and the image the service was last started from.
   */
  datatype Host = Host(image: Option<Tar>, rollback: Option<Tar>, current: Option<string>, running: Option<Tar>)

  /** The next command of the run under way. */
  datatype Command =
    | Idle
    | FetchSha
    | Compare(newSha: string)
    | CheckKey(newSha: string)
    | FetchTar(newSha: string)
    | CheckSum(newSha: string, tar: Tar)
    | VerifySignature(tar: Tar)
    | TagRollback(tar: Tar)
    | Import(tar: Tar)
    | Restart(tar: Tar)
    | HealthCheck(tar: Tar)
    | TruncateCurrent(tar: Tar)
    | WriteCurrent(tar: Tar)
    | TagBack
    | RestartBack
    | HealthCheckBack

  /**
   `checked` are the tars that passed checksum and signature, `healthy` those in
   whose run the service was then found active, `seenRunning` those among them
   that the service was really started from. `atStart` is the host as the run began,
   and `tagged` whether the run really took its snapshot.
   */
  datatype Machine = Machine(
    host: Host, next: Command, atStart: Host, tagged: bool,
    checked: set<Tar>, healthy: set<Tar>, seenRunning: set<Tar>)

  datatype Step =
    | Begin
    | Kill
    | DidFetchSha(ok: bool, sha: string)
    | DidCompare
    | DidCheckKey(present: bool)
    | DidFetchTar(ok: bool, tar: Tar)
    | DidCheckSum
    | DidVerify(ok: bool)
    | DidTagRollback(effect: bool)
    | DidImport(ok: bool, effect: bool)
    | DidRestart(ok: bool, effect: bool)
    | DidHealthCheck(active: bool)
    | DidTruncate(ok: bool)
    | DidWrite(ok: bool)
    | DidTagBack(ok: bool, effect: bool)
    | DidRestartBack(ok: bool, effect: bool)
    | DidHealthCheckBack(active: bool)

  function Start(host: Host): Machine {
    Machine(host, Idle, host, false, {}, {}, {})
  }

  predicate Enabled(m: Machine, step: Step) {
    match step
    case Begin => m.next.Idle?
    case Kill => !m.next.Idle?
    case DidFetchSha(_, _) => m.next.FetchSha?
    case DidCompare => m.next.Compare?
    case DidCheckKey(_) => m.next.CheckKey?
    case DidFetchTar(_, _) => m.next.FetchTar?
    case DidCheckSum => m.next.CheckSum?
    case DidVerify(_) => m.next.VerifySignature?
    case DidTagRollback(_) => m.next.TagRollback?
    case DidImport(_, _) => m.next.Import?
    case DidRestart(_, _) => m.next.Restart?
    case DidHealthCheck(_) => m.next.HealthCheck?
    case DidTruncate(_) => m.next.TruncateCurrent?
    case DidWrite(_) => m.next.WriteCurrent?
    case DidTagBack(_, _) => m.next.TagBack?
    case DidRestartBack(_, _) => m.next.RestartBack?
    case DidHealthCheckBack(_) => m.next.HealthCheckBack?
  }

  /** What `cat current.sha256 || echo none` prints. */
  function CurrentSha(host: Host): string {
    match host.current
    case None => "none"
    case Some(text) => text
  }

  function Go(m: Machine, go: bool, next: Command): Machine {
    m.(next := if go then next else Idle)
  }

  function Apply(m: Machine, step: Step): Machine
    requires Enabled(m, step)
  {
    match step
    case Begin => m.(next := FetchSha, atStart := m.host, tagged := false)
    case Kill => m.(next := Idle)
    case DidFetchSha(ok, sha) => Go(m, ok, Compare(sha))
    case DidCompare => Go(m, CurrentSha(m.host) != m.next.newSha, CheckKey(m.next.newSha))
    case DidCheckKey(present) => Go(m, present, FetchTar(m.next.newSha))
    case DidFetchTar(ok, tar) => Go(m, ok, CheckSum(m.next.newSha, tar))
    case DidCheckSum => Go(m, m.next.tar.sha == m.next.newSha, VerifySignature(m.next.tar))
    case DidVerify(ok) =>
      Go(m, ok, TagRollback(m.next.tar)).(checked := if ok then m.checked + {m.next.tar} else m.checked)
    case DidTagRollback(effect) =>
      m.(next := Import(m.next.tar), tagged := effect && m.host.image.Some?,
         host := if effect && m.host.image.Some? then m.host.(rollback := m.host.image) else m.host)
    case DidImport(ok, effect) =>
      Go(m, ok, Restart(m.next.tar)).(host := if effect then m.host.(image := Some(m.next.tar)) else m.host)
    case DidRestart(ok, effect) =>
      Go(m, ok, HealthCheck(m.next.tar)).(host := if effect then m.host.(running := m.host.image) else m.host)
    case DidHealthCheck(active) =>
      var tar := m.next.tar;
      if !active then m.(next := TagBack)
      else m.(next := TruncateCurrent(tar), healthy := m.healthy + {tar},
              seenRunning := if m.host.running == Some(tar) then m.seenRunning + {tar} else m.seenRunning)
    case DidTruncate(ok) =>
      Go(m, ok, WriteCurrent(m.next.tar)).(host := if ok then m.host.(current := Some("")) else m.host)
    case DidWrite(ok) =>
      m.(next := Idle, host := if ok then m.host.(current := Some(m.next.tar.sha)) else m.host)
    case DidTagBack(ok, effect) =>
      Go(m, ok, RestartBack)
      .(host := if effect && m.host.rollback.Some? then m.host.(image := m.host.rollback) else m.host)
    case DidRestartBack(ok, effect) =>
      Go(m, ok, HealthCheckBack).(host := if effect then m.host.(running := m.host.image) else m.host)
    case DidHealthCheckBack(_) => m.(next := Idle)
  }

  function StepOrSkip(m: Machine, step: Step): Machine {
    if Enabled(m, step) then Apply(m, step) else m
  }

  /** Any history of the host: steps that are not due are skipped. */
  function Run(m: Machine, steps: seq<Step>): Machine
    decreases |steps|
  {
    if steps == [] then m else StepOrSkip(Run(m, steps[..|steps| - 1]), steps[|steps| - 1])
  }

  lemma RunSnoc(m: Machine, steps: seq<Step>, step: Step)
    ensures Run(m, steps + [step]) == StepOrSkip(Run(m, steps), step)
  {
    assert (steps + [step])[..|steps|] == steps;
  }

  // ----- What every history keeps -----

  function Pending(next: Command): Option<Tar> {
    match next
    case TagRollback(tar) => Some(tar)
    case Import(tar) => Some(tar)
    case Restart(tar) => Some(tar)
    case HealthCheck(tar) => Some(tar)
    case TruncateCurrent(tar) => Some(tar)
    case WriteCurrent(tar) => Some(tar)
    case _ => None
  }

  ghost predicate Trusted(first: Host, checked: set<Tar>, image: Option<Tar>) {
    image == None || image == first.image || image == first.rollback || image.value in checked
  }

  ghost predicate Inv(first: Host, m: Machine) {
    && Trusted(first, m.checked, m.host.image)
    && Trusted(first, m.checked, m.host.rollback)
    && (Pending(m.next).Some? ==> Pending(m.next).value in m.checked)
    && (m.next.TruncateCurrent? || m.next.WriteCurrent? ==> m.next.tar in m.healthy)
    && m.seenRunning <= m.healthy <= m.checked
    && (m.host.current.None? || m.host.current == Some("") || m.host.current == first.current
        || exists tar | tar in m.healthy :: m.host.current == Some(tar.sha))
  }

  lemma StepKeepsInv(first: Host, m: Machine, step: Step)
    requires Inv(first, m) && Enabled(m, step)
    ensures Inv(first, Apply(m, step))
  {
    var t := Apply(m, step);
    if m.host.current.Some? && exists tar | tar in m.healthy :: m.host.current == Some(tar.sha) {
      var tar :| tar in m.healthy && m.host.current == Some(tar.sha);
      assert tar in t.healthy;
    }
  }

  /**
   Whatever the commands do and wherever runs are killed: both references only
   ever hold an image that was there first or that passed checksum and signature,
   and a non-empty current.sha256 is the first one or the digest of a checked
   image in whose run the service was found active.
   */
  lemma {:induction false} OnlyCheckedImages(first: Host, steps: seq<Step>)
    ensures Inv(first, Run(Start(first), steps))
    decreases |steps|
  {
    if steps != [] {
      var before, step := steps[..|steps| - 1], steps[|steps| - 1];
      OnlyCheckedImages(first, before);
      if Enabled(Run(Start(first), before), step) {
        StepKeepsInv(first, Run(Start(first), before), step);
      }
    }
  }

  // ----- What the sets stand for, in terms of the commands that ran -----

  /** The step at position k of the history is this one, and it could run. */
  ghost predicate Ran(m: Machine, steps: seq<Step>, k: nat, step: Step) {
    k < |steps| && steps[k] == step && Enabled(Run(m, steps[..k]), step)
  }

  /** The step ran at position k, in the run that is under way at the end. */
  ghost predicate RanInThisRun(m: Machine, steps: seq<Step>, k: nat, step: Step) {
    Ran(m, steps, k, step) && forall i | k < i < |steps| :: !Ran(m, steps, i, Begin)
  }

  ghost predicate InThisRun(m: Machine, steps: seq<Step>, step: Step) {
    exists k :: RanInThisRun(m, steps, k, step)
  }

  lemma RanLonger(m: Machine, before: seq<Step>, last: Step, k: nat, step: Step)
    requires k < |before|
    ensures Ran(m, before + [last], k, step) == Ran(m, before, k, step)
    ensures (before + [last])[..k] == before[..k]
  {
    assert (before + [last])[..k] == before[..k];
  }

  lemma InThisRunLonger(m: Machine, before: seq<Step>, last: Step, step: Step)
    requires InThisRun(m, before, step) && (last.Begin? ==> !Enabled(Run(m, before), last))
    ensures InThisRun(m, before + [last], step)
  {
    var steps := before + [last];
    var k: nat :| RanInThisRun(m, before, k, step);
    RanLonger(m, before, last, k, step);
    forall i | k < i < |steps|
      ensures !Ran(m, steps, i, Begin)
    {
      if i < |before| {
        RanLonger(m, before, last, i, Begin);
      } else {
        assert steps[..i] == before;
      }
    }
    assert RanInThisRun(m, steps, k, step);
  }

  lemma LastInThisRun(m: Machine, before: seq<Step>, last: Step)
    requires Enabled(Run(m, before), last)
    ensures InThisRun(m, before + [last], last)
  {
    assert (before + [last])[..|before|] == before;
    assert RanInThisRun(m, before + [last], |before|, last);
  }

  ghost predicate ShaFetched(m: Machine, steps: seq<Step>, sha: string) {
    InThisRun(m, steps, DidFetchSha(true, sha))
  }

  ghost predicate KeyFound(m: Machine, steps: seq<Step>, sha: string) {
    ShaFetched(m, steps, sha) && InThisRun(m, steps, DidCheckKey(true))
  }

  ghost predicate TarFetched(m: Machine, steps: seq<Step>, sha: string, tar: Tar) {
    KeyFound(m, steps, sha) && InThisRun(m, steps, DidFetchTar(true, tar))
  }

  /** What the commands of the run under way have shown, at each point up to the signature. */
  ghost predicate Evidence(m: Machine, steps: seq<Step>, next: Command) {
    match next
    case Compare(sha) => ShaFetched(m, steps, sha)
    case CheckKey(sha) => ShaFetched(m, steps, sha)
    case FetchTar(sha) => KeyFound(m, steps, sha)
    case CheckSum(sha, tar) => TarFetched(m, steps, sha, tar)
    case VerifySignature(tar) => TarFetched(m, steps, tar.sha, tar)
    case _ => true
  }

  lemma EvidenceLonger(m: Machine, before: seq<Step>, last: Step, sha: string, tar: Tar)
    requires last.Begin? ==> !Enabled(Run(m, before), last)
    ensures ShaFetched(m, before, sha) ==> ShaFetched(m, before + [last], sha)
    ensures KeyFound(m, before, sha) ==> KeyFound(m, before + [last], sha)
    ensures TarFetched(m, before, sha, tar) ==> TarFetched(m, before + [last], sha, tar)
  {
    if ShaFetched(m, before, sha) {
      InThisRunLonger(m, before, last, DidFetchSha(true, sha));
    }
    if KeyFound(m, before, sha) {
      InThisRunLonger(m, before, last, DidCheckKey(true));
    }
    if TarFetched(m, before, sha, tar) {
      InThisRunLonger(m, before, last, DidFetchTar(true, tar));
    }
  }

  /** The published digest and the downloaded tar a command is about, if it is. */
  function ShaOf(next: Command): string {
    match next
    case Compare(sha) => sha
    case CheckKey(sha) => sha
    case FetchTar(sha) => sha
    case CheckSum(sha, _) => sha
    case VerifySignature(tar) => tar.sha
    case _ => ""
  }

  function TarOf(next: Command): Tar {
    match next
    case CheckSum(_, tar) => tar
    case VerifySignature(tar) => tar
    case _ => Tar(0, "")
  }

  lemma EvidenceStep(m: Machine, before: seq<Step>, last: Step)
    requires Evidence(m, before, Run(m, before).next) && Enabled(Run(m, before), last)
    ensures Evidence(m, before + [last], Apply(Run(m, before), last).next)
  {
    var s := Run(m, before);
    LastInThisRun(m, before, last);
    if !last.Begin? {
      EvidenceLonger(m, before, last, ShaOf(s.next), TarOf(s.next));
    }
  }

  lemma {:induction false} EvidenceHolds(m: Machine, steps: seq<Step>)
    requires m.next.Idle?
    ensures Evidence(m, steps, Run(m, steps).next)
    decreases |steps|
  {
    if steps != [] {
      var before, last := steps[..|steps| - 1], steps[|steps| - 1];
      assert steps == before + [last];
      EvidenceHolds(m, before);
      RunSnoc(m, before, last);
      if Enabled(Run(m, before), last) {
        EvidenceStep(m, before, last);
      } else {
        EvidenceLonger(m, before, last, ShaOf(Run(m, before).next), TarOf(Run(m, before).next));
      }
    }
  }

  /**
   At position k the signature over this tar was found valid, in a run in which the
   key was there, the tar was downloaded and the published checksum was the tar's own.
   */
  ghost predicate VerifiedAt(m: Machine, steps: seq<Step>, k: nat, tar: Tar) {
    && Ran(m, steps, k, DidVerify(true))
    && Run(m, steps[..k]).next == VerifySignature(tar)
    && TarFetched(m, steps[..k], tar.sha, tar)
  }

  /** At position k the service was found active after this tar was imported. */
  ghost predicate ActiveAt(m: Machine, steps: seq<Step>, k: nat, tar: Tar) {
    && Ran(m, steps, k, DidHealthCheck(true))
    && Run(m, steps[..k]).next == HealthCheck(tar)
  }

  lemma OnlyVerifyChecks(m: Machine, step: Step, tar: Tar)
    requires Enabled(m, step) && tar in Apply(m, step).checked
    ensures tar in m.checked || (step == DidVerify(true) && m.next == VerifySignature(tar))
  {
  }

  lemma OnlyActiveIsHealthy(m: Machine, step: Step, tar: Tar)
    requires Enabled(m, step) && tar in Apply(m, step).healthy
    ensures tar in m.healthy || (step == DidHealthCheck(true) && m.next == HealthCheck(tar))
  {
  }

  lemma {:induction false} CheckedMeansVerified(first: Host, steps: seq<Step>, tar: Tar) returns (k: nat)
    requires tar in Run(Start(first), steps).checked
    ensures VerifiedAt(Start(first), steps, k, tar)
    decreases |steps|
  {
    var before, last := steps[..|steps| - 1], steps[|steps| - 1];
    assert steps == before + [last];
    var m := Start(first);
    RunSnoc(m, before, last);
    if tar in Run(m, before).checked {
      k := CheckedMeansVerified(first, before, tar);
      RanLonger(m, before, last, k, DidVerify(true));
    } else {
      k := |before|;
      OnlyVerifyChecks(Run(m, before), last, tar);
      EvidenceHolds(m, before);
      assert steps[..k] == before;
    }
  }

  lemma {:induction false} HealthyMeansActive(first: Host, steps: seq<Step>, tar: Tar) returns (k: nat)
    requires tar in Run(Start(first), steps).healthy
    ensures ActiveAt(Start(first), steps, k, tar)
    decreases |steps|
  {
    var before, last := steps[..|steps| - 1], steps[|steps| - 1];
    assert steps == before + [last];
    var m := Start(first);
    RunSnoc(m, before, last);
    if tar in Run(m, before).healthy {
      k := HealthyMeansActive(first, before, tar);
      RanLonger(m, before, last, k, DidHealthCheck(true));
    } else {
      k := |before|;
      OnlyActiveIsHealthy(Run(m, before), last, tar);
      assert steps[..k] == before;
    }
  }

  /**
   Every image in either reference that was not there first had its signature
   verified at some point of the history, after its checksum in the same run.
   */
  lemma InstalledMeansVerified(first: Host, steps: seq<Step>, tar: Tar) returns (k: nat)
    requires var host := Run(Start(first), steps).host; host.image == Some(tar) || host.rollback == Some(tar)
    requires first.image != Some(tar) && first.rollback != Some(tar)
    ensures VerifiedAt(Start(first), steps, k, tar)
  {
    OnlyCheckedImages(first, steps);
    k := CheckedMeansVerified(first, steps, tar);
  }

  /** And a digest that was not there first is that of a verified image that was also found active. */
  lemma DigestMeansActive(first: Host, steps: seq<Step>) returns (tar: Tar, j: nat, k: nat)
    requires var current := Run(Start(first), steps).host.current;
      current.Some? && current != Some("") && current != first.current
    ensures Run(Start(first), steps).host.current == Some(tar.sha)
    ensures VerifiedAt(Start(first), steps, j, tar) && ActiveAt(Start(first), steps, k, tar)
  {
    OnlyCheckedImages(first, steps);
    var m := Run(Start(first), steps);
    tar :| tar in m.healthy && m.host.current == Some(tar.sha);
    j := CheckedMeansVerified(first, steps, tar);
    k := HealthyMeansActive(first, steps, tar);
  }

  /** An import or a restart that exits 0 did what it is for. */
  predicate TookEffect(m: Machine, step: Step)
    requires Enabled(m, step)
  {
    && (step.DidImport? && step.ok ==> Apply(m, step).host.image == Some(m.next.tar))
    && (step.DidRestart? && step.ok ==> Apply(m, step).host.running == m.host.image)
  }

  ghost predicate AllTookEffect(m: Machine, steps: seq<Step>)
    decreases |steps|
  {
    steps != [] ==>
      var before, step := steps[..|steps| - 1], steps[|steps| - 1];
      && AllTookEffect(m, before)
      && (Enabled(Run(m, before), step) ==> TookEffect(Run(m, before), step))
  }

  ghost predicate StartedFromImage(m: Machine) {
    && m.healthy <= m.seenRunning
    && (m.next.Restart? ==> m.host.image == Some(m.next.tar))
    && (m.next.HealthCheck? ==> m.host.running == Some(m.next.tar))
  }

  /** If successful imports and restarts took effect, the image named by current.sha256 really ran. */
  lemma {:induction false} HealthyMeansRan(first: Host, steps: seq<Step>)
    requires AllTookEffect(Start(first), steps)
    ensures StartedFromImage(Run(Start(first), steps))
    decreases |steps|
  {
    if steps != [] {
      HealthyMeansRan(first, steps[..|steps| - 1]);
    }
  }

  /** The three commands by which a run convinces itself of its image, each exiting 0. */
  function Convinced(importEffect: bool, restartEffect: bool): seq<Step> {
    [DidImport(true, importEffect), DidRestart(true, restartEffect), DidHealthCheck(true)]
  }

  lemma RunConvinced(m: Machine, importEffect: bool, restartEffect: bool)
    ensures var steps := Convinced(importEffect, restartEffect);
      && Run(m, steps[..1]) == StepOrSkip(m, steps[0])
      && Run(m, steps[..2]) == StepOrSkip(Run(m, steps[..1]), steps[1])
      && Run(m, steps) == StepOrSkip(Run(m, steps[..2]), steps[2])
  {
    var steps := Convinced(importEffect, restartEffect);
    RunSnoc(m, [], steps[0]);
    RunSnoc(m, steps[..1], steps[1]);
    RunSnoc(m, steps[..2], steps[2]);
    assert [] + [steps[0]] == steps[..1] && steps[..1] + [steps[1]] == steps[..2] && steps[..2] + [steps[2]] == steps;
  }

  /**
   What the health check vouches for: an image not seen running before has run
   exactly if the service was started from it, and after an effective restart
   that is exactly if the import left the image reference at it.
   */
  lemma VouchedForExactlyIfImported(m: Machine, importEffect: bool, restartEffect: bool)
    requires m.next.Import? && m.next.tar !in m.seenRunning
    ensures var tar, steps := m.next.tar, Convinced(importEffect, restartEffect);
      && tar in Run(m, steps).healthy
      && (tar in Run(m, steps).seenRunning <==> Run(m, steps[..2]).host.running == Some(tar))
      && (restartEffect ==>
            (tar in Run(m, steps).seenRunning <==> Run(m, steps[..1]).host.image == Some(tar)))
  {
    RunConvinced(m, importEffect, restartEffect);
  }

  /** So an import that exits 0 without effect fools the check, and the digest with it. */
  lemma SilentImportFoolsTheHealthCheck(m: Machine, old': Tar)
    requires m.next.Import? && m.host.image == Some(old') && old' != m.next.tar
    requires m.next.tar !in m.seenRunning
    ensures var tar := m.next.tar;
            var t := Run(m, Convinced(false, true) + [DidTruncate(true)] + [DidWrite(true)]);
            t.next == Idle && t.host.current == Some(tar.sha) && t.host.running == Some(old') && tar !in t.seenRunning
  {
    RunConvinced(m, false, true);
    RunSnoc(m, Convinced(false, true), DidTruncate(true));
    RunSnoc(m, Convinced(false, true) + [DidTruncate(true)], DidWrite(true));
  }

  // ----- Honest commands -----

  /** ctr's and systemctl's exit status says what happened. */
  predicate Honest(step: Step) {
    match step
    case DidTagRollback(effect) => effect
    case DidImport(ok, effect) => ok == effect
    case DidRestart(ok, effect) => ok == effect
    case DidTagBack(ok, effect) => ok == effect
    case DidRestartBack(ok, effect) => ok == effect
    case _ => true
  }

  ghost predicate AllHonest(steps: seq<Step>) {
    forall i | 0 <= i < |steps| :: Honest(steps[i])
  }

  // ----- current.sha256 and the image reference -----

  predicate Agree(host: Host) {
    host.image.Some? && host.current == Some(host.image.value.sha)
  }

  /** Commands between the import and the final outcome of a run. */
  predicate Committed(next: Command) {
    || next.Restart? || next.HealthCheck? || next.TruncateCurrent? || next.WriteCurrent?
    || next.TagBack?
  }

  /** There is no snapshot of what the run found, and the one before it is of another image. */
  predicate SnapshotIsStale(m: Machine) {
    && !m.tagged
    && (m.atStart.rollback.None? || m.atStart.image.None?
        || m.atStart.rollback.value.sha != m.atStart.image.value.sha)
  }

  /**
   A run is left half way: killed or stopped by a failing command after the
   import, or rolled back to a stale snapshot.
   */
  predicate LeftHalfWay(m: Machine, step: Step) {
    || (step.Kill? && Committed(m.next))
    || (step.DidRestart? && !step.ok)
    || (step.DidTruncate? && !step.ok)
    || (step.DidWrite? && !step.ok)
    || (step.DidTagBack? && (!step.ok || SnapshotIsStale(m)))
  }

  /** What the snapshot step leaves in the rollback reference. */
  function RollbackHeld(m: Machine): Option<Tar> {
    if m.tagged then m.atStart.image else m.atStart.rollback
  }

  /** Where a run that began in agreement stands. */
  ghost predicate OnTrack(m: Machine) {
    && Agree(m.atStart)
    && (match m.next
        case Idle => Agree(m.host)
        case FetchSha => m.host == m.atStart
        case Compare(_) => m.host == m.atStart
        case CheckKey(newSha) => m.host == m.atStart && newSha != m.host.image.value.sha
        case FetchTar(newSha) => m.host == m.atStart && newSha != m.host.image.value.sha
        case CheckSum(newSha, _) => m.host == m.atStart && newSha != m.host.image.value.sha
        case VerifySignature(tar) => m.host == m.atStart && tar.sha != m.host.image.value.sha
        case TagRollback(tar) => m.host == m.atStart && tar.sha != m.host.image.value.sha
        case Import(tar) =>
          && m.host == m.atStart.(rollback := RollbackHeld(m))
          && tar.sha != m.host.image.value.sha
        case Restart(tar) => NewInPlace(m, tar)
        case HealthCheck(tar) => NewInPlace(m, tar)
        case TruncateCurrent(tar) => NewInPlace(m, tar)
        case WriteCurrent(tar) =>
          m.host.image == Some(tar) && m.host.current == Some("") && tar.sha != m.atStart.image.value.sha
        case TagBack =>
          && m.host.image.Some? && m.host.image.value.sha != m.atStart.image.value.sha
          && m.host.rollback == RollbackHeld(m) && m.host.current == m.atStart.current
        case RestartBack => Agree(m.host) && m.host.current == m.atStart.current
        case HealthCheckBack => Agree(m.host) && m.host.current == m.atStart.current)
  }

  ghost predicate NewInPlace(m: Machine, tar: Tar) {
    && Agree(m.atStart)
    && m.host.image == Some(tar) && tar.sha != m.atStart.image.value.sha
    && m.host.rollback == RollbackHeld(m) && m.host.current == m.atStart.current
  }

  /** The exit status of an import or a rollback tag says whether the reference moved. */
  predicate Told(step: Step) {
    match step
    case DidImport(ok, effect) => ok == effect
    case DidTagBack(ok, effect) => ok == effect
    case _ => true
  }

  ghost predicate AllTold(steps: seq<Step>) {
    forall i | 0 <= i < |steps| :: Told(steps[i])
  }

  lemma StepStaysOnTrack(m: Machine, step: Step)
    requires OnTrack(m) && Enabled(m, step) && Told(step)
    requires !LeftHalfWay(m, step)
    ensures OnTrack(Apply(m, step))
  {
  }

  ghost predicate NoneLeftHalfWay(m: Machine, steps: seq<Step>)
    decreases |steps|
  {
    steps != [] ==>
      var before, step := steps[..|steps| - 1], steps[|steps| - 1];
      && NoneLeftHalfWay(m, before)
      && (Enabled(Run(m, before), step) ==> !LeftHalfWay(Run(m, before), step))
  }

  /**
   From a host in agreement, as long as no run is left half way and imports and
   rollback tags tell what they did, the digest file and the image reference
   agree whenever no run is under way. Nothing is assumed of the snapshot.
   */
  lemma {:induction false} AgreementAfterEveryRun(first: Host, steps: seq<Step>)
    requires Agree(first) && AllTold(steps) && NoneLeftHalfWay(Start(first), steps)
    ensures OnTrack(Run(Start(first), steps))
    ensures Run(Start(first), steps).next.Idle? ==> Agree(Run(Start(first), steps).host)
    decreases |steps|
  {
    if steps != [] {
      var before, step := steps[..|steps| - 1], steps[|steps| - 1];
      AgreementAfterEveryRun(first, before);
      if Enabled(Run(Start(first), before), step) {
        StepStaysOnTrack(Run(Start(first), before), step);
      }
    }
  }

  /**
   The condition is exact: a step that ends a run, or its rollback of the
   reference, leaves agreement exactly if it does not leave the run half way
   (an unwritten digest apart). What follows a rollback tag changes neither.
   */
  lemma HalfWayMeansDisagreement(m: Machine, step: Step)
    requires OnTrack(m) && Enabled(m, step) && Told(step) && !m.next.Idle?
    requires Apply(m, step).next.Idle? || Apply(m, step).next.RestartBack?
    requires m.next.WriteCurrent? ==> m.next.tar.sha != ""
    ensures Agree(Apply(m, step).host) <==> !LeftHalfWay(m, step)
  {
    if !LeftHalfWay(m, step) {
      StepStaysOnTrack(m, step);
    }
  }

  predicate EffectiveImport(step: Step) {
    step.DidImport? && step.ok ==> step.effect
  }

  /** From the import to the digest, the image reference holds the run's own image. */
  ghost predicate ImportInPlace(m: Machine) {
    m.next.Restart? || m.next.HealthCheck? || m.next.TruncateCurrent? || m.next.WriteCurrent? ==>
      m.host.image == Some(m.next.tar)
  }

  ghost predicate EffectiveImports(steps: seq<Step>) {
    forall i | 0 <= i < |steps| :: EffectiveImport(steps[i])
  }

  lemma StepKeepsImport(m: Machine, step: Step)
    requires ImportInPlace(m) && Enabled(m, step) && EffectiveImport(step)
    ensures ImportInPlace(Apply(m, step))
  {
  }

  lemma {:induction false} ImportsStayInPlace(m: Machine, steps: seq<Step>)
    requires m.next.Idle? && EffectiveImports(steps)
    ensures ImportInPlace(Run(m, steps))
    decreases |steps|
  {
    if steps != [] {
      var before, step := steps[..|steps| - 1], steps[|steps| - 1];
      ImportsStayInPlace(m, before);
      if Enabled(Run(m, before), step) {
        StepKeepsImport(Run(m, before), step);
      }
    }
  }

  /** A completed update heals whatever an earlier run left half way: from any host it ends in agreement. */
  lemma CompletedUpdateAgrees(m: Machine, steps: seq<Step>)
    requires m.next.Idle? && EffectiveImports(steps)
    requires Run(m, steps).next.WriteCurrent?
    ensures var t := Apply(Run(m, steps), DidWrite(true)); t.next.Idle? && Agree(t.host)
  {
    ImportsStayInPlace(m, steps);
  }

  // ----- The rollback reference -----

  /** A rollback tag that exits 0 moved the reference; from a missing one it cannot. */
  predicate TagBackTold(m: Machine, step: Step) {
    step.DidTagBack? && step.ok ==> step.effect && m.host.rollback.Some?
  }

  ghost predicate TagBacksTold(m: Machine, steps: seq<Step>)
    decreases |steps|
  {
    steps != [] ==>
      var before, step := steps[..|steps| - 1], steps[|steps| - 1];
      && TagBacksTold(m, before)
      && (Enabled(Run(m, before), step) ==> TagBackTold(Run(m, before), step))
  }

  predicate PastSnapshot(next: Command) {
    next.Import? || Committed(next) || next.RestartBack? || next.HealthCheckBack?
  }

  predicate RolledBack(next: Command) {
    next.RestartBack? || next.HealthCheckBack?
  }

  /** Where the run under way stands, whatever happened before it. */
  ghost predicate RunLocal(m: Machine) {
    && (m.next.Idle? || PastSnapshot(m.next) || m.host == m.atStart)
    && (PastSnapshot(m.next) ==> m.host.rollback == RollbackHeld(m))
    && (PastSnapshot(m.next) && !m.next.WriteCurrent? ==> m.host.current == m.atStart.current)
    && (PastSnapshot(m.next) && m.tagged ==> m.atStart.image.Some?)
  }

  lemma StepKeepsLocal(m: Machine, step: Step)
    requires RunLocal(m) && Enabled(m, step)
    ensures RunLocal(Apply(m, step))
  {
  }

  /** No assumption about any command: the snapshot alone decides what the rollback reference holds. */
  lemma {:induction false} RunsAreLocal(m: Machine, steps: seq<Step>)
    requires m.next.Idle?
    ensures RunLocal(Run(m, steps))
    decreases |steps|
  {
    if steps != [] {
      var before, step := steps[..|steps| - 1], steps[|steps| - 1];
      RunsAreLocal(m, before);
      if Enabled(Run(m, before), step) {
        StepKeepsLocal(Run(m, before), step);
      }
    }
  }

  lemma {:induction false} TagBacksMoveTheReference(m: Machine, steps: seq<Step>)
    requires m.next.Idle? && TagBacksTold(m, steps)
    ensures var t := Run(m, steps);
      RolledBack(t.next) ==> t.host.rollback.Some? && t.host.image == t.host.rollback
    decreases |steps|
  {
    if steps != [] {
      TagBacksMoveTheReference(m, steps[..|steps| - 1]);
    }
  }

  /**
   What a completed rollback puts back, from any idle host and whatever became of
   earlier runs: the image its run found exactly if the snapshot of it was taken
   or the one before is of the same image. Otherwise it is that older snapshot.
   The digest is kept in any case.
   */
  lemma RollbackRestores(m: Machine, steps: seq<Step>)
    requires m.next.Idle? && TagBacksTold(m, steps)
    requires RolledBack(Run(m, steps).next)
    ensures var t := Run(m, steps);
      && t.host.current == t.atStart.current
      && (t.host.image == t.atStart.image <==> t.tagged || t.atStart.rollback == t.atStart.image)
      && (t.host.image != t.atStart.image ==> t.host.image == t.atStart.rollback)
  {
    RunsAreLocal(m, steps);
    TagBacksMoveTheReference(m, steps);
  }

  /**
   The snapshot step, whose failure the script ignores: when the run found an
   image, the rollback reference is it exactly if the tag took effect or the
   reference was that image before; without an image nothing is taken.
   */
  lemma SnapshotDecides(m: Machine, steps: seq<Step>, effect: bool)
    requires m.next.Idle? && Run(m, steps).next.TagRollback?
    ensures var found, t := Run(m, steps).host, Apply(Run(m, steps), DidTagRollback(effect));
      && t.tagged == (effect && found.image.Some?) && t.atStart == found
      && (found.image.Some? ==>
            (t.host.rollback == found.image <==> effect || found.rollback == found.image))
      && (found.image.None? ==> t.host == found)
  {
    RunsAreLocal(m, steps);
  }

  /** From its import on, a run's rollback reference is what its snapshot made of it. */
  lemma RollbackHoldsWhatTheRunFound(m: Machine, steps: seq<Step>)
    requires m.next.Idle? && PastSnapshot(Run(m, steps).next)
    ensures var t := Run(m, steps);
      && (t.host.rollback == t.atStart.image <==> t.tagged || t.atStart.rollback == t.atStart.image)
      && (t.tagged || t.host.rollback == t.atStart.rollback)
  {
    RunsAreLocal(m, steps);
  }

  /** The failing case exists: a silently failed snapshot makes the rollback go back one image too far. */
  lemma SilentSnapshotRollsBackTooFar(m: Machine, found: Tar, stale: Tar) returns (steps: seq<Step>)
    requires m.next.TagRollback? && m.host == m.atStart
    requires m.host.image == Some(found) && m.host.rollback == Some(stale) && stale != found
    ensures TagBacksTold(m, steps)
    ensures var t := Run(m, steps);
      && t.next.HealthCheckBack? && t.host.current == m.host.current
      && t.host.image == Some(stale) && t.host.running == Some(stale)
  {
    steps := Trace(m, [], DidTagRollback(false));
    steps := Trace(m, steps, DidImport(true, true));
    steps := Trace(m, steps, DidRestart(true, true));
    steps := Trace(m, steps, DidHealthCheck(false));
    steps := Trace(m, steps, DidTagBack(true, true));
    steps := Trace(m, steps, DidRestartBack(true, true));
  }

  /** One more step after a known stretch in which rollback tags told the truth. */
  lemma Trace(m: Machine, steps: seq<Step>, step: Step) returns (longer: seq<Step>)
    requires TagBacksTold(m, steps)
    requires Enabled(Run(m, steps), step) && TagBackTold(Run(m, steps), step)
    ensures longer == steps + [step] && TagBacksTold(m, longer)
    ensures Run(m, longer) == Apply(Run(m, steps), step)
  {
    longer := steps + [step];
    assert longer[..|longer| - 1] == steps;
  }

  /** The first host's references, and the images found healthy. */
  ghost predicate Good(first: Host, healthy: set<Tar>, image: Option<Tar>) {
    image.Some? && (image == first.image || image == first.rollback || image.value in healthy)
  }

  /** Commands before which the image reference holds an unproven image. */
  predicate OnTrial(next: Command) {
    next.Restart? || next.HealthCheck? || next.TagBack?
  }

  /** The run ends with its new image in place, neither found healthy nor taken back. */
  predicate LeftUnproven(m: Machine, step: Step) {
    || (step.Kill? && OnTrial(m.next))
    || (step.DidRestart? && !step.ok)
    || (step.DidTagBack? && !step.ok)
  }

  ghost predicate GoodReferences(first: Host, m: Machine) {
    && (m.host.rollback.None? || Good(first, m.healthy, m.host.rollback))
    && (OnTrial(m.next) || Good(first, m.healthy, m.host.image))
    && (m.next.Restart? || m.next.HealthCheck? ==>
          m.host.image == Some(m.next.tar) || Good(first, m.healthy, m.host.image))
  }

  /** As TagBackTold, and an import that fails leaves the reference alone. */
  predicate ReferencesTold(m: Machine, step: Step) {
    TagBackTold(m, step) && (step.DidImport? && step.effect ==> step.ok)
  }

  lemma StepKeepsGoodReferences(first: Host, m: Machine, step: Step)
    requires GoodReferences(first, m) && Enabled(m, step)
    requires ReferencesTold(m, step) && !LeftUnproven(m, step)
    ensures GoodReferences(first, Apply(m, step))
  {
    var t := Apply(m, step);
    assert m.healthy <= t.healthy;
    assert forall image :: Good(first, m.healthy, image) ==> Good(first, t.healthy, image);
  }

  ghost predicate NoneLeftUnproven(m: Machine, steps: seq<Step>)
    decreases |steps|
  {
    steps != [] ==>
      var before, step := steps[..|steps| - 1], steps[|steps| - 1];
      && NoneLeftUnproven(m, before)
      && (Enabled(Run(m, before), step) ==> !LeftUnproven(Run(m, before), step))
  }

  ghost predicate AllReferencesTold(m: Machine, steps: seq<Step>)
    decreases |steps|
  {
    steps != [] ==>
      var before, step := steps[..|steps| - 1], steps[|steps| - 1];
      && AllReferencesTold(m, before)
      && (Enabled(Run(m, before), step) ==> ReferencesTold(Run(m, before), step))
  }

  /**
   As long as no run leaves an unproven image behind, the rollback reference only
   ever holds an image that was there first or was found healthy, and so does the
   image reference whenever no new image is on trial. Snapshots may fail.
   */
  lemma {:induction false} RollbackStaysGood(first: Host, steps: seq<Step>)
    requires first.image.Some?
    requires AllReferencesTold(Start(first), steps) && NoneLeftUnproven(Start(first), steps)
    ensures GoodReferences(first, Run(Start(first), steps))
    decreases |steps|
  {
    if steps != [] {
      var before, step := steps[..|steps| - 1], steps[|steps| - 1];
      RollbackStaysGood(first, before);
      if Enabled(Run(Start(first), before), step) {
        StepKeepsGoodReferences(first, Run(Start(first), before), step);
      }
    }
  }

  /**
   The condition is exact: when a run ends whose image on trial was not good
   before, the image reference is good exactly if the last step did not leave it unproven.
   */
  lemma UnprovenMeansNotGood(first: Host, m: Machine, step: Step)
    requires GoodReferences(first, m) && Enabled(m, step) && Honest(step)
    requires !m.next.Idle? && Apply(m, step).next.Idle?
    requires OnTrial(m.next) ==> !Good(first, m.healthy, m.host.image)
    ensures Good(first, Apply(m, step).healthy, Apply(m, step).host.image) <==> !LeftUnproven(m, step)
  {
    if !LeftUnproven(m, step) {
      StepKeepsGoodReferences(first, m, step);
    }
  }

  /** One more step after a known stretch. */
  lemma Then(m: Machine, steps: seq<Step>, step: Step) returns (longer: seq<Step>)
    requires AllHonest(steps) && Honest(step)
    ensures longer == steps + [step] && AllHonest(longer)
    ensures Run(m, longer) == StepOrSkip(Run(m, steps), step)
  {
    longer := steps + [step];
    RunSnoc(m, steps, step);
  }

  /** An idle host can fetch and check any release it does not have. */
  lemma FetchRelease(m: Machine, steps: seq<Step>, tar: Tar) returns (longer: seq<Step>)
    requires AllHonest(steps) && Run(m, steps).next.Idle?
    requires CurrentSha(Run(m, steps).host) != tar.sha
    ensures AllHonest(longer)
    ensures var t := Run(m, steps);
            Run(m, longer) ==
              t.(next := TagRollback(tar), atStart := t.host, tagged := false, checked := t.checked + {tar})
  {
    longer := Then(m, steps, Begin);
    longer := Then(m, longer, DidFetchSha(true, tar.sha));
    longer := Then(m, longer, DidCompare);
    longer := Then(m, longer, DidCheckKey(true));
    longer := Then(m, longer, DidFetchTar(true, tar));
    longer := Then(m, longer, DidCheckSum);
    longer := Then(m, longer, DidVerify(true));
  }

  /** From an idle host, a run up to its import of a checked release. */
  lemma ImportRelease(m: Machine, steps: seq<Step>, tar: Tar) returns (longer: seq<Step>)
    requires AllHonest(steps) && Run(m, steps).next.Idle? && Run(m, steps).host.image.Some?
    requires CurrentSha(Run(m, steps).host) != tar.sha
    ensures AllHonest(longer)
    ensures var s, t := Run(m, steps), Run(m, longer);
      && t.next == Restart(tar) && t.host == s.host.(rollback := s.host.image, image := Some(tar))
      && t.healthy == s.healthy
  {
    longer := FetchRelease(m, steps, tar);
    longer := Then(m, longer, DidTagRollback(true));
    longer := Then(m, longer, DidImport(true, true));
  }

  /**
   Such a history exists, with honest commands, from any host with an image: a run
   killed behind its import, and the next update overwrites the rollback
   reference with the image that was never found healthy. No good image is left.
   */
  lemma KilledUpdateLosesTheGoodImage(first: Host, bad: Tar, next: Tar) returns (steps: seq<Step>)
    requires first.image.Some? && CurrentSha(first) != bad.sha && CurrentSha(first) != next.sha
    requires Some(bad) != first.image && Some(bad) != first.rollback
    requires Some(next) != first.image && Some(next) != first.rollback
    ensures AllHonest(steps)
    ensures var t := Run(Start(first), steps);
      && t.host.image == Some(next) && t.host.rollback == Some(bad)
      && !Good(first, t.healthy, t.host.rollback) && !Good(first, t.healthy, t.host.image)
  {
    steps := ImportRelease(Start(first), [], bad);
    steps := Then(Start(first), steps, Kill);
    steps := ImportRelease(Start(first), steps, next);
  }
}
