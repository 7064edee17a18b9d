/**
 How main.go puts the parts together: a loaded configuration, the flag that may
 override the tunnel identity, and the remote's default-deny check. A started
 process has what the other components assume of their parameters.
 */
module Startup {
  import opened Wrappers
  import opened Config
  import opened Backoff
  import PathGuard
  import Admission

  datatype Refusal = BadConfig(error: LoadError) | NoTunnelIdentity | NoAllowlist

  /** What the remote runs with once it has started. */
  ghost predicate Deployable(cfg: Config) {
    Valid(cfg) && cfg.tunnelCN != "" && cfg.allowedPathPrefixes != []
  }

  /** The command line may override the tunnel identity, and nothing else. */
  function Pinned(cfg: Config, tunnelCNFlag: string): Config {
    if tunnelCNFlag != "" then cfg.(tunnelCN := tunnelCNFlag) else cfg
  }

  method StartRemote(path: string, file: File, tunnelCNFlag: string) returns (r: Result<Config, Refusal>)
    ensures r.Ok? <==>
      && Loaded(path, file).Some?
      && Deployable(Pinned(Loaded(path, file).value, tunnelCNFlag))
    ensures r.Ok? ==> r.value == Pinned(Loaded(path, file).value, tunnelCNFlag)
    ensures r.Ok? ==>
      && r.value.tunnelCN == (if tunnelCNFlag != "" then tunnelCNFlag else Loaded(path, file).value.tunnelCN)
      && r.value.tunnelCN != "" && r.value.allowedPathPrefixes != []
      && r.value.(tunnelCN := "") == Loaded(path, file).value.(tunnelCN := "")
    ensures path == "" ==> r.Err?
    ensures r.Err? ==> match r.error
      case BadConfig(_) => Loaded(path, file).None?
      case NoTunnelIdentity =>
        Loaded(path, file).Some? && Loaded(path, file).value.tunnelCN == "" && tunnelCNFlag == ""
      case NoAllowlist =>
        && Loaded(path, file).Some? && Loaded(path, file).value.allowedPathPrefixes == []
        && Pinned(Loaded(path, file).value, tunnelCNFlag).tunnelCN != ""
  {
    var cfg, err := LoadConfig(path, file);
    if err.Some? {
      return Err(BadConfig(err.value));
    }
    if tunnelCNFlag != "" {
      cfg := cfg.(tunnelCN := tunnelCNFlag);
    }
    if cfg.tunnelCN == "" {
      return Err(NoTunnelIdentity);
    }
    if |cfg.allowedPathPrefixes| == 0 {
      return Err(NoAllowlist);
    }
    return Ok(cfg);
  }

  /** Every path a started remote forwards is rooted and survives the backend's resolution. */
  lemma RemoteForwardsOnlyStablePaths(cfg: Config, path: string)
    requires Deployable(cfg) && PathGuard.PassesGuards(cfg.allowedPathPrefixes, path)
    ensures PathGuard.RemoveDotSegments(path) == path
    ensures exists prefix | prefix in cfg.allowedPathPrefixes :: PathGuard.Covers(prefix, path)
  {
    PathGuard.AllowlistTheorem(cfg.allowedPathPrefixes, path);
  }

  /** The semaphore of a started remote can admit, and saturates only across certificates. */
  lemma RemoteAdmitsFairly(cfg: Config, schedule: seq<Admission.Step>, id: nat)
    requires Deployable(cfg)
    ensures var s := Admission.Run(Admission.Start(cfg.maxStreamsPerCert, cfg.maxConcurrentStreams), schedule);
      && Admission.Conserved(s)
      && (Admission.Enabled(s, Admission.TrySemaphore(id)) && s.slots == 0 ==>
            Admission.At(Admission.Apply(s, Admission.TrySemaphore(id)), id, Admission.Serving))
      && (|| cfg.maxStreamsPerCert == 0
          || !Admission.Enabled(s, Admission.TrySemaphore(id))
          || Admission.At(Admission.Apply(s, Admission.TrySemaphore(id)), id, Admission.Serving)
          || (&& Admission.SemaphoreHolders(s.requests) <= s.requests.Keys
              && |Admission.SerialsOf(s.requests, Admission.SemaphoreHolders(s.requests))|
                 >= Admission.CeilDiv(cfg.maxConcurrentStreams, cfg.maxStreamsPerCert)))
  {
    Admission.SlotsAreConserved(cfg.maxStreamsPerCert, cfg.maxConcurrentStreams, schedule);
    if cfg.maxStreamsPerCert > 0 {
      Admission.NoCertificateStarvesTheOthers(cfg.maxStreamsPerCert, cfg.maxConcurrentStreams, schedule, id);
    }
  }

  /** The waits of a home client that loaded its configuration stay inside its bounds. */
  lemma ClientReconnectsWithinBounds(cfg: Config, rounds: seq<Round>, k: nat)
    requires Valid(cfg)
    requires k < |RunLog(cfg.backoffMin, cfg.backoffMax, 0, rounds)|
    ensures var entry := RunLog(cfg.backoffMin, cfg.backoffMax, 0, rounds)[k];
      entry.Waited? ==> cfg.backoffMin <= entry.delay <= cfg.backoffMax
  {
    RunIsPaced(cfg.backoffMin, cfg.backoffMax, 0, 0, rounds);
    PacedWaits(cfg.backoffMin, cfg.backoffMax, RunLog(cfg.backoffMin, cfg.backoffMax, 0, rounds), 0);
  }
}
