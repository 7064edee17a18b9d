# Verification of the opencode proxy

A Dafny model of the stateful parts of the proxy, with proofs. The proxy has a
public half (the remote), which accepts one tunnel from home and forwards device
requests through it, and a home half (the local client), which dials the tunnel,
reconnects with backoff and guards the requests that arrive. `dafny verify
dfyconfig.toml` checks everything.

## How it is organised

| file | what it models |
|---|---|
| `PathClean.dfy` | lexical path cleaning: the in-place buffer algorithm documented for Go's path.Clean, against a segment stack |
| `PathGuard.dfy` | the clean-form test, the prefix allowlist, remove_dot_segments of section 5.2.4 of RFC 3986, the home gate |
| `PerCertLimiter.dfy`, `Admission.dfy` | the per-certificate counter, and the device pipeline with its two budgets under every interleaving |
| `Registry.dfy` | the tunnel session slot under every interleaving of accepts, late clears, revocations and dying sessions |
| `RemoteProxy.dfy` | the same registry and pipeline as objects with methods, one call at a time |
| `RaceCtx.dfy`, `SessionDriver.dfy` | the goroutine hand-offs over buffered channels, every select choice a step |
| `Backoff.dfy` | reconnect backoff in wrapping int64 arithmetic, and whole runs of the reconnect loop |
| `Serials.dfy`, `RevokedFile.dfy`, `RevocationList.dfy` | serial canonicalisation, the denylist file, the cache that reloads it while the file is edited |
| `Config.dfy`, `Startup.dfy` | configuration layering and validation, and what a started process can rely on |
| `Updater.dfy`, `UpdateScript.dfy` | the update script: any number of runs with arbitrary command outcomes and kills, and one run command by command |
| `Wrappers.dfy` | Option and Result |

Concurrent code is a set of threads with explicit steps. A critical section is
one step; everything outside the lock is a separate step. `Enabled` says when a
step can run and `Apply` what it does; a schedule is any sequence of steps of
any threads, and `Run` skips steps that cannot run yet, so a statement about
`Run(Start(), schedule)` for all schedules is a statement about every reachable
state. Clocks, randomness, the file system and foreign commands are parameters.

## Where the code and its documentation differ

The model follows the code.

- The comment on `pathIsNormalized` (remote.go:398-403) promises a path "rooted
  at /". Clean relative paths pass too. Both guards together give rootedness
  exactly when the allowlist is not empty
  (`PathGuard.RootednessComesFromTheAllowlist`).
- `LoadRevokedSerials` (tlsconf.go:54-58) says colons, whitespace and a leading 0x
  are ignored. That holds exactly if the whitespace inside is spaces only and no
  separator stands in front of a mark or inside it
  (`Serials.PromiseKeptExactly`). An inner tab
  (`Serials.InnerWhitespaceIsRefused`), or the space in "serial= 0xab"
  (`Serials.SeparatedRadixIsRefused`), makes the whole file unreadable.
- README.md:422-423 asks for a restart after a revocation; the code reloads the
  file on every check (`RevocationList.AnswersFromTheFile`).
- `NewRevocationList` loads before it stats, `IsRevoked` stats before it loads.
  Only the second order repairs itself: construction is sound exactly when the
  stat failed or no edit fell between the two
  (`RevocationList.ConstructionIsSoundUnlessItOverlapsAnEdit`), and otherwise the
  old set is served until the next edit
  (`RevocationList.OverlappedConstructionStaysStale`).
- The repository's README (lines 251-255) says a failed update is re-tagged to
  the previous image. A completed rollback puts back the image its run found
  exactly if the snapshot in line 75 of the script was taken or an older one is of
  the same image (`Updater.RollbackRestores`, `Updater.SnapshotDecides`). The script
  ignores a failing snapshot, and then the rollback goes further back
  (`Updater.SilentSnapshotRollsBackTooFar`).
- What is put back is known to be good as long as no earlier run was left with an
  unproven image: killed between its import and the health check or the
  rollback, or stopped by a failing restart or tag (`Updater.RollbackStaysGood`,
  `Updater.UnprovenMeansNotGood`). After such a run the next update overwrites the
  rollback reference with the unproven image
  (`Updater.RollbackHoldsWhatTheRunFound`, `Updater.KilledUpdateLosesTheGoodImage`).
- If imports and rollback tags tell what they did, image and digest agree exactly as
  long as no run is left half way, which includes a rollback to a stale snapshot
  (`Updater.AgreementAfterEveryRun`, `Updater.HalfWayMeansDisagreement`); the next
  completed update restores agreement (`Updater.CompletedUpdateAgrees`). A health
  check vouches for the new image exactly if the import really replaced the
  reference (`Updater.HealthyMeansRan`, `Updater.VouchedForExactlyIfImported`).
- The tunnel check of a device request is about the session in a snapshot
  (remote.go:73-88); the request later dials whatever session is registered then.
  They are the same exactly if no new tunnel was registered in between
  (`Registry.DialReachesCheckedOrNewer`); otherwise a listed one can be dialled
  (`Registry.UncheckedSessionCanBeDialled`).

## Model

| member | source | states |
|---|---|---|
| PathClean.Clean | remote.go:404-406 | the one-pass buffer algorithm computes the resolved segment stack, printed back |
| PathClean.TakeBack | remote.go:404-406 | backing the buffer up on ".." removes exactly the last segment and its separator, never below the kept ".." run |
| PathClean.CleanedIdempotent | remote.go:404-406 | cleaning a clean path changes nothing, and rootedness is kept |
| PathClean.CleanedLeadsToTheSamePlace | remote.go:398-406 | a path and its clean form lead to the same directory from any starting point |
| PathClean.CleanedIsCanonical | remote.go:398-406 | two rooted paths have the same clean form exactly when they lead to the same place |
| PathGuard.PathIsNormalized | remote.go:404-406 | the test accepts exactly the non-empty paths that are their own clean form |
| PathGuard.PathAllowed | remote.go:408-418 | an empty list allows everything; otherwise some entry equals the path or, with one trailing slash dropped, leads it at a segment boundary |
| PathGuard.NormalizedMeansRealPieces | remote.go:398-406 | a rooted path passes exactly when it is "/" or no piece between slashes is empty, "." or ".." |
| PathGuard.NormalizedSurvivesResolution | remote.go:331-341 | remove_dot_segments returns a clean rooted path unchanged |
| PathGuard.MatchesMeansCovers | remote.go:393-418 | on clean rooted paths the string test is segment extension, strict for an entry with a trailing slash |
| PathGuard.UncleanPrefixIsDead | remote.go:408-418 | an entry unclean beyond one trailing slash matches no clean path |
| PathGuard.EntryAdmits | remote.go:408-418 | in terms of segments only: "/a/b" admits itself and what is below, "/a/b/" only what is below, "/" every clean rooted path |
| PathGuard.AllowlistTheorem | remote.go:331-349 | with a non-empty list of rooted entries, exactly the clean rooted paths that extend some entry's segments pass, and the backend resolves them to themselves |
| PathGuard.RootednessComesFromTheAllowlist | remote.go:398-418 | the clean-form test alone admits relative paths, such as the request target "*"; both guards together force rootedness exactly when the list is non-empty |
| PathGuard.LocalGate | local.go:60-75 | the home gate answers 400 exactly for non-normalized paths and forwards exactly what passes both guards |
| PathGuard.CleanPathSurvivesExactly | local.go:60-75 | a clean path, which is all an empty allowlist asks for, survives the backend's resolution exactly if it is rooted, or relative and neither "." nor ".." nor starting with "../" |
| PerCertLimiter.Limiter.Acquire | remote.go:170-184 | succeeds exactly below the cap (or with the cap off), adds one to this serial only, and keeps every count within 1..cap |
| PerCertLimiter.Limiter.Release | remote.go:186-197 | takes one back from this serial only and forgets it at zero |
| PerCertLimiter.ReleaseUndoesAcquire | remote.go:173-197 | after any acquires and releases of other serials in between, a release leaves the map those calls alone would have made |
| Admission.SlotsAreConserved | remote.go:351-382 | in every state of every schedule each count equals the requests holding that slot, counts stay within 1..cap and absent at zero, len(sem) equals the semaphore holders and is at most MaxConcurrentStreams, and every semaphore holder holds its certificate slot |
| Admission.AllDoneGivesAllBack | remote.go:355-367 | when all requests have returned, by whatever exit, both budgets are whole |
| Admission.AdmissionCountsRequests | remote.go:355-367 | in every schedule a request is admitted exactly when fewer than cap, respectively MaxConcurrentStreams, requests hold slots |
| Admission.ChecklistMeans | remote.go:304-349 | exactly the requests with the role, neither certificate revoked, a clean and an allowed path get past the guards; each refusal has its status, in order |
| Admission.GuardsComeFirst | remote.go:304-355 | a request gets to the budgets exactly if it passes every guard |
| Admission.StatusTellsWhy | remote.go:304-382 | in every schedule a request is answered 200 exactly if it was forwarded, 503 if either budget refused it, and by the guards otherwise |
| Admission.NoRequestBlocks | remote.go:359-367 | every unfinished request has exactly one step, it is always ready (the deferred receive included), and it brings the request closer to returning |
| Admission.RefusalMeansManyCertificates | remote.go:146-153 | a full semaphore is spread over at least ceil(MaxConcurrentStreams/cap) certificates and the refused one holds fewer than cap of it |
| Admission.NoCertificateStarvesTheOthers | remote.go:351-367 | the same for every refusal in every schedule |
| Registry.RunKeepsInv | remote.go:53-112 | the invariant tying slot, install history, threads, pending closes and revocation snapshots holds in every state of every schedule |
| Registry.NoInstalledSessionIsLost | remote.go:53-64 | every session ever installed is current, closed, or about to be closed by the Set that displaced it |
| Registry.AtMostOneLive | remote.go:53-64 | with no Set in flight the only live installed session is the latest, and the registry holds it |
| Registry.GetIsTheLatestInstall | remote.go:96-103 | Get answers the latest install while it lives and otherwise nothing, in every schedule |
| Registry.ReplacedLiveIsTrue | remote.go:53-64 | Set reports a live session replaced exactly if it was open when Set looked at it, after the lock |
| Registry.DialledIsTheLatest | remote.go:217-227 | what a request has dialled is the latest install at that moment if it was open, and nothing otherwise |
| Registry.SlotCertBelongsToSlot | remote.go:53-58 | the stored certificate is the one the stored session was accepted with |
| Registry.OnlyNewerOrClosedLeavesSlot | remote.go:105-112 | a session leaves the slot only for a newer one or by its own Clear after it closed |
| Registry.OnlyOpenTunnelsAreWaitedFor | remote.go:420-441 | an accept thread can always go on, except while its session is open and there is no shutdown, and leaves the slot without its session |
| Registry.RevocationClosesOnlyTheListed | remote.go:73-88 | a revocation closes one session, which sat in the slot at the snapshot with the certificate later found listed, and was not installed after the snapshot |
| Registry.SparedOnlyWithReason | remote.go:73-88 | a revocation check that leaves the tunnel standing found the slot empty, its session closed, or its certificate not listed when it asked |
| Registry.DialReachesCheckedOrNewer | remote.go:217-227 | the session a request has dialled after its tunnel check is the checked one, its certificate not listed at the check, exactly if no Set took the lock between snapshot and dial; otherwise it was installed after the snapshot |
| Registry.UncheckedSessionCanBeDialled | remote.go:217-227 | the unchecked case happens: a tunnel listed after it was accepted, and installed after the check, has been dialled |
| RemoteProxy.SessionRegistry.Set | remote.go:53-64 | the new pair is stored, the replaced session is closed, and the result says whether it was live |
| RemoteProxy.SessionRegistry.Clear | remote.go:105-112 | empties the slot only if it still holds this session |
| RemoteProxy.SessionRegistry.CloseCurrentIfRevoked | remote.go:73-88 | closes the live session exactly when its serial is in the set the check consults, and consults (and so reloads) only for a live session with a certificate |
| RemoteProxy.Proxy.DeviceRequest | remote.go:215-383 | which guards refuse is decided exactly, the tunnel check against the cache the device check left; 403, 503, 400 and 403 answer them in order, then 200 exactly with room in both budgets and a live tunnel a stream opens on, else 503; every exit leaves both budgets as they were |
| RemoteProxy.Proxy.Forward | remote.go:217-242 | served exactly when both budgets have room, a live tunnel is registered and a stream opens; both budgets are given back |
| RaceCtx.ResultHasOneOwner | tunnel.go:183-208 | when everything has ended the result was returned and not closed, or the context won and a successful closable value was closed once |
| RaceCtx.NeverReturnedAndClosed | tunnel.go:177-208 | at no moment is a result both returned and closed, or closed twice |
| RaceCtx.SendNeverBlocks | tunnel.go:188-192 | the worker's send always has room |
| RaceCtx.AllGoroutinesEnd | tunnel.go:183-208 | until all goroutines have ended some step of theirs can run, given that work returns, and every step counts down |
| RaceCtx.SchedulesEnd | tunnel.go:183-208 | the number of steps any schedule takes is bounded |
| SessionDriver.SomethingIsDue | tunnel.go:129-169 | no deadlock: unless finished, or context and session are alive and run is running, some step is due |
| SessionDriver.SchedulesEnd | tunnel.go:129-169 | the number of steps any schedule takes is bounded |
| SessionDriver.ReceiveNeverBlocks | tunnel.go:130-136 | the receive on errCh always finds a value |
| SessionDriver.CancelledExactly | tunnel.go:129-169 | the driver reports cancelled exactly if the cancellation arm of the select ended the wait |
| SessionDriver.FinishedCleanly | tunnel.go:125-155 | a driver that returned has closed the session, its runner is done, err is nil if cancelled and run's own otherwise |
| Backoff.ComparisonIsExact | local.go:171-184 | in reached states the wrapped shift compares past max exactly when min*2^attempt does |
| Backoff.AttemptsStayBelow64 | local.go:171-184 | attempt never exceeds 63 |
| Backoff.ComparisonNeedsTheInvariant | local.go:177-181 | from an attempt that is never reached the comparison is fooled |
| Backoff.Timer.NextBase | local.go:177-184 | returns min(min*2^attempt, max) and advances only below the cap |
| Backoff.Timer.Next | local.go:149-169 | the jittered delay, never past max, no sum out of int64 |
| Backoff.Timer.ResetIfStable | local.go:186-198 | resets exactly if uptime reached min |
| Backoff.DelayBounds | local.go:151-169 | a delay is between its base and max, below base + base/5 when jitter applies, and the base itself otherwise |
| Backoff.BaseIsExact | local.go:171-184 | the delay without jitter is min*2^attempt or max, whichever is smaller, and min at first |
| Backoff.EveryDelayCanBeDrawn | local.go:149-169 | every delay within the bounds can be drawn |
| Backoff.DelaysGrow | local.go:149-184 | delays of later attempts are larger until max is reached, and then equal max |
| Backoff.ShortDelaysComeEarly | local.go:151-184 | a delay below max occurs only among the first ceil(log2(max/min)) waits |
| Backoff.LocalClient.Run | local.go:92-127 | the loop's waits and sessions are exactly the specified log |
| Backoff.EveryRoundIsLogged | local.go:96-127 | while nothing stops it the loop goes on: each round waits once, and every session is logged in order |
| Backoff.NothingAfterAStop | local.go:96-127 | a cancelled session or an interrupted wait is the end of the run |
| Backoff.RunIsPaced | local.go:96-127 | in every run each wait is at least min and at least the base for its place since the last stable session |
| Backoff.ReconnectRate | local.go:96-127 | between stable sessions at most ceil(log2(max/min)) waits are below max, none below min |
| Backoff.WaitsGrowUntilStable | local.go:96-127 | over a whole run delays grow, strictly up to max, until a stable session |
| Serials.HexTextRoundTrip | tlsconf.go:98-109 | the canonical text of a serial reads back as that serial |
| Serials.AcceptsExactlySpellings | tlsconf.go:87-103 | a text is accepted as n exactly when it spells n: outer whitespace, tag, radix mark in any case, digits with colons and spaces |
| Serials.DecoratedSerial | tlsconf.go:87-103 | every decoration of n normalises to n in base 16, leading zeros included |
| Serials.TypedSerialIsRead | tlsconf.go:87-103 | whitespace around, "serial=" and "0x" in any case, digits of either case with colons and spaces: read as the number the digits spell, computed digit by digit |
| Serials.CaseIsIgnored | tlsconf.go:87-103 | texts that differ in case only are read alike |
| Serials.NoLeadingZero | tlsconf.go:98-109 | the canonical text has no leading zero but for zero itself |
| Serials.SameCanonicalSameInteger | tlsconf.go:87-103 | two accepted texts normalise equally exactly when they denote one integer |
| Serials.CanonicalIdempotent | tlsconf.go:87-103 | normalising twice is normalising once |
| Serials.PromiseKeptExactly | tlsconf.go:54-109 | the documented reading, which ignores colons, whitespace and the leading marks, is what the code reads exactly if inner whitespace is spaces only and no separator stands before or inside a mark; every other text is refused |
| Serials.InnerWhitespaceIsRefused | tlsconf.go:54-58 | any inner whitespace character but a space makes a serial unreadable |
| Serials.SeparatedRadixIsRefused | tlsconf.go:97-100 | so does any run of spaces and colons between the tag and the radix mark |
| RevokedFile.LoadRevokedSerials | tlsconf.go:59-85 | an empty path gives the empty set; otherwise the scan loop yields exactly the file's denylist, or an error exactly when the file or some line is unreadable |
| RevokedFile.RefusedExactly | tlsconf.go:59-85 | a file is refused exactly if it cannot be read or has a line that is too long, or neither blank, nor a comment, nor a spelling of some serial |
| RevokedFile.FoundExactlyWhenListed | tlsconf.go:59-109 | a certificate is in the loaded set exactly when some line spells its serial |
| RevokedFile.LinesLoseNothing | tlsconf.go:69-70 | the scanned lines contain no newline and joined again are the text |
| RevocationList.NewRevocationList | tlsconf.go:136-149 | no list for an empty path, an error for an unreadable file, otherwise the loaded set with the later stamp |
| RevocationList.List.IsRevoked | tlsconf.go:156-169 | the stamp moved and the file loads: set and stamp are the new ones; otherwise both are kept; the answer is membership in the set then held |
| RevocationList.CallIsTheMethod | tlsconf.go:156-169 | the call of the interleaved machine, with edits between stat and load, leaves the cache and gives the answer the method promises |
| RevocationList.RunKeepsInv | tlsconf.go:136-169 | with edits at any point the held set is never older than the version its stamp names, and never goes back |
| RevocationList.AnswersFromTheFile | tlsconf.go:151-169 | if stat and any attempted load succeed, the answer is membership in a version on disk during the call |
| RevocationList.FailedReloadIsRetried | tlsconf.go:151-169 | otherwise, the stat or the load having failed, the answer comes from the last loaded version; the next successful stat loads exactly if the stamp moved, which after a failed load it did |
| RevocationList.ConstructionIsSoundUnlessItOverlapsAnEdit | tlsconf.go:140-147 | construction establishes the invariant exactly if its stat failed or no edit fell inside it |
| RevocationList.OverlappedConstructionStaysStale | tlsconf.go:140-169 | otherwise the stale set answers until the next edit |
| Config.Target.OverlayDurations | config.go:140-185 | the rows are overlaid in order up to the first malformed one |
| Config.AllRowsOverlaid | config.go:140-163 | every text reaches its own field and no other changes |
| Config.EveryKeyItsOwnField | config.go:140-218 | each key decides the field of its own name, and an absent key keeps it |
| Config.Target.UnmarshalJSON | config.go:165-218 | succeeds exactly if every duration parses, and then overrides exactly the present keys; an error names the first malformed duration and leaves the fields read before it overridden |
| Config.Validate | config.go:220-268 | no problem exactly for valid configurations; otherwise the first justified complaint in the order of the source |
| Config.LoadConfig | config.go:94-114 | a returned configuration is the defaults, overridden at the present keys, and valid (positive timeouts and limits, ordered backoff bounds, rooted paths), also without a file; every error returns the zero configuration and says which stage failed |
| Startup.StartRemote | main.go:99-162 | a remote starts exactly with a loadable configuration, a tunnel identity and a non-empty allowlist; the flag beats the file and changes nothing else; a refusal names the first of these that is missing |
| Startup.RemoteForwardsOnlyStablePaths | main.go:148-162 | everything a started remote forwards extends an allowed prefix and survives the backend's resolution |
| Startup.RemoteAdmitsFairly | main.go:148-156 | a started remote can admit, and saturates only across certificates when a cap is set |
| Startup.ClientReconnectsWithinBounds | main.go:113-138 | every wait of a client with a loaded configuration is within its bounds |
| Updater.OnlyCheckedImages | scripts/update-image.sh:41-99 | whatever commands do and wherever runs are killed, both references hold first or checked images and a non-empty digest file names the first image or a checked one found active |
| Updater.InstalledMeansVerified | scripts/update-image.sh:41-80 | for an image in either reference that was not there first, the history has the step that verified its signature, in a run in which the key was found, the tar downloaded and the published checksum was its own |
| Updater.DigestMeansActive | scripts/update-image.sh:41-84 | a new non-empty digest is that of such an image, for which the history also has a health check that found the service active |
| Updater.HealthyMeansRan | scripts/update-image.sh:77-82 | if imports and restarts that exit 0 took effect, the image found active really ran |
| Updater.VouchedForExactlyIfImported | scripts/update-image.sh:77-82 | an image passing the health check for the first time really ran exactly if, after an effective restart, the import had left the image reference at it |
| Updater.SilentImportFoolsTheHealthCheck | scripts/update-image.sh:77-82 | an import without effect lets the digest name an image that never ran |
| Updater.AgreementAfterEveryRun | scripts/update-image.sh:41-99 | from agreement, if imports and rollback tags tell what they did and no run is left half way, digest file and image reference agree after every run, updated or rolled back; the snapshot may fail silently |
| Updater.HalfWayMeansDisagreement | scripts/update-image.sh:77-99 | the condition is exact: with such commands, a run loses agreement exactly at the step that leaves it half way (killed or stopped behind its import, or rolled back to a stale snapshot) |
| Updater.CompletedUpdateAgrees | scripts/update-image.sh:41-85 | from any host, an update that writes its digest ends in agreement if its import took effect: it heals a run left half way |
| Updater.RollbackRestores | scripts/update-image.sh:87-94 | from any idle host, whatever happened before, if a rollback tag that exits 0 moved the reference: a completed rollback keeps the digest and puts back the image its run found exactly if the snapshot was taken or the older one is of the same image, and otherwise the older snapshot |
| Updater.SnapshotDecides | scripts/update-image.sh:75 | the snapshot step, whose failure is ignored: the rollback reference is the image found exactly if the tag took effect or it was that image before |
| Updater.SilentSnapshotRollsBackTooFar | scripts/update-image.sh:75-94 | a silently failed snapshot makes a completed rollback bring back the stale image |
| Updater.RollbackStaysGood | scripts/update-image.sh:75-94 | as long as no run ends with its image neither found healthy nor taken back, the rollback reference only holds first or healthy images, and so does the image reference between runs; snapshots may fail, a rollback tag that exits 0 moved the reference and a failed import did not |
| Updater.UnprovenMeansNotGood | scripts/update-image.sh:77-94 | the condition is exact: the last step of a run leaves a good image exactly if it does not leave an unproven one |
| Updater.RollbackHoldsWhatTheRunFound | scripts/update-image.sh:75-78 | from its import on, with no assumption on any command, a run's rollback reference is the very image the run found, good or not, exactly if the snapshot was taken or was that image already, and the older one otherwise |
| Updater.KilledUpdateLosesTheGoodImage | scripts/update-image.sh:75-78 | from any host with an image, a run killed behind its import and the import of the next one leave, with honest commands, no good image in either reference |
| UpdateScript.Updating.Update | scripts/update-image.sh:41-99 | one uninterrupted run changes the host exactly as the machine does; nothing changes if any check of digest, key, checksum or signature fails; it exits 0 exactly if up to date or updated, and then signature and health check were good and the digest is the new one |

## Left out

- TLS handshakes, X.509 parsing and key loading: a peer is a serial number and a set of organizational units; the tunnel's pinned-name check is not modelled.
- yamux and websocket internals: a session is an identity with a closed flag that never goes back; opening a stream succeeds or fails arbitrarily.
- http.Transport's connection pool: every forwarded request dials.
- httputil.ReverseProxy, response streaming, MaxBytesReader and the stream deadline: a forwarded request serves until it finishes.
- JSON decoding and time.ParseDuration: a decoded record of optional, parsed or malformed values is the input.
- PathClean.Clean: the lazily allocated buffer of Go's implementation is an array from the start; path.Clean itself is library code outside the repository.
- Bytes and Unicode: text is ASCII characters.
- RevocationList.AnswersFromTheFile: a read sees one whole version of the file, and stamps (modification time and size) identify versions.
- RevokedFile.LoadRevokedSerials: lines are cut from the text at once instead of being scanned from a stream; an I/O error makes the whole file unreadable.
- RemoteProxy.Proxy.DeviceRequest: one request without interleaving; the proxied request itself has no effect on the model. Interleaving is in Admission and Registry.
- RaceCtx.AllGoroutinesEnd: that the work function returns is assumed, as in the source's comment.
- SessionDriver.SomethingIsDue: that run returns once its session is closed is assumed.
- UpdateScript.Updating.Update: the sleeps, the logging and the temporary directory; kills are in Updater.
- Logging, flag parsing, signals, the PKI, CloudFormation, systemd, Docker and release scripts.
