# Restream_Plus: a verified model of its core

Restream_Plus takes one RTMP feed and pushes it to several platforms, one
supervised ffmpeg worker per target and role. This project models the parts of
it that carry state and arithmetic, and proves what they guarantee over every
run. `dafny verify dfyconfig.toml` checks all of it.

## What is modelled

**The worker lifecycle** (`WorkerStates`, `Backoff`, `CircuitBreaker`,
`Lifecycle`, `WorkerTheorems`, `WorkerBreaker`, `WorkerOutcomes`, `WorkerStops`,
`FFmpegWorker`).
The lifecycle coroutine, the stdout pump and the callers of `user_reset`, `stop`
and `snapshot` are cut at their awaits into atomic actions; a run is any
interleaving of them under a clock that never goes back. `FFmpegWorker` is the
object with its fields updated in place, method by method equal to the actions.
The main result composes backoff and breaker: every announced FAILED_OPEN
follows at least four announcements of RUNNING within the five minutes before
the failure that opened the breaker, and four can be enough. A target that never
comes up is therefore never failed open; its window shows at most twelve
failures, and after 1025 failures in a row, more than thirteen hours, the task
dies of the float overflow in the backoff instead. Exactly which exits are
followed by FAILED_OPEN is read off the run: those with thirty failures in five
minutes since the last healthy minute and the last user reset.

**Streaming text** (`Rewriting`, `TailExpression`, `TailPass`, `Lines`,
`RedactionSink`, `ScanEnd`, `StraddlingUrl`, `SentText`, `LogRedaction`,
`LongestFirst`, `ProgressParser`). The redaction passes are a leftmost,
non-overlapping rewriting; the tail pattern's greedy matcher is proved to be the
regular expression, with its characters written out. `feed` terminates for
every RTMP URL of any length, by a weight that every forced split lowers
although the buffer may grow. Which URLs and secrets a pass can leave behind,
and when a forced split parts a URL, is characterised exactly. A byte is written
as the character of its code.

**The supervisor and event delivery** (`RunStates`, `SupervisorModel`,
`SupervisorTheorems`, `Spawning`, `SupervisorSteps`, `SecretCoverage`,
`LateEnables`, `Supervisor`, `EventBus`, `Delivery`). Each method that holds the
supervisor's lock is one step, with spawns and writes that may fail, and so is a
crash followed by a boot. Delivery runs from the supervisor's change of state
over the drop-oldest bus, the broadcaster and the client queues to the browser's
reducer.

**Passphrase rotation** (`KeyMaterial`, `Rotation`, `RotationTheorems`). A
protocol over three salt files, one transaction and the keys in memory, which an
exception or the death of the process may end at any stage. Encryption is ideal
in the sense of section 7 of NIST SP 800-38D; key derivation is any
deterministic function.

**The login limiter** (`RateLimiter`) shares the window lemmas (`SlidingWindow`)
with the breaker.

## Where the code differs from its documentation

- `app/fanout/redaction.py:92-99` says the consumer never sees a half-redacted
  URL. A URL across the edge of the window stays whole if no match replaced in
  the window reaches into its front and the redacted text before it is still
  4096 bytes long, and only then, save for a URL that overlaps itself and ends
  with a placeholder (`StraddlingUrl.StraddlingUrlStaysWhole`). Redaction can
  shrink that text: a URL that stands twice in one overlong line goes out in
  clear, over two lines (`StraddlingUrl.UrlTwiceInOneLine`,
  `StraddlingUrl.KeyBehindPathGoesOut`). Where no
  placeholder can complete the URL, such shrinking is the only way within a line
  of any length: without it all that is sent, read end to end, does not hold the
  URL (`SentText.StreamHidesUrl`).
- `app/fanout/redaction.py:7-9` counts on the literal pass to replace the URL. A
  line can still leave the whole URL if, and only if, the placeholder can
  complete the URL and the tail pattern does not match in it, as with
  `rtmp://a/b/key*` (`RedactionSink.UrlSurvivesExactlyIf`).
- `app/auth/rate_limit.py:68-70` says `retry_after` ends when a slot opens. With
  attempts that overlap a bucket can hold more than the limit, and then it need
  not (`RateLimiter.OverlappingAttemptsOverfill`); the exact condition is
  `RateLimiter.RetryAfterIsExactIff`.
- `app/api/security_api.py:301-308` says a restart with the new passphrase reads
  the credentials when the salt rename failed. It does not, as the restart reads
  the old salt (`RotationTheorems.RestartReadsUnlessBetween`), and the handler
  has by then unlinked the file with the new one, so that only the copy in the
  log is left (`RotationTheorems.RenameFailureLosesTheSalt`).
- `app/fanout/supervisor.py:364-366` enables a target only while the run is
  active, but tests that before it has the lock. Testing again under the lock is
  exactly what is missing (`LateEnables.TestUnderLockSuffices`): a stop in
  between leaves a worker running in OFFLINE
  (`LateEnables.EnableAcrossStopLeavesWorker`), where after the next start
  disabling its target may not reach it
  (`LateEnables.LeftWorkerEscapesDisable`).
- `app/fanout/supervisor.py:320-321` and `343-344` have credentials for one run
  deleted on every path. Only a stop deletes them
  (`SupervisorTheorems.OnlyStopsWipe`): a start that fails late closes its
  session and leaves them (`SupervisorTheorems.FailedStartKeepsKey`).
- `app/fanout/supervisor.py:469-472` says a failed spawn unregisters its secret
  cleanly. It also unregisters it for a live worker with the same secret, as the
  two roles of one target have
  (`SecretCoverage.SpawnCoversUnlessSharedRollback`).
- `app/domain/run_state.py:46` has a transition out of ERROR that nothing takes
  (`SupervisorTheorems.ErrorIsFinal`).

## Model

| member | source | states |
|---|---|---|
| SlidingWindow.EvictIsFilter | app/domain/circuit_breaker.py:82-85 | popping expired entries off the left keeps exactly what a filter of the whole sorted deque keeps |
| SlidingWindow.RetainsIsExact | app/auth/rate_limit.py:171-174 | a deque trimmed at earlier cut-offs answers every later cut-off as the full log would |
| SlidingWindow.LiveCount | app/auth/rate_limit.py:171-174 | of a sorted log at least n entries are live if and only if the n-th from the end is younger than the cut-off, or as old and kept at the edge, as the breaker does and the limiter does not |
| CircuitBreaker.Breaker.EvictOldInPlace | app/domain/circuit_breaker.py:82-85 | the popping loop leaves the evicted deque |
| CircuitBreaker.Breaker.RecordFailure | app/domain/circuit_breaker.py:45-48 | evicts, appends the failure and re-arms the healthy timer |
| CircuitBreaker.Breaker.RecordHealthy | app/domain/circuit_breaker.py:50-62 | starts the timer, or clears the failures once the stretch is long enough |
| CircuitBreaker.Breaker.ShouldOpen | app/domain/circuit_breaker.py:64-70 | the verdict is OPEN exactly when the window holds the maximum of failures or more |
| CircuitBreaker.HealthyClearsExactly | app/domain/circuit_breaker.py:50-62 | in every history a healthy call clears exactly when 60 s have passed since the first healthy call after the last failure or reset |
| CircuitBreaker.RefinesLog | app/domain/circuit_breaker.py:41-86 | after any calls under a clock that never goes back, the deque counts exactly the unbounded log's failures of the last window, so the count is that of the log, and the verdict is OPEN if and only if the log ends in thirty failures none of them older than the window |
| Backoff.DelayBounds | app/fanout/backoff.py:28-54 | a delay exists exactly below attempt 1024 and lies within 20% of the capped exponential |
| Backoff.DelayIsExact | app/fanout/backoff.py:45-54 | the delay is 1, 2, 4, 8, 16 or 32 seconds for the first six attempts and 60 for any later one below 1024, times 0.8 + 0.4 r |
| Backoff.DebtBounded | app/fanout/backoff.py:45-54 | the schedule falls at most 237.6 s behind a steady 48 s per attempt, and never catches up |
| Lifecycle.StepKeepsInv | app/fanout/ffmpeg_worker.py:290-402 | every action of every task keeps the lifecycle invariant: legal suspension points, event path, breaker suffix, pace of failures, attempt numbering |
| WorkerTheorems.EventsAreALegalPath | app/fanout/ffmpeg_worker.py:575-604 | in every run the state events are one connected path, out of twelve listed moves, from IDLE to the present state; the refused and mismatched branches of `_set_state`, and the early return of `_apply_reconnect_verdict` on a refusal, are never met |
| WorkerTheorems.LegalMovesAreListed | app/domain/worker_state.py:49-89 | the table leads from one state to another in exactly twelve ways |
| WorkerTheorems.SpawnsOnlyWhenDue | app/fanout/ffmpeg_worker.py:300-303 | a spawn begins only in STARTING or RECONNECTING and never after a stop request |
| WorkerTheorems.FailuresPerWindow | app/fanout/ffmpeg_worker.py:300-356 | the failures of one window are bounded by 48(n-1) <= 300 + 237.6(1 + entries into RUNNING); without an entry there are at most twelve |
| WorkerTheorems.FailedOpenNeedsFourRuns | app/fanout/ffmpeg_worker.py:311-348 | in every run each announced FAILED_OPEN follows four announcements of RUNNING within the five minutes before the failure that opened the breaker, which was met when that event or the one before it was sent; a worker that never runs is never failed open |
| WorkerBreaker.BreakerGetsItsCalls | app/fanout/ffmpeg_worker.py:273-494 | in every run the worker's breaker is what these calls make of it, and no others: each frame healthy, each exit not asked for a failure and then a query, each snapshot a query, each user reset in FAILED_OPEN a reset |
| WorkerBreaker.HealthyMinuteClears | app/fanout/ffmpeg_worker.py:493-494 | in every run a frame empties the breaker if and only if an earlier frame of the same spawn lies at least sixty seconds back, and leaves the failures as they were otherwise |
| WorkerBreaker.CountIsExact | app/fanout/ffmpeg_worker.py:191-205 | in every run a snapshot counts exactly the failures of the last five minutes since the last healthy minute and the last user reset |
| WorkerBreaker.FailedOpenExactly | app/fanout/ffmpeg_worker.py:300-356 | in every run, an exit met in RECONNECTING is followed by FAILED_OPEN if and only if thirty failures of the last five minutes came after the last healthy minute and the last user reset, and by the delay of its attempt otherwise |
| WorkerBreaker.AnnouncedExactly | app/fanout/ffmpeg_worker.py:311-356 | the same for an exit met in STARTING or RUNNING, once RECONNECTING is announced, whatever other tasks did meanwhile |
| WorkerOutcomes.CountIsBoundedByRuns | app/fanout/ffmpeg_worker.py:191-205 | the failure count in any snapshot is bounded by the entries into RUNNING since the oldest failure counted, and is at most twelve without any |
| WorkerOutcomes.FourRunsCanSuffice | app/fanout/ffmpeg_worker.py:311-340 | FAILED_OPEN is reachable with exactly four entries into RUNNING, so the bound is tight |
| WorkerOutcomes.RetryDiesExactlyAt1024 | app/fanout/ffmpeg_worker.py:349-356 | a failure kills the lifecycle task if and only if the attempt counter has reached 1024 |
| WorkerOutcomes.DeathTakesALongOutage | app/fanout/backoff.py:45-54 | a dead task has seen 1025 failures in a row without a run, over at least 48914.4 s |
| WorkerOutcomes.LongOutageKillsTheTask | app/fanout/ffmpeg_worker.py:349-356 | such an outage does kill the task, in RECONNECTING with the breaker closed |
| WorkerStops.StopSettlesUnlessLost | app/fanout/ffmpeg_worker.py:333-371 | however frames, snapshots and resets interleave, and whatever the jitter, a stopped task can be resumed until it ends in IDLE, after at most four resumptions, if and only if the stop was not lost; a lost one comes to rest in FAILED_OPEN |
| WorkerStops.StopBeforeStartIsForgotten | app/fanout/ffmpeg_worker.py:216-235 | a stop requested before the worker is started is forgotten, and it spawns |
| WorkerStops.LostStopCanBeWoken | app/fanout/ffmpeg_worker.py:273-284 | a user reset or another stop brings a task with a lost stop back to three resumptions from its end |
| WorkerStops.StopCanBeLost | app/fanout/ffmpeg_worker.py:335-339 | a stop sent while FAILED_OPEN is announced leaves the task parked with its wake-up cleared |
| FFmpegWorkers.FFmpegWorker.constructor | app/fanout/ffmpeg_worker.py:117-164 | a new worker is the initial state, with a fresh breaker |
| FFmpegWorkers.FFmpegWorker.Start | app/fanout/ffmpeg_worker.py:216-235 | clears both events and launches the loop if none is running, and changes nothing otherwise |
| FFmpegWorkers.FFmpegWorker.SetStateVia | app/fanout/ffmpeg_worker.py:575-604 | sends the verified transition, or warns and carries on, as the lifecycle step does |
| FFmpegWorkers.FFmpegWorker.ContinueWith | app/fanout/ffmpeg_worker.py:298-402 | what the loop does between two awaits equals the lifecycle continuation |
| FFmpegWorkers.FFmpegWorker.OnFrame | app/fanout/ffmpeg_worker.py:477-495 | a progress frame of a running process leaves the worker in RUNNING with no attempts, and reports health to the breaker |
| FFmpegWorkers.FFmpegWorker.OnSpawnEnded | app/fanout/ffmpeg_worker.py:301-332 | an ended spawn is recorded, judged and routed as the lifecycle step says |
| FFmpegWorkers.FFmpegWorker.Retry | app/fanout/ffmpeg_worker.py:273-284 | clears breaker and attempts and sets the wake-up, in FAILED_OPEN only |
| FFmpegWorkers.FFmpegWorker.RequestStop | app/fanout/ffmpeg_worker.py:247-260 | sets the stop flag and the wake-up |
| Rewriting.MatcherIsTheExpression | app/fanout/redaction.py:49 | the greedy matcher matches exactly when the regular expression does at the front, in the only possible way, with the longest key |
| TailExpression.ProperIsMatched | app/fanout/redaction.py:49 | for either scheme, any host and path without slash and without the six white-space characters, and any key of eight or more of the 64 characters written out, as long as it goes, the match keeps what precedes the key and takes the whole of it |
| TailExpression.MatchedIsProper | app/fanout/redaction.py:49 | whatever is matched is such a stretch |
| TailExpression.TailPassReplacesKeys | app/fanout/redaction.py:141 | the pass copies what precedes the first such stretch, and the stretch up to its key, puts the placeholder, and goes on behind the key |
| TailExpression.TailPassKeepsOthers | app/fanout/redaction.py:141 | a text without such a stretch is left unchanged |
| TailExpression.RedactedLineHasNoStretch | app/fanout/redaction.py:136-141 | no redacted line holds such a stretch, whosever key it was |
| TailExpression.OtherKeysAreReplaced | app/fanout/redaction.py:136-141 | in a line without the worker's own URL the first such stretch keeps its path and loses its key |
| Rewriting.PassRemoves | app/fanout/redaction.py:136-141 | one literal pass removes every occurrence of a word that cannot overlap a placeholder, and no pass brings an absent one back |
| Rewriting.RemovesExactlySeparable | app/fanout/redaction.py:136-141 | a literal pass removes its word from every text if and only if the word can overlap a placeholder in no way |
| TailPass.TailPassIdempotent | app/fanout/redaction.py:49 | the output of the tail pass holds no match, so a second pass changes nothing |
| Lines.SplitIsExact | app/fanout/redaction.py:91-125 | cutting at newlines loses nothing and leaves no newline in a line |
| Lines.SplitConcat | app/fanout/redaction.py:102-125 | lines may be cut off chunk by chunk |
| RedactionSink.RedactedLineHidesUrl | app/fanout/redaction.py:136-141 | no redacted line contains the worker's URL, unless that has no tail match of its own and agrees with the placeholder from one of its characters on |
| RedactionSink.RedactLineIdempotentExactlyUnless | app/fanout/redaction.py:115-119 | redacting re-buffered redacted text changes nothing, for exactly the same URLs |
| RedactionSink.UrlSurvivesExactlyIf | app/fanout/redaction.py:136-141 | some line leaves the URL in its redaction if and only if that condition holds; the line is constructed |
| RedactionSink.RewriteIsLighter | app/fanout/redaction.py:136-141 | a pass makes no text heavier, whatever follows it, although it may make it longer |
| RedactionSink.SplitIsLighter | app/fanout/redaction.py:109-121 | every forced split lowers the weight of the buffer, for every URL of 14 bytes or more or with a character outside the placeholder, hence for every RTMP URL |
| RedactionSink.Sink.Feed | app/fanout/redaction.py:83-126 | the loop ends and returns the lines, and leaves the buffer, of the drain of the old buffer with the new data |
| RedactionSink.Sink.ForceSplit | app/fanout/redaction.py:111-121 | sends the first 4096 redacted bytes of the window and puts the rest back |
| RedactionSink.Sink.Flush | app/fanout/redaction.py:128-134 | sends the redacted remainder, if there is one, and empties the buffer |
| RedactionSink.DrainIsClean | app/fanout/redaction.py:83-126 | after any feed the buffer is one unfinished line, shorter than 4096 bytes and the length of the URL, and no line sent out holds a newline or a URL that cannot survive |
| RedactionSink.ForcedSplitsAreCapped | app/fanout/redaction.py:36-121 | without a newline lines go out if and only if 4096 bytes and the length of the URL are buffered, and they have at most 4096 bytes |
| RedactionSink.ChunkingDoesNotMatter | app/fanout/redaction.py:83-134 | for every stream of short enough lines and every chunking, feeding and flushing redacts the lines of the stream |
| RedactionSink.LinesAreClean | app/fanout/redaction.py:83-134 | for every stream and every chunking no single line sent out holds a newline or the whole of a URL that cannot survive |
| ScanEnd.EndIsSpared | app/fanout/redaction.py:136-141 | an end of the text that no replaced match reaches is copied, and what precedes it is rewritten as if alone |
| StraddlingUrl.StraddlingUrlStaysWhole | app/fanout/redaction.py:92-119 | over all windows, a URL over the edge stays whole if no replaced match reaches into its part inside and the text before, once redacted, is still as long as the line sent out; and only if so, unless a replaced copy overlaps it and the URL ends with a placeholder |
| StraddlingUrl.ShrunkWindowPartsUrl | app/fanout/redaction.py:109-121 | where the redacted text before it is shorter, the URL's front ends the line sent out and its rest begins the buffer |
| StraddlingUrl.PartedUrlIsSent | app/fanout/redaction.py:111-134 | the rest of a parted URL, if no colon is left in it, then goes out as it is |
| StraddlingUrl.UrlTwiceInOneLine | app/fanout/redaction.py:109-134 | so it goes with every URL that stands twice in one overlong line, its front without match reaching more than 14 bytes into the window |
| StraddlingUrl.KeyBehindPathGoesOut | app/fanout/redaction.py:92-99 | for every key behind a path such as rtmp://live.twitch.tv/app/ the second line out ends with the whole key |
| SentText.SentPrefixIsOld | app/fanout/redaction.py:106-134 | whatever text that meets no placeholder the output of a buffer begins with, the buffer begins with |
| SentText.StreamHidesUrl | app/fanout/redaction.py:83-134 | for every stream without a newline and every chunking, all that is sent, end to end, does not hold a URL that meets no placeholder, unless some forced split has shrunk the text before a URL over its edge |
| LogRedaction.CredentialRegistry.Register | app/logging_setup.py:89-98 | adds a secret of at least twelve characters and refuses any other |
| LogRedaction.RedactString | app/logging_setup.py:177-193 | the loop takes each secret once, the longest first, and its result is that of the passes in that order; it leaves none of the given secrets that are separable, or have twelve characters and no star, and leaves a text without secrets alone |
| LogRedaction.RedactWith | app/logging_setup.py:141-151 | with the secrets on the registry, longest first, no secret without a star that it has accepted is left |
| LogRedaction.NoSecretIsLeft | app/logging_setup.py:177-193 | in any order of the passes, nested or overlapping, no listed separable secret is left |
| LogRedaction.SafeExactlyIfSeparable | app/logging_setup.py:58-69 | a secret is safe in every text and beside any other secrets if and only if it is separable, as every one of twelve characters or more without a star is |
| LogRedaction.LongestFirstLeavesNoTail | app/logging_setup.py:180-186 | longest first, the first place of the longer secret in any text becomes one placeholder whatever shorter secret it contains, and both sides of it are redacted on their own |
| LogRedaction.ShortestFirstLeavesTail | app/logging_setup.py:180-186 | the other way round, what extends the shorter secret stays behind its placeholder |
| LongestFirst.LongestBecomesOne | app/logging_setup.py:180-186 | with any number of secrets, longest first, a place where a secret stands and no other of its length or more stands across its ends becomes one placeholder, and both sides are redacted on their own |
| LongestFirst.TextAroundIsKept | app/logging_setup.py:180-193 | if the sides hold no secret, they are kept as they are |
| ProgressParser.Parser.Feed | app/fanout/progress_parser.py:105-150 | the loop yields the frames, state and error of the drain |
| ProgressParser.Parser.TakeLine | app/fanout/progress_parser.py:133-150 | stores an interesting pair, and at a progress line closes the frame |
| ProgressParser.LineIsKeyAndValue | app/fanout/progress_parser.py:134-140 | a line without an equals sign is passed over; otherwise what precedes the first one is the key and what follows, up to the carriage returns at its end, the value, for eight keys and no others |
| ProgressParser.ProgressLineCloses | app/fanout/progress_parser.py:141-156 | a progress line takes the pairs held and its own into a frame if its value is continue or end, and drops them otherwise; any other line of interest replaces an earlier value |
| ProgressParser.FailsExactlyIfTooLong | app/fanout/progress_parser.py:120-132 | a feed fails if and only if more than 256 bytes stand behind the last newline |
| ProgressParser.NeverTooManyPairs | app/fanout/progress_parser.py:141-145 | for every input at most eight keys are held, so the error for too many pairs cannot be raised |
| ProgressParser.ParseIsFramesOf | app/fanout/progress_parser.py:133-166 | each frame holds the last value of each key since the progress line before |
| ProgressParser.ChunkingDoesNotMatter | app/fanout/progress_parser.py:105-150 | for every stream of lines up to 256 bytes and every chunking, the frames are those of its lines and no error is raised |
| RateLimiter.LoginRateLimiter.Check | app/auth/rate_limit.py:120-151 | each bucket becomes exactly the recorded failures in the window, the attempt is allowed when both hold fewer than the limit, and the new tables and decision are those of the value model |
| RateLimiter.LoginRateLimiter.RecordFailure | app/auth/rate_limit.py:153-163 | the failure joins both logs and both pruned buckets, as in the value model |
| RateLimiter.RetryAfterIsExactIff | app/auth/rate_limit.py:138-151 | for buckets of any size a check one second before `retry_after` is over is denied, and one then is allowed if and only if each bucket has so many entries expired by then that fewer than the limit are left |
| RateLimiter.SequentialAttemptsAreExact | app/auth/rate_limit.py:120-163 | after any sequence of logins that do not overlap, at any later check each bucket holds exactly the failures of the window, never more than the limit, and a denial's `retry_after` is exact to the second |
| RateLimiter.OverlappingAttemptsOverfill | app/auth/rate_limit.py:144-163 | for every limit and window over ten seconds, one check more than the limit, all let in, followed by as many failures overfill a bucket of a new limiter, and `retry_after` is then too short |
| KeyMaterials.KeyMaterial.Unlock | app/auth/key_material.py:153-192 | derives the keys once, refuses an empty passphrase, ignores later ones, and is locked again if the derivation raises |
| KeyMaterials.KeyMaterial.VerifyPassphrase | app/auth/key_material.py:206-237 | true exactly for a non-empty passphrase that derives all keys held |
| KeyMaterials.KeyMaterial.RotateInPlace | app/auth/key_material.py:239-265 | swaps salt and keys together, or neither |
| Rotation.Server.constructor | app/auth/key_material.py:305-335 | a boot derives the keys from the salt file, or from a salt it draws and writes there |
| Rotation.Server.StageFiles | app/api/security_api.py:226-232 | keeps the old salt beside and stages the new one, up to the stage reached |
| Rotation.OpensExactly | app/crypto/aead.py:68-79 | a row opens to a plaintext if and only if it was sealed of it with this key, the nonce the row holds, and the discriminator followed by the row's sixteen-byte salt |
| Rotation.Server.RewrapRows | app/api/security_api.py:247-286 | re-wraps and counts every row, or stops at a row that does not open; each row's new ciphertext is sealed under the new key with just the nonce drawn for it and the discriminator followed by the salt drawn for it, both stored, and its plaintext and the rest of the row are as before |
| Rotation.Server.Rotate | app/api/security_api.py:202-319 | disk, memory and counts after a rotation that ends normally, by exception or by death at any stage |
| RotationTheorems.FinishedRotation | app/api/security_api.py:246-312 | every row is sealed anew so, opens under the new key to its old plaintext with all else untouched, sessions and tokens are empty, the old salt is kept beside the new, and a restart derives the very keys in memory |
| RotationTheorems.NoNonceIsReused | app/api/security_api.py:269-286 | with new draws no row keeps a nonce or salt that any row had, and no two rows share one |
| RotationTheorems.UnreadableRowRollsBack | app/api/security_api.py:256-268 | one undecryptable row leaves rows, sessions, tokens, salt and keys as they were |
| RotationTheorems.ExceptionBeforeCommit | app/api/security_api.py:226-319 | an exception up to the commit changes none of them and leaves a consistent state |
| RotationTheorems.CrashIsRecoverable | app/api/security_api.py:226-319 | wherever it ends, except at a failed rename, all rows open under one key whose salt is in one of the three files |
| RotationTheorems.RenameFailureLosesTheSalt | app/api/security_api.py:294-319 | the salt files suffice to recover the secrets if and only if the rename did not raise |
| RotationTheorems.RestartReadsUnlessBetween | app/api/security_api.py:291-319 | however a rotation ended, a restart with the passphrase then due reads every row if and only if it did not end between commit and rename |
| RotationTheorems.SecondRotationKeepsSaltIff | app/api/security_api.py:226-319 | a rotation tried after a death there, however it ends, keeps the only copy of the new salt if and only if it ends before its own staging replaces that file |
| RotationTheorems.ChainKeepsSecrets | app/api/security_api.py:196-319 | any number of rotations that finish, fail early or die anywhere but between commit and rename, with restarts, keeps a consistent state under the passphrase last set and every plaintext |
| SupervisorTheorems.StepKeepsInv | app/fanout/supervisor.py:241-385 | every step keeps the books, the sessions and the published path |
| RunStates.MovesAreListed | app/domain/run_state.py:37-53 | the table leads from one run state to another in exactly thirteen ways |
| SupervisorTheorems.BooksAlwaysAgree | app/fanout/supervisor.py:241-540 | over every sequence of steps workers, secrets and index agree, nothing is registered without a live owner, OFFLINE and ERROR have no workers, and published changes are one legal path |
| SupervisorTheorems.AtMostOneOpenSession | app/fanout/supervisor.py:633-646 | while closing writes succeed at most one session row is open, and it is the current one |
| SupervisorTheorems.LostCloseLeavesTwoOpen | app/fanout/supervisor.py:347-348 | one suppressed failure of a closing write lets two rows be open |
| SupervisorTheorems.ClosedRowsAreFinal | app/repositories/sessions_history.py:87-113 | a closed row never changes again |
| SupervisorTheorems.BootRecovers | app/db/schema_init.py:363-417 | a boot closes every open row at its start time and touches no other |
| SupervisorTheorems.ErrorIsFinal | app/domain/run_state.py:46 | only a restart of the process leads out of ERROR |
| SupervisorTheorems.OnlyStopsWipe | app/fanout/supervisor.py:612-629 | a step deletes a stored credential if and only if it stops an active run, its wipe succeeds, and the target is cached with a credential for one run |
| SupervisorTheorems.FailedStartKeepsKey | app/fanout/supervisor.py:303-314 | a start that fails late closes its session row and keeps such a credential, and no step short of a restart deletes it |
| Spawning.PairSpawned | app/fanout/supervisor.py:443-495 | spawning a target raises if and only if some worker it asks for, one or a backup exactly for YouTube with backup, is not running and cannot be started; otherwise exactly the missing ones are added with its key |
| Spawning.PairsSpawned | app/fanout/supervisor.py:278-287 | over all targets the loop adds exactly the workers asked for, and raises if and only if one that is missing cannot be started |
| Spawning.StartSpawnsAll | app/fanout/supervisor.py:241-302 | a start outside OFFLINE is refused; one in OFFLINE raises if and only if session, targets, audit row or a worker asked for fails; if not, it is ARMED with exactly the workers of the enabled targets that have a key, each with that key, exactly those keys registered, and the targets cached |
| Spawning.EnableSpawnsTarget | app/fanout/supervisor.py:364-380 | in an active run exactly the missing workers of the target are added, with its key, unless one cannot be started, and then it raises; nothing happens otherwise |
| SupervisorSteps.FailedStartLeavesNothing | app/fanout/supervisor.py:303-314 | a start that raises leaves no worker, secret or registered key, goes to ERROR, and closes the row it opened with its time and the reason error, if that write succeeds |
| SupervisorSteps.StopLeavesNothing | app/fanout/supervisor.py:316-358 | a stop of an active run leaves none either, closes the current row with its time and reason, deletes exactly the credentials for one run, and publishes STOPPING and OFFLINE; any other stop changes nothing |
| SupervisorSteps.DisableLeavesOthers | app/fanout/supervisor.py:382-385 | a disable leaves no worker of its target and exactly the others, and strikes exactly the keys of those stopped |
| SupervisorSteps.PublishSignals | app/fanout/supervisor.py:399-417 | the publish signals move an active run between ARMED and LIVE, publish each change once, and change nothing else |
| SupervisorSteps.OnlyStoresAdd | app/repositories/credentials.py:51-87 | a step adds a stored credential if and only if it saves it |
| SupervisorSteps.RunWipesItsKeys | app/fanout/supervisor.py:612-629 | a run started and stopped leaves exactly the credentials that are not for one run, of the targets read at its start |
| SupervisorSteps.PublishedChangesAreListed | app/domain/run_state.py:37-53 | over every sequence of steps the published changes are one path of nine listed ones, out of OFFLINE, to the present state |
| LateEnables.EnableLockedKeepsInvIff | app/fanout/supervisor.py:364-380 | the part of an enable under the lock, reached in any state, keeps books and sessions, and the invariant if and only if the run is active or what it finds starts no worker |
| LateEnables.TestUnderLockSuffices | app/fanout/supervisor.py:366-368 | it keeps the invariant whatever it finds exactly in the states that pass the test |
| LateEnables.LateRunsStayLoose | app/fanout/supervisor.py:241-540 | over every sequence of steps with late enables sessions, run states and secrets stay in order, and each stop of an active run clears every worker and restores the whole invariant |
| LateEnables.EnableAcrossStopLeavesWorker | app/fanout/supervisor.py:366-368 | an enable that tested before a stop starts its worker in OFFLINE, where no stop reaches it |
| LateEnables.LeftWorkerEscapesDisable | app/fanout/supervisor.py:276-277 | the next start without its target drops that worker from the index, and disabling the target does not reach it |
| SecretCoverage.TearDownCoversUnlessShared | app/fanout/supervisor.py:511-540 | tearing down keeps the remaining secrets registered if and only if none is shared |
| SecretCoverage.SpawnCoversUnlessSharedRollback | app/fanout/supervisor.py:469-495 | a spawn keeps live secrets registered except exactly when it is rolled back and a live worker shares its secret |
| SecretCoverage.FailedBackupUncoversPrimary | app/fanout/supervisor.py:451-495 | a YouTube target whose backup fails to start keeps its primary running unregistered |
| SecretCoverage.DistinctKeysAreAlwaysCovered | app/fanout/supervisor.py:241-540 | over every sequence of steps in which no two workers are given the same key, the secret of every live worker is registered |
| Supervisors.Supervisor.RecoverInterruptedSessions | app/db/schema_init.py:363-417 | the loop closes exactly the open rows, each with its audit row, and returns each id once |
| Supervisors.Supervisor.SpawnWorker | app/fanout/supervisor.py:459-495 | registers, books and starts a worker, or rolls back, keeping the books |
| Supervisors.Supervisor.SpawnWorkersForTarget | app/fanout/supervisor.py:451-495 | the loop over the roles spawns them in order up to the first that raises |
| Supervisors.Supervisor.TearDownWorkers | app/fanout/supervisor.py:511-540 | the loop strikes the given workers from all books |
| Supervisors.Supervisor.StartRun | app/fanout/supervisor.py:241-314 | does what a start in the value model does, whose workers, books and way of failing Spawning and SupervisorSteps state |
| Supervisors.Supervisor.WipePerSessionCredentials | app/fanout/supervisor.py:612-629 | the loop deletes exactly the credentials of cached targets that are for one run |
| Supervisors.Supervisor.StopRunNow | app/fanout/supervisor.py:316-358 | drains, wipes, closes the session and goes OFFLINE, from active states only |
| Supervisors.Supervisor.EnableTarget | app/fanout/supervisor.py:364-380 | does what an enable in the value model does, test and lock taken as one step |
| Supervisors.Supervisor.DisableTarget | app/fanout/supervisor.py:382-385 | tears down the target's workers |
| EventBus.Queue.Put | app/fanout/event_bus.py:147-160 | a full buffer loses its oldest entry and counts it |
| EventBus.Queue.TakeBatch | app/fanout/event_bus.py:181-188 | takes the whole buffer |
| EventBus.AccountAlwaysBalances | app/fanout/event_bus.py:147-188 | always, puts = delivered + buffered + dropped, the buffer is the latest stretch of puts, and batches are ordered stretches |
| EventBus.DropsExactlyWhenFull | app/fanout/event_bus.py:147-160 | a put drops an entry, the oldest, if and only if the buffer holds as many as it may |
| EventBus.DroppedIsOverflow | app/fanout/event_bus.py:147-188 | over every sequence of puts and drains the drop count grows by exactly the puts that find the buffer full |
| EventBus.BroadcastEvent | app/api/ws.py:136-145 | every subscriber of the snapshot is offered the event |
| EventBus.BroadcastBatch | app/api/ws.py:127-145 | each subscriber is offered, in order, exactly the events of a batch sent while it was registered |
| EventBus.BatchFillsQueue | app/api/ws.py:127-145 | of the events of a batch sent while it is registered, a client takes as many, from the first on, as its 256 places have room for, and overflows if and only if that is not all |
| Delivery.PatchIsPointwise | web/src/lib/wsReducer.ts:45-70 | patching keeps one entry per target, the new one for its target and the old ones in their order |
| Delivery.CacheShowsLast | web/src/lib/wsReducer.ts:22-70 | after any events a cache shows the last drop count, the time of the last change, and of each target the last snapshot, the old targets in their places |
| Delivery.StepKeepsInv | app/api/ws.py:127-263 | every step of supervisor, broadcaster and clients keeps the delivery invariant |
| Delivery.ClientConverges | web/src/lib/wsReducer.ts:22-43 | with no drop and no overflow a client that has taken everything shows the supervisor's run state, even after replaying events older than its state.full |
| Delivery.ClientShowsLast | web/src/lib/wsReducer.ts:22-70 | in every interleaving a client's cache shows just that of its state.full and the events it has taken |
| Delivery.SendFullKeeps | app/api/ws.py:346-367 | state.full shows run state and drop count as they are when it is sent, and keeps the delivery invariant |
| Delivery.ClientSeesOneStretch | app/api/ws.py:242-263 | what a client took and has queued is one gap-free stretch of the broadcast events from its registration, complete unless it overflowed, and after an overflow it takes at most one more; the bus holds at most 10000 |

## Left out

- RedactionSink.Sink.Feed: proved to end for URLs of 14 bytes or more or with a character outside the placeholder, which covers all URLs that `app/fanout/ffmpeg_urls.py:57-61` lets through; for shorter ones spelled with the placeholder's own characters termination is not claimed.
- StraddlingUrl.StraddlingUrlStaysWhole: where a replaced copy overlaps the URL over the edge and the URL itself ends with a placeholder, the condition is proved sufficient, not necessary, as the text put in may end like the URL.
- FFmpegWorkers.FFmpegWorker.Start: a restart after a stop finds the event stream closed, which is not part of this model; the theorems about runs are about workers started once.
- FFmpegWorkers.FFmpegWorker.RequestStop: does not model SIGTERM, SIGKILL, timeouts or the cancellation that follows them.
- Rotation.Server.constructor: a salt file of the wrong length, which the source refuses, is excluded.
- Rotation.Server.RewrapRows: takes the rows in any order, where the source sorts them by id.
- LogRedaction.RedactString: an empty secret, which the registry refuses, is passed over, where Python's replace would put a placeholder at every place.
- Supervisors.Supervisor.StopRunNow: leaves out the audit rows.
- Supervisors.Supervisor.EnableTarget: takes the test and the lock as one step; runs in which they are apart are the subject of LateEnables.
- Two clocks: the source times failures by the wall clock and sleeps by the monotonic one; here one clock serves both.
- Rounding: seconds are exact reals; the only floating-point effect modelled is the overflow in the backoff.
- Pump crashes, stall detection and the stderr ring of the worker.
- `worker.stop` is taken not to raise.
- Audit rows, except those of recovered sessions and the one whose failure fails a start.
- Numeric parsing and UTF-8 decoding in the progress parser; values stay text.
- Rotation's request gates (re-prompt grant, run state, same passphrase) and the removal of the previous salt after 24 hours.
- The `host.stats` event, for which the reducer has no case, is taken to change nothing.
- Convergence of target snapshots: the supervisor replaces targets without publishing.
- HTTP routes, database plumbing, key derivation and cipher internals, React components: nothing here depends on them.
