# Verified models of the rusty agent runtime

Rusty is an agent runtime: it checkpoints graph state, retries and schedules work,
admits sandboxed capsules, previews artifacts, migrates installed packages and
brokers credentials. This project models the algorithms at the centre of those
jobs and proves what they promise, for all inputs, all runs and all
interleavings.

`dafny verify dfyconfig.toml` checks everything.

## What is modelled

**Delta checkpoints** (`Checkpoints`, `CheckpointStore`). A put stores either a
whole state or the channels that changed since the head, linked to its base.
Chains are loaded and folded back, with a bound on their length and a guard
against cycles. The store is a class whose ghost field is the list of all puts;
its invariant says what every put reads back as.

**The headroom experiment** (`Retry`, `Statistics`, `WorkItems`, `Workloads`, `Bills`).
Work items replay a recorded tape of attempts under a retry arm and a timeout
arm. An oracle that sees the tape is compared with the floor policy, for every
tape and every jitter stream, item by item, over whole queues and over
multi-call recordings; what each arm is billed is told from the tape alone.

**Two event-loop simulators** (`EventQueue`, `Tallies`, `Tasks`, `Rounds`,
`Backpressure`, `Concurrency`, `Contention`, `Fleet`, `Placement`, `Outage`,
`FirstPass`, `Redraws`). Each is described
twice: as a protocol of moves, about which safety, progress and accounting are
proved over every legal run; and as the loop over ready queue, retry heap, end heap
and clocks, which is proved to perform such a run and to end. No run is ever stuck (`RunsOn`), and none has
a choice (`OneRun`, `OneOutcome`).
`Contention` and `Outage` decide for which inputs the oracle can be slower than the
floor; `FirstPass` and `Redraws` follow the placement experiment itself on tapes its
generator draws.

**Media previews** (`Bytes`, `Bitmap`, `Pixmap`, `Preview`, `Waveform`, `Hex`,
`Decimal`). Decoders for uncompressed bitmaps, binary pixmaps and PCM sound, the
thumbnail sampler and its printer, and the peak envelope.

**Civil dates** (`Calendar`). The closed-form conversion from days to dates
refines a calendar turned day by day.

**Capsules** (`Effects`, `Grants`, `Widening`, `Capsules`). The algebra of
capability grants: overlay intersection, the widening signal, admission, and the
content address.

**Coordination** (`Sorting`, `Quorum`). Quorum resolution and the fan-out merge.

**Capability sets and presets** (`Capability`, `Presets`). Composition,
delegation chains, and the ladder of permission presets.

**The doctor** (`Texts`, `Versions`, `Chains`, `Repairs`, `Repeats`, `Doctor`).
Upgrade chains, config repairs, what applying them twice does, and the fix that
applies them under a lock to a store whose every operation may fail.

**Credentials** (`SecretRefs`, `Tokens`, `Mediation`). Reference and token codecs,
and the handle cache under every interleaving of its callers.

**Artifacts** (`Artifacts`). Commits and the version sequences they grow.

`Wrappers`, `Numbers` and `Json` hold what is shared.

## Where the code and its promises differ

The model follows the code. Each of these is stated as a theorem, with the exact
condition under which the promise holds wherever one is known.

- *A checkpoint reads back as it was put.* Only when it has every channel its base
  has; a channel the put lacks comes back from the base (`FoldRestores`,
  `StoredPutReadsBack`, `DroppedChannelComesBack`).
- *The latest checkpoint is the last one put.* With the pointer file lost or dangling,
  exactly when no put was stamped later (`ScanFindsTheLastPutExactly`). A put that stops
  between its file and the pointer is not the latest, although its id is taken; the one
  before it is read as ever, and the next put is sound (`Put`, `GetLatest`).
- *The timeout oracle is never slower.* The arms draw jitter from their own streams. It
  is not slower for all of them exactly when the back-off windows of the retried
  failures, beyond the callee's hints, add up to at most the hangs it cuts short
  (`TimeoutOracleNeverSlowerExactly`, and the same over queues and recordings). The
  assertion's tolerance adds a ten-thousandth of what the tapes cost the floor at the
  least (`TimeoutOraclePassesOnQueueExactly`, `TimeoutOraclePassesOnFixturesExactly`).
  What it completes, attempts and costs is always the same.
- *The retry oracle retries only when an attempt ahead succeeds.* It retries in vain
  exactly when an item that may be repeated has a failure that is not retryable between
  its first attempt and a success in budget (`RetriesInVainExactly`, `RetryInVain`).
- *The concurrency oracle is never slower.* For a given number of tasks this holds for
  all tapes exactly when the tasks do not exceed the callee's ceiling
  (`Contention.NeverSlowerExactly`). At the experiment's own 120 tasks it fails on
  latencies its generator draws, whatever the jitter (`Contention.OracleIsSlowerAtScale`).
- *The placement oracle is never slower.* For a given fleet, fault script and number of
  tasks this holds for all tapes exactly when no worker can be degraded under a task: a
  failed attempt is drawn anew, and the oracle forgoes the draw
  (`Outage.NeverSlowerExactly`). It fails for the experiment's own fleet, script and 240
  tasks on tapes its generator draws, whatever the jitter
  (`Redraws.OracleIsSlowerAtScale`).
- *Peaks reach 65535.* They are at most 32768 (`DecodeWav`).
- *Hexadecimal decoding inverts encoding.* Only for lower-case text; upper case and
  a leading plus sign are also read (`EncodeUndoesDecode`).
- *A malformed token is refused.* Unless slicing its claims into pairs of octets ends
  inside a character, which stops the program (`DecodePanicsExactly`,
  `ParsePanicsExactly`, `AccentPanics`).
- *A file that does not decode has no preview.* The map decoder reserves three octets a
  pixel before it looks for them. With overflow checks it ends the program exactly on
  headers that ask for 2^63 or more, in files of any length (`PanicsExactly`,
  `HugeHeaderPanics`). Without them it does so where the wrapped size is that large, and
  otherwise, from 2^64 on, answers a colour picture that lacks nearly all its pixels
  (`WrappingPanicsExactly`, `WrappingAnswersExactly`), whose sampling can end the program
  (`WrappedHeaderPanics`).
- *A thumbnail shows the picture.* Sample numbers take 32 bits. Every picture of a size
  is shown exactly when its last sample's number does (`AlwaysShownExactly`,
  `LargeSquareIsNotShown`); with overflow checks larger ones end the program instead
  (`WholePictureIsShownExactly`, `PreviewPanicsExactly`).
- *No widening is reported, so nothing is widened.* The signal looks at scope items
  one by one, so it can be silent about a mixed call; silence can be trusted
  exactly when the manifest's own grants combine freely (`SilenceIsExact`,
  `MixedCallIsNotFlagged`).
- *The result of a fan-out does not depend on the order of completion.* Exactly when
  no task id carries two different outputs (`MergeIsDeterministicExactly`).
- *An upgrade chain ascends.* Versions that differ only in build metadata, or in how a
  number of the label is written, compare as equal but are different (`TiedExactly`). A
  chain ascends strictly and carries each migration once exactly when no two declared
  versions in range are tied so (`ChainIsSoundExactly`, `TiedVersionsAreVisitedTwice`).
  With ties there is a chain exactly when the target is the last declared of those tied
  with it (`ChainExistsExactly`), and each migration is carried once exactly when its
  version is named in one run among those tied with it (`MigrationsOnceExactly`).
- *A default is supplied for a new field.* The repair fails when the field is missing
  (`RepairFailsExactly`); it fills fields that are null or an empty object.
- *A fix is repeatable.* Each repair is (`RepairTwice`), lists of repairs are not
  (`ListsAreNotRepeatable`), and a fix leaves the installed version alone, so the
  next one plans the same steps again (`NextFixPlansTheSame`). It leaves the config as
  it is when no value is carried twice, no key is renamed after it was edited, and edits
  of one path agree (`RepeatableListsRepeat`, `SecondFixIsHarmless`); for renames alone this is exact
  (`RenamesRepeatExactly`). Otherwise it can change the config again or halt
  (`SecondFixOfPackage`, `SecondFixHalts`).

## Model

| member | source | states |
|---|---|---|
| `Checkpoints.EncodesExactly` | rusty-core/src/checkpoint.rs:267-296 | a put is stored as a link to its head with exactly the channels that are new or differ, if and only if the chain can take one more and those channels are a small enough part of the whole; else as it is, without a base |
| `Checkpoints.FoldRestores` | rusty-core/src/checkpoint.rs:306-322 | folding a put's changed channels onto its base gives back every channel of the put, and gives back exactly the put if and only if the base has no channel the put lacks |
| `Checkpoints.ChainIsUnique` | rusty-core/src/checkpoint.rs:922-951 | a stored checkpoint has at most one chain of links to a full checkpoint |
| `Checkpoints.ChainIdsAreDistinct` | rusty-core/src/checkpoint.rs:922-951 | no checkpoint occurs twice on a linked, stored chain |
| `Checkpoints.MaterializedLink` | rusty-core/src/checkpoint.rs:306-355 | a delta resolves if and only if its base does, and is then the fold of the delta onto the base's materialised form |
| `Checkpoints.ChainsSurvive` | rusty-core/src/checkpoint.rs:983-1057 | writing a checkpoint under a new id leaves every chain that resolves as it was |
| `Checkpoints.FoldStoredChain` | rusty-core/src/checkpoint.rs:331-355 | the folding loop succeeds exactly on linked chains, returns their fold, and otherwise names the empty chain, the delta root or the broken link |
| `Checkpoints.LoadChain` | rusty-core/src/checkpoint.rs:922-951 | the walk ends on any store, even a cyclic one, and returns the chain if and only if one exists of at most 129 checkpoints, or of one more than four times the policy's chain length |
| `Checkpoints.MaterializeOne` | rusty-core/src/checkpoint.rs:363-428 | one memoised walk answers exactly the checkpoints that resolve, with the value of their unique chain, and keeps the memo sound |
| `Checkpoints.MaterializeAll` | rusty-core/src/checkpoint.rs:363-428 | the memoised pass lists, in order, exactly the resolvable checkpoints with the values that unmemoised folding gives |
| `CheckpointStore.StoredPutReadsBack` | rusty-core/src/checkpoint.rs:267-296 | whatever the policy and sizes, a stored put resolves within the chain bound and reads back as the put, exactly so unless the base had channels it lacks |
| `CheckpointStore.PutStep` | rusty-core/src/checkpoint.rs:983-1057 | a put, whichever stored checkpoint it is diffed against, keeps every earlier put readable and read the same, keeps the cached head fitting, and keeps the bound on chain lengths |
| `CheckpointStore.KeptChannelsReadBackExactly` | rusty-core/src/checkpoint.rs:1084-1103 | if no put drops a channel of its predecessor, every put of any history reads back exactly |
| `CheckpointStore.ThreadStore.constructor` | rusty-core/src/checkpoint.rs:983-1057 | a new store holds no puts |
| `CheckpointStore.ThreadStore.Reopen` | rusty-core/src/checkpoint.rs:957-972 | losing the cached head and changing the policy keeps the store's invariant |
| `CheckpointStore.ThreadStore.CurrentId` | rusty-core/src/checkpoint.rs:882-915 | the latest checkpoint is the one the latest file names, or the newest of the directory, and is absent exactly for an empty store |
| `CheckpointStore.ThreadStore.HeadOf` | rusty-core/src/checkpoint.rs:957-972 | the head is rebuilt from that checkpoint's files and is absent exactly for an empty store; the only failure is a chain over the bound |
| `CheckpointStore.ThreadStore.Write` | rusty-core/src/checkpoint.rs:1024-1057 | one write adds the put to the history, leaves every earlier read as it was and keeps chains bounded; if it stops before the pointer, pointer and cache are as before, and else they name the put |
| `CheckpointStore.ThreadStore.Put` | rusty-core/src/checkpoint.rs:983-1057 | a duplicate id is refused and changes nothing; any other put is recorded, whole when asked or when it is the first, and else as the encoding demands against the latest checkpoint, and never breaks the store's own bound; a pointer that fails leaves a valid store whose latest is the one before |
| `CheckpointStore.ThreadStore.GetById` | rusty-core/src/checkpoint.rs:1084-1103 | every stored id reads back as its materialised chain unless the chain exceeds a bound set since |
| `CheckpointStore.ThreadStore.GetLatest` | rusty-core/src/checkpoint.rs:1066-1077 | the latest read is what the latest file names, which after a put that did not stop before it is the last put, exactly so when no put drops a channel |
| `CheckpointStore.ThreadStore.ReadThrough` | rusty-core/src/checkpoint.rs:882-915 | whatever the pointer file says, the read is the checkpoint it names, or the newest of the directory when it names none that is there |
| `CheckpointStore.ScanNewest` | rusty-core/src/checkpoint.rs:911-915 | the scan finds the file stamped last, ties by id |
| `CheckpointStore.ScanFindsTheLastPutExactly` | rusty-core/src/checkpoint.rs:906-915 | that is the last put if and only if no put was stamped later |
| `CheckpointStore.ThreadStore.GetLatestWithoutPointer` | rusty-core/src/checkpoint.rs:882-915 | with the pointer lost the latest read is still the last put, if that was stamped last |
| `CheckpointStore.DroppedChannelComesBack` | rusty-core/src/checkpoint.rs:267-322 | for every policy and every measure of size, a put is stored as a link exactly when chain and size bounds allow, and a link gets back every channel of its head that the put lacks |
| `CheckpointStore.ReplayBringsBack` | rusty-core/src/checkpoint.rs:267-322 | a concrete replay under the default policy does |
| `Retry.BackoffDelay` | rusty-core/src/durable.rs:209-213 | the delay is the drawn fraction of the window, rounded down; draws outside zero to one count as the nearer, and a draw below one stays short of the window's end |
| `Retry.WindowExactly` | rusty-core/src/durable.rs:209-213 | the window is the base, doubled with each attempt after the first, twenty times at most, and never above the cap |
| `Retry.ClassifyExactly` | rusty-core/src/durable.rs:240-252 | a failure is retried if and only if the effect is pure, read-only or idempotent, the error is neither an invalid input nor a cancellation and attempts are left, and is dead if and only if only attempts are lacking; the delay stays within the doubling and the cap |
| `Statistics.PercentileIsNearestRank` | rusty-core/benches/headroom_experiment.rs:177-185 | the percentile is a sample, and is at most v exactly when at least its rank of samples are |
| `Statistics.PercentileExactly` | rusty-core/benches/headroom_experiment.rs:177-185 | the percentile is at most v if and only if some sample is and that many percent of all samples are; without samples it is zero |
| `Statistics.PercentileIsMonotone` | rusty-core/benches/headroom_experiment.rs:177-185 | samples nowhere later have no later percentile, for every percentage |
| `WorkItems.SimulateItem` | rusty-core/benches/headroom_experiment.rs:501-615 | the attempt loop computes the recursive replay that the dominance theorems and the bills are about, and ends within the attempt limit |
| `WorkItems.Observe` | rusty-core/benches/headroom_experiment.rs:454-460 | observing a latency touches one callee's window, which then holds exactly the latest samples up to its size |
| `WorkItems.HeuristicBound` | rusty-core/benches/headroom_experiment.rs:462-471 | the learned time-out is the warm-up rung below eight samples, and else five quarters of the 99th percentile, clamped between the lowest rung and the lease bound |
| `Bills.AttemptIsBilled` | rusty-core/benches/headroom_experiment.rs:501-615 | one attempt under every pair of arms: when it completes, goes on, fails or is dead-lettered, what it costs, how many decisions, how long it takes with the pause after it, how many draws, and what is remembered |
| `Bills.ItemIsBilled` | rusty-core/benches/headroom_experiment.rs:501-615 | for every pair of arms, tape and jitter an item is billed the cost of its attempts, a decision for each failed one and, under a timeout arm, for each, the time of its attempts and the pauses between them in the order of the draws; how its last attempt ends is how it ends |
| `Bills.QueueIsBilled` | rusty-core/benches/headroom_experiment.rs:791-807 | a workload's account is the sum of its items' bills, latencies in order, and the draws are taken one after another |
| `Bills.RecordingIsBilled` | rusty-core/benches/headroom_experiment.rs:907-941 | a recording makes its calls up to the first that fails, is completed if all are, dead if the last is, and is billed for the calls made |
| `Bills.FixturesAreBilled` | rusty-core/benches/headroom_experiment.rs:907-941 | the account of all recordings counts each once and otherwise adds up the calls made, each recording starting with nothing seen |
| `WorkItems.AttemptsCompare` | rusty-core/benches/headroom_experiment.rs:501-615 | on one attempt oracle and floor cost the same, and the oracle goes on only where the floor does |
| `WorkItems.RetryOracleDominates` | rusty-core/benches/headroom_experiment.rs:501-615 | for every tape and all jitter of both arms, the retry oracle completes exactly what the floor completes with no more attempts, decisions, time or cost |
| `WorkItems.CompletionIsOnTheTape` | rusty-core/benches/headroom_experiment.rs:501-615 | under every retry arm, time-out floor or oracle and jitter, an item completes if and only if an attempt in budget succeeds after hangs and retryable failures only, the effect being freely repeatable unless it is the first |
| `WorkItems.RetriesInVainExactly` | rusty-core/benches/headroom_experiment.rs:501-615 | the retry oracle retries and still fails if and only if a freely repeatable item has a failure that is not retryable between its first attempt and a success in budget |
| `WorkItems.RetryInVain` | rusty-core/benches/headroom_experiment.rs:501-615 | a concrete tape on which it does |
| `WorkItems.TimeoutOracleGap` | rusty-core/benches/headroom_experiment.rs:501-615 | for all jitter of both arms the timeout oracle has the floor's outcome, attempts and cost, one more decision per attempt, and is later by at most the spread of the floor's back-off windows less the hangs cut short, a bound that is attained |
| `WorkItems.TimeoutOracleNeverSlowerExactly` | rusty-core/benches/headroom_experiment.rs:501-615 | the timeout oracle is no slower for all jitter of both arms if and only if that spread is at most the hangs cut short |
| `WorkItems.TimeoutOracleCanBeSlower` | rusty-core/benches/headroom_experiment.rs:501-615 | a concrete item with one transient fault is not |
| `WorkItems.EarlyIsLeast` | rusty-core/benches/headroom_experiment.rs:501-615 | the floor pays, at the least and with zero draws exactly, its attempts and the world's hints |
| `Workloads.RunArm` | rusty-core/benches/headroom_experiment.rs:791-807 | the queue loop records every item once, and attempts are completions plus waste |
| `Workloads.RetryOracleDominatesQueue` | rusty-core/benches/headroom_experiment.rs:1604-1617 | the oracle's accounts dominate the floor's over any workload |
| `Workloads.TimeoutOracleGapOnQueue` | rusty-core/benches/headroom_experiment.rs:791-807 | over any workload and separate jitter the timeout oracle's bill is the floor's but for decisions, with the same bound on total latency, attained |
| `Workloads.TimeoutOracleNeverSlowerOnQueue` | rusty-core/benches/headroom_experiment.rs:1604-1617 | its total is no larger for all jitter if and only if the workload's spread is at most the hangs cut short |
| `Workloads.TimeoutOraclePassesOnQueueExactly` | rusty-core/benches/headroom_experiment.rs:1604-1617 | the asserted bound, tolerance included, holds for all jitter if and only if the spread less the hangs cut is at most a ten-thousandth of what the workload costs the floor at the least |
| `Workloads.DominanceOfReports` | rusty-core/benches/headroom_experiment.rs:637-665 | accounts that dominate have no later percentile and no larger total latency |
| `Workloads.RunRecording` | rusty-core/benches/headroom_experiment.rs:907-941 | a recording is replayed call by call and stops at the first failed call |
| `Workloads.RunLlmArm` | rusty-core/benches/headroom_experiment.rs:907-941 | the arm's loop records every recording of the fixtures once |
| `Workloads.RetryOracleDominatesCalls` | rusty-core/benches/headroom_experiment.rs:907-941 | dominance carries through multi-call recordings that stop at the first failure |
| `Workloads.RetryOracleDominatesFixtures` | rusty-core/benches/headroom_experiment.rs:1604-1617 | and through any set of recordings |
| `Workloads.RecordingCompletesExactly` | rusty-core/benches/headroom_experiment.rs:907-941 | a recording completes if and only if each of its calls does, under every arm and jitter |
| `Workloads.TimeoutOracleGapOnFixtures` | rusty-core/benches/headroom_experiment.rs:907-941 | over any recordings and separate jitter the timeout oracle's bill is the floor's but for decisions, with the bound on total latency, attained |
| `Workloads.TimeoutOracleNeverSlowerOnFixtures` | rusty-core/benches/headroom_experiment.rs:1604-1617 | its total over the recordings is no larger for all jitter if and only if the spread of the calls made is at most the hangs cut short |
| `Workloads.TimeoutOraclePassesOnFixturesExactly` | rusty-core/benches/headroom_experiment.rs:1604-1617 | and the same over recordings |
| `EventQueue.First` | rusty-core/benches/headroom_experiment.rs:1179-1298 | a heap yields its earliest event, ties by task |
| `Backpressure.MoveKeepsSafe` | rusty-core/benches/headroom_experiment.rs:1179-1298 | every move keeps the ceiling respected, every task within its attempts, nothing in flight overdue and nothing settled in the future, and time going forward |
| `Backpressure.LegalRunsAreSafe` | rusty-core/benches/headroom_experiment.rs:1179-1298 | so does every legal run from the start |
| `Backpressure.TasksStandByTheirTries` | rusty-core/benches/headroom_experiment.rs:1213-1262 | over every legal run each task that was tried k times stands where its k-th try put it: admitted, it ends after the k-th latency of its tape; rejected, it waits the k-th back-off or the hint, or is dead-lettered after its last attempt |
| `Backpressure.UntriedStaysReady` | rusty-core/benches/headroom_experiment.rs:1213-1262 | a task not yet tried is ready, with no attempts |
| `Backpressure.CapStaysInBounds` | rusty-core/benches/headroom_experiment.rs:1179-1298 | the adaptive cap stays between 1 and 64 over any moves |
| `Backpressure.CapSinceRejection` | rusty-core/benches/headroom_experiment.rs:1230-1290 | since the last rejection, which halves it but not to zero, the adaptive cap has grown by one for every 32 completions, up to 64 |
| `Backpressure.CapBeforeRejections` | rusty-core/benches/headroom_experiment.rs:1202-1290 | before any rejection it has so grown from 16 |
| `Backpressure.OracleWastesNothing` | rusty-core/benches/headroom_experiment.rs:1179-1298 | no run that obeys the oracle's cap ever has a rejection or a dead letter |
| `Backpressure.MovesRunOut` | rusty-core/benches/headroom_experiment.rs:1179-1298 | every move except the clock's uses up a measure over attempts left |
| `Tasks.AllSettled` | rusty-core/benches/headroom_experiment.rs:1179-1298 | when all tasks are settled, completions and dead letters add up to the tasks and attempts to completions plus waste |
| `Concurrency.ReleaseDue` | rusty-core/benches/headroom_experiment.rs:1179-1298 | releasing due retries is a run of release moves that leaves none due |
| `Concurrency.AdmitReady` | rusty-core/benches/headroom_experiment.rs:1179-1298 | admission ends with the ready queue empty or the cap reached, each attempt admitted or rejected as the ceiling says |
| `Concurrency.FinishDue` | rusty-core/benches/headroom_experiment.rs:1179-1298 | finishing due attempts is a run of finish moves that leaves none ending now |
| `Concurrency.RunConcurrencyArm` | rusty-core/benches/headroom_experiment.rs:1179-1298 | for every tape, jitter and arm the event loop ends, its steps are a legal run under the arm's cap, at every instant completions before due retries before tries, whose rejections take the jitter stream in order; every task is settled, the statistics are those of that run, and the oracle wastes nothing |
| `Concurrency.OneRun` | rusty-core/benches/headroom_experiment.rs:1179-1298 | there is only one such run: tapes and jitter decide every move |
| `Concurrency.RunsOn` | rusty-core/benches/headroom_experiment.rs:1179-1298 | from every point the loop can reach, under any arm, the run extends to one that settles every task |
| `Concurrency.EveryArmFinishes` | rusty-core/benches/headroom_experiment.rs:1179-1298 | so every arm has a finished run on any tapes |
| `Tasks.TotalIsSumOfEnds` | rusty-core/benches/headroom_experiment.rs:638-647 | the reported latencies add up to the tasks' end times |
| `Rounds.TotalByRounds` | rusty-core/benches/headroom_experiment.rs:638-647 | tasks of which at most so many end in each round add up to at least the rounds they wait |
| `Contention.UncontendedArmsAgree` | rusty-core/benches/headroom_experiment.rs:1179-1298 | with no more tasks than the ceiling, floor and oracle end every task alike: first attempt, own latency |
| `Contention.RunsArePaced` | rusty-core/benches/headroom_experiment.rs:1179-1298 | in any run over equal latencies, for every j, at most j ceilings of tasks end before round j is over |
| `Contention.OracleEndsLate` | rusty-core/benches/headroom_experiment.rs:1179-1298 | so the oracle's total is at least the sum of the rounds its tasks wait, for any number of rounds |
| `Contention.FloorEndsSoon` | rusty-core/benches/headroom_experiment.rs:1179-1298 | in any floor run every task is settled one latency after its third try, 3020 milliseconds at the latest, or 2020 when no draw exceeds one half |
| `Contention.FloorGivesUp` | rusty-core/benches/headroom_experiment.rs:1179-1298 | in any floor run over equal latencies above those 3020 milliseconds the first tasks fill the ceiling and all others are turned away until dead-lettered |
| `Contention.ContendedOracleIsSlower` | rusty-core/benches/headroom_experiment.rs:1600-1617 | above the ceiling, on such latencies, every oracle run takes longer in total than every floor run, beyond the asserted tolerance |
| `Contention.OracleIsSlowerAtScale` | rusty-core/benches/headroom_experiment.rs:1154-1298 | with the experiment's 120 tasks and equal latencies of 432 milliseconds or more every oracle run takes longer than every floor run; from 289 when no draw exceeds one half |
| `Contention.NeverSlowerExactly` | rusty-core/benches/headroom_experiment.rs:1600-1617 | the asserted bound on the oracle's latency holds for all tapes of n tasks and all runs if and only if n is at most the ceiling |
| `Contention.CompareArms` | rusty-core/benches/headroom_experiment.rs:1600-1617 | the reported totals: the oracle completes at least as much, takes as long up to the ceiling on all tapes, and longer on the tapes above |
| `Contention.UniformTapesExist` | rusty-core/benches/headroom_experiment.rs:1179-1298 | tapes of equal latencies exist for every number of tasks |
| `Fleet.WindowEnd` | rusty-core/benches/headroom_experiment.rs:985-998 | a worker has a window end at an instant exactly when it is degraded then, and it is that of the first window of the script that covers the instant |
| `Fleet.LegalRunsAreSafe` | rusty-core/benches/headroom_experiment.rs:1004-1137 | over every legal run no task is ready, waiting or settled with more attempts than that allows |
| `Fleet.TasksStandByTheirLandings` | rusty-core/benches/headroom_experiment.rs:1085-1130 | over every legal run each task that landed k times stands where its k-th landing put it: on a sound worker, ended after the k-th latency of its tape; on a degraded one, waiting the k-th back-off, or dead-lettered after its last attempt |
| `Fleet.UnlandedStaysReady` | rusty-core/benches/headroom_experiment.rs:1085-1130 | a task that never landed is ready, with no attempts |
| `Fleet.OracleWastesNothing` | rusty-core/benches/headroom_experiment.rs:1004-1137 | the placement oracle never lands work on a degraded worker, in any run |
| `Fleet.ClocksNeverGoBack` | rusty-core/benches/headroom_experiment.rs:1004-1137 | the clock, the workers' busy times and the heuristic's quarantines only grow over a run |
| `Fleet.ClaimsAreSpaced` | rusty-core/benches/headroom_experiment.rs:1004-1137 | two claims of one worker are a hold apart, and under the heuristic a quarantine apart after a degraded landing |
| `Fleet.MovesRunOut` | rusty-core/benches/headroom_experiment.rs:1004-1137 | releases and landings use up a measure that vetoes and the clock leave alone |
| `Fleet.VetoesRunOut` | rusty-core/benches/headroom_experiment.rs:1004-1137 | vetoes use up a measure over windows and quarantines not yet passed |
| `Placement.Candidate` | rusty-core/benches/headroom_experiment.rs:1004-1137 | the candidate is the first worker that is free earliest |
| `Placement.RunPlacementArm` | rusty-core/benches/headroom_experiment.rs:1004-1137 | for every fleet, windows, tapes, jitter and arm the loop ends despite vetoes, performs a legal run whose degraded landings take the jitter stream in order, settles every task, reports that run, and the oracle wastes nothing |
| `Placement.OneOutcome` | rusty-core/benches/headroom_experiment.rs:1004-1137 | all such runs come to one world: fleet, script, tapes and jitter decide how and when every task ends |
| `Placement.RunsOn` | rusty-core/benches/headroom_experiment.rs:1004-1137 | from every point the loop can reach, under any arm, the run extends to one that settles every task |
| `Placement.EveryArmFinishes` | rusty-core/benches/headroom_experiment.rs:1004-1137 | so every arm has a finished run on any fleet, script and tapes |
| `Outage.HealthyArmsShareRuns` | rusty-core/benches/headroom_experiment.rs:1004-1137 | where no worker degrades, floor and oracle have the same legal runs and the same worlds after them |
| `Outage.UndisturbedRunsAgree` | rusty-core/benches/headroom_experiment.rs:1004-1137 | where no worker can be degraded under a task, every finished run of every arm ends each task as list scheduling does |
| `Outage.FloorTrips` | rusty-core/benches/headroom_experiment.rs:1004-1137 | where one can, the floor's run on tapes made for it fails the long first attempt of the task that meets the trouble, and no attempt it makes is long |
| `Outage.OracleTakesFirstLatencies` | rusty-core/benches/headroom_experiment.rs:1004-1137 | the oracle's total is at least any task's first latency, for it fails no attempt |
| `Outage.TrippedFloorIsFaster` | rusty-core/benches/headroom_experiment.rs:1600-1617 | on such tapes every oracle run takes longer in total than every floor run, beyond the asserted tolerance |
| `Outage.NeverSlowerExactly` | rusty-core/benches/headroom_experiment.rs:1600-1617 | for every fleet, fault script and number of tasks the asserted bound on the oracle's latency holds for all tapes and runs if and only if no worker can be degraded under a task |
| `Outage.OracleWaits` | rusty-core/benches/headroom_experiment.rs:1004-1137 | while all workers are down the oracle completes nothing, in any run |
| `Outage.FloorFails` | rusty-core/benches/headroom_experiment.rs:1004-1137 | in any floor run over any tasks through a long enough outage no task completes, and each attempt accounts for at most the longest wait |
| `Outage.OutageFavoursTheFloor` | rusty-core/benches/headroom_experiment.rs:1600-1617 | over such an outage the oracle takes longer than the floor, which completes nothing |
| `Outage.CompareArms` | rusty-core/benches/headroom_experiment.rs:1600-1617 | the reported totals: equal where nothing disturbs the tasks, and the oracle's larger on the tapes that trip the floor and through a long outage |
| `FirstPass.PassIsOver` | rusty-core/benches/headroom_experiment.rs:960-1137 | with first attempts of 325 milliseconds the experiment's 240 first attempts take a course that no jitter changes: 91 succeed, their ends adding up to 387350, and 149 fail |
| `Redraws.OracleEndsLate` | rusty-core/benches/headroom_experiment.rs:1004-1137 | on any fleet and script the oracle's tasks of one first latency wait round after round |
| `Redraws.FloorEndsSoon` | rusty-core/benches/headroom_experiment.rs:960-1137 | in any floor run of the experiment on such tapes, with later attempts of at most 45 milliseconds, the 149 others end within 12234 |
| `Redraws.RedrawingFloorIsFaster` | rusty-core/benches/headroom_experiment.rs:1600-1617 | so every oracle run takes longer than every floor run, beyond the asserted tolerance |
| `Redraws.OracleIsSlowerAtScale` | rusty-core/benches/headroom_experiment.rs:960-1137 | such tapes lie within what the generator draws, 42 to 339 milliseconds |
| `Redraws.CompareAtScale` | rusty-core/benches/headroom_experiment.rs:1600-1617 | and the reported totals on them say so |
| `Bytes.WrittenAsRead` | rusty-core/src/artifact.rs:792-798 | the octets of a word are those that writing the number read gives, for 16 and 32 bits |
| `Bytes.ReadWrittenU32` | rusty-core/src/artifact.rs:796-798 | reading a little-endian word gives the number written |
| `Bitmap.PixelInBounds` | rusty-core/src/artifact.rs:805-850 | on arbitrary octets with an accepted header, every pixel lies inside the file |
| `Bitmap.DecodeBmp` | rusty-core/src/artifact.rs:805-850 | the decoding loops answer a picture if and only if the file's octets are an uncompressed bitmap of it, and it is well formed with three octets per pixel |
| `Bitmap.AcceptsBitmapsExactly` | rusty-core/src/artifact.rs:805-850 | told octet by octet: the magic, 54 octets, a header of 40 or more, no compression, 24 or 32 bits, sizes above zero, and at the data offset rows of that picture, padded to four octets and bottom row first unless the height is negative |
| `Bitmap.HeaderReadsBack` | rusty-core/src/artifact.rs:805-850 | a written header is read back in every field |
| `Bitmap.BmpRoundTrip` | rusty-core/src/artifact.rs:805-850 | any raster written with 24 or 32 bits, either row order, padded rows and any data offset decodes to exactly that raster |
| `Pixmap.ReadToken` | rusty-core/src/artifact.rs:856-910 | the cursor loop over blanks, comments and digits reads the next number of the text, or none |
| `Pixmap.ReadPnmHeader` | rusty-core/src/artifact.rs:856-910 | the header loop reads exactly the recursive description of a header |
| `Pixmap.DecodePnm` | rusty-core/src/artifact.rs:856-910 | for builds with and without overflow checks, decoding any octets yields the described picture, nothing, or the end of the program; with checks the picture is well formed |
| `Pixmap.ParsedIsWellFormedExactly` | rusty-core/src/artifact.rs:898-909 | an answered picture is whole if and only if its size is below 2^64 |
| `Pixmap.HeaderIsRead` | rusty-core/src/artifact.rs:856-910 | every grammatical header, with any blanks and comments, is read as what it says |
| `Pixmap.ReadHeaderIsGrammatical` | rusty-core/src/artifact.rs:856-910 | and every header that is read is grammatical |
| `Pixmap.AcceptsTheGrammar` | rusty-core/src/artifact.rs:856-910 | with overflow checks a file decodes to a raster if and only if it starts with a grammatical header of fewer than 2^63 octets, followed by octets that hold that raster |
| `Pixmap.PanicsExactly` | rusty-core/src/artifact.rs:898-899 | and decoding ends the program if and only if the header is grammatical and asks for 2^63 octets or more |
| `Pixmap.WrappingAnswersExactly` | rusty-core/src/artifact.rs:898-909 | without checks it answers, beside those rasters, exactly the colour pictures whose wrapped size is what follows the header |
| `Pixmap.WrappingPanicsExactly` | rusty-core/src/artifact.rs:898-909 | and ends the program if and only if the wrapped size is 2^63 or more, or a gray picture of 2^64 octets is really there |
| `Preview.EdgeIsSmall` | rusty-core/src/artifact.rs:755-787 | both edges of a thumbnail lie between 1 and 64 |
| `Preview.SampleInRange` | rusty-core/src/artifact.rs:755-787 | every sample index, computed in 32 bits, lies inside the picture, and is the one meant in a picture of at most 2^32 pixels |
| `Preview.SampleIsPixel` | rusty-core/src/artifact.rs:755-787 | the sample for a thumbnail pixel is the picture's pixel at the scaled position, while that pixel's number fits 32 bits |
| `Preview.AlwaysShownExactly` | rusty-core/src/artifact.rs:755-787 | every picture of a size is shown by its thumbnail if and only if the number of the last sample fits 32 bits |
| `Preview.LargeSquareIsNotShown` | rusty-core/src/artifact.rs:755-787 | a picture 70000 pixels square is too large for that |
| `Preview.WholePictureIsShownExactly` | rusty-core/src/artifact.rs:755-787 | a whole picture can always be sampled without overflow checks, and with them if and only if the number of the last sample fits 32 bits |
| `Preview.ThumbnailShows` | rusty-core/src/artifact.rs:755-787 | the thumbnail shows exactly those samples |
| `Preview.SmallPictureIsItsThumbnail` | rusty-core/src/artifact.rs:755-787 | a picture within the bound is its own thumbnail |
| `Preview.P6RoundTrip` | rusty-core/src/artifact.rs:755-910 | in both builds, printing a raster that memory can hold as P6 and parsing it gives the raster |
| `Preview.PrintThumbnail` | rusty-core/src/artifact.rs:755-787 | the sampling loops print exactly the thumbnail, or end the program exactly when a sample overflows or leaves the picture |
| `Preview.DeriveImagePreview` | rusty-core/src/artifact.rs:755-787 | for both builds the preview of any octets: none, the sizes and the printed thumbnail, or the end of the program |
| `Preview.PreviewPanicsExactly` | rusty-core/src/artifact.rs:755-910 | with overflow checks taking a preview ends the program if and only if a map's header asks for too much or a picture's last sample is too far out |
| `Preview.HugeHeaderPanics` | rusty-core/src/artifact.rs:856-910 | a concrete header does, in both builds, colour and gray, whatever follows |
| `Preview.WrappedHeaderPanics` | rusty-core/src/artifact.rs:755-910 | a concrete header and 130772 octets are answered as a broken picture without checks, and sampling it ends the program |
| `Preview.PreviewIsStable` | rusty-core/src/artifact.rs:755-787 | a preview's octets decode to the thumbnail, whose own preview is the same |
| `Waveform.ReadChunks` | rusty-core/src/artifact.rs:939-972 | the cursor loop scans any octets to the end, or refuses |
| `Waveform.FileIsScanned` | rusty-core/src/artifact.rs:939-972 | any octets laid out as chunks, of any lengths, in any order, padded but perhaps for the last, are scanned chunk by chunk; a truncated chunk refuses them |
| `Waveform.EveryTailIsLaid` | rusty-core/src/artifact.rs:939-972 | all octets are so laid out |
| `Waveform.SoundFileExactly` | rusty-core/src/artifact.rs:939-972 | the scan finds a format and data if and only if the file is RIFF and WAVE around whole chunks, every format chunk says PCM with channels and 8 or 16 bits, the last of them says this format, and the last data chunk holds this data |
| `Waveform.FormatReadsBack` | rusty-core/src/artifact.rs:939-972 | a written PCM format chunk reads back, whatever follows it |
| `Waveform.SampleInBounds` | rusty-core/src/artifact.rs:976-998 | every sample of every whole frame lies inside the data |
| `Waveform.MagnitudeOfPcm` | rusty-core/src/artifact.rs:983-995 | a sample's magnitude is its distance from silence on the 16-bit scale, in both encodings |
| `Waveform.PeakIsUnique` | rusty-core/src/artifact.rs:976-998 | a bucket has one peak |
| `Waveform.Envelope` | rusty-core/src/artifact.rs:976-998 | each of the 64 peaks is the largest magnitude over all channels of exactly the frames of its bucket, zero without any, and at most 32768 |
| `Waveform.EveryBucketIsFed` | rusty-core/src/artifact.rs:976-998 | with 64 frames or more no bucket is empty |
| `Waveform.DurationIsInMilliseconds` | rusty-core/src/artifact.rs:915-931 | the duration is the whole milliseconds the frames last at their rate, a rate of zero counting as one, up to the largest 64-bit product |
| `Waveform.DecodeWav` | rusty-core/src/artifact.rs:915-998 | a sound preview exists exactly when the scan found a format and a whole frame, and its rate, channels, frames, duration and peaks are those of that format and data |
| `Calendar.YearOfEraBounds` | rusty-core/examples/live_agent.rs:80-96 | the closed form's year within an era is in range |
| `Calendar.CivilIsInverseOfDayCount` | rusty-core/examples/live_agent.rs:80-96 | for every day, before the epoch or after, the closed form gives a real Gregorian date whose day count is that day |
| `Calendar.DayCountIsInverseOfCivil` | rusty-core/examples/live_agent.rs:80-96 | every real date is the closed form of its day count |
| `Calendar.CivilOfNextDay` | rusty-core/examples/live_agent.rs:80-96 | day n+1 is the calendar successor of day n |
| `Calendar.CivilRefinesCalendar` | rusty-core/examples/live_agent.rs:80-96 | the closed form lands where turning the calendar n pages lands |
| `Calendar.UnixToUtcReadsBack` | rusty-core/examples/live_agent.rs:80-96 | the two texts, read field by field, are the date so many days after 1 January 1970 as year, month and day, and the rest of the day as hours, minutes and seconds, in fixed places |
| `Calendar.UnixToUtcIsInjective` | rusty-core/examples/live_agent.rs:80-96 | different instants print differently |
| `Grants.IntersectGrants` | rusty-core/src/capsule.rs:435-534 | the nested loops collect exactly the meets of pairs |
| `Grants.MeetCovers` | rusty-core/src/capsule.rs:450-527 | two grants share a grant that covers a use exactly when both cover it |
| `Grants.IntersectIsExactMeet` | rusty-core/src/capsule.rs:306-324 | the effective set reaches a use if and only if manifest and overlay both do |
| `Grants.IntersectCommutes` | rusty-core/src/capsule.rs:435-534 | intersection is symmetric, as sets |
| `Grants.IntersectAssociates` | rusty-core/src/capsule.rs:435-534 | intersection is associative, as sets |
| `Grants.OverlayOrderIsIrrelevant` | rusty-core/src/capsule.rs:410-415 | any permutation of any overlays leaves the same set |
| `Grants.EffectiveIsExactMeet` | rusty-core/src/capsule.rs:410-415 | under any overlays, what is left is what the manifest and every overlay reach |
| `Grants.SelfMeetReachesTheSame` | rusty-core/src/capsule.rs:435-534 | a set met with itself reaches the same |
| `Grants.SelfMeetIsIdentity` | rusty-core/src/capsule.rs:435-534 | it is the same set if and only if its lists are canonical and it is closed under its own meets |
| `Widening.EffectiveNarrows` | rusty-core/src/capsule.rs:410-534 | every effective grant narrows one grant of the manifest |
| `Widening.NarrowingIsNeverBeyond` | rusty-core/src/capsule.rs:549-631 | no effective set is ever flagged against its manifest |
| `Widening.FlaggedReachesMore` | rusty-core/src/capsule.rs:549-631 | every flagged grant with non-empty scopes covers a use the manifest does not |
| `Widening.SilenceIsExact` | rusty-core/src/capsule.rs:549-631 | silence means coverage, for every overlay grant, if and only if the manifest's grants combine freely |
| `Widening.MixedCallIsNotFlagged` | rusty-core/src/capsule.rs:549-631 | a concrete call the manifest does not reach passes unflagged |
| `Capsules.Top` | rusty-core/src/capsule.rs:881-888 | the maximum class is in the set and at least every member |
| `Capsules.AdmittedExactly` | rusty-core/src/capsule.rs:852-896 | a manifest is admitted if and only if its names, world and digest are well formed, it declares effects, every grant is valid, what a grant may change is declared as not idempotent, what it may read as more than pure, and its cost budget is not negative |
| `Capsules.FirstFaultIsReported` | rusty-core/src/capsule.rs:852-896 | a refusal names a fault the manifest has, none of an earlier kind is there, and a manifest without faults is admitted |
| `Capsules.ImpliedExactly` | rusty-core/src/capsule.rs:273-299 | writing files, requests other than the three safe ones, tools and models imply the severest class, everything else reading |
| `Capsules.ValidGrantExactly` | rusty-core/src/capsule.rs:920-986 | a grant is valid if and only if no scope of it is empty and every path, host, protocol, method and name in it is spelled as its kind demands |
| `Capsules.ScopesExactly` | rusty-core/src/capsule.rs:902-986 | those spellings, letter by letter, with no part of a path being two dots |
| `Capsules.NarrowedGrantImpliesLess` | rusty-core/src/capsule.rs:273-291 | narrowing a grant never raises the effect it implies |
| `Capsules.NarrowingStaysAdmitted` | rusty-core/src/capsule.rs:852-896 | an admitted manifest stays admitted under any overlays, including the check of declared against implied effects |
| `Capsules.CanonicalisationIsHarmless` | rusty-core/src/capsule.rs:789-842 | canonicalising is idempotent and changes neither reach nor verdict |
| `Capsules.AddressIsMeaning` | rusty-core/src/capsule.rs:774-777 | with a collision-free hash, manifests alike otherwise share an address if and only if their grants are the same sets of scopes |
| `Capsules.ClampIsMeet` | rusty-core/src/capsule.rs:675-693 | usage fits the clamped budget exactly when it fits both, and clamping is symmetric |
| `Quorum.CountVotes` | rusty-core/src/agents.rs:909-918 | the counting loop groups the outputs as described |
| `Quorum.ResolveQuorum` | rusty-core/src/agents.rs:892-938 | the resolution method computes the resolution the theorems are about, for every resolver |
| `Quorum.TallyIsExact` | rusty-core/src/agents.rs:909-918 | there is one group per different output, with its exact votes |
| `Quorum.MajorityDecides` | rusty-core/src/agents.rs:892-938 | an output is decided if and only if it holds strictly more than half of the accepted outputs |
| `Quorum.NoMajorityShowsEverything` | rusty-core/src/agents.rs:892-938 | otherwise the tallies are distinct, exact, sorted by votes and then text, and sum to the number accepted |
| `Quorum.ResolveIgnoresOrder` | rusty-core/src/agents.rs:892-938 | with distinct task ids every permutation resolves alike, for every resolver |
| `Quorum.MajorityIsAboutVotes` | rusty-core/src/agents.rs:892-938 | majority resolution depends only on how often each output occurs |
| `Quorum.MergeIsByTask` | rusty-core/src/agents.rs:947-954 | the merge lists all outputs with their task ids ascending |
| `Quorum.MergeIsDeterministicExactly` | rusty-core/src/agents.rs:947-954 | the merge is the same for every permutation if and only if no task id carries two outputs |
| `Capability.Normalise` | rusty-core/src/capability.rs:181-205 | sorting and scanning accept exactly lists without repetitions and name the least repeated member |
| `Capability.FromMembers` | rusty-core/src/capability.rs:181-205 | a set is composed exactly when no member repeats, and holds the members in ascending order |
| `Capability.MembersDetermineTheSet` | rusty-core/src/capability.rs:181-205 | sets with the same members are equal |
| `Capability.BinarySearch` | rusty-core/src/capability.rs:275-289 | on an ascending list binary search is membership |
| `Capability.Keep` | rusty-core/src/capability.rs:275-289 | the filter keeps exactly the parent's members, in order |
| `Capability.IntersectForChild` | rusty-core/src/capability.rs:275-289 | the child's set is always composed without fail and valid |
| `Capability.DelegationHoldsTheCommonMembers` | rusty-core/src/capability.rs:275-289 | a chain of any depth stays valid and holds exactly the members common to every set on it |
| `Capability.DelegationOrderIsIrrelevant` | rusty-core/src/capability.rs:275-289 | its set does not depend on the order of declarations |
| `Presets.GuardsAreTheStance` | rusty-core/src/capability.rs:455-484 | a preset's guards admit exactly its stance |
| `Presets.UnionAdmitsBoth` | rusty-core/src/capability.rs:594-603 | the union of two guard lists admits what both admit |
| `Presets.CompositionIsRestrictive` | rusty-core/src/capability.rs:440-442 | the lesser preset, and the composed resolutions, admit exactly what both admit and agree on preset, CLI mode and posture |
| `Presets.LowerRungIsKept` | rusty-core/src/capability.rs:440-442 | of two modes, postures or presets the one earlier on its ladder is kept, in either order |
| `Presets.CliModesAreBetween` | rusty-core/src/capability.rs:455-484 | the shell mode denies nothing, the read-only mode the command tool unless the call only reads, and the disabled mode exactly the command tool, which is all that any mode denies |
| `Presets.ComposedAdmitsAll` | rusty-core/src/capability.rs:594-603 | any number of resolutions compose to what all admit |
| `Versions.VersionOrder` | rusty-core/src/package.rs:268-320 | precedence is strict and transitive |
| `Versions.TiedExactly` | rusty-core/src/package.rs:152-320 | neither of two versions precedes the other if and only if they agree in numbers and, part by part, in what their labels say: as numbers where both are, as text otherwise |
| `Versions.FirstDifferenceDecides` | rusty-core/src/package.rs:268-320 | the first of major, minor and patch that differs decides; of one release a labelled version precedes the unlabelled; labels are decided by the first part that is not alike, a label that ends there coming first |
| `Versions.PartsDecide` | rusty-core/src/package.rs:296-320 | parts that spell 64-bit numbers compare by value and precede text, text compares by its first different character, and parts are alike when equal or spelling one number |
| `Versions.NumberExactly` | rusty-core/src/package.rs:296-320 | a part is read as a number if and only if it is that number's digits after any zeros and at most one plus sign, and fits 64 bits |
| `Versions.LabelParts` | rusty-core/src/package.rs:296-320 | a label's parts are what lies between its dots |
| `Versions.BuildsAreTied` | rusty-core/src/package.rs:268-283 | a version is tied to itself with any other build metadata |
| `Versions.LeadingZerosAreTied` | rusty-core/src/package.rs:296-320 | labels 1 and 01 are tied and different |
| `Chains.ComputeChain` | rusty-core/src/doctor.rs:126-200 | the loops compute the described chain or its refusal |
| `Chains.PathIsInOrder` | rusty-core/src/doctor.rs:140-156 | the path lists exactly the declared versions in range, never descending |
| `Chains.ChainIsContiguous` | rusty-core/src/doctor.rs:126-200 | every chain runs without gaps from the installed version to the target through exactly those versions, with the declared repairs and migrations |
| `Chains.PreReleasesAreVisited` | rusty-core/src/doctor.rs:140-200 | a chain to a release goes through every declared pre-release of it above the installed version, before its end and with its migrations |
| `Chains.ChainAscendsExactly` | rusty-core/src/doctor.rs:126-200 | a chain ascends strictly if and only if no declared versions in range are tied |
| `Chains.PathKeepsTies` | rusty-core/src/doctor.rs:140-156 | a path visits the versions tied with one in range in declared order, those named twice in a row once |
| `Chains.ChainExistsExactly` | rusty-core/src/doctor.rs:126-200 | a chain exists if and only if the target is ahead and is the last declared of the versions tied with it, and there is no path exactly when nothing is in range |
| `Chains.ChainIsSoundExactly` | rusty-core/src/doctor.rs:126-200 | strictly ascending with every migration in range exactly once, if and only if no versions in range are tied |
| `Chains.MigrationsOnceExactly` | rusty-core/src/doctor.rs:126-200 | a chain carries every migration in range exactly once if and only if each version that has one is named in one run among the versions tied with it |
| `Chains.MigrationsKeepDeclaredOrder` | rusty-core/src/doctor.rs:183-188 | within a step migrations keep their declared order |
| `Chains.KeyOrderIsIrrelevant` | rusty-core/src/doctor.rs:140-156 | without ties the hash map's iteration order does not matter |
| `Chains.TiedVersionsAreVisitedTwice` | rusty-core/src/doctor.rs:126-200 | any two tied versions, declared to and fro, are walked to and fro, with the first one's migrations carried twice |
| `Chains.LeadingZeroIsVisitedTwice` | rusty-core/src/doctor.rs:126-200 | so are labels 1 and 01 |
| `Chains.BuildIsVisitedTwice` | rusty-core/src/doctor.rs:126-200 | so are two builds of one release |
| `Texts.JoinOfSplit` | rusty-core/src/doctor.rs:519-528 | joining the split parts gives the text back, for every delimiter |
| `Texts.PartsAreClean` | rusty-core/src/doctor.rs:519-528 | no part holds the delimiter |
| `Texts.SplitExactly` | rusty-core/src/package.rs:296-320 | one character cuts a text into these parts if and only if they join to it and none holds it |
| `Repairs.EditIsLocal` | rusty-core/src/doctor.rs:540-559 | an edit succeeds exactly when its path leads somewhere, changes what is there and leaves every diverging path alone |
| `Repairs.RepairFailsExactly` | rusty-core/src/doctor.rs:509-538 | renaming never fails; the others fail exactly when their path leads nowhere |
| `Repairs.RenameMoves` | rusty-core/src/doctor.rs:511-518 | a rename moves one value, overwriting the new key, and leaves every other key alone |
| `Repairs.RepairsAreLocal` | rusty-core/src/doctor.rs:519-537 | splitting and defaulting change exactly the values they are meant for, and nothing beside their path |
| `Repairs.RepairTwice` | rusty-core/src/doctor.rs:509-538 | applying a repair again changes nothing |
| `Repairs.StepsFoldRepairs` | rusty-core/src/doctor.rs:424-468 | steps fold all their repairs in order |
| `Repairs.ListsAreNotRepeatable` | rusty-core/src/doctor.rs:509-538 | a concrete list of two renames gives something else the second time |
| `Repeats.RepeatableListsRepeat` | rusty-core/src/doctor.rs:509-538 | a list whose renames carry no value twice, in which no rename names a key edited before it, and whose edits of one path agree gives, on every config, the same the second time |
| `Repeats.RenameThenDefault` | rusty-core/src/doctor.rs:509-538 | so does a rename followed by a default for its target |
| `Repeats.RenamesRepeatExactly` | rusty-core/src/doctor.rs:509-538 | a list of renames does so on every config if and only if no value is carried twice |
| `Repeats.SecondTimeFails` | rusty-core/src/doctor.rs:509-538 | a default for a key that is then renamed away succeeds once and fails the second time |
| `Repeats.SecondTimeSplits` | rusty-core/src/doctor.rs:509-538 | a split and then a textual default for one key changes the config the second time |
| `Doctor.RepairStep` | rusty-core/src/doctor.rs:424-468 | the repair loop folds a step's repairs or names the first that fails |
| `Doctor.FixPackage` | rusty-core/src/doctor.rs:424-492 | after completing, halting or breaking off at any operation, config and state version are those after completed steps, the config at most one step ahead; outcomes and audit record say what happened |
| `Doctor.Diagnose` | rusty-core/src/doctor.rs:328-380 | diagnosis computes every package's chain and writes nothing |
| `Doctor.FixInner` | rusty-core/src/doctor.rs:398-499 | packages before the stopping point are fully fixed, the one there is between steps, all after it are untouched; a halt names the failing step and its error |
| `Doctor.Fix` | rusty-core/src/doctor.rs:383-396 | nothing is touched without the lock, and an acquired lock is given back exactly once whatever the outcome |
| `Doctor.NextFixPlansTheSame` | rusty-core/src/doctor.rs:328-499 | a fix leaves the next fix's plan unchanged |
| `Doctor.SecondFixOfPackage` | rusty-core/src/doctor.rs:424-499 | a second fix of a package leaves it as it is if and only if applying its repairs again gives the same config, and halts if and only if applying them fails |
| `Doctor.SecondFixIsHarmless` | rusty-core/src/doctor.rs:398-499 | if every package's repairs are repeatable, a second fix never halts and, when it finishes, changes no package |
| `Doctor.SecondFixHalts` | rusty-core/src/doctor.rs:328-499 | a package whose block supplies a default and then renames its key is planned one step, fixed once, planned the same step again and halts |
| `Hex.DecodeUndoesEncode` | rusty-core/src/broker.rs:90-108 | decoding undoes encoding |
| `Hex.EncodeUndoesDecode` | rusty-core/src/broker.rs:90-108 | encoding undoes decoding if and only if the text is lower-case hexadecimal |
| `Hex.Utf8CharHoldsTheCodePoint` | rusty-core/src/broker.rs:100-108 | a character's octets are one to four by its size, begin and go on in their ranges, and hold its code point |
| `Hex.DecodePanicsExactly` | rusty-core/src/broker.rs:100-108 | slicing the UTF-8 octets of a text fails if and only if they are even in number and, after pairs of digits only, a pair ends inside a character; any other text is read as its characters are |
| `SecretRefs.ParseIsInverseOfDisplay` | rusty-core/src/broker.rs:169-220 | a text parses to a reference if and only if the reference is grammatical and displays as that text |
| `SecretRefs.ParseExactly` | rusty-core/src/broker.rs:169-220 | which texts parse, to what, and which are refused for the prefix, the store or the key, told letter by letter |
| `SecretRefs.ParseIsInjective` | rusty-core/src/broker.rs:186-214 | different texts never parse to one reference |
| `Tokens.TokenRoundTrip` | rusty-core/src/broker.rs:709-748 | for any signature, dots included, a handle's token parses back to it if its claims are grammatical and is refused otherwise |
| `Tokens.ParseTokenExactly` | rusty-core/src/broker.rs:728-748 | any text parses to a handle if and only if it is the version prefix, hexadecimal claims up to the next dot and the signature after it, and the claims are read and grammatical |
| `Tokens.GrammaticalExactly` | rusty-core/src/broker.rs:404-412 | claims are grammatical if and only if both ids are their prefix and 32 small hexadecimal digits, the tenant is named and they expire after they are issued |
| `Tokens.TokensAreInjective` | rusty-core/src/broker.rs:709-748 | no two handles share a token, grammatical or not |
| `Tokens.ParsePanicsExactly` | rusty-core/src/broker.rs:728-748 | parsing a token fails so if and only if its prefix is right and its claims do |
| `Tokens.AccentPanics` | rusty-core/src/broker.rs:728-748 | a concrete token does, whatever its signature |
| `Mediation.RenewalIsInTime` | rusty-core/src/broker.rs:1976-1981 | serving before renewal is serving before expiry if and only if the lifetime is above minus four nanoseconds |
| `Mediation.CredentialMediator.ForRun` | rusty-core/src/broker.rs:1927-1934 | rebinding shares the cache and the tenant |
| `Mediation.CredentialMediator.Issue` | rusty-core/src/broker.rs:1949-1986 | an uninterrupted issuance serves the cached handle of exactly its key before its renewal, or else the broker's answer, which it then keeps |
| `Mediation.MoveKeepsSafe` | rusty-core/src/broker.rs:1949-1986 | every atomic section of every call, the broker's answer and its storing apart, keeps entries and snapshots minted for their own request |
| `Mediation.ServedHandlesAreLive` | rusty-core/src/broker.rs:1888-1986 | under every interleaving and clock, a served handle was minted for exactly that tenant, run, connection and scopes and has not expired |
| `Mediation.YoungHandlesAreServed` | rusty-core/src/broker.rs:1949-1986 | under every interleaving a call is served if and only if a handle was stored for its key before it looked and the last such is in the first three quarters of its life, and is served that one; otherwise it waits for the broker |
| `Mediation.CacheIsLastStored` | rusty-core/src/broker.rs:1976-1984 | after any run the cache holds for each key the handle stored last, and nothing for keys without one |
| `Mediation.IssueIsARun` | rusty-core/src/broker.rs:1949-1986 | the uninterrupted issuance, served, answered or refused, is one of those runs, with the same answer and the same cache |
| `Artifacts.CommitStarts` | rusty-core/src/artifact.rs:317-353 | a commit succeeds exactly for a well-formed address and name, record and commitment agree in every field, and a named one starts a sequence of one at index zero; an unnamed one has none |
| `Artifacts.NameExactly` | rusty-core/src/artifact.rs:432-456 | a name is well formed if and only if it has one to 128 octets in UTF-8, no white space at its ends, no control character and neither structural sign |
| `Artifacts.AddressExactly` | rusty-core/src/artifact.rs:462-474 | an address is well formed if and only if it is what 32 octets are written as |
| `Artifacts.AppendExtends` | rusty-core/src/artifact.rs:372-422 | an append succeeds exactly for a well-formed address under the head's name, extends the sequence by that version, commits to its index, and record and commitment agree in every field |
| `Artifacts.SequenceIsTheHistory` | rusty-core/src/artifact.rs:317-475 | after any declarations the head is its own last version, all addresses are well formed, and the sequence is the first version and then exactly those that joined, in order |
| `Artifacts.HistoryOnlyGrows` | rusty-core/src/artifact.rs:372-422 | every earlier sequence is a prefix of every later one |
| `Artifacts.UnnamedStaysAlone` | rusty-core/src/artifact.rs:372-422 | an unnamed record refuses every append |

## Left out

- Floating point: costs, uniforms and the delta threshold are exact reals, so rounding, NaN and infinities are not modelled.
- The generators of tapes, latencies and jitter: theorems quantify over all tapes and all jitter streams instead.
- Integer widths: the octet counts of maps, sample numbers, magnitudes and durations are modelled in the source's widths, with 64-bit addresses; elsewhere integers are unbounded, so a simulated clock of 2^64 milliseconds and a quorum of 2^31 accepted outputs, where doubling the winner's votes overflows, are not modelled.
- Pixmap.DecodePnm: an allocator that refuses less than 2^63 octets is not modelled; it would end the program too.
- CheckpointStore.ThreadStore.Write: a crash while a file is being written, which leaves only a temporary file, is not modelled, nor are thread forks, corrupt files and format versions.
- Placement.RunPlacementArm: fleet size and degradation windows are arbitrary instead of the source's four workers and two windows.
- Capsules.NarrowingStaysAdmitted: a refusal names its kind, not the offending text.
- Capsules.AddressIsMeaning: hashing and the JSON text are one injective function; schemas are JSON values without key order, so their canonicalisation is the identity.
- Doctor.FixPackage: migrations have no effect of their own, as in the source; outcome texts are the values they are formatted from.
- Doctor.Diagnose: integrity, revocation flags and pending counts are not part of this model.
- Doctor.FixInner: the store lists each package id once.
- Tokens.TokenRoundTrip: the JSON codec is any pair of functions in which reading undoes writing.
- Mediation.ServedHandlesAreLive: a poisoned cache lock, which makes every lookup a miss, is not modelled; the broker is taken to mint handles that expire after they are issued.
- Presets.CompositionIsRestrictive: an answerer is a function of the call; the journal of its answers is not modelled.
- Set and capsule ids of capability sets, catalog checks and replay guards are not part of this model: each compares one field with one constant, so a contract would repeat the comparison.
- The contract validators of race, fan-out and quorum, budgets' emptiness test and the scope difference of issuance are not part of this model: each is a conjunction of such tests on single fields.
- SHA-256, HMAC, sealing, OAuth, secret resolution, the wasm host, HTTP, text and JSON previews, telemetry and the remaining benches and examples are not part of this model.
