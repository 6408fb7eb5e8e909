# A verified model of the VWRAY control plane

The control plane keeps devices, quotas, sessions, gateway decisions, jobs, receipts, client
configurations and traffic aggregates in database rows that its services change one
transaction at a time. This project models those services in Dafny and proves what they keep:
for every input, every run of operations, every reachable state. `dafny verify dfyconfig.toml`
checks it.

## How the model is laid out

A table is a sequence of rows and a row's id is its place in it; an object that the services
update in place is a class. A method that changes state is proved equal to a function of the
old state (`EnforceHardLimit` to `Enforced`, `RollbackConfig` to `RolledBack`), and what whole
runs keep is then proved about those functions.

| files | what they model |
|---|---|
| Calendar, Time | days, months and years after ECMA-262 section 21.4.1; buckets, billing periods, ranges |
| Store, QuotaEngine, Devices, GatewayPolicy, Jobs, PolicyActions | the operations that write device, quota, session and gateway rows, and the decision read back from them |
| Effects | what each of those operations writes, column by column |
| Runs, Accounting, Revisions, Signals | what every run of those operations keeps, and what an agent can tell of it |
| Aggregator | the realtime aggregator against an unbounded history |
| Lease, LeaseProtocol | the scheduler; its lease between replicas with crashes, as steps under one clock |
| PolicyEngine, Cooldown, Simulation | the policy engine, its execution ledger, and the simulator |
| Json, CanonicalJson, Receipts | JSON text (RFC 8259, ECMA-262 section 25.5.2), its canonical form, receipts |
| Csv | CSV text and a reader after section 2 of RFC 4180 |
| RateLimit, Routing, Cost | limiter bounds, routing score and selection, money arithmetic |
| Configs, ConfigRuns | client configurations, revisions, the WireGuard address pool |
| Sums, Rollup, Volumes, Traffic, Heatmap | traffic from samples to aggregates, bill, chart and heatmap |

## Where the code and its promises part

Each of these is proved, with the exact condition under which the code does what it promises.

- **A billing period is measured at twice its traffic.** Samples are stored at hour and at day
  granularity, and the bill asks for neither, so every byte counts twice
  (`Rollup.BilledTwice`), and over any other range but for the hours and days it cuts
  (`Rollup.BilledTwiceExactly`). The chart, which asks for one, counts whole buckets once
  (`Rollup.SeriesExactly` says when that is the range); the breakdowns beside it ask for none
  (`Rollup.BreakdownCountsBoth`). Nor does the heatmap: over any range, a cell of hour 0 holds the
  whole day besides its hour, and every other cell what it should (`Heatmap.HourCellExactly`);
  a day is counted as in a bill (`Heatmap.DayIsBilled`).
- **The first revoked WireGuard credential ends issuing for good.** The allocator skips live
  addresses only; the unique index covers revoked rows too, though its comment says active ones
  (`ConfigRuns.IssuesExactlyWhileNothingRevoked`, `RevocationEndsIssuing`).
- **A rollback never goes through.** Only a rollback adds a second revision, and it needs two
  (`ConfigRuns.NothingToRollBackTo`). Given more revisions it works and can be undone. Expiring
  a revoked configuration by hand lifts the revocation (`ConfigRuns.ExpiryLiftsRevocation`).
- **Resetting a quota releases only the device the quota is bound to.** A SYSTEM, USER, CONFIG
  or NODE quota blocks the device that crossed it, and its reset leaves that device blocked
  (`Runs.ResetReleasesOwnDeviceOnly`). After an unblock the quota stays marked and is not
  enforced again before a reset (`Accounting.UnblockedRunsFree`). The periodic reset never moves
  `resetAt` on (`Jobs.DueStaysDue`).
- A quota trips at 99.95 % of its limit, because the percentage is rounded, and a zero limit
  never trips (`QuotaEngine.ExceededExactly`).
- A revision does not name one decision. Approving, rejecting, blocking and unblocking a device,
  recording traffic and resetting a quota can each change what an agent pulls from a row that
  they leave alone (`Signals.SilentChangesExactly` lists the guards, `BareChangesExactly` those
  of a device without a row, which is served under revision 0); the heartbeat reports only
  a node's highest revision, so blocking a device whose row is lower is not seen
  (`Signals.BlockSeenExactly`, and `RecordSeenExactly` for a quota); and an acknowledgement
  confirms the newest decision whatever revision it names (`Revisions.StaleAckConfirmsBlock`;
  `AckConfirmsPulled` says when that is the one pulled).
- The lease is checked and written in two statements. While no run outlives its lease, two
  replicas run a job at once exactly when one writes a claim that it checked before another
  came to run (`LeaseProtocol.ExclusiveExactly`); checking again in the write would refuse it
  (`LateWriteIsHeld`). An overrun admits a second runner, and a stale due list starts a job
  early (`OverrunAdmitsSecond`, `StaleListStartsEarly`).
- The cooldown counts from the last execution whose row was written, over every run
  (`Cooldown.ActsWhenCooledDown`), so it has holes after a lost write and a failed action
  (`UnrecordedStartsNoCooldown`), and at one millisecond (`SameInstantRepeats`). The engine's
  `matched` leaves out failed actions; the simulator is mistaken in three cases
  (`PolicyActions.SimulatorMistaken`).
- The canonical form refuses an object that is merely shared (`CanonicalJson.CanonicalText`). It
  does not tell NaN or an infinity from the string of its name, or undefined in an array from null
  (`CanonicalJson.Interchangeable`), and nothing else (`CanonicalExactly`).
- The bucket limiter allows up to twice its limit less one in one window, for every limit
  (`RateLimit.BoundIsReached`). A refused login counts as a failure, so a client that keeps
  retrying is never let in again (`RateLimit.NeverLetInAgainExactly`).
- As soon as one aggregate row has a measured optimized volume, the traffic of the rows without
  one is billed as nothing (`Cost.MixedMeasurementDropsBytes`) and shown as saved
  (`Traffic.SavedCountsUnmeasured`); a bucket whose first batch measured none never gets one
  (`Volumes.VolumeExactly`). The chart's average may exceed its peak
  (`Traffic.PeakCoversAverageExactly`).

## Model

| member | source | states |
|---|---|---|
| Calendar.DayFromYearFormula | src/server/lib/time.ts:18-38 | the day number a year starts on, by adding up year lengths, is ECMA-262's closed formula |
| Calendar.CivilRoundTrip | src/server/lib/time.ts:102-127 | every day number is the day of the year, month and date read off it |
| Calendar.DayRoundTrip | src/server/lib/time.ts:102-127 | every date within a month is read back from its day number |
| Time.BucketStart | src/server/lib/time.ts:18-29 | moving a Date by its setters gives the latest bucket boundary not after the instant |
| Time.BucketEnd | src/server/lib/time.ts:31-38 | moving a Date by its setters gives the next bucket boundary, month ends included |
| Time.BucketContains | src/server/lib/time.ts:18-38 | a bucket holds the instant it was computed for |
| Time.BucketsTile | src/server/lib/time.ts:18-38 | an instant shares another's bucket exactly when it lies within that bucket's bounds |
| Time.AlignIdempotent | src/server/lib/time.ts:18-29 | aligning twice is aligning once |
| Time.BucketsNest | src/server/lib/time.ts:18-29 | aligning finely and then coarsely is aligning coarsely |
| Time.StepsReachEnd | src/server/lib/time.ts:31-38 | stepping fine bucket ends from a coarse start reaches the coarse end exactly, leap months included |
| Time.BillingPeriod | src/server/lib/time.ts:102-127 | the Date mutations land on the Monday or the clamped date of the right month, and on the start of the following period |
| Time.WindowContains | src/server/lib/time.ts:102-127 | a billing period holds the instant it is asked for |
| Time.WindowsPartition | src/server/lib/time.ts:102-127 | an instant gets the same period as another exactly when it lies in that period |
| Time.WindowsAbut | src/server/lib/time.ts:102-127 | asked at its end, the next period starts exactly there |
| Time.WindowShape | src/server/lib/time.ts:102-127 | a week starts on a Monday and lasts 7 days; a month starts at midnight of the clamped date and lasts 28 to 31 days |
| Calendar.MonthDays | src/server/lib/time.ts:31-38 | how many days each month has |
| Time.KnownDays | src/server/lib/time.ts:102-127 | a leap day, a Monday and the first day of 1970 |
| Time.ResolveRange | src/server/lib/time.ts:56-99 | which requests are refused, that a range never ends before it starts, and that "7d" and "30d" last as long as they say, "today" begins at midnight and "month" on the first |
| Time.PresetEmptyAtBoundary | src/server/lib/time.ts:56-99 | "today" and "month" are empty exactly at the instant their day or month begins |
| Time.ElapsedWithinRange | src/server/lib/time.ts:130-141 | elapsed days lie between 0 and the range's length; they are positive exactly after its start, and all of it exactly from its end on |
| QuotaEngine.ExceededExactly | src/server/quota/engine.ts:62-102 | an enabled quota counts as exceeded exactly when already marked or, under a positive limit, at 99.95 % |
| QuotaEngine.StandingExactly | src/server/quota/engine.ts:62-102 | disabled, reached, or the higher warning threshold that the rounded percentage has come to |
| QuotaEngine.DecimalReads | src/server/quota/engine.ts:299-319 | the numbers in the reason are the bytes used and the limit in decimal |
| QuotaEngine.EnforceHardLimit | src/server/quota/engine.ts:263-345 | the five writes of the hard limit, as one state change |
| QuotaEngine.EnforcementIsWhole | src/server/quota/engine.ts:263-345 | the device is marked, no session of it is open, the newest row says so under a new, unconfirmed revision; nothing else changes |
| QuotaEngine.RaiseWarning | src/server/quota/engine.ts:207-245 | a warning is raised once for each threshold |
| QuotaEngine.RecordUsage | src/server/quota/engine.ts:111-195 | every covering quota is charged, evaluated and enforced or warned in turn, and the standings returned are the ones found |
| QuotaEngine.SetQuota | src/server/quota/engine.ts:450-531 | one quota for each scope, updated or created; refused exactly for a negative limit or a new quota of a missing device, node or configuration |
| QuotaEngine.ResetQuota | src/server/quota/engine.ts:533-594 | the quota is cleared and the device it is bound to, if any, is released |
| QuotaEngine.UnblockDevice | src/server/quota/engine.ts:596-641 | block and quota mark are cleared on the device and its gateway rows; no quota is touched |
| Devices.ApproveDevice | src/server/devices/service.ts:203-275 | approval within the device limit, default quota only where none exists, blocks untouched |
| Devices.BlockDevice | src/server/devices/service.ts:325-379 | device, sessions and gateway row of the assigned node under its next revision |
| Devices.DisconnectDevice | src/server/devices/service.ts:381-414 | the open sessions are ended and counted; no gateway decision changes |
| GatewayPolicy.AllowedExactly | src/server/gateway/policy.ts:34-63 | a device may connect exactly when it is not blocked in the console's sense, its configuration is good and its row does not forbid it |
| GatewayPolicy.BlockedExactly | src/server/gateway/policy.ts:34-63 | the answer is BLOCKED exactly for an operator's decision, or a BLOCKED row that nothing outranks |
| GatewayPolicy.DecisionExactly | src/server/gateway/policy.ts:34-63 | the four answers with their reasons, in order: the operator, the quota, the configuration, the row |
| GatewayPolicy.ConsoleAgrees | src/server/devices/service.ts:22-37 | the console calls a device blocked exactly when the agent is told so for the device itself |
| GatewayPolicy.Acknowledge | src/app/api/gateway/policy/ack/route.ts:50-65 | an acknowledgement is booked on the newest row for the node or for any node, whatever revision it names |
| Jobs.QuotaPeriodReset | src/server/automation/jobs.ts:60-123 | every due automatic quota is reset, and their number is returned |
| Jobs.DueStaysDue | src/server/automation/jobs.ts:60-123 | a quota that has come due is due again in every later run |
| PolicyActions.ExecuteAction | src/server/policy/actions.ts:521-532 | each handler answers and writes as specified, and a dry run writes nothing |
| PolicyActions.SimulatorAgreesExactly | src/server/policy/actions.ts:534-585 | "already satisfied" is "the handler has nothing to do" except in three named cases |
| PolicyActions.ActsExactly | src/server/policy/actions.ts:118-469 | for each action when it is refused, when it names nothing, and when it has nothing to do |
| PolicyActions.ActionWrites | src/server/policy/actions.ts:118-469 | for each action the fields it writes; every other field of every row stays |
| PolicyActions.AppliedSettles | src/server/policy/actions.ts:118-469 | after one applied action a second changes nothing; when exactly for a drain and for a lowered priority |
| PolicyActions.DeviceActionReachesGateway | src/server/policy/actions.ts:118-201 | an applied block or disconnect closes every session and puts its decision on every row of the device under a new revision |
| PolicyActions.DryRunPredicts | src/server/policy/actions.ts:88-116 | a dry run gives the live answer except for the two notifications |
| Runs.ReleasedExactly | src/server/quota/engine.ts:533-641 | an exceeded device is released by one operation exactly when that is a reset of a quota bound to it or an unblock of it |
| Runs.EnforcementHolds | src/server/quota/engine.ts:263-345 | over every run without such a release, no gateway is told ACTIVE, whatever row it reads |
| Runs.BlockHolds | src/server/devices/service.ts:325-379 | over every run, a blocked device stays BLOCKED until it was approved and unblocked |
| Runs.UnblockReopens | src/server/quota/engine.ts:596-641 | an unblock clears block, quota mark and security mark, reopens each row of the device that shut it out under the next revision, unconfirmed, and touches nothing else |
| Runs.ApproveAndUnblockLift | src/server/devices/service.ts:203-275 | both together lift the block, in either order, and then every row of the device lets it connect under a good configuration |
| Runs.ResetReleasesOwnDeviceOnly | src/server/quota/engine.ts:533-594 | in every reachable state a reset releases a device exactly when the quota's scope is that device |
| Runs.SystemQuotaKeepsBlocking | src/server/quota/engine.ts:533-594 | a system quota blocks a device, and its reset clears the quota and leaves the device blocked |
| Runs.ResetReopensRows | src/server/quota/engine.ts:554-580 | a reset writes ACTIVE on rows of an operator-blocked device, while the decision stays BLOCKED |
| Effects.RegisterWrites | src/server/devices/service.ts:157-201 | one new device, told to wait in private mode and only then |
| Effects.ApproveWrites | src/server/devices/service.ts:203-275 | approval and node of the device within the limit, and the default quota where it has none |
| Effects.ApprovedCountIs | src/server/devices/service.ts:203-275 | the limit counts the approved devices |
| Effects.RejectWrites | src/server/devices/service.ts:289-323 | the approval alone |
| Effects.BlockWrites | src/server/devices/service.ts:325-379 | the device, its open sessions, and the row of its node under the next revision, unconfirmed |
| Effects.DisconnectWrites | src/server/devices/service.ts:381-414 | the connection and the open sessions; no decision |
| Effects.UpdateWrites | src/server/devices/service.ts:416-452 | each given field to its own column |
| Effects.SeenWrites | src/server/traffic/collector.ts:310-320 | the connection alone |
| Effects.EnforceWrites | src/server/quota/engine.ts:263-345 | quota, device, sessions, row and record of an enforcement, and nothing else |
| Effects.WarnWrites | src/server/quota/engine.ts:207-245 | the stamp of the threshold crossed and a record of its percentage, once |
| Effects.RecordWrites | src/server/quota/engine.ts:111-195 | every live quota of the system, the device, its user, configuration or node is charged upload and download, marked at 99.95 %, or stamped at the higher threshold reached; every other is as it was |
| Effects.RecordMarks | src/server/quota/engine.ts:111-195 | the device that sent the traffic is marked exactly when one of those quotas comes to its limit by it |
| Effects.StandingsOfOne | src/server/quota/engine.ts:136-150 | the standing returned for a quota counts the traffic |
| Effects.ResetWrites | src/server/quota/engine.ts:533-594 | the quota starts over, and the device it is bound to goes offline unmarked with its rows reopened |
| Effects.PeriodResetWrites | src/server/automation/jobs.ts:60-123 | every live automatic quota whose time has come starts over, and exactly the devices those are bound to are released |
| Effects.DueCountIs | src/server/automation/jobs.ts:60-123 | the number reported is the number of quotas reset |
| Effects.SetQuotaWrites | src/server/quota/engine.ts:450-531 | limit and schedule of the quota of the scope, or a new quota that names rows that exist; usage and marks stay |
| Accounting.UsedIsChargedSinceReset | src/server/quota/engine.ts:111-195 | over every run, usage is the sum of the covering totals since the last reset |
| Accounting.LimitReachedBlocks | src/server/quota/engine.ts:111-195 | recording traffic marks a live quota and its device exactly at 99.95 %, so reaching the limit always does |
| Accounting.OncePerPeriod | src/server/quota/engine.ts:197-345 | over every run, at most one enforcement, one 80 warning and one 90 warning between resets |
| Accounting.UnblockedRunsFree | src/server/quota/engine.ts:596-641 | once marked, a quota is not enforced again in any run before its reset |
| Revisions.RowsStep | src/server/quota/engine.ts:299-319 | every operation keeps one row for each device and node, moves a rewritten row to a later revision and clears its acknowledgement |
| Revisions.RevisionIdentifiesDecision | src/server/gateway/policy.ts:34-63 | over every run, two sightings of a row under one revision show one decision |
| Revisions.AckConfirmsPulled | src/app/api/gateway/policy/ack/route.ts:50-65 | over every run between pull and acknowledgement, what is booked is the row that was pulled exactly when it is still the one acknowledged and has the revision named |
| Revisions.StaleAckConfirmsBlock | src/app/api/gateway/policy/ack/route.ts:50-65 | a late one confirms a block no gateway applied |
| Signals.SilentChangesExactly | src/server/gateway/policy.ts:34-63 | for every operation and every row it gives no new revision, the pulled decision changes exactly when the operation is on a list, under the guard given there |
| Signals.ServedRowStays | src/app/api/gateway/policy/route.ts:69-75 | the row served changes under one revision only at a tie, when the node's row has just reached the revision of the row of no node |
| Signals.BareChangesExactly | src/app/api/gateway/policy/route.ts:74-86 | for a device without a row, served under revision 0, the decision changes exactly under a second list |
| Signals.OneRowIsWritten | src/server/quota/engine.ts:299-319 | recording traffic and blocking leave alone exactly the rows of other nodes, or all when nothing is enforced |
| Signals.MarksKept | src/server/quota/engine.ts:281-286 | over every run a device over its quota carries the mark, so seeing or disconnecting it changes no decision |
| Signals.PolicyRevisionRisesExactly | src/app/api/gateway/heartbeat/route.ts:79-88 | a transaction raises the revision a node's heartbeat reports exactly when it rewrites a served row that stood highest, or adds the first |
| Signals.OperationIsOneWrite | src/server/quota/engine.ts:561-575 | every operation that neither records traffic nor assigns a node moves each row by at most one revision and adds rows at 1 |
| Signals.BlockSeenExactly | src/server/devices/service.ts:349-363 | the agent sees a block exactly when the device's row stood at the node's highest revision, or no row had one |
| Signals.BlockUnseen | src/app/api/gateway/heartbeat/route.ts:71-74 | with rows at 5 and 1, blocking the lower one leaves the reported revision at 5 |
| Signals.RecordSeenExactly | src/server/quota/engine.ts:299-319 | the agent sees enforcement exactly when it is served the row and the row, raised once for each quota enforced, passes the node's highest revision |
| Signals.AssignmentSeenExactly | src/server/devices/service.ts:203-275 | approving or updating raises the revision reported exactly when it assigns a device whose row of no node stands above it |
| Aggregator.RealtimeAggregator.Ingest | src/server/realtime/aggregator.ts:63-101 | bytes go to the total and to the node, and the two stay equal |
| Aggregator.RealtimeAggregator.Tick | src/server/realtime/aggregator.ts:115-164 | the pending bytes become the next point and an honest status; each reporting node is rated at its own bytes, those rates add up to the point direction by direction, and silent nodes keep their row |
| Aggregator.RealtimeAggregator.Push | src/server/realtime/aggregator.ts:128-140 | the shift loop leaves exactly the end of the history, at most the widest window and five |
| Aggregator.RealtimeAggregator.CapacityExactly | src/server/realtime/aggregator.ts:135-136 | the buffer holds five points more than the widest window or a minute |
| Aggregator.RealtimeAggregator.Snapshot | src/server/realtime/aggregator.ts:191-196 | the buffered points from the cutoff on, which for windows up to the widest and ticks a second apart are all of history's |
| Aggregator.PendingRaised | src/server/realtime/aggregator.ts:82-101 | the sum over the nodes rises by exactly the bytes added to one |
| Aggregator.WindowExactly | src/server/realtime/aggregator.ts:191-196 | filtering the buffer is filtering all of history exactly when everything dropped is older than the cutoff |
| Aggregator.WindowCovered | src/server/realtime/aggregator.ts:115-140 | which holds for every window below the capacity when ticks are a second apart |
| Aggregator.StatusIsHonest | src/server/realtime/aggregator.ts:166-189 | when exactly the status is LIVE, MOCK, IDLE or STALE |
| Lease.JobTable.RunAutomationJob | src/server/automation/service.ts:212-271 | conflict under a live lease, otherwise the row after claim, run and release |
| Lease.JobTable.SchedulerTick | src/server/automation/service.ts:322-359 | a job that is switched off, leased or not yet due is left alone; every other is run once, free afterwards and due one interval after its finish; the counters add up |
| Lease.DueJobs | src/server/automation/service.ts:337-344 | the list holds once every job that is switched on, due and not leased, and no other |
| Lease.DueSorted | src/server/automation/service.ts:337-344 | and is in order of due time |
| LeaseProtocol.ExclusiveExactly | src/server/automation/service.ts:219-230 | over every run with crashes in which none outlives its lease, split claims included, no two replicas ever run a job at once exactly when no claim is written while one is running |
| LeaseProtocol.LateWriteIsHeld | src/server/automation/service.ts:223-230 | at such a write the lease is held, so a check in the same statement would refuse it |
| LeaseProtocol.MutualExclusion | src/server/automation/service.ts:212-271 | so where each claim is one step, no two replicas ever run a job at once, and the lease is the runner's |
| LeaseProtocol.OverrunAdmitsSecond | src/server/automation/service.ts:220-230 | a second replica gets in exactly when the first has run as long as its lease |
| LeaseProtocol.SplitClaimAdmitsTwo | src/server/automation/service.ts:219-230 | two replicas that both pass the check before either writes both run |
| LeaseProtocol.CrashedHolderFreesJob | src/server/automation/service.ts:219-230 | from every reachable state a crashed holder blocks its job for at most the lease |
| LeaseProtocol.ListedExactly | src/server/automation/service.ts:337-344 | a replica comes to list the job exactly when it asks while the job is switched on, due and free |
| LeaseProtocol.DisabledNotListed | src/server/automation/service.ts:337-344 | over every run in which it stays switched off, the job is never listed |
| LeaseProtocol.ScheduledStartsSpaced | src/server/automation/service.ts:262-271 | a scheduled start, or its lease check, comes an interval after the last finish exactly when the row is due then |
| LeaseProtocol.StaleListStartsEarly | src/server/automation/service.ts:337-350 | two replicas that listed one due job run it back to back |
| PolicyEngine.Engine.PersistExecution | src/server/policy/engine.ts:96-162 | the upsert by dedupe key, and what a lost write leaves |
| PolicyEngine.OperatorsExactly | src/server/policy/metrics.ts:368-382 | at the threshold GTE, LTE and EQ match, above it GTE, GT and NEQ, below it LTE, LT and NEQ |
| PolicyEngine.MatchPersists | src/server/policy/engine.ts:186-455 | a match of GTE or GT persists at every higher observation, one of LTE or LT at every lower one |
| PolicyEngine.VerdictExactly | src/server/policy/engine.ts:186-455 | each verdict, by measurement, operator, dry run, override, cooldown and the handler's answer |
| PolicyEngine.KeysExactly | src/server/policy/engine.ts:88-94 | two evaluations share a row exactly for one policy, target and kind of result within one minute, and one action if one was tried |
| PolicyEngine.Engine.EvaluatePolicyTarget | src/server/policy/engine.ts:186-455 | one evaluation: its verdict, whether the operator held, the rows acted on, the ledger row and the reported id |
| PolicyEngine.Engine.EvaluatePolicy | src/server/policy/engine.ts:458-545 | every target once, with counters that are the tallies of the verdicts |
| Cooldown.LedgerCarriesLast | src/server/policy/engine.ts:137-181 | over every run, the latest execution row carries the time of the last execution that was recorded |
| Cooldown.CooldownSpacing | src/server/policy/engine.ts:254-289 | whatever changes the rows in between and whichever other writes are lost, two executions of one policy on one target are at least the cooldown apart if the earlier was recorded |
| Cooldown.ActsWhenCooledDown | src/server/policy/engine.ts:254-289 | over every run, a match is held back exactly while the cooldown since the last recorded execution runs |
| Cooldown.SameInstantRepeats | src/server/policy/engine.ts:164-181 | at the same millisecond an action may run again |
| Cooldown.UnrecordedStartsNoCooldown | src/server/policy/engine.ts:400-416 | a lost write and a failed action start no cooldown |
| Simulation.SimulatedExactly | src/server/policy/simulate.ts:94-120 | a target is matched exactly when the operator holds of what was observed |
| Simulation.SimulatePolicy | src/server/policy/simulate.ts:94-156 | every counter of the loop counts its own kind of target, and the listed outcomes are the matched and the unmeasurable ones |
| Simulation.SimulationPredictsMatches | src/server/policy/simulate.ts:94-156 | the simulated matches are the live run's, and the engine's counters partition the targets |
| Simulation.TargetsIndependent | src/server/policy/actions.ts:118-469 | an action on one target does not change what the same action finds on another |
| Simulation.SimulationPredictsNoOps | src/server/policy/simulate.ts:120-140 | "already satisfied" is a live no-op exactly when the simulator is not mistaken about the target |
| Json.RoundTrip | src/server/lib/crypto.ts:144-162 | every printed value is read back, with whatever follows it that does not continue a number |
| Json.PrintInjective | src/server/lib/crypto.ts:144-162 | two values print alike exactly when they are equal |
| Json.ArrayOfTwo | src/server/lib/crypto.ts:144-162 | how an array is spelled |
| Json.ObjectOfTwo | src/server/lib/crypto.ts:144-162 | how an object is spelled |
| Json.EscapesExactly | src/server/lib/crypto.ts:144-162 | which code units are escaped |
| CanonicalJson.SortedAscending | src/server/lib/crypto.ts:144-162 | the members are the defined ones, in ascending order of keys |
| CanonicalJson.Normaliser.Normalise | src/server/lib/crypto.ts:144-162 | the normaliser with its seen set gives the normal form, and fails exactly when an object is met twice |
| CanonicalJson.CanonicalText | src/server/lib/crypto.ts:144-162 | an error exactly for a repeated object, shared ones included |
| CanonicalJson.CanonicalExactly | src/server/lib/crypto.ts:144-162 | two values have one text exactly when they are the same but for key order, undefined fields and two kinds of interchangeable scalars |
| CanonicalJson.SayableExactly | src/server/lib/crypto.ts:144-162 | where numbers are finite and only fields undefined, two values have one text exactly when they are equivalent |
| CanonicalJson.CollidingValues | src/server/lib/crypto.ts:144-162 | NaN with its name, undefined in an array with null |
| CanonicalJson.OddSpelling | src/server/lib/crypto.ts:144-162 | the names of the numbers that are not finite |
| CanonicalJson.SharedObjectRefused | src/server/lib/crypto.ts:144-162 | one object under two fields is refused |
| Receipts.PayloadCoversRow | src/server/receipts/service.ts:218-268 | two rows have one payload exactly when no covered column differs |
| Receipts.PayloadAt | src/server/receipts/service.ts:218-268 | each column is printed under its own name |
| Receipts.Register.CreateReceipt | src/server/receipts/service.ts:439-454 | the stored columns, payload and hash |
| Receipts.Register.VerifyReceipt | src/server/receipts/service.ts:561-602 | both comparisons, of the stored payload's hash and of the rebuilt payload |
| Receipts.Register.VoidReceipt | src/server/receipts/service.ts:604-628 | only the status changes, once |
| Receipts.ValidExactly | src/server/receipts/service.ts:561-602 | with an injective hash a receipt is valid exactly when payload and covered columns are as issued |
| Receipts.VoidedNeverValid | src/server/receipts/service.ts:604-628 | voiding keeps the hash match and makes the receipt invalid |
| Receipts.ValidUntilVoided | src/server/receipts/service.ts:561-628 | over every run of creating and voiding, each receipt's hash matches, it is valid exactly when not void, and it is void exactly when it was or the run voided it |
| Csv.CsvRoundTrip | src/server/http/respond.ts:117-130 | any table with a column reads back as its header and one record for each row, cell by cell |
| Csv.NoFormulas | src/server/http/respond.ts:117-130 | no field read back starts a formula |
| Csv.Marks | src/server/http/respond.ts:117-124 | the marks of the format and what starts a formula |
| Csv.CellExamples | src/server/http/respond.ts:117-124 | a formula is neutralised, a quote doubled, a missing cell empty |
| Csv.LineExamples | src/server/http/respond.ts:124-130 | cells are separated by commas and lines by CRLF |
| Csv.NeutralisedAlike | src/server/http/respond.ts:117-124 | which two texts are shown alike |
| RateLimit.HotCache.Sweep | src/server/auth/rate-limit.ts:23-27 | deleting while walking leaves exactly the live buckets |
| RateLimit.HotCache.CheckHotBucket | src/server/auth/rate-limit.ts:47-64 | the decision and the cache after it |
| RateLimit.FewerThanTwiceTheLimit | src/server/auth/rate-limit.ts:47-64 | over every run, fewer than twice the limit pass in any half-open interval of the window's length |
| RateLimit.BoundIsReached | src/server/auth/rate-limit.ts:47-64 | for every limit and window a run reaches twice the limit less one |
| RateLimit.SweepingIsInvisible | src/server/auth/rate-limit.ts:23-64 | over every run, sweeping never changes a decision |
| RateLimit.AttemptLedger.Check | src/server/auth/rate-limit.ts:70-96 | the decision, and that the time to wait reaches the expiry of the oldest failure |
| RateLimit.AttemptLedger.LoginWithPassword | src/server/auth/service.ts:162-262 | limiter first, then credentials, and a row either way |
| RateLimit.AtMostLimitFailures | src/server/auth/rate-limit.ts:70-96 | any closed interval of the window's length holds at most the limit of failures that got past the limiter |
| RateLimit.RefusalCountsAsFailure | src/server/auth/service.ts:166-200 | a refused login adds to the failures the next one meets |
| RateLimit.NeverLetInAgainExactly | src/server/auth/service.ts:166-200 | over every run, a client that went wrong up to the limit is never let in again exactly when no limit + 1 logins in a row take longer than the window |
| Routing.GoodnessMonotone | src/server/routing/score.ts:101-110 | goodness lies from 0 to 100 and never falls as a measurement improves |
| Routing.GoodnessScale | src/server/routing/score.ts:257-264 | for each metric where goodness is 100, where 0 and where 50 |
| Routing.GoodnessEven | src/server/routing/score.ts:106-110 | in between it falls evenly |
| Routing.KeysAreAll | src/server/routing/score.ts:251-264 | every metric is counted, and once |
| Routing.ScoreRoundsMean | src/server/routing/score.ts:266-290 | the contributions divided out are the rounded weighted mean; there is a score exactly when measured weight is positive |
| Routing.ScoreIsWeightedMean | src/server/routing/score.ts:266-290 | the score is within 0.05 of the mean and between the rounded bounds of the goodness |
| Routing.ScoreWithinExactly | src/server/routing/score.ts:266-290 | every score of goodness within a range stays in it exactly when rounding takes neither bound out |
| Routing.ScoreMayLeaveRange | src/server/routing/score.ts:266-290 | a goodness of 33.33 alone scores below itself |
| Routing.UnmeasuredWeightIgnored | src/server/routing/score.ts:266-290 | the weights of unmeasured metrics play no part |
| Routing.NodeScoreInRange | src/server/routing/score.ts:233-290 | a node's score lies from 0 to 100, whatever was measured |
| Routing.Eligibility | src/server/routing/score.ts:292-325 | a node is eligible exactly when no rule excludes it, and otherwise the reason is the first rule that does |
| Routing.SelectsFirstBest | src/server/routing/score.ts:416-442 | the ranking's head is the first of the best eligible nodes that are not excluded; nothing is selected exactly in manual mode or without a candidate |
| Routing.ScoreImproves | src/server/routing/score.ts:266-290 | better measurements never lower a score |
| Routing.ImprovementKeepsSelection | src/server/routing/score.ts:379-442 | a selected node that improves stays selected |
| Cost.CostFollowsFormula | src/server/billing/service.ts:134-180 | the charge is within 0.00005 of the formula and never falls as more is carried |
| Cost.SavedCostExactly | src/server/billing/service.ts:134-180 | the saving is the difference of the charges exactly when optimizing was not dearer, and is never negative |
| Cost.MoneyRounds | src/server/billing/service.ts:124-126 | money is rounded to four places, halves away from zero |
| Cost.FreeQuotaIsFree | src/server/billing/service.ts:147-154 | up to the free quota the charge is the base fee, beyond it only the excess is charged, for raw and optimized volume alike |
| Cost.MoreCostsItsPrice | src/server/billing/service.ts:147-154 | two volumes beyond the free quota differ by the price of their difference |
| Cost.FreeQuotaExample | src/server/billing/service.ts:147-154 | 15 GB of which 10 are free |
| Cost.WorkedExample | src/server/billing/service.ts:128-133 | the documented example |
| Cost.ReceiptAddsUp | src/server/receipts/service.ts:65-80 | base fee and subtotal differ from the total by no more than the three roundings |
| Cost.ProjectionCoversCost | src/server/billing/service.ts:549-595 | when a projection is available, and that it is at least the cost less half a cent |
| Cost.MeasurePeriod | src/server/billing/service.ts:188-216 | the loop over the groups adds up all rows; optimized bytes are absent exactly when no row has any |
| Cost.MixedMeasurementDropsBytes | src/server/billing/service.ts:200-216 | the bytes charged are the bytes carried exactly when no row or every row with bytes was measured |
| Configs.AllocateTunnelAddress | src/server/configs/service.ts:134-148 | the least host that is not live, failing exactly when all 253 are |
| Configs.Registry.GenerateConfig | src/server/configs/service.ts:217-428 | the checks in order; then credential, configuration, first revision and assignment, or no change |
| Configs.GenerateExactly | src/server/configs/service.ts:217-428 | refused for a missing device, by a check, when hosts 2 to 254 are all live, or when any credential has the least free one; else issued with that one |
| Configs.RefusalExactly | src/server/configs/service.ts:217-262 | which check refuses, in the order they are made |
| Configs.Registry.RevokeConfig | src/server/configs/service.ts:500-553 | the configuration, every live credential of its device and the device's assignment |
| Configs.RevokeWrites | src/server/configs/service.ts:500-553 | the status, every credential of the device and its assignment, and no other row |
| Configs.Registry.RollbackConfig | src/server/configs/service.ts:563-645 | the refusals in order, or a new revision with the target's payload |
| Configs.Registry.ExpiredCredentialCleanup | src/server/automation/jobs.ts:178-202 | a batch of at most 500 lapsed credentials is revoked |
| Configs.Registry.ExpiredConfigCleanup | src/server/automation/jobs.ts:204-228 | a batch of at most 500 outdated active configurations is expired |
| Configs.CredentialCleanupExactly | src/server/automation/jobs.ts:178-202 | up to a cut every live credential whose time has come is revoked and nothing else; short of 500 the cut is the end |
| Configs.ConfigCleanupExactly | src/server/automation/jobs.ts:204-228 | likewise for active configurations |
| Configs.ExpireWrites | src/app/api/configs/[id]/route.ts:88-99 | status and time of one configuration |
| Configs.RollbackExactly | src/server/configs/service.ts:576-637 | a rollback goes through exactly for an earlier revision of a configuration that is not revoked, and keeps the chain |
| Configs.RollbackUndone | src/server/configs/service.ts:555-562 | a second rollback restores the payload the first replaced |
| ConfigRuns.LiveAddressesDistinct | src/server/configs/service.ts:128-148 | over every run, live addresses differ and lie in .2 to .254 |
| ConfigRuns.IssuesExactlyWhileNothingRevoked | src/server/configs/service.ts:134-148 | after every run, the next address is issued exactly when none was ever revoked and fewer than 253 were issued |
| ConfigRuns.RevocationEndsIssuing | src/server/configs/service.ts:379-390 | after one revocation no operation of any run issues an address |
| ConfigRuns.SecondGenerationRefused | src/server/configs/service.ts:134-148 | generate, revoke, generate: the third is refused with no address live |
| ConfigRuns.ChainsKept | src/server/configs/service.ts:576-637 | over every run, revision numbers are contiguous, the last alone is active and current, and no stored revision changes |
| ConfigRuns.NothingToRollBackTo | src/server/configs/service.ts:405-428 | over every run from a new installation, every configuration has one revision and every rollback is refused |
| ConfigRuns.RevokedStays | src/server/configs/service.ts:590-592 | a revoked configuration stays as it is through every run that does not expire it by hand |
| ConfigRuns.ExpiryLiftsRevocation | src/server/configs/service.ts:590-592 | expiring it opens it to a rollback to any earlier revision |
| ConfigRuns.RevokeReachesDevice | src/server/configs/service.ts:513-530 | revoking one configuration takes the credentials of its siblings, and no other device's |
| Rollup.RollUp | src/server/traffic/buffer.ts:131-248 | every sample goes to the hour and the day of each of its dimensions |
| Rollup.DimensionsExactly | src/server/traffic/buffer.ts:131-248 | a sample counts for the system and exactly the entities it names |
| Rollup.AggregateTable.Flush | src/server/traffic/buffer.ts:257-345 | the upserts with increments |
| Rollup.NothingLost | src/server/traffic/buffer.ts:131-345 | over every history of flushes, a query reads each sample's bytes once for each granularity it asks for |
| Rollup.SeriesCountsOnce | src/server/analytics/traffic.ts:166-182 | over any range the series counts every byte once, between the first bucket boundaries from the range's start and end on |
| Rollup.SeriesExactly | src/server/analytics/traffic.ts:191-230 | which is what the range carried exactly when the head it drops carried what the tail it takes in did |
| Rollup.SeriesUpToNow | src/server/lib/time.ts:56-99 | so a range from a boundary to now is shown exactly |
| Rollup.BillCountsHoursAndDays | src/server/billing/service.ts:188-216 | over any range the bill counts the hours that begin in it and again the days that begin in it |
| Rollup.BilledTwiceExactly | src/server/receipts/service.ts:397-400 | over any range it measures twice what was carried exactly when the cut hour and day at either end carried alike |
| Rollup.BilledTwice | src/server/billing/service.ts:188-216 | the bill measures every byte of a billing period twice |
| Rollup.BreakdownCountsBoth | src/server/analytics/traffic.ts:381-397 | over any range an entity's bytes in a breakdown are those of its hourly and daily charts together, twice its traffic exactly when a bill would be |
| Volumes.UpsertVolume | src/server/traffic/buffer.ts:309-318 | an upsert onto a measured row adds exactly, and onto an unmeasured one nothing |
| Volumes.RollUpVolume | src/server/traffic/buffer.ts:131-248 | within a batch a row has the measured volume of its samples |
| Volumes.StoredVolume | src/server/traffic/buffer.ts:131-318 | after every history, a row holds the sum of what was measured if the first batch that touched it measured any of it, and otherwise none |
| Volumes.VolumeExactly | src/server/traffic/buffer.ts:131-318 | so it holds what it should exactly when that batch measured any, or no batch did |
| Volumes.MeasuredTooLate | src/server/traffic/buffer.ts:309-318 | any unmeasured batch before a measured one loses what was measured |
| Traffic.FoldBuckets | src/server/analytics/traffic.ts:269-299 | one bucket for each start, ascending, with the totals of its rows |
| Traffic.FoldIgnoresOrder | src/server/analytics/traffic.ts:269-299 | the fold does not depend on the order of the rows |
| Traffic.Summarise | src/server/analytics/traffic.ts:302-378 | the totals, the saving with its percentage and kind, the first greatest rate, the average and the rest |
| Traffic.ChartAddsUpToSummary | src/server/analytics/traffic.ts:269-345 | the buckets add up to the summary's totals |
| Traffic.SavedCountsUnmeasured | src/server/analytics/traffic.ts:334-360 | the saving is the measured one exactly when unmeasured rows carried nothing |
| Traffic.PeakCoversAverageExactly | src/server/analytics/traffic.ts:317-352 | the peak is at least the average, whatever the buckets carry, exactly when their widths fit the range |
| Heatmap.Accumulate | src/server/analytics/heatmap.ts:102-141 | the cells, the totals of the rows of the map and the grand total |
| Heatmap.OneCellPerPlace | src/server/analytics/heatmap.ts:131-137 | no two cells share a place |
| Heatmap.CellsAddUp | src/server/analytics/heatmap.ts:110-141 | the cells add up to the rows, in each cell, each row of the map and all of it |
| Heatmap.LevelShares | src/server/analytics/heatmap.ts:143-159 | of n cells at least n/4 + 1 are low and at most n - 1 - 3n/4 at the peak |
| Heatmap.DistinctShares | src/server/analytics/heatmap.ts:143-159 | where no two cells carry the same, the shares are exactly n/4 + 1, n/2 + 1 and 3n/4 + 1 |
| Heatmap.LevelsFollowBytes | src/server/analytics/heatmap.ts:154-159 | levels never fall as bytes rise; uniform cells are all low |
| Heatmap.HourCellHolds | src/server/analytics/heatmap.ts:76-129 | over every range, a cell by the hour holds what its hour carried if it begins in the range, and at hour 0 the day besides |
| Heatmap.HourCellExactly | src/server/analytics/heatmap.ts:76-129 | a cell whose hour begins in the range shows that hour's traffic exactly when it is not of hour 0 or the day carried nothing |
| Heatmap.EntityCellHolds | src/server/analytics/heatmap.ts:76-129 | the maps by device, node and user hold the same of each entity, hour by hour |
| Heatmap.DayIsBilled | src/server/analytics/heatmap.ts:76-133 | over every range, a day by the hour and by the day is counted as in a bill of the part within the range |
| Heatmap.MidnightCellHoldsDay | src/server/analytics/heatmap.ts:76-133 | so a whole day is shown at twice its traffic, and the cell of hour 0 holds that hour's and the day's |

## Left out

- Concurrency inside one service: a committed transaction is one step and steps do not overlap, except in LeaseProtocol, which interleaves the two statements of the lease.
- Floating point and the 20 digits of Decimal: amounts, rates and percentages are exact reals or integers, rounded only where the code rounds.
- The range of a Date (ECMA-262 TimeClip): time values are unbounded integers.
- The sign of zero: a finite number is the token it prints as, which 0 and -0 share. Key order of integer-like keys and `__proto__` in JavaScript objects: keys sort as texts. Circular values: a JSON value is a finite tree whose objects carry identities.
- Hashing, sealing and random tokens: the hash is any injective function, a sealed payload stands for its plaintext.
- Notifications, the event stream, audit text, labels and timelines, but for the records of quota events.
- Opening sessions, which the gateway's session reports do: no run property depends on it, and the sessions a run starts from are arbitrary.
- Metric observers and anomaly detectors: an observation is any optional number.
- PolicyEngine: `evaluatePolicies`, its guard against overlapping runs and its sum over policies, and policies that do not parse, because they add no state of their own.
- The order of the database where the code asks for none: RecordUsage, QuotaPeriodReset and the cleanup jobs take rows in the order of their ids; of two rows at one revision, GatewayPolicy.RowAcked takes the node's own before that of no node.
- RateLimit.AttemptLedger: one kind and identifier, and the ledger in order of time.
- Configs: the payload size limit and the calls to the gateway adapter; deleting a device, which deletes its credentials, is not an operation of the runs.
- Rollup: packets and connections, a flush that fails halfway and is repeated, and retention. The keys of the fold are tuples, not joined texts.
- Heatmap: the cap of 200 000 rows, the axes and the labels' texts. `resolvePrimaryDimension` and `granularityFor` of the traffic query only choose a query.
- Traffic.Summarise: rates are bytes a second as exact reals, so the checks for infinite rates have no counterpart.
- Billing settings, storing cost records, and PDF and QR rendering.
- User interface, routes, cookies, authentication beyond the login limiter, address classification and redaction.
