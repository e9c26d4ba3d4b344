# A verified model of agent-archive's ledger, schedulers and evidence

The model covers the parts of agent-archive whose correctness is a matter of algorithms rather than of field checks:
the shared read ledger and the leases taken from it, the sharding and race schedules of the test pipeline, the evidence
checks that decide whether a whole compiled inventory ran exactly once, and the algorithms that turn event streams into
timings.

| file | models |
|---|---|
| `Ledger.dfy`, `ReadBudget.dfy` | the shared ledger as a state machine, and the Go objects whose every critical section is one step of it |
| `Leases.dfy`, `WireSize.dfy`, `Retained.dfy`, `Refilter.dfy` | helpers that borrow from the ledger on many error paths and hand back once-only releases |
| `Placement.dfy`, `Shards.dfy` | longest-first scheduling |
| `Units.dfy`, `Lanes.dfy`, `Decode.dfy`, `Catalogs.dfy` | generating and validating a catalog of execution units |
| `Logs.dfy`, `Lifecycles.dfy`, `Reconcile.dfy`, `CleanRuns.dfy` | coverage and lifecycle evidence, their reconciliation over all workers, and the runs it accepts |
| `FullRace.dfy`, `NativeFull.dfy` | schedules of `go test -skip` and `-run` commands |
| `Launch.dfy` | the process supervisor and its two lanes |
| `Sweep.dfy`, `PhysicalJobs.dfy`, `ParentTimings.dfy`, `CostForest.dfy` | peak concurrency, job identities, lifecycle timings, and cost attribution |
| `Preimage.dfy` | the bytes behind a permission checksum |
| `Evidence.dfy` | retained evidence comparison and history validation |
| `Order.dfy` | sorting and sums, shared by all |

How the parts are read:

- A mutex-protected method of the Go ledger is one atomic step. `Ledgers` proves invariants of every run of steps, and
  each method in `ReadBudget` is proved to be exactly one step on a heap of aliased owners, scopes and facades.
- Between any two charges of a lease helper every other goroutine may do whatever keeps the ledger valid: the method
  `Leases.Others` changes everything except the caller's own owners. What a helper's owners hold is exact under all of
  it. In runs marked `alone` the others do nothing: then every helper leaves all earlier accounts, the unscoped charges
  and the current scope as they were, the ledger and the scope at entry move by nothing on an error and by exactly the
  lease on success (by `Ledgers.ChangeIsWhatNewOwnersHold`), the release takes exactly that away again, and each helper
  is shown to succeed exactly when its charges fit. The ledger's peak then shows the most a successful call had charged at
  once, scratch included (`Leases.Rises`), and a failure for want of room is shown to mark the owner's scope
  (`Leases.Blamed`), but for that of an envelope over its share of the room.
- What an adapter, codec, decompressor, context or JSON preflight does in a call is a parameter, and every property
  holds for all values of it.
- A Python exception or `Failure` is `None`, `false` or a named outcome. Where a script loops over mutable state the
  model has a method with that loop, proved against a function or predicate whose own properties are the results.
- Strings are ordered by code point. Times, weights and durations are integers in one unit.

Findings:

- `validate` does not establish that a name assigned as a package is a package: it accepts a catalog that assigns a CLI
  parent as one (`Reconcile.DisguisedIsValid`). It is one exactly when the name has no colon
  (`Reconcile.AssignedPackageIsWhole`), which `verify_logs` checks later.
- The terminal check that ends the per-package loop of `verify_logs` can never reject anything
  (`Lifecycles.SelectedSatisfiesTier`), nor can the final test of `partition` for duplicates, nor the re-check inside
  `cost`.
- The documentation of the required unscoped charge says its refusal defers the session to a later pass, as if others
  held the ledger. With nobody else holding anything it is still refused, and marked as pressure, exactly when it is
  larger than what the scope's own charges leave (`Ledgers.RequiredRefusalWithNobodyElse`, for instance
  `Ledgers.RefusedForItsOwnCharges`); one larger than the limit is refused on every pass
  (`Ledgers.AboveTheLimitNeverGranted`).
- `supervise` may meet its deadline without ever starting a command although everything it started exited zero before
  then, if the last exit comes after the last launch pass (`Launch.ExitAfterLastPass`); if the exits come by the top of
  the last tick, it starts everything and returns (`Launch.Supervise`).
- Coverage of retained evidence is not transitive across bundles with and without histories
  (`Evidence.MixedKindsAreNotTransitive`), and is in every other case (`Evidence.CoverageIsPreorder`).

## Model

| member | source | states |
|---|---|---|
| `Shards.WithinFourThirdsOfOptimal` | scripts/run_go_shard.py:313-344 | From zero loads, for any distinct units, any hints and any rival assignment of them to the same m workers, no worker's predicted load exceeds (4m - 1)/3m of the rival's largest load |
| `Placement.MakespanBound` | scripts/run_go_shard.py:335-339 | The same bound for placing any positive weights longest first, one by one, on the least loaded worker |
| `Placement.HeavyUnitsFit` | scripts/run_go_shard.py:335-339 | A unit heavier than a third of an achievable makespan never pushes the greedy placement past that makespan |
| `Shards.NoWorkerWorthRelieving` | scripts/run_go_shard.py:332-344 | Under any initial loads, a returned bin without its lightest unit is no busier than any other worker |
| `Placement.BalancedUnderAnyLoads` | scripts/run_go_shard.py:335-339 | Under any initial loads, every bin's last unit is its lightest, and without it the worker is no busier than any other |
| `Placement.AssignLoads` | scripts/run_go_shard.py:335-339 | Predicted loads are exactly the initial loads plus the weights of the units placed |
| `Shards.BinsPartitionUnits` | scripts/run_go_shard.py:335-344 | The bins together are a rearrangement of the units: none lost, none repeated, whatever the hints |
| `Shards.NonemptyIffEnoughUnits` | scripts/run_go_shard.py:335-342 | From zero loads every worker gets a unit exactly when there are at least as many units as workers |
| `Shards.DependsOnlyOnUnitsAndTheirHints` | scripts/run_go_shard.py:322-344 | Reordering the units, or changing hints of names that are not units, does not change the bins |
| `Shards.Partition` | scripts/run_go_shard.py:313-344 | Succeeds exactly for 1 to 16 workers, distinct units, nonnegative hints and well-shaped nonnegative initial loads, and, unless idle workers are allowed, no idle worker; returns the specified bins; its own disjoint/exhaustive test cannot fail |
| `Shards.Weigh` | scripts/run_go_shard.py:322-327 | Refuses exactly when some unit's hint is negative; otherwise every unit weighs its hint, at least one millisecond |
| `Shards.PlaceAll` | scripts/run_go_shard.py:332-339 | The placing loop computes the specified placement |
| `Placement.Least` | scripts/run_go_shard.py:337 | The least loaded worker, lowest index among equals |
| `Shards.WeightOf` | scripts/run_go_shard.py:323-327 | A unit weighs its hint, at least one millisecond, and a second without one |
| `Shards.PlacedHeaviestFirst` | scripts/run_go_shard.py:336 | Units are placed heaviest first, and of two equal ones the earlier name first |
| `Shards.HeaviestInFirstBin` | scripts/run_go_shard.py:332-344 | From zero loads the heaviest unit, the first by name among equals, goes to the first worker |
| `Order.StringLeqIsLexicographic` | scripts/run_go_shard.py:336 | Names are compared at their first difference, and a prefix comes first |
| `Lanes.Pair` | scripts/go_parent_shards.py:117-121 | The pairing loop computes the specified combination of the two lanes |
| `Lanes.LighterHostsHeavier` | scripts/go_parent_shards.py:117-121 | Each ordinary worker gets one whole CLI bin, and of two workers the idle one, or else the lighter, never gets the lighter CLI bin |
| `Lanes.CombinedUnits` | scripts/go_parent_shards.py:117-121 | Pairing both lanes keeps every unit of both, once |
| `Lanes.RepairedFills` | scripts/go_parent_shards.py:124-131 | Donating lightest units to the empty workers succeeds exactly when there is a unit per worker, then leaves no worker empty and loses no unit |
| `Lanes.Donor` | scripts/go_parent_shards.py:125-128 | The donor is the busiest worker with more than one unit, lowest index among equals; there is none exactly when every worker has at most one |
| `Lanes.Lightest` | scripts/go_parent_shards.py:129 | The moved unit is the lightest of its worker, first by name among equals |
| `Lanes.Repair` | scripts/go_parent_shards.py:124-131 | The repair loop computes the specified repair |
| `Lanes.CombinedOpposed` | scripts/go_parent_shards.py:117-121 | Every worker has its ordinary bin and one whole CLI bin, no CLI bin twice, and who is idle when another is not, or else lighter, gets no lighter CLI bin than the other |
| `Lanes.RepairRuns` | scripts/go_parent_shards.py:124-131 | The repair is a run of moves, one for each empty worker in turn: the lightest unit, first by name, of the busiest worker with more than one, lowest index first |
| `Units.SplitUnit` | scripts/go_parent_shards.py:92-93 | Encoding a package and a parent name as one unit and splitting it at the separator gives both back |
| `Units.UnitInjective` | scripts/go_parent_shards.py:92-93 | Different package and parent pairs encode to different units |
| `Units.DiscoveryUnits` | scripts/go_parent_shards.py:98-100 | For well-formed discovery the execution units are distinct, and are exactly the whole packages, the CLI parents and the parents of split packages |
| `Decode.DecodedInverts` | scripts/go_parent_shards.py:135-144 | Reading a worker's unit names back never fails and gives an assignment that stands for exactly those units |
| `Decode.DecodeWorker` | scripts/go_parent_shards.py:136-144 | The reading loop computes the specified assignment, or the ValueError of a name with two separators |
| `Catalogs.WorkerBinsFacts` | scripts/go_parent_shards.py:96-133 | Every worker has a nonempty bin, and the bins hold every execution unit once, exactly when there are at least as many units as workers |
| `Catalogs.HintPrecedence` | scripts/go_parent_shards.py:101-103 | A unit gets its parent hint; else, if it is a CLI parent, its CLI hint; else its package hint; else none |
| `Catalogs.WorkerBinsWellShared` | scripts/go_parent_shards.py:109-133 | Each lane is levelled: no bin without its lightest unit is busier than any other, the ordinary lane counting the fixed loads; no CLI bin exceeds (4m - 1)/3m of any rival's largest; the lanes are paired in opposed order, and the empty workers relieved one by one |
| `Catalogs.Build` | scripts/go_parent_shards.py:96-148 | For well-formed discovery, succeeds exactly when the workers, hints and fixed loads are acceptable and there are at least as many units as workers; the result always passes validation, and gives each worker exactly its bin of a well shared division |
| `Catalogs.ScheduleForgetsOrderAndStaleHints` | scripts/go_parent_shards.py:96-133 | The bins do not change when units are discovered in another order or hints for other names are added |
| `Catalogs.Validate` | scripts/go_parent_shards.py:174-201 | Accepts exactly the catalogs whose names are well listed, whose units are the discovered ones, sorted, and whose assignments are nonempty, disjoint and exhaustive |
| `Catalogs.ValidMeansExactlyOnce` | scripts/go_parent_shards.py:184-201 | In an accepted catalog a name is an execution unit exactly when some worker is assigned it, and then one worker, once |
| `Logs.Coverage` | scripts/run_go_shard.py:356-390 | Accepts exactly the streams in which every event is expected and not a failure, each package and each top-level test has at most one terminal, every package has one, skips are explained by missing test files, and the selected names are exactly those that ended |
| `Logs.CoveredEvent` | scripts/run_go_shard.py:356-390 | No event of an accepted stream is a failure or of another package; of selected names, no other top-level test shows up and no output says there was nothing to run |
| `Lifecycles.VerifyContainment` | scripts/go_parent_shards.py:209-230 | Accepts exactly the streams in which no event steps outside an active parent and no parent ends before its descendants |
| `Lifecycles.ContainmentMeans` | scripts/go_parent_shards.py:209-230 | A stream is accepted exactly when every descendant's event comes while its top-level parent runs, what ends was running, and no top-level parent ends while a descendant runs; a body runs from its start to the next end |
| `Lifecycles.DescendantsRunInsideParents` | scripts/go_parent_shards.py:209-230 | In an accepted stream, at every moment, a running descendant's top-level parent is running too |
| `Lifecycles.SelectedBodiesNest` | scripts/go_parent_shards.py:272-296 | In an accepted log of selected parents every started name has the sequence run, perhaps pause and cont, terminal, and every lifecycle event (any but output) of a descendant lies strictly between the run and the terminal of its top-level parent |
| `Lifecycles.SelectedExactly` | scripts/go_parent_shards.py:276-296 | The top-level names that ended are exactly the selected ones |
| `Lifecycles.Lifetimes` | scripts/go_parent_shards.py:283-286 | The table holds, for exactly the names seen, their actions in order |
| `Lifecycles.VerifySelected` | scripts/go_parent_shards.py:272-296 | Accepts exactly the logs with full coverage of the selection, matching runs and terminals, whole lifecycles, containment and no unselected top-level name |
| `Lifecycles.Terminals` | scripts/run_ci_tier.py:244-269 | Accepts exactly the streams without failures in which no body ends twice and every run body ends, and then maps each body to its own terminal |
| `Lifecycles.SelectedSatisfiesTier` | scripts/go_parent_shards.py:272-296 | The tier's terminal check can reject nothing the lifecycle checks have accepted |
| `Reconcile.VerifyLogs` | scripts/go_parent_shards.py:233-297 | Accepts exactly when discovery equals the catalog's, the logs present are the expected ones, and every whole package and selected parent has its evidence in them |
| `Reconcile.NothingUnassignedRan` | scripts/go_parent_shards.py:258-296 | In accepted logs every event belongs to a whole package or parent of that worker's assignment |
| `Reconcile.EvidenceIffAssigned` | scripts/go_parent_shards.py:258-296 | Accepted logs end a compiled unit exactly when it is assigned to that worker |
| `Reconcile.TestedPackagePasses` | scripts/go_parent_shards.py:265-271 | In accepted logs a whole package with compiled tests ends by a pass |
| `Reconcile.UntestedPackageSkips` | scripts/go_parent_shards.py:265-271 | In accepted logs a whole package without tests ends by a skip, and its output says that there are no test files |
| `Reconcile.ReconcileWorkers` | scripts/run_go_shard.py:482-608 | For versioned catalogs, accepts exactly when the shards are 0 to workers - 1, the catalog is valid, and every manifest agrees with it and its own directory's logs verify |
| `Reconcile.ShardsInjective` | scripts/run_go_shard.py:493-498 | As many different shard numbers as manifests means no two manifests share one |
| `Reconcile.VerifyEach` | scripts/run_go_shard.py:563-577 | Looking a manifest's directory up by equality finds its own, because shards are distinct |
| `Reconcile.ReconciledMeansComplete` | scripts/run_go_shard.py:482-608 | If reconciliation accepts, every compiled unit has its terminal in exactly one worker's logs |
| `Reconcile.ManifestsAgree` | scripts/run_go_shard.py:500-577 | Every accepted manifest succeeded, carries the one catalog and covers its own shard's assignment, and its directory holds exactly the logs that assignment calls for |
| `Reconcile.NothingElseRan` | scripts/run_go_shard.py:482-608 | If reconciliation accepts, every event of every directory belongs to a whole package or a parent assigned to that directory's own shard |
| `CleanRuns.CleanRunReconciles` | scripts/run_go_shard.py:482-608 | Two, four or eight workers, one for each shard of a valid catalog, reconcile if each ran and passed everything it was assigned, and nothing else |
| `CleanRuns.CleanDirectoryAccepted` | scripts/go_parent_shards.py:233-297 | The evidence of a worker that ran and passed everything it was assigned, and nothing else, is accepted |
| `CleanRuns.SelectedAccepted` | scripts/go_parent_shards.py:272-296 | A log in which every selected parent runs and passes in turn, and then its package, is accepted |
| `CleanRuns.BuiltIsRunnable` | scripts/go_parent_shards.py:135-148 | What the generator assigns as a package is a package, and it lists each parents' package once |
| `Reconcile.AssignedPackageIsWhole` | scripts/go_parent_shards.py:184-201 | In an accepted catalog of well-formed discovery a name assigned as a package is a package to be run whole exactly when it has no colon |
| `Reconcile.DisguisedIsValid` | scripts/go_parent_shards.py:184-201 | An accepted catalog that assigns a CLI parent as if it were a package |
| `FullRace.PrivateRunsExactlyOnce` | scripts/full_race.py:79-99 | Skipping a set of CLI-only names everywhere and running each private group of them in the CLI alone executes every discovered body in exactly one command, and each command executes exactly its recorded assignment |
| `FullRace.MakeSchedule` | scripts/full_race.py:79-102 | Succeeds exactly when hints of shared names are nonnegative and all selectors fit one argument; every body then runs exactly once and each command runs its record; with two CLI names to share, the second of two balanced halves runs in a process of its own, and so does the isolated parent if no other package declares it; the batches are the all-package run alone, then the two private ones together, or one by one |
| `FullRace.ScheduleSplits` | scripts/full_race.py:82-99 | A private process executes exactly its group and nothing else: one nonempty half, within 7/6 of any rival division, of at least two names only the CLI declares, the heaviest in the other half; or exactly the isolated parent |
| `FullRace.SecondHalf` | scripts/full_race.py:82-92 | The second private group is one of two nonempty balanced halves once two names can be shared, else empty |
| `FullRace.SelectableMeans` | scripts/run_go_shard.py:347-353 | A selector is accepted exactly when its names are distinct, none is below a parent, and the text of the pattern with its terminator fits in 120000 bytes |
| `FullRace.PrivateGroupsFacts` | scripts/full_race.py:82-98 | The private groups are pairwise disjoint, name only CLI bodies no other package declares, and together are exactly what the first command skips |
| `FullRace.DailySchedule` | scripts/run_ci_tier.py:330-351 | Shortening every command and putting all of them in one batch keeps every body running exactly once, and the private groups in processes of their own |
| `NativeFull.WorkerRuns` | scripts/run_native_full.py:88-113 | A native worker executes exactly the bodies whose home units it was given, each in one invocation, and each invocation what it records |
| `NativeFull.PlacedExactlyOnce` | scripts/run_native_full.py:81-115 | However the units are placed, every discovered body runs in exactly one invocation of one worker |
| `NativeFull.NativeSchedule` | scripts/run_native_full.py:81-115 | Succeeds exactly when there is a unit for each of the three workers and the selectors fit; every body then runs in exactly one invocation of one worker, that of the bin holding its unit; no bin is empty, nor heavier than 11/9 of the largest of any rival division |
| `NativeFull.PlacedFollow` | scripts/run_native_full.py:88-115 | Worker i executes exactly the bodies whose home was placed on it, in one to three full-length invocations by kind, and names every package placed on it |
| `NativeFull.PlacedBalanced` | scripts/run_native_full.py:81-87 | The three bins share out the units, none empty, the heaviest unit in the first, and none heavier than 11/9 of the largest of any rival division |
| `NativeFull.WorkerShape` | scripts/run_native_full.py:88-115 | The isolated parent, the other selected bodies of the CLI and of split packages, and the whole packages are run by different invocations |
| `NativeFull.NativeUnitsFacts` | scripts/run_native_full.py:61-64 | The units are distinct and every discovered body has its home among them |
| `Launch.Supervise` | scripts/run_go_shard.py:175-252 | Whatever the processes do, a dependent was started only after its predecessor exited zero; it returns exactly when one pass of polls sees every process exited zero, fails for a bad status exactly when a pass polls one, which is then the last, and never passes over a readable live failure; it meets the deadline only while some started process is still running at the top of the last tick, so if everything started has exited zero by then and nothing fails live, everything was started and it returns; and it returns whenever every dependency chain, the lanes overlapping, fits the deadline |
| `Launch.EveryoneStarted` | scripts/run_go_shard.py:215-218 | If everything started had exited zero by the top of a tick, the launch pass of that tick leaves nobody waiting |
| `Launch.ExitAfterLastPass` | scripts/run_go_shard.py:215-251 | The top of the last tick is needed: a process that exits between the last launch pass and its poll leaves its dependent never started, although everything started exited zero |
| `Launch.LaunchReady` | scripts/run_go_shard.py:216-218 | One pass launches everyone whose predecessor had exited zero before it, and no dependent before its predecessor has |
| `Launch.PollAll` | scripts/run_go_shard.py:240 | Each status is what its process shows at its own poll, one instant after the one before |
| `Launch.TickOnTime` | scripts/run_go_shard.py:215-252 | Progress: one more tick and every process is as far as its own dependency chain allows |
| `Launch.TwoLanes` | scripts/run_go_shard.py:737-766 | Under the chain built for ordinary commands, two commands running at the same instant are never both ordinary |
| `Launch.ChainValid` | scripts/run_go_shard.py:741-742 | The chain always is a valid dependency map |
| `Sweep.KnownPeak` | scripts/report_ci_timing.py:149-179 | The reported peak is reached at some instant and exceeded at none, counting positive allocated Linux intervals closed at the start and open at the end; it is complete exactly when no Linux job is unplaced |
| `Sweep.SweepSorted` | scripts/report_ci_timing.py:168-171 | Sweeping the sorted points gives that maximum |
| `Sweep.NeverNegative` | scripts/report_ci_timing.py:168-171 | The running count is never negative |
| `Sweep.EndsAtZero` | scripts/report_ci_timing.py:168-171 | The running count ends at zero |
| `Sweep.SumIsActive` | scripts/report_ci_timing.py:166-171 | The starts and ends up to an instant add up to the jobs running at it |
| `PhysicalJobs.PhysicalRows` | scripts/report_ci_timing.py:98-146 | The loop computes the specified rows, or the ValueError of conflicting snapshots |
| `PhysicalJobs.RowsPartitionIdentities` | scripts/report_ci_timing.py:98-146 | The input is refused exactly when two jobs of one identity have different snapshots; otherwise every non-null identity of the input is listed in exactly one row, once, and nothing else is |
| `PhysicalJobs.AliasesAreEvidenced` | scripts/report_ci_timing.py:118-139 | Every merged id belongs to an evidenced job of the same run and fingerprint, of a later attempt, created after that allocation completed |
| `PhysicalJobs.NoAliasMissed` | scripts/report_ci_timing.py:118-144 | Of two consecutive rows of one run and fingerprint, both evidenced, the later was not carried forward from the earlier: what is carried forward is merged |
| `PhysicalJobs.AliasesJoinTheLatest` | scripts/report_ci_timing.py:132-144 | A merged id joins the row that was its allocation's latest |
| `PhysicalJobs.NamelessJobsKept` | scripts/report_ci_timing.py:101-146 | Every job without an id keeps its place, and rows stand in the order of their attempts |
| `PhysicalJobs.RepeatsChangeNothing` | scripts/report_ci_timing.py:98-146 | Appending any exact repeats of identified jobs changes no row |
| `PhysicalJobs.SortAppended` | scripts/report_ci_timing.py:101-102 | A stable sort by attempt puts an appended job after everything of its attempt and changes nothing else |
| `ParentTimings.ParentTreeTimings` | scripts/report_ci_timing.py:461-529 | In one pass over a stream mixing any parents, the rows of each parent are, in order, those of its own lifecycles |
| `ParentTimings.SegmentsCutEvents` | scripts/report_ci_timing.py:496-528 | The rows of a parent cut its relevant events, in order, into consecutive lifecycles: every event in exactly one row |
| `ParentTimings.SegmentsAreCut` | scripts/report_ci_timing.py:496-528 | A parent's lifecycles are cut after its terminals, where it runs again, where its package starts again and at the end, and nowhere else: none spans two invocations of its package |
| `ParentTimings.TopLevelReported` | scripts/report_ci_timing.py:503-529 | Every lifecycle event of a top-level test is in one of its lifecycles; descendants and nameless events have none |
| `ParentTimings.CleanIffWhole` | scripts/report_ci_timing.py:470-494 | A row is free of issues exactly when it has a duration, exactly for run, terminal or run, pause, cont, terminal with valid nondecreasing times; the duration is then nonnegative and runs from the cont, or the run of an unpaused parent, to the terminal |
| `ParentTimings.RowReports` | scripts/report_ci_timing.py:461-529 | A row reports its key, its terminal's action if there is one, and each issue exactly when the events show it |
| `ParentTimings.Flush` | scripts/report_ci_timing.py:499-503 | Closing a package's open lifecycles leaves every other parent's rows and state alone |
| `CostForest.CostsCountEveryBodyOnce` | scripts/generate_go_shard_hints.py:84-134 | The costs of the selected trees add up to the own costs of all bodies, each counted exactly once |
| `CostForest.ParentIsNearest` | scripts/generate_go_shard_hints.py:109-122 | A body's parent is the nearest slash prefix whose lifecycle encloses it, and is found whenever there is one |
| `CostForest.ParentIsAround` | scripts/generate_go_shard_hints.py:109-122 | The parent found ran around the child: it began no later, ended no earlier and, if it paused, the child did not begin in the pause |
| `CostForest.CostIs` | scripts/generate_go_shard_hints.py:123-133 | A tree costs its root's elapsed time less, but never below zero, what its children held it up for (a parallel child from run to pause, any other from run to end), and the costs of its children's trees |
| `CostForest.Parent` | scripts/generate_go_shard_hints.py:109-122 | A parent is a strictly shorter slash prefix that was executed and encloses the child |
| `CostForest.SumOverChildren` | scripts/generate_go_shard_hints.py:115-119 | Summing over parents and then over their children counts every attached body once: each has one parent |
| `CostForest.Attach` | scripts/generate_go_shard_hints.py:109-122 | Fails exactly when some body below the top has no active enclosing parent; otherwise records every body's children in order |
| `CostForest.FindParent` | scripts/generate_go_shard_hints.py:110-122 | The walk over shorter prefixes computes the specified parent |
| `CostForest.CheckedCost` | scripts/generate_go_shard_hints.py:123-133 | The recursion terminates, its re-check of every child never fails, and it computes the specified cost; it fails only for a body that did not run |
| `CostForest.CliDurations` | scripts/generate_go_shard_hints.py:109-134 | Succeeds exactly when the bodies form a forest and every selected name ran, with the cost of every selected tree |
| `Preimage.ParseInverts` | scripts/muse_qualification.py:115-142 | The bytes fed to the digest decode back to exactly the ordinal, the transaction UUID value and the list of child indices and records |
| `Preimage.BytesInjective` | scripts/muse_qualification.py:115-142 | Two acceptable frames with the same bytes are the same frame |
| `Preimage.Header` | scripts/muse_qualification.py:115-119 | The bytes begin with the recipe's name and a zero byte, the ordinal in eight bytes, the transaction, and the number of children in four |
| `Preimage.ChildLayout` | scripts/muse_qualification.py:121-141 | Each child is its index in four bytes, its record's length in eight, and the record |
| `Preimage.BigEndian` | scripts/muse_qualification.py:98-101 | The most significant byte comes first |
| `Preimage.DecodeInverts` | scripts/muse_qualification.py:135-142 | Strict UTF-8 decoding (section 3 of RFC 3629) inverts encoding |
| `Preimage.DecodeIsStrict` | scripts/muse_qualification.py:135-142 | What decodes at all is the one encoding of what it decodes to |
| `Preimage.PermissionPreimage` | scripts/muse_qualification.py:91-142 | The two-pass encoding in 65536-character chunks feeds the digest exactly the whole recipe, and refuses exactly the frames with an integer out of range, too many children, a lone surrogate or more than 32 MiB of record bytes |
| `Preimage.MeasureRecord` | scripts/muse_qualification.py:132-138 | The first pass measures the encoded record, refusing exactly what cannot be encoded or does not fit |
| `Preimage.FeedRecord` | scripts/muse_qualification.py:141-142 | The second pass feeds the encoding of the whole record |
| `Preimage.FromBytesInverts` | scripts/muse_qualification.py:98-101 | Big-endian fixed-width integers in range decode back |
| `Evidence.CompareOwned` | internal/agentapi/retained_evidence.go:27-48 | The two-index loop is true only when every owned meaningful previous record is extended by an owned meaningful candidate record with the same ordinal, and always then if both bundles' ordinals increase |
| `Evidence.OwnedEvidenceCovered` | internal/agentapi/retained_evidence.go:7-48 | For every mixture of adapters and histories, accepts only what is covered, and, where two histories are compared, all of it if their ordinals increase |
| `Evidence.CoveredMeans` | internal/agentapi/retained_evidence.go:7-48 | Covered bundles are of one capture and one revision, and what the adapter compares of the one, whole, projected or record by record, it finds extended by the other |
| `Evidence.ComparedIffOwn` | internal/archive/history.go:81-88 | Of a valid history exactly the meaningful records of the session's own spans, from where its own part starts, are compared |
| `Evidence.CoverageIsPreorder` | internal/agentapi/retained_evidence.go:7-48 | Whenever the adapter's own evidence relation is a preorder, a bundle covers itself exactly when the adapter can compare it, and coverage is transitive unless exactly two of the three bundles carry a history |
| `Evidence.MixedKindsAreNotTransitive` | internal/agentapi/retained_evidence.go:15-24 | With exactly two histories among three bundles, in each of the three places, coverage fails to be transitive on valid bundles |
| `Evidence.Projection` | internal/agentapi/retained_evidence.go:70-80 | The projection keeps exactly the owned meaningful records, in order and each once, and nothing else of the history |
| `Evidence.KeptIsSelected` | internal/agentapi/retained_evidence.go:70-80 | The kept records are those of an increasing list of exactly the owned meaningful positions |
| `Evidence.Validate` | internal/archive/history.go:46-71 | Accepts exactly the contiguous, exhaustive, bounded histories with distinct rollouts |
| `Evidence.ValidateHistory` | internal/archive/history.go:91-115 | Accepts exactly the bundles of other schemas without history or ordinals, and the Codex history bundles of valid spans whose ordinals lie in their intervals and increase within each span |
| `Evidence.ValidMeansIncreasing` | internal/archive/history.go:91-115 | The ordinals of an accepted bundle increase over the whole of it |
| `Ledgers.StepConserves` | internal/agentapi/read_budget.go:71-331 | Every operation of every goroutine keeps the books: used is the unscoped charges plus the sum over all owners, each scope's used is the sum over its owners, and limit, peak and ceilings bound them |
| `Ledgers.ReachableConserved` | internal/agentapi/read_budget.go:51-331 | The books balance in every state reachable from a new ledger by any interleaving |
| `Ledgers.PeakIsMaximum` | internal/agentapi/read_budget.go:106-108 | The recorded peak is the largest charge there has been |
| `Ledgers.RefusalMovesNothing` | internal/agentapi/read_budget.go:85-133 | A refused reservation or an over-release moves no charge anywhere; an over-release or unscoped refusal changes nothing at all |
| `Ledgers.NoOverflow` | internal/agentapi/read_budget.go:83-150 | No difference or sum the code computes leaves the range of int64 |
| `Ledgers.ScopedReservationFits` | internal/agentapi/read_budget.go:30-49 | With R kept above a ceiling and at most R charged outside the scope, a scoped reservation succeeds exactly when it is nonnegative and fits the ceiling, and pressure is never recorded |
| `Ledgers.PressureMeansOthers` | internal/agentapi/read_budget.go:96-104 | Pressure recorded by a reservation or preflight refusal on a scope whose ceiling is within the limit means others hold charge |
| `Ledgers.RequiredRefusalWithNobodyElse` | internal/agentapi/read_budget.go:192-209 | With nothing charged outside the current scope, a required unscoped charge is refused, and marks pressure, exactly when it is negative or larger than what the scope's own charges leave of the limit |
| `Ledgers.RefusedForItsOwnCharges` | internal/agentapi/read_budget.go:192-209 | Such a refusal of a charge well within the limit, reached from a new ledger in three steps |
| `Ledgers.AboveTheLimitNeverGranted` | internal/agentapi/read_budget.go:83-113 | A request larger than the limit, scoped or not, is refused in every reachable state |
| `Ledgers.RefuseClassifiesAsReserve` | internal/agentapi/read_budget.go:152-168 | A preflight refusal leaves exactly the state a refused reservation of the same bytes would |
| `Ledgers.RefusalIsClassified` | internal/agentapi/read_budget.go:92-104 | A refusal marks exactly its scope: exceeded if the request is past the scope's own ceiling, else pressured if it is past the limit |
| `Ledgers.FlagsStand` | internal/agentapi/read_budget.go:85-331 | Nothing else sets or clears a flag but the mark of a refused required charge and the forgetting of the current scope's own refusal |
| `Ledgers.GrantedIffItFits` | internal/agentapi/read_budget.go:83-230 | Granted exactly when not negative and within the scope's ceiling and the limit; released exactly when held |
| `Ledgers.GrantedMoves` | internal/agentapi/read_budget.go:83-230 | What is granted or released moves the ledger and one account, or the unscoped charges, by exactly its bytes |
| `Ledgers.OpenedEmpty` | internal/agentapi/read_budget.go:69-81 | A new owner holds nothing in the current or captured scope; a new scope is current, under its own ceiling, uncharged and unmarked |
| `Ledgers.ScopeEnds` | internal/agentapi/read_budget.go:250-256 | Ending a scope restores the one before it if it is still current, and otherwise changes nothing |
| `Ledgers.AllReleasedMeansIdle` | internal/agentapi/read_budget.go:115-133 | When every owner and cache has released what it held, nothing is charged anywhere |
| `Ledgers.DelayedReleaseCreditsOriginalScope` | internal/agentapi/read_budget.go:56-60 | A release credits the scope its owner was created in, and no other, whatever scope is current by then |
| `Ledgers.ScopeBracketRestores` | internal/agentapi/read_budget.go:232-257 | Ending a scope with only charges in between restores the scope before it |
| `Ledgers.ChangeIsWhatNewOwnersHold` | internal/agentapi/read_budget.go:115-133 | While everyone else holds what they held, the ledger and each scope have moved by exactly what new owners hold |
| `Ledgers.NewOwnersMove` | internal/agentapi/read_budget.go:56-60 | New owners of one scope move the ledger and that scope by what they hold together, and no other scope |
| `ReadBudget.NativeReadBudget.constructor` | internal/agentapi/read_budget.go:51-54 | A new ledger is empty, with its limit clamped at zero |
| `ReadBudget.Reservation` | internal/agentapi/read_budget.go:69-81 | A fresh owner pinned directly to the real ledger and to the current, or captured, scope, charging nothing |
| `ReadBudget.Reserve` | internal/agentapi/read_budget.go:83-113 | Granted exactly when it fits the scope and the ledger; the objects move by exactly the ledger step |
| `ReadBudget.Release` | internal/agentapi/read_budget.go:115-133 | Panics exactly on an over-release, before anything moves; otherwise gives back exactly the bytes |
| `ReadBudget.Available` | internal/agentapi/read_budget.go:135-150 | Exactly the requests from zero to the result would be granted now |
| `ReadBudget.Refuse` | internal/agentapi/read_budget.go:152-168 | The objects move by exactly the refusal step |
| `ReadBudget.ReserveUnscoped` | internal/agentapi/read_budget.go:170-190 | Granted exactly when it fits the shared limit, on no session's account; a facade refuses |
| `ReadBudget.ReserveUnscopedRequired` | internal/agentapi/read_budget.go:192-209 | The same, and a refusal marks the current scope pressured |
| `ReadBudget.ReleaseUnscoped` | internal/agentapi/read_budget.go:211-230 | Panics exactly on an over-release, before anything moves; a facade accepts only zero |
| `ReadBudget.ScopeEnd.End` | internal/agentapi/read_budget.go:250-256 | Restores the previous scope if its own is still current |
| `ReadBudget.BeginScope` | internal/agentapi/read_budget.go:232-257 | A fresh current scope under its own ceiling, added to the ledger and nothing else; a facade panics |
| `ReadBudget.RefuseAmbient` | internal/agentapi/read_budget.go:259-280 | Flags the scope current on the ledger as a reservation would; a facade opens an owner of its captured scope and refuses on that; nil does nothing |
| `ReadBudget.ForgetScopeExceeded` | internal/agentapi/read_budget.go:316-331 | Clears only the current scope's own-ceiling flag; a facade clears nothing |
| `ReadBudget.CapturedBudget` | internal/agentapi/captured_read_budget.go:3-12 | A facade exists exactly for a scoped owner of a ledger, and points at that real ledger, never at another facade |
| `ReadBudget.CaptureFromReservation` | internal/agentapi/captured_read_budget.go:14-32 | Captures exactly the scoped owners of this very ledger and, for a facade, of its very scope |
| `Leases.Take` | internal/agentapi/read_budget.go:83-113 | Amid arbitrary interference an owner holds exactly what it was granted; undisturbed, it is granted exactly what fits, and no other account, scope or cache moves |
| `Leases.Give` | internal/agentapi/read_budget.go:115-133 | Amid arbitrary interference releasing held bytes never panics and leaves the rest; undisturbed, the ledger and the owner's scope fall by exactly those bytes |
| `Ledgers.ReserveTakesSlack` | internal/agentapi/read_budget.go:83-150 | A reservation is granted exactly up to the slack of its scope and the ledger, and takes exactly its bytes from it |
| `Ledgers.ReleaseGivesSlack` | internal/agentapi/read_budget.go:115-133 | A release gives exactly its bytes back to the slack |
| `Leases.SpareIsFree` | internal/agentapi/captured_read_budget.go:3-12 | Owners of one scope share one slack with the budget they were opened through, facades included |
| `Leases.SettledMeansCharged` | internal/agentapi/retained_envelope.go:13-42 | A helper that left its one new owner with nothing, or with a lease, has moved the ledger and that owner's scope by nothing, or by exactly the lease |
| `Leases.Lease.Close` | internal/agentapi/retained_envelope.go:40-41 | The release closure gives its bytes back once, to the ledger and the scope its owner was opened in, changes nothing after, and never panics |
| `Retained.DetachRetainedEnvelope` | internal/agentapi/retained_envelope.go:13-42 | On any error its owner holds nothing; on success exactly the bound that the returned release gives back; undisturbed, the ledger and the scope at entry have moved by exactly that, no earlier account has, and it succeeds exactly when the copy does and scratch and three bounds fit; the ledger's peak then shows the larger of the sizing scratch and three bounds |
| `Retained.ReleaseInAnotherSession` | internal/agentapi/retained_envelope.go:35-41 | A lease released once another session has begun and charged, even twice, leaves that session's charges alone and every earlier scope where it was before the lease |
| `Retained.DetachRefilterEnvelope` | internal/agentapi/retained_refilter.go:168-201 | On any error its owner holds nothing; on success exactly the bound that the returned release gives back; undisturbed, the ledger and the scope at entry have moved by exactly that, no earlier account has, and it succeeds exactly when both codecs do and scratch and two bounds fit; the ledger's peak then shows the larger of the sizing scratch and two bounds |
| `Retained.DecodeSourceLeased` | internal/agentapi/retained_decode_lease.go:33-70 | On any error its owner holds nothing; on success exactly the wire size, within the limit, that the returned release gives back; undisturbed, the ledger and the scope at entry have moved by exactly that, no earlier account has, and a measurable source that decodes succeeds exactly when its preflight, and then its wire and scratch, fit; the peak then shows the preflight scratch, or wire and scratch together, and a failure for room marks the scope |
| `Retained.CompressRetainedSource` | internal/agentapi/retained_compression.go:16-59 | On any error its owner holds nothing; on success exactly the sum of the codec's output, within the object ceiling, that the returned release gives back; undisturbed, the ledger and the scope at entry have moved by exactly that, no earlier account has, and it succeeds exactly when sizing, scratch and output fit; the peak then shows the sizing scratch, or scratch and output together, and a failure for room marks the scope |
| `Retained.Writer.Write` | internal/agentapi/retained_compression.go:68-80 | The buffer never holds a byte that is not charged, nor more than the object ceiling |
| `Retained.Encode` | internal/agentapi/retained_compression.go:53-57 | However the codec splits its output, and whether or not it fails, buffered and charged bytes agree; undisturbed, it succeeds exactly when the whole output fits |
| `Refilter.RefilterRetainedRows` | internal/agentapi/retained_refilter.go:128-166 | On any error its owner holds nothing; on success exactly what the adapter retained, within its ceiling; undisturbed, the ledger and the scope at entry have moved by exactly that, no earlier account has, and it succeeds exactly when the adapter does and that fits |
| `Refilter.CloseInReverse` | internal/agentapi/retained_refilter.go:67-75 | Closing every lease returns each owner to what it held before it, and the ledger and each scope fall by exactly the leases of the owners in them |
| `Refilter.CloseAll.Run` | internal/agentapi/retained_refilter.go:67-75 | The collected closure gives everything back once, to the ledger and the scopes its owners were opened in, and changes nothing after |
| `Refilter.OutcomeMeansCharged` | internal/agentapi/retained_refilter.go:16-126 | Whatever the outcome of the call, the ledger and the scope at entry have moved by exactly what one run of the closure will give back |
| `Refilter.RefilterReleasedTwice` | internal/agentapi/retained_refilter.go:16-126 | A call and two runs of its release leave the ledger and every scope where they were, whatever the call met |
| `Refilter.RefilterRetainedSource` | internal/agentapi/retained_refilter.go:16-126 | On every error path no owner created by the call holds anything; on success each holds exactly what one run of the returned closure gives back: the decoded rows, and the detached envelope or the encoded rows; undisturbed, the ledger and the scope at entry have moved by exactly that, no earlier account has, and it succeeds exactly when nothing fails and every charge fits what was spare at its start; on the way the ledger's peak shows exactly the high-water mark of scratch, filtered and decoded rows and envelope, and a charge refused for room marks the scope |
| `Refilter.WillingFailsForRoom` | internal/agentapi/retained_refilter.go:35-113 | A call that nothing but room keeps from succeeding meets a refusal that marks its scope, or an ordinary envelope over its share of the room |
| `Refilter.CountRows` | internal/agentapi/retained_refilter.go:89-96 | Adds up exactly the rows, declines when they no longer fit, and charges nothing while counting |
| `Refilter.LargestText` | internal/agentapi/retained_refilter.go:47-49 | The largest of the records and texts |
| `WireSize.SourceWireSize` | internal/agentapi/retained_decode_lease.go:72-107 | However the stream is cut into reads, the answer is that of the bytes read whole: too large exactly when the line or total bound is exceeded, else the total and the longest line, else the read error |
| `WireSize.LongestIsLongestLine` | internal/agentapi/retained_decode_lease.go:86-93 | The longest line counted is the longest newline-free stretch of the bytes |
| `WireSize.ScanChunk` | internal/agentapi/retained_decode_lease.go:86-93 | Scanning one more chunk carries the unfinished line across |
| `WireSize.LineCapacity` | internal/agentapi/retained_decode_lease.go:50-54 | Doubling ends with room for the longest line and one byte more up to the cap, and above 64 KiB with less than twice that |

## Left out

- Reading and writing files, JSON, gzip, SHA-256, regular expressions and real Go, Git and process calls: parameters, or absent.
- Receipt, schema, configuration, source-proof, body-evidence, plain-vet and audit fields compared in `validate`, `verify_logs` and `reconcile`: field equality without depth.
- Catalogs without a schema, and historical formats of any artifact.
- `json_stream`, `metadata`, `listed_names`, `listing` and `split_listing`: discovery arrives as the parsed value; `Units.WellFormed` and `Units.Parsed` state what the parsers guarantee.
- Names with word characters outside ASCII, and hints that are not integers.
- The hashed file name of a parent log: logs are keyed by package.
- The source of the native weights (profile and change history): weights arrive as positive integers for every unit.
- Re-verification of a recorded full-race report (`verify`, `coverage` of scripts/full_race.py): it recomputes the modelled schedule and reuses the modelled coverage.
- Signals, subreaping, procfs and cleanup of `supervise`; a live failure and the deadline are given by the tick that meets them, and running commands one at a time on a single CPU is the sequential case.
- Fingerprint and snapshot fields of physical jobs are opaque strings; minutes, percentiles and every other total of the timing reports.
- Reading raw records into lifecycles for the cost forest, and converting the cost to milliseconds.
- The hexadecimal text of a transaction UUID and of the expected digest, and the digest itself.
- `ScopePressured`, `ScopeExceeded`, `Charged` and the ambient `Available`: reads of fields the model exposes.
- Scopes ended out of order: the code documents one owner at a time.
- Identity checks, gap merging and bundle construction in the refilter: each is a success or a failure of the call.
- Catalogs.Validate: rejects names with word characters outside ASCII, and has no configuration, source or proof fields.
- Reconcile.VerifyLogs: discovery, configuration and the combined listing arrive parsed; their receipts are not compared.
- Reconcile.ReconcileWorkers: source, digest, settings, vet, audit and body-evidence fields are not compared.
- Refilter.RefilterRetainedRows: an adapter that charges its own output does so as one reservation of the owner opened for it.
- Leases.Others: interference keeps every owner and scope that existed, which the ledger never deletes.
