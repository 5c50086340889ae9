# Verified model of the discovery and compliance core

The project models, in Dafny, two groups of components of the backend and proves what they promise.

**Durable discovery jobs.** Job rows are shared by workers, recoverers and operators. A run is any
sequence of steps by any number of sessions: reads, compare-and-set UPDATEs, inserts, claims, lease
renewals, commits, rollbacks and the passing of time (`JobRows`, `JobProtocol`, `JobRuns`,
`LeaseSafety`, `RecoveryRaces`, `UnguardedWrites`). A `Session` object issues these steps; the
repository, fan-out, worker and execution code is written as methods over it, and other sessions may run
wherever that code waits on the database (`Sessions`, `JobRepository`, `Fanout`, `FanoutResults`,
`JobTrees`, `Worker`, `Execution`, `Scopes`).

**Decision algorithms.** Policy inheritance over possibly cyclic graphs and the compilation of a list of
packages (`PolicyInheritance`, `PolicyResolution`), transport fallback and its verdict (`Fallback`,
`ResultStates`), transport policy (`TransportPolicy`), rule selection, waivers, scores and per-policy
decisions (`Scoring`, `Evaluation`, `Decisions`), comparison of NetBox inventory with live devices
(`Matching`, `Differences`, `Comparison`, `Findings`, `Drift`), and snapshot merge (`Snapshots`). Python's insertion-ordered dictionaries are `OrderedDicts`.

Run `dafny verify dfyconfig.toml` to check everything.

## Assumptions about the surroundings

- One clock, in microseconds, serves the database and all workers, and it never goes back.
- A transaction sees committed rows and its own writes. A row it has written is locked until it ends; a
  statement on a row locked by somebody else either waits for that or ends in a database error. A
  guarded UPDATE that finds no row rolls the whole transaction back.
- A claim and a lease renewal are each one UPDATE that commits at once, as in the worker and execution
  code, where no statement stands between.
- The two UPDATEs guarded by id and tenant only (discovery_repositories.py:1107-1122, fanout.py:384-403)
  are taken as one step with the read before them. `UnguardedWrites` has them as steps of their own and
  says exactly when that makes no difference. `record_selection` (discovery_repositories.py:1154-1184) is
  a third one; it writes no lifecycle column and needs no assumption.
- Call sites: `transition` is called with terminal targets only, SUCCEEDED always with
  `require_no_cancellation`; a child is claimed with its root's owner and lease; a tree is cancelled only
  on a cancellation that was read before. `JobProtocol.LicensedIn` writes these down and every method
  proves them before it issues a statement.
- When an operation raises, its caller rolls back; methods that return an error have done so.
- Most contracts hold under any interference and say what must have stood in the way when an operation
  fails. `Session.Alone` is the case of nobody else at work: then operations fail only for a reason in
  the rows themselves. `JobTrees.Blocked` is the one reason for which ending a tree can still fail: an
  expected address has no result yet, and another job is active in the place of its child.
- Identifiers are fresh and opaque. The device results of one job tree are written only by the session
  that works on it, and are selected in insertion order. In the code a worker whose lease has lapsed and
  the session that recovers its tree can both write them, so the results about reconciliation speak of
  one of them at a time; job rows are under no such limit.
- Text normalization (`strip().casefold()`) is an arbitrary function. Transport names are ASCII.
- Addresses, networks and their text form come from an address library that writes different addresses
  differently.

## Where the code decides against its description or a natural expectation

- Inheritance resolution lists every ancestor twice, once by its own recursive call and once by its
  child's (policies/evaluation.py:133-137); the compiled policy is not affected because rule keys are
  taken once. `PolicyInheritance.ResolvesReachable` states the exact number.
- What is compiled is the latest version of a policy, but what is inherited from is the version given
  last under the id (policies/evaluation.py:49-57). So compiled policies depend on the order of the
  packages: `PolicyResolution.SourcesOrderFreeIff` is the exact condition under which they do not,
  `OldBaseIsInherited` an input in two orders. And an older version of the root can be one of its own
  ancestors; then parents do not come before children by id, although they do by package
  (`PolicyInheritance.ParentsFirstIff`, `ParentPackagesFirstIff`, `OlderVersionOfRootIsListed`).
- Outcome counts of a parent balance only without stray results. A device result whose address was
  replaced by the device's management address is looked up under no expected address.
  `FanoutResults.ConservationIffNoStrays` is the exact condition, `StrayExample` an input.
- A profile of plain HTTP with `allow_insecure_http` alone resolves to an empty policy, because `HTTP`
  entries are dropped unless both insecure flags are set. `TransportPolicy.EmptyPolicyIff` is the exact
  condition, `PlainHttpProfileIsEmpty` an input.
- A MAJOR change of a policy's version keeps the major number and clears the others
  (policies/models.py:206-215), so the result is never later than the old version and is not selected
  in its place. `PolicyResolution.BumpIsLaterIff` and `BumpTakesOverIff` say exactly which changes are,
  `MajorBumpIsEarlier` is an input.
- Interface differences are filed under "device:interface", so differences of two devices can replace
  one another when a device name contains a colon. `Findings.NeverReplacedIff` is the exact condition on
  the two names, `Findings.OneDifferenceLost` an input.
- A recovery judges the lease of the row it has read; its UPDATE checks state and owner only. An owner
  that renews in between loses the job all the same (`RecoveryRaces.RecoveryTakesWhateverStillRuns`,
  `RecoveryEndsRenewedJob`). A punctual owner is not affected, since no recovery ever accepts its row.
- A worker that stalls until its root has been recovered can still create and claim a child. Once that
  child expires, no scan finds it (`JobRuns.ExpiredChildIsFoundIff`, `RecoveryRaces.OrphanedChild`).
- Merging with the empty snapshot is not neutral. Last, it can change version and time and removes
  repeated device ids; first, it can change the time and removes repeated ids
  (`Snapshots.EmptyLastIsNeutralIff`, `EmptyFirstIsNeutralIff`, input `EmptyIsNotNeutral`).
- An UPDATE guarded by id and tenant only can give a finished job a second outcome
  (`UnguardedWrites.TwoOutcomes`, a run; `UnguardedWriteIsSafeIffTimely`, the exact condition).

## Model

| member | source | states |
|---|---|---|
| `JobRows.UpdateKeepsRow` | backend/app/persistence/discovery_repositories.py:669-725 | every guarded UPDATE a call site can issue keeps the row invariant, moves the row only forward, and never touches the outcome of a finished row |
| `JobRows.UpdateStamps` | backend/app/persistence/discovery_repositories.py:669-818 | a guarded UPDATE dates a cancellation request and the end of a job when it is written and touches no other of these columns |
| `JobRows.ClaimKeepsRow` | backend/app/persistence/discovery_repositories.py:593-613 | a matching claim keeps the row invariant and moves the row forward |
| `JobRows.RenewKeepsRow` | backend/app/persistence/discovery_repositories.py:632-656 | a matching renewal keeps the row invariant and moves the row forward |
| `JobRows.UnguardedWriteOverwrites` | backend/app/discovery/fanout.py:384-403 | a concrete finished row whose outcome such an UPDATE would replace |
| `JobProtocol.MergeSound` | backend/app/persistence/discovery_repositories.py:617-621 | two transactions holding different row locks, each sound on its own view, commit to a sound table |
| `JobProtocol.StepKeeps` | backend/app/persistence/discovery_repositories.py:571-1206 | the whole invariant (row facts, tree depth, justified cancellations, one active job per target, locks, leases) is kept by every step of any session |
| `JobRuns.RunKeeps` | backend/app/persistence/discovery_repositories.py:571-1206 | the invariant holds after every interleaving of read, compare-and-set, commit and rollback steps |
| `JobRuns.FinishedForever` | backend/app/discovery/contracts.py:128-155 | in every interleaving a finished job keeps state, completed_at, failure code and cancellation columns for ever |
| `JobRuns.OneOutcome` | backend/app/persistence/discovery_repositories.py:669-725 | over any run each job gets at most one terminal write |
| `JobRuns.ClaimedAtMostOnce` | backend/app/persistence/discovery_repositories.py:587-623 | over any run a job is claimed at most once and attempts never exceed one |
| `JobRuns.LosingClaim` | backend/app/persistence/discovery_repositories.py:593-623 | once a claim has won, every later claim on the row changes no row and no driver |
| `JobRuns.OwnerNeverChanges` | backend/app/persistence/discovery_repositories.py:1011-1038 | a running job keeps its one owner until it finishes; it is never resumed by another |
| `JobRuns.CommittedRows` | backend/app/persistence/discovery_repositories.py:341-397 | owner, lease and heartbeat are set together and only while running, completed_at exactly when terminal, one queued or running job per tenant and target |
| `JobRuns.CancellationSafety` | backend/app/persistence/discovery_repositories.py:727-841 | a succeeded job was never asked to stop; a cancelled job carries CANCELLED and it or its parent was asked to stop |
| `JobRuns.ChildFollowsRoot` | backend/app/discovery/fanout.py:110-119 | in every reachable state a running child of a running root has its owner and a lease no earlier than its lease |
| `JobRuns.ExpiredChildIsFoundIff` | backend/app/persistence/discovery_repositories.py:986-1009 | the scan finds the tree of an expired running child exactly while its root is running and not the protected job |
| `JobRuns.ForeignSteps` | backend/app/persistence/discovery_repositories.py:571-1206 | whatever other sessions do, a session keeps its own writes and memory, and the rows it sees only move forward |
| `LeaseSafety.LeaseNeverLapses` | backend/app/persistence/discovery_repositories.py:625-656 | if renewals are never further apart than a gap below the lease, the lease is live at every moment the job runs |
| `LeaseSafety.ConfiguredWorkerIsSafe` | backend/app/discovery/worker.py:214-249 | from the empty table on, a configured worker that renews within two heartbeats never loses its job to recovery or force-resolve |
| `LeaseSafety.LapseBoundary` | backend/app/persistence/discovery_repositories.py:881-903 | the two checks of a lease: the UPDATE of force-resolve passes from one lease after the last beat on, the check recovery makes on the row it has read after that |
| `LeaseSafety.ChildrenAreProtected` | backend/app/persistence/discovery_repositories.py:632-656 | while the root is protected, so is every running child of it |
| `RecoveryRaces.AcceptedIffSafe` | backend/app/discovery/worker.py:67-71 | the check a worker makes when it is built accepts exactly the configurations under which no punctual worker ever loses a job to expiry |
| `RecoveryRaces.RecoveryTakesWhateverStillRuns` | backend/app/persistence/discovery_repositories.py:1011-1038 | the UPDATE of a recovery that accepted the row it read hits, after any run, exactly if the row is still running, whatever its lease is then; if it was not renewed since, it had expired |
| `RecoveryRaces.ForceResolveTakesOnlyExpired` | backend/app/persistence/discovery_repositories.py:885-903 | force-resolve hits a reachable running row exactly if a stop was requested and the lease has expired at that moment |
| `RecoveryRaces.RecoveryEndsRenewedJob` | backend/app/persistence/discovery_repositories.py:1134-1141 | a run in which a recovery ends a job that its owner has just renewed |
| `RecoveryRaces.OrphanedChild` | backend/app/discovery/fanout.py:86-119 | a run that ends with an expired running child under a failed root, which no scan lists |
| `UnguardedWrites.OneOutcomeWithoutLateWrites` | backend/app/discovery/fanout.py:384-403 | with the unguarded UPDATEs as steps of their own, each job gets at most one terminal write in every run in which none of them lands on a finished row |
| `UnguardedWrites.TwoOutcomes` | backend/app/discovery/fanout.py:384-403 | a run from the empty table in which a late UPDATE gives one job a second terminal write |
| `UnguardedWrites.UnguardedWriteIsSafeIffTimely` | backend/app/persistence/discovery_repositories.py:1107-1122 | in every reachable state such an UPDATE, once committed, keeps all recorded outcomes exactly if its row had not finished before it landed, or had in just that way |
| `Sessions.Session.Interleave` | backend/app/persistence/discovery_repositories.py:571-623 | other sessions run at a waiting point: own writes and memory stay, visible rows only move forward |
| `Sessions.Session.Update` | backend/app/persistence/discovery_repositories.py:716-723 | one UPDATE: hit exactly if the WHERE clause matches the current row; a miss of a guarded UPDATE rolls everything back |
| `Sessions.Session.Insert` | backend/app/persistence/discovery_repositories.py:341-397 | a new job is queued only if no active job has its tenant and target; otherwise nothing is kept |
| `JobRepository.ClaimJob` | backend/app/persistence/discovery_repositories.py:571-623 | a claim commits exactly one running row with owner, lease and heartbeat, or nothing; each error says what must have stood in the way |
| `JobRepository.RenewLease` | backend/app/persistence/discovery_repositories.py:625-656 | a renewal refreshes the root and every running child of the owner together, or nothing; a lease is reported lost only if nothing is left to renew or a row is locked; with nobody else at work exactly if nothing is left |
| `JobRepository.ApplyTransition` | backend/app/persistence/discovery_repositories.py:669-725 | one compare-and-set to a terminal state of a row held by the expected owner, all columns stated; on error the transaction is rolled back and the reason (no row, transition not allowed, failed condition, changed row, lock) is stated; with nobody else at work only a reason of the row makes it fail |
| `JobRepository.FinaliseCancellation` | backend/app/persistence/discovery_repositories.py:820-841 | commits a cancelled row for a job that was asked to stop, or nothing, with the reason |
| `JobRepository.MarkFailedAfterRollback` | backend/app/persistence/discovery_repositories.py:1186-1206 | drops pending work and commits exactly one failed row that nobody asked to stop, or nothing, with the reason |
| `JobRepository.ReadCancellation` | backend/app/persistence/discovery_repositories.py:801-818 | a positive answer rests on a row read as requested or cancelled; a negative one means neither held when it was asked |
| `Fanout.CreateChild` | backend/app/discovery/fanout.py:203-298 | one queued child row and one queued result, or a rolled-back transaction |
| `Fanout.FinishChild` | backend/app/discovery/fanout.py:378-403 | afterwards the child has finished: by somebody else, or in the state that was asked for; a child that had finished is not written |
| `Fanout.ReconcileAddresses` | backend/app/discovery/fanout.py:318-427 | the reconciliation loop under interference: results as specified, children of all expected addresses finished, nothing written if nothing was left to do; with nobody else at work it fails only if an address has no result and another job is active in the place of its child |
| `Fanout.ReconcileParentJob` | backend/app/discovery/fanout.py:318-427 | reconciliation committed as one transaction with its summary, or rolled back; with nobody else at work rolled back only for the reasons of the loop |
| `Fanout.SecondReconciliationIsQuiet` | backend/app/discovery/fanout.py:375-426 | after one reconciliation a second one, even with the opposite flag, has nothing to create, end or change, however much later it runs |
| `FanoutResults.ReconciledTotals` | backend/app/discovery/fanout.py:430-478 | the outcome counts add up to the expected addresses plus the stray classified results |
| `FanoutResults.ReconciledResultsAre` | backend/app/discovery/fanout.py:363-427 | every result that was open and every new one is failed with DISCOVERY_FAILED and counted as interrupted if the tree was interrupted, cancelled with CANCELLED and counted as cancelled otherwise, at its own address with its own child; all others are as before |
| `FanoutResults.SummaryCounts` | backend/app/discovery/fanout.py:430-478 | each total is the number of results with that outcome; the run has succeeded exactly if one was discovered and none cancelled or interrupted |
| `FanoutResults.ConservationIffNoStrays` | backend/app/discovery/fanout.py:430-478 | total_scanned equals the sum of the eight outcome counts exactly if no stray result was classified before |
| `FanoutResults.Conservation` | backend/app/discovery/fanout.py:318-427 | with results at distinct expected addresses the counts balance and every expected address has exactly one result |
| `FanoutResults.StrayExample` | backend/app/discovery/execution.py:1180-1228 | a result whose address was rewritten makes the counts exceed total_scanned |
| `FanoutResults.Idempotence` | backend/app/discovery/fanout.py:375-426 | reconciling twice gives the same results and totals, whichever flag the second call has |
| `FanoutResults.FinishedResultsKept` | backend/app/discovery/fanout.py:405-426 | a result that had finished is never altered |
| `JobTrees.ReconcileOwnedTree` | backend/app/persistence/discovery_repositories.py:1068-1152 | every child the owner was running, the root and the results end in one transaction, or nothing is committed; cancelled if the root was asked to stop; with nobody else at work the owned tree always ends unless another job is active in the place of a missing child, and its children end like it |
| `JobTrees.RecoverExpiredOwnedJob` | backend/app/persistence/discovery_repositories.py:1011-1038 | recovery declines exactly if the row is not an expired running one; otherwise it ends the whole tree or commits nothing, the latter, with nobody else at work, only if the tree is hindered |
| `JobTrees.AbandonOwnedJob` | backend/app/persistence/discovery_repositories.py:1040-1066 | abandon declines exactly if the caller does not own the root; otherwise it ends the whole tree or commits nothing, the latter, with nobody else at work, only if the tree is hindered |
| `JobTrees.FailOwnedJob` | backend/app/discovery/worker.py:251-296 | failing an errored root declines exactly if the worker does not own it; otherwise it ends the tree or commits nothing, the latter, with nobody else at work, only if the tree is hindered |
| `JobTrees.RequestJobCancellation` | backend/app/persistence/discovery_repositories.py:727-799 | queued work is cancelled with its tree at once, running work gets a request, finished work and a repeated request are answered from the row; a lost race changes nothing; with nobody else at work only a hindered tree fails |
| `JobTrees.ResolveStaleCancellation` | backend/app/persistence/discovery_repositories.py:843-984 | force-resolve cancels the root, its running children and the tree or commits nothing, and never succeeds against a live lease; with nobody else at work the answer follows from the row, except that a hindered tree fails |
| `JobTrees.CoversExpected` | backend/app/discovery/fanout.py:360-426 | after reconciliation every expected address has a result whose child job has finished |
| `Worker.ClaimQueuedJobs` | backend/app/discovery/worker.py:142-179 | every job returned is driven by this worker under its own token, and every candidate not returned is the protected job or its claim was refused, with the reason; with nobody else at work all claimable candidates are claimed |
| `Worker.HeartbeatTurn` | backend/app/discovery/worker.py:214-249 | one heartbeat: all leases of the tree renewed, or the job abandoned and no longer owned; it is given up only if at the renewal no row of the tree was held any more or one was locked, with nobody else at work exactly if none was held |
| `Worker.FinishRoot` | backend/app/discovery/worker.py:362-397 | a fanned-out root ends cancelled exactly if it was asked to stop, also when the request arrives between check and transition, and otherwise succeeded exactly if some address did |
| `Execution.RaiseIfCancelled` | backend/app/discovery/execution.py:1107-1131 | work goes on only if the lease is held and neither the job nor its parent had been asked to stop |
| `Execution.RecordOutcome` | backend/app/discovery/execution.py:867-978 | exactly one outcome is committed: completed work succeeds without a code unless that was refused, with the reason; broken work fails with its code; cancellation goes before failure |
| `Execution.Execute` | backend/app/discovery/execution.py:733-978 | an execution that reports a result has committed that finished row, one that reports none has rolled back; with nobody else at work a job that nobody asked to stop succeeds exactly if no step has a fault, and otherwise ends as the first fault says; once the evidence is collected it is committed with the selection, whatever goes wrong later |
| `PolicyInheritance.ResolveInheritedPackages` | backend/app/policies/evaluation.py:116-138 | the recursion over a shared visited set terminates on every graph and lists what the specification walk lists |
| `PolicyInheritance.VisitsReachable` | backend/app/policies/evaluation.py:122-129 | the ids visited are exactly those reachable from the starting ids |
| `PolicyInheritance.ResolvesReachable` | backend/app/policies/evaluation.py:116-138 | exactly the reachable known packages and the root are listed, each ancestor twice |
| `PolicyInheritance.ParentsFirstIff` | backend/app/policies/evaluation.py:116-138 | by id, every known parent is listed before its children, and only before them, exactly if no package that is inherited from is its own ancestor or goes by the root's id |
| `PolicyInheritance.ParentPackagesFirstIff` | backend/app/policies/evaluation.py:116-138 | by package, every parent that is inherited from is listed before its children, and only before them, exactly if no package that is inherited from is its own ancestor |
| `PolicyInheritance.OlderVersionOfRootIsListed` | backend/app/policies/evaluation.py:49-57 | an acyclic input whose registry holds an older version of the root: the order is right by package and not by id |
| `PolicyInheritance.CollectRuleKeys` | backend/app/policies/evaluation.py:72-79 | the loops collect the rule keys in order of first occurrence |
| `Texts.DedupInOrder` | backend/app/policies/evaluation.py:72-79 | names without repeats stand in the order of their first occurrence |
| `PolicyInheritance.CompiledKeys` | backend/app/policies/evaluation.py:67-90 | compiled keys are distinct and are the union of the keys of all reachable packages |
| `PolicyInheritance.SelectsLatest` | backend/app/policies/evaluation.py:54-57 | the package compiled is the first one of the greatest version |
| `PolicyResolution.ResolveWithVersions` | backend/app/policies/evaluation.py:40-90 | the grouping and compiling loops give one policy for each key in order of first occurrence, or the first unknown rule |
| `PolicyResolution.CompilesEachIff` | backend/app/policies/evaluation.py:67-90 | it succeeds exactly if every rule of a selected package or of an ancestor is known; then each policy has exactly those rules, otherwise an unknown rule of the first package that has one is reported |
| `PolicyResolution.RegistryHoldsLast` | backend/app/policies/evaluation.py:49-52 | an id is known exactly if a package has it, and stands for the one given last |
| `PolicyResolution.SelectedOrderFreeIff` | backend/app/policies/evaluation.py:54-57 | every order of the packages selects the same one of a key exactly if one package alone is the latest of that key |
| `PolicyResolution.SourcesOrderFreeIff` | backend/app/policies/evaluation.py:49-90 | every order of the packages compiles a key from the same packages exactly if one package alone is its latest and every id that package inherits from, directly or not, has one package |
| `PolicyResolution.OldBaseIsInherited` | backend/app/policies/evaluation.py:49-57 | the same packages in two orders: the new version of the base is selected in both, the child inherits the rules of the old one in one of them |
| `PolicyResolution.VersionsAreOrdered` | backend/app/policies/models.py:47-69 | versions are totally and strictly ordered, by the major number, then the minor, then the patch |
| `PolicyResolution.BumpIsLaterIff` | backend/app/policies/models.py:206-230 | a changed version is later than the old one exactly if the change is not a major one; a major change gives the same or an earlier one |
| `PolicyResolution.BumpTakesOverIff` | backend/app/policies/evaluation.py:54-57 | a changed package is selected instead of the old one, in every order of the packages, exactly if the change is not a major one |
| `PolicyResolution.MajorBumpIsEarlier` | backend/app/policies/models.py:206-215 | a version whose major change is an earlier version |
| `Fallback.DiscoverWithFallback` | backend/app/discovery/multi_transport.py:199-307 | attempts are the prefix up to the first success, numbered from one; failing attempts give the join of their verdicts |
| `Fallback.JoinAllAppend` | backend/app/discovery/multi_transport.py:199-307 | the failing verdict of two chains in a row is the join of their verdicts |
| `Fallback.JoinAllIsLeastUpperBound` | backend/app/discovery/result_states.py:130-195 | the verdict is an upper bound of all attempts and one of them attains it |
| `Fallback.VerdictsOfCodes` | backend/app/discovery/result_states.py:117-195 | which failure code alone gives which verdict |
| `Fallback.ChainVerdict` | backend/app/discovery/multi_transport.py:199-307 | the verdict of failing attempts from their codes alone: a refused login first, then a transport never tried, then any sign of life |
| `Fallback.ReorderByAvailability` | backend/app/discovery/multi_transport.py:324-343 | available transports first, both groups in configured order |
| `Fallback.ReorderIsPermutation` | backend/app/discovery/multi_transport.py:324-343 | reordering loses and repeats no transport |
| `Fallback.ReorderIsStable` | backend/app/discovery/multi_transport.py:324-343 | within each group the configured order is kept |
| `Fallback.AvailableComeFirst` | backend/app/discovery/multi_transport.py:324-343 | no unavailable transport stands before an available one |
| `Fallback.ReorderKeepsOutcome` | backend/app/discovery/multi_transport.py:324-343 | reordering changes neither whether the device is discovered nor the failing verdict |
| `TransportPolicy.FromCredentialProfile` | backend/app/discovery/transport_policy.py:149-235 | the constructor never raises; the admitted names once each, in order, with their entries |
| `TransportPolicy.AdmittedIff` | backend/app/discovery/transport_policy.py:178-203 | a type of a profile is admitted exactly if it names ssh, snmp or https, telnet under its flag or http under its flag |
| `TransportPolicy.ResolveTransportPolicy` | backend/app/discovery/execution.py:115-255 | the constructor never raises and the transports are those of the specification, with their entries |
| `TransportPolicy.ResolvedTransportsAreAllowed` | backend/app/discovery/execution.py:215-249 | transports and capabilities are pairwise distinct, TELNET only under its flag, HTTP only under both |
| `TransportPolicy.ResolvedNamesAre` | backend/app/discovery/execution.py:180-230 | a name comes out exactly if it is a base name or eligible fallback that survives the last filter |
| `TransportPolicy.ResolvedExactly` | backend/app/discovery/execution.py:141-231 | exactly the transports usable under the two flags come out that the profile offers, or SSH if it offers none it may use, and of the fallbacks those that the profile offers too |
| `TransportPolicy.PreferenceOnlyPromotes` | backend/app/discovery/execution.py:204-207 | the preferred name moves to the front of the names; the others keep their relative order |
| `TransportPolicy.PreferredComesFirst` | backend/app/discovery/execution.py:204-207 | a preferred transport that comes out is the first one, and any two others stand as they do without the preference |
| `TransportPolicy.ResolvedInOrder` | backend/app/discovery/execution.py:141-202 | without a preference transports stand in the order in which they are first offered, by the profile and then by the fallbacks |
| `TransportPolicy.AdmittedInOrder` | backend/app/discovery/execution.py:141-175 | admitted types of a profile keep the order in which it first names them, and none is left out |
| `TransportPolicy.EntriesMean` | backend/app/discovery/transport_policy.py:188-220 | what an entry says: capability of its name, insecure exactly for TELNET and HTTP, compatible exactly with the credential types of that capability |
| `TransportPolicy.EmptyPolicyIff` | backend/app/discovery/execution.py:220-231 | the policy is empty exactly if the profile offers HTTP but neither ssh, snmp nor https, and the target allows insecure HTTP but not insecure transports |
| `TransportPolicy.PlainHttpProfileIsEmpty` | backend/app/discovery/execution.py:220-231 | a profile of plain HTTP that resolves to an empty policy |
| `Scoring.RoundHalfEvenRounds` | backend/app/evaluation/scoring.py:61-62 | the rounding is to the nearest integer, ties to even |
| `Scoring.RoundingIsMonotone` | backend/app/evaluation/scoring.py:61-62 | a larger quotient never rounds to less |
| `Scoring.ComplianceIsAverage` | backend/app/evaluation/scoring.py:56-62 | the compliance score is 100 minus the average risk, rounded, and 100 without risks; no score is cut off |
| `Scoring.SumOfSameScores` | backend/app/evaluation/scoring.py:61 | the sum, and with it the compliance score, depends on the scores and not on their order |
| `Scoring.ScoresCoverHundred` | backend/app/evaluation/scoring.py:56-62 | compliance score plus highest risk is never below 100 |
| `Scoring.LowerScoresAreBetter` | backend/app/evaluation/scoring.py:56-62 | risks lower one by one give no higher risk score and no lower compliance score |
| `Evaluation.ApplicableRules` | backend/app/evaluation/policy.py:27-43 | of all admitted rules of policies in force the first of each key |
| `Evaluation.FirstEntryPerKey` | backend/app/evaluation/policy.py:34-43 | keys are distinct, every offered key is present, and each is held by the entry offered first |
| `Evaluation.KeptInOrder` | backend/app/evaluation/policy.py:34-43 | the rules kept stand in the order in which their keys are first offered |
| `Evaluation.CandidateEntries` | backend/app/evaluation/policy.py:36-42 | an entry is offered exactly if its policy is given and in force and its rule is admitted by its tags |
| `Evaluation.RulesForDifference` | backend/app/evaluation/engine.py:96-114 | the loop selects the rules whose subject type, field and kind match |
| `Evaluation.ExceptionFor` | backend/app/evaluation/engine.py:140-149 | the first waiver that applies |
| `Evaluation.WaiverIsFirst` | backend/app/evaluation/engine.py:140-149 | where some waiver covers a pair, the pair is excused by the first one that does |
| `Evaluation.EvaluatedPairs` | backend/app/evaluation/engine.py:64-68 | exactly the matching pairs of an applicable rule and a difference are evaluated |
| `Evaluation.PairsByDifference` | backend/app/evaluation/engine.py:64-68 | the pairs of two lists of differences in a row are the pairs of the one and then of the other |
| `Evaluation.PairsByRule` | backend/app/evaluation/engine.py:96-114 | the pairs of one difference come rule by rule, once for each matching rule |
| `Evaluation.EvaluateRules` | backend/app/evaluation/engine.py:64-70 | one result per evaluated pair in order; it raises exactly if some pair raises |
| `Evaluation.ResultsJudge` | backend/app/evaluation/executor.py:32-92 | every result from its pair, the waivers and the comparison alone: waived exactly if some waiver covers it, otherwise compliant exactly if it passes and non-compliant exactly if it is violated, with the explicit score cut to 0..100 or the weight of its kind as risk |
| `Evaluation.RaisesIff` | backend/app/evaluation/executor.py:41-45 | an evaluation raises exactly if a matching pair has an unsupported type, or has no waiver and a raising comparison or a violated rule with a malformed score |
| `Evaluation.WaiverForIff` | backend/app/evaluation/context.py:57-73 | a pair is excused exactly if some waiver that has not expired names its rule and subject or leaves them open |
| `Evaluation.WeightOrder` | backend/app/evaluation/scoring.py:22-31 | conflict weighs more than missing, then duplicate, modified, unexpected, unknown and unsupported |
| `Evaluation.TagsApplyIff` | backend/app/evaluation/policy.py:53-70 | tags admit a scope exactly if for each of the five names the last tag of that name gives the value of the scope |
| `Evaluation.WaiversAreMonotone` | backend/app/evaluation/executor.py:41-50 | appending waivers never raises the risk score and never lowers the compliance score |
| `Decisions.Collect` | backend/app/evaluation/engine.py:211-219 | the two dictionaries hold, per policy id in order of first result, that policy and its results |
| `Decisions.PolicyResults` | backend/app/evaluation/engine.py:205-236 | one entry per policy with results, in order of first results |
| `Decisions.Evaluate` | backend/app/evaluation/engine.py:45-94 | the decision is made of exactly the results, scores, status, metrics and policy entries specified; it raises exactly if some rule raises |
| `Decisions.StatusMeans` | backend/app/evaluation/engine.py:151-161 | non-compliant exactly if some result is, waived exactly if there are results and all are, compliant exactly if none is non-compliant and one is not waived |
| `Decisions.DecisionMeans` | backend/app/evaluation/engine.py:64-94 | one judged result per pair in order; for the decision and for each policy on it, status, highest risk and rounded average follow from the results; the counts are those of the results |
| `Decisions.PoliciesPartitionResults` | backend/app/evaluation/engine.py:205-236 | every rule result is in exactly one policy, in order, and no policy is listed twice |
| `Decisions.WorstPolicyDecides` | backend/app/evaluation/engine.py:71-72 | the overall risk is the highest policy risk |
| `Decisions.StatusFollowsPolicies` | backend/app/evaluation/engine.py:151-161 | non-compliant exactly if some policy is, waived exactly if there are policies and all are waived, not applicable exactly if there are none |
| `Decisions.MetricsCoverResults` | backend/app/evaluation/engine.py:163-193 | compliant, non-compliant and waived add up to the evaluated rules |
| `OrderedDicts.LastValueWins` | backend/app/comparison/registry.py:16-19 | a dictionary key holds the value inserted last |
| `OrderedDicts.FirstInsertionOrders` | backend/app/comparison/registry.py:27-30 | dictionary keys are in the order of their first insertion |
| `OrderedDicts.RebuildingIsBuilding` | backend/app/snapshot/entities.py:143-147 | inserting what a dictionary holds is inserting everything it was built from |
| `Differences.KeysNameSubjects` | backend/app/comparison/diff.py:67-74 | where subject types and fields hold no colon, equal keys name the same subject and only then |
| `Differences.KindNamesAre` | backend/app/comparison/diff.py:13-24 | which name stands for which kind |
| `Differences.DifferenceRegistry.Extend` | backend/app/comparison/registry.py:21-25 | all differences inserted in order, later ones replacing those of equal key |
| `Differences.KindsSurvive` | backend/app/comparison/registry.py:16-30 | replacing equal keys hides no kind of difference |
| `Differences.CountKinds` | backend/app/comparison/result.py:26-47 | every difference is counted once, under its kind |
| `Matching.MatchDevices` | backend/app/comparison/matcher.py:31-71 | matched, missing, unexpected and duplicate lists as specified |
| `Matching.Duplicates` | backend/app/comparison/matcher.py:91-101 | the non-empty names that occur more than once, sorted, once each |
| `Matching.CounterpartIs` | backend/app/comparison/matcher.py:50-57 | the counterpart is the last live device of that name, whatever its serial number; where none has the name, the first with the serial number; otherwise there is none |
| `Matching.MatchedAndMissingPartition` | backend/app/comparison/matcher.py:50-63 | matched and missing devices are an order-preserving partition of the NetBox devices |
| `Matching.MatchedIffCounterpart` | backend/app/comparison/matcher.py:50-58 | a device is matched exactly if it has a counterpart, with it, and missing exactly if it has none |
| `Matching.UnexpectedIffUnmatched` | backend/app/comparison/matcher.py:48-63 | unexpected are exactly the live devices whose id nobody matched |
| `Comparison.CompareDeviceInterfaces` | backend/app/comparison/comparator.py:191-229 | missing, modified and unexpected interfaces of one device, in the order of the two dictionaries |
| `Comparison.CompareVlans` | backend/app/comparison/comparator.py:310-347 | missing, modified and unexpected VLANs in the order of the two dictionaries |
| `Comparison.Compare` | backend/app/comparison/engine.py:44-69 | the registered differences of all comparators in the engine's order |
| `Findings.InterfaceDifferencesAre` | backend/app/comparison/comparator.py:187-289 | under each name a missing difference exactly if only NetBox has the interface, an unexpected one exactly if only the device has it, a modified one exactly per field in which both have a value and disagree |
| `Findings.VlanDifferencesAre` | backend/app/comparison/comparator.py:310-379 | the same for VLANs by their id |
| `Findings.DecimalReads` | backend/app/comparison/comparator.py:310-347 | a VLAN id written into a difference reads back as the id |
| `Findings.WithinIffPart` | backend/app/comparison/comparator.py:170-178 | a platform agrees if its text is contained in the observed one |
| `Findings.FoundDifferencesAre` | backend/app/comparison/engine.py:51-58 | a comparison finds exactly the differences with a reason: a repeated name, a device only one side has, a disagreeing pair, a VLAN or a neighbor |
| `Findings.IdsApartIff` | backend/app/comparison/comparator.py:199 | interface ids of two device names never coincide exactly if neither name, with a colon after it, begins the other |
| `Findings.NeverReplacedIff` | backend/app/comparison/registry.py:16-19 | no interface difference of one device can replace one of another exactly under that condition on the two names |
| `Findings.OneDifferenceLost` | backend/app/comparison/diff.py:67-74 | two devices whose missing interfaces are registered as one difference |
| `Drift.NoDriftIffInStep` | backend/app/comparison/engine.py:44-69 | no missing, unexpected, modified or duplicate difference is reported exactly if everything is matched once and agrees |
| `Drift.FaithfulImageHasNoDrift` | backend/app/comparison/comparator.py:62-144 | a faithful live image, in any order, gives none of those differences |
| `Snapshots.Merge` | backend/app/snapshot/entities.py:126-151 | the merge loop computes the merge specified; no snapshots give the empty one |
| `Snapshots.MergedDevices` | backend/app/snapshot/entities.py:133-147 | no device id is lost or repeated, order is by first appearance, value by last |
| `Snapshots.LatestIsMaximum` | backend/app/snapshot/entities.py:138-139 | the capture time is the latest of all |
| `Snapshots.MergedColumns` | backend/app/snapshot/entities.py:136-150 | the version is that of the last snapshot, the source that of the last one that names one |
| `Snapshots.MergeIsAssociative` | backend/app/snapshot/entities.py:126-151 | merging any non-empty part of a list first changes nothing |
| `Snapshots.MergedIdsAreDistinct` | backend/app/snapshot/entities.py:143-147 | device ids of a merge are pairwise distinct |
| `Snapshots.EmptyLastIsNeutralIff` | backend/app/snapshot/entities.py:120-151 | merging in the empty snapshot last changes nothing exactly if the version is the current one, the time is not later and no id repeats |
| `Snapshots.EmptyFirstIsNeutralIff` | backend/app/snapshot/entities.py:120-151 | merging it in first changes nothing exactly if the time is not later and no id repeats, whatever the version |
| `Snapshots.EmptyIsNotNeutral` | backend/app/snapshot/entities.py:120-151 | a snapshot changed by the empty one on one side only, and one changed on both |
| `Scopes.ExpandedAddressesAreDistinct` | backend/app/discovery/scopes.py:24-53 | an expansion holds between one address and the limit, none of them twice |
| `Scopes.ExpandsIff` | backend/app/discovery/scopes.py:24-53 | when a scope is expanded and when it is refused |
| `Scopes.ExpandsInOrder` | backend/app/discovery/scopes.py:34-52 | a range and a network are expanded in ascending order from the first address, each one once |
| `Scopes.RangeIsComplete` | backend/app/discovery/scopes.py:34-44 | a range is expanded to exactly the addresses between its ends |
| `Scopes.NetworkIsComplete` | backend/app/discovery/scopes.py:45-52 | a network is expanded to exactly its usable hosts |

## Left out

- JobProtocol.StepKeeps: the two UPDATEs without a state guard are atomic with their read in the protocol; UnguardedWrites states the exact case in which that matters.
- Fanout.ReconcileParentJob: device results are written by one session at a time.
- Fanout.CreateChild: the target row of an address is taken to exist and the run row is not part of this model; the number of parallel children and their scheduling are arbitrary interleavings of the protocol.
- Execution.RecordOutcome: the code of a failed fallback transport is a parameter, and a database error while an outcome is written counts as DISCOVERY_FAILED.
- Execution.Execute: device-result rows and transport-attempt rows written during an execution, and the run summary of a single-device job, are not part of this model.
- Worker.ClaimQueuedJobs: the polling and stop events around one round of claims are not part of this model.
- FanoutResults.Conservation: results at pairwise distinct expected addresses are required, because a rewritten address makes it false; the condition for all inputs is FanoutResults.ConservationIffNoStrays.
- Scoring.RoundHalfEvenRounds: the average risk is an exact fraction instead of a floating-point quotient.
- Evaluation.ExceptionFor: one evaluation instant stands for the clock readings of the single waiver checks.
- Evaluation.EvaluateRules: the typed comparisons (equals, regex, version and so on) are an arbitrary function that passes, fails or raises; evidence, severity labels and recommendation texts are not part of this model.
- TransportPolicy.ResolveTransportPolicy: names outside ASCII, whose upper-case form can be the name of a capability (the long s in "ssh"), are not part of this model.
- Fallback.DiscoverWithFallback: a collector attempt is an arbitrary success or failure code; probing of services and audit records are not part of this model.
- Comparison.Compare: the optional difference filter and the findings made from differences, one for each, are not part of this model.
- Snapshots.Merge: the fresh snapshot id, and MAC, power and uptime columns of devices, are not part of this model.
- Scopes.NetworkIsComplete: parsing of address and network text is left to the address library.
- PolicyResolution.ResolveWithVersions: a compiled policy carries its package, from which name, tags, description and creation time are derived, and its rule keys; the rule objects behind the keys, baselines and rule descriptions are not part of this model.
- The version history kept by a changed policy, and the policy validator's self-reference check.
- ORM details (identity map, savepoints), advisory locks, migrations, HTTP, CLI, frontend, scheduler, reporting and analytics.
