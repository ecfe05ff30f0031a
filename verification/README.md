# LongHorizonOS in Dafny

A Dafny model of the parts of LongHorizonOS that decide who may run what, what has to be
run again, and what is recorded about a run, with proofs of the properties those parts are
there for. A loop that updates variables is a Dafny method with a loop, and an object that
is updated in place is a class; each is proved against a function of values, and the laws are
lemmas about those functions. Comprehensions, and loops that only fill a record field by
field, are functions.

| files | what they model |
|---|---|
| `Collections` | optional values, and the sizes of sets and lists, shared by the others |
| `Graphs`, `Kahn`, `RandomDag` | Kahn's acyclicity test and the random graph generator of `scripts/d3_heavy_audit.py` |
| `Closures`, `ConeLaws` | the invalidation worklists of the audit scripts and of the content-hash baseline |
| `Frontier` | `compute_repair_frontier` and the repair loop that drains a stale set |
| `Residency`, `ResidencyLaws`, `ResidencyCounterexample` | the dispatch simulator of `scripts/e6_prototype_sigma_scheduling.py` |
| `Leases` | the in-memory lease authority and its index by process |
| `Matching`, `Claims`, `ClaimInvariant`, `ClaimRuns`, `ClaimTheorems`, `ClaimOutcomes`, `ClaimMachine`, `ClaimLeases` | the claim protocol: eligibility, matching, acquisition, reconciliation, restart, every operation of the random state machine and what it leaves behind, and how the protocol drives the lease authority |
| `Readiness`, `ReadinessLaws` | freeze-adjusted active time and checkpoint readiness |
| `Watcher`, `WatcherLaws`, `WatcherLoop`, `WatcherTime` | the checkpoint watcher, its index file, its restarts, and its polls on the trial's own time |
| `BlobScan`, `Paths`, `Workspace` | the chunked secret scan, archive names and links, and the archive validator |
| `TraceCache` | memoised traces under a concurrent append-only writer |
| `Usage` | usage deltas across phases, restarts and session generations |
| `Bridge` | bridge records and the one-pass stream validator |

How the outside world appears: clocks, process states, observed trials, lease provider
answers, policy decisions and random choices are parameters, so every statement holds for
all of them. Times are whole numbers, a digest is an arbitrary function (collision-free
where a clause says so), names of tasks, agents, processes and artifacts are numbers. Where
the source sorts ids as text, the order is any strict total order.

Where code and text disagree, the code is followed:

- `scripts/d21_mutation_audit_v2.py` quotes scheduler and reconciliation fragments that
  the runtime no longer contains. The claim model follows
  `src/lhos/runtimes/multi_agent`: verified comes first, then stale, dead process, and
  missing or expired lease, and an unconfirmed release raises instead of being ignored.
- `scripts/d21_random_sm.py` says that the scheduler's own `reconcile` calls a one-argument
  hook wrongly. The current code accepts both forms. The model is of `do_reconcile`.
- `scripts/e6_prototype_sigma_scheduling.py` reports unconditionally that residency-aware
  dispatch misses less and that its advantage grows with kappa. Either holds on all workloads
  exactly when there is one agent or the window is 0
  (`ResidencyCounterexample.SigmaNeverWorse` and `.RatioNeverFalls`); for every other number
  of agents and window `SigmaMissesMore` gives a workload on which both fail. On one given
  workload the ratio grows exactly when `graph_only` misses at least as often
  (`ResidencyLaws.RatioGrowsExactly`).
- `src/lhos/runtimes/multi_agent/matching.py` says of the locality cap that locality never
  outweighs explicit task affinity. The cap is 25 and affinity 20, so it can: exactly when the
  task declares five reads or more (`Matching.NameOutweighsLocality`), and then exactly in the
  cases of `Matching.LocalityOverName`.
- Readiness can go back when it is observed in the middle of a freeze, and only then
  (`ReadinessLaws.OneWay`). A caller of the readiness functions has to see to that. `watch`
  does: only its captures freeze a trial, and it skips an arm with a capture in flight
  (`scripts/lhtb_external_checkpoint.py` line 1319), so none of its polls is in the middle of
  a freeze (`WatcherTime.PollsOutsideFreezes`).
- The comment on `_sessions_fingerprint` says that the fingerprint determines what a parse
  sees. It does not for the empty fingerprint of another home
  (`TraceCache.EmptyFingerprintConfuses`); `TraceCache.HitExact` says exactly when it does.
- The frontier audit's reference treats a dependency outside the graph as unverified;
  `compute_repair_frontier` skips it. `Frontier.FrontierExact` says when the two agree.

## Model

| member | source | states |
|---|---|---|
| Kahn.ValidTopo | scripts/d3_heavy_audit.py:77-100 | for every list of distinct nodes and every edge list, with duplicates, self-loops and foreign ends: true exactly when the depends_on edges inside the node set have no directed cycle |
| Kahn.BuildCounters | scripts/d3_heavy_audit.py:78-86 | adjacency lists hold the inner targets in edge order; in-degrees count inner edges with multiplicity |
| Graphs.StuckHasCycle | scripts/d3_heavy_audit.py:77-100 | nodes that all still wait for one another contain a cycle, so an incomplete count means a cycle |
| RandomDag.Generate | scripts/d3_heavy_audit.py:103-146 | for every sequence of random choices the graph is acyclic and free of repeats although chain and extra edges point in opposite directions; no drop happens when the draw was already acyclic, and adding back any dropped edge closes a cycle |
| RandomDag.DropCycleEdges | scripts/d3_heavy_audit.py:137-144 | the repair loop computes the greedy acyclic selection of the drawn edges |
| RandomDag.GreedyAcyclic | scripts/d3_heavy_audit.py:137-144 | what is kept is acyclic and was drawn |
| RandomDag.GreedyMaximal | scripts/d3_heavy_audit.py:137-144 | the kept edges are inclusion-maximal: every dropped edge would close a cycle with them |
| RandomDag.GreedyExact | scripts/d3_heavy_audit.py:137-144 | an edge is kept exactly when it closes no cycle with the edges kept before it |
| RandomDag.GreedyPrefix | scripts/d3_heavy_audit.py:137-144 | what is kept of the first edges stays kept, in order |
| RandomDag.GreedyKeepsAcyclic | scripts/d3_heavy_audit.py:137-144 | an acyclic draw is kept whole |
| RandomDag.DedupExact | scripts/d3_heavy_audit.py:128-135 | removing repeats keeps exactly the same edges |
| RandomDag.DedupOrder | scripts/d3_heavy_audit.py:128-135 | the edges that remain are in the order of their first occurrences |
| RandomDag.ChainsExact | scripts/d3_heavy_audit.py:109-114 | the chain edges are exactly those from the first nodes on in steps of max(2, n / 5), each member depending on the next |
| Closures.ReferenceGated | scripts/d31_partial_verified_invalidation.py:83-102 | terminates on every graph, cyclic ones included, and returns exactly the seed and the tasks at the end of a trail of depends_on edges on which every later task is VERIFIED, whatever the iteration order; a KeyError exactly when an edge has a target that is no task, or an affected task has a dependent that is none |
| Closures.ReferenceUngated | scripts/d31_partial_verified_invalidation.py:105-116 | exactly the tasks at the end of a trail of depends_on edges from the seed; a KeyError exactly for a foreign target; the loops at scripts/d31_over_under_invalidation.py:80-98 and scripts/d3_heavy_audit.py:179-193 are the same |
| Closures.ReverseDeps | scripts/d31_partial_verified_invalidation.py:75-80 | the index holds exactly the dependents of each task |
| Closures.MultiSeedExpected | scripts/d31_cone_shapes_audit.py:187-203 | exactly what some seed reaches along depends_on edges; a KeyError exactly for a foreign target |
| Closures.PolicyStatic | scripts/b4_content_hash_baseline.py:105-138 | exactly the tasks at the end of a trail of declared pairs from the root that, with early cutoff, passes no stable task on its way other than the root; over the real edges this is `truth` |
| Closures.ConeUnique | scripts/d31_partial_verified_invalidation.py:83-102 | there is only one such set, so the iteration order cannot matter |
| ConeLaws.GatedPath | scripts/d31_partial_verified_invalidation.py:95-101 | a gated path is a path all of whose later nodes are VERIFIED |
| ConeLaws.GatedMonotone | scripts/d31_partial_verified_invalidation.py:83-102 | more VERIFIED tasks never shrink the result |
| ConeLaws.GatedVersusPlain | scripts/d31_partial_verified_invalidation.py:83-116 | gated is contained in ungated, and equal exactly when no reached task has an unverified dependent left outside |
| ConeLaws.AllVerifiedIsPlain | scripts/d31_partial_verified_invalidation.py:83-116 | the two closures agree when every dependent is VERIFIED |
| ConeLaws.CutoffSandwich | scripts/b4_content_hash_baseline.py:92-138 | hash policy within truth within plain closure; equalities when nothing is hidden and nothing is stable |
| ConeLaws.MissedExactly | scripts/b4_content_hash_baseline.py:194-201 | the hash policy misses an affected task exactly when every cutoff-respecting path to it uses a hidden edge |
| ConeLaws.SparedExactly | scripts/b4_content_hash_baseline.py:105-120 | early cutoff spares a reachable task exactly when every path to it passes a stable task after the root |
| Frontier.ComputeRepairFrontier | src/lhos/runtimes/invalidation/frontier.py:31-121 | in the order of ids, for every strict total order, and without repeats: with no given set exactly the tasks of the graph whose validity (derived, else their own) is not verified, that nobody claims and whose dependencies in the graph are all verified; with a given set those of its tasks; so not empty on an acyclic graph with a task not verified and no claims |
| Frontier.SomethingToRepair | src/lhos/runtimes/invalidation/frontier.py:71-121 | on an acyclic graph, whatever is derived, a task that is not verified means there is one that can be repaired now |
| Frontier.FrontierExact | scripts/d31_over_under_invalidation.py:242-258 | the audit's reference and the computed readiness agree on a task under every derived validity exactly when the task does not depend on anything outside the graph |
| Frontier.ReadyDiffers | scripts/d31_over_under_invalidation.py:242-258 | the audit's reference is the computed readiness of a task that depends on nothing outside the graph |
| Frontier.Progress | scripts/d31_over_under_invalidation.py:192-229 | on an acyclic graph a non-empty stale set has a non-empty frontier |
| Frontier.ProgressIffAcyclic | scripts/d31_over_under_invalidation.py:192-229 | repair can always go on, whatever is stale, exactly on acyclic graphs |
| Frontier.CycleBlocks | scripts/d31_over_under_invalidation.py:192-229 | a stale cycle has an empty frontier |
| Frontier.ReadyPersists | scripts/d31_repair_authority.py:117-166 | an unrepaired frontier task stays in the frontier while others are reverified |
| Frontier.RepairAll | scripts/d31_repair_authority.py:117-166 | whichever non-empty part of the frontier is reverified each round, the stale set drains in at most as many rounds as it has tasks, each task once and after all its stale dependencies |
| Frontier.BuildLargeDag | scripts/d31_over_under_invalidation.py:101-134 | every edge goes from a higher to a lower index, so the graph is acyclic; no edge is repeated; the long chains, a diamond and a fan-in to the sink are there |
| Frontier.TopoQualifies | scripts/d3_heavy_audit.py:77-100 | graphs that pass the topological test qualify for the progress result |
| Residency.Simulate | scripts/e6_prototype_sigma_scheduling.py:112-154 | cost, misses and dispatch counts are those of the dispatch history in which each task goes to the agent with the least key; choosing from no agents is an error exactly when there is a task |
| Residency.ChooseIsChoice | scripts/e6_prototype_sigma_scheduling.py:125-138 | no agent has a smaller key than the chosen one |
| Residency.ChoicePreferred | scripts/e6_prototype_sigma_scheduling.py:125-138 | the chosen agent is the one with the least load and then the lowest id under graph_only, with the fewest artifacts to pull first under sigma_aware for any kappa of at least 1, and with the fewest and then the lowest id, whatever the load, under pure affinity |
| Residency.ChoiceUnique | scripts/e6_prototype_sigma_scheduling.py:125-138 | keys order agents strictly, so the choice is unique |
| ResidencyLaws.StackProperty | scripts/e6_prototype_sigma_scheduling.py:146-152 | after any dispatch history an agent's list has no repeats and is the last `window` entries of its unbounded recency list |
| ResidencyLaws.WiderMissesLess | scripts/e6_prototype_sigma_scheduling.py:146-152 | for a fixed history a wider window never misses more |
| ResidencyLaws.RoundRobin | scripts/e6_prototype_sigma_scheduling.py:124-144 | under graph_only task i goes to the agent of rank i mod n in id order |
| ResidencyLaws.GraphOnlyWindow | scripts/e6_prototype_sigma_scheduling.py:124-144 | graph_only dispatches do not depend on window or kappa, so its misses never grow with the window |
| ResidencyLaws.SigmaZeroIsGraphOnly | scripts/e6_prototype_sigma_scheduling.py:125-138 | with kappa 0 sigma_aware makes the dispatches of graph_only |
| ResidencyLaws.SigmaKappaIrrelevant | scripts/e6_prototype_sigma_scheduling.py:125-138 | for all kappa of at least 1 sigma_aware makes the same dispatches |
| ResidencyLaws.CostLaw | scripts/e6_prototype_sigma_scheduling.py:140-144 | every run costs the sum of execution costs plus kappa times the misses |
| ResidencyLaws.RatioGrowsExactly | scripts/e6_prototype_sigma_scheduling.py:197-201 | from kappa k to a larger l the graph/sigma cost ratio does not fall exactly when graph_only misses at least as often |
| ResidencyCounterexample.SigmaNeverWorse | scripts/e6_prototype_sigma_scheduling.py:222-240 | sigma_aware misses no more than graph_only on every workload exactly when there is one agent or the window is 0, for every kappa of at least 1 |
| ResidencyCounterexample.RatioNeverFalls | scripts/e6_prototype_sigma_scheduling.py:197-201 | the graph/sigma cost ratio falls from kappa k to a larger l on no workload of positive execution cost exactly when there is one agent or the window is 0 |
| ResidencyCounterexample.SigmaMissesMore | scripts/e6_prototype_sigma_scheduling.py:112-154 | for any n agents, n at least 2, and any window w, at least 1, a workload of 2n + 1 tasks on which graph_only misses 2nw times and sigma_aware w times more |
| ResidencyCounterexample.Refines | scripts/e6_prototype_sigma_scheduling.py:112-154 | on workloads of whole blocks of `window` artifacts the simulation is a run in which each agent holds exactly the last block it read |
| ResidencyCounterexample.NeverMore | scripts/e6_prototype_sigma_scheduling.py:112-154 | with one agent or window 0 both policies miss equally often on every workload |
| Leases.IndexIsScan | scripts/d21_random_sm.py:168-241 | over every run of acquire, release, release_all, expire and reclaim the per-process index equals a full scan of the table |
| Leases.DeadForever | scripts/d21_sigkill_adversarial.py:664-689 | ids are never reused: a released id never comes back in any later run, and releasing or expiring it changes nothing |
| Leases.OnlyOwnRelease | scripts/d21_sigkill_adversarial.py:664-689 | a lease disappears only by its own id, its own owner or its own expiry |
| Leases.TableAfter | scripts/d21_random_sm.py:187-241 | which leases are in the table after each operation, and with what content: reclaiming keeps exactly those whose expiry is not before now |
| Leases.ApplyValid | scripts/d21_random_sm.py:187-241 | every operation keeps table and index in agreement |
| Leases.Provider.AcquireExclusive | scripts/d21_random_sm.py:187-194 | a new id, entered in table and index |
| Leases.Provider.ReleaseLease | scripts/d21_random_sm.py:196-201 | removes the lease from table and index; false exactly when it is not there |
| Leases.Provider.ReleaseAll | scripts/d21_random_sm.py:203-209 | removes all leases a scan finds for the process and returns their number |
| Leases.Provider.Reclaim | scripts/d21_random_sm.py:225-234 | releasing the expired leases one by one leaves exactly the leases whose expiry is not before now, unchanged, and returns the number of the others |
| Leases.Provider.ExpireLease | scripts/d21_random_sm.py:236-241 | moves the expiry to the past; false exactly when the lease is not there |
| Leases.Provider.ListForPid | scripts/d21_random_sm.py:217-223 | the ids a scan finds for the process, in order |
| Matching.Match | src/lhos/runtimes/multi_agent/matching.py:45-145 | fed the eligible agents in any order, the loop returns one and the same agent, locality included; it fits the task and has room; none exactly when every agent fails to fit or is at its limit |
| Matching.EligibleExact | src/lhos/runtimes/multi_agent/eligibility.py:55-99 | an agent is eligible exactly when it is enabled, its process is created, ready or running, it is below its limit, it takes tasks of the kind, and it holds every required specialization, tool and granted capability |
| Matching.PickFits | src/lhos/runtimes/multi_agent/matching.py:45-145 | the chosen agent is such an agent, and there is none exactly when each agent fails one of these |
| Matching.PickHeads | src/lhos/runtimes/multi_agent/matching.py:118-127 | that agent is eligible and precedes every other eligible agent by score, load, cost and id; none exactly when nobody is eligible |
| Matching.WorthInPoints | src/lhos/runtimes/multi_agent/matching.py:62-98 | ten points per preferred specialization, five per read held up to twenty-five, less a point per fifty of cost |
| Matching.SpreadsLoad | src/lhos/runtimes/multi_agent/matching.py:62-127 | between agents not asked for by name, a claim of load weighs as much as a point of worth (preferred specializations, locality, cost); on a draw less load comes first, then lower cost, then the lower id |
| Matching.CheaperFirst | src/lhos/runtimes/multi_agent/matching.py:99-130 | between equally loaded agents that hold as many reads and preferred specializations the cheaper comes first |
| Matching.NamedAgentFirst | src/lhos/runtimes/multi_agent/matching.py:36-130 | the agent asked for by name precedes every agent whose lead in worth and load is below twenty points, yields to every lead above, and at twenty the tie rules decide |
| Matching.LocalityOverName | src/lhos/runtimes/multi_agent/matching.py:38-40 | between agents alike but for what they have read, another agent precedes the one asked for by name exactly when it holds five or more of the reads and the named one none, or at a lower id on one of the two draws |
| Matching.NameOutweighsLocality | src/lhos/runtimes/multi_agent/matching.py:39-40 | no agent alike but for what it has read outscores the one asked for by name exactly when the task declares four reads or fewer |
| Matching.LoadOnlyBlocks | src/lhos/runtimes/multi_agent/eligibility.py:66-69 | more load never makes anyone eligible |
| ClaimInvariant.SweepClosed | src/lhos/runtimes/multi_agent/reconciliation.py:54-137 | the claim loops of reconcile, restart and observation have a closed form: each claim is judged on the state the loop began with, and the loop raises exactly when a condemned claim's lease is missing where no lookup guards the release |
| ClaimInvariant.CloseIs | src/lhos/runtimes/multi_agent/recovery.py:76-146 | a completed loop is that closed form and keeps the invariant |
| ClaimInvariant.FinishKeeps | src/lhos/runtimes/multi_agent/reconciliation.py:293-344 | closing any open claims, each giving up its lease, keeps the invariant |
| ClaimInvariant.ReconcileSettles | scripts/d21_random_sm.py:367-421 | reconcile never raises and leaves open only ACTIVE claims with a live lease of their own, a live process and a task neither verified nor stale |
| ClaimInvariant.ReconcileTwice | scripts/d21_random_sm.py:367-421 | reconciling a reconciled state changes nothing |
| ClaimInvariant.BackedNeverRaises | src/lhos/runtimes/multi_agent/recovery.py:149-172 | no loop raises while every open claim's lease is in the store |
| ClaimRuns.AcquireKeeps | src/lhos/runtimes/multi_agent/scheduler.py:1637-1879 | acquiring for an unclaimed task and an agent with room keeps the invariant, however the acquisition is answered |
| ClaimRuns.OffersKeep | src/lhos/runtimes/multi_agent/scheduler.py:1385-1523 | so does a whole pass, whatever changes between matching and acquiring |
| ClaimRuns.CorruptKeeps | scripts/d21_random_sm.py:813-824 | a claim wrongly set ACTIVE holds no lease it did not hold before, so the invariant survives |
| ClaimRuns.StepKeeps | scripts/d21_random_sm.py:876-913 | any operation followed by reconcile leads from a safe state to a safe state |
| ClaimTheorems.RunSafe | scripts/d21_random_sm.py:468-608 | after every operation of every run: at most one ACTIVE claim per task; every ACTIVE claim has its own unexpired lease on its task for its process, a process that is up and a task neither verified nor stale; no agent above max_concurrency; the stored leases are exactly those of the ACTIVE claims; no two claims ever share a lease id |
| ClaimTheorems.ReconcileVerdicts | src/lhos/runtimes/multi_agent/reconciliation.py:140-220 | an open claim becomes COMPLETED exactly when it is ACTIVE with a lease id on a verified task, stays ACTIVE exactly when its lease is stored on its task and not expired, its process up and its task neither verified nor stale, and is LOST otherwise; a closed one is left alone |
| ClaimTheorems.StepHistory | scripts/d21_random_sm.py:620-832 | outside projection corruption a terminal claim never changes again |
| ClaimTheorems.CorruptionUndone | scripts/d21_random_sm.py:813-824 | corruption reopens no terminal claim: reconcile closes it before the step ends |
| ClaimTheorems.TerminalInRuns | scripts/d21_random_sm.py:876-913 | a claim terminal at some point of a run is terminal ever after, corruption included |
| ClaimTheorems.NeverRaises | src/lhos/runtimes/multi_agent/claims.py:286-297 | no operation of a run raises unless the lease provider fails, or hands out a lease with an unusable token and does not take it back |
| ClaimTheorems.AcquireIsCurrent | src/lhos/runtimes/multi_agent/scheduler.py:1656-1718 | whatever happens in between, a claim is made only at the version current at that instant, on a ready task, for a live process |
| ClaimTheorems.NewClaimsCurrent | scripts/d21_random_sm.py:563-580 | after every operation of every run and the reconcile that follows, a claim made by the operation carries a version the graph had during it, the current one if nothing interfered; a claim that is ACTIVE and was not before is a new one, corruption included |
| ClaimTheorems.CalmPass | src/lhos/runtimes/multi_agent/scheduler.py:1383-1523 | an undisturbed pass leaves nothing to dispatch: every ready task is claimed, was dispatched at this version before, has no requirements on file, or is beyond every agent |
| ClaimTheorems.DuplicateSchedule | scripts/d21_random_sm.py:719-725 | scheduling again right away dispatches nothing and changes nothing |
| ClaimOutcomes.RestartVerdicts | src/lhos/runtimes/multi_agent/recovery.py:76-146 | a restart leaves an ACTIVE claim ACTIVE, and its lease untouched, exactly when the lease is stored and not expired and the process is up; every other ACTIVE claim is LOST and its lease gone; no other claim changes |
| ClaimOutcomes.RestartIdle | src/lhos/runtimes/multi_agent/recovery.py:76-146 | a restart right after a reconcile changes nothing |
| ClaimOutcomes.RestartRaises | src/lhos/runtimes/multi_agent/recovery.py:76-146 | a restart raises exactly when an ACTIVE claim names a lease that is not stored |
| ClaimOutcomes.ObserveVerdicts | src/lhos/runtimes/multi_agent/scheduler.py:3619-3630 | an observation completes exactly the ACTIVE claims on verified tasks with evidence of their own, and releases exactly their leases |
| ClaimOutcomes.ObserveRaises | src/lhos/runtimes/multi_agent/scheduler.py:3619-3630 | an observation raises exactly when it has to complete a claim that names a lease that is not stored |
| ClaimOutcomes.ClosedForCause | scripts/d21_random_sm.py:620-832 | over every run, what becomes of an ACTIVE claim in any step, by its lease, its process and its task after the step |
| ClaimOutcomes.OperationOutcomes | scripts/d21_random_sm.py:620-832 | over every run, what each operation makes of an ACTIVE claim: RELEASED by its own release, COMPLETED when its task is verified or an attempt on it completes, LOST when its task goes stale, its process ends or its lease is expired; otherwise ACTIVE exactly while its lease is not expired and its process is up, and only a scheduling pass takes time of its own or ends other processes |
| ClaimOutcomes.WorldAfter | scripts/d21_random_sm.py:620-832 | every operation but a scheduling pass changes exactly what it names: agents, grants, processes, validity, requirements, frontier, version and time |
| ClaimOutcomes.ReadyGoesLast | scripts/d21_random_sm.py:684-693 | a task that becomes ready goes to the end of the frontier, wherever it was before |
| ClaimOutcomes.NewClaimsFit | src/lhos/runtimes/multi_agent/eligibility.py:55-99 | over every run, the agent of every claim an operation makes was enabled before it, with a created, ready or running process, and held all the task asks for |
| ClaimOutcomes.NobodyFits | src/lhos/runtimes/multi_agent/matching.py:45-145 | a task gets no agent exactly when each agent fails to fit or has as many ACTIVE claims as it may have |
| ClaimOutcomes.NobodyLeftIdle | src/lhos/runtimes/multi_agent/scheduler.py:1383-1523 | after an undisturbed pass no agent that fits and has room is left beside a ready task that is unclaimed, was not dispatched at this version and has requirements on file |
| ClaimOutcomes.OfferExactly | src/lhos/runtimes/multi_agent/scheduler.py:1383-1879 | an offer makes no claim exactly when the task is claimed, unknown or dispatched at this version, no agent is left, version, frontier or process have changed in between, or the pool has no room; otherwise exactly one: ACTIVE with a new lease of 300 seconds, ACQUIRING with one that could not be taken back, or REJECTED without one |
| ClaimOutcomes.DispatchedOnce | src/lhos/runtimes/multi_agent/scheduler.py:1383-1523 | over every run, no operation makes a claim for a task at a version at which it was dispatched before, and only what got a lease counts as dispatched |
| ClaimOutcomes.ServedInOrder | src/lhos/runtimes/multi_agent/scheduler.py:1385-1523 | a pass makes at most one claim per candidate, in the order of the frontier, whatever happens while it lasts |
| ClaimOutcomes.TwiceIsAgain | scripts/d21_random_sm.py:719-725 | the duplicate request is a second request |
| ClaimMachine.ActiveCounts | src/lhos/runtimes/multi_agent/projections.py:73-79 | per agent the number of its ACTIVE claims |
| ClaimMachine.Scheduler.ScheduleOnce | src/lhos/runtimes/multi_agent/scheduler.py:1276-1526 | one claim index per pass and running counts give the same result as asking the current claims about every candidate; what that result is say ClaimOutcomes.OfferExactly, .NewClaimsFit and .NobodyLeftIdle |
| ClaimMachine.Scheduler.RunGraph | scripts/d21_random_sm.py:876-913 | the loop over any operations is the run of the laws, and ends in a safe state |
| ClaimMachine.Scheduler.Round | scripts/d21_random_sm.py:892-907 | time, one operation and reconcile are one step |
| ClaimMachine.Scheduler.Perform | scripts/d21_random_sm.py:620-832 | each operation, or a scheduling pass when there is nothing to apply it to, has the effect and the exception of the laws |
| ClaimMachine.Scheduler.ObserveGraph | src/lhos/runtimes/multi_agent/scheduler.py:3619-3630 | the observation loop is the observation pass of the laws |
| ClaimMachine.Scheduler.GiveUp | src/lhos/runtimes/multi_agent/claims.py:264-297 | releases the lease and closes the claim, or raises and changes nothing when the provider does not know the lease |
| ClaimMachine.Scheduler.AcquireClaim | src/lhos/runtimes/multi_agent/scheduler.py:1637-1879 | no claim after a failed re-check or without room in the agent's pool; ACTIVE with its lease when granted; REJECTED without one when refused, when the provider fails (an exception), or when an unusable lease was taken back, which uses up an id; ACQUIRING with its lease, and an exception, when taking it back is not confirmed |
| ClaimMachine.Scheduler.DoReconcile | scripts/d21_random_sm.py:367-421 | losing unleased ACTIVE claims first and then sweeping is the reconcile of the laws |
| ClaimMachine.Scheduler.FinalizeAfterRestart | src/lhos/runtimes/multi_agent/recovery.py:76-146 | the restart loop is the restart pass of the laws, exceptions included; what that pass does is stated by ClaimOutcomes.RestartVerdicts and .RestartRaises |
| ClaimLeases.StepOps | scripts/d21_random_sm.py:168-241 | whatever a step of the protocol does to the leases is a sequence of operations of the lease authority, from any store that holds them |
| ClaimLeases.ProtocolStore | scripts/d21_random_sm.py:168-241 | over every run the protocol's leases are those of a store the authority's operations reach from the empty one, so the index by process is exact |
| ClaimLeases.LeaseIdsNeverReturn | scripts/d21_sigkill_adversarial.py:664-689 | over every run of the protocol a lease id that was given out and is gone never comes back |
| Readiness.InvocationActiveTime | scripts/lhtb_external_checkpoint.py:313-358 | the sums over the records and the one running invocation; an error exactly when a running record has no start, a finished one no non-negative duration, or two are running |
| Readiness.FreezeOffsets | scripts/lhtb_external_checkpoint.py:423-446 | all readable freeze time, and the part outside the running invocation |
| Readiness.CoveredSize | scripts/lhtb_external_checkpoint.py:313-358 | lengths of disjoint spans count the instants they cover |
| Readiness.ActiveSum | scripts/lhtb_external_checkpoint.py:313-358 | on a timeline's records the active time is the length of its invocations so far |
| Readiness.DoneSum | scripts/lhtb_external_checkpoint.py:313-358 | on a timeline's records the completed time is the length of its finished invocations |
| ReadinessLaws.RunningExact | scripts/lhtb_external_checkpoint.py:332-353 | at most one record says running, and it is the invocation that is |
| ReadinessLaws.AdjustedCounts | scripts/lhtb_external_checkpoint.py:1338-1347 | with disjoint freezes inside their own invocations the adjusted times count instants, so clipping at zero never fires |
| ReadinessLaws.AdjustedExact | scripts/lhtb_external_checkpoint.py:1338-1347 | adjusted active time is the time really worked exactly when the observation is not in the middle of a freeze |
| ReadinessLaws.DoneExact | scripts/lhtb_external_checkpoint.py:1338-1347 | adjusted completed time is exact at every moment |
| ReadinessLaws.AdjustedGrows | scripts/lhtb_external_checkpoint.py:1338-1347 | adjusted active time never drops after an observation exactly when the observation is not in the middle of a freeze |
| ReadinessLaws.DoneGrows | scripts/lhtb_external_checkpoint.py:1338-1347 | adjusted completed time never drops, freezes or not |
| ReadinessLaws.Overcount | scripts/lhtb_external_checkpoint.py:1338-1347 | seen during a freeze, adjusted active time is too high by exactly the time the freeze has lasted so far, and drops by that much when the freeze is over |
| ReadinessLaws.DueExact | scripts/lhtb_external_checkpoint.py:400-420 | due exactly when the cutoff-th instant of real work lies in the running invocation |
| ReadinessLaws.LateExact | scripts/lhtb_external_checkpoint.py:400-420 | late exactly when the cutoff-th instant of real work lies in a finished invocation |
| ReadinessLaws.PendingExact | scripts/lhtb_external_checkpoint.py:400-420 | pending exactly when less than the cutoff has been worked |
| ReadinessLaws.OneWay | scripts/lhtb_external_checkpoint.py:400-420 | after an observation every cutoff only goes from pending to due to late exactly when the observation is not in the middle of a freeze |
| ReadinessLaws.MidFreezeGoesBack | scripts/lhtb_external_checkpoint.py:400-446 | on every timeline, seen during a freeze, exactly the cutoffs that fall into the time the freeze has lasted so far look due and are pending again when it is over |
| Watcher.FirstPending | scripts/lhtb_external_checkpoint.py:1354-1360 | the first pending cutoff in time order |
| WatcherLaws.ScanMoves | scripts/lhtb_external_checkpoint.py:1321-1414 | one poll of an arm keeps its row in shape and starts at most one capture |
| WatcherLaws.RunGood | scripts/lhtb_external_checkpoint.py:1282-1428 | in every reachable state, restarts included, only finished cutoffs precede the one being captured, captures in flight match the rows one to one, attempts are bounded and the index file is never ahead |
| WatcherLaws.RunInOrder | scripts/lhtb_external_checkpoint.py:1119-1189 | from a fresh index every reachable row is finished cutoffs, then at most one capturing, then pending ones |
| WatcherLaws.OneCapturePerArm | scripts/lhtb_external_checkpoint.py:1278-1320 | two captures in flight belong to different arms |
| WatcherLaws.AttemptsBounded | scripts/lhtb_external_checkpoint.py:1254-1267 | no cutoff is attempted more often than max_capture_attempts plus the number of restarts |
| WatcherLaws.CompleteMeans | scripts/lhtb_external_checkpoint.py:1417-1423 | complete is reported only when every cutoff is finished, nothing is in flight and the file says the same |
| WatcherLaws.FinishedForever | scripts/lhtb_external_checkpoint.py:1192-1267 | from any prefix of a run to its end no finished cutoff is reopened without a restart, and not even a restart reopens one that had reached the index file |
| WatcherLaws.Causes | scripts/lhtb_external_checkpoint.py:1282-1414 | every change of status has its cause: captured and failed by the cutoff's own capture or a changed trial, capturing only for the first pending cutoff when due, late and not reached only by a poll that says so |
| WatcherLaws.EndedSplit | scripts/lhtb_external_checkpoint.py:1362-1376 | when an arm ends, the cutoffs it passed are late, the later ones not reached, in this order |
| WatcherLaws.HarvestExactly | scripts/lhtb_external_checkpoint.py:1283-1319 | a harvest settles the cutoff of its own capture and nothing else: captured, failed at the attempt limit, or pending again |
| WatcherLaws.RestartExactly | scripts/lhtb_external_checkpoint.py:1254-1267 | a restart takes the index file, turns captures under way back to pending with their attempts, and keeps all else |
| WatcherLaws.PublishExactly | scripts/lhtb_external_checkpoint.py:1417-1423 | publishing writes the index and reports completion exactly when there are arms, all their cutoffs are finished, nothing is in flight and the primary run is over |
| WatcherLoop.Loop.Poll | scripts/lhtb_external_checkpoint.py:1282-1425 | one round of the loop is its harvests, scans and publication in that order |
| WatcherLoop.Loop.ScanOne | scripts/lhtb_external_checkpoint.py:1321-1414 | the branches of one poll of an arm are the poll of the laws, whose effect WatcherTime.PollExactly states |
| WatcherLoop.Loop.HarvestOne | scripts/lhtb_external_checkpoint.py:1283-1319 | captured, failed or pending again by result and attempts |
| WatcherLoop.Loop.RestartFromFile | scripts/lhtb_external_checkpoint.py:1254-1267 | the recovery loops turn every capture under way in the index file back to pending and touch nothing else |
| WatcherTime.PollsOutsideFreezes | scripts/lhtb_external_checkpoint.py:1317-1320 | over every run with restarts, when the freezes of a trial lie within the flights of its arm's captures, no poll of the arm is in the middle of a freeze |
| WatcherTime.PollsOneWay | scripts/lhtb_external_checkpoint.py:1282-1414 | then every cutoff only goes from pending to due to late from one poll of the arm to any later one |
| WatcherTime.CapturesOnTime | scripts/lhtb_external_checkpoint.py:1378-1414 | then a capture is started only while the invocation is running in which the cutoff's instant of real work fell |
| WatcherTime.PollExactly | scripts/lhtb_external_checkpoint.py:1321-1414 | over every run, exactly what a poll of an arm does on the trial's own time: with the trial replaced every cutoff fails; with the arm over the pending ones become late or not reached by the time really worked; otherwise the first pending cutoff becomes late when its instant fell in a finished invocation, is being captured with a future in flight when it fell in the running one, and nothing else changes; the arm belongs to the first trial seen |
| BlobScan.OverlapSuffices | scripts/lhtb_external_checkpoint.py:610-626 | keeping one byte less than the secret of context finds every occurrence and no other |
| BlobScan.ScanChunks | scripts/lhtb_external_checkpoint.py:614-627 | for every split into chunks the flag is set exactly when the secret occurs in the stream |
| BlobScan.BlobStore.ScanAndStore | scripts/lhtb_external_checkpoint.py:602-649 | published only with the right size and no hit; stored blobs never change; every stored blob is filed under its digest and free of the secret |
| Paths.SafeTwice | scripts/lhtb_external_checkpoint.py:569-579 | cleaning a cleaned name returns it |
| Paths.SafeIsProper | scripts/lhtb_external_checkpoint.py:569-579 | accepted names have clean components only |
| Paths.SafeIsParts | scripts/lhtb_external_checkpoint.py:569-579 | an accepted name stands for the parts of the name as written |
| Paths.SafeExact | scripts/lhtb_external_checkpoint.py:569-579 | a name is refused exactly when its text is absolute after any leading "./", with either slash, and not only slashes, when it has a part "..", or when it holds a NUL |
| Paths.SplitExact | scripts/lhtb_external_checkpoint.py:569-579 | splitting a name and joining its parts returns the name, and no part holds a slash |
| Paths.CleanName | scripts/lhtb_external_checkpoint.py:569-579 | the loop that drops leading dots, and the rest of the cleaning, compute the name the laws are about; refused exactly when the text is absolute, has a part ".." or holds a NUL |
| Paths.CollapseExact | scripts/lhtb_external_checkpoint.py:682-684 | a normalised relative path starts with ".." exactly when the walk leaves its start at some point, however it comes back |
| Paths.CollapseCancels | scripts/lhtb_external_checkpoint.py:680-682 | going down and up again is going nowhere |
| Paths.CollapseDown | scripts/lhtb_external_checkpoint.py:680-682 | a path without ".." is left as it is |
| Paths.ParentExact | scripts/lhtb_external_checkpoint.py:679-680 | the directory of an entry is its path without the last part |
| Paths.ResolveExact | scripts/lhtb_external_checkpoint.py:677-685 | a link is accepted exactly when it is non-empty, relative, free of NUL and never leaves the workspace; it then resolves to a clean path inside |
| Workspace.FollowHardlink | scripts/lhtb_external_checkpoint.py:712-724 | terminates on every table and accepts exactly the hardlinks whose chain ends at a regular file |
| Workspace.CycleNeverEnds | scripts/lhtb_external_checkpoint.py:717-719 | a chain that comes back to a place never ends at a file |
| Workspace.Validate | scripts/lhtb_external_checkpoint.py:688-724 | accepts exactly the archives in which, on the texts of the entries, every name is relative, free of ".." and NUL and stands for a place of its own, no entry is a fifo or device, every symlink is relative and never leaves the workspace, nothing lies below a symlink, and from every hardlink a chain of entries leads to a regular file |
| Workspace.AcceptableExact | scripts/lhtb_external_checkpoint.py:688-724 | the conditions as the three loops test them are these conditions on the texts |
| TraceCache.HitSameHome | scripts/lhtb_dsh_harbor_agent.py:2226-2242 | for one home a hit is exactly what was there when its fingerprint was begun, although neither fingerprint nor parse is atomic |
| TraceCache.HitExact | scripts/lhtb_dsh_harbor_agent.py:217-240 | a hit agrees with a fresh parse exactly when the home is the same, or the fingerprint is not empty, or nothing was read |
| TraceCache.EmptyFingerprintConfuses | scripts/lhtb_dsh_harbor_agent.py:217-240 | a file that appears between an empty fingerprint and its parse is later served for another home |
| TraceCache.Tracer.Trace | scripts/lhtb_dsh_harbor_agent.py:2226-2242 | the cached rows on equal fingerprints, fresh ones otherwise; afterwards the cache holds what a fresh parse with a fingerprint read, or what it held |
| Usage.Delta | scripts/lhtb_dsh_harbor_agent.py:358-379 | per counter the least amount that leads from the previous reading to the current one or beyond, landing on it exactly where the counter did not fall; CPU time likewise, known exactly when both readings know it |
| Usage.FirstCpuUnknown | scripts/lhtb_dsh_harbor_agent.py:375-379 | the first phase of a generation never has a CPU time delta |
| Usage.CpuCovered | scripts/lhtb_dsh_harbor_agent.py:375-379 | in every generation of every run whose CPU readings are all known, the known CPU deltas fall short of the deltas from zero by exactly the first reading; they cover the way from the first to the last reading, with equality exactly when the readings never fall |
| Usage.SumCovers | scripts/lhtb_dsh_harbor_agent.py:358-379 | deltas add up to at least the last reading, and to exactly that just when readings never fall |
| Usage.CountersExact | scripts/lhtb_dsh_harbor_agent.py:1231-1245 | session generation, restart count and number of RESTART_COMPACTED decisions agree; halts are the TERMINATE decisions |
| Usage.GenerationCovered | scripts/lhtb_dsh_harbor_agent.py:1410-1415 | in every generation of every run each counter's phase deltas cover the last reading, with equality exactly for a trace that never falls |
| Usage.RunCovered | scripts/lhtb_dsh_harbor_agent.py:1741-1751 | over a whole run the deltas cover the sum over generations of the last observed reading, the form of the heartbeat's cumulative figure, with equality exactly when no generation falls |
| Usage.Agent.RunControlled | scripts/lhtb_dsh_harbor_agent.py:1226-1261 | the controlled loop stops at the first TERMINATE and has then done exactly the phases so far |
| Usage.Agent.Observe | scripts/lhtb_dsh_harbor_agent.py:1410-1415 | files the reading and records the delta to the previous one of the generation |
| Bridge.RoundTrip | scripts/lhtb_dsh_phase_bridge.py:284-333 | reading back the dictionary of a valid record returns the record |
| Bridge.NormalForm | scripts/lhtb_dsh_phase_bridge.py:284-333 | every accepted mapping, blanks, nulls and absent fields included, has a normal form that reads as the same record |
| Bridge.FromMapping | scripts/lhtb_dsh_phase_bridge.py:217-313 | only valid records are ever produced, with any value that is false read as an empty usage |
| Bridge.FromMappingExact | scripts/lhtb_dsh_phase_bridge.py:181-347 | a mapping is accepted exactly when it is an object with known names only and none forbidden at any depth, has the schema version and the required fields well-formed, optional fields null or well-formed, and does not name a tool twice or leave an event without type and source; the record then holds what the fields say, without the blanks around texts |
| Bridge.ForbiddenExact | scripts/lhtb_dsh_phase_bridge.py:337-347 | a forbidden name is found exactly when some path of fields and items leads to one |
| Bridge.StripExact | scripts/lhtb_dsh_phase_bridge.py:102-108 | stripping takes blanks off both ends and leaves none there |
| Bridge.Validate | scripts/lhtb_dsh_phase_bridge.py:349-391 | one pass with a last-seen map accepts exactly the streams with a well-formed expected invocation id, if any, every record in place, the expected identity, and source numbers strictly increasing between any two session events of a session |
| Bridge.AcceptedPrefix | scripts/lhtb_dsh_phase_bridge.py:349-391 | every prefix of an accepted stream is accepted |
| Bridge.ContinuesExactly | scripts/lhtb_dsh_phase_bridge.py:370-391 | an accepted stream may be continued by a record exactly when the record is in place and, being a session event, is ahead of the last event of its session |
| Bridge.AppendAccepted | scripts/lhtb_dsh_phase_bridge.py:370-391 | a stream with one record more is accepted exactly when the stream is and the record is in place and ahead of every earlier event of its session |

## Left out

- Kahn.ValidTopo: node ids are distinct, as every caller's are; a list with repeats is not covered.
- Frontier.BuildLargeDag: for more than 900 nodes, below which the source's random choice of a join node has an empty range.
- ClaimTheorems.DuplicateSchedule: for a provider that grants every lease, as the in-memory one does; a refusal adds a REJECTED claim each time.
- ClaimMachine.Scheduler.ScheduleOnce: the pass begins without pending acquisitions, which is proved of every state a run schedules in, so the reconciliation that would precede it is not modelled.
- ClaimTheorems.RunSafe: one reconcile is one instant; a lease that runs out between reconcile and the invariant tests of the script is not considered.
- Usage.RunCovered: readings are those of the phase observations; the heartbeat keeps its own last readings, taken at its own times.
- Usage.CpuCovered: a generation with an unknown CPU reading after the first is not covered; its known deltas then leave a gap on both sides of it.
- Claim identifiers as text, attempt records and attempt numbers, event logs, durable scheduler state, resource vectors (whether an agent's pool has room is part of the answer to an acquisition), max_claims, allowed task ids, dispatch order and max_attempts. Which reads an agent has seen is part of the agent as matched; how snapshots record it is not modelled.
- Lease renewal and handoff, and the scheduler's own reconcile with its search for leases by owner.
- The SQLite kernel's lease acquisition and the cross-process kill scripts.
- Docker, Harbor, subprocesses, credentials, shell commands and generated JavaScript.
- SHA-256, tar encoding, JSON text and time stamps; file modification times in fingerprints (equal fingerprints imply equal sizes, which is all that is used).
- Report writers, benchmark command lines, trace statistics and bridge summaries.
- The character classes and lengths of the bridge's text patterns are taken over as definitions; the laws hold for them as given.
- The full invalidation engine and the progress graph behind the scheduler.
