# Verification model of the procurement core

This project models the parts of the repository that decide purchases and keep their records, and proves what they
promise over all inputs and all runs.

- **Qualification kernel** (`Qualification*.dfy`): bundle activation, generation-fenced leases, immutable snapshots,
  finalization, bounded replacement chains, invalidation and two-consent introductions. `QualificationTables` holds the
  rows, `QualificationSteps` every call and every change made beside the repository as a function on the tables,
  `QualificationRepository` the class whose methods update the rows in place and are proved against these functions.
  A run is any interleaving of eighteen operations from empty tables; a call that raises changes nothing.
  `QualificationInvariants` and `QualificationRuns` carry the inductive invariant and the relation every step keeps;
  `QualificationLeases` and `QualificationConstraints` add what leases, checkpoints and the uniqueness constraints of
  the tables do; `QualificationOutcomes`, `QualificationFences`, `QualificationWithdrawals`, `QualificationGenerations`
  and `QualificationConsents` say of each call exactly when it commits and what it leaves, by the rows alone;
  `QualificationWitnesses` holds concrete runs that reach the limits the theorems speak of.
- **Decision graph** (`RankStability`, `RankPriorities`, `ComponentClosure`, `EvidenceAssessments`, `EligibilityGates`,
  `GateVerdicts`, `EligibilityTheorems`, `Counterfactuals`, `Recall`, `RecallMeanings`, `RecallTheorems`,
  `BundleCosts`, `CostMeanings`): exact bounds and rank stability, the dependency closure, evidence-backed eligibility,
  the search for decisive private facts, deduplication and composed costs.
- **Stackfile** (`StackGraphs`, `StackPatches`, `StackChanges`, `StackHistories`): the graph invariant, the imperative
  patch loop and runs of applied patches.
- **Rules** (`DecisionRules`, `DecisionVerdicts`): three-valued rules and the ordered gates of a candidate.
- **Evidence spans** (`EvidenceSpans`): the paragraph scan and the chunk loop.
- **Negotiation** (`OfferLedger`, `LedgerOutcomes`, `ExchangeCoordinator`): the hash-chained offers, their approvals, and the
  coordinator of party commands.
- `DirectedGraphs`, `Ordering` and `Outcomes` are shared.

A method proved against a function says that the loops compute it; what the function means is then said without it, by
theorems on the inputs and the results whose names mostly end in `Exactly`.

Times and money are whole numbers, exact ratios are reals, and a hash is the value it hashes, so equal hashes mean
equal values. Constructor checks of the Python value objects are subset types.

Where the code does less than one might expect, the model follows the code and says so in a theorem:

- An attempt cannot be claimed again once a snapshot or a checkpoint was written under it, because checkpoints refer to
  its generation (`ClaimCommitsExactly`, `NeverClaimableExactly`). If that one lease runs out before the finalization,
  the attempt and its mission are stuck (`StrandedForEver`, `StrandedMissionIsStuck`, `ExpiryStrands`), and a worker
  that numbers its own checkpoint 1 before the snapshot never gets the snapshot (`BlockedForEver`).
- Activating an active bundle again is refused by its outbox key; only READY bundles are ever activated
  (`ActivationHappensOnce`, `SecondActivationAborts`).
- A stale finalization at the last depth aborts (`FinalizeCommitsExactly`, `LastFinalizationAborts`), and one
  exhausted replacement chain blocks the invalidation of every decision on the product (`SweepAbortsExactly`,
  `SweepAbortIsReached`).
- A blocking gate can be TRUE and still block a plan (`TrueWithoutReason`, `TrueGateCanStillBlock`).
- A paragraph of one character, or with whitespace at the end of its last line, does not end at the blank line after
  it (`StopsAtBlankLineExactly`, `BlankLinesAreOverrun`).
- Learning fields can turn a decided condition about existence, about a whole mapping or about its keys; for every
  operator the exact condition is `DecidedConditionStaysExactly` (`ExistenceCanTurn`, `MappingsCanTurn`).
- Recall fails without any alias cycle when an alias leads out of the identifiers (`RecallAndDeduplicate`,
  `AliasTargetIsRefused`).
- A bundle of valid costs is invalid when only some of its paid components list their cost
  (`ComposedCostIsValidExactly`, `PartlyItemizedBundleIsRefused`).

Check everything with `dafny verify dfyconfig.toml`.

## Model

| member | source | states |
|---|---|---|
| QualificationTheorems.AttemptsFormOneChain | python/persistence/qualification_repository.py:715-737 | In every state of every run from empty tables, the attempts of a mission form one replacement chain of one to four attempts: each names the one before it as predecessor, the depths are 0 to 3, and every attempt but the last is STALE or COMPLETED with no current decision. |
| QualificationTheorems.OneCurrentDecisionPerMission | python/persistence/qualification_repository.py:189-234 | Hence a mission never has two current decisions, without relying on the partial index of the table. |
| QualificationTheorems.NoBundleReturns | python/persistence/qualification_repository.py:116-138 | If the pointer of a product names the same bundle at two moments of a run, the pointer row was the same row at every moment in between: a superseded bundle never returns. |
| QualificationTheorems.ActiveIffPointedTo | python/persistence/qualification_repository.py:116-138 | In every reachable state a bundle is ACTIVE exactly when the pointer of its product names it. |
| QualificationTheorems.ActivationHappensOnce | python/persistence/qualification_repository.py:83-157 | At every moment of every run, activation commits exactly for a bundle that is still READY, belongs to the organization under the expected digest, has members that hash to it, and whose product has no active bundle of another organization; the branch that accepts an ACTIVE bundle never commits, because its outbox key is taken. |
| QualificationWitnesses.SecondActivationAborts | python/persistence/qualification_repository.py:93-157 | A concrete run that publishes and activates a bundle, and in which the same activation made again aborts. |
| QualificationTheorems.DecisionsCommitOnActivePins | python/persistence/qualification_repository.py:459-527 | A decision binds the snapshot its attempt wrote first; at the step that commits it every PRODUCT_BUNDLE pin is the active pointer, and a pin that was active when the snapshot was read was active at every step in between. |
| QualificationTheorems.OneLeasePassesTheFence | python/persistence/qualification_repository.py:678-694 | Of all leases ever handed out for an attempt, at most one passes the fence at any moment. |
| QualificationTheorems.ClaimsIncreaseGenerations | python/persistence/qualification_repository.py:271-292 | A claim hands out a generation above every generation handed out before for the attempt. |
| QualificationTheorems.OlderLeasesAreFencedOff | python/persistence/qualification_repository.py:678-694 | After a later claim, every snapshot, checkpoint and finalization under the older lease aborts for the rest of the run. |
| QualificationTheorems.FinishedAttemptsAreFrozen | python/persistence/qualification_repository.py:271-292 | STALE and COMPLETED attempts never change again. |
| QualificationTheorems.OneFinalizationPerAttempt | python/persistence/qualification_repository.py:451-541 | Over any run at most one finalization of an attempt commits. |
| QualificationFences.FencePassesExactly | python/persistence/qualification_repository.py:678-694 | At every moment of every run a worker passes the fence exactly when it names, by generation and owner, the newest lease ever handed out for the attempt, that lease has not run out, and the attempt is in a state the call is for; a lease that was never handed out does not pass. |
| QualificationFences.SnapshotCommitsExactly | python/persistence/qualification_repository.py:294-428 | At every moment of every run, a snapshot commits exactly for the newest lease of an attempt that can be read, when it reads what was first written, and then changes nothing, or when it is the first, names each input once and finds the first checkpoint free, and then writes dependencies, digest and checkpoint together. |
| QualificationFences.DependenciesExactly | python/persistence/qualification_repository.py:304-372 | What a snapshot reads: the three inputs of the mission, every pinned bundle in order of the products, then every member of those bundles in order of products and members, and nothing else. |
| QualificationFences.FinalizationExactly | python/persistence/qualification_repository.py:451-541 | At every moment of every run and for any lease, told by rows alone: a finalization needs the newest lease of a snapshotted attempt; while the pointers name every pinned bundle it decides exactly when every citation and the recommended product are in the snapshot, and after a pointer moved it retires the attempt exactly above the last depth. |
| QualificationOutcomes.ClaimExactly | python/persistence/qualification_repository.py:256-292 | A claim commits exactly for 1 to 600 seconds of an unfinished attempt nobody else holds and without a checkpoint; it hands out a lease of the next generation that ends after those seconds, and changes that one row. |
| QualificationOutcomes.CheckpointExactly | python/persistence/qualification_repository.py:430-449 | A checkpoint commits exactly under the fence, for a positive number not yet taken, and adds that one key. |
| QualificationOutcomes.ActivationOutcome | python/persistence/qualification_repository.py:116-157 | At every moment of every run, an activation that commits makes the bundle ACTIVE, supersedes exactly the bundle that was active for the product, moves the pointer one generation on, sends its event and changes nothing else. |
| QualificationGenerations.GenerationsCountActivations | python/persistence/qualification_repository.py:116-138 | In every reachable state the generation of a product's pointer is the number of activations of its bundles so far, and a product without a pointer had none. |
| QualificationOutcomes.ApprovesExactly | services/api/sira_api/qualification_service.py:1059-1135 | An approval commits exactly for a current, pending decision that pins a bundle, whose pins are all active and whose recommended product is pinned to its attempt; it opens one engagement with the organization of that pin, for seven days. |
| QualificationIntroductions.IntroducedExactlyOnce | python/persistence/qualification_repository.py:606-645 | An engagement is INTRODUCED exactly when it has one introduction, one effect and one outbox event; otherwise it has none of them. |
| QualificationIntroductions.IntroductionsReplay | python/persistence/qualification_repository.py:565-578 | Repeating a request that produced an introduction returns that same introduction at any later time and changes nothing. |
| QualificationIntroductions.WithdrawnIsNeverIntroduced | python/persistence/qualification_repository.py:579-590 | Once a decision stopped being current it stays so, and no engagement of it gains an introduction. |
| QualificationIntroductions.InvalidatedIsNeverIntroduced | python/persistence/qualification_repository.py:202-215 | An engagement invalidated by a bundle change has no introduction, then or ever after, although granting consent can move its state on. |
| QualificationConsents.IntroductionCommitsExactly | python/persistence/qualification_repository.py:579-646 | At every moment of every run, an engagement without an introduction is introduced exactly when its decision is current, APPROVED and of that digest, the engagement is of that decision and digest and unexpired, and BUYER and SELLER rows for that digest are granted, unexpired, of the given fields and of two people; then one introduction, one effect and one event are added and the engagement is INTRODUCED, and otherwise nothing changes. |
| QualificationConsents.IntroducedAnswersExactly | python/persistence/qualification_repository.py:565-578 | At every moment of every run, an introduced engagement answers exactly the request it was introduced by, with its introduction; any other request is refused, and nothing changes. |
| QualificationConsents.ConsentsFollowGrants | services/api/sira_api/qualification_service.py:1343-1400 | In every reachable state a consent is there exactly when a grant of it committed before; there was one such grant, the row has its actor, its fields and its expiry, the engagement's or a day later, and is granted exactly as long as it was not revoked. |
| QualificationConsents.RevokedIsNeverIntroduced | python/persistence/qualification_repository.py:592-603 | Once either party revoked its consent, the engagement never gains an introduction, and that consent is never granted again. |
| QualificationLeases.ClaimCommitsExactly | python/persistence/qualification_repository.py:256-292 | At every moment of every run, a claim for a lawful time commits exactly for an attempt that is QUEUED or RUNNING, is held by nobody else, and for which no snapshot and no checkpoint committed before: the generation a checkpoint refers to cannot change. |
| QualificationLeases.NeverClaimableExactly | python/persistence/qualification_repository.py:256-292 | No claim of an unfinished attempt commits in any continuation of a run exactly when a snapshot or a checkpoint of it committed before; otherwise waiting for its lease to run out is enough. |
| QualificationLeases.SnapshottedIsNeverClaimed | python/persistence/qualification_models.py:624-632 | An attempt that has its snapshot is never claimed again, not even by the worker that holds it. |
| QualificationLeases.SnapshotLeaseFinalizesExactly | python/persistence/qualification_repository.py:451-460 | Of all leases ever handed out, exactly the one under which the snapshot was taken passes the fence of a finalization, exactly before it expires and until the attempt was finalized. |
| QualificationLeases.SnapshottedIsFinalizedExactly | python/persistence/qualification_repository.py:451-541 | A finalization of a snapshotted attempt commits exactly under that lease, before it expires, once, and with active pins and citations inside the snapshot, or with a changed pin above the last depth. |
| QualificationLeases.StrandedForEver | python/persistence/qualification_repository.py:678-694 | Once the lease under which something was written has run out before the finalization, every claim, snapshot, checkpoint and finalization of the attempt aborts, under any lease, for the rest of the run, and its row never changes. |
| QualificationLeases.StrandedMissionIsStuck | python/persistence/qualification_repository.py:715-737 | The mission of a stranded attempt gains no attempt, has no current decision and cannot be started again for the rest of the run. |
| QualificationLeases.BlockedForEver | python/persistence/qualification_repository.py:430-449 | A first checkpoint written before the snapshot takes its sequence number: the attempt never gets a snapshot and is never finalized. |
| QualificationWitnesses.RenewalAborts | python/persistence/qualification_repository.py:256-292 | A concrete run in which the worker that holds the lease, right after its snapshot, is refused every renewal. |
| QualificationWitnesses.ExpiryStrands | python/persistence/qualification_repository.py:678-694 | A concrete run in which a minute passes after the snapshot; the attempt is stranded, and every claim and finalization of it aborts. |
| QualificationWitnesses.EarlyCheckpointBlocks | python/persistence/qualification_repository.py:413-449 | A concrete run in which the worker writes its first checkpoint before the snapshot and is refused the snapshot. |
| QualificationConstraints.InputsAreDecidedOnce | python/persistence/qualification_models.py:654-659 | In every reachable state two decisions of one mission have different inputs, so the uniqueness of the input digest never refuses a decision. |
| QualificationConstraints.WithdrawnHoldsSuperseded | python/persistence/qualification_repository.py:189-204 | In every reachable state the bundles pinned by a decision were active, and a decision that is not current holds one that is superseded. |
| QualificationConstraints.OneEngagementPerDecision | python/persistence/qualification_models.py:734 | In every reachable state a decision has at most one engagement, and none while it is pending. |
| QualificationLimits.FinalizeCommitsExactly | python/persistence/qualification_repository.py:459-541 | At every moment of every run, a fenced finalization with active pins commits exactly when it cites and recommends within the snapshot, and then makes the one decision that binds the snapshot; with a changed pin it commits exactly when the attempt is not at the last depth, and then makes no decision, marks the attempt STALE and queues its one replacement. Nothing else changes but the outbox. |
| QualificationWitnesses.LastFinalizationAborts | python/persistence/qualification_repository.py:715-737 | A concrete run of three stale rounds after which the fourth attempt, at the last depth, holds the fence and its stale finalization aborts. |
| QualificationSweeps.SweepAbortsExactly | python/persistence/qualification_repository.py:159-254 | At every moment of every run, an invalidation aborts exactly when a current decision on an older bundle of the product belongs to a live mission and an attempt at the last depth. |
| QualificationWitnesses.SweepAbortIsReached | python/persistence/qualification_repository.py:189-254 | A concrete run of three stale rounds, a decision of the fourth attempt and a new bundle, after which the invalidation of the product aborts and the decision stays current on the older bundle. |
| QualificationSweeps.SweepLeavesNothingStale | python/persistence/qualification_repository.py:159-254 | A committed invalidation leaves no current decision that pins another bundle of the product than the active one, and repeating it does nothing. |
| QualificationSweeps.SweepOutcome | python/persistence/qualification_repository.py:189-254 | What an invalidation does to every decision: exactly the current decisions on another bundle are withdrawn and listed, once each and in order of their identifiers; all others keep their row. |
| QualificationWithdrawals.SweepExactly | python/persistence/qualification_repository.py:159-254 | At every moment of every run, an invalidation that commits goes through the current decisions that pin the product, in order of their identifiers, leaves after each of them exactly the rows it calls for, and reports the withdrawn decisions and the attempts that replace theirs. |
| QualificationWithdrawals.RowLeavesExactly | python/persistence/qualification_repository.py:189-254 | What one decision of an invalidation leaves: nothing when its pin is still active; otherwise it is withdrawn, exactly its engagements that are neither introduced nor expired are INVALIDATED, and, when its mission goes on and the product is still sold by the same organization, its mission is READY, the next attempt of its chain is queued and one event sent. |
| QualificationSweeps.RowOutcome | python/persistence/qualification_repository.py:189-251 | One row of the invalidation: skipped when its pin is active, withdrawn otherwise, and aborting exactly when its replacement is refused. |
| QualificationInvariants.ApplyKeepsInv | python/persistence/qualification_repository.py:69-158 | Every repository call and every change beside it keeps the kernel invariant: catalogue, chains, leases, snapshots, engagements, introductions, effects and outbox. |
| QualificationRuns.ApplyExtends | python/persistence/qualification_repository.py:69-158 | Every step only extends the history: bundles, pointers, attempts, snapshots, decisions and introductions move only in their allowed directions. |
| QualificationRuns.StatesExtend | python/persistence/qualification_repository.py:69-158 | Any later state of a run extends any earlier one. |
| QualificationRuns.OtherChangeKeepsHistory | services/worker/sira_worker/qualification.py:214-288 | The steps beside the repository (opening, starting and moving missions, publishing and pinning bundles, responses, consents, the clock) leave pointers, snapshots, leases, decisions, introductions, effects and outbox alone. |
| QualificationOutcomes.StartsExactly | services/worker/sira_worker/qualification.py:224-257 | The worker creates the root attempt of a mission exactly when the mission is known and has no attempt, queued and unclaimed, and changes nothing else. |
| QualificationOutcomes.PinsExactly | services/worker/sira_worker/qualification.py:258-278 | The worker pins bundles exactly to a queued attempt, and only when it has none. |
| QualificationOutcomes.RejectsExactly | services/api/sira_api/qualification_service.py:1059-1076 | A rejection commits exactly for a current, pending decision, and changes its approval alone. |
| QualificationOutcomes.GrantsExactly | services/api/sira_api/qualification_service.py:1343-1400 | A consent is granted exactly once for a party and a digest of an unexpired engagement, until the engagement expires and for a day at most. |
| QualificationRepository.Repository.ActivateBundle | python/persistence/qualification_repository.py:76-157 | Checks the bundle and its membership digest, moves the pointer, supersedes the previous bundle and appends the outbox key; an error leaves every row as it was. |
| QualificationRepository.Repository.ClaimAttempt | python/persistence/qualification_repository.py:256-292 | Takes or renews the lease of an unfinished attempt and increases its generation, or refuses; a checkpoint of the attempt, which refers to its generation, refuses too. |
| QualificationRepository.Repository.FencedAttempt | python/persistence/qualification_repository.py:678-694 | Returns the attempt row exactly when the lease still owns it, is unexpired and the state is allowed. |
| QualificationRepository.Repository.SnapshotAttempt | python/persistence/qualification_repository.py:294-428 | Writes the dependencies of mission, bundles and members once; a replay compares the digest and writes nothing. |
| QualificationRepository.Repository.GatherDependencies | python/persistence/qualification_repository.py:304-372 | Reads the pinned bundles in product order and refuses a bundle without members. |
| QualificationRepository.Repository.CheckpointAttempt | python/persistence/qualification_repository.py:430-449 | Adds a checkpoint under the fence, once per sequence number. |
| QualificationRepository.Repository.ChangedProductBundles | python/persistence/qualification_repository.py:696-713 | Lists exactly the pinned products whose active pointer no longer names the pinned bundle; empty exactly when all pins are active. |
| QualificationRepository.Repository.FinalizeAttempt | python/persistence/qualification_repository.py:451-541 | Retires the attempt when a pin changed, otherwise records the decision with the copied snapshot; an error leaves every row as it was. |
| QualificationRepository.Repository.RecordDecision | python/persistence/qualification_repository.py:500-541 | Copies the snapshot into the decision and marks its cited dependencies; the marks name exactly the citations. |
| QualificationRepository.Repository.ReplacementFor | python/persistence/qualification_repository.py:715-737 | Returns the queued successor if there is one, creates it below the last depth, and refuses at the last depth. |
| QualificationRepository.Repository.InvalidateDecisions | python/persistence/qualification_repository.py:159-254 | Withdraws every current decision pinned to another bundle, its open engagements, and schedules replacements; one refusal rolls the whole call back. |
| QualificationRepository.Repository.InvalidateRow | python/persistence/qualification_repository.py:189-251 | The body of the invalidation loop for one decision. |
| QualificationRepository.Repository.WithdrawEngagements | python/persistence/qualification_repository.py:205-216 | Invalidates exactly the engagements of the decision that are neither introduced nor expired. |
| QualificationRepository.Repository.PartiesAgree | python/persistence/qualification_repository.py:592-605 | The method finds consent exactly when both parties hold a granted, unexpired consent to exactly these fields, from distinct people; what an introduction then needs over every run is IntroductionCommitsExactly. |
| QualificationRepository.Repository.Introduce | python/persistence/qualification_repository.py:543-646 | Replays an existing introduction or creates introduction, effect and event together; an error leaves every row as it was. Its outcome is that of the step whose exact conditions and rows are IntroductionCommitsExactly and IntroducedAnswersExactly. |
| RankStability.StableExactly | python/decision_engine/bounds.py:355-373 | STABLE exactly when the selected plan strictly precedes every competitor for every joint choice of satisfaction, risk, cost, coverage and age inside their intervals; UNSTABLE exactly when some joint choice puts a competitor ahead. What precedes means, dimension by dimension, is ScenariosFollowPriorities. |
| RankStability.FrontierExactly | python/decision_engine/bounds.py:366-372 | The frontier is sorted and is exactly the competitors that some joint choice puts ahead; one adverse choice puts all of them ahead at once; dimension by dimension it is AssessedByPriorities. |
| RankStability.UndeterminedExactly | python/decision_engine/bounds.py:359-362 | UNDETERMINED exactly when a plan lacks bounds, and the sorted list names exactly those plans. |
| RankStability.StablePlanIsRankedFirst | python/decision_engine/bounds.py:306-317 | A stable plan precedes every competitor by the authoritative key, whose order is RankingFollowsPriorities. |
| RankStability.ScenariosStayWithin | python/decision_engine/bounds.py:320-345 | No choice inside the intervals gives a key better than the optimistic or worse than the conservative envelope key. |
| RankStability.KeysAreScenarios | python/decision_engine/bounds.py:306-345 | The three keys are the keys of three concrete choices inside the intervals, so both envelopes are attained. |
| RankStability.FrontierMeansOvertaking | python/decision_engine/bounds.py:366-372 | A competitor is ahead by the envelope keys exactly when its best case overtakes the worst case of the selected plan, and whenever any pair of choices does. |
| RankStability.PreferenceIsRefusedExactly | python/decision_engine/bounds.py:101-139 | Aggregating preferences fails exactly for an empty or repeated criterion; the range check on the score never fails. |
| RankStability.ScoreIsMonotone | python/decision_engine/bounds.py:112-139 | The weighted score grows with every satisfaction. |
| RankStability.CoverageRatioIsMonotone | python/decision_engine/bounds.py:165-180 | The weighted coverage grows with every covered criterion. |
| RankStability.OneKeyOrder | python/decision_engine/bounds.py:306-345 | Of two different keys exactly one precedes the other, and no key precedes itself. |
| RankStability.PrecedesTransitive | python/decision_engine/bounds.py:306-345 | The comparison of keys is transitive. |
| RankPriorities.AssessedByPriorities | python/decision_engine/bounds.py:355-373 | The frontier is exactly the competitors that at their best lead the selected plan at its worst, and the plan is STABLE exactly when there is none; to lead is to be better in one dimension and the same in every earlier one, whatever the later ones are, in the order status, score, risk, cost, coverage, age, actions, identifier. |
| RankPriorities.SettledIsStable | python/decision_engine/bounds.py:355-373 | Against competitors that are all behind for certain in some dimension, and tie for certain in the earlier ones, the plan is STABLE whatever the later dimensions are. |
| RankPriorities.RiskOutweighsCost | python/decision_engine/bounds.py:306-345 | A plan that ties in status and score and whose upper risk is below the lower risk of every competitor is STABLE at any cost. |
| RankPriorities.RankingFollowsPriorities | python/decision_engine/bounds.py:306-317 | The authoritative order compares, in this order, status, conservative score, base risk, base cost, conservative coverage, upper age, actions and identifier, each in its own direction. |
| RankPriorities.ScenariosFollowPriorities | python/decision_engine/bounds.py:306-345 | For any choice of the uncertain inputs, one plan precedes another exactly when it leads by its score, highest risk, cost, coverage and oldest evidence, in this order. |
| RankPriorities.KeysFollowPriorities | python/decision_engine/bounds.py:306-345 | Comparing two keys is comparing the plans they measure dimension by dimension. |
| RankPriorities.ScoreOfConstant | python/decision_engine/bounds.py:112-139 | A plan that satisfies every criterion alike has that satisfaction in percent as its score. |
| RankPriorities.ScoreIsLinear | python/decision_engine/bounds.py:112-139 | Each criterion moves the score by its share of the total weight. |
| RankPriorities.CoverageOfAll | python/decision_engine/bounds.py:165-180 | Nothing covered is zero and everything covered is one, also with nothing to cover. |
| RankPriorities.CoverageIsLinear | python/decision_engine/bounds.py:165-180 | Each covered criterion adds its share of the total weight to the coverage. |
| ComponentClosure.Closure | python/decision_engine/graph_v1.py:977-1003 | Terminates and lists every product the root reaches through uniquely resolved dependencies exactly once, the root last; reports a cycle exactly when one is reachable, missing and ambiguous components exactly when a listed record has one; without a cycle every dependency precedes its dependents. |
| ComponentClosure.Walk.Visit | python/decision_engine/graph_v1.py:983-999 | The recursive visit below a stack: keeps the walk invariant, restores the stack and finishes its record, with the unvisited products as termination measure. |
| ComponentClosure.IndexByProduct | python/decision_engine/graph_v1.py:973-975 | The index holds exactly the representatives of every product in their order. |
| ComponentClosure.FinishedOrder | python/decision_engine/graph_v1.py:977-1003 | At the end of a walk the cycle issue is there exactly when the root reaches a cycle, and without it dependencies come first. |
| DirectedGraphs.OrderedNodesAreOnNoCycle | python/decision_engine/graph_v1.py:983-999 | A node list with successors first passes through no directed cycle. |
| DirectedGraphs.ReturningPathClosesCycle | python/decision_engine/graph_v1.py:984-986 | Meeting a node of the stack again closes a directed cycle reachable from the bottom of the stack. |
| DirectedGraphs.ReachableStaysInside | python/decision_engine/graph_v1.py:983-999 | A set closed under successors contains everything its members reach. |
| StackGraphs.HasNoHardCycle | python/stackfile/models.py:269-292 | The check accepts exactly the graphs whose hard REQUIRES and REQUIRES_CAPABILITY edges have no directed cycle. |
| StackGraphs.CycleSearch.Visit | python/stackfile/models.py:280-289 | The recursive visit: on success the node is finished after all its successors, on failure the graph has a cycle; the nodes off the stack decrease. |
| StackGraphs.BuildHardGraph | python/stackfile/models.py:272-276 | The adjacency lists hold exactly the hard dependencies of every node, in edge order. |
| StackGraphs.ValidateGraph | python/stackfile/models.py:239-266 | No error exactly when identifiers, aliases and edge identifiers are unique, no edge dangles, only active instances fulfil and hard dependencies are acyclic; otherwise the first violation met. |
| StackPatches.ValidatePatch | python/stackfile/patches.py:181-314 | The loops over both dictionaries give the verdict whose exact meaning, entry by entry, is ValidExactly, RefusedPatchExactly, BrokenGraphExactly and UnboundExactly. |
| StackPatches.PerformAll | python/stackfile/patches.py:193-297 | The loop over the operations leaves the dictionaries and issues of performing them one after the other, skipping refused ones; LoopExactly and IssuesExactly say which these are. |
| StackPatches.Perform | python/stackfile/patches.py:194-297 | One operation: refused with its code, exactly as RefusedExactly says, or performed on the two dictionaries, exactly as TurnExactly says. |
| StackChanges.RefusedExactly | python/stackfile/patches.py:194-297 | Each code refuses an operation exactly when the dictionaries call for it: a taken identifier or alias, a missing endpoint, a node that is no product instance, another state than the named one, a transition that is not allowed or not validated, nothing to remove, an instance, or a node with edges. |
| StackChanges.TurnExactly | python/stackfile/patches.py:194-297 | One turn of the loop: a refused operation changes nothing; an accepted one puts exactly the given node or edge under its identifier, changes the state of that one node, or removes exactly that identifier, and every other entry of both dictionaries stays. |
| StackChanges.LoopExactly | python/stackfile/patches.py:193-297 | The loop goes through exactly one sequence of dictionaries, turn by turn. |
| StackChanges.IssuesExactly | python/stackfile/patches.py:193-299 | The issues are those of the refused operations, each once, in their order, under the code that refuses it at its turn. |
| StackChanges.LifecycleExactly | python/stackfile/patches.py:155-178 | The allowed lifecycle transitions, one by one. |
| StackChanges.CyclicExactly | python/stackfile/models.py:269-292 | The hard dependencies are cyclic exactly when some of the hard REQUIRES and REQUIRES_CAPABILITY edges follow one another back to where they start. |
| StackChanges.ValidExactly | python/stackfile/patches.py:181-314 | On a lock that meets the invariant a patch is valid with a result exactly when it is bound to the lock, every operation is accepted at its turn, and the result, the next version holding entry by entry what the operations leave in order of the identifiers, lets only active instances fulfil and closes no cycle of hard edges. |
| StackChanges.RefusedPatchExactly | python/stackfile/patches.py:193-299 | When operations of a bound patch are refused there is no result and the issues are exactly theirs. |
| StackChanges.BrokenGraphExactly | python/stackfile/patches.py:299-313 | When nothing is refused, the only issue is GRAPH_INVALID, for a fulfilment by an instance that is not active, or else for a cycle of hard edges. |
| StackChanges.UnboundExactly | python/stackfile/patches.py:183-189 | A patch of another organization, or of another version or content, has exactly these issues and no result. |
| StackHistories.ValidPatchKeepsGraphOk | python/stackfile/patches.py:299-314 | A patch is valid exactly when it has no issue; then it bound the base, and the result is the next version of the same organization and satisfies the whole graph invariant. |
| StackHistories.PatchIsValidExactly | python/stackfile/patches.py:181-314 | On a lock that meets the graph invariant a patch is valid exactly when it is bound to that lock and its organization, no operation is refused at its turn, and the outcome fulfils only through active instances and has no hard cycle; no other rule of the graph can fail. What the operations leave is ValidExactly. |
| StackHistories.LoopKeepsWorkingOk | python/stackfile/patches.py:193-297 | At every point of the operation loop identifiers and aliases stay unique and no edge dangles. |
| StackHistories.GraphInvalidExactly | python/stackfile/patches.py:301-313 | GRAPH_INVALID arises only from a fulfilment by an instance that is not active, or from a hard cycle; which of the two is determined. |
| StackHistories.ClosingKeepsEverything | python/stackfile/patches.py:191-192 | Building the snapshot from the dictionaries and opening it again gives back the dictionaries. |
| StackHistories.EveryLockIsValid | python/stackfile/patches.py:348-351 | Over any run of patches every lock satisfies the graph invariant and versions never fall. |
| StackHistories.InstancesFollowTheirLifecycle | python/stackfile/patches.py:155-178 | Over any run no product instance present is deleted, its state only follows allowed transitions, and CANCELLED is final. |
| StackHistories.NewlyActiveIsValidated | python/stackfile/patches.py:21-29 | An instance that becomes ACTIVE at a step of a run has a deployment-validated transition to ACTIVE in the patch applied at that step. |
| StackHistories.SecondPatchIsStale | python/stackfile/patches.py:183-189 | After one patch was applied, any patch bound to the same base version is rejected as stale, whatever is applied in between. |
| StackHistories.ApprovalFollowsValidation | python/stackfile/patches.py:325-345 | A patch moved from its draft by transitions that succeed changes in nothing but its status, reaches APPROVED only through VALIDATED and AWAITING_APPROVAL, and APPLIED only through APPROVED and APPLYING. |
| EvidenceSpans.ParseSpans | python/domain/evidence_pipeline.py:117-152 | For every positive limit: the spans are numbered from one, ordered and disjoint, trimmed, no longer than the limit, equal to their slice of the text, never cross a paragraph, contain no space when they end inside a word, and cover every character that is not whitespace; they are exactly the trimmed pieces, not blank, between the cuts of the paragraphs, each cut being the end of the paragraph when it is within the limit, otherwise the last space strictly inside the limit, otherwise the limit; it fails with no spans exactly for blank text, and for a too long span only with a limit above 2000 and such a piece. |
| EvidenceSpans.ChunkParagraph | python/domain/evidence_pipeline.py:120-152 | The inner loop terminates and appends exactly the trimmed pieces, not blank, between the cuts of one paragraph, covering it. |
| EvidenceSpans.ShortParagraphIsOnePiece | python/domain/evidence_pipeline.py:120-152 | A paragraph no longer than the limit gives exactly one span, the whole paragraph. |
| EvidenceSpans.CutsAreUnique | python/domain/evidence_pipeline.py:120-130 | The cuts of a paragraph are determined: the next one is the end within the limit, or the greatest position of a space strictly inside the limit, or the limit. |
| EvidenceSpans.NextParagraph | python/domain/evidence_pipeline.py:117-119 | The scan for paragraphs: from the first character that is not whitespace to the least later one followed by a blank line or the end. |
| EvidenceSpans.StopsAtBlankLineExactly | python/domain/evidence_pipeline.py:117-118 | A paragraph ends at the next blank line exactly when the character before that line is not whitespace and, if it is the only character of the paragraph, nothing but whitespace follows. |
| EvidenceSpans.StopsAtLastSolid | python/domain/evidence_pipeline.py:117-118 | Without a later blank line a paragraph ends at the last character of the text that is not whitespace. |
| EvidenceSpans.LinesStayTogether | python/domain/evidence_pipeline.py:117-118 | While something solid stands between every two line feeds, a paragraph runs to the last character of the text that is not whitespace. |
| EvidenceSpans.EmptyLineEnds | python/domain/evidence_pipeline.py:117-118 | A paragraph never runs over a solid character, other than its first, that is followed by a line feed, whitespace and another line feed. |
| EvidenceSpans.BlankLinesAreOverrun | python/domain/evidence_pipeline.py:117-118 | Two concrete texts whose first paragraph runs on over a blank line: one of a single character, one with a space at the end of its line. |
| EvidenceSpans.StrippedIsFound | python/domain/evidence_pipeline.py:126-128 | Looking up the stripped chunk in its window finds it at the first character of the window that is not whitespace. |
| EvidenceSpans.WindowGivesSpan | python/domain/evidence_pipeline.py:121-148 | The span of a window is well formed and leaves only whitespace of the window outside. |
| EvidenceSpans.ExactlyOneSpan | python/domain/evidence_pipeline.py:117-152 | Every character that is not whitespace lies in exactly one span. |
| Counterfactuals.Search | python/decision_engine/graph_v1.py:1606-1646 | For any winner function: fails exactly for a limit outside 1..3; otherwise returns a removal of least cardinality, first in order, with exactly the other winner-changing removals of that size in order, or reports none exactly when no removal within the limit changes the winner. |
| Counterfactuals.WinnersOfSize | python/decision_engine/graph_v1.py:1612-1626 | One cardinality: exactly the winner-changing combinations, in ascending order. |
| Counterfactuals.CombinationsExactly | python/decision_engine/graph_v1.py:1611-1613 | The combinations of a size are exactly the ascending choices of that many identifiers. |
| Counterfactuals.CombinationsAscend | python/decision_engine/graph_v1.py:1611-1613 | The combinations come in strictly ascending order, so none is repeated. |
| Counterfactuals.NoneFoundExactly | python/decision_engine/graph_v1.py:1606-1646 | In terms of sets: nothing is found exactly when no set of one to `limit` private facts changes the winner. |
| Counterfactuals.MinimalAmongSets | python/decision_engine/graph_v1.py:1606-1646 | In terms of sets: no smaller set of private facts changes the winner, and any of the same size is the answer or a later alternative. |
| Counterfactuals.SearchIdsAscend | python/decision_engine/graph_v1.py:1605-1611 | The searched identifiers are exactly the private facts not removed yet, in strictly ascending order. |
| EvidenceAssessments.AcceptableExactly | python/decision_engine/graph_v1_recall.py:214-281 | Evidence is ACCEPTABLE exactly when its source class, method and scope are allowed, it is reconstructable, neither disputed nor revoked, and its oldest possible observation is within the freshness limit. |
| EvidenceAssessments.PairExactly | python/decision_engine/graph_v1_recall.py:306-330 | A pair fails exactly without a policy for its field or with unordered times; without a record it is UNKNOWN, and otherwise in the state of its record under that policy. |
| EvidenceAssessments.MaterialExactly | python/decision_engine/graph_v1_recall.py:290-304 | A pair of evidence and field is material exactly when it comes from a fact of a representative, a fact of a current action, or an outcome value of a known criterion. |
| EvidenceAssessments.StateExactly | python/decision_engine/graph_v1_recall.py:214-281 | Each state exactly: unordered times fail; otherwise disputed or revoked evidence is in CONFLICT, of the rest what is too old is STALE, what meets its policy is ACCEPTABLE and what does not is UNKNOWN. |
| EvidenceAssessments.FreshExactly | python/decision_engine/graph_v1_recall.py:243-252 | The exact age ratio is at most one exactly when the age is at most the limit. |
| EvidenceAssessments.CollectPairs | python/decision_engine/graph_v1_recall.py:290-304 | The loops over the facts of the representatives and of the current actions and over the outcome values gather exactly the material pairs; an outcome value of an unknown criterion is skipped. |
| EvidenceAssessments.AssessEvidence | python/decision_engine/graph_v1_recall.py:284-330 | Every material pair of evidence and field is assessed exactly once, in order; it fails exactly when some pair has no policy or unordered times, with the error of the first such pair. |
| EligibilityGates.EvaluateGate | python/decision_engine/graph_v1.py:321-457 | The loop over the predicates of a gate, with seller evidence first and the mode last, computes the specified verdict. |
| EligibilityGates.ObserveComponents | python/decision_engine/graph_v1.py:384-425 | The field states of all components decide a predicate: conflict, then stale, then unknown, then one truth per component. |
| EligibilityGates.EvaluateGates | python/decision_engine/graph_v1.py:460-483 | The built-in gates followed by every applicable gate in order of its identifier. |
| GateVerdicts.PlanResultsExactly | python/decision_engine/graph_v1.py:241-304 | The gates of a plan fail exactly when one that is for its facts and its action, and published by its seller, does; otherwise the results are exactly those of these gates, the availability, one for each dependency issue and one for an authority not sealed by the seller. |
| GateVerdicts.GatesAscend | python/decision_engine/graph_v1.py:460-483 | The gates are evaluated in order of their identifiers. |
| GateVerdicts.GateExactly | python/decision_engine/graph_v1.py:321-457 | A gate fails exactly when a predicate does, with the first such error; otherwise a conflict wins, a required gate is TRUE exactly when nothing seen is FALSE or unknown and FALSE exactly when something is FALSE, a blocking gate the other way round, and its reasons are those seen and, when it is FALSE, its own. |
| GateVerdicts.LookExactly | python/decision_engine/graph_v1.py:385-423 | What a predicate over components contributes, by the facts and their evidence: the worst state of its field over the components, or, when it is proven in all of them, for each whether every value satisfies it. |
| GateVerdicts.SellerLookExactly | python/decision_engine/graph_v1.py:365-384 | What a predicate of a seller gate contributes: the value of the buyer decides it, and without one it is unknown under SELLER_CONDITION_UNRESOLVED. |
| GateVerdicts.SellerEvidenceExactly | python/decision_engine/graph_v1.py:331-364 | The claims of a seller gate: a missing, unproven or stale one is unknown and a disputed one in conflict, each with its reason. |
| GateVerdicts.FieldStateExactly | python/decision_engine/graph_v1.py:197-238 | A field of a component is in conflict exactly with disputed evidence or two values, and otherwise as good as its best evidence. |
| GateVerdicts.NumbersExactly | python/decision_engine/graph_v1.py:173-190 | The number a value stands for in an order: a number itself, or a text that reads as one. |
| GateVerdicts.MatchesExactly | python/decision_engine/graph_v1.py:153-188 | A predicate raises exactly for an unknown operator or an order of what is no number, and otherwise holds exactly when the value is as asked, for the order operators by the orders they accept. |
| EligibilityTheorems.EligibleExactly | python/decision_engine/graph_v1.py:486-491 | A plan is ELIGIBLE exactly when no gate has a reason, and then the truth of every gate is TRUE. |
| EligibilityTheorems.EligibleIsSound | python/decision_engine/graph_v1.py:460-491 | An ELIGIBLE plan is available, sealed and free of dependency issues; every applicable REQUIRE_MATCH gate over components holds in every component on one value backed by acceptable and undisputed evidence, and every such BLOCK_ON_MATCH gate is refuted by such a value. |
| EligibilityTheorems.EligibleRestsOnSoundEvidence | python/decision_engine/graph_v1_recall.py:214-281 | Down to the records: every field of every component required by an ELIGIBLE plan is supported by a record that meets its policy and is fresh. |
| EligibilityTheorems.MoreGatesNeverImprove | python/decision_engine/graph_v1.py:486-491 | Adding gates never improves the status of a plan. |
| EligibilityTheorems.TrueWithoutReason | python/decision_engine/graph_v1.py:426-457 | A TRUE gate keeps a reason exactly when it blocks on a match, a predicate is false, another is unknown and none is in conflict; it is TRUE without a reason exactly when every predicate is decided and the mode is met. |
| EligibilityTheorems.TrueGateCanStillBlock | python/decision_engine/graph_v1.py:438-449 | A concrete BLOCK_ON_MATCH gate whose truth is TRUE and that still has a reason, so TRUE gates alone do not make a plan eligible. |
| EligibilityTheorems.RequireMatchIsSound | python/decision_engine/graph_v1.py:321-457 | A REQUIRE_MATCH gate without a reason is satisfied in every component by its one backed value. |
| EligibilityTheorems.BlockOnMatchIsSound | python/decision_engine/graph_v1.py:321-457 | A BLOCK_ON_MATCH gate without a reason is decided everywhere and refuted somewhere. |
| EligibilityTheorems.AcceptableIsBacked | python/decision_engine/graph_v1.py:197-238 | An ACCEPTABLE field has exactly one value, acceptable evidence and no disputed evidence. |
| EligibilityTheorems.PrimaryStatusIsWorst | python/decision_engine/graph_v1.py:486-491 | The primary status is the least precedence among all reasons, and ELIGIBLE without a reason. |
| OfferLedger.OfferRepository.StoreOffer | python/persistence/bilateral_repository.py:329-375 | Stores version one or a valid counteroffer, supersedes the latest version, and refuses after an approval; a stored offer is answered without a change. |
| OfferLedger.OfferRepository.ApproveOffer | python/persistence/bilateral_repository.py:377-417 | Approves exactly the latest offer while both are in force; a stored approval is answered without a change. |
| OfferLedger.ValidateCounteroffer | python/domain/exchange_contracts.py:398-412 | Accepts exactly the next version that binds the current hash, swaps the parties and names exactly the terms that differ. |
| OfferLedger.EveryLedgerIsOk | python/persistence/bilateral_repository.py:329-417 | In every ledger reached from the empty one the versions of a case are 1..n, each counters its predecessor, an offer is approved exactly when it is the latest of a case that has an approval and superseded exactly when it is not the latest, and the approval binds the latest offer. |
| OfferLedger.RunKeepsOk | python/persistence/bilateral_repository.py:329-417 | No run of stored offers and approvals leaves the ledger invariant. |
| OfferLedger.ProposerByParity | python/domain/exchange_contracts.py:398-412 | The proposer is fixed by the parity of the version. |
| OfferLedger.OnlyLatestIsApproved | python/persistence/bilateral_repository.py:361-373 | At most one offer of a case is approved and it is the latest; the superseded ones are exactly the others. |
| OfferLedger.ApprovalFreezesLedger | python/persistence/bilateral_repository.py:356-361 | Once the latest offer is approved, no run changes the offers of the case. |
| OfferLedger.HeadHashFixesHistory | python/domain/exchange_contracts.py:283-286 | Two ledgers whose latest offers have the same hash have the same history of terms. |
| OfferLedger.StoringIsIdempotent | python/persistence/bilateral_repository.py:329-337 | Storing a stored offer again changes nothing and answers the same. |
| OfferLedger.ApprovalBindsLatest | python/domain/exchange_contracts.py:314-328 | A committed approval binds the latest offer, was given while approval and offer were in force, and is answered again without a change at any later time. |
| LedgerOutcomes.StoringExactly | python/persistence/bilateral_repository.py:329-375 | In every ledger an offer is stored exactly when it is there already, and then nothing changes, or when it opens its case or counters the latest version, which is not approved, and no row has its identifier and version; then that row is superseded, the new one stands last and nothing else changes. Each refusal is told apart. |
| LedgerOutcomes.ApprovingExactly | python/persistence/bilateral_repository.py:377-417 | In every ledger an approval commits exactly when it is there already, or when it names the latest version of its case by hash, approval and offer are in force and its identifier is new; then that row is approved and nothing else changes. Each refusal is told apart. |
| LedgerOutcomes.TermsExactly | python/domain/exchange_contracts.py:236-286 | An offer is admitted exactly between buyer and seller, with a predecessor and a named change exactly from its second version on, lines of different items, and the total those lines make. |
| LedgerOutcomes.CountersExactly | python/domain/exchange_contracts.py:398-412 | A counteroffer is the next version of the same offer, bound to the hash of the current one, with the parties exchanged, and names exactly the terms that differ. |
| ExchangeCoordinator.HistoriesLeadToPhases | python/domain/bilateral_exchange.py:108-118 | In every run the version counts the accepted commands, and they form one of the only histories of the phase: a handoff is approved only after a requirement, evidence, an offer, and an acceptance by the party that did not make the standing offer. |
| ExchangeCoordinator.AcceptedVersionsDiffer | python/domain/bilateral_exchange.py:169-173 | Accepted commands expect consecutive versions, so two commands for one version are never both accepted. |
| ExchangeCoordinator.CaseFileFollowsHistory | python/domain/bilateral_exchange.py:187-200 | In every run the requirement, the evidence and the approval are the payloads of the last accepted release, publication and approval, the offer that of the last accepted proposal or counteroffer, and nothing is there before. |
| ExchangeCoordinator.CommandsAreAcceptedExactly | python/domain/bilateral_exchange.py:169-185 | In every run a command is refused exactly for another case, for another version than the next, or, unless it rejects or expires, when the history of the case with it leads to no open phase. |
| DecisionRules.DecidedVerdictsStay | python/decision_engine/evaluation.py:34-132 | For rules that look at what cannot change, extending both contexts with new fields keeps an ELIGIBLE, ELIGIBLE_WITH_EXCEPTION, SIRA_INELIGIBLE or SEIL_PASS verdict, with its code and the rule that decided it. |
| DecisionRules.DecidedRulesStay | python/domain/rules.py:163-179 | A rule over such conditions that is TRUE or FALSE keeps its value in every extension of the context. |
| DecisionRules.DecidedConditionStaysExactly | python/domain/rules.py:88-145 | For every operator, a decided condition keeps its value in every extension of the context exactly when it looks at what cannot change: for existence, a field that is there or is blocked; otherwise a field that is not a mapping, or a mapping that cannot turn it. |
| DecisionRules.ExistenceIsFixedExactly | python/domain/rules.py:89-92 | A condition on existence keeps its value in every extension of the context exactly when its field is there, or when the path to it runs into a value that is not a mapping. |
| DecisionRules.FieldIsFixedExactly | python/domain/rules.py:102-116 | A condition about a field that is there keeps its value in every extension exactly when the field is not a mapping, or a mapping that can neither grow into a value an equality or a list compares it with nor gain the key it is asked to contain. |
| DecisionRules.LeavesAreFixedExactly | python/domain/rules.py:18-31 | A resolved field keeps its value in every extension exactly when it is not a mapping. |
| DecisionRules.ExistenceCanTurn | python/domain/rules.py:90-92 | A condition on existence can turn from TRUE to FALSE when its field is learned. |
| DecisionRules.PythonReadersExist | python/domain/rules.py:33-64 | There are readers with the equality of Python, membership of keys, and no decimals or dates for mappings, as the theorems on mappings take them. |
| DecisionRules.MappingsCanTurn | python/domain/rules.py:104-114 | An equality with a mapping, a membership in a list and a membership of a key can turn when the mapping gains a field, although nothing is removed. |
| DecisionRules.EvaluateCandidate | python/decision_engine/evaluation.py:34-132 | The ordered gates with their early returns compute the verdict the candidate deserves: VerdictExactly. |
| DecisionRules.PassBuyerRules | python/decision_engine/evaluation.py:56-81 | The constraints of the buyer, in order, stop at the first that is unresolved or failed without an approved exception, and note an exception that was used. |
| DecisionRules.PassSellerRules | python/decision_engine/evaluation.py:84-104 | The published rules of the seller, read from the sanitized context alone, stop at the first that is not FALSE. |
| DecisionRules.ResolveField | python/domain/rules.py:18-31 | The walk along a dotted path finds the value there, or nothing. |
| DecisionVerdicts.VerdictExactly | python/decision_engine/evaluation.py:34-132 | For every verdict exactly when it is given: the first of availability, evidence, a constraint of the buyer that is neither TRUE nor excused, a rule of the seller that is not FALSE, and the dependency plan that stops the candidate decides, with its code, its rule and its open fields; otherwise it is eligible, with an exception exactly when a constraint failed. |
| DecisionVerdicts.EligibleExactly | python/decision_engine/evaluation.py:34-132 | ELIGIBLE exactly when the candidate is available with sound evidence and a satisfied plan, every constraint is TRUE and every rule of the seller FALSE. |
| DecisionVerdicts.RuleExactly | python/domain/rules.py:163-179 | An ALL rule is TRUE exactly when every condition is and FALSE exactly when some condition is, an ANY rule the other way round, and either is UNRESOLVED otherwise; its open fields are those of its undecided conditions. |
| DecisionVerdicts.ConditionExactly | python/domain/rules.py:88-145 | A condition is TRUE or FALSE exactly when its path leads to a value that is not null and can be compared, by what its operator asks of it: sameness, membership, containment, or one of the orders the operator accepts between numbers or dates; otherwise it is UNRESOLVED and names its field. |
| DecisionVerdicts.ExistenceExactly | python/domain/rules.py:89-92 | A condition on existence is always decided: whether the path leads to a value that is not null, as asked. |
| DecisionVerdicts.PyEqualExactly | python/domain/rules.py:60-64 | Equality as Python decides it on facts: numbers and booleans by their number, other plain values by being the same, lists and mappings part by part. |
| DecisionVerdicts.ResolvesExactly | python/domain/rules.py:18-31 | A path resolves to a value exactly when it leads there from mapping to mapping. |
| Recall.RecallAndDeduplicate | python/decision_engine/graph_v1_recall.py:123-205 | Fails exactly when some alias chain it follows returns to itself, or the canonical identity of some group, or the offer of its anchor, is not one the constructor of a record admits; otherwise gives the groups, representatives, merges and exclusions of the specification. |
| Recall.AliasTargetIsRefused | python/decision_engine/graph_v1_models.py:268-278 | A concrete input without any cycle whose alias turns the seller of the only candidate into text that is no identifier. |
| Recall.GroupCandidates | python/decision_engine/graph_v1_recall.py:133-141 | The loop over the sorted candidates gives every exclusion with its reason and every identity its records. |
| Recall.Deduplicate | python/decision_engine/graph_v1_recall.py:143-197 | One representative for every identity and one merge for every later member of a group, in whatever order the groups are taken; fails exactly when some representative is not admitted. |
| Recall.MergeFacts | python/decision_engine/graph_v1_recall.py:66-85 | The dictionary of a group holds exactly the union of the evidence for every field and value. |
| Recall.CanonicalText | python/decision_engine/graph_v1_recall.py:33-41 | The alias walk terminates and gives the end of the chain, or raises for a cycle. |
| Recall.CanonicalIsIdempotent | python/decision_engine/graph_v1_recall.py:33-41 | Canonical text is its own canonical text. |
| RecallTheorems.EveryCandidateHasOnePlace | python/decision_engine/graph_v1_recall.py:123-205 | Every candidate is in exactly one exclusion or exactly one group, no identifier is excluded twice, and nothing else is in either. |
| RecallTheorems.MergesCountDuplicates | python/decision_engine/graph_v1_recall.py:190-197 | The merges number the included records minus the groups. |
| RecallTheorems.FactsSurviveOnce | python/decision_engine/graph_v1_recall.py:66-85 | Every field and value of a group survives exactly once with exactly the union of its evidence; different values stay apart. |
| RecallTheorems.OrderDoesNotMatter | python/decision_engine/graph_v1_recall.py:133-141 | Reordering the candidates neither causes nor removes a failure, and gives the same result. |
| RecallTheorems.RecallIsIdempotent | python/decision_engine/graph_v1_recall.py:123-205 | Recalling the representatives never fails, and gives the same representatives with no merge and no exclusion. |
| RecallTheorems.RepresentativeKeepsIdentity | python/decision_engine/graph_v1_recall.py:162-189 | A representative has the identity of its group and passes the recall policy every member passed. |
| RecallMeanings.RepresentativesExactly | python/decision_engine/graph_v1_recall.py:143-189 | Every representative stands for all current candidates of one identity that the policy asks for: with the pack and the canonical offer of the one of highest pack version and, among these, smallest identifier, the least trusted authority, available only if all are, and the union of their gates, aliases, categories, jobs and requirements. |
| RecallMeanings.PlacedExactly | python/decision_engine/graph_v1_recall.py:88-141 | Each reason excludes exactly the records it names, in its order; a record is in the group of an identity exactly when it is current, asked for, in the region and of that identity. |
| RecallMeanings.MergesExactly | python/decision_engine/graph_v1_recall.py:190-197 | The merges are exactly those of the members after the first of a group, and tell whether offer and edition are written otherwise than there. |
| RecallMeanings.CanonicalExactly | python/decision_engine/graph_v1_recall.py:33-41 | Text has a canonical form exactly when the aliases lead from its normal form to an end, which is that form. |
| RecallMeanings.SomeIdentifiers | python/domain/models.py:19-24 | Which texts are identifiers, at the limits of the pattern: the first and the last letters and digits, the four marks but not first, 128 characters but not 129. |
| RecallMeanings.AnchorExactly | python/decision_engine/graph_v1_recall.py:162-176 | The anchor of a group has its highest pack version and, among those, the smallest identifier. |
| BundleCosts.ComposedCostIsValidExactly | python/decision_engine/graph_v1.py:909-953 | A bundle of several components that each pass the cost check, in one currency and horizon: the bounds are the component sums in order, the fee count is the number of paying components, no issue is raised, and the combined cost passes the check exactly unless one component has line items and another without them is not free. |
| BundleCosts.PartlyItemizedBundleIsRefused | python/decision_engine/graph_v1.py:750-773 | Two concrete valid costs, one with a line item and one without, whose combination fails the check of the line items. |
| BundleCosts.ItemizedBundleIsValid | python/decision_engine/graph_v1.py:750-773 | With line items in every component the combined cost passes and matches the sum of all line items. |
| BundleCosts.FeesCountPayments | python/decision_engine/graph_v1.py:763-772 | Among valid components the transaction fees of the bundle number its paying components. |
| BundleCosts.ItemsAccountForTotals | python/decision_engine/graph_v1.py:753-762 | The line items of a bundle account for its totals up to the components without line items. |
| CostMeanings.CombinedExactly | python/decision_engine/graph_v1.py:909-953 | A bundle of one component costs what its offer does; any other has the sums of the offers, missing where an offer or a bound is, in the first currency named, all line items in order, one payment for each paying offer, and the issue of a missing offer or of several horizons or currencies exactly when there is one. |
| CostMeanings.CheckedExactly | python/decision_engine/graph_v1.py:750-773 | Each verdict of the cost check by the first thing wrong: a missing bound, bounds out of order or in several currencies, line items that do not add up to every bound, or fees that do not count the payments. |
| Ordering.SortedIsUnique | python/decision_engine/bounds.py:360-372 | Two sorted lists of the same identifiers are equal, so sorting forgets the order it was given. |
| Ordering.SortedIsSorted | python/decision_engine/bounds.py:360-372 | Sorting identifiers gives them in order and loses none. |

## Left out

- Kernel: row-level security, column lengths, and foreign keys other than the one of a checkpoint on its attempt and generation; the steps create rows for existing ones and never delete.
- Kernel: the partial index on current decisions and the uniqueness of the decision of an attempt, of an input within its mission and of an engagement within its decision are not checks of the steps: no run ever meets them (OneCurrentDecisionPerMission, ApplyKeepsInv, InputsAreDecidedOnce, OneEngagementPerDecision).
- Kernel: one buyer organization; other tenants appear only as sellers.
- Kernel: payloads, trace identifiers, actor identifiers and the text of stale reasons.
- Kernel: the citations of a seller response, which RESPONDED does not depend on in any theorem.
- Kernel: consumer receipts, idempotency claims and ETag checks of the service, and the mission state written by approval, rejection and introduction, which a separate step moves freely.
- Kernel: identifiers are numbers of one counter and a content hash is the hashed payload; SHA-256, canonical JSON and UUIDs are not part of this model.
- Kernel: retries and serialization (python/persistence/database.py:160-190) are one atomic step per call.
- RankStability.StableExactly: the currency of a cost is not modelled, because the ranking refuses plans in several currencies before it compares them.
- Plan identifiers are taken as distinct: the identifier is computed from the action and the component identifiers alone, so two editions of one product would share it.
- Rounding for display of exact ratios, and the resolution frontier of pending plans.
- EligibilityGates.EvaluateGate: the order of the reasons of one gate and their text; reasons form a set.
- Gates: age bounds and coverage, permitted resolutions, and the reason chosen among several with the same status.
- EvidenceAssessments.AssessEvidence: the reasons and age bounds of an assessment; records, policies and criteria are maps, because the input refuses repeated identifiers (python/decision_engine/graph_v1_models.py:758-771).
- EvidenceSpans.ParseSpans: limits below one, which slice the text from its end or yield nothing.
- Evidence: decoding, content types, embeddings, span hashes and instruction markers, claim validation and retrieval.
- Counterfactuals: the evaluation itself is any function from removed facts to the selected plan; hashes and changed gates of the record are not modelled.
- Recall: the order of facts inside a representative, where a set stands for the sorted tuple, and the spelling of canonical identifiers, which are only required to differ.
- Stackfile: attribute values, the compact first-build lock and the text of issues.
- OfferLedger: handoffs, which do not look at approvals, so no handoff implies an approval; release manifests and envelopes.
- OfferLedger.EveryLedgerIsOk: offers enter pending, as every caller in the repository stores them.
- ExchangeCoordinator: projections and private-field checks; approved and terminal phases are not final, because REJECT and EXPIRE are accepted from every phase.
- DecisionRules: the readers of decimals and dates, equality and membership are parameters; where a theorem speaks of mappings it takes Python's equality and key membership, and facts are JSON values, so tuples and sets are lists.
- Recall.RecallAndDeduplicate: when an alias cycle and an identity that is not admitted are both there, the model reports the cycle; the code may meet the identity first.
- BundleCosts.ComposedCostIsValidExactly: a bundle of several horizons or currencies takes an arbitrary one in the code; the model takes the first, and the issue is raised in both.
- Mission and cognitive journals, publication, catalogue import, the web application and provider adapters.
