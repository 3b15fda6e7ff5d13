# SyntrixDR: a verified model of its cooperating lifecycles

SyntrixDR runs disaster-recovery exercises: Events with their Applications, the Tasks and Milestones of a
plan, the Blockers that hold Tasks up. Its rules live between these machines and across whole runs, on a
relational store used under READ COMMITTED with row locks and advisory locks. This project models that
core in Dafny and proves what the machines promise together.

Two styles of model stand side by side and share their row functions and predicates.

- Commands that update rows in place are classes whose methods follow the source's branches and loops:
  `DependencyService`, `Milestones`, `Blockers`, `DrEventStore`, `Idempotency`, `Lockout`, `Assignment`,
  `Policies`, `OwnerSlots`; the graph algorithms, the import accept and the Event tree are methods with loops.
- Concurrency is a state machine over statements: `GraphTransactions`, `MilestoneTransactions`,
  `BlockerTransactions`, `EventTransactions`, `IdempotencyTransactions`, `PolicyTransactions`. A transaction sees the committed
  rows under its own writes, a lock is held until the transaction ends, and the theorems hold for every
  interleaving of any number of transactions, rollbacks included. A flag switches one lock off to show, by
  a concrete run, what that lock is for.
  Each machine is also tied to the serial commands: a transaction that runs its statements with no other beside it
  leaves exactly what the serial command leaves (`AloneIsTheCommand` and its kin).

`Digraph` and `CycleCheck` hold the graph theory and the two search algorithms. `DrEvents` is the
specification of the Event and Application commands with its theorems over whole runs, and `DrEventStore`
the rows updated in place, proved equal to it. `OwnerOverlap` and `LockoutSkew` say what is left of two serial
guarantees when calls overlap, `BlockerWitness` holds one long run. `Prelude` and `TaskStates` are shared vocabulary.

What a command does is stated in its contract in plain terms: the row it leaves field by field, each refusal in its
turn. Where a specification function stands between a method and a theorem, a lemma says what that function means
without it (`DerivedIs`, `RecomputedProgresses`, `DecisionMoves`, `SplitIs`, `MostSpecificWins`, `CommandsMakeTheMoves`).

Conventions. Authorization, visibility, readiness results and policy switches that other components compute
come in as parameters, and so does the time: each command is given the clock readings it makes. Ids and
users are numbers, hashes and bodies opaque values. Versions are unbounded. A refused command is a value
(`Failed`), never a precondition.

Results that differ from what the repository's own texts suggest:

- The dependency check walks required contributions only. An optional contribution together with a gate
  can form a cycle (`OptionalContributionsMayCycle`); the exact condition is `FullGraphStaysAcyclicExactly`.
- A Milestone created while one of its Tasks is being changed stays current only because of the lock that
  the contribution's foreign key takes on the Task (`UnsharedCreationGoesStale`).
- A failback-required Application that is not yet FAILED_OVER when failback starts is never failed back
  and never COMPLETED, and its Event can close nevertheless (`FailbackTakesExactlyTheFailedOver`,
  `ClosedWithFailbackOutstanding`). A close leaves nothing outstanding, then and for ever, exactly when nothing
  is outstanding at it (`CloseLeavesNothingOutstandingExactly`). A child can still be created under a CLOSED
  Event, and only such a child can be unfinished (`UnfinishedChildCameLater`); that no child slips in while a close
  is deciding rests on the lock of the parent's foreign key (`ClosesOverEndedChildren`).
- Application commands read their Event without a lock, so one that read it before it ended can land after.
  That breaks the freeze exactly when the Event has ended (`LandingBreaksTheFreezeExactly`), at most once for
  each Application (`AtMostOneLandsAfterTheEnd`), and nothing else (`LandingKeepsTheRest`,
  `EventAndApplicationsStillAgree`).
- An approval stamps a clock reading made before its row lock, so an Application can end up validated before the
  network cut (`ValidatedBeforeTheCut`, with `MisorderedExactly`). That takes a caller who sends a version it has
  not read: approvals from callers who have read theirs are in order in every run (`ReadersValidateAfterTheCut`).
- Failed attempts read the clock before they wait for the credential's row lock. The number of wrong attempts
  checked is bounded when readings are out of order by less than the lock time
  (`FewWrongAttemptsOutOfOrder`, `FewWrongReadings`), and by nothing otherwise (`NoBoundOutOfOrder`).
- The module text of the escalation sweep says that assigning and starting a Blocker resolve its alert.
  Only leaving OPEN does, and only `assign` leaves OPEN.
- The import's silent skip of a self-dependency is never reached: the cycle check flags it first
  (`SelfPredecessorIsReviewed`).
- Nothing serialises two owner updates of one Application. What overlapping calls leave is computed for every
  slot; it is the later request, and has its Primaries, under exact conditions on the rows and the requests
  (`OverlapMeetsTheRequestExactly`, `OverlapKeepsPrimariesExactly`, with `OverlappingCallsMix` where they fail).
  The second audit row's "before" is what that call read, not what the first one wrote (`OverlapKeepsTheTrailExactly`).

## Model

| member | source | states |
|---|---|---|
| `Digraph.EdgeKeepsAcyclic` | apps/api/app/tasks_dependencies/dependency_service.py:145-148 | One more edge keeps an acyclic graph acyclic if and only if its successor does not already reach its predecessor: the fact every cycle check relies on |
| `Digraph.FreshSinkKeepsAcyclic` | apps/api/app/milestones/commands.py:127-138 | Edges into a brand-new node cannot close a cycle, which is why contributions are written without a check |
| `Digraph.PredecessorClosedHasCycle` | apps/api/app/tasks_dependencies/queries.py:286-304 | In a finite set of nodes that each have a predecessor in it, every node lies on or behind a cycle: why Kahn's leftover nodes mean a cycle |
| `CycleCheck.CyclePath` | apps/api/app/tasks_dependencies/queries.py:259-283 | The search answers a path exactly when the successor reaches the predecessor; the path is a real closed walk over live edges that begins with the proposed edge, no shorter one exists, and of the shortest ones it is the one with the smallest ids |
| `CycleCheck.TraceBack` | apps/api/app/tasks_dependencies/queries.py:272-278 | Following parents from a found node gives the first walk to it, of exactly its depth, from the root |
| `CycleCheck.HeadIsShortest` | apps/api/app/tasks_dependencies/queries.py:269-278 | No path from the root to the head of the queue is shorter than the depth at which it was discovered |
| `CycleCheck.FirstReached` | apps/api/app/tasks_dependencies/queries.py:279-282 | Because siblings are visited in id order, the first discovery of a node is by the walk that comes first, id by id, among all walks of that length to it |
| `CycleCheck.ExhaustedIsClosed` | apps/api/app/tasks_dependencies/queries.py:269-283 | When the queue is empty every path from the root has been discovered, so None is a proof of unreachability |
| `CycleCheck.HasCycle` | apps/api/app/tasks_dependencies/queries.py:286-304 | Kahn's algorithm returns true exactly when the edge list (with repetitions, self-loops and all) contains a directed cycle |
| `CycleCheck.LeftoverIsCyclic` | apps/api/app/tasks_dependencies/queries.py:304 | Each node left when the queue runs dry lies on a cycle or behind one, so there is a cycle if any is left |
| `CycleCheck.AllRemovedIsAcyclic` | apps/api/app/tasks_dependencies/queries.py:304 | If every node was removed the order of removal ranks the edges, so there is no cycle |
| `DependencyRows.LiveGraphEdges` | apps/api/app/tasks_dependencies/queries.py:227-256 | The list the algorithms get holds an edge exactly if an undeleted row of the Event draws it: a Task edge of either strength, a gate, or a required contribution, each from what comes first |
| `DependencyRows.FindCyclePath` | apps/api/app/tasks_dependencies/queries.py:307-314 | Over the stored rows: a shortest cycle through the proposed edge, of those the one with the smallest ids, exactly when the live graph leads from successor to predecessor |
| `DependencyRows.EventGraphHasCycle` | apps/api/app/tasks_dependencies/queries.py:317-320 | The readiness check fires exactly on a cyclic live graph |
| `DependencyRows.CheckedInsertKeepsAcyclic` | apps/api/app/tasks_dependencies/dependency_service.py:141-159 | A row inserted after its check passed leaves every Event's graph acyclic, not only its own |
| `DependencyRows.DeleteKeepsAcyclic` | apps/api/app/tasks_dependencies/dependency_service.py:200-205 | A soft delete leaves every Event's graph acyclic |
| `DependencyRows.FullGraphStaysAcyclicExactly` | apps/api/app/tasks_dependencies/queries.py:248-255 | With optional contributions counted, a new link keeps the graph acyclic if and only if its successor does not lead back over any live link: the exact condition, which the cycle search over required contributions alone does not test |
| `DependencyService.GraphSession.AddChecked` | apps/api/app/tasks_dependencies/dependency_service.py:141-159 | Under the graph lock: accepted exactly when the link is not there yet and would close no cycle; DEPENDENCY_EXISTS exactly for a live duplicate, DEPENDENCY_CYCLE always with a real shortest cycle; acyclicity is kept |
| `DependencyService.GraphSession.AddTaskDependency` | apps/api/app/tasks_dependencies/dependency_service.py:123-176 | Each error exactly in its turn (self, not found, cross-Event, authority, duplicate, cycle) and acceptance exactly otherwise; a refused request changes no row; DEPENDENCY_CYCLE comes with a real shortest cycle |
| `DependencyService.GraphSession.AddMilestoneGate` | apps/api/app/tasks_dependencies/dependency_service.py:227-289 | The same for a gate Milestone to Task: Task, Milestone, Event, authority, duplicate, cycle, each exactly in its turn |
| `DependencyService.GraphSession.RemoveLink` | apps/api/app/tasks_dependencies/dependency_service.py:179-224 | A removal marks exactly the one live row of the right kind that the actor sees and may change; not found and not authorized exactly otherwise, with every row untouched; acyclicity is kept |
| `DependencyService.GraphSession.CreateMilestone` | apps/api/app/milestones/commands.py:63-177 | A request for a Milestone is refused with each error exactly in its turn (Event not visible, no context, a reference outside the Event, unknown owner, authority, mode, a Task named twice) and accepted exactly when, besides, no gate is named twice, the gated Tasks are the actor's, and none of them already leads to a required contributor; any refusal leaves nothing behind. An accepted one leaves every old row as it was and adds one live row for each contribution, required or not, and for each gate with its strength, and no other row |
| `DependencyService.GraphSession.WriteMilestone` | apps/api/app/milestones/commands.py:125-177 | The writes of an admitted request under the graph lock: one row for every contribution and every gate, old rows unchanged, or nothing and a duplicate or gate error |
| `DependencyService.NewMilestoneReached` | apps/api/app/milestones/commands.py:127-138 | After the contributions are written and some gates added, a Task leads to the new Milestone exactly when it led to a required contributor before |
| `DependencyService.IntoFreshNode` | apps/api/app/milestones/commands.py:127-138 | A path into the new node arrives through one of its fresh contributions |
| `GraphTransactions.NeverCommitsACycle` | apps/api/app/tasks_dependencies/commands.py:239-245 | In every interleaving of statements of any number of transactions that add edges and gates, create Milestones, link imported Tasks and remove links, every committed graph of every Event is acyclic |
| `GraphTransactions.NeverCommitsAFullCycle` | apps/api/app/tasks_dependencies/queries.py:248-255 | The same for the graph with optional contributions, wherever all live contributions of the Event are required |
| `GraphTransactions.StepKeepsInv` | apps/api/app/tasks_dependencies/commands.py:239-245 | Each statement keeps: lock holders see an acyclic graph, a passed check stays passed until it is used, uncommitted rows are only under the lock |
| `GraphTransactions.OptionalContributionsMayCycle` | apps/api/app/tasks_dependencies/queries.py:248-255 | A reachable store in which an optional contribution and a gate form a cycle: the guarantee does not cover optional contributions |
| `GraphTransactions.UnlockedWritersCommitACycle` | apps/api/app/tasks_dependencies/commands.py:239-242 | Without the per-Event lock two opposite edges both pass their check and commit a cycle |
| `GraphTransactions.LinkAlone` | apps/api/app/tasks_dependencies/dependency_service.py:141-159 | A link that closes no cycle, written by a transaction with no other beside it, leaves exactly one more live row of its Event |
| `GraphTransactions.ContributionsAlone` | apps/api/app/milestones/commands.py:129-138 | A new Milestone's contributions written alone are all live rows of the Event, the optional ones too |
| `GraphTransactions.RemovalAlone` | apps/api/app/tasks_dependencies/dependency_service.py:200-205 | A removal alone marks its one row deleted |
| `TaskStates.CommandsMakeTheMoves` | apps/api/app/tasks_dependencies/transition_service.py:58-65 | The Task commands make exactly the moves of the documented Task machine, and exactly COMPLETED and CANCELLED are never left |
| `TaskStates.EnteredBy` | apps/api/app/tasks_dependencies/transition_service.py:55-65 | Each status is entered by its own command alone: COMPLETED by approval, IN_PROGRESS by a start, a resume or a rejected validation from the right status |
| `TaskStates.SortedIds` | apps/api/app/milestones/queries.py:54-62 | Ids in ascending order without repetition: the order row locks are taken in |
| `Milestones.DerivedIs` | apps/api/app/milestones/transition_service.py:75-93 | The derived status in terms of the contributors alone, each one exactly: READY when every required one is COMPLETED, AT_RISK when one is BLOCKED, IN_PROGRESS once any has moved; READY, ACHIEVED and MISSED stay |
| `Milestones.RecomputedProgresses` | apps/api/app/milestones/transition_service.py:170-204 | A re-derived row, field by field: READY or ACHIEVED exactly when every required contributor is COMPLETED, each stamped on that entry alone, never MISSED, mode and target kept, one version for each status it passes |
| `Milestones.SoundMeans` | apps/api/app/milestones/transition_service.py:85-93 | An up-to-date Milestone that is not MISSED is READY or ACHIEVED exactly when every required Task is COMPLETED |
| `Milestones.DeriveIsStable` | apps/api/app/milestones/transition_service.py:75-93 | Deriving is idempotent: a derived status derives itself from the same Tasks |
| `Milestones.StableMeans` | apps/api/app/milestones/transition_service.py:75-93 | If and only if: what an up-to-date open status says about required, blocked and moved contributors |
| `Milestones.RecomputedIsSound` | apps/api/app/milestones/transition_service.py:170-204 | A recomputed row is up to date, READY and ACHIEVED are earned, automatic confirmation had a required contributor, terminal rows are untouched, and the version moves exactly when the row does |
| `Milestones.MovesKeepEarned` | apps/api/app/tasks_dependencies/transition_service.py:58-66 | No legal Task command takes back what a Milestone has earned, because COMPLETED is never left |
| `Milestones.OtherTasksDoNotMatter` | apps/api/app/milestones/commands.py:37-42 | A Task that does not contribute cannot make a Milestone stale: why recomputing only the contributed-to Milestones is enough |
| `Milestones.MilestoneStore.Recompute` | apps/api/app/milestones/transition_service.py:158-204 | The stepwise row update equals the re-derived row, which RecomputedProgresses gives field by field, and no other row changes |
| `Milestones.MilestoneStore.Create` | apps/api/app/milestones/commands.py:119-177 | A new Milestone is up to date at once; AUTOMATIC is refused exactly when the policy forbids it; its row is given field by field, born READY or ACHIEVED exactly when all required contributors are COMPLETED |
| `Milestones.MilestoneStore.MilestoneIdsForTask` | apps/api/app/milestones/queries.py:54-62 | Exactly the Milestones the Task contributes to, in ascending order |
| `Milestones.MilestoneStore.OnTaskChanged` | apps/api/app/milestones/commands.py:32-42 | The loop over the Task's Milestones brings every Milestone of the store up to date and changes no other |
| `Milestones.MilestoneStore.ChangeTask` | apps/api/app/tasks_dependencies/transition_service.py:166-204 | A Task command is accepted exactly for a known Task, admitted by its own guards, in a legal status; each Milestone it contributes to is then READY or ACHIEVED exactly when its required Tasks are done, stamped on that entry, field by field; terminal ones and all others stay exactly as they were |
| `Milestones.MilestoneStore.Confirm` | apps/api/app/milestones/transition_service.py:207-233 | Accepted exactly for the current version of a READY_FOR_CONFIRMATION Milestone by someone authorized, which becomes ACHIEVED, stamped and not automatic; refused calls change nothing |
| `Milestones.MilestoneStore.Miss` | apps/api/app/milestones/transition_service.py:236-253 | Accepted exactly for a non-terminal Milestone, whose row alone becomes MISSED |
| `Milestones.MilestoneStore.OverdueIds` | apps/api/app/milestones/queries.py:103-116 | At most 500 ids, all overdue, none of the others overdue for longer, and all of them when fewer than 500 |
| `Milestones.MilestoneStore.SweepMissed` | apps/api/app/milestones/jobs.py:20-35 | The sweep makes exactly the selected ids MISSED, one version each, and leaves every other row as it was |
| `MilestoneTransactions.NeverStale` | apps/api/app/milestones/commands.py:32-42 | In every committed state of every interleaving of Task commands, creations, confirmations and sweeps, each Milestone's status is a fixpoint of the derivation on its current Tasks |
| `MilestoneTransactions.ReadyMeansDone` | apps/api/app/milestones/transition_service.py:85-93 | In every committed state READY and ACHIEVED mean every required Task is COMPLETED, and an automatic confirmation had a required Task |
| `MilestoneTransactions.TerminalForever` | apps/api/app/milestones/transition_service.py:40-47 | ACHIEVED and MISSED rows never change again; a Milestone confirmed between a sweep's select and its lock stays ACHIEVED |
| `MilestoneTransactions.NoDeadlock` | apps/api/app/milestones/queries.py:54-62 | No reachable state has transactions waiting for each other's row locks in a cycle |
| `MilestoneTransactions.BlockedMeansWaiting` | apps/api/app/milestones/queries.py:14-24 | A lock statement that cannot run is waiting for a transaction that holds the row: the waits in the deadlock theorem are all there are |
| `MilestoneTransactions.UnsharedCreationGoesStale` | apps/api/app/milestones/commands.py:129-138 | Without the share lock that the contribution's foreign key takes on its Task, a Milestone created during a Task command is left stale, with no transaction open that would re-derive it |
| `MilestoneTransactions.TaskCommandAlone` | apps/api/app/milestones/commands.py:32-42 | Statement by statement and with no other transaction beside it, a Task command leaves its Task moved, exactly the Milestones it contributes to re-derived field by field, and all others as they were |
| `MilestoneTransactions.CreationAlone` | apps/api/app/milestones/commands.py:119-177 | A creation alone adds the Milestone with all its contributions, derived at once |
| `MilestoneTransactions.ConfirmationAlone` | apps/api/app/milestones/transition_service.py:207-233 | A confirmation alone makes the waiting Milestone ACHIEVED, by hand, and changes nothing else |
| `MilestoneTransactions.SweepAlone` | apps/api/app/milestones/jobs.py:20-35 | A sweep alone makes exactly the Milestones it selected MISSED |
| `Blockers.CommandsMakeTheMoves` | apps/api/app/blockers/transition_service.py:54-59 | The Blocker commands make exactly the moves of the documented machine, and re-routing |
| `Blockers.BlockerStore.BlockTask` | apps/api/app/tasks_dependencies/transition_service.py:266-305 | BLOCKED and the OPEN Blocker that backs it come together, under exactly the stated guards, or nothing changes |
| `Blockers.BlockerStore.ResumeTask` | apps/api/app/tasks_dependencies/transition_service.py:308-348 | A manual resume needs a reason and override rights exactly when a Blocker is still active, and leaves every Blocker as it is |
| `Blockers.BlockerStore.Assign` | apps/api/app/blockers/transition_service.py:204-256 | Exact acceptance, and each refusal in its turn; the Blocker is ASSIGNED to exactly the given resolver, with the given Team or else the old one, one version on, all else as before; leaving OPEN resolves exactly its unresolved alerts |
| `Blockers.BlockerStore.Start` | apps/api/app/blockers/transition_service.py:259-291 | ASSIGNED to IN_PROGRESS, claimed now; an unowned Blocker becomes the actor's, an owned one keeps its owner; every other field as before |
| `Blockers.BlockerStore.Resolve` | apps/api/app/blockers/transition_service.py:294-324 | IN_PROGRESS to RESOLVED with its stamp, one version on; that row only |
| `Blockers.BlockerStore.Verify` | apps/api/app/blockers/transition_service.py:327-375 | RESOLVED to CLOSED over two versions; the Task resumes exactly when it is BLOCKED and this was its last active Blocker, and is otherwise untouched |
| `Blockers.BlockerStore.EscalateDueBlockers` | apps/api/app/blockers/escalation.py:111-136 | A sweep alone escalates exactly the due OPEN Blockers without an unresolved alert, in id order, one new alert each, and leaves no due Blocker without one |
| `Blockers.Escalate` | apps/api/app/blockers/escalation.py:117-136 | The loop over the candidates keeps: one alert a Blocker at most, each unresolved alert on an OPEN Blocker, none early |
| `Blockers.UnmarkedMeansNeverEscalated` | apps/api/app/blockers/escalation.py:62-98 | An OPEN Blocker without an unresolved alert has never been escalated: the marker is sound |
| `Blockers.LeaveOpenKeepsAlerts` | apps/api/app/blockers/transition_service.py:194-199 | Resolving on leaving OPEN keeps every alert unresolved exactly while its Blocker is OPEN |
| `Blockers.CloseLeaves` | apps/api/app/blockers/queries.py:11-23 | After closing a Blocker its Task has an active one left exactly when it had another active one |
| `BlockerTransactions.BlockedMeansBacked` | apps/api/app/blockers/transition_service.py:122-136 | In every committed state of every interleaving a BLOCKED Task has a Blocker that is not CLOSED |
| `BlockerTransactions.LastVerifyResumes` | apps/api/app/blockers/transition_service.py:371-375 | A BLOCKED Task loses its last active Blocker only in a verify, that same commit resumes it, and a verify resumes it in no other case |
| `BlockerTransactions.EscalatedOnceAndDue` | apps/api/app/blockers/escalation.py:119-136 | In every committed state each escalation alert was due when raised, is unresolved exactly while its Blocker is OPEN, and is the only one of its Blocker |
| `BlockerTransactions.OneEscalationInALife` | apps/api/app/blockers/escalation.py:126-135 | Two escalation alerts of one Blocker, at any two moments of any run, are the same alert |
| `BlockerTransactions.OnlyForward` | apps/api/app/blockers/transition_service.py:54-59 | Over any run no Blocker moves backwards (OPEN is never re-entered), and alerts are never lost, rewritten or unresolved again, acknowledgements included |
| `BlockerTransactions.StepKeepsInv` | apps/api/app/blockers/transition_service.py:122-136 | Every statement of every kind of transaction keeps the lock, row, alert and resume invariants |
| `BlockerTransactions.NoDeadlock` | apps/api/app/blockers/transition_service.py:122-136 | No reachable state has sweeps, Blocker commands and Task commands waiting for each other's Task and Blocker locks in a cycle |
| `BlockerTransactions.BlockedMeansWaiting` | apps/api/app/blockers/queries.py:45-55 | A lock statement that cannot run is waiting for a transaction that holds the row |
| `BlockerTransactions.TaskCommandAlone` | apps/api/app/tasks_dependencies/transition_service.py:266-305 | With no other transaction beside it a Task command moves its Task, and a block adds the OPEN Blocker that backs it |
| `BlockerTransactions.BlockerCommandAlone` | apps/api/app/blockers/transition_service.py:204-375 | Alone, each Blocker command leaves its Blocker field by field as the serial command does, resolves its alerts on leaving OPEN, and resumes the Task exactly when a verify closed its last active Blocker |
| `BlockerTransactions.SweepAlone` | apps/api/app/blockers/escalation.py:111-136 | Alone, a sweep's statements raise exactly what the serial loop raises, under the same ids |
| `BlockerTransactions.AcknowledgementAlone` | apps/api/app/comments_mentions_notifications/commands.py:366-389 | An acknowledgement alone marks its alert and nothing else |
| `BlockerWitness.UnlockedVerifiesStrandTheTask` | apps/api/app/blockers/transition_service.py:123-126 | A run from the empty store in which, without the Task row's lock, two sibling verifies leave a BLOCKED Task with no active Blocker; no Blocker command applies to either Blocker any more |
| `DrEvents.EventAndApplicationsAgree` | apps/api/app/dr_events/transition_service.py:299-314 | After any run of commands every Application's status fits its Event's: NOT_STARTED exactly before failover, in failback only under or after failback, COMPLETED before failback only if none was required, a direct close only without failback-required Applications |
| `DrEvents.RecoveryTimesAreOrdered` | apps/api/app/dr_events/transition_service.py:279-291 | In every run, however old the clock readings of its calls are: the network cut is not before the activation, every SLA start equals it, and exactly the Applications of an Event without a cut are NOT_STARTED |
| `DrEvents.FailoverStartsEverything` | apps/api/app/dr_events/transition_service.py:258-335 | The network cut is accepted exactly between the activation time and now (so `updated_at` still is the activation time), and exactly the Event's Applications all begin recovering at it |
| `DrEvents.ValidationsAreKept` | apps/api/app/dr_events/transition_service.py:704-746 | TECHNICAL_VALIDATION has exactly one pending Validation, FAILBACK_IN_PROGRESS at most one, any other status none; every decision is by someone other than the submitter |
| `DrEvents.DecisionSettlesTheOnePending` | apps/api/app/dr_events/transition_service.py:784-825 | A decision turns the Application's one pending Validation into an Approved or Rejected one by the actor, leaves none pending, and touches nobody else's rows |
| `DrEvents.DecisionMoves` | apps/api/app/dr_events/transition_service.py:784-825 | The status an accepted decision leaves, in each of the four cases: approved or rejected, before or in failback |
| `DrEvents.ApplicationsMoveAsDocumented` | apps/api/app/dr_events/transition_service.py:784-825 | Over every run an Application moves only as its documented machine allows, each move by its own command: COMPLETED and FAILED_OVER are entered by an accepted approval alone, and FAILBACK_IN_PROGRESS is left by one alone |
| `DrEvents.CompletedIsApproved` | apps/api/app/dr_events/transition_service.py:784-825 | In every state of every run a COMPLETED Application has an Approved Validation |
| `DrEvents.EventsMoveAsDocumented` | apps/api/app/dr_events/transition_service.py:56-65 | Over every run an Event moves only as its documented machine allows, each status entered by its own command and stamped by it |
| `DrEvents.LegalMovesAreDocumented` | apps/api/app/dr_events/transition_service.py:56-65 | The transition table is the documented machine with cancellation from every open status |
| `DrEvents.CreationIs` | apps/api/app/dr_events/commands.py:95-121 | A creation's refusals in their turn, and every field of the Event and of each Application it creates |
| `DrEvents.CloseIs` | apps/api/app/dr_events/transition_service.py:438-518 | A close's guards in their turn, exactly: an unfinished child, a direct close with failback required, unfinished monitoring without an exception, its reason, or the right to make one |
| `DrEvents.DecisionIs` | apps/api/app/dr_events/transition_service.py:760-835 | A decision's refusals, and its acceptance, exactly: a live Event, authority, the version, a phase, somebody else's pending Validation, a note to reject |
| `DrEvents.NeverUndone` | apps/api/app/dr_events/transition_service.py:626-631 | Over any run stamps are written once, decided Validations are final, rows are never lost, and a terminal Event freezes itself, its Applications and their Validations |
| `DrEvents.ClosedOverFinishedChildren` | apps/api/app/dr_events/queries.py:59-69 | Every child present when its parent was closed is terminal then and unchanged in all later states |
| `DrEvents.FailbackTakesExactlyTheFailedOver` | apps/api/app/dr_events/transition_service.py:401-415 | If and only if an Application is FAILED_OVER at start_failback does it go into failback; any other failback-required one is never in failback nor COMPLETED in any later state |
| `DrEvents.ClosedWithFailbackOutstanding` | apps/api/app/dr_events/transition_service.py:464-476 | A reachable Event CLOSED after failback with a failback-required Application still FAILED_OVER, and a new child created under it although it is CLOSED |
| `DrEvents.CloseLeavesNothingOutstandingExactly` | apps/api/app/dr_events/transition_service.py:464-476 | After an accepted close, no failback-required Application of the Event is ever left short of COMPLETED if and only if none is at the close |
| `DrEvents.UnfinishedChildCameLater` | apps/api/app/dr_events/queries.py:59-69 | A child of a closed Event that is not finished was created after the close |
| `DrEvents.MisorderedExactly` | apps/api/app/dr_events/transition_service.py:777-812 | Over any run an Application ends up validated before its network cut if and only if some accepted approval of it had read the clock, before its row lock, earlier than the cut it then found |
| `DrEvents.ReadersValidateAfterTheCut` | apps/api/app/dr_events/transition_service.py:777-783 | If every approval of an Application comes from a caller that had read the version it sends, validation follows the network cut in every run |
| `DrEvents.ValidatedBeforeTheCut` | apps/api/app/dr_events/transition_service.py:777-783 | A reachable Application validated before its network cut, by an approval that read the clock first and sent a version not yet written |
| `DrEvents.LandingBreaksTheFreezeExactly` | apps/api/app/dr_events/transition_service.py:613-632 | An Application command decided on what it read, landing on later rows, breaks the freeze if and only if its Event has ended by then, and touches one Application |
| `DrEvents.LandingKeepsTheRest` | apps/api/app/dr_events/transition_service.py:613-632 | The freeze is all a late landing can break, whenever its clock was read: statuses, stamps, pending Validations and decisions keep the whole joint invariant |
| `DrEvents.ValidationLandsAfterTheClose` | apps/api/app/dr_events/transition_service.py:613-632 | A run in which a validation decided before the close lands after it |
| `EventTransactions.EventAndApplicationsStillAgree` | apps/api/app/dr_events/transition_service.py:613-632 | In every committed state of every statement-level interleaving of Event commands, Application commands and creations, Application and Event statuses fit, pending Validations are as many as the status says, and decisions are by someone else |
| `EventTransactions.AtMostOneLandsAfterTheEnd` | apps/api/app/dr_events/transition_service.py:626-631 | In any interleaving an Application changes at most once after its Event has ended: in the commit of a transaction that, when the Event had ended, already held the Application and had read the Event, for the same call; then it is frozen |
| `EventTransactions.EndedEventsAreFinal` | apps/api/app/dr_events/transition_service.py:116-125 | An Event row is final once CLOSED or CANCELLED, however commands interleave |
| `EventTransactions.ClosesOverEndedChildren` | apps/api/app/dr_events/queries.py:59-69 | In any interleaving, when a close commits every child of its Event has ended and stays as it is, and no open transaction is about to commit a child: inserting one waits for the parent's row lock |
| `EventTransactions.StepKeepsInv` | apps/api/app/dr_events/transition_service.py:299-314 | Every statement, the row-by-row bulk moves included, keeps the joint invariant and each open transaction's images fit to commit |
| `EventTransactions.AloneIsTheCommand` | apps/api/app/dr_events/transition_service.py:172-562 | Statement by statement, the row-by-row bulk moves included, an accepted command with no other beside it commits exactly the rows the serial command specifies |
| `DrEvents.StepKeepsInv` | apps/api/app/dr_events/transition_service.py:172-562 | Every command keeps the joint invariant of Events, Applications and Validations |
| `DrEventStore.Store.CreateEvent` | apps/api/app/dr_events/commands.py:95-121 | The Event and one NOT_STARTED Application for each one in scope, or an error (authority, parent, what the look-ups raise) and no row |
| `DrEventStore.Store.Activate` | apps/api/app/dr_events/transition_service.py:179-255 | Each refusal in its turn: the shared guards, then a readiness hard stop without a reason or one that cannot be overridden; PLANNED becomes ACTIVE, one version on, nothing else changes |
| `DrEventStore.Store.RecoverApplications` | apps/api/app/dr_events/transition_service.py:299-325 | The loop over the locked rows moves exactly the Event's NOT_STARTED Applications |
| `DrEventStore.Store.StartFailover` | apps/api/app/dr_events/transition_service.py:258-335 | Row by row the store ends in the specified next state: the cut stamped, exactly the Event's NOT_STARTED Applications RECOVERING with their SLA from the cut; or unchanged, with each refusal in its turn |
| `DrEventStore.Store.MarkFailedOver` | apps/api/app/dr_events/transition_service.py:338-373 | FAILOVER_IN_PROGRESS to FAILED_OVER, one version on, or each refusal in its turn |
| `DrEventStore.Store.FailBackApplications` | apps/api/app/dr_events/transition_service.py:401-427 | The loop moves exactly the Event's FAILED_OVER Applications that require failback |
| `DrEventStore.Store.StartFailback` | apps/api/app/dr_events/transition_service.py:376-435 | FAILED_OVER to FAILBACK_IN_PROGRESS, stamped, and exactly the Event's FAILED_OVER Applications that require failback go along; or each refusal in its turn |
| `DrEventStore.Store.Close` | apps/api/app/dr_events/transition_service.py:438-518 | The step whose guards CloseIs gives in their turn; the Event CLOSED and stamped |
| `DrEventStore.Store.Cancel` | apps/api/app/dr_events/transition_service.py:521-562 | Reason first, then authority, existence, version and state; an accepted one leaves the Event CANCELLED and stamped, and nothing else changed |
| `DrEventStore.Store.SubmitValidation` | apps/api/app/dr_events/transition_service.py:686-757 | Terminal Event, authority, version, phase, pending Validation, unfinished Tasks: guards in order, next state as specified |
| `DrEventStore.Store.Validate` | apps/api/app/dr_events/transition_service.py:760-835 | The step that DecisionIs and DecisionMoves give: acceptance exactly, the new status in each of the four cases, the one pending Validation settled |
| `EventTree.ListDescendantEventIds` | apps/api/app/dr_events/queries.py:72-85 | For arbitrary parent links, cycles included, it terminates and returns without repetition exactly the start Event and everything reachable through live child links |
| `EventTree.ClosedHoldsAll` | apps/api/app/dr_events/queries.py:78-84 | A set closed under child links holds everything reachable from any of its members |
| `Idempotency.KeyTable.Require` | apps/api/app/core/idempotency.py:108-183 | Missing key, mismatch, replay, expiry and the lost insert race, each exactly when the row says so; only a fresh or expired key changes the table, to a row without an outcome that is valid for 86400 seconds |
| `Idempotency.KeyTable.Complete` | apps/api/app/core/idempotency.py:186-200 | The stored outcome is what any later request with the same hash gets verbatim until the row expires |
| `Idempotency.Decide` | apps/api/app/core/idempotency.py:150-160 | Each outcome exactly: executes when there is no unexpired row, a mismatch for another hash, in progress while the row has no outcome, and otherwise the row's own status and body |
| `IdempotencyTransactions.OncePerValidity` | apps/api/app/core/idempotency.py:129-148 | In any interleaving two committed executions of one key were requested at least 24 hours apart |
| `IdempotencyTransactions.RepliesReplay` | apps/api/app/core/idempotency.py:150-160 | A request begun after an execution committed, within its 24 hours, never executes; it gets that status and body verbatim, or a mismatch for another hash, if that was still the last execution |
| `IdempotencyTransactions.CommittedMeansComplete` | apps/api/app/core/idempotency.py:153-154 | No committed row lacks an outcome, so a lookup never answers that a request is in progress; only a lost insert race does |
| `IdempotencyTransactions.NothingFromNowhere` | apps/api/app/core/idempotency.py:172-181 | Every reply that did not execute is explained by an execution of the same key that committed before it |
| `IdempotencyTransactions.AloneExecutes` | apps/api/app/core/idempotency.py:108-200 | With no other request beside it, one that finds no live row executes once and leaves its outcome for 24 hours |
| `IdempotencyTransactions.AloneIsAnswered` | apps/api/app/core/idempotency.py:150-160 | Alone, one that finds a live row gets what that row decides and writes nothing |
| `Lockout.Credential.LoadCheckingLockout` | apps/api/app/identity_auth/commands.py:100-126 | Locked exactly while the lock time is in the future, with nothing changed; an expired lock is taken off and the counter reset |
| `Lockout.Credential.RegisterFailedAttempt` | apps/api/app/identity_auth/commands.py:129-193 | The counter, window start and lock after a failure, and AccountLocked exactly when this failure locks |
| `Lockout.Credential.Try` | apps/api/app/identity_auth/commands.py:232-276 | A whole attempt, field by field: nothing is checked or changed under a lock, a wrong one counts or opens a window and may lock, and a full login resets the counter |
| `Lockout.CounterBelowThresholdOrLocked` | apps/api/app/identity_auth/commands.py:154-165 | In every state of every run the counter is below the threshold or a lock time is set |
| `Lockout.FewWrongAttempts` | apps/api/app/identity_auth/commands.py:118-165 | With attempts served in the order of their clock readings, any stretch of time T without a login has at most N * (T / min(W, D) + 2) wrong attempts checked |
| `LockoutSkew.FewWrongAttemptsOutOfOrder` | apps/api/app/identity_auth/commands.py:112-126 | With clock readings out of order by at most S, and S less than the lock time, the number of wrong attempts checked in a stretch of service whose readings span T is bounded by an explicit formula in N, W, D, S and T |
| `LockoutSkew.FewWrongReadings` | apps/api/app/identity_auth/commands.py:112-126 | Then any period T has, among all attempts ever served, at most that bound for T + 2S of wrong ones checked whose reading lies in it |
| `LockoutSkew.NoBoundOutOfOrder` | apps/api/app/identity_auth/commands.py:234-236 | With readings out of order by the lock time there is no bound: for every k a run with readings 0 and D only in which k wrong attempts are checked |
| `Lockout.LockHolds` | apps/api/app/identity_auth/commands.py:162-165 | The lock set by a failure lasts its full time from that failure: until then nothing is checked or changed |
| `Assignment.TaskRow.Assign` | apps/api/app/resources_skills/assignment_service.py:76-151 | Accepted exactly at the expected version, or stale from the Owning Team's Manager onto their own Team over nothing but Admin or Coordinator assignments; then every field but the assignee is as it was at the expected version; any refusal, and a no-op, changes nothing |
| `Assignment.TaskRow.Volunteer` | apps/api/app/resources_skills/assignment_service.py:154-182 | Accepted exactly for unassigned open work at the expected version, each refusal in its turn; only the assignee, version and stamp change |
| `Assignment.TaskRow.UpdateMetadata` | apps/api/app/tasks_dependencies/commands.py:332-401 | Accepted exactly at the expected version of an open Task whose requirement fields are not locked, each refusal in its turn; a version is spent exactly when some value really changed; status and assignee never |
| `Assignment.TaskRow.ChangeStatus` | apps/api/app/tasks_dependencies/transition_service.py:122-204 | A lifecycle command moves the status and nothing else, with one versioned audit row; each refusal exactly in its turn: visibility, authority, version, legality, its own guards |
| `Assignment.YieldsExactly` | apps/api/app/resources_skills/assignment_service.py:53-64 | On any trail the code can write, the list test means exactly: expected is a past version and everything since is an Admin or Coordinator assignment |
| `Assignment.ChangesAre` | apps/api/app/tasks_dependencies/queries.py:631-652 | The audit rows past a version are gapless and in order, one for each version |
| `Assignment.NothingLost` | apps/api/app/resources_skills/assignment_service.py:96-114 | Across a stretch of assignments every other field of the Task is unchanged |
| `PlanImport.ReadRow` | apps/api/app/plans_import/commands.py:509-516 | Cells by target field, in column order |
| `PlanImport.LastCellWins` | apps/api/app/plans_import/commands.py:513-516 | Of several headers mapped to one field the last one's cell counts |
| `PlanImport.OnlyCellsAreMapped` | apps/api/app/plans_import/commands.py:513-516 | Whatever a field is mapped to is the cell of some header mapped to it |
| `PlanImport.SplitIs` | apps/api/app/plans_import/commands.py:614 | The pieces of a predecessor cell, joined by commas, are the cell, and no piece holds a comma |
| `PlanImport.StripIs` | apps/api/app/plans_import/commands.py:615 | Stripping takes off a blank front and a blank back and nothing else |
| `PlanImport.Verdict` | apps/api/app/plans_import/commands.py:518-567 | A row makes a Task exactly when it has a title, a known Owning Team, and an Application in scope or a Work Stream; which refusal it gets otherwise; and what its draft carries |
| `PlanImport.CreateTasks` | apps/api/app/plans_import/commands.py:508-606 | The first pass: one Task or one refusal item for each row, one item for each unresolved assignee, the last Task by lower-cased title |
| `PlanImport.LinkPiece` | apps/api/app/plans_import/commands.py:613-653 | One predecessor name: an item, an edge already there, or a checked new edge; acyclicity is kept |
| `PlanImport.ProcessAcceptedImport` | apps/api/app/plans_import/commands.py:483-667 | Both passes together leave exactly the Tasks, edges and items that the lemmas below describe, for the split, stripped and lower-cased names, and report their counts |
| `PlanImport.RowsAreConserved` | apps/api/app/plans_import/commands.py:508-606 | Every row ends as exactly one Task or exactly one import-job item, never both, and no two items are about the same thing |
| `PlanImport.ItemsAreDistinct` | apps/api/app/plans_import/commands.py:655-661 | No two review items of an accept are about the same row, assignee or predecessor name, and each pass's items are its own |
| `PlanImport.PiecesAreConserved` | apps/api/app/plans_import/commands.py:613-653 | Every non-blank predecessor name of a created Task ends as an edge from the Task of that title or as an item, never both; an unknown name is flagged, and a known one if and only if the graph leads from the Task back to that predecessor |
| `PlanImport.OnlyOwnTasksAreLinked` | apps/api/app/plans_import/commands.py:638-653 | New edges join only Tasks of this accept, their number is the reported one, and every Event's graph stays acyclic |
| `PlanImport.LastTitleWins` | apps/api/app/plans_import/commands.py:600-601 | A name is known exactly if a row with that title, case aside, made a Task; of several the last one is meant |
| `PlanImport.SelfPredecessorIsReviewed` | apps/api/app/plans_import/commands.py:633-644 | A Task that names itself is sent to review as a cycle; the silent skip of a self-edge is never reached |
| `Policies.PolicyStore.SetPolicyValue` | apps/api/app/policies_admin/commands.py:75-152 | Each refusal exactly in its turn (authority, the one locked key, an unknown key); otherwise one new active row, exactly the slot's active one superseded now, and every other row as it was |
| `Policies.PolicyStore.Resolve` | apps/api/app/policies_admin/queries.py:59-83 | The value last written at the most specific scope that has one: Application before Work Stream before Event before global, else the default; nothing for an unknown key |
| `Policies.PickEffective` | apps/api/app/policies_admin/queries.py:35-56 | The loop over the scopes and the dictionary of active rows compute what the write history alone determines: the most specific scope with a value governs |
| `Policies.MostSpecificWins` | apps/api/app/policies_admin/queries.py:35-56 | An Application's last value beats its Work Stream's, that the Event's, that the global one, that the default; a scope that is not named or has no value is passed over |
| `Policies.SupersedingReplaces` | apps/api/app/policies_admin/commands.py:122-133 | Where rows are in step with the history, a write adds one active row, supersedes exactly what was active in its slot, and keeps every other row |
| `Policies.WriteKeepsAgrees` | apps/api/app/policies_admin/commands.py:111-133 | A write keeps: each slot's one active row carries the last value written to it |
| `PolicyTransactions.OneActiveValue` | apps/api/app/policies_admin/commands.py:100-108 | Under concurrent writers, several values to a transaction, each definition and scope has an active row exactly if a write to it has committed; it is one, and carries the last committed write |
| `PolicyTransactions.ResolveIsLastWrite` | apps/api/app/policies_admin/queries.py:65-83 | In every committed state, resolution on the rows equals the last committed write at the most specific scope that has one, Application first, else the default |
| `Policies.FirstActiveIsEffective` | apps/api/app/policies_admin/queries.py:35-56 | Rows in step with the history resolve to what the history says |
| `PolicyTransactions.SupersededIsFinal` | apps/api/app/policies_admin/commands.py:122-124 | Over any run rows are never lost or rewritten, and a superseded row never changes again |
| `PolicyTransactions.WriteReplaces` | apps/api/app/policies_admin/commands.py:111-133 | In every reachable state a write adds, to the transaction's own view of the table, exactly the serial command's change |
| `PolicyTransactions.UnlockedWritersLeaveTwoActive` | apps/api/app/policies_admin/commands.py:100-108 | Without the advisory lock two first writes both stay active |
| `OwnerSlots.OwnerStore.SetApplicationOwners` | apps/api/app/applications_catalog/commands.py:230-315 | The request becomes exactly the active set, other Applications keep theirs, no slot ever has two rows; row by row, what is written in place, given up or inserted, with its stamp, and that no other row changes; the audit row's before is the previous one's after |
| `OwnerSlots.Replace` | apps/api/app/applications_catalog/commands.py:262-314 | Giving up, updating in place and inserting, in that order, keep slots unique and the audit trail chained |
| `OwnerSlots.LaterOwnerCounts` | apps/api/app/applications_catalog/commands.py:263 | Of two entries for one slot the later one counts |
| `OwnerSlots.RequestedOk` | apps/api/app/applications_catalog/commands.py:250-257 | An accepted request has the Primary of each kind it mentions and orders from 1 to 3 |
| `OwnerSlots.ReplacedBy` | apps/api/app/applications_catalog/commands.py:281-299 | What the two loops do together: the active slots are the request, the others' slots are untouched |
| `OwnerSlots.UpsertedRewrites` | apps/api/app/applications_catalog/commands.py:281-299 | The two loops row by row: requested slots in place, other held ones given up, one new row for each slot that had none, all else untouched |
| `OwnerSlots.CheckOwners` | apps/api/app/applications_catalog/commands.py:250-261 | A request is refused for the first kind it names that has too many or no Primary, then for an inactive user, then for an order out of range, each exactly in its turn |
| `OwnerOverlap.OverlapLeaves` | apps/api/app/applications_catalog/commands.py:265-299 | For every slot, who holds it after two calls that both read before either wrote, from what they read and asked for alone |
| `OwnerOverlap.OverlapMeetsTheRequestExactly` | apps/api/app/applications_catalog/commands.py:265-299 | Two overlapping calls leave exactly the later request if and only if every slot is harmless: a condition on the rows read and the two requests |
| `OwnerOverlap.OverlapKeepsPrimariesExactly` | apps/api/app/applications_catalog/commands.py:250-257 | And they leave each kind its Primary if and only if the two requests together do |
| `OwnerOverlap.SecondInsertFails` | apps/api/app/applications_catalog/commands.py:290-299 | The later insert breaks the unique key if and only if both calls insert the same slot |
| `OwnerOverlap.AloneMeetsTheRequest` | apps/api/app/applications_catalog/commands.py:265-299 | A call that is alone, or whose rival failed and rolled back, leaves exactly its request, inserts included |
| `OwnerOverlap.AloneRewrites` | apps/api/app/applications_catalog/commands.py:281-299 | And row by row it writes what the serial command writes |
| `OwnerOverlap.OverlapKeepsTheTrailExactly` | apps/api/app/applications_catalog/commands.py:276-315 | Two overlapping calls keep the audit trail chained if and only if the first asked for what was there already, and its last row tells what is active if and only if every slot is harmless |
| `OwnerOverlap.OverlappingCallsMix` | apps/api/app/applications_catalog/commands.py:265-315 | Two calls, each in order, that overlap and leave the Application with no owner at all |

## Left out

- DrEvents.NeverUndone: stated for commands run one transaction at a time; what is left of the freeze in any interleaving is `AtMostOneLandsAfterTheEnd`.
- DrEvents.ReadersValidateAfterTheCut: all processes read one clock; skew between them is not modelled there.
- DrEvents.ClosedOverFinishedChildren: stated for commands run one transaction at a time; `EventTransactions.ClosesOverEndedChildren` is the interleaved form.
- EventTransactions.EventAndApplicationsStillAgree: without time stamps; the guards of one command, which the source reads in several statements under the Event's or the Application's lock, are one statement; the share locks that audit and outbox rows take on the Event are not modelled, which only allows more interleavings.
- Lockout.FewWrongAttempts: for attempts that take the credential's row lock in the order of their clock readings; `LockoutSkew` covers the rest.
- OwnerSlots.OwnerStore.SetApplicationOwners: stated for one call at a time; two overlapping calls are in `OwnerOverlap`, more than two are not.
- PlanImport.Verdict: case folding and stripping are ASCII only, an empty cell is the empty string, and phase, duration, description and evidence flag of the draft are not modelled.
- PlanImport.ProcessAcceptedImport: one accept at a time; its edges under concurrency are the checked inserts of `GraphTransactions`. Work Streams created on the way are names.
- Idempotency.KeyTable.Require: the lost insert race is an input there; the race itself is in `IdempotencyTransactions`. The planned purge of expired keys does not exist yet.
- BlockerTransactions.LastVerifyResumes: the second count before the resume repeats the first under the same Task lock and is one statement here; the Milestone re-derivation of the resume is in `MilestoneTransactions`.
- BlockerTransactions.OneEscalationInALife: row locks on alerts are not modelled, which only allows more interleavings.
- BlockerTransactions.NoDeadlock: Task and Blocker rows; the Milestone rows that a resume takes after them are in `MilestoneTransactions.NoDeadlock`.
- Blockers.BlockerStore.EscalateDueBlockers: the timer that the policies give each Blocker comes in as a map.
- Milestones.MilestoneStore.ChangeTask: the command's authority, version and own guards (readiness, reason, evidence, validator) are one input, as in `Assignment.TaskRow.ChangeStatus`.
- DependencyService.GraphSession.CreateMilestone: whether the Work Stream or Application, the owner and the mode pass comes in as parameters; the policy behind the mode is in `Milestones.MilestoneStore.Create`.
- Assignment.TaskRow.Assign: one Task, whose row lock serialises its writers; which authority an actor has comes in as a parameter.
- DrEventStore.Store.CreateEvent: the look-ups of Applications, tiers and plan come in as the error they raise, if any; instantiating a plan and participants are not modelled; `failback_required` may be given either way, although creation always uses true.
- Soft deletion of Tasks, Milestones, Blockers, Alerts and Events: no code performs it, so those rows are live here; dependency rows, gates, owner rows and the Event tree do model it.
- Audit and outbox rows, except where a guarantee reads them (Task versions, owner slots).
- Baseline snapshots, recovery metrics, notifications, participants, Event visibility and 404-versus-403 choices.
- Deadlocks outside Task, Blocker and Milestone row locks, and PostgreSQL's own deadlock detection.
- Hash collisions of advisory-lock keys, which only serialise more.
- Issues, comments and mentions, work-load roll-ups, sessions and password reset, the AI mapper and the spreadsheet reader.
- The readiness derivation of a Task and its dependency override: easy beside the rest.
