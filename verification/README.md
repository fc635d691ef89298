# Physical harness: a verified model

A Dafny model of the decision core of a robot-skill harness: the validator that
decides whether an execution graph is legal, replanning and recovery, the
watched process pool, the hash-chained session log and its kernel, the skill
graph loader and its expansion, the seed ledger, and the campaign store with its
acceptance rule and its exact test. Code that changes state step by step is
modelled by methods with loops or by classes; pure code by functions. The
theorems about them are lemmas beside the functions that specify them.

| files | what they model |
|---|---|
| `Digraph`, `Ancestors` | finite digraphs, walks, linear extensions; the memoising transitive closure of `after` |
| `PredRefs`, `PredGrammar` | textual predicate references: the parser, the printer, and the grammar they accept |
| `Plans` | the theory of partially ordered plans: states, supporters, threats, every linear extension |
| `Legality`, `LegalityCheck`, `LegalRuns`, `NodeContracts` | Legal(G), the method that decides it, what it buys in every run, and what the contract of a node says |
| `Replan` | `replan_monotone` and whole task runs with failures and replans |
| `Recovery`, `RecoveryRuns`, `RecoveryLoop` | `insert_recovery`, `recover_plan`, the stateless planner's next answer, and the task loop around it with its retries and its gates |
| `RepairedLegal` | when a plan with repairs in it is legal |
| `WatchedMap` | the watched parallel map against an adversarial world of children and clock |
| `CanonicalJson` | JSON as it is dumped with sorted keys, its text, and what reading it back keeps |
| `Ledger`, `Kernel` | the chained log (a class) and the resolving kernel (a class) over it |
| `DepthFirst`, `SkillGraph`, `Expansion`, `ExpansionLaws`, `ExpansionOrder` | loading, acyclicity, taxonomy paths, recursive expansion and its order |
| `Sorting`, `Lists` | stable sorting by a total preorder, sorted sets, the order of strings |
| `Seeds` | maximal runs, merging, the lowest free block, the derived ledger |
| `Acceptance` | milestones, paired comparison, adoption over whole campaigns |
| `Campaign`, `PassRates` | pass rates and what they measure, index rows, the sharding store (a class) and its readers |
| `Fisher` | the two-sided exact test |

An execution graph is never executed by the validator that accepts it. Its meaning
here is the symbolic one its threat test rests on: executing a node turns a state
`s` into `(s - clobbers) + ensures`; a failed node changes nothing.

## Results that differ from what the code or its comments suggest

* The hash cannot be assumed injective with outputs of fixed length: no such
  function exists. The ledger theorems therefore say "the same content, or here
  are two texts with the same digest", and hold for every hash of 64 characters.
* A verified ledger need not verify after a reload. A dict with the keys 9 and 10
  is written 9 first, and "10" first once it was read back
  (`CanonicalJson.NineTenTurns`, `Ledger.NineTenReload`). `Ledger.ReloadVerifies`
  is the exact condition on the payloads, which a caller can check before `append`
  and which payloads with string keys always meet (`Ledger.TextKeyedReloads`).
* The support test turns down requirements that hold in every order: those whose
  only clobberers ensure the atom again (`Plans.RenewerIsRefused`) and those that
  two supporters cover between them (`Plans.CrossCoverIsRefused`).
  `Plans.HoldsExactly` says when a requirement holds, `Plans.SupportedExactly`
  when one with a single supporter is accepted.
* The cycle error inside `expand` is reachable on accepted graphs even when no
  node's name is another node's id: a stage may share a skill's name
  (`ExpansionLaws.DistinctNamesDoNotSuffice`). `ExpandSucceedsExactly`,
  `CycleErrorExactly` and `DocumentExpansionSafe` say when it is.
* Archiving a round is visible to the series in some columns: the optional ones
  other than `evaluation` disappear, and `tried` loses its path, from and to and
  is cut to 300 characters (`Campaign.LineExactly`). Of these the campaign as it
  stands writes only long errors and reasons (`Campaign.LongErrorIsCut`). Archiving
  a round whose `tried` or whose detail is a bare string raises.
* A planner told only `nodes_done` can rebuild a done repair with the wrong
  strategy and be refused (`RecoveryRuns.BareNodesDoneIsRefused`). The order of
  `nodes_done` matters when it lists a repair of a repair
  (`Recovery.NestedOrderMatters`).
* The planner's answer to `no_progress` need not be monotone. A node that succeeds
  with a failed stage is done and at fault, and its repair then comes before a done
  node and is refused; any strategy in the tables makes this possible
  (`RecoveryLoop.LateCourse`, `RecoveryLoop.AnsweredExactly`), and a caller can tell
  it from the fault's node and `nodes_done` (`RecoveryLoop.CourseAnswered`). The
  refusal forgets what is done, so with a repair done every later answer is refused
  (`RecoveryLoop.RefusedForGood`).
* A repair can make a legal plan illegal: it has no `task` and counts for the first
  one, which then ends later (`RepairedLegal.RepairEndsLegality`).
  `RepairedLegal.RepairedLegalExactly` is the exact condition.
* The tolerance of the exact test counts a table more likely than the observed one
  when products of the margins differ by at most one part in a billion
  (`Fisher.ConventionalFromMargins`): one success in one episode against 2c
  episodes, with c successes in all, from c = 10^9 on (`Fisher.ToleranceBites`).
* A comma in an argument value merges atoms (`PredRefs.CommaMergesAtoms`).

## Model

| member | source | states |
|---|---|---|
| PredRefs.RoundTrip | harness/protocol.py:26-50 | parsing the printed form of an atom gives the atom back if and only if its name is an identifier and its arguments are trimmed, nonempty, and free of commas and newlines |
| PredRefs.PrintInjective | harness/protocol.py:47-50 | on those atoms two printed forms are equal only for equal atoms |
| PredRefs.ParsedIsPrintable | harness/protocol.py:31-44 | whatever text the parser accepts yields such an atom |
| PredRefs.CanonicalIdempotent | harness/protocol.py:47-50 | canonicalising an accepted text again changes neither the text nor the atom it reads as |
| PredRefs.Substitute | harness/protocol.py:53-58 | instantiation replaces exactly the template slots bound by the node's arguments, in place |
| PredRefs.InstanceReadsBack | harness/protocol.py:53-58 | the text of an instantiated reference reads back as the instantiated atom if and only if the values put into it are plain |
| PredRefs.InstancesCompareAsAtoms | harness/protocol.py:509-512 | so on plain argument values the validator's string comparisons compare atoms |
| PredRefs.CommaMergesAtoms | harness/protocol.py:53-58 | and on others they need not: one value with a comma is taken for two |
| PredGrammar.GrammarParses | harness/protocol.py:26-44 | every identifier, with or without a list in parentheses that has no newline, and with blanks around both, is accepted and read as that name with the stripped nonempty parts of the list |
| PredGrammar.ParsedReads | harness/protocol.py:26-44 | and no other text is accepted |
| PredGrammar.SplitsAtCommas | harness/protocol.py:43 | the parts of a list have no comma and give the list when joined |
| PredGrammar.CleanIs | harness/protocol.py:43 | of the parts the stripped nonempty ones are kept, in order |
| PredGrammar.Blanks | harness/protocol.py:26-43 | the blanks are the twenty-nine listed code points, and none of them is part of a name |
| PredGrammar.NameCharacters | harness/protocol.py:26 | a name begins with an ASCII letter or the underscore; of the ASCII characters these and the ten digits continue it |
| PredGrammar.StripSplits | harness/protocol.py:43 | stripping removes the blanks at both ends and nothing else |
| Ancestors.WalkNode | harness/protocol.py:430-444 | one walk keeps the memo table sound whatever was reported, and complete while nothing was, although partial sets are memoised |
| Ancestors.AncestorsOf | harness/protocol.py:425-448 | terminates; reports nothing if and only if every `after` id is known and the relation is acyclic, and then returns exactly the transitive closure; every problem is real |
| Plans.SupportedHolds | harness/protocol.py:525-546 | a requirement with an unthreatened supporter is true on entry to its node in every linear extension |
| Plans.HoldsExactly | harness/protocol.py:525-546 | for any number of supporters, a requirement is true on entry in every linear extension if and only if something provides it and every eraser not ordered after the node is followed by a supporter that the node waits for |
| Plans.ErasureIsReal | harness/protocol.py:525-546 | for an eraser that is not so followed, a linear extension is constructed that enters the node with the requirement false |
| Plans.ThreatIsReal | harness/protocol.py:525-546 | so is one for an unordered eraser of a requirement with one supporter |
| Plans.SingleSupporterExact | harness/protocol.py:525-546 | for one supporter, the requirement is true on entry in every linear extension if and only if no node that makes the atom false may run between the supporter and the node |
| Plans.CheckedLinkExactly | harness/protocol.py:525-536 | the code's threat test is that condition and one more: no node that clobbers the atom and ensures it again may run there either |
| Plans.SupportedExactly | harness/protocol.py:538-546 | for one supporter, the code accepts the requirement if and only if it is true on entry in every linear extension and no such node may run there |
| Plans.RenewerIsRefused | harness/protocol.py:525-546 | a graph with an unordered node that clobbers and re-ensures an initial fact: true in every order, and refused |
| Plans.CrossCoverIsRefused | harness/protocol.py:525-546 | a graph with two supporters, each behind its own eraser: true in every order, and refused |
| Plans.CoveredHolds | harness/protocol.py:548-557 | a covered goal atom holds in every state after all members have run and before any node they all precede has |
| Plans.LastMember | harness/protocol.py:548-557 | when the last member finishes, no node that all members precede has run |
| Plans.PlaceBlock | harness/protocol.py:522-536 | a block whose predecessors are placed or inside it can be scheduled next, in the order of any given linear extension |
| Digraph.LinearExtensionExists | harness/protocol.py:425-448 | a closed acyclic relation has a linear extension |
| Digraph.TopologicalIsAcyclic | harness/protocol.py:425-448 | a relation whose nodes can be listed topologically is acyclic |
| LegalityCheck.Resolve | harness/protocol.py:451-467 | reports exactly the duplicate ids and the nodes of unknown skills |
| LegalityCheck.Structure | harness/protocol.py:478-483 | the first phase is silent if and only if the graph is well ordered, and then hands over the transitive closure |
| LegalityCheck.TypedProblems | harness/protocol.py:486-501 | reports exactly the typing problems of a node: unknown task, missing or unknown arguments, wrong or unknown types |
| LegalityCheck.CheckBound | harness/protocol.py:503-507 | reports exactly the executors that the records do not bind |
| LegalityCheck.GroundedProblems | harness/protocol.py:514-520 | reports exactly the entity arguments neither initial nor mentioned by an atom a predecessor ensures |
| LegalityCheck.SupportProblems | harness/protocol.py:538-546 | reports exactly the requirements nothing provides and those whose every supporter is threatened |
| LegalityCheck.CoverProblems | harness/protocol.py:548-557 | reports exactly the goals no member ensures and those clobbered before the task's end |
| LegalityCheck.CheckTyped | harness/protocol.py:486-501 | over all nodes, exactly the typing problems |
| LegalityCheck.CheckGrounded | harness/protocol.py:514-520 | over all nodes, exactly the grounding problems |
| LegalityCheck.CheckSupported | harness/protocol.py:538-546 | over all nodes, exactly the support problems |
| LegalityCheck.CheckCovered | harness/protocol.py:548-557 | over all tasks, exactly the coverage problems |
| LegalityCheck.CheckContracts | harness/protocol.py:485-557 | the second phase reports exactly the contract problems of a well-ordered graph |
| LegalityCheck.LegalIsProblemFree | harness/protocol.py:470-558 | Legal(G), stated positively as five conditions, is the absence of every problem |
| LegalityCheck.ValidateGraph | harness/protocol.py:470-558 | accepts if and only if the graph is Legal; raises exactly on a malformed reference it reaches; otherwise reports every problem of the phase it stops in |
| NodeContracts.StepFills | harness/protocol.py:509-512 | a node has a contract if and only if its references parse; its requirements and effects are then those of its record, in order, and its clobbered atoms those of its record, each with the text of an argument value wherever a reference names an argument |
| NodeContracts.GraphContracts | harness/protocol.py:509-512 | the same of every node of a graph |
| NodeContracts.ProducedExactly | harness/protocol.py:514-520 | with plain values, an object counts as produced if and only if the record of an ancestor names it among its effects, outright or by a slot that the ancestor's value fills |
| NodeContracts.GraspIsLegalExactly | harness/protocol.py:470-558 | a node with one entity argument v, requiring needed(v) and free(), ensuring held(v) and clobbering free(), is legal if and only if the facts hold needed(v) and free() and v is an object, for all names and values |
| NodeContracts.TypedExactly | harness/protocol.py:486-501 | a node is typed if and only if its task exists, its arguments are those of the schema, and each value has the Python type of the schema's type name |
| LegalRuns.RequirementsHold | harness/protocol.py:538-546 | in every linear extension of an accepted graph every instantiated requirement holds on entry to its node |
| LegalRuns.EntitiesExist | harness/protocol.py:514-520 | there every entity argument is an initial object or occurs in an atom ensured by an already executed node |
| LegalRuns.GoalsHold | harness/protocol.py:548-557 | there each goal of each task holds once its members have run and until a node they all precede runs |
| LegalRuns.GoalsHoldAtTaskEnd | harness/protocol.py:548-557 | in particular at the moment the task's last member finishes |
| LegalRuns.OneNodeIsLegal | harness/protocol.py:470-558 | legality is not vacuous: a node that requires and clobbers one atom and ensures its task's goal is a legal graph, whatever the names |
| Replan.ReplanMonotone | harness/protocol.py:561-596 | accepts if and only if the completed nodes keep skill, arguments, kind, task and executor, depend on completed nodes only, and are the same ordered prefix of both lists; reports every violation |
| Replan.MonotoneIsProblemFree | harness/protocol.py:561-596 | that condition is the absence of every problem the code can report |
| Replan.MonotoneKeeps | harness/protocol.py:572-596 | monotone means, field by field, that completed nodes keep skill, arguments, kind, task and executor and wait for completed nodes only, with one ordered prefix |
| Replan.DoneIdsAre | harness/protocol.py:591 | the expected prefix lists the completed ids in list order |
| Replan.ReplanStaysOnTrack | harness/protocol.py:561-570 | adopting a monotone graph turns the state reached by the completed nodes into the state of the new graph's prefix |
| Replan.ListsEarlierIds | plugins/task/validate.py:76-103 | the plan validator's check of fresh ids and earlier `after` ids accepts exactly the graphs whose list order is a linear extension |
| Replan.RunsStayOnTrack | plugins/task/workload.py:1088-1107 | any number of successes, failures and replans that pass the three gates keeps a run on track on a legal graph |
| Replan.NextRequirementsHold | harness/protocol.py:561-570 | on track, every requirement of the next node to run holds in the world although completed nodes are skipped |
| Replan.CompletedGoalsHold | harness/protocol.py:548-570 | on track, the goals of every task whose members are completed hold in the world until a node they all precede runs |
| Recovery.InsertRecovery | harness/protocol.py:619-639 | raises if and only if the node is absent; otherwise the plan with one repair in front of it |
| Recovery.InsertIdempotent | harness/protocol.py:619-629 | inserting twice is inserting once, whatever strategy the second call names |
| Recovery.InsertCommutes | harness/protocol.py:619-639 | repairs of two nodes, neither the repair of the other, commute |
| Recovery.InsertIntoRepaired | harness/protocol.py:642-663 | inserting into a rebuilt base plan is rebuilding it with one repair more |
| Recovery.RecoverPlan | harness/protocol.py:642-663 | over a base plan it raises if and only if a done repair with a strategy has neither a base node nor an earlier re-inserted repair to stand in front of, or the answered node is neither; otherwise it returns the base plan repaired with the done repairs and the new one |
| Recovery.StageWord | harness/protocol.py:656-659 | the stage word of an id is what stands before its first dash, or the whole id |
| Recovery.AnswerIs | harness/protocol.py:658-662 | a `no_progress` fault is answered with the nonempty override of its failure mode for the stage word, or else with the nonempty entry of the stage table, or else not |
| Recovery.RanIs | harness/protocol.py:653-657 | a done repair is re-inserted with the strategy it is reported to have run, or else with the entry of the stage table, or else not |
| Recovery.NewStrategy | harness/protocol.py:642-663 | unless its repair is done, the new plan repairs the node at fault with exactly that strategy |
| Recovery.FirstAnswer | harness/protocol.py:642-663 | with nothing done the answer is the base plan with that one repair, or the base plan |
| Recovery.DoneRepairsAre | harness/protocol.py:642-657 | the re-inserted repairs depend on the set of done ids only, not on their order or repetition |
| Recovery.AnswerRebuilds | harness/protocol.py:642-663 | the same of the specification of its loop, for every fault and every table, repairs of repairs included |
| Recovery.NestedOrderMatters | harness/protocol.py:653-657 | a done repair of a repair is re-inserted when it is listed after the repair it stands in front of, and raises when it is listed before it or alone |
| RecoveryRuns.RepairedOrdered | harness/protocol.py:619-639 | a repaired base plan keeps unique ids and an order that respects `after` |
| RecoveryRuns.AnswerMonotoneExactly | harness/protocol.py:619-663 | an answer passes `replan_monotone` if and only if it keeps every done node, keeps the strategy of every done repair, and repairs no other done node |
| RecoveryRuns.NextAnswerExactly | harness/protocol.py:642-663 | on what the task loop reports after any prefix of a repaired plan, the planner raises exactly when it would repair a repair that is not done; otherwise the answer is the repaired base plan, and it passes `replan_monotone` if and only if it does not repair a done node that ran without a repair |
| RecoveryRuns.ForgottenExactly | plugins/task/workload.py:1086-1087 | the fault that a refused answer leaves names no done node: it is answered with the bare base plan, which passes if and only if no repair is done |
| RecoveryLoop.CourseAnswered | plugins/task/workload.py:1019-1107 | in every state of every course of the loop (runs, failures, nodes that succeed with a failed stage, retries, refusals, the progress rule) the plan in force is the base plan with repairs of base nodes and the planner never raises; its answer to a report passes `replan_monotone` if and only if it does not repair a done node late, its answer after a refusal if and only if no repair is done |
| RecoveryLoop.TurnedDownIsPlaced | harness/protocol.py:600-616 | why it never raises: the progress rule turns a graph down only after it faulted twice at that node, so the node is in it |
| RecoveryLoop.RefusedForGood | plugins/task/workload.py:1086-1087 | once an answer was refused with a repair done, no later answer of the course is accepted |
| RecoveryLoop.CourseLegal | plugins/task/workload.py:777-793 | when the base plan is legal, no strategy is a skill with a contract and the first task has no goal, the plan in force is legal throughout |
| RecoveryLoop.AnsweredExactly | harness/protocol.py:642-663 | every answer on every course over every base plan passes if and only if the tables name no strategy for any stage word |
| RecoveryLoop.LateCourse | plugins/task/workload.py:1206-1228 | for any tables that name one, a course of three faults: a node fails, then succeeds with a failed stage, the same graph is no progress, and its repair comes too late |
| RecoveryRuns.BareNodesDoneIsRefused | harness/protocol.py:645-648 | without `recoveries_done` a repair chosen by a mode override is rebuilt with another strategy and refused: a concrete plan and fault |
| RepairedLegal.MendedReaches | harness/protocol.py:619-639 | repairs add no order between the nodes of the plan, and stand where their node stands |
| RepairedLegal.RepairReached | harness/protocol.py:619-639 | a repair is waited for by its node and by what waits for its node, and by nothing else |
| RepairedLegal.RepairedLegalExactly | plugins/task/validate.py:206-217 | a legal base plan with repairs is legal if and only if the goals of its first task, to which repairs without a `task` are counted, are covered with only those nodes exempt that every repaired node precedes or is |
| RepairedLegal.GoalFreeStaysLegal | plugins/task/validate.py:206-217 | so it is when the first task has no goal, in particular when the plan declares no tasks |
| RepairedLegal.OwnRepairsStayLegal | plugins/task/validate.py:206-217 | and when every repaired node belongs to the first task |
| RepairedLegal.RepairEndsLegality | harness/protocol.py:548-557 | a legal plan of two tasks, whatever its names, that is illegal with a repair in the second |
| WatchedMap.CheckChild | harness/executor.py:106-124 | one child is settled only with an honest row: its own answer, or dead without one, or killed when overdue; a failure it sent is raised; an unsettled child is not overdue |
| WatchedMap.Scan | harness/executor.py:105-124 | settles only live children, each with an honest row; when it settles none, the oldest live child's time has not run out |
| WatchedMap.Watchdog | harness/executor.py:122-124 | an unsettled child is killed and written off if and only if its time has run out |
| WatchedMap.Fill | harness/executor.py:95-104 | starts items until the table is full or the input ends, never more than `workers` |
| WatchedMap.RetireAll | harness/executor.py:125-130 | each settled child leaves the live table with one row; every started child stays accounted for, even when the callback raises |
| WatchedMap.Pass | harness/executor.py:94-132 | one turn of the outer loop lowers the ranking (items to start, live children, time left to the oldest) lexicographically |
| WatchedMap.TraceBound | harness/executor.py:94-104 | every state of the call follows from the one before by a single parent action (the watchdog kills only overdue children, a child is retired only with an honest row), and in each at most `workers` children are running |
| WatchedMap.KillAll | harness/executor.py:133-140 | the exit path leaves no live child running |
| WatchedMap.Map | harness/executor.py:88-141 | terminates in every fair world even if no child answers; a normal return holds exactly one honest row per item, so a child that delivered is never reported dead and only an overdue one is reported timed out; a raised error is one an unsettled child sent; an interruption is one of the world's; however the call ends no child outlives it |
| Ledger.SessionLog.constructor | harness/events.py:43-46 | a fresh log verifies and its chain is that of no rows |
| Ledger.SessionLog.Load | harness/events.py:70-92 | a loaded log holds the rows as they read back, and if they verify its chain is the one they commit to |
| Ledger.SessionLog.Append | harness/events.py:57-67 | one row is added to memory and mirror, the chain moves to its value, and a log in step verifies afterwards if and only if it did before |
| Ledger.SessionLog.Verify | harness/events.py:97-107 | true if and only if every stored digest and chain value is the recomputed one |
| Ledger.StepTextInjective | harness/events.py:33-37 | the text of a chain step determines previous value, kind and digest even when the kind contains colons |
| Ledger.StepTextParts | harness/events.py:33-37 | a step text is previous value, kind and digest in this order, parted by colons |
| Ledger.StepTextNotSeed | harness/events.py:22-37 | no step text is the seed |
| Ledger.ChainCommits | harness/events.py:22-37 | two row lists with one final chain value have the same length, kinds and payload documents row by row, or exhibit a collision |
| Ledger.VerifiedLedgersAgree | harness/events.py:97-107 | so do two verified ledgers that end in the same stored value |
| Ledger.TamperingShows | harness/events.py:97-107 | a ledger with the same end but another content fails verification, or exhibits a collision |
| Ledger.ReloadVerifies | harness/events.py:69-92 | a verified ledger verifies after reload if and only if in every dict with number keys the order of the keys is the order of their texts (that the others fail is up to a collision) |
| Ledger.TextKeyedReloads | harness/events.py:69-92 | in particular every ledger whose dicts have string keys |
| Ledger.NineTenReload | harness/events.py:57-92 | a ledger of one row, with the keys 9 and 10, that verifies until it is read back |
| CanonicalJson.NumberOrder | harness/events.py:58 | number keys come by value, true as 1 and false as 0, and the two are written as words |
| CanonicalJson.WrittenInjective | harness/events.py:58 | canonical text is unambiguous: two documents have one text only if they are equal, through escapes, numbers, lists and objects |
| CanonicalJson.EscapeReads | harness/events.py:58 | printable ASCII stands for itself but for quote and backslash, three control characters have their letters, everything else its UTF-16 code units |
| CanonicalJson.Hex4Reads | harness/events.py:58 | a code unit is written in four lower-case hexadecimal digits that denote it |
| CanonicalJson.NatTextReads | harness/events.py:58 | a natural number key is written in decimal digits that denote it, without leading zeros |
| CanonicalJson.RereadExactly | harness/events.py:57-92 | the canonical text of a value read back is the text that was written if and only if its dicts with number keys (ints, finite floats, bools) have their keys in text order |
| CanonicalJson.TwoKeysTurn | harness/events.py:58 | any two number keys that compare one way while their texts compare the other way change places once they were read back |
| CanonicalJson.NineTenTurns | harness/events.py:58 | the dict with the keys 9 and 10 is written 9 first, and "10" first once it was read back |
| CanonicalJson.TextKeyedIsStable | harness/events.py:58 | values whose dicts have string keys are written alike again |
| Ledger.ContentChain | harness/events.py:57-67 | the chain value depends on kinds and payload documents only |
| Ledger.SeqNotCommitted | harness/events.py:61-62 | ledgers that differ in their numbering only have one chain and verify alike |
| Kernel.Kernel.AppendEvent | harness/kernel.py:80-84 | kernel events reach the attached ledger, which keeps verifying; without one nothing happens |
| Kernel.Kernel.Provide | harness/kernel.py:69-84 | mounts and logs, or refuses for exactly one reason and leaves state and ledger unchanged |
| Kernel.Kernel.Resolve | harness/kernel.py:96-117 | returns the mounted provider, records and logs the resolution, or refuses for exactly one reason and changes nothing |
| Kernel.Kernel.Note | harness/kernel.py:119-129 | appends to the shared ledger and changes nothing else |
| Kernel.RunsKeepAccounts | harness/kernel.py:69-135 | after any run of calls the privileged set is that of the recorded privileged resolutions, within budget, sequence numbers are dense, and every record names its mounted provider |
| Kernel.ApplyKeepsStep | harness/kernel.py:109-129 | one call keeps the log's resolve rows in step with the resolutions if and only if it is no note of that kind |
| Kernel.RunsStayInStep | harness/kernel.py:109-129 | hence over whole runs |
| Kernel.UsedIsNeverRefusedAgain | harness/kernel.py:103-109 | a privileged name once used is never refused for the budget |
| Kernel.ResolveRowsTell | harness/kernel.py:109-117 | over whole runs the i-th resolve row is the dict of capability, ref, consumer and privilege of the i-th resolution |
| Kernel.MountRowsTell | harness/kernel.py:78-84 | over whole runs there is one mount row per provider, with its capability, ref, privilege and params sorted by key |
| Kernel.NotesAreLogged | harness/kernel.py:119-129 | over whole runs the rows of other kinds are the notes, in order |
| Sorting.SortCorrect | harness/unified_skill_graph.py:251-253 | sorting by a total preorder is ordered, a permutation, and stable |
| Sorting.SortedSetCorrect | board/store.py:2322 | a sorted set is strictly ascending with the same members |
| Sorting.SortPositions | harness/unified_skill_graph.py:251-253 | sorting lists the elements by their positions: ascending, ties by position |
| Sorting.TextLeIs | board/store.py:2370 | strings compare by code points at the first difference, a prefix first |
| DepthFirst.Visit | harness/unified_skill_graph.py:221-231 | one visit either returns a real cycle or keeps the finished nodes a topological order that now has the node |
| DepthFirst.AssertAcyclic | harness/unified_skill_graph.py:218-234 | refuses if and only if the relation has a cycle, and the cycle it names is real |
| SkillGraph.LoadNodes | harness/unified_skill_graph.py:157-174 | accepts exactly the well-formed nodes with unique ids and unique claimed names; the tables are exact; a refusal names a fault the nodes have |
| SkillGraph.LoadEdges | harness/unified_skill_graph.py:179-194 | accepts exactly the edges of listed relations between known nodes with their order; the table lists each node's edges in document order |
| SkillGraph.CheckRelation | harness/unified_skill_graph.py:195-196 | over the freshly built tables the cycle check decides acyclicity of the document's relation |
| SkillGraph.Load | harness/unified_skill_graph.py:138-196 | accepts exactly the acceptable documents with their tables; a refusal is justified |
| Expansion.WalkTaxonomy | harness/unified_skill_graph.py:261-276 | the walk up the first IS_A edges terminates and yields root-to-skill names or the cycle error |
| Expansion.LeafChain | harness/unified_skill_graph.py:547-552 | the leaf chain of several skills is the concatenation of their expansions, or the first error |
| ExpansionLaws.TaxonomyTotal | harness/unified_skill_graph.py:261-276 | over a closed acyclic IS_A relation the cycle error of the walk is unreachable |
| ExpansionLaws.TaxonomyPathIsChain | harness/unified_skill_graph.py:261-276 | a path names the chain of first IS_A parents from a node without parents down to the skill |
| ExpansionLaws.LoadedTaxonomyTotal | harness/unified_skill_graph.py:195-276 | hence over every accepted document |
| ExpansionLaws.ExpandSucceedsExactly | harness/unified_skill_graph.py:316-361 | an expansion succeeds if and only if the name is known and everything it visits is fine by itself and on no cycle of resolved names |
| ExpansionLaws.CycleErrorExactly | harness/unified_skill_graph.py:341-343 | when nothing it visits can fail by itself, the cycle error is raised if and only if a cycle of resolved names is met |
| ExpansionLaws.CycleErrorUnreachable | harness/unified_skill_graph.py:341-343 | when names lead back to their nodes and DECOMPOSES_TO is acyclic the error is unreachable |
| ExpansionLaws.LoadedExpansionSafe | harness/unified_skill_graph.py:195-343 | hence over every accepted document whose names resolve |
| ExpansionLaws.DocumentExpansionSafe | harness/unified_skill_graph.py:138-343 | in particular over every accepted document where no name is another node's id and every component is a skill, a category or a root |
| ExpansionLaws.DistinctNamesDoNotSuffice | harness/unified_skill_graph.py:163-174 | an accepted document where no name is another node's id and the cycle error is raised |
| ExpansionLaws.StagedExpansion | harness/unified_skill_graph.py:337-354 | a skill with stages expands to one leaf per stage in order, the component at a stage's position standing in exactly when there are as many components as stages |
| ExpansionLaws.ExpansionIsConcatenation | harness/unified_skill_graph.py:355-359 | a composite expands to the in-order concatenation of its components' own expansions |
| ExpansionOrder.LookupExactly | harness/unified_skill_graph.py:237-241 | an id finds its node, a claimed name that is no id finds the node that bears it, and nothing else is found |
| ExpansionOrder.OrderedByNumber | harness/unified_skill_graph.py:251-253 | a relation lists exactly the targets of its edges, by ascending `order`, edges of one order as they stand in the document |
| ExpansionOrder.StagesByNumber | harness/unified_skill_graph.py:337-354 | a skill with stages has one leaf per HAS_STAGE edge in that order, with the stage's own word or the last part of its name, and standing for the first REALIZES target, or else for the component at its position if there are as many, or else for nothing |
| ExpansionOrder.StagesInOrder | harness/unified_skill_graph.py:251-274 | of two HAS_STAGE edges, the leaf of the smaller order stands before that of the greater |
| ExpansionOrder.ComponentsByNumber | harness/unified_skill_graph.py:355-359 | a composite's leaves are, stretch by stretch, those of the components named by its DECOMPOSES_TO edges in that order |
| ExpansionOrder.ComponentsInOrder | harness/unified_skill_graph.py:251-253 | of two DECOMPOSES_TO edges, the leaves of the smaller order stand before those of the greater |
| ExpansionOrder.WholeSkill | harness/unified_skill_graph.py:360-361 | a skill with neither is one leaf: a canonical skill stands for itself, an observed one for its first IS_A parent or for nothing |
| ExpansionOrder.LastSegmentIs | harness/unified_skill_graph.py:285-286 | the last part of a name is what follows its last point, or the whole name |
| Seeds.RunsOf | board/store.py:2319-2327 | the runs are ascending, nonempty, at least one seed apart, and cover exactly the given seeds |
| Seeds.SeparatedUnique | board/store.py:2319-2327 | there is only one such list, so runs and merges depend on the covered seeds alone |
| Seeds.Merge | scripts/alloc_seeds.py:26-36 | keeps the covered set of any intervals; over nonempty ones leaves gaps of at least one seed |
| Seeds.NextBlock | scripts/alloc_seeds.py:39-51 | fails exactly for n <= 0; otherwise the lowest block at or above the floor that passes the overlap test against every interval of the list, whatever its ends; it hits no seed, and is the lowest such when reversed ends are harmless |
| Seeds.ClearExactly | scripts/alloc_seeds.py:45-51 | the blocks that pass the test are the free ones if and only if wherever an interval with reversed ends is in the way a seed is covered too; intervals with ordered ends always meet this |
| Seeds.ReversedEndsPush | scripts/alloc_seeds.py:45-51 | with reversed ends it need not be the lowest: (5, 3) covers nothing and pushes a block of ten from 0 to 4 |
| Seeds.RowBlocks | board/store.py:2356-2365 | one index row burns exactly its dev and selection seeds as gate and its held-out seeds as heldout; an unreadable or other row burns nothing |
| Seeds.BurnedBlocks | board/store.py:2330-2370 | fails exactly without a store; otherwise the blocks are strictly ascending tuples, and a seed is burned in a role for a preregistration if and only if the evidence lists it so |
| Seeds.BurnLeIs | board/store.py:2370 | the tuples are ordered by low end, high end, role name and preregistration |
| Seeds.Allocate | scripts/alloc_seeds.py:54-68 | from arbitrary preregistered lists to the suggestion: no seed of it was ever spent, and its start is the least one at or above the floor with that property |
| Acceptance.MilestoneMeaning | scripts/evolve.py:330-337 | on the trail itself: besides `task`, an id is a milestone if and only if a node has it that is a verify node or the trail has no verify node; it is passed if and only if the last such node is ok |
| Acceptance.CompareKeys | scripts/evolve.py:352-356 | for one seed the two lists hold each gained and each lost milestone once, in ascending order |
| Acceptance.CompareSeed | scripts/evolve.py:349-360 | one turn of the loop extends lists and counters by one seed |
| Acceptance.Compare | scripts/evolve.py:340-362 | gains, regressions and lost finishes are exact over `before`'s seeds and listed seed by seed in milestone order, missing rows counting as nothing passed; accepted if and only if the passed total strictly rises and finished seeds do not drop |
| Acceptance.RowMissing | scripts/evolve.py:350 | a seed without a row passes and finishes nothing |
| Acceptance.Balance | scripts/evolve.py:340-362 | passed milestones after minus before equals gains minus regressions |
| Acceptance.RunRises | scripts/evolve.py:1885-1924 | over any run on one seed list each adoption raises the total and no adoption loses a finished seed |
| Acceptance.AdoptionsBounded | scripts/evolve.py:1885-1924 | so the number of adoptions is at most seeds times milestones per seed |
| Campaign.TrailPasses | board/store.py:1541-1545 | within one trail a task passes if and only if it occurs and all its nodes are ok |
| Campaign.CountPasses | board/store.py:1539-1547 | the table counts, for each task that occurs, the trails it passes in |
| Campaign.ComputeRates | board/store.py:1524-1548 | mean pass fraction and per-task pass fraction over the trails left after dropping repair nodes and empty trails |
| PassRates.KeptIs | board/store.py:1524-1538 | the kept nodes are exactly those that are neither of kind recovery nor named recover-, in order |
| PassRates.TrailsAre | board/store.py:1538-1539 | the trails are the kept nodes of exactly those rows that have any, in order |
| PassRates.RateMeaning | board/store.py:1540-1542 | the rate is the mean over the trails of the fraction of ok nodes, and absent exactly when there is no trail |
| PassRates.TaskRateMeaning | board/store.py:1543-1551 | exactly the tasks that a trail names have a rate, the fraction of the trails they pass in |
| PassRates.RateExtremes | board/store.py:1542 | the mean is one if and only if every kept node is ok and zero if and only if none is |
| PassRates.OkRaisesRate | board/store.py:1542 | turning one node ok raises the mean |
| Campaign.IndexRowColumns | scripts/evolve.py:1470-1489 | an index row keeps of its round exactly the listed columns, and the seed keys of its seed rows |
| Campaign.IndexDetail | scripts/evolve.py:1483-1486 | and of `tried` the kind, the node and five details, strings cut to 300 characters |
| Campaign.ShownIs | board/store.py:1557-1568 | a series line shows five details of `tried` |
| Campaign.Series | board/store.py:1571-1598 | one line per row, its best the largest reading among the rows up to it (after the round, or else before), and none while there is no reading |
| Campaign.SeriesUnchanged | board/store.py:1571-1598 | over any faithful list the lines agree with those of the unsharded history in the ten scalar columns, `evaluation`, `node_rate` with its running best, and `by_task` |
| Campaign.LineExactly | scripts/evolve.py:1476-1489 | the whole line survives archiving if and only if the round has no optional column but `evaluation` and shows only a short reason and error |
| Campaign.LongErrorIsCut | scripts/evolve.py:1476-1486 | a round as the campaign writes it, with an error longer than 300 characters, shows another line once it is archived |
| Campaign.TransferIsLost | scripts/evolve.py:1470-1483 | a `transfer` column, which the campaign as it stands does not write, disappears when its round is archived |
| Campaign.RoundsReadInFull | board/store.py:1368-1386 | every round is still read in full |
| Campaign.NoOtherRound | board/store.py:1379-1381 | and no other number is found |
| Campaign.EvolveStore.constructor | scripts/evolve.py:1497-1500 | a fresh directory is a valid store of no rounds |
| Campaign.EvolveStore.Append | scripts/evolve.py:2055 | a round of a new number joins list and history and the store stays valid |
| Campaign.EvolveStore.Archive | scripts/evolve.py:1520-1527 | the file is written once and never replaced; the index row is returned or the call raises |
| Campaign.EvolveStore.Save | scripts/evolve.py:1511-1518 | keeps the store faithful to its history even when it raises, and raises exactly on a row to archive whose `tried` is malformed; otherwise exactly the last twenty rows stay whole and the list is written |
| Fisher.Vandermonde | scripts/compare_serving_arms.py:103-115 | the weights sum to the binomial coefficient of the pooled arms |
| Fisher.SupportSum | scripts/compare_serving_arms.py:109-114 | also over the range the code sums |
| Fisher.ValueInUnit | scripts/compare_serving_arms.py:103-115 | the value lies in (0, 1] and the cap at one never bites |
| Fisher.ArmsSwap | scripts/compare_serving_arms.py:103-115 | swapping the two arms does not change the value |
| Fisher.OutcomesSwap | scripts/compare_serving_arms.py:103-115 | nor does counting failures instead of successes |
| Fisher.ConventionalExactly | scripts/compare_serving_arms.py:106-115 | the value is the conventional one if and only if no table of the support is more likely than the observed one and within the tolerance |
| Fisher.ConventionalFromMargins | scripts/compare_serving_arms.py:103-115 | that is, if and only if for no table the two products of margins between it and the observed one differ, upwards, by at most one part in a billion |
| Fisher.SmallMargins | scripts/compare_serving_arms.py:103-115 | so it is whenever the two products of margins over the whole support stay below a billion |
| Fisher.ToleranceBites | scripts/compare_serving_arms.py:115 | one success in one episode against 2c episodes, with c successes in all: the value differs from the conventional one if and only if c is at least a billion |
| Fisher.ToleranceInert | scripts/compare_serving_arms.py:115 | which it never does below a billion observed tables |

## Left out

- PredRefs.RoundTrip: the letters and digits beyond ASCII are a constant without a value, so the results hold for every table of them.
- LegalityCheck.ValidateGraph: argument values are a Python type with a printed form, compared structurally; equality across numeric types, negative zero and NaN are not modelled. The order of problems within a phase is not stated, and of several cycles at least one is reported.
- Plans.SupportedExactly: stated for a requirement with one supporter; with several, `Plans.HoldsExactly` says when it is true, and the test is sound.
- Replan.RunsStayOnTrack: `on_fail`, budgets, cancellation, replay and the dispatch of nodes are not modelled; the initial facts are fixed across replans and a failed node has no symbolic effect. Of the plan validator, only the gate on ids and `after` lists is modelled.
- RecoveryLoop.CourseAnswered: a course starts at the first fault of an accepted base plan, one planner answers every fault from one base plan, graphs are compared instead of their hashes, and a refusal is given for any reason; budgets, cancellation, replayed starts and briefs with their own graph are not modelled. Retries are not bounded.
- RepairedLegal.RepairedLegalExactly: repairs are of base nodes, which is what courses lead to, and a strategy is a record without arguments and contract.
- WatchedMap.Map: items are indices; sends are atomic with one message per child, joining a settled child returns, the clock is abstract and advances on an unsettled pass, and `workers >= 1` is required (the source never ends otherwise). `on_result` may interrupt the call but is otherwise opaque. The unwatched `Pool` path and the missing `on_lost` error are not modelled.
- Ledger.SessionLog.Append: SHA-256 is a parameter and the file system is not modelled; nor are the refusal to open an existing ledger afresh, the empty argument list of `chain_step`, keys that are null, infinite or NaN, dicts that mix string and number keys (these are no payload: dumping them raises), and lone surrogates in strings. A number is its printed form.
- Ledger.SessionLog.Load: reading a row file back is reading back the documents it was written as; parsing text that was never written is not modelled.
- Kernel.Kernel.Provide: definitions are given as a map, so the duplicate-definition error does not arise; `mount` is not modelled; the shared ledger is written by this kernel only while it is attached.
- SkillGraph.Load: node kinds and relations are enumerated; the incoming-edge table, descriptions, evidence, retrieval and snapshots are not modelled.
- Seeds.BurnedBlocks: reading the status prose is a given list of proper ranges.
- Acceptance.Compare: the labels are pairs of seed and milestone.
- Acceptance.RunRises: the fresh-seed confirmation is an opaque verdict; a confirmation that widens the seed range starts a new run on the new list.
- Campaign.EvolveStore.Save: JSON text round trips are taken as the identity, and files cannot fail; readers of the written list are the lemmas over any faithful list.
- Campaign.ComputeRates: rounding to four places is a parameter and arithmetic is exact.
- Fisher.ValueInUnit: exact arithmetic stands for floating point.
- `replan_progress`, `evidence_interval`, `plan_lower_bound` and `graph_sha` would add single-branch members or numerics.
- `plan_index`, `_brief_events`, process liveness, the board's pages and command lines, and the agent loop are plumbing around the modelled core.
