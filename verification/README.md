# The FF planner, and two lock protocols

This project models the FF v2.3 planner and two programs with threads, and proves what their code is relied on for. It stands beside the C sources and is checked with `dafny verify dfyconfig.toml`.

**The search engine** (`relax.c`, `search.c`, the search part of `main.c`). States are lists of fact numbers. The connectivity graph links facts and conditional effects of operators. A state is evaluated by a counter-driven fixpoint that ignores deletes, and by a relaxed plan extracted backwards from it; its length is the heuristic value, and the operators that start it are the helpful ones. Enforced hill-climbing follows the value along a goal agenda, best first search is the fallback.

- `Connectivity`: the graph, its well-formedness, its meaning as transitions on sets of facts
- `Layers`, `Fixpoint`, `Extraction`: what the evaluation has to compute, without any list or mark; `Relax`: the evaluation itself, as a class with the marks and work lists of the program
- `Selection`: the choices of the extraction as a function, and so value, relaxed plan and helpful operators as functions of state and goals
- `Reasons`: what these choices are, goal by goal, and that they leave no other selection
- `Transition`, `StateTable`, `EhcTable`, `PlanTable`: successor states, the three hash tables, the table of the current plan
- `Plans`, `BestFirst`, `HillClimbing`, `Planner`: the searches

**The way there** (`inst_pre.c`, `inst_easy.c`, `inst_final.c`, `orderings.c`).

- `Formulas`, `Normalize`, `Dnf`: typed first-order formulas, their meaning, and the passes over them; `NormalForm`: what these passes leave
- `Join`, `FactAddress`: the instantiation of operators by static preconditions, and the table addresses of facts
- `Grounded`, `Reachability`, `FinalProblem`, `GraphBuilder`: the grounded problem, its reachability analysis, the final representation, the graph built from it
- `Soundness`: what plans and failures of the search say about the grounded problem; `Pipeline`: the chain from the templates to the answer
- `Agenda`: the goal agenda

**Two lock protocols**, for any number of threads and every run: `RwLock` for the readers/writer lock of `ex3.c`, `ThreadPool` for the task queue of `threadpool.c`. The code between two points where the mutex is free is one step of a transition relation, the classes beside it contain that code, and condition variables are sets of waiting and signalled threads with spurious wake-ups.

`Sequences` holds facts about duplicate-free lists that several modules use.

## What the proofs found

- *Cutting the plan back can run forever* (`SA_BE_Planification/FF-v2.3/search.c:625-632`). An entry that was removed from the plan keeps its `next_step` when it is used again. The loop that follows these pointers ends exactly unless the pointer of the last plan state leads back into the plan (`PlanTable.CutIsEndless`), and a few operations of the plan lead there (`PlanTable.LinksCanLeadBack`). With one agenda entry it cannot happen, nor during the first entry of any agenda: the state that each search ends in has a smaller value than every state that was in the plan before, so its entry is new and has no pointer (`Planner.ClimbAlongAgenda`). The agenda has one entry exactly if nothing splits the goals (`Agenda.OneEntry`). The model runs the loop for one step more than there are entries, which suffices to tell the two cases apart, and reports the endless one as outcome `Endless`.
- *Operators can lose facts that their actions keep* (`SA_BE_Planification/FF-v2.3/inst_final.c:1233-1239`). An add that is a condition of its effect is dropped; if an effect with other conditions deletes the fact, the operator loses it (`Soundness.FactIsLost`). `Soundness.LostExactly` says which facts, `GraphBuilder.OperatorDoesAction` that operator and action agree exactly in the states where there is none, and `Soundness.StepsAreRun` that a plan is real exactly if no step loses one.
- *An operator that only deletes can do good* (`SA_BE_Planification/FF-v2.3/inst_final.c:1326-1348`), contrary to the comment there: it can keep a conditional effect of another operator from taking place. `Soundness.DroppedDeleter` has two actions with a plan whose graph has none; `Soundness.DroppedExactly` says which operators are dropped, `Soundness.DroppedStep` in which states that makes a difference, and `Soundness.GraphIsExact` that without conditional effects nothing is lost at all.
- *A static precondition that repeats a variable is joined wrongly* (`SA_BE_Planification/FF-v2.3/inst_easy.c:1265-1284`): two occurrences are bound in one row without being compared (`Join.RepeatedVariable`). The result is right if all initial facts that fit the precondition have equal constants there, and with one static precondition exactly then (`Join.MultiplyOpParameters`).
- *Simplification misses atoms that repeat a variable* (`SA_BE_Planification/FF-v2.3/inst_pre.c:1547-1566`): p(x, x) of a predicate that is never added stays when the only initial fact is p(0, 1) (`NormalForm.RepeatsAreMissed`). It misses no other atom (`NormalForm.AtomsDecided`).
- *Readers can starve* (`IN_TD_POSIX/ex3.c:156-231`, `RwLock.ReadersCanStarve`), and *a task pushed after all workers have left stays in the queue* (`IN_TD_Concurrent/threadpool.c:134-160`, `ThreadPool.LateTasksStay`); that is the only way to lose a task, also after the shutdown (`ThreadPool.AllExecuted`).

## Assumptions

These are the preconditions in the contracts; the code relies on them without a check.

- States and goal lists hold no duplicates and only facts of the graph; every type has at least one constant.
- The condition list of an effect holds no duplicates when effects are merged.
- Initial facts are listed once.
- For the agenda there is at least one goal, goals are distinct, and the matrix of orderings is true on its diagonal, as `detect_ordering_constraints` leaves it.
- Integers and sums are unbounded; a hash index is the remainder of the sum by the size of the table, which is what masking with a power of two less one yields. The random number of a fact is any function of the fact.

## Model

| member | source | states |
|---|---|---|
| Layers.LayersStop | SA_BE_Planification/FF-v2.3/relax.c:402-435 | once a parallel delete-free step adds nothing, no later one does, so the layer loop may stop at the first layer without new facts |
| Layers.RunInLayer | SA_BE_Planification/FF-v2.3/relax.c:359-439 | a real run of `k` operators, deletes included, stays inside the layer `k` steps further on |
| Layers.DeadEndIsSafe | SA_BE_Planification/FF-v2.3/relax.c:710-766 | if the goals are in no layer, no sequence of operators reaches them: giving a state up on INFINITY loses no plan |
| Layers.PlanBoundsLayers | SA_BE_Planification/FF-v2.3/relax.c:662-706 | a state with a plan is never valued INFINITY, and its goals lie in the layer numbered by the length of the plan |
| Layers.ImpliedHold | SA_BE_Planification/FF-v2.3/relax.c:860-869 | the effects listed as implied belong to the same operator and take place whenever the effect does |
| Fixpoint.CountUntouched | SA_BE_Planification/FF-v2.3/relax.c:464-484 | activating a fact leaves the counters of the effects that do not need it right |
| Fixpoint.CountTouched | SA_BE_Planification/FF-v2.3/relax.c:464-484 | one count and the test against the number of conditions keep 'listed exactly when all conditions are active'; the effect was not listed before |
| Fixpoint.ReachedExact | SA_BE_Planification/FF-v2.3/relax.c:554-574 | when the goals are all listed, the marks are the exact levels up to this layer, the new goals included |
| Fixpoint.StuckBuilt | SA_BE_Planification/FF-v2.3/relax.c:428-435 | when a layer adds no fact, the levels are those of the complete delete-free fixpoint |
| Fixpoint.ExactLevelled | SA_BE_Planification/FF-v2.3/relax.c:488-503 | exact levels come with witnesses: a fact of level t+1 has an adder of level t, and an effect's level is the largest level of its conditions |
| Relax.Relaxation.NewFact | SA_BE_Planification/FF-v2.3/relax.c:507-514 | a fact enters the list once, and its mark says so |
| Relax.Relaxation.NewEf | SA_BE_Planification/FF-v2.3/relax.c:518-525 | an effect enters the list once, and its mark says so |
| Relax.Relaxation.InitializeFixpoint | SA_BE_Planification/FF-v2.3/relax.c:443-460 | the facts of the state are the layer 0, each listed once, with all counters at zero |
| Relax.Relaxation.ActivateFt | SA_BE_Planification/FF-v2.3/relax.c:464-484 | gives the fact its level, and afterwards every counter is the number of active conditions and exactly the effects with full counters are listed; the new ones come in the order of the fact's array |
| Relax.Relaxation.ActivateEf | SA_BE_Planification/FF-v2.3/relax.c:488-503 | gives the effect its level and adds exactly its missing facts to the list |
| Relax.Relaxation.ActivateFacts | SA_BE_Planification/FF-v2.3/relax.c:409-421 | after the facts of a layer every effect that can take place in it is listed, those without conditions in layer 0 |
| Fixpoint.CompletedInOrder | SA_BE_Planification/FF-v2.3/relax.c:464-484 | activated one after the other, the facts of a list complete exactly the effects whose conditions they hold, in the order of the last condition, and in the order of the array where it is the same fact |
| Relax.Relaxation.EnlistUnconditional | SA_BE_Planification/FF-v2.3/relax.c:413-420 | the effects without conditions are all listed, behind the others and by increasing number |
| Relax.Relaxation.ActivateEffects | SA_BE_Planification/FF-v2.3/relax.c:423-426 | after the effects of a layer the list is the next layer |
| Relax.Relaxation.AllGoalsActivated | SA_BE_Planification/FF-v2.3/relax.c:554-574 | answers whether the goals are all listed; only then it changes marks, and only those of goals without a level |
| Relax.Relaxation.BuildFixpoint | SA_BE_Planification/FF-v2.3/relax.c:359-439 | terminates at the first layer with all goals or at the true fixpoint, whichever is first; every level is the least number of parallel delete-free steps that reach the fact or effect |
| Relax.Relaxation.ResetFixpoint | SA_BE_Planification/FF-v2.3/relax.c:529-550 | every mark of the evaluation is taken back, whatever it was, by walking the lists alone |
| Relax.Relaxation.ResetSearchInfo | SA_BE_Planification/FF-v2.3/relax.c:956-979 | every mark of the previous extraction is taken back |
| Relax.Relaxation.InitializeGoals | SA_BE_Planification/FF-v2.3/relax.c:710-766 | INFINITY exactly if a goal has no level; else the goals, and only they, are marked and sorted by level, and the result is the largest level |
| Relax.Relaxation.SelectAdder | SA_BE_Planification/FF-v2.3/relax.c:789-803 | there is always an adder one level below, and the one selected has the fewest layers below its conditions, counted once for each condition, the first one on a tie; `min_e` is never -1 |
| Relax.Relaxation.ConditionCost | SA_BE_Planification/FF-v2.3/relax.c:793-797 | the cost of an adder: one for every pair of a condition and a layer below it |
| Extraction.LevelSumCounts | SA_BE_Planification/FF-v2.3/relax.c:793-797 | the sum of the levels is that number of pairs |
| Extraction.SelectedOnce | SA_BE_Planification/FF-v2.3/relax.c:770-872 | an adder of a goal that is not yet true at this level was never selected before and is not a removed effect |
| Relax.Relaxation.MarkFired | SA_BE_Planification/FF-v2.3/relax.c:843-869 | exactly the adds of the effect and of its implied effects become true at this level |
| Relax.Relaxation.UseOperator | SA_BE_Planification/FF-v2.3/relax.c:809-820 | an operator is counted once per level |
| Relax.Relaxation.AchieveGoal | SA_BE_Planification/FF-v2.3/relax.c:780-870 | dealing with a goal keeps: every goal dealt with is made true one level below by a selected effect, and every condition of a selected effect is a goal of its own or comes for free |
| Relax.Relaxation.AchieveGoals | SA_BE_Planification/FF-v2.3/relax.c:770-872 | carries these facts over a whole level; goals stay goals |
| Relax.Relaxation.AchieveAll | SA_BE_Planification/FF-v2.3/relax.c:690-697 | carries them from the highest goal level down to the first |
| Extraction.ScheduleRuns | SA_BE_Planification/FF-v2.3/relax.c:770-872 | taken by increasing level and in selection order within a level, the selected effects find their conditions true at their turn when nothing is deleted, and make every goal and subgoal true |
| Extraction.SchedulePermutes | SA_BE_Planification/FF-v2.3/relax.c:770-872 | that order takes every selected effect exactly once |
| Extraction.OpCountBound | SA_BE_Planification/FF-v2.3/relax.c:680-706 | a goal on level l makes at least l operators be counted |
| Extraction.OpCountCounts | SA_BE_Planification/FF-v2.3/relax.c:809-820 | the value is the number of pairs of a level and an operator used on it |
| Extraction.ExtractionDone | SA_BE_Planification/FF-v2.3/relax.c:662-706 | at the end of the extraction the relaxed plan has distinct live effects, runs from the state, reaches the goals, and the value is the number of its operators counted per level |
| Extraction.LevelsAreTrustworthy | SA_BE_Planification/FF-v2.3/relax.c:662-766 | the value is INFINITY exactly if the goals are out of reach without deletes, 0 exactly if they hold, and never less than the number of layers below them |
| Relax.Relaxation.CountDeletedGoals | SA_BE_Planification/FF-v2.3/relax.c:925-932 | the number of pairs of an effect of the operator that takes place in the evaluated state and a goal or subgoal that it deletes |
| Extraction.DeletedGoalsCount | SA_BE_Planification/FF-v2.3/relax.c:925-932 | counting effect by effect gives that number, the lists of a graph being free of repeats |
| Relax.Relaxation.SortH | SA_BE_Planification/FF-v2.3/relax.c:923-943 | the helpful operators end up sorted by the number of goals they delete, none lost and none twice |
| Relax.Relaxation.CollectHInfo | SA_BE_Planification/FF-v2.3/relax.c:876-952 | exactly the operators with an effect of the evaluated state that adds a goal of the first layer, each once, in the order the program gives them |
| Extraction.GoalHelps | SA_BE_Planification/FF-v2.3/relax.c:876-943 | a goal of the first layer has a helpful operator, so the list is not empty while the value is positive |
| Extraction.HelpfulIsUseful | SA_BE_Planification/FF-v2.3/relax.c:876-943 | a helpful operator can be applied in the evaluated state and adds a fact that is not yet true |
| Relax.Relaxation.Extract1P | SA_BE_Planification/FF-v2.3/relax.c:662-706 | the value, the relaxed plan and the list of helpful operators are those that the levels determine, whatever the scratch marks held before; if a goal has no level nothing else is claimed |
| Relax.Relaxation.Get1P | SA_BE_Planification/FF-v2.3/relax.c:221-267 | an evaluation: a trustworthy value, an executable relaxed plan, the helpful operators; all three depend on state and goals alone (`Value`, `RelaxedPlan`, `HelpfulOps`), order included; all marks of the fixpoint are as they were before the call |
| Selection.LevelsAreUnique | SA_BE_Planification/FF-v2.3/relax.c:359-439 | two evaluations of a state that reach the goals end after the same number of layers and with the same marks |
| Selection.ResultsAreFunctions | SA_BE_Planification/FF-v2.3/relax.c:662-952 | what the extraction finds from those marks, ties broken by the order of the graph's arrays, is one plan, one value and one list of helpful operators for each state and goal list |
| Selection.HelpfulAfterIs | SA_BE_Planification/FF-v2.3/relax.c:876-943 | the helpful operators, collected from the first goal list with the operators' own flags, are those of the goals that the extraction leaves behind; with no goal on a layer above the state there are none |
| Reasons.StartIs | SA_BE_Planification/FF-v2.3/relax.c:730-766 | the goals are entered in the list of their level, in their order, and the extraction starts at the highest of these levels |
| Reasons.SubgoalsAre | SA_BE_Planification/FF-v2.3/relax.c:822-841 | the conditions of a selected effect become goals unless they are goals already or true at this level; each is entered behind the goals of its own level, in the order of the conditions, and no list of this level or above changes |
| Reasons.AdderIs | SA_BE_Planification/FF-v2.3/relax.c:789-803 | every goal above the state has a first cheapest adder one level below it, which adds it and has conditions of lower levels only |
| Reasons.SelectionHasReasons | SA_BE_Planification/FF-v2.3/relax.c:770-872 | every selected effect is the first cheapest adder of the first goal of its level that nothing selected before makes true, every goal is served, and the goals are those given and the conditions that were not true when their effect was selected |
| Reasons.OneSelection | SA_BE_Planification/FF-v2.3/relax.c:770-872 | these reasons leave no choice: there is one selection, with one order of its effects and of the goals of each level |
| Reasons.ResultsHaveReasons | SA_BE_Planification/FF-v2.3/relax.c:662-952 | relaxed plan, value and helpful operators of a state come from this selection, with the levels of the fixpoint |
| Selection.CollectedInOrder | SA_BE_Planification/FF-v2.3/relax.c:893-915 | operators are collected in the order in which the goals of the first layer and their adders offer them, each where it comes first |
| Selection.OrderedInOrder | SA_BE_Planification/FF-v2.3/relax.c:923-943 | the sorted list has the same operators, those that delete fewer goals first, and of equal ones the last collected first |
| Relax.Relaxation.CollectAInfo | SA_BE_Planification/FF-v2.3/relax.c:297-324 | each operator of a listed effect, once, where its first effect stands |
| Relax.Relaxation.GetA | SA_BE_Planification/FF-v2.3/relax.c:271-324 | exactly the operators with an effect whose conditions hold in the state (or with a removed effect without conditions), in the order in which the facts of the state complete their effects; all marks as before the call |
| Transition.SameState | SA_BE_Planification/FF-v2.3/search.c:528-551 | true exactly if two duplicate-free lists hold the same facts |
| Transition.StateSum | SA_BE_Planification/FF-v2.3/search.c:555-567 | the sum of the random numbers of the facts |
| Transition.SumOfEqualStates | SA_BE_Planification/FF-v2.3/search.c:555-567 | states with the same facts have the same sum in whatever order these are listed, so the sum can index a table of states |
| Transition.Transitions.ConditionsHold | SA_BE_Planification/FF-v2.3/search.c:1104-1110 | whether an effect takes place, read off the flags of the source facts |
| Transition.Transitions.CollectDeletes | SA_BE_Planification/FF-v2.3/search.c:1101-1116 | the deleted facts, each once, and which effects take place |
| Transition.Transitions.KeepFacts | SA_BE_Planification/FF-v2.3/search.c:1118-1130 | exactly the source facts that are not deleted |
| Transition.Transitions.AddAll | SA_BE_Planification/FF-v2.3/search.c:1132-1148 | the adds of the effects that take place and are still missing, and the last global goal among the new facts |
| Transition.Transitions.ResultToDest | SA_BE_Planification/FF-v2.3/search.c:1067-1167 | the successor as a set is source minus deletes plus adds (adds win), listed without duplicates in an order that source and operator determine; the result is -1 exactly if no global goal is in it that was not kept from the source, else the last such goal; no flag stays up |
| Transition.ResultInOrder | SA_BE_Planification/FF-v2.3/search.c:1118-1148 | the facts kept stand in the order of the source, the new ones behind them in the order in which the effects add them |
| StateTable.OnlyOneChain | SA_BE_Planification/FF-v2.3/search.c:1010-1032 | looking only in the chain of the state's sum never misses it |
| StateTable.Search | SA_BE_Planification/FF-v2.3/search.c:1016-1028 | a chain is searched correctly although states are compared only when their sums agree |
| StateTable.Table.Hashed | SA_BE_Planification/FF-v2.3/search.c:1010-1032 | answers membership in the set of inserted states, however the facts are ordered |
| StateTable.Table.Insert | SA_BE_Planification/FF-v2.3/search.c:981-1006 | adds exactly this state to the set |
| EhcTable.RecycledTable.Hashed | SA_BE_Planification/FF-v2.3/search.c:500-524 | only the counted part of a recycled chain is consulted; answers membership in the set of states since the last reset |
| EhcTable.RecycledTable.Insert | SA_BE_Planification/FF-v2.3/search.c:438-496 | adds exactly this state, reusing a stale entry if there is one |
| EhcTable.RecycledTable.Reset | SA_BE_Planification/FF-v2.3/search.c:571-583 | the table is the empty set again, although no chain is shortened |
| Plans.StepsRun | SA_BE_Planification/FF-v2.3/search.c:927-953 | a step-by-step plan is a run of its operators from the first state to the last |
| Plans.PlanSolves | SA_BE_Planification/FF-v2.3/search.c:927-953 | such a plan refutes unsolvability |
| Plans.ExhaustedIsUnsolvable | SA_BE_Planification/FF-v2.3/search.c:815-881 | if every reached state is expanded, dead ends apart, and none has the goals, then no sequence of operators reaches them |
| Plans.NoPlan | SA_BE_Planification/FF-v2.3/search.c:815-881 | the induction over all operator sequences behind it |
| BestFirst.BestFirstSearch.FindPlace | SA_BE_Planification/FF-v2.3/search.c:904-906 | the place behind all open nodes with no larger value |
| BestFirst.BestFirstSearch.InsertNode | SA_BE_Planification/FF-v2.3/search.c:904-921 | keeps the open list sorted by value, equal ones by age, and the known states distinct |
| BestFirst.BestFirstSearch.TakeFirst | SA_BE_Planification/FF-v2.3/search.c:841-850 | the node taken has the least value of all open states |
| BestFirst.FirstIsLeast | SA_BE_Planification/FF-v2.3/search.c:904-921 | an open list sorted by value, and by age where values are equal, starts with a state of the least value |
| BestFirst.BestFirstSearch.AddToBfsSpace | SA_BE_Planification/FF-v2.3/search.c:885-923 | afterwards the state is known or a proven dead end; a new node carries the heuristic value of its state; a state that is known already changes nothing |
| BestFirst.BestFirstSearch.Expand | SA_BE_Planification/FF-v2.3/search.c:868-875 | only a node of the least value is expanded; afterwards every successor, by any operator whatever, is known or a proven dead end, and the new nodes are in the order of the operators collected, which is the one in which the facts of the state complete their effects |
| BestFirst.AllCovered | SA_BE_Planification/FF-v2.3/search.c:868-875 | an operator that get_A did not collect leads back to the state itself, so nothing is missed |
| BestFirst.SpaceExhausted | SA_BE_Planification/FF-v2.3/search.c:841-845 | an empty open list proves the problem unsolvable |
| BestFirst.BestFirstSearch.DoBestFirstSearch | SA_BE_Planification/FF-v2.3/search.c:815-881 | terminates; TRUE with a plan that runs step by step, visits no state twice and ends in the goals, or FALSE and no plan exists; nodes are expanded in the order of their values |
| BestFirst.BestFirstSearch.ExtractPlan | SA_BE_Planification/FF-v2.3/search.c:927-953 | the fathers followed backwards give such a plan in forward order |
| PlanTable.CurrentPlan.PlanStateHashed | SA_BE_Planification/FF-v2.3/search.c:713-734 | finds exactly the states of the current plan, not those that were removed |
| PlanTable.CurrentPlan.HashPlanState | SA_BE_Planification/FF-v2.3/search.c:670-709 | a removed entry of the same state is reused with its old link, else a new one is made; no other entry changes |
| PlanTable.CurrentPlan.RemoveBehind | SA_BE_Planification/FF-v2.3/search.c:625-632 | the removal ends exactly if the links behind the entry end, and then takes out exactly the entries on the way |
| PlanTable.CutIsEndless | SA_BE_Planification/FF-v2.3/search.c:625-632 | for every plan and every place of the cut: the removal never ends exactly if the link of the last plan state leads back into the plan |
| PlanTable.LinksCanLeadBack | SA_BE_Planification/FF-v2.3/search.c:614-709 | calls of the plan's own operations on a well-formed graph that lead to such a plan: append two states, cut them off, append them in the other order |
| PlanTable.CutOk | SA_BE_Planification/FF-v2.3/search.c:625-632 | a removal that ends leaves exactly the first part of the plan, in order |
| PlanTable.AppendOk | SA_BE_Planification/FF-v2.3/search.c:653-663 | appending keeps the links of the plan in order, with a new or a reused entry |
| PlanTable.CurrentPlan.CutBack | SA_BE_Planification/FF-v2.3/search.c:625-632 | operators and states of the plan are exactly the first part, and exactly the entries behind it are taken out; it fails to end exactly under the condition above |
| PlanTable.CurrentPlan.Append | SA_BE_Planification/FF-v2.3/search.c:653-663 | the plan is longer by one valid step into a state it did not contain; a state seen before gets its old entry with the old link, a new one an entry without link |
| HillClimbing.Climber.AddToEhcSpace | SA_BE_Planification/FF-v2.3/search.c:335-365 | the state is known afterwards; a known one changes nothing, a new one takes the next node, possibly a recycled one, with its depth and the last global goal that came in with it |
| HillClimbing.Climber.NewGoalGetsDeleted | SA_BE_Planification/FF-v2.3/search.c:765-782 | whether some effect of the last relaxed plan deletes the goal that came in |
| HillClimbing.Climber.AddHelpful | SA_BE_Planification/FF-v2.3/search.c:401-404 | what the helpful operators lead to is known afterwards, every one of them, and the new nodes are in the order of these operators |
| HillClimbing.Climber.IsDropped | SA_BE_Planification/FF-v2.3/search.c:386-395 | a node is dropped only as a dead end or because its relaxed plan deletes the goal that came in, and never missed in either case; that goal is the last global one in its state that its operator did not keep |
| HillClimbing.Climber.TryHelpful | SA_BE_Planification/FF-v2.3/search.c:401-406 | a node whose value is no better is left behind with all states its helpful operators lead to known |
| HillClimbing.Climber.ExpandFirstNode | SA_BE_Planification/FF-v2.3/search.c:369-410 | returns a smaller value with the node in place, or leaves exactly one node behind, dismissed: a dead end, a deleted new goal, or a value no better with all helpful successors known |
| HillClimbing.Climber.FindBetter | SA_BE_Planification/FF-v2.3/search.c:271-331 | terminates; every node passed on the way was dismissed, and only nodes with a value no better have sons |
| HillClimbing.Climber.BreadthFirst | SA_BE_Planification/FF-v2.3/search.c:271-331 | no better state means that the search was in vain: it reached all that the helpful operators of the start lead to, and dismissed every state it reached; else the relaxed plan of the better state does not delete the goal that came in |
| HillClimbing.Climber.WalkBack | SA_BE_Planification/FF-v2.3/search.c:625-640 | the nodes walked are new to the plan, up to the first one whose state is part of it |
| HillClimbing.Climber.ExtractPlanFragment | SA_BE_Planification/FF-v2.3/search.c:614-665 | the plan is valid again, visits no state twice, begins where it began and ends in the better state; else its links lead back. As long as no state that ever was in the plan had a smaller value, the end of the plan is a new entry and the removal ends |
| HillClimbing.Climber.SearchForBetterState | SA_BE_Planification/FF-v2.3/search.c:271-331 | terminates; Success with a strictly smaller value and the plan ending in that state, Failure with the search in vain and the plan untouched; falling values stay falling |
| HillClimbing.Climber.DoEnforcedHillClimbing | SA_BE_Planification/FF-v2.3/search.c:174-243 | terminates; Success: the plan ends with the goals true; Failure: they are not, and they are out of reach without deletes or the search from there was in vain; Endless: the links of the plan lead back, which never happens when the values have been falling to that of the start |
| Planner.ClimbAlongAgenda | SA_BE_Planification/FF-v2.3/main.c:690-701 | Success on all entries gives a plan from the initial state to all goals of the agenda, in steps of the transition function, without repeated states; Failure means that the goals of some first entries can be reached and that the climb was stuck on the way to those of the next one as well; Endless only with more than one entry and after the goals of the first one were reached |
| Planner.Solve | SA_BE_Planification/FF-v2.3/main.c:686-712 | Success: a valid plan, that of the climb unless it got stuck; Failure: no plan exists; Endless, the only other outcome, only with more than one agenda entry and links that lead back |
| Planner.SolveWithOrderings | SA_BE_Planification/FF-v2.3/main.c:668-723 | the same for the agenda built from any orderings of the goals; never Endless if nothing splits the goals |
| Agenda.ClosureIsExact | SA_BE_Planification/FF-v2.3/orderings.c:475-485 | what the closure loops yield is exactly reachability along the orderings |
| Agenda.CloseOrderings | SA_BE_Planification/FF-v2.3/orderings.c:475-485 | the matrix closed in place holds [i][k] exactly if a walk of orderings leads from i to k |
| Agenda.CountDegrees | SA_BE_Planification/FF-v2.3/orderings.c:490-499 | degree and hits are the cardinalities of the sets of earlier and later goals |
| Agenda.StrictDegree | SA_BE_Planification/FF-v2.3/orderings.c:490-499 | a goal strictly before another has the strictly smaller degree, and both are connected |
| Agenda.MutualDegree | SA_BE_Planification/FF-v2.3/orderings.c:490-499 | goals ordered both ways have the same degree |
| Agenda.FindSlot | SA_BE_Planification/FF-v2.3/orderings.c:509-514 | the place of the next goal: behind all goals it may stand behind and in front of the first it may not |
| Agenda.SortSlots | SA_BE_Planification/FF-v2.3/orderings.c:504-521 | the insertion sort yields every goal once, by degree, goals without orderings last, otherwise in the old order |
| Agenda.EntriesFollowSlots | SA_BE_Planification/FF-v2.3/orderings.c:525-556 | two goals share an entry exactly if they rank the same, and entries follow the ranks |
| Agenda.Sweep | SA_BE_Planification/FF-v2.3/orderings.c:525-556 | the entries cut the sorted goals into consecutive non-empty pieces, exactly where the rank changes |
| Agenda.AgendaOk | SA_BE_Planification/FF-v2.3/orderings.c:456-572 | sorted by those degrees and cut there, the agenda respects the orderings |
| Agenda.BuildGoalAgenda | SA_BE_Planification/FF-v2.3/orderings.c:456-572 | the entries partition the goals; strictly earlier goals are in strictly earlier entries, mutually ordered ones share an entry, unconnected ones are in the last entry and behind all connected ones |
| Agenda.AgendaIsRanked | SA_BE_Planification/FF-v2.3/orderings.c:456-572 | a goal is in no later entry than another exactly if it ranks no later: by the number of goals ordered before it less that of goals ordered after it, unconnected goals last; within an entry goals keep their order |
| Agenda.OneEntry | SA_BE_Planification/FF-v2.3/orderings.c:456-572 | the agenda has one entry exactly if every ordering that the goals reach goes both ways, and all of them are ordered with others or none is |
| Agenda.NoOrderings | SA_BE_Planification/FF-v2.3/orderings.c:456-485 | without orderings between different goals that is the case |
| Formulas.StaticAtoms | SA_BE_Planification/FF-v2.3/inst_pre.c:1499-1566 | an atom decided by the initial facts of a predicate that is never added or never deleted has that value in every state that respects these |
| Formulas.SimplifyMeans | SA_BE_Planification/FF-v2.3/inst_pre.c:1181-1342 | simplification keeps the meaning in every such state and under every assignment |
| Formulas.MergeMeans | SA_BE_Planification/FF-v2.3/inst_pre.c:1678-1741 | merging nested ANDs and ORs keeps the meaning |
| Formulas.TautologiesMean | SA_BE_Planification/FF-v2.3/inst_pre.c:1584-1674 | dropping repeated literals and deciding complementary ones keeps the meaning |
| Formulas.CleanupMeans | SA_BE_Planification/FF-v2.3/inst_pre.c:1570-1580 | so does the cleanup as a whole |
| Normalize.DecrementMeans | SA_BE_Planification/FF-v2.3/inst_pre.c:1136-1177 | renumbering the variables behind a removed one keeps the meaning when the assignment is shifted with it |
| Normalize.RemoveUnusedMeans | SA_BE_Planification/FF-v2.3/inst_pre.c:1038-1132 | removing quantifiers over unused variables keeps the meaning, types being inhabited |
| Normalize.SubstituteMeans | SA_BE_Planification/FF-v2.3/inst_pre.c:1446-1495 | a copy with a variable replaced by a constant means what the formula means with the variable bound to it |
| Normalize.ExpandMeans | SA_BE_Planification/FF-v2.3/inst_pre.c:1346-1442 | expanding a quantifier over the constants of its type, simplified on the way, keeps the meaning |
| Normalize.ExpandIsQuantifierFree | SA_BE_Planification/FF-v2.3/inst_pre.c:1346-1442 | no quantifier is left |
| Normalize.ExpandedUsesParameters | SA_BE_Planification/FF-v2.3/inst_pre.c:1346-1442 | nor any variable that one bound: a formula with d parameters uses these alone |
| Normalize.NotsDownMeans | SA_BE_Planification/FF-v2.3/inst_pre.c:1745-1807 | pushing negations down keeps the meaning and leaves them at atoms only |
| Normalize.NormalizeMeans | SA_BE_Planification/FF-v2.3/inst_pre.c:980-1034 | the whole normalisation keeps the typed first-order meaning in every state that respects the static predicates |
| NormalForm.AtomsDecided | SA_BE_Planification/FF-v2.3/inst_pre.c:1499-1566 | an atom becomes TRUE exactly if no state that respects the static facts makes it false for any values of its variables, and FALSE exactly if none makes it true and it is not one that initial facts match which all disagree on a repeated variable |
| NormalForm.OpenMeans | SA_BE_Planification/FF-v2.3/inst_pre.c:1499-1566 | an atom stays exactly if it can be false and can be true, or can be false and is matched only by initial facts that disagree on a repeated variable |
| NormalForm.RepeatsAreMissed | SA_BE_Planification/FF-v2.3/inst_pre.c:1547-1566 | such an atom: p(x, x) with the one initial fact p(0, 1) of a never-added predicate is never true and stays |
| NormalForm.SimplifyOpens | SA_BE_Planification/FF-v2.3/inst_pre.c:1303-1342 | simplification leaves no atom that the static facts decide in this sense, marked atoms of the input being open |
| NormalForm.SimplifyIsSimple | SA_BE_Planification/FF-v2.3/inst_pre.c:1181-1342 | simplification leaves a constant, or a formula without constants in which every AND and OR has two sons at least |
| NormalForm.SubstituteOpens | SA_BE_Planification/FF-v2.3/inst_pre.c:1402-1430 | putting in a constant decides every atom that is decided then |
| NormalForm.UnusedAreGone | SA_BE_Planification/FF-v2.3/inst_pre.c:1038-1132 | no quantifier over an unused variable is left |
| NormalForm.TautologiesGone | SA_BE_Planification/FF-v2.3/inst_pre.c:1584-1674 | after the pass no AND or OR has an atom twice or an atom with its negation among its sons |
| NormalForm.MergeIsFlat | SA_BE_Planification/FF-v2.3/inst_pre.c:1678-1741 | merging leaves no AND below an AND and no OR below an OR |
| NormalForm.CleanupForm | SA_BE_Planification/FF-v2.3/inst_pre.c:1570-1580 | the cleanup leaves no decided atom and no node below one of its own kind |
| NormalForm.NormalForms | SA_BE_Planification/FF-v2.3/inst_pre.c:980-1034 | a normalised formula has no quantifier, negations at atoms and constants only, no node below one of its own kind, and no atom that the static facts decide |
| Dnf.HittingSets.CollectHittingSets | SA_BE_Planification/FF-v2.3/inst_pre.c:2620-2656 | prepends the hitting sets to the shared list in the order of the program, and restores the shared set for the caller |
| Dnf.HitsAreChoices | SA_BE_Planification/FF-v2.3/inst_pre.c:2620-2656 | the hitting sets are exactly one choice of disjunct per conjunct, as many as the product of their numbers |
| Dnf.HitsMean | SA_BE_Planification/FF-v2.3/inst_pre.c:2620-2656 | some hitting set is true exactly if all conjuncts are |
| Dnf.CopyMeans | SA_BE_Planification/FF-v2.3/inst_pre.c:1446-1495 | a copied formula means the same although its sons come in reverse order |
| Dnf.DnfMeans | SA_BE_Planification/FF-v2.3/inst_pre.c:2551-2702 | multiplying out keeps the truth of every quantifier-free formula under every assignment |
| Dnf.DnfShape | SA_BE_Planification/FF-v2.3/inst_pre.c:2551-2702 | for a formula without negations the result has no OR below an AND |
| Dnf.CleanupShape | SA_BE_Planification/FF-v2.3/inst_pre.c:1570-1580 | the cleanup of such a result is flat: atoms, conjunctions of atoms, or a disjunction of these |
| Dnf.DnfIsRight | SA_BE_Planification/FF-v2.3/inst_pre.c:2253-2547 | conversion and cleanup give an equivalent formula that is_dnf accepts, for every negation-free input |
| Join.SelectParams | SA_BE_Planification/FF-v2.3/inst_easy.c:1189-1207 | the parameters that occur in no static precondition, each once |
| Join.EasyTemplates.MultiplyNonConstrained | SA_BE_Planification/FF-v2.3/inst_easy.c:1300-1354 | prepends the instantiations of the specification in the program's order, and the shared table is as it was |
| Join.EasyTemplates.EnterRow | SA_BE_Planification/FF-v2.3/inst_easy.c:1266-1287 | a row is taken exactly if its constants match and have the parameters' types; a variable that comes twice keeps its last constant, as in the program; other entries of the table stay |
| Join.EnteredRowIsExact | SA_BE_Planification/FF-v2.3/inst_easy.c:1266-1287 | the row entered is an instance of the precondition exactly if it has equal constants wherever a variable still free comes again |
| Join.EasyTemplates.UnifyInertiaPreconds | SA_BE_Planification/FF-v2.3/inst_easy.c:1238-1296 | the backtracking join: instantiations in the program's order, and the shared table is as it was |
| Join.MultipliedExact | SA_BE_Planification/FF-v2.3/inst_easy.c:1300-1354 | those are exactly the well-typed completions of the table, each once |
| Join.UnifiedExact | SA_BE_Planification/FF-v2.3/inst_easy.c:1238-1296 | if the initial facts agree where variables repeat, those are exactly the well-typed completions that satisfy the static preconditions from this one on, each once |
| Join.JoinIsFilter | SA_BE_Planification/FF-v2.3/inst_easy.c:1238-1354 | under the same condition, the join from an empty table yields exactly what a brute-force filter over all well-typed assignments keeps, each once |
| Join.RightIfAgreed | SA_BE_Planification/FF-v2.3/inst_easy.c:1168-1296 | an operator's templates are right if every initial fact that fits a static precondition agrees on its repeated variables; with one static precondition, exactly then |
| Join.OneDisagrees | SA_BE_Planification/FF-v2.3/inst_easy.c:1265-1284 | a fact that does not agree makes a template twice or makes one that does not satisfy the precondition |
| Join.MultiplyOpParameters | SA_BE_Planification/FF-v2.3/inst_easy.c:1168-1210 | for an operator: exactly the well-typed assignments whose static preconditions are initial facts, each once, if the initial facts agree on repeated variables; with one static precondition, exactly then |
| Join.RepeatedVariable | SA_BE_Planification/FF-v2.3/inst_easy.c:1265-1284 | the failing input: with the one static precondition p(x, x) and the one initial fact p(0, 1), the join makes the template x = 1 |
| FactAddress.FindMin | SA_BE_Planification/FF-v2.3/inst_final.c:390-404 | the first smallest type among the arguments left; it always exists |
| FactAddress.OneVisit | SA_BE_Planification/FF-v2.3/inst_final.c:389-411 | there is only one order of visit, so the address depends on nothing but the arguments |
| FactAddress.FullProduct | SA_BE_Planification/FF-v2.3/inst_final.c:131-141 | visiting all arguments, in whatever order, multiplies up to the size of the table |
| FactAddress.AddressesAreUnique | SA_BE_Planification/FF-v2.3/inst_final.c:378-415 | the address of a well-typed fact is below the table size, and no other well-typed fact of the predicate has it |
| FactAddress.FactAdress | SA_BE_Planification/FF-v2.3/inst_final.c:378-415 | the loop computes this address, with the arguments weighed by increasing type size |
| Reachability.Analysis.MarkInitial | SA_BE_Planification/FF-v2.3/inst_final.c:156-168 | initial facts are possibly true and not possibly false; nothing else changes |
| Reachability.Analysis.EasyLayer | SA_BE_Planification/FF-v2.3/inst_final.c:178-256 | the templates applicable at the start of the layer leave the list and become actions, which are applicable in the facts marked; without a new fact none is left that is applicable |
| Reachability.Analysis.HardLayer | SA_BE_Planification/FF-v2.3/inst_final.c:261-327 | the same for the hard templates, which are flagged; no flag is taken back |
| Reachability.Analysis.Fixpoint | SA_BE_Planification/FF-v2.3/inst_final.c:172-328 | terminates; exactly the templates applicable in the possible facts are actions, each once |
| Reachability.Analysis.CollectDeletes | SA_BE_Planification/FF-v2.3/inst_final.c:513-576 | deleted facts become possibly false, and relevant if also possibly true |
| Reachability.Analysis.Analyse | SA_BE_Planification/FF-v2.3/inst_final.c:113-576 | the whole analysis and numbering, with the possible facts the least set closed under the applicable templates |
| Reachability.ReachableIsPossible | SA_BE_Planification/FF-v2.3/inst_final.c:113-332 | every fact of every reachable state is marked possible, and every action applicable in one was emitted |
| Reachability.NumberingIsBijection | SA_BE_Planification/FF-v2.3/inst_final.c:500-576 | the numbers are a bijection between the facts both possibly true and possibly false and 0 to n-1; all other facts have -1 |
| FinalProblem.Keep | SA_BE_Planification/FF-v2.3/inst_final.c:783-804 | the loop that keeps relevant facts never writes a -1 |
| FinalProblem.CreateFinalAction | SA_BE_Planification/FF-v2.3/inst_final.c:819-1079 | the final action in the program's branches: always-true facts dropped, effects with an impossible condition skipped |
| FinalProblem.FinalActionFits | SA_BE_Planification/FF-v2.3/inst_final.c:819-1079 | its facts are below the number of relevant facts, and conditions stay duplicate-free |
| FinalProblem.CreateFinalActions | SA_BE_Planification/FF-v2.3/inst_final.c:808-1079 | the list of all final actions, in the order of the actions |
| FinalProblem.CreateFinalInitial | SA_BE_Planification/FF-v2.3/inst_final.c:783-804 | the final initial state: the numbers of exactly the relevant initial facts, each once |
| FinalProblem.AnalyseTemplates | SA_BE_Planification/FF-v2.3/inst_final.c:113-576 | analysis and numbering, run on any templates, leave the tables in the condition that the rest relies on |
| FinalProblem.SameStep | SA_BE_Planification/FF-v2.3/inst_final.c:783-1079 | in every state between the always-true and the possibly-true facts: the final action applies exactly if the template does, and its successor is the relevant part of the template's successor, which stays between |
| FinalProblem.RunIsKept | SA_BE_Planification/FF-v2.3/inst_final.c:783-1079 | every run of the grounded problem is, state by state, a run of the final one |
| FinalProblem.RunComesFrom | SA_BE_Planification/FF-v2.3/inst_final.c:783-1079 | every run of the final problem comes from a run of the grounded one |
| FinalProblem.SameSolvability | SA_BE_Planification/FF-v2.3/inst_final.c:500-1079 | the final problem is solvable exactly if the grounded one is |
| FinalProblem.CreateFinalGoal | SA_BE_Planification/FF-v2.3/inst_final.c:640-779 | the final goal (TRUE, FALSE, a fact list or disjuncts) holds of the relevant facts exactly where the goal holds, in every state between the bounds; its facts are numbered, lists are not empty |
| FinalProblem.SameReachability | SA_BE_Planification/FF-v2.3/inst_final.c:500-1079 | the final problem reaches its goal exactly if the grounded one does, for any goals that mean the same between the bounds |
| FinalProblem.ArtificialGoal | SA_BE_Planification/FF-v2.3/inst_final.c:659-709 | with a disjunctive goal, the artificial fact is reachable with the artificial actions exactly if some run makes a disjunct true |
| GraphBuilder.SameEffects | SA_BE_Planification/FF-v2.3/inst_final.c:1194-1218 | inclusion plus equal length finds exactly the later effects with the same conditions, these being duplicate-free |
| GraphBuilder.MergeClass | SA_BE_Planification/FF-v2.3/inst_final.c:1173-1288 | the merged effect has the conditions of its class, the adds that are not conditions and the deletes that are not re-added, each once, in the order in which the action gives the facts |
| GraphBuilder.MergedIsFaithful | SA_BE_Planification/FF-v2.3/inst_final.c:1173-1288 | in a state that meets its conditions it yields what the adds and deletes of its class yield |
| GraphBuilder.BuildEffects | SA_BE_Planification/FF-v2.3/inst_final.c:1168-1293 | the merged effects divide the effects of the action: every effect is in exactly one class, and effects with the same set of conditions are in the same; classes are in the order of their first effects |
| GraphBuilder.ClassIsConditions | SA_BE_Planification/FF-v2.3/inst_final.c:1168-1293 | two effects share a class exactly if they have the same set of conditions |
| GraphBuilder.RemoveUseless | SA_BE_Planification/FF-v2.3/inst_final.c:1296-1348 | an effect is removed exactly if it neither adds nor deletes, or no effect of the operator adds anything |
| GraphBuilder.SetImplied | SA_BE_Planification/FF-v2.3/inst_final.c:1350-1384 | I lists exactly the other effects of the operator whose conditions are included |
| GraphBuilder.BuildOp | SA_BE_Planification/FF-v2.3/inst_final.c:1160-1404 | one action: its operator lists exactly its remaining effects; everything built before stays |
| GraphBuilder.SweepCounts | SA_BE_Planification/FF-v2.3/inst_final.c:1386-1401 | what the first sweep adds to a fact's count is what the second pass will enter for it |
| GraphBuilder.BuildFacts | SA_BE_Planification/FF-v2.3/inst_final.c:1406-1437 | the fact arrays invert conditions, adds and deletes of the remaining effects and are filled exactly to the counts of the first sweep |
| GraphBuilder.BuildConnectivityGraph | SA_BE_Planification/FF-v2.3/inst_final.c:1111-1440 | the graph is well-formed in the sense the search relies on, and its effects stand for the classes of the actions; the effects of an operator and those of a fact are in ascending order |
| GraphBuilder.WholeAction | SA_BE_Planification/FF-v2.3/inst_final.c:1168-1293 | taken together the merged effects do what the action does, exactly in the states where no fact is lost: added only where it is needed, and deleted by an effect that does not go with an add of it |
| GraphBuilder.OperatorDoesAction | SA_BE_Planification/FF-v2.3/inst_final.c:1160-1404 | for every operator with effects and every state: its successor is the action's exactly if no fact is lost in it; said of the templates alone, whatever the classes |
| Soundness.DroppedExactly | SA_BE_Planification/FF-v2.3/inst_final.c:1296-1348 | an operator is left without effects exactly if no effect of its action adds a fact that it does not need |
| Soundness.DroppedStep | SA_BE_Planification/FF-v2.3/inst_final.c:1326-1348 | such an operator does what its action does exactly if the effects that take place delete nothing true that they do not add |
| Soundness.DroppedDeleter | SA_BE_Planification/FF-v2.3/inst_final.c:1326-1348 | such an action can still be needed, to switch a conditional effect off: two actions with a plan, and no graph built from them has one |
| Soundness.LostExactly | SA_BE_Planification/FF-v2.3/inst_final.c:1160-1404 | fact by fact: an operator with effects yields what its action yields, without the facts that are lost |
| Soundness.FactIsLost | SA_BE_Planification/FF-v2.3/inst_final.c:1233-1239 | a loss: the action keeps a fact that every graph built from it loses |
| Soundness.NeverLoses | SA_BE_Planification/FF-v2.3/inst_final.c:1233-1293 | no fact is lost in any state if facts that an effect needs and adds are deleted only along with an add of them |
| Soundness.StepsAreRun | SA_BE_Planification/FF-v2.3/search.c:815-953 | the steps of a plan for the graph are a run of the actions, exactly if none of them loses a fact in its state |
| Soundness.PlanIsReal | SA_BE_Planification/FF-v2.3/main.c:668-723 | a plan on which no fact is lost solves the problem of the actions |
| Soundness.GraphIsExact | SA_BE_Planification/FF-v2.3/inst_final.c:1111-1440 | the graph has a plan exactly if the actions have one: always without conditional effects, and else if no action re-adds what it deletes and the dropped ones delete nothing |
| Soundness.SearchedProblemIsExact | SA_BE_Planification/FF-v2.3/inst_final.c:500-1440 | from the templates to the graph, for a list of facts as the goal: under the same condition the searched problem is solvable exactly if the grounded one is |
| Soundness.SearchActions | SA_BE_Planification/FF-v2.3/main.c:668-723 | graph construction and search together: a plan is a run of the actions exactly if no fact is lost on it, and under the same condition Success means that they have a plan and Failure that they have none |
| Pipeline.Instantiate | SA_BE_Planification/FF-v2.3/inst_final.c:113-1079 | from templates to the problem that is searched: solvable exactly if some run of the templates makes a disjunct of the goal true; a goal decided at once is decided rightly |
| Pipeline.SearchProblem | SA_BE_Planification/FF-v2.3/main.c:654-712 | its search, for any orderings of the goals and any random numbers; the agenda is the one of these orderings |
| Pipeline.Plan | SA_BE_Planification/FF-v2.3/main.c:635-712 | the whole chain: for templates without conditional effects Success means that the goal can be reached and Failure that it cannot; in general the same if the actions built are harmless, and a plan on which no fact is lost is always real; without orderings between goals the outcome is never Endless |
| RwLock.StepKeeps | IN_TD_POSIX/ex3.c:156-231 | every step keeps: one writer or only readers, `n_readers` is the number of holders, `writers_waiting` that of waiting writers, a free lock with waiting writers has a signalled one, and no reader sleeps when readers may enter |
| RwLock.RunsAreSafe | IN_TD_POSIX/ex3.c:156-231 | so it holds at every point of every run, for any number of threads and with spurious wake-ups |
| RwLock.WritersExclude | IN_TD_POSIX/ex3.c:195-231 | a writer holds the lock alone: no second writer and no reader |
| RwLock.ReadersYield | IN_TD_POSIX/ex3.c:156-173 | a reader enters only if no writer waits, is signalled or writes |
| RwLock.ReadersOnlyLeave | IN_TD_POSIX/ex3.c:156-190 | while a writer waits, the set of readers only shrinks |
| RwLock.NoDeadlock | IN_TD_POSIX/ex3.c:156-231 | while some thread is in a call or holds the lock, some thread can make a step that is not a spurious wake-up |
| RwLock.EveryCallReturns | IN_TD_POSIX/ex3.c:156-231 | without new calls and spurious wake-ups every run is shorter than a bound computed from the state, and a run that cannot go on ends with all threads idle |
| RwLock.CallsBoundRuns | IN_TD_POSIX/ex3.c:156-231 | every stretch of a run is bounded linearly by its new calls and spurious wake-ups, so nothing waits forever without infinitely many of them |
| RwLock.ReadersCanStarve | IN_TD_POSIX/ex3.c:156-231 | the price of preferring writers: two writers in turn keep a reader out, in a run that comes back to where it began |
| RwLock.Lock.RLock | IN_TD_POSIX/ex3.c:156-173 | the code between two waits of r_lock is one step of the protocol, and says whether the lock was entered |
| RwLock.Lock.RUnlock | IN_TD_POSIX/ex3.c:176-190 | r_unlock is one step, whatever threads the signal wakes |
| RwLock.Lock.WLock | IN_TD_POSIX/ex3.c:195-212 | w_lock up to the first wait is one step |
| RwLock.Lock.WResume | IN_TD_POSIX/ex3.c:195-212 | w_lock after a wake-up is one step |
| RwLock.Lock.WUnlock | IN_TD_POSIX/ex3.c:215-231 | w_unlock is one step |
| ThreadPool.StepKeeps | IN_TD_Concurrent/threadpool.c:134-243 | every step keeps: tasks leave in the order of pushing, each taken one is in one worker's hands or was executed once, and while a worker sleeps the queue is no longer than the number of signalled workers |
| ThreadPool.RunsAreSafe | IN_TD_Concurrent/threadpool.c:134-286 | so it holds at every point of every run, for any number of workers and with spurious wake-ups |
| ThreadPool.LeavesOnlyWhenDone | IN_TD_Concurrent/threadpool.c:169-181 | a worker leaves only after the shutdown and with an empty queue |
| ThreadPool.AllExecuted | IN_TD_Concurrent/threadpool.c:222-243 | when all workers have left, exactly the tasks pushed were executed, each once, if and only if none was pushed after the last worker had left |
| ThreadPool.QueueOfGone | IN_TD_Concurrent/threadpool.c:134-243 | the queue that the workers leave behind is empty exactly if there was no such push, whether before or after the shutdown |
| ThreadPool.NoDeadlock | IN_TD_Concurrent/threadpool.c:163-202 | while there is a task or the pool is shut down, some worker can go on |
| ThreadPool.QueueDrains | IN_TD_Concurrent/threadpool.c:222-243 | workers left alone make a bounded number of steps; where they stop, every task pushed was executed unless all of them had left a queue behind before |
| ThreadPool.LateTasksStay | IN_TD_Concurrent/threadpool.c:134-160 | what is pushed when all workers have left stays in the queue for ever and is never executed |
| ThreadPool.TaskQueue.PushTask | IN_TD_Concurrent/threadpool.c:134-160 | the linked queue gains the task at its end and one waiting worker at least is woken, as one step of the protocol |
| ThreadPool.TaskQueue.PopTask | IN_TD_Concurrent/threadpool.c:163-202 | takes the first task, leaves, or waits, as one step of the protocol |
| ThreadPool.TaskQueue.FinishTask | IN_TD_Concurrent/threadpool.c:232-235 | the task in hand was executed, as one step of the protocol |
| ThreadPool.TaskQueue.ShutdownQueue | IN_TD_Concurrent/threadpool.c:280-286 | sets the flag and wakes all waiting workers, as one step of the protocol |

## Left out

The program's form:

- Linked lists of search nodes, plan entries and templates are sequences, and an address is a position; two names for one node, and memory reuse by address, are not modelled. The task queue of `ThreadPool` does have linked nodes.
- The mark fields of the graph's structs are one array per phase, and hash entries hold copies of states instead of pointers to them.
- The passes over formulas in `inst_pre.c` are recursive functions from tree to tree; the rewriting of nodes in place, and which nodes are shared or freed, is not modelled. The shared lists of `collect_hitting_sets` are sequences in a class.
- The limits `MAX_...` and the exits they cause, memory, printing, timing, and the `display_info` branches.
- `PlanTable.CurrentPlan.CutBack`: when the removal does not end, the model reports that and gives the table back; the program does not return at all.
- `HillClimbing.Climber.DoEnforcedHillClimbing`: does not say that the plan is short, nor that a search in vain means anything for the problem; it does not. With values that are not falling, as they may be from the second agenda entry on, Endless is characterised by the links alone.

The translation:

- Which values a variable takes: `NormalForm.AtomsDecided` ranges over all numbers, so an atom that is decided only because its variable has a type with few constants counts as open; the program does not look at types there.
- Equality atoms, the flag `visited` beyond its being carried along, and the exits on quantifiers in passes that come after their expansion (these are preconditions).
- `inst_hard.c`, the translation of negative conditions, the multiplication of effect parameters, the removal of static preconditions from the schemata after the join, names of actions.
- The order in which templates, actions and fact numbers come about: the model follows the program, but the results of the translation hold for any order and do not state it.
- The substitution of constants into templates: `Grounded` starts from templates over table addresses, and `FactAddress` says why addresses stand for facts.
- `FinalProblem.CreateFinalGoal`: the goal is given in disjunctive form; the cleanup's removal of repeated atoms and complementary disjuncts is covered by `Formulas.CleanupMeans` and not repeated there.
- `Reachability.Analysis.EasyLayer`: the list of easy templates is a sequence from which entries are taken.
- A removed effect without conditions is still listed by `relax.c`, so `Relax.Relaxation.GetA` may collect its operator; the model has this as it is, and such an operator changes nothing.
- `setup_E`, `possibly_achievable` and `build_False_set` in `orderings.c`: approximations without a specification. The agenda is proved for an arbitrary matrix.
- `Soundness.GraphIsExact`: one direction of its condition only. A fact lost or a delete dropped in some state need not make a solvable problem unsolvable, so for whole problems the condition is sufficient; for single steps and plans `Soundness.LostExactly`, `Soundness.DroppedStep` and `Soundness.StepsAreRun` are exact.
- `Join.MultiplyOpParameters`: with several static preconditions, agreement on repeated variables is sufficient only, because a second precondition may exclude the instances that a disagreeing fact makes.
- `Pipeline.Plan`: starts from given templates, with the orderings of the goals as a parameter; the goal is in disjunctive form.

The lock protocols:

- Creating and destroying mutexes, condition variables and threads, `thread_init` and `thread_count`, what tasks do, what readers and writers do while they hold the lock, and the failure of `malloc` in `pthread_queue_push`.
- Fairness: which thread a signal wakes and which one gets the mutex is arbitrary, so the liveness results bound the steps of every run instead of naming the thread that runs.

Everything else in the repository: parsers and generated scanners, sockets, MPI programs, RTEMS tasks, scripts and notebooks, Petri nets, data files.
