/** What plans for the graph say about the grounded problem. */
module Soundness {
  import opened Sequences
  import opened Connectivity
  import opened Plans
  import opened Grounded
  import opened Reachability
  import opened FinalProblem
  import opened GraphBuilder
  import Agenda
  import HillClimbing
  import Planner

  // ---- one action and its operator

  /** The merged effects of the `o`-th action. */
  ghost function BlockOf(g: Graph, starts: seq<nat>, o: nat): seq<EfConn>
    requires o + 1 < |starts| && starts[o] <= starts[o + 1] <= |g.efs|
  {
    g.efs[starts[o]..starts[o + 1]]
  }

  /** The graph as build_connectivity_graph leaves it behind for these actions. */
  ghost predicate BuiltFrom(g: Graph, actions: seq<Template>, starts: seq<nat>, classes: seq<seq<seq<nat>>>) {
    g.WellFormed() && |g.ops| == |actions| && Faithful(actions, g.efs, starts, classes)
  }

  /** The effect adds nothing but what it needs anyway. */
  ghost predicate AddsNothingNew(t: Template, e: Effect) {
    Elems(e.adds) <= Elems(t.preconds) + Elems(e.conditions)
  }

  ghost predicate OnlyDeletes(t: Template) {
    forall e :: e in t.effects ==> AddsNothingNew(t, e)
  }

  /** A fact that some effect needs and adds again is deleted, if at all, by effects that go together with
      an add of it. */
  ghost predicate NothingReAdded(t: Template) {
    forall e, d, f :: e in t.effects && d in t.effects && f in e.adds && f in Elems(t.preconds) + Elems(e.conditions) && f in d.dels ==>
      AddedAlongside(t, d, f)
  }

  /** Everything the action deletes it adds again under the same conditions. */
  ghost predicate DeletesNothing(t: Template) {
    forall d, f :: d in t.effects && f in d.dels ==> AddedAlongside(t, d, f)
  }

  /** The action has no conditional effects. */
  ghost predicate Unconditional(t: Template) {
    forall e :: e in t.effects ==> e.conditions == []
  }

  /** What a caller can check to know that the graph loses no plan and invents none: there are no
      conditional effects, or no action re-adds what it deletes and those that are dropped delete nothing. */
  ghost predicate Harmless(actions: seq<Template>) {
    || (forall i :: 0 <= i < |actions| ==> Unconditional(actions[i]))
    || (forall i :: 0 <= i < |actions| ==>
          NothingReAdded(actions[i]) && (OnlyDeletes(actions[i]) ==> DeletesNothing(actions[i])))
  }

  lemma UnconditionalAddsBack(t: Template)
    requires Unconditional(t)
    ensures NothingReAdded(t)
  {
    forall e, d, f | e in t.effects && d in t.effects && f in e.adds && f in d.dels
      ensures AddedAlongside(t, d, f)
    {
      assert Elems(e.conditions) == Elems(d.conditions);
    }
  }

  lemma ActionBlock(g: Graph, actions: seq<Template>, starts: seq<nat>, classes: seq<seq<seq<nat>>>, o: nat)
    requires BuiltFrom(g, actions, starts, classes) && o < |actions|
    ensures FaithfulAt(actions, g.efs, starts, classes, o)
    ensures Accounts(actions[o], classes[o], BlockOf(g, starts, o))
    ensures forall e: nat :: e in g.ops[o].E <==> starts[o] <= e < starts[o + 1] && !g.efs[e].removed
  {
    assert FaithfulAt(actions, g.efs, starts, classes, o);
    OperatorBlock(g, o, starts[o], starts[o + 1]);
  }

  /** An effect of the action and the merged effect that stands for it. */
  lemma ClassOf(t: Template, classes: seq<seq<nat>>, block: seq<EfConn>, e: Effect) returns (c: nat, j: nat)
    requires Represents(t, classes, block) && e in t.effects
    ensures c < |block| && j < |t.effects| && t.effects[j] == e && j in classes[c] && Merges(t, classes[c], block[c])
    ensures Elems(block[c].PC) == Elems(t.preconds) + Elems(e.conditions)
    ensures Elems(e.adds) <= ClassAdds(t, classes[c])
  {
    j :| j < |t.effects| && t.effects[j] == e;
    assert seq(|t.effects|, _ => true)[j];
    assert Taken(classes, j);
    c :| 0 <= c < |classes| && j in classes[c];
    assert Merges(t, classes[c], block[c]);
  }

  lemma MemberOf(t: Template, cls: seq<nat>, ef: EfConn, f: nat) returns (e: Effect)
    requires Merges(t, cls, ef) && f in ClassAdds(t, cls)
    ensures e in t.effects && f in e.adds && f in Elems(e.adds) && Elems(ef.PC) == Elems(t.preconds) + Elems(e.conditions)
  {
    var j :| j in cls && j < |t.effects| && f in t.effects[j].adds;
    e := t.effects[j];
  }

  lemma AllTaken(t: Template, classes: seq<seq<nat>>, block: seq<EfConn>)
    requires Represents(t, classes, block)
    ensures (forall c :: 0 <= c < |block| ==> block[c].A == []) <==> OnlyDeletes(t)
  {
    if OnlyDeletes(t) {
      forall c | 0 <= c < |block|
        ensures block[c].A == []
      {
        if block[c].A != [] {
          assert Merges(t, classes[c], block[c]);
          var f := block[c].A[0];
          assert f in Elems(block[c].A);
          var e := MemberOf(t, classes[c], block[c], f);
        }
      }
    }
    if forall c :: 0 <= c < |block| ==> block[c].A == [] {
      forall e | e in t.effects
        ensures AddsNothingNew(t, e)
      {
        var c, j := ClassOf(t, classes, block, e);
        assert forall f :: f in e.adds ==> f in Elems(block[c].A) + Elems(block[c].PC);
        assert block[c].A == [];
      }
    }
  }

  /** An operator is left without effects exactly if its action adds nothing but what it needs anyway. */
  lemma DroppedExactly(g: Graph, actions: seq<Template>, starts: seq<nat>, classes: seq<seq<seq<nat>>>, o: nat)
    requires BuiltFrom(g, actions, starts, classes) && o < |actions|
    ensures g.ops[o].E == [] <==> OnlyDeletes(actions[o])
  {
    hide OnlyDeletes, Represents, Merges, Faithful, FaithfulAt, Graph.WellFormed;
    ActionBlock(g, actions, starts, classes, o);
    var block := BlockOf(g, starts, o);
    AllTaken(actions[o], classes[o], block);
    assert forall c: nat :: c < |block| ==> block[c] == g.efs[starts[o] + c];
    if g.ops[o].E != [] {
      var e := g.ops[o].E[0];
      assert e in g.ops[o].E;
      assert block[e - starts[o]] == g.efs[e];
    }
    if c: nat :| c < |block| && block[c].A != [] {
      assert !block[c].removed;
      assert starts[o] + c in g.ops[o].E;
    }
  }

  lemma NeverLoses(t: Template, X: set<nat>)
    requires NothingReAdded(t)
    ensures !LosesSome(t, X)
  {
    hide AddedAlongside;
  }

  /** An operator without effects changes nothing, and its action does the same exactly if it deletes
      nothing that is true and not added. */
  lemma DroppedStep(g: Graph, actions: seq<Template>, starts: seq<nat>, classes: seq<seq<seq<nat>>>, o: nat, X: set<nat>)
    requires BuiltFrom(g, actions, starts, classes) && o < |actions| && g.ops[o].E == [] && actions[o].Applicable(X)
    ensures g.Result(o, X) == X && actions[o].Added(X) <= X
    ensures g.Result(o, X) == actions[o].Successor(X) <==> actions[o].Deleted(X) * X <= actions[o].Added(X)
  {
    DroppedExactly(g, actions, starts, classes, o);
    assert g.Adds(o, X) == {} && g.Dels(o, X) == {};
    NothingNew(actions[o], X);
    hide OnlyDeletes, Template.Added, Template.Deleted, BuiltFrom;
    var t := actions[o];
    if X == t.Successor(X) {
      forall f | f in t.Deleted(X) * X
        ensures f in t.Added(X)
      {
        assert f in t.Successor(X);
      }
    }
  }

  lemma NothingNew(t: Template, X: set<nat>)
    requires OnlyDeletes(t) && t.Applicable(X)
    ensures t.Added(X) <= X
  {
    forall f | f in t.Added(X)
      ensures f in X
    {
      var e :| e in t.effects && Elems(e.conditions) <= X && f in e.adds;
      assert AddsNothingNew(t, e) && f in Elems(e.adds);
    }
  }

  /** An operator that can be applied stands for an action that can. */
  lemma OperatorApplies(g: Graph, actions: seq<Template>, starts: seq<nat>, classes: seq<seq<seq<nat>>>, o: nat, X: set<nat>)
    requires BuiltFrom(g, actions, starts, classes) && g.Applicable(o, X)
    ensures o < |g.ops| == |actions| && g.ops[o].E != [] && actions[o].Applicable(X)
  {
    hide MergedInOrder, ClassesInOrder, Complete, Divides, Faithful, FaithfulAt, Graph.ImpliedOk, Graph.FactsOk;
    ActionBlock(g, actions, starts, classes, o);
    var e: nat :| g.Fires(o, e, X);
    var block := BlockOf(g, starts, o);
    var c: nat := e - starts[o];
    assert block[c] == g.efs[e];
    assert Merges(actions[o], classes[o][c], block[c]);
    var j := classes[o][c][0];
    assert j in classes[o][c];
  }

  /** The step of an operator that can be applied is the step of its action, unless this loses a fact. */
  lemma StepExactly(g: Graph, actions: seq<Template>, starts: seq<nat>, classes: seq<seq<seq<nat>>>, o: nat, X: set<nat>)
    requires BuiltFrom(g, actions, starts, classes) && g.Applicable(o, X)
    ensures o < |g.ops| == |actions| && actions[o].Applicable(X)
    ensures g.Result(o, X) == actions[o].Successor(X) <==> !LosesSome(actions[o], X)
  {
    OperatorApplies(g, actions, starts, classes, o, X);
    OperatorDoesAction(g, actions, starts, classes, o, X);
  }

  // ---- plans

  ghost function Sets(states: seq<seq<nat>>): (r: seq<set<nat>>)
    ensures |r| == |states| && forall i :: 0 <= i < |states| ==> r[i] == Elems(states[i])
  {
    seq(|states|, i requires 0 <= i < |states| => Elems(states[i]))
  }

  /** The steps of a plan for the graph are a run of the actions, exactly if none of these loses a fact
      in its state. */
  lemma StepsAreRun(g: Graph, actions: seq<Template>, starts: seq<nat>, classes: seq<seq<seq<nat>>>,
                    ops: seq<nat>, states: seq<seq<nat>>)
    requires BuiltFrom(g, actions, starts, classes) && Steps(g, ops, states)
    ensures Below(ops, |actions|)
    ensures Grounded.IsRun(actions, ops, Sets(states)) <==>
      forall i :: 0 <= i < |ops| ==> !LosesSome(actions[ops[i]], Elems(states[i]))
  {
    hide BuiltFrom, LosesSome, Graph.Applicable, Graph.Result, Elems, Template.Applicable, Template.Successor;
    forall i | 0 <= i < |ops|
      ensures ops[i] < |g.ops| == |actions| && actions[ops[i]].Applicable(Elems(states[i]))
      ensures g.Result(ops[i], Elems(states[i])) == actions[ops[i]].Successor(Elems(states[i])) <==>
        !LosesSome(actions[ops[i]], Elems(states[i]))
    {
      assert g.Applicable(ops[i], Elems(states[i]));
      StepExactly(g, actions, starts, classes, ops[i], Elems(states[i]));
    }
    if Grounded.IsRun(actions, ops, Sets(states)) {
      forall i | 0 <= i < |ops|
        ensures !LosesSome(actions[ops[i]], Elems(states[i]))
      {
        assert Sets(states)[i + 1] == actions[ops[i]].Successor(Sets(states)[i]);
      }
    }
  }

  /** A plan for the graph on which no fact is lost solves the problem of the actions. */
  lemma PlanIsReal(g: Graph, actions: seq<Template>, starts: seq<nat>, classes: seq<seq<seq<nat>>>,
                   init: set<nat>, goals: set<nat>, ops: seq<nat>, states: seq<seq<nat>>)
    requires BuiltFrom(g, actions, starts, classes) && IsPlan(g, init, goals, ops, states)
    requires forall i :: 0 <= i < |ops| ==> ops[i] < |actions| && !LosesSome(actions[ops[i]], Elems(states[i]))
    ensures Solvable(actions, init, goals)
  {
    StepsAreRun(g, actions, starts, classes, ops, states);
    hide BuiltFrom, LosesSome, Steps, NoRepeats, Elems;
    var sets := Sets(states);
    assert Grounded.IsRun(actions, ops, sets) && |sets| == |ops| + 1 && sets[0] == init && goals <= sets[|ops|];
  }

  // ---- no plan

  lemma SameNumber(g: Graph, actions: seq<Template>, starts: seq<nat>, classes: seq<seq<seq<nat>>>)
    requires BuiltFrom(g, actions, starts, classes)
    ensures |g.ops| == |actions| && g.OpsOk()
  {
  }

  /** Whatever the harmless actions do in a state, the graph does in any state that holds at least as much. */
  lemma ActionIsCovered(g: Graph, actions: seq<Template>, starts: seq<nat>, classes: seq<seq<seq<nat>>>, o: nat,
                        X: set<nat>, Y: set<nat>)
    requires BuiltFrom(g, actions, starts, classes) && o < |actions| && actions[o].Applicable(X)
    requires if Unconditional(actions[o]) then X <= Y
             else X == Y && NothingReAdded(actions[o]) && (OnlyDeletes(actions[o]) ==> DeletesNothing(actions[o]))
    ensures o < |g.ops| && actions[o].Successor(X) <= g.Result(o, Y)
    ensures X == Y && (OnlyDeletes(actions[o]) ==> DeletesNothing(actions[o])) ==> g.Result(o, Y) == actions[o].Successor(X)
  {
    var t := actions[o];
    DroppedExactly(g, actions, starts, classes, o);
    if Unconditional(t) {
      UnconditionalAddsBack(t);
      MoreIsMore(t, X, Y);
    }
    if g.ops[o].E == [] {
      DroppedStep(g, actions, starts, classes, o, Y);
      NothingNew(t, X);
      if DeletesNothing(t) {
        AllAddedAgain(t, Y);
      }
    } else {
      NeverLoses(t, Y);
      OperatorDoesAction(g, actions, starts, classes, o, Y);
    }
  }

  lemma MoreIsMore(t: Template, X: set<nat>, Y: set<nat>)
    requires Unconditional(t) && X <= Y
    ensures t.Added(X) == t.Added(Y) && t.Deleted(X) == t.Deleted(Y)
    ensures t.Successor(X) <= t.Successor(Y)
  {
    assert forall e :: e in t.effects ==> Elems(e.conditions) == {};
  }

  lemma AllAddedAgain(t: Template, X: set<nat>)
    requires DeletesNothing(t)
    ensures t.Deleted(X) <= t.Added(X)
  {
    forall f | f in t.Deleted(X)
      ensures f in t.Added(X)
    {
      var d :| d in t.effects && Elems(d.conditions) <= X && f in d.dels;
      assert AddedAlongside(t, d, f);
    }
  }

  /** A run of harmless actions, followed in the graph from a state that holds at least as much. */
  lemma {:induction false} RunIsFollowed(g: Graph, actions: seq<Template>, starts: seq<nat>,
                                         classes: seq<seq<seq<nat>>>, run: seq<nat>, states: seq<set<nat>>, Y: set<nat>)
    requires BuiltFrom(g, actions, starts, classes) && Harmless(actions) && Grounded.IsRun(actions, run, states)
    requires if forall i :: 0 <= i < |actions| ==> Unconditional(actions[i]) then states[0] <= Y else states[0] == Y
    ensures g.IsOpList(run) && states[|run|] <= g.Run(run, Y)
    decreases |run|
  {
    hide BuiltFrom, Unconditional, NothingReAdded, OnlyDeletes, DeletesNothing, Graph.Result, Template.Successor,
      Template.Applicable;
    SameNumber(g, actions, starts, classes);
    if run != [] {
      assert actions[run[0]].Applicable(states[0]);
      ActionIsCovered(g, actions, starts, classes, run[0], states[0], Y);
      RunIsFollowed(g, actions, starts, classes, run[1..], states[1..], g.Result(run[0], Y));
    }
  }

  /** A sequence of operators without those that change nothing, as a run of the actions. */
  lemma {:induction false} OperatorsAreRun(g: Graph, actions: seq<Template>, starts: seq<nat>,
                                           classes: seq<seq<seq<nat>>>, plan: seq<nat>, X: set<nat>)
    returns (run: seq<nat>, states: seq<set<nat>>)
    requires BuiltFrom(g, actions, starts, classes) && forall i :: 0 <= i < |actions| ==> NothingReAdded(actions[i])
    requires g.IsOpList(plan)
    ensures Grounded.IsRun(actions, run, states) && |states| == |run| + 1 && states[0] == X
    ensures states[|run|] == g.Run(plan, X)
    decreases |plan|
  {
    hide BuiltFrom, NothingReAdded, LosesSome, Graph.Result, Graph.OpsOk, Template.Successor, Template.Applicable,
      Graph.Applicable;
    SameNumber(g, actions, starts, classes);
    if plan == [] {
      run, states := [], [X];
    } else {
      var o := plan[0];
      run, states := OperatorsAreRun(g, actions, starts, classes, plan[1..], g.Result(o, X));
      if g.Applicable(o, X) {
        StepExactly(g, actions, starts, classes, o, X);
        NeverLoses(actions[o], X);
        RunPrepend(actions, o, X, run, states);
        run, states := [o] + run, [X] + states;
      } else {
        ChangeIsApplicable(g, o, X);
      }
    }
  }

  lemma RunPrepend(actions: seq<Template>, o: nat, X: set<nat>, run: seq<nat>, states: seq<set<nat>>)
    requires Grounded.IsRun(actions, run, states) && o < |actions|
    requires actions[o].Applicable(X) && states[0] == actions[o].Successor(X)
    ensures Grounded.IsRun(actions, [o] + run, [X] + states)
  {
    var r, s := [o] + run, [X] + states;
    forall i | 0 <= i < |r|
      ensures r[i] < |actions| && actions[r[i]].Applicable(s[i]) && s[i + 1] == actions[r[i]].Successor(s[i])
    {
      assert i > 0 ==> r[i] == run[i - 1] && s[i] == states[i - 1];
    }
  }

  lemma HarmlessAddsBack(actions: seq<Template>)
    requires Harmless(actions)
    ensures forall i :: 0 <= i < |actions| ==> NothingReAdded(actions[i])
  {
    hide NothingReAdded, Unconditional;
    if forall i :: 0 <= i < |actions| ==> Unconditional(actions[i]) {
      forall i | 0 <= i < |actions|
        ensures NothingReAdded(actions[i])
      {
        UnconditionalAddsBack(actions[i]);
      }
    }
  }

  /** For harmless actions, the graph has a plan exactly if the actions have one. */
  lemma GraphIsExact(g: Graph, actions: seq<Template>, starts: seq<nat>, classes: seq<seq<seq<nat>>>,
                     init: set<nat>, goals: set<nat>)
    requires BuiltFrom(g, actions, starts, classes) && Harmless(actions)
    ensures g.Unsolvable(init, goals) <==> !Solvable(actions, init, goals)
  {
    HarmlessAddsBack(actions);
    hide BuiltFrom, Harmless, NothingReAdded, Graph.Run, Grounded.IsRun;
    if Solvable(actions, init, goals) {
      var run, states :| Grounded.IsRun(actions, run, states) && |states| == |run| + 1 && states[0] == init
        && goals <= states[|run|];
      RunIsFollowed(g, actions, starts, classes, run, states, init);
    }
    if !g.Unsolvable(init, goals) {
      var plan :| g.IsOpList(plan) && goals <= g.Run(plan, init);
      var run, states := OperatorsAreRun(g, actions, starts, classes, plan, init);
    }
  }

  /** From the templates to the search: when the final actions are harmless, the problem that the search
      works on is solvable exactly if the grounded problem is. */
  lemma SearchedProblemIsExact(T: Tables, ts: seq<Template>, ids: seq<nat>, P: set<nat>, goal: seq<nat>,
                               g: Graph, starts: seq<nat>, classes: seq<seq<seq<nat>>>)
    requires Analysed(T, ts, ids, P) && AllPossible(T, goal)
    requires forall k :: 0 <= k < |ids| ==> T.IsAction(ts[ids[k]])
    requires BuiltFrom(g, FinalActions(T, ts, ids), starts, classes) && Harmless(FinalActions(T, ts, ids))
    ensures g.Unsolvable(Numbered(T, T.I), Numbered(T, Elems(goal))) <==> !Solvable(ts, T.I, Elems(goal))
  {
    hide BuiltFrom, Harmless, Solvable, AllPossible, Numbered;
    SameSolvability(T, ts, ids, P, goal);
    GraphIsExact(g, FinalActions(T, ts, ids), starts, classes, Numbered(T, T.I), Numbered(T, Elems(goal)));
  }

  // ---- what the removal of deleting effects costs

  const DELETER := Template([], [Effect([], [], [0])])
  const ACHIEVER := Template([], [Effect([], [2], []), Effect([0], [], [1])])

  ghost predicate Stuck(X: set<nat>) {
    0 in X && !({1, 2} <= X)
  }

  lemma StuckStep(g: Graph, starts: seq<nat>, classes: seq<seq<seq<nat>>>, o: nat, X: set<nat>)
    requires BuiltFrom(g, [DELETER, ACHIEVER], starts, classes) && o < |g.ops| && Stuck(X)
    ensures Stuck(g.Result(o, X))
  {
    var actions := [DELETER, ACHIEVER];
    if o == 0 {
      DroppedExactly(g, actions, starts, classes, 0);
      assert g.Adds(0, X) == {} && g.Dels(0, X) == {};
    } else if g.Applicable(1, X) {
      NeverLoses(ACHIEVER, X);
      StepExactly(g, actions, starts, classes, 1, X);
      AchieverStep(X);
    } else {
      ChangeIsApplicable(g, 1, X);
    }
  }

  lemma AchieverStep(X: set<nat>)
    ensures 0 in X ==> ACHIEVER.Successor(X) == X - {1} + {2}
    ensures 0 !in X ==> ACHIEVER.Successor(X) == X + {2}
  {
    var e, d := ACHIEVER.effects[0], ACHIEVER.effects[1];
    assert e in ACHIEVER.effects && d in ACHIEVER.effects && 2 in e.adds && 1 in d.dels && Elems(e.conditions) == {};
    assert Elems(d.conditions) == {0};
    assert ACHIEVER.Added(X) == {2};
    assert ACHIEVER.Deleted(X) == if 0 in X then {1} else {};
  }

  lemma DeleterStep(X: set<nat>)
    ensures DELETER.Successor(X) == X - {0}
  {
    var e := DELETER.effects[0];
    assert e in DELETER.effects && 0 in e.dels && Elems(e.conditions) == {};
    assert DELETER.Added(X) == {} && DELETER.Deleted(X) == {0};
  }

  lemma {:induction false} StaysStuck(g: Graph, starts: seq<nat>, classes: seq<seq<seq<nat>>>, plan: seq<nat>, X: set<nat>)
    requires BuiltFrom(g, [DELETER, ACHIEVER], starts, classes) && g.IsOpList(plan) && Stuck(X)
    ensures Stuck(g.Run(plan, X))
    decreases |plan|
  {
    hide BuiltFrom, Graph.Result, Stuck;
    if plan != [] {
      StuckStep(g, starts, classes, plan[0], X);
      StaysStuck(g, starts, classes, plan[1..], g.Result(plan[0], X));
    }
  }

  /** An action that only deletes can be needed, to keep a conditional effect of another action from
      taking place; but the graph leaves its operator without effects. The actions have a plan for facts
      1 and 2, and whatever graph is built from them has none. */
  lemma DroppedDeleter(g: Graph, starts: seq<nat>, classes: seq<seq<seq<nat>>>)
    requires BuiltFrom(g, [DELETER, ACHIEVER], starts, classes)
    ensures Solvable([DELETER, ACHIEVER], {0, 1}, {1, 2})
    ensures g.Unsolvable({0, 1}, {1, 2})
  {
    var states := [{0, 1}, {1}, {1, 2}];
    DeleterStep({0, 1});
    AchieverStep({1});
    assert Grounded.IsRun([DELETER, ACHIEVER], [0, 1], states) && |states| == 3;
    forall plan | g.IsOpList(plan)
      ensures !({1, 2} <= g.Run(plan, {0, 1}))
    {
      StaysStuck(g, starts, classes, plan, {0, 1});
    }
  }

  const CONFLICTING := Template([], [Effect([0], [0], []), Effect([], [1], [0])])

  lemma ConflictingStep()
    ensures CONFLICTING.Applicable({0}) && CONFLICTING.Successor({0}) == {0, 1} && !OnlyDeletes(CONFLICTING)
    ensures Loses(CONFLICTING, {0}, 0) && !Loses(CONFLICTING, {0}, 1)
  {
    var X := {0};
    var e, d := CONFLICTING.effects[0], CONFLICTING.effects[1];
    assert e in CONFLICTING.effects && d in CONFLICTING.effects && 0 in e.adds && 1 in d.adds && 0 in d.dels;
    assert Elems(e.conditions) == {0} && Elems(d.conditions) == {};
    assert CONFLICTING.Added(X) == {0, 1} && CONFLICTING.Deleted(X) == {0};
    assert !AddsNothingNew(CONFLICTING, d) by {
      assert 1 in Elems(d.adds);
    }
  }

  /** A loss: one effect adds fact 0 where it is true, another deletes it. The action keeps the fact, and
      whatever graph is built from it loses it. */
  lemma FactIsLost(g: Graph, starts: seq<nat>, classes: seq<seq<seq<nat>>>)
    requires BuiltFrom(g, [CONFLICTING], starts, classes)
    ensures CONFLICTING.Successor({0}) == {0, 1} && g.Result(0, {0}) == {1}
  {
    ConflictingStep();
    SameNumber(g, [CONFLICTING], starts, classes);
    hide BuiltFrom, OnlyDeletes, Loses, Graph.Result, Template.Successor, Template.Applicable, Graph.OpsOk;
    DroppedExactly(g, [CONFLICTING], starts, classes, 0);
    LostExactly(g, [CONFLICTING], starts, classes, 0, {0});
    assert forall f: nat :: f in g.Result(0, {0}) <==> f == 1;
  }

  /** Fact by fact: an operator with effects does what its action does, but for the facts that are lost. */
  lemma LostExactly(g: Graph, actions: seq<Template>, starts: seq<nat>, classes: seq<seq<seq<nat>>>, o: nat, X: set<nat>)
    requires BuiltFrom(g, actions, starts, classes) && o < |actions| && g.ops[o].E != [] && actions[o].Applicable(X)
    ensures forall f :: f in g.Result(o, X) <==> f in actions[o].Successor(X) && !Loses(actions[o], X, f)
  {
    KeptEffects(g, actions, starts, classes, o, X);
    hide Graph.Adds, Graph.Dels, Graph.WellFormed, BlockAdds, BlockDels, Represents, Template.Successor, Loses;
    var block := g.efs[starts[o]..starts[o + 1]];
    forall f: nat
      ensures f in g.Result(o, X) <==> f in actions[o].Successor(X) && !Loses(actions[o], X, f)
    {
      OneFact(actions[o], classes[o], block, X, f);
      ConflictIsLoss(actions[o], classes[o], block, X, f);
      LostWasAdded(actions[o], X, f);
    }
  }

  lemma LostWasAdded(t: Template, X: set<nat>, f: nat)
    ensures Loses(t, X, f) ==> f in t.Successor(X)
  {
  }

  // ---- the search

  /** No step of the plan loses a fact. */
  ghost predicate NothingLost(actions: seq<Template>, ops: seq<nat>, states: seq<seq<nat>>) {
    |ops| <= |states| && Below(ops, |actions|) && forall i :: 0 <= i < |ops| ==> !LosesSome(actions[ops[i]], Elems(states[i]))
  }

  lemma HarmlessLosesNothing(actions: seq<Template>, ops: seq<nat>, states: seq<seq<nat>>)
    requires Harmless(actions) && |ops| <= |states| && Below(ops, |actions|)
    ensures NothingLost(actions, ops, states)
  {
    HarmlessAddsBack(actions);
    hide NothingReAdded, LosesSome, Elems;
    forall i | 0 <= i < |ops|
      ensures !LosesSome(actions[ops[i]], Elems(states[i]))
    {
      NeverLoses(actions[ops[i]], Elems(states[i]));
    }
  }

  /** The search over the graph of some actions: a plan is a run of the actions to the goals, exactly if
      no fact is lost on it; and for harmless actions a failure means that there is none. */
  method SearchActions(actions: seq<Template>, n: nat, init: seq<nat>, goals: seq<nat>, rand: nat -> nat, lm: array2<bool>)
    returns (outcome: HillClimbing.Outcome, ops: seq<nat>, states: seq<seq<nat>>, g: Graph,
             agenda: seq<seq<nat>>, ghost starts: seq<nat>, ghost classes: seq<seq<seq<nat>>>, ghost c: HillClimbing.Climber)
    requires forall i :: 0 <= i < |actions| ==> actions[i].Within(n)
    requires forall i, j :: 0 <= i < |actions| && 0 <= j < |actions[i].effects| ==> Distinct(actions[i].effects[j].conditions)
    requires Below(init, n) && Distinct(init) && Below(goals, n) && Distinct(goals)
    requires lm.Length0 == lm.Length1 == |goals| > 0 && forall a :: 0 <= a < lm.Length0 ==> lm[a, a]
    modifies lm
    ensures BuiltFrom(g, actions, starts, classes) && Agenda.Follows(old(Agenda.Rows(lm)), goals, agenda)
    ensures (outcome.Success? && ops != c.plan.gplanOps) || outcome.Failure? ==> Planner.Stuck(g, Elems(init), agenda, c)
    ensures outcome.Success? ==>
      && IsPlan(g, Elems(init), Elems(goals), ops, states)
      && (Grounded.IsRun(actions, ops, Sets(states)) <==> NothingLost(actions, ops, states))
    ensures outcome.Success? && Harmless(actions) ==> NothingLost(actions, ops, states)
    ensures outcome.Success? && NothingLost(actions, ops, states) ==> Solvable(actions, Elems(init), Elems(goals))
    ensures outcome.Endless? ==> !old(Agenda.Unsplit(Agenda.Rows(lm), |goals|))
    ensures outcome.Failure? && Harmless(actions) ==> !Solvable(actions, Elems(init), Elems(goals))
  {
    g, starts, classes := BuildConnectivityGraph(actions, n, goals, rand);
    outcome, ops, states, agenda, c := Planner.SolveWithOrderings(g, init, goals, lm);
    hide Harmless, LosesSome, Elems, Solvable, Graph.WellFormed, Faithful, Agenda.Unsplit, Agenda.Follows, Planner.Stuck;
    if outcome.Success? {
      StepsAreRun(g, actions, starts, classes, ops, states);
      if NothingLost(actions, ops, states) {
        PlanIsReal(g, actions, starts, classes, Elems(init), Elems(goals), ops, states);
      }
      if Harmless(actions) {
        HarmlessLosesNothing(actions, ops, states);
      }
    }
    if Harmless(actions) {
      GraphIsExact(g, actions, starts, classes, Elems(init), Elems(goals));
    }
  }
}
