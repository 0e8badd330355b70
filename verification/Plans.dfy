/** Plans, and when a set of explored states proves that there is none. */
module Plans {
  import opened Sequences
  import opened Connectivity
  import opened Layers
  import opened Transition

  /** The operators lead step by step through the states: each one can be applied in its state
      and yields the next state, as sets of facts. */
  ghost predicate Steps(g: Graph, ops: seq<nat>, states: seq<seq<nat>>) {
    && |states| == |ops| + 1
    && forall i :: 0 <= i < |ops| ==>
      && g.Applicable(ops[i], Elems(states[i]))
      && Elems(states[i + 1]) == g.Result(ops[i], Elems(states[i]))
  }

  ghost predicate NoRepeats(states: seq<seq<nat>>) {
    forall i, j :: 0 <= i < j < |states| ==> Elems(states[i]) != Elems(states[j])
  }

  /** A plan from `init` to `goals` that visits no state twice. */
  ghost predicate IsPlan(g: Graph, init: set<nat>, goals: set<nat>, ops: seq<nat>, states: seq<seq<nat>>) {
    && Steps(g, ops, states) && NoRepeats(states)
    && Elems(states[0]) == init && goals <= Elems(states[|ops|])
  }

  lemma StepsPrepend(g: Graph, ops: seq<nat>, states: seq<seq<nat>>, o: nat, S: seq<nat>)
    requires Steps(g, ops, states) && g.Applicable(o, Elems(S)) && Elems(states[0]) == g.Result(o, Elems(S))
    ensures Steps(g, [o] + ops, [S] + states)
  {
    hide Elems, Graph.Result;
    forall i | 0 <= i < |ops| + 1
      ensures g.Applicable(([o] + ops)[i], Elems(([S] + states)[i]))
      ensures Elems(([S] + states)[i + 1]) == g.Result(([o] + ops)[i], Elems(([S] + states)[i]))
    {
      assert i > 0 ==> g.Applicable(ops[i - 1], Elems(states[i - 1]));
    }
  }

  /** Such a plan is a run of the operators, from the first state to the last. */
  lemma {:induction false} StepsRun(g: Graph, ops: seq<nat>, states: seq<seq<nat>>)
    requires Steps(g, ops, states)
    ensures g.IsOpList(ops) && g.Run(ops, Elems(states[0])) == Elems(states[|ops|])
    decreases |ops|
  {
    if ops != [] {
      assert g.Applicable(ops[0], Elems(states[0]));
      StepsRun(g, ops[1..], states[1..]);
    }
  }

  lemma PlanSolves(g: Graph, init: set<nat>, goals: set<nat>, ops: seq<nat>, states: seq<seq<nat>>)
    requires IsPlan(g, init, goals, ops, states)
    ensures g.IsOpList(ops) && goals <= g.Run(ops, init) && !g.Unsolvable(init, goals)
  {
    StepsRun(g, ops, states);
  }

  /** A transition into a new state fires an effect. */
  lemma ChangeIsApplicable(g: Graph, o: nat, X: set<nat>)
    requires g.OpsOk() && o < |g.ops|
    ensures g.Result(o, X) != X ==> g.Applicable(o, X)
  {
    if !g.Applicable(o, X) {
      assert g.Adds(o, X) == {} && g.Dels(o, X) == {};
    }
  }

  // ---- exhaustion

  ghost function With(X: set<nat>, f: nat): set<nat> {
    X + {f}
  }

  ghost function WithAll(A: set<set<nat>>, f: nat): set<set<nat>> {
    set X | X in A :: With(X, f)
  }

  /** All sets of facts below `n`. */
  ghost function Subsets(n: nat): set<set<nat>> {
    if n == 0 then {{}} else Subsets(n - 1) + WithAll(Subsets(n - 1), n - 1)
  }

  lemma {:induction false} StatesAreSubsets(X: set<nat>, n: nat)
    requires forall f :: f in X ==> f < n
    ensures X in Subsets(n)
  {
    if n == 0 {
      assert X == {};
    } else {
      StatesAreSubsets(X - {n - 1}, n - 1);
      if n - 1 in X {
        assert X == With(X - {n - 1}, n - 1);
      } else {
        assert X == X - {n - 1};
      }
    }
  }

  /** The state needs no further search: it was reached, or it is a dead end even without deletes. */
  ghost predicate Covered(g: Graph, members: set<set<nat>>, goals: set<nat>, X: set<nat>) {
    X in members || RelaxedUnreachable(g, X, goals)
  }

  /** Every successor of the state is covered. */
  ghost predicate Expanded(g: Graph, members: set<set<nat>>, goals: set<nat>, X: set<nat>) {
    forall o :: 0 <= o < |g.ops| ==> Covered(g, members, goals, g.Result(o, X))
  }

  /** When all reached states are expanded and none has the goals, there is no plan. */
  lemma ExhaustedIsUnsolvable(g: Graph, members: set<set<nat>>, goals: set<nat>, X: set<nat>)
    requires g.OpsOk() && Covered(g, members, goals, X)
    requires forall Y :: Y in members ==> Expanded(g, members, goals, Y) && !(goals <= Y)
    ensures g.Unsolvable(X, goals)
  {
    forall plan | g.IsOpList(plan)
      ensures !(goals <= g.Run(plan, X))
    {
      NoPlan(g, members, goals, X, plan);
    }
  }

  lemma {:induction false} NoPlan(g: Graph, members: set<set<nat>>, goals: set<nat>, X: set<nat>, plan: seq<nat>)
    requires g.OpsOk() && g.IsOpList(plan) && Covered(g, members, goals, X)
    requires forall Y :: Y in members ==> Expanded(g, members, goals, Y) && !(goals <= Y)
    ensures !(goals <= g.Run(plan, X))
    decreases |plan|
  {
    if X !in members {
      DeadEndIsSafe(g, X, goals);
    } else if plan != [] {
      NoPlan(g, members, goals, g.Result(plan[0], X), plan[1..]);
    }
  }
}
