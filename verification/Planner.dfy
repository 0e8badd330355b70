/** The search part of main.c, with both searches. */
module Planner {
  import opened Sequences
  import opened Connectivity
  import opened Layers
  import opened Selection
  import opened Transition
  import opened Plans
  import opened PlanTable
  import opened HillClimbing
  import opened BestFirst
  import opened Agenda

  /** Hill-climbing cannot go on from the state `X`. */
  ghost predicate IsStuck(g: Graph, X: set<nat>, space: seq<EhcNode>, n: nat, goals: seq<nat>) {
    RelaxedUnreachable(g, X, Elems(goals)) || InVain(g, X, space, n, goals, Value(g, X, goals))
  }

  /** Hill-climbing had reached the goals of the first entries, and was stuck on the way to those of the next one. */
  ghost predicate GotStuck(g: Graph, init: set<nat>, agenda: seq<seq<nat>>, X: set<nat>, space: seq<EhcNode>, n: nat) {
    exists i :: 0 <= i < |agenda| && !g.Unsolvable(init, Elems(GoalsUpTo(agenda, i))) && IsStuck(g, X, space, n, GoalsUpTo(agenda, i + 1))
  }

  lemma NoGoalsNoProblem(g: Graph, init: set<nat>)
    ensures !g.Unsolvable(init, {})
  {
    assert g.IsOpList([]) && {} <= g.Run([], init);
  }

  /** Where the climber stands when it gives up. */
  ghost predicate Stuck(g: Graph, init: set<nat>, agenda: seq<seq<nat>>, c: Climber)
    reads c, c.plan
  {
    |c.plan.gplanOps| < |c.plan.gplanStates| && GotStuck(g, init, agenda, Elems(c.plan.gplanStates[|c.plan.gplanOps|]), c.space, c.curEnd)
  }

  /** Solve the agenda entry by entry, each time for all goals so far. */
  method ClimbAlongAgenda(g: Graph, init: seq<nat>, agenda: seq<seq<nat>>)
    returns (outcome: Outcome, ops: seq<nat>, states: seq<seq<nat>>, ghost c: Climber)
    requires g.WellFormed() && StateOk(g, init) && agenda != []
    requires forall i :: 0 <= i < |agenda| ==> g.IsList(agenda[i])
    ensures outcome == Success ==> IsPlan(g, Elems(init), Elems(GoalsUpTo(agenda, |agenda|)), ops, states)
    ensures outcome == Success ==> ops == c.plan.gplanOps && states == c.plan.gplanStates
    ensures outcome == Failure ==> Stuck(g, Elems(init), agenda, c)
    ensures outcome == Endless ==> c.plan.Valid() && c.plan.LinksBack()
    ensures outcome == Endless ==> |agenda| > 1 && !g.Unsolvable(Elems(init), Elems(agenda[0]))
  {
    hide Graph.WellFormed, Climber.PartsOk, PlanOk, IsPlan, Falling, Value, Graph.Unsolvable, InVain, RelaxedUnreachable,
      CurrentPlan.LinksBack;
    NoGoalsNoProblem(g, Elems(init));
    assert Elems(GoalsUpTo(agenda, 0)) == {};
    var climber := new Climber(g, init);
    c := climber;
    var currentStart, currentEnd := init, agenda[0];
    assert GoalsUpTo(agenda, 1) == agenda[0];
    ops, states := [], [];
    c.EndOfPlan();
    for i := 0 to |agenda|
      invariant c == climber && c.PartsOk() && c.g == g && c.table.members == {}
      invariant c.PlanEndsIn(currentStart) && c.plan.gplanStates != [] && Elems(c.plan.gplanStates[0]) == Elems(init)
      invariant currentEnd == GoalsUpTo(agenda, if i < |agenda| then i + 1 else i) && g.IsList(currentEnd)
      invariant i == 0 ==> Falling(g, c.plan.entries, c.plan.live, currentEnd, Value(g, Elems(currentStart), currentEnd))
      invariant !g.Unsolvable(Elems(init), Elems(GoalsUpTo(agenda, i)))
      invariant i > 0 ==> !g.Unsolvable(Elems(init), Elems(agenda[0]))
      invariant i == |agenda| ==> Elems(currentEnd) <= Elems(currentStart)
      invariant fresh(c) && fresh(c.rx) && fresh(c.rx.ft) && fresh(c.rx.ef) && fresh(c.rx.fp) && fresh(c.rx.inPlan)
      invariant fresh(c.rx.om) && fresh(c.tr.Frame()) && fresh(c.table.Frame()) && fresh(c.plan) && fresh(c.plan.heads)
    {
      outcome := climber.DoEnforcedHillClimbing(currentStart, currentEnd);
      c.EndOfPlan();
      if outcome != Success {
        if outcome == Failure {
          assert IsStuck(g, Elems(c.plan.gplanStates[|c.plan.gplanOps|]), c.space, c.curEnd, GoalsUpTo(agenda, i + 1));
        }
        return;
      }
      currentStart := climber.plan.gplanStates[|climber.plan.gplanOps|];
      c.PlanIsPlan(Elems(currentEnd));
      PlanSolves(g, Elems(init), Elems(currentEnd), c.plan.gplanOps, c.plan.gplanStates);
      if i < |agenda| - 1 {
        currentEnd := currentEnd + agenda[i + 1];
      }
    }
    c.EndOfPlan();
    c.PlanIsPlan(Elems(currentEnd));
    return Success, climber.plan.gplanOps, climber.plan.gplanStates, c;
  }

  /** A plan for the goals of the agenda, or the proof that there is none. The one other outcome is
      that hill-climbing follows stale links forever. */
  method Solve(g: Graph, init: seq<nat>, goals: seq<nat>, agenda: seq<seq<nat>>)
    returns (outcome: Outcome, ops: seq<nat>, states: seq<seq<nat>>, ghost c: Climber)
    requires g.WellFormed() && StateOk(g, init) && g.IsList(goals) && agenda != []
    requires forall i :: 0 <= i < |agenda| ==> g.IsList(agenda[i])
    requires Elems(GoalsUpTo(agenda, |agenda|)) == Elems(goals)
    ensures outcome == Success ==> IsPlan(g, Elems(init), Elems(goals), ops, states)
    ensures outcome == Failure ==> g.Unsolvable(Elems(init), Elems(goals))
    ensures outcome == Success ==> ops == c.plan.gplanOps || Stuck(g, Elems(init), agenda, c)
    ensures outcome == Failure ==> Stuck(g, Elems(init), agenda, c)
    ensures outcome == Endless ==> c.plan.Valid() && c.plan.LinksBack()
    ensures outcome == Endless ==> |agenda| > 1 && !g.Unsolvable(Elems(init), Elems(agenda[0]))
  {
    hide Stuck, Graph.WellFormed, Graph.Unsolvable, IsPlan, PlanOk, CurrentPlan.LinksBack;
    outcome, ops, states, c := ClimbAlongAgenda(g, init, agenda);
    if outcome == Failure {
      var b := new BestFirstSearch(g, init, goals);
      var found;
      found, ops, states := b.DoBestFirstSearch();
      outcome := if found then Success else Failure;
    }
  }

  lemma {:induction false} EntryInCollected(agenda: seq<seq<nat>>, n: nat, e: nat)
    requires e < n <= |agenda|
    ensures Elems(agenda[e]) <= Elems(GoalsUpTo(agenda, n))
  {
    if e < n - 1 {
      EntryInCollected(agenda, n - 1, e);
    }
  }

  /** The search with the agenda of the given goal orderings, whatever these are. */
  method SolveWithOrderings(g: Graph, init: seq<nat>, goals: seq<nat>, lm: array2<bool>)
    returns (outcome: Outcome, ops: seq<nat>, states: seq<seq<nat>>, agenda: seq<seq<nat>>, ghost c: Climber)
    requires g.WellFormed() && StateOk(g, init) && g.IsList(goals) && Distinct(goals)
    requires lm.Length0 == lm.Length1 == |goals| > 0 && forall a :: 0 <= a < lm.Length0 ==> lm[a, a]
    modifies lm
    ensures outcome == Success ==> IsPlan(g, Elems(init), Elems(goals), ops, states)
    ensures outcome == Failure ==> g.Unsolvable(Elems(init), Elems(goals))
    ensures Follows(old(Rows(lm)), goals, agenda)
    ensures outcome == Success ==> ops == c.plan.gplanOps || Stuck(g, Elems(init), agenda, c)
    ensures outcome == Failure ==> Stuck(g, Elems(init), agenda, c)
    ensures outcome == Endless ==> c.plan.Valid() && c.plan.LinksBack()
    ensures old(Unsplit(Rows(lm), |goals|)) ==> outcome != Endless
  {
    hide Unsplit, Stuck, IsRanked, Respects, IsPlan, Graph.WellFormed, Graph.Unsolvable;
    agenda := BuildGoalAgenda(lm, goals);
    forall e | 0 <= e < |agenda|
      ensures g.IsList(agenda[e])
    {
      EntryInCollected(agenda, |agenda|, e);
      forall x | 0 <= x < |agenda[e]|
        ensures agenda[e][x] < |g.fts|
      {
        assert agenda[e][x] in Elems(agenda[e]);
      }
    }
    outcome, ops, states, c := Solve(g, init, goals, agenda);
  }
}
