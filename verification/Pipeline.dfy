/** From the templates of actions to the answer of main.c. */
module Pipeline {
  import opened Sequences
  import opened Plans
  import opened Grounded
  import opened Reachability
  import opened FinalProblem
  import opened Soundness
  import Agenda
  import HillClimbing
  import Planner

  /** The problem that the search works on. */
  datatype Problem = Problem(n: nat, init: seq<nat>, goals: seq<nat>, actions: seq<Template>) {
    ghost predicate Ok() {
      && Below(init, n) && Distinct(init) && Below(goals, n) && Distinct(goals) && goals != []
      && forall i :: 0 <= i < |actions| ==> actions[i].Within(n) && DistinctConditions(actions[i])
    }
  }

  /** The planner stops when it sees that the goal is always or never true. */
  datatype Instantiated = GoalIsTrue | GoalIsFalse | Remains(problem: Problem)

  ghost predicate GoalOk(goal: seq<seq<nat>>, n: nat) {
    AllDistinct(goal) && forall i :: 0 <= i < |goal| ==> Below(goal[i], n)
  }

  ghost predicate TemplatesOk(ts: seq<Template>, n: nat) {
    forall i :: 0 <= i < |ts| ==> ts[i].Within(n) && DistinctConditions(ts[i])
  }

  ghost predicate AllUnconditional(ts: seq<Template>) {
    forall i :: 0 <= i < |ts| ==> Unconditional(ts[i])
  }

  lemma FinalUnconditional(T: Tables, t: Template)
    requires T.Ok() && T.IsAction(t) && Unconditional(t)
    ensures Unconditional(FinalAction(T, t))
  {
    ActionEffects(T, t);
    FinalEffectsElems(T, t.effects);
    hide Tables.Ok, Tables.IsAction, FinalEffects, AllPossible, EffectOk;
    forall x | x in FinalAction(T, t).effects
      ensures x.conditions == []
    {
      var e :| e in t.effects && EffectOk(T, e) && AllPossible(T, e.conditions) && x == FinalEffect(T, e);
    }
  }

  lemma FinalsUnconditional(T: Tables, ts: seq<Template>, ids: seq<nat>)
    requires T.Ok() && Below(ids, |ts|) && forall k :: 0 <= k < |ids| ==> T.IsAction(ts[ids[k]])
    requires AllUnconditional(ts)
    ensures AllUnconditional(FinalActions(T, ts, ids))
  {
    hide Tables.Ok, Tables.IsAction, FinalAction, Unconditional;
    forall k | 0 <= k < |ids|
      ensures Unconditional(FinalActions(T, ts, ids)[k])
    {
      FinalUnconditional(T, ts[ids[k]]);
    }
  }

  lemma GoalActionPlain(d: seq<nat>, goalFact: nat)
    ensures Unconditional(GoalAction(d, goalFact)) && DistinctConditions(GoalAction(d, goalFact))
    ensures Below(d, goalFact) ==> GoalAction(d, goalFact).Within(goalFact + 1)
  {
  }

  lemma WiderWithin(t: Template, n: nat)
    requires t.Within(n)
    ensures t.Within(n + 1)
  {
  }

  /** The artificial actions fit in with the others. */
  lemma GoalActionsFit(fs: seq<Template>, ds: seq<seq<nat>>, n: nat)
    requires TemplatesOk(fs, n) && forall d :: d in ds ==> Below(d, n)
    ensures TemplatesOk(WithGoalActions(fs, ds, n), n + 1)
    ensures AllUnconditional(fs) ==> AllUnconditional(WithGoalActions(fs, ds, n))
  {
    hide Template.Within, DistinctConditions, Unconditional, GoalAction;
    var all := WithGoalActions(fs, ds, n);
    forall i | 0 <= i < |all|
      ensures all[i].Within(n + 1) && DistinctConditions(all[i])
      ensures AllUnconditional(fs) ==> Unconditional(all[i])
    {
      if i < |ds| {
        GoalActionPlain(ds[|ds| - 1 - i], n);
      } else {
        assert all[i] == all[|ds|..][i - |ds|];
        WiderWithin(fs[i - |ds|], n);
      }
    }
  }

  /** A single list of facts as the goal. */
  lemma FactsAreGoal(fs: seq<Template>, I: set<nat>, F: seq<nat>)
    ensures GoalReachable(fs, I, [F]) <==> Solvable(fs, I, Elems(F))
  {
    OneDisjunct([F]);
    hide GoalHolds, Grounded.IsRun;
  }

  /** What the code up to create_final_actions leaves: a problem that is solvable exactly if some run of the
      templates makes a disjunct of the goal true. The first `nEasy` templates are the easy ones. */
  method Instantiate(n: nat, initial: seq<nat>, ts: seq<Template>, nEasy: nat, goal: seq<seq<nat>>)
    returns (r: Instantiated)
    requires Below(initial, n) && Distinct(initial) && nEasy <= |ts| && TemplatesOk(ts, n) && GoalOk(goal, n)
    ensures r.GoalIsTrue? ==> GoalHolds(goal, Elems(initial))
    ensures r.GoalIsFalse? ==> !GoalReachable(ts, Elems(initial), goal)
    ensures r.Remains? ==>
      && r.problem.Ok()
      && (Solvable(r.problem.actions, Elems(r.problem.init), Elems(r.problem.goals)) <==>
          GoalReachable(ts, Elems(initial), goal))
      && (AllUnconditional(ts) ==> AllUnconditional(r.problem.actions))
  {
    var an, T := AnalyseTemplates(n, initial, ts, nEasy);
    AnalysedOk(T, ts, an.actions, an.Possible());
    var g := CreateFinalGoal(goal, an.lpos, an.lneg, an.lindex, T);
    GoalDecided(T, ts, an.actions, an.Possible(), goal, g);
    if g.AlwaysTrue? {
      return GoalIsTrue;
    } else if g.NeverTrue? {
      return GoalIsFalse;
    }
    var init := CreateFinalInitial(initial, an.lneg, an.lindex, T);
    var fs := CreateFinalActions(ts, an.actions, an.lpos, an.lneg, an.lindex, T, an.Possible());
    FinalActionsFit(T, ts, an.actions);
    if AllUnconditional(ts) {
      FinalsUnconditional(T, ts, an.actions);
    }
    match g
    case Facts(F) =>
      SameReachability(T, ts, an.actions, an.Possible(), goal, [F]);
      FactsAreGoal(fs, Elems(init), F);
      r := Remains(Problem(|an.relevantFacts|, init, F, fs));
    case Disjuncts(ds) =>
      var goalFact := |an.relevantFacts|;
      SameReachability(T, ts, an.actions, an.Possible(), goal, ds);
      ArtificialGoal(fs, Elems(init), ds, goalFact);
      GoalActionsFit(fs, ds, goalFact);
      var all := AddGoalActions(fs, ds, goalFact);
      r := Remains(Problem(goalFact + 1, init, [goalFact], all));
  }

  /** The planner's answer; a plan is a list of actions with the states it leads through. */
  datatype Answer = Decided(goalIsTrue: bool)
                  | Searched(outcome: HillClimbing.Outcome, problem: Problem, agenda: seq<seq<nat>>, ops: seq<nat>,
                             states: seq<seq<nat>>)

  /** No two different places are ordered. */
  ghost predicate Unordered(orderings: (nat, nat) -> bool) {
    forall i, j :: i != j ==> !orderings(i, j)
  }

  /** The matrix of the orderings of `n` goals, with TRUE on its diagonal. */
  function Matrix(n: nat, orderings: (nat, nat) -> bool): (m: seq<seq<bool>>)
    ensures |m| == n && forall i, j :: 0 <= i < n && 0 <= j < n ==> |m[i]| == n && m[i][j] == (i == j || orderings(i, j))
  {
    seq(n, i requires 0 <= i < n => seq(n, j requires 0 <= j < n && 0 <= i < n => i == j || orderings(i, j)))
  }

  lemma SameRows(m: seq<seq<bool>>, m': seq<seq<bool>>, n: nat)
    requires |m| == |m'| == n && forall i :: 0 <= i < n ==> |m[i]| == |m'[i]| == n
    requires forall i, j :: 0 <= i < n && 0 <= j < n ==> m[i][j] == m'[i][j]
    ensures m == m'
  {
    forall i | 0 <= i < n
      ensures m[i] == m'[i]
    {
      assert forall j :: 0 <= j < n ==> m[i][j] == m'[i][j];
    }
  }

  lemma NoneOrdered(m: seq<seq<bool>>, n: nat, orderings: (nat, nat) -> bool)
    requires Agenda.Square(m, n)
    requires forall i, j :: 0 <= i < n && 0 <= j < n ==> m[i][j] == (i == j || orderings(i, j))
    ensures Unordered(orderings) || n == 1 ==> Agenda.Unsplit(m, n)
  {
    if Unordered(orderings) || n == 1 {
      Agenda.NoOrderings(m, n);
    }
  }

  /** The search for the instantiated problem, with any random numbers of the facts and any orderings of the goals. */
  method SearchProblem(p: Problem, rand: nat -> nat, orderings: (nat, nat) -> bool) returns (a: Answer)
    requires p.Ok()
    ensures a.Searched? && a.problem == p && Agenda.Follows(Matrix(|p.goals|, orderings), p.goals, a.agenda)
    ensures a.outcome.Success? && NothingLost(p.actions, a.ops, a.states) ==> Solvable(p.actions, Elems(p.init), Elems(p.goals))
    ensures Harmless(p.actions) && a.outcome.Success? ==> Solvable(p.actions, Elems(p.init), Elems(p.goals))
    ensures Harmless(p.actions) && a.outcome.Failure? ==> !Solvable(p.actions, Elems(p.init), Elems(p.goals))
    ensures a.outcome.Endless? ==> |p.goals| > 1 && !Unordered(orderings)
  {
    hide NothingLost, Harmless, Solvable, Unordered, Agenda.Unsplit, Agenda.Follows, Planner.Stuck;
    var lm := new bool[|p.goals|, |p.goals|]((i, j) => i == j || (0 <= i && 0 <= j && orderings(i, j)));
    SameRows(Agenda.Rows(lm), Matrix(|p.goals|, orderings), |p.goals|);
    NoneOrdered(Agenda.Rows(lm), |p.goals|, orderings);
    forall i, j | 0 <= i < |p.actions| && 0 <= j < |p.actions[i].effects|
      ensures Distinct(p.actions[i].effects[j].conditions)
    {
      assert p.actions[i].effects[j] in p.actions[i].effects;
    }
    var outcome, ops, states, g, agenda;
    ghost var starts, classes, c;
    outcome, ops, states, g, agenda, starts, classes, c := SearchActions(p.actions, p.n, p.init, p.goals, rand, lm);
    return Searched(outcome, p, agenda, ops, states);
  }

  lemma UnconditionalIsHarmless(actions: seq<Template>)
    requires AllUnconditional(actions)
    ensures Harmless(actions)
  {
  }

  /** The planner. Its answers are right whenever the actions that it builds are harmless, and those are if the
      templates have no conditional effects. A plan on which no fact is lost is right in any case. */
  method Plan(n: nat, initial: seq<nat>, ts: seq<Template>, nEasy: nat, goal: seq<seq<nat>>,
              rand: nat -> nat, orderings: (nat, nat) -> bool) returns (a: Answer)
    requires Below(initial, n) && Distinct(initial) && nEasy <= |ts| && TemplatesOk(ts, n) && GoalOk(goal, n)
    ensures a.Decided? ==> (a.goalIsTrue <==> GoalReachable(ts, Elems(initial), goal))
    ensures a.Searched? ==> Agenda.Follows(Matrix(|a.problem.goals|, orderings), a.problem.goals, a.agenda)
    ensures a.Searched? && a.outcome.Success? && NothingLost(a.problem.actions, a.ops, a.states) ==>
      GoalReachable(ts, Elems(initial), goal)
    ensures a.Searched? && Harmless(a.problem.actions) ==>
      && (a.outcome.Success? ==> GoalReachable(ts, Elems(initial), goal))
      && (a.outcome.Failure? ==> !GoalReachable(ts, Elems(initial), goal))
    ensures a.Searched? && AllUnconditional(ts) ==> Harmless(a.problem.actions)
    ensures a.Searched? && a.outcome.Endless? ==> !Unordered(orderings)
  {
    hide NothingLost, Harmless, Solvable, Unordered, GoalReachable, TemplatesOk, Problem.Ok, AllUnconditional, GoalHolds, Agenda.Follows, Matrix;
    var r := Instantiate(n, initial, ts, nEasy, goal);
    match r
    case GoalIsTrue =>
      TrueAtOnce(ts, Elems(initial), goal);
      a := Decided(true);
    case GoalIsFalse =>
      a := Decided(false);
    case Remains(p) =>
      if AllUnconditional(p.actions) {
        UnconditionalIsHarmless(p.actions);
      }
      a := SearchProblem(p, rand, orderings);
  }

  lemma TrueAtOnce(ts: seq<Template>, I: set<nat>, goal: seq<seq<nat>>)
    requires GoalHolds(goal, I)
    ensures GoalReachable(ts, I, goal)
  {
    hide GoalHolds;
    var run: seq<nat>, states := [], [I];
    assert Grounded.IsRun(ts, run, states) && |states| == |run| + 1;
  }
}
