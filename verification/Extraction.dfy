/** The relaxed plan that relax.c extracts backwards from the goals, without search: what the extraction
    keeps between two goals of a level and between two levels, why the selected effects run from the
    evaluated state when they are taken by increasing level, how many of their operators the heuristic
    value counts, and what the value and the helpful operators say about the state. */
module Extraction {
  import opened Sequences
  import opened Connectivity
  import opened Layers
  import opened Fixpoint

  datatype FtPlan = FtPlan(isGoal: bool, isTrue: int, ch: bool)

  datatype OpMark = OpMark(isUsed: int, isInH: bool, isInA: bool)

  const FP_CLEAR := FtPlan(false, INFINITY, false)

  /** The selected effects whose level is `t`, in the order of their selection. */
  ghost function Block(ef: seq<EfMark>, plan: seq<nat>, t: nat): seq<nat>
    requires Below(plan, |ef|)
  {
    if plan == [] then []
    else
      var last := plan[|plan| - 1];
      Block(ef, plan[..|plan| - 1], t) + if ef[last].level == t then [last] else []
  }

  /** The relaxed plan: the selected effects by increasing level. */
  ghost function Schedule(ef: seq<EfMark>, plan: seq<nat>, n: nat): seq<nat>
    requires Below(plan, |ef|)
  {
    if n == 0 then [] else Schedule(ef, plan, n - 1) + Block(ef, plan, n - 1)
  }

  ghost predicate Makes(g: Graph, ef: seq<EfMark>, e: nat, t: int, f: nat)
    requires g.ImpliedOk() && |ef| == |g.efs| && e < |g.efs| && !g.efs[e].removed
  {
    ef[e].level == t && f in Fired(g, e)
  }

  /** Fact `f` is made true by an effect of level `t` among the first `k` selected ones. */
  ghost predicate MadeTrue(g: Graph, ef: seq<EfMark>, plan: seq<nat>, k: nat, t: int, f: nat)
    requires g.ImpliedOk() && |ef| == |g.efs| && AreLive(g, plan)
  {
    exists j :: 0 <= j < k && j < |plan| && Makes(g, ef, plan[j], t, f)
  }

  /** The condition `p` of the selected effect `plan[k]` is a goal of its own or comes for free. */
  ghost predicate Provided(g: Graph, ef: seq<EfMark>, fp: seq<FtPlan>, plan: seq<nat>, k: nat, p: nat)
    requires g.ImpliedOk() && |ef| == |g.efs| && AreLive(g, plan) && k < |plan|
  {
    p < |fp| && (fp[p].isGoal || MadeTrue(g, ef, plan, k, ef[plan[k]].level, p))
  }

  /** The goal lists hold the facts marked as goals, each in the list of its level. */
  ghost predicate GoalListsOk(ft: seq<FtMark>, fp: seq<FtPlan>, goalsAt: seq<seq<nat>>, max: nat) {
    && |ft| == |fp| && |goalsAt| > max
    && (forall l, i :: 0 <= l <= max && 0 <= i < |goalsAt[l]| ==>
         && goalsAt[l][i] < |ft| && ft[goalsAt[l][i]].level == l && fp[goalsAt[l][i]].isGoal)
    && (forall f :: 0 <= f < |fp| && fp[f].isGoal ==> 0 <= ft[f].level <= max && f in goalsAt[ft[f].level])
  }

  ghost predicate SelectionOk(g: Graph, ef: seq<EfMark>, plan: seq<nat>, least: int) {
    && |ef| == |g.efs| && Distinct(plan) && AreLive(g, plan)
    && forall k :: 0 <= k < |plan| ==> least <= ef[plan[k]].level
  }

  /** All goals of the levels above `time`, and the first `i` of level `time`, are made true
      one level below by selected effects whose own conditions are provided. */
  ghost predicate Achieved(g: Graph, ft: seq<FtMark>, ef: seq<EfMark>, fp: seq<FtPlan>,
                           goalsAt: seq<seq<nat>>, plan: seq<nat>, max: nat, time: nat, i: nat)
    requires g.WellFormed() && Sized(g, ft, ef)
  {
    && GoalListsOk(ft, fp, goalsAt, max)
    && SelectionOk(g, ef, plan, time - 1)
    && (forall l, k :: time < l <= max && 0 <= k < |goalsAt[l]| ==> MadeTrue(g, ef, plan, |plan|, l - 1, goalsAt[l][k]))
    && (time <= max ==> forall k :: 0 <= k < i && k < |goalsAt[time]| ==>
                          MadeTrue(g, ef, plan, |plan|, time - 1, goalsAt[time][k]))
    && (forall k, p :: 0 <= k < |plan| && p in g.efs[plan[k]].PC ==> Provided(g, ef, fp, plan, k, p))
  }

  /** The `isTrue` marks of this level are exactly the facts made true so far at this level. */
  ghost predicate TrueMarksOk(g: Graph, ef: seq<EfMark>, fp: seq<FtPlan>, plan: seq<nat>, max: nat, time: nat)
    requires g.WellFormed() && |ef| == |g.efs| && AreLive(g, plan)
  {
    forall f :: 0 <= f < |fp| ==>
      && (fp[f].isTrue == INFINITY || time <= fp[f].isTrue <= max)
      && (fp[f].isTrue == time <==> MadeTrue(g, ef, plan, |plan|, time - 1, f))
  }

  lemma MadeTrueAppend(g: Graph, ef: seq<EfMark>, plan: seq<nat>, e: nat)
    requires g.ImpliedOk() && |ef| == |g.efs| && AreLive(g, plan) && e < |g.efs| && !g.efs[e].removed
    ensures AreLive(g, plan + [e])
    ensures forall t, f :: MadeTrue(g, ef, plan + [e], |plan| + 1, t, f) <==>
              MadeTrue(g, ef, plan, |plan|, t, f) || Makes(g, ef, e, t, f)
    ensures forall k, t, f :: 0 <= k <= |plan| ==> (MadeTrue(g, ef, plan + [e], k, t, f) <==> MadeTrue(g, ef, plan, k, t, f))
  {
    hide Fired;
    var plan' := plan + [e];
    assert plan'[|plan|] == e && forall j :: 0 <= j < |plan| ==> plan'[j] == plan[j];
    forall k, t, f | 0 <= k <= |plan|
      ensures MadeTrue(g, ef, plan', k, t, f) <==> MadeTrue(g, ef, plan, k, t, f)
    {
      if MadeTrue(g, ef, plan, k, t, f) {
        var j :| 0 <= j < k && j < |plan| && Makes(g, ef, plan[j], t, f);
        assert Makes(g, ef, plan'[j], t, f);
      }
      if MadeTrue(g, ef, plan', k, t, f) {
        var j :| 0 <= j < k && j < |plan| && Makes(g, ef, plan'[j], t, f);
        assert Makes(g, ef, plan[j], t, f);
      }
    }
    forall t, f
      ensures MadeTrue(g, ef, plan', |plan| + 1, t, f) <==> MadeTrue(g, ef, plan, |plan|, t, f) || Makes(g, ef, e, t, f)
    {
      assert MadeTrue(g, ef, plan', |plan|, t, f) <==> MadeTrue(g, ef, plan, |plan|, t, f);
      if Makes(g, ef, e, t, f) {
        assert Makes(g, ef, plan'[|plan|], t, f);
      }
    }
  }

  /** The goal lists only grow, and only below `time`. */
  ghost predicate ListsExtended(goalsAt: seq<seq<nat>>, goalsAt': seq<seq<nat>>, time: nat) {
    && |goalsAt'| == |goalsAt|
    && forall l :: 0 <= l < |goalsAt| ==> goalsAt[l] <= goalsAt'[l] && (l >= time ==> goalsAt'[l] == goalsAt[l])
  }

  /** The marks after effect `e` was selected for a goal of level `time`: its conditions have
      become goals unless they come for free, and what it fires is true. */
  ghost predicate Selected(g: Graph, fp: seq<FtPlan>, fp': seq<FtPlan>, e: nat, time: nat)
    requires g.ImpliedOk() && e < |g.efs| && !g.efs[e].removed
  {
    && |fp'| == |fp|
    && forall f :: 0 <= f < |fp| ==>
      && (fp'[f].isGoal <==> fp[f].isGoal || (f in g.efs[e].PC && fp[f].isTrue != time))
      && fp'[f].isTrue == if f in Fired(g, e) then time else fp[f].isTrue
  }

  /** An effect that adds a goal not yet true at this level was not selected before. */
  lemma SelectedOnce(g: Graph, ef: seq<EfMark>, fp: seq<FtPlan>, plan: seq<nat>, max: nat, time: nat, e: nat, x: nat)
    requires g.WellFormed() && |ef| == |g.efs| && AreLive(g, plan) && TrueMarksOk(g, ef, fp, plan, max, time)
    requires x < |g.fts| == |fp| && fp[x].isTrue != time && e in g.fts[x].A && e < |ef| && ef[e].level == time - 1
    ensures e !in plan && !g.efs[e].removed && Makes(g, ef, e, time - 1, x)
  {
  }

  lemma SelectStep(g: Graph, ft: seq<FtMark>, ef: seq<EfMark>, fp: seq<FtPlan>, fp': seq<FtPlan>,
                   goalsAt: seq<seq<nat>>, goalsAt': seq<seq<nat>>, plan: seq<nat>, max: nat, time: nat, i: nat, e: nat)
    requires g.WellFormed() && Sized(g, ft, ef) && 0 < time <= max
    requires Achieved(g, ft, ef, fp, goalsAt, plan, max, time, i) && TrueMarksOk(g, ef, fp, plan, max, time)
    requires i < |goalsAt[time]| && e !in plan && e < |g.efs| && !g.efs[e].removed
    requires ef[e].level == time - 1 && Makes(g, ef, e, time - 1, goalsAt[time][i])
    requires Selected(g, fp, fp', e, time) && ListsExtended(goalsAt, goalsAt', time) && GoalListsOk(ft, fp', goalsAt', max)
    ensures AreLive(g, plan + [e])
    ensures Achieved(g, ft, ef, fp', goalsAt', plan + [e], max, time, i + 1)
    ensures TrueMarksOk(g, ef, fp', plan + [e], max, time)
  {
    hide Fired;
    var plan' := plan + [e];
    MadeTrueAppend(g, ef, plan, e);
    DistinctAppend(plan, e);
    forall l, k | time < l <= max && 0 <= k < |goalsAt'[l]|
      ensures MadeTrue(g, ef, plan', |plan'|, l - 1, goalsAt'[l][k])
    {
      assert goalsAt'[l] == goalsAt[l];
      assert MadeTrue(g, ef, plan, |plan|, l - 1, goalsAt[l][k]);
    }
    forall k | 0 <= k < i + 1 && k < |goalsAt'[time]|
      ensures MadeTrue(g, ef, plan', |plan'|, time - 1, goalsAt'[time][k])
    {
      assert goalsAt'[time] == goalsAt[time];
      if k < i {
        assert MadeTrue(g, ef, plan, |plan|, time - 1, goalsAt[time][k]);
      }
    }
    forall k, p | 0 <= k < |plan'| && p in g.efs[plan'[k]].PC
      ensures Provided(g, ef, fp', plan', k, p)
    {
      ProvidedStep(g, ef, fp, fp', plan, max, time, e, k, p);
    }
    forall f | 0 <= f < |fp'|
      ensures fp'[f].isTrue == INFINITY || time <= fp'[f].isTrue <= max
      ensures fp'[f].isTrue == time <==> MadeTrue(g, ef, plan', |plan'|, time - 1, f)
    {
      assert MadeTrue(g, ef, plan', |plan'|, time - 1, f) <==>
             MadeTrue(g, ef, plan, |plan|, time - 1, f) || Makes(g, ef, e, time - 1, f);
    }
  }

  lemma ProvidedStep(g: Graph, ef: seq<EfMark>, fp: seq<FtPlan>, fp': seq<FtPlan>, plan: seq<nat>, max: nat, time: nat,
                     e: nat, k: nat, p: nat)
    requires g.WellFormed() && |ef| == |g.efs| && AreLive(g, plan) && TrueMarksOk(g, ef, fp, plan, max, time)
    requires e < |g.efs| && !g.efs[e].removed && ef[e].level == time - 1 && |fp| == |g.fts|
    requires Selected(g, fp, fp', e, time) && AreLive(g, plan + [e])
    requires k <= |plan| && p in g.efs[(plan + [e])[k]].PC
    requires k < |plan| ==> Provided(g, ef, fp, plan, k, p)
    ensures Provided(g, ef, fp', plan + [e], k, p)
  {
    hide Fired;
    MadeTrueAppend(g, ef, plan, e);
    assert ef[(plan + [e])[k]].level == if k < |plan| then ef[plan[k]].level else time - 1;
  }

  // ---- the extracted plan runs

  ghost predicate InRange(ef: seq<EfMark>, plan: seq<nat>, max: nat) {
    Below(plan, |ef|) && forall k :: 0 <= k < |plan| ==> 0 <= ef[plan[k]].level < max
  }

  lemma {:induction false} BlockIsLive(g: Graph, ef: seq<EfMark>, plan: seq<nat>, t: nat)
    requires |ef| == |g.efs| && AreLive(g, plan)
    ensures AreLive(g, Block(ef, plan, t))
  {
    if plan != [] {
      BlockIsLive(g, ef, plan[..|plan| - 1], t);
    }
  }

  lemma {:induction false} AfterConcat(g: Graph, X: set<nat>, a: seq<nat>, b: seq<nat>)
    requires g.ImpliedOk() && AreLive(g, a) && AreLive(g, b)
    ensures AreLive(g, a + b) && After(g, X, a + b) == After(g, After(g, X, a), b)
    ensures X <= After(g, X, a)
    decreases |a| + |b|
  {
    hide Fired;
    if b == [] {
      assert a + b == a;
      if a != [] {
        AfterConcat(g, X, a[..|a| - 1], []);
        assert a[..|a| - 1] + [] == a[..|a| - 1];
      }
    } else {
      assert (a + b)[..|a + b| - 1] == a + b[..|b| - 1];
      AfterConcat(g, X, a, b[..|b| - 1]);
    }
  }

  lemma ExecutableConcat(g: Graph, X: set<nat>, a: seq<nat>, b: seq<nat>)
    requires g.ImpliedOk() && AreLive(g, a) && AreLive(g, b)
    requires Executable(g, X, a) && Executable(g, After(g, X, a), b)
    ensures AreLive(g, a + b) && Executable(g, X, a + b)
  {
    hide After, Fired;
    forall i | 0 <= i < |a + b|
      ensures g.Holds((a + b)[i], After(g, X, (a + b)[..i]))
    {
      if i < |a| {
        assert (a + b)[..i] == a[..i];
      } else {
        assert (a + b)[..i] == a + b[..i - |a|];
        AfterConcat(g, X, a, b[..i - |a|]);
      }
    }
  }

  /** The goals of the levels up to `n`. */
  ghost predicate HasGoals(ft: seq<FtMark>, fp: seq<FtPlan>, X: set<nat>, n: nat)
    requires |ft| == |fp|
  {
    forall f :: 0 <= f < |fp| && fp[f].isGoal && ft[f].level <= n ==> f in X
  }

  lemma AchievedIsLive(g: Graph, S: set<nat>, ft: seq<FtMark>, ef: seq<EfMark>, fp: seq<FtPlan>,
                       goalsAt: seq<seq<nat>>, plan: seq<nat>, max: nat)
    requires g.WellFormed() && Levelled(g, S, ft, ef, max) && Achieved(g, ft, ef, fp, goalsAt, plan, max, 0, 0)
    ensures Sized(g, ft, ef) && AreLive(g, plan)
  {
    hide GoalListsOk;
  }

  /** The conditions of a selected effect hold, once the earlier effects of its level have made facts true. */
  lemma ConditionsTrue(g: Graph, S: set<nat>, ft: seq<FtMark>, ef: seq<EfMark>, fp: seq<FtPlan>,
                       goalsAt: seq<seq<nat>>, plan: seq<nat>, max: nat, X: set<nat>, Y: set<nat>, k: nat)
    requires g.WellFormed() && Levelled(g, S, ft, ef, max) && Achieved(g, ft, ef, fp, goalsAt, plan, max, 0, 0)
    requires k < |plan| && AreLive(g, plan) && X <= Y && ef[plan[k]].level >= 0 && HasGoals(ft, fp, X, ef[plan[k]].level)
    requires forall f :: MadeTrue(g, ef, plan, k, ef[plan[k]].level, f) ==> f in Y
    ensures g.Holds(plan[k], Y)
  {
    hide MadeTrue, Fired;
    forall p | p in g.efs[plan[k]].PC
      ensures p in Y
    {
      assert Provided(g, ef, fp, plan, k, p);
      assert EffectSupported(g, ft, ef, plan[k]);
    }
  }

  /** The first `k` selected effects of level `n` run in the order of their selection. */
  lemma {:induction false} BlockRuns(g: Graph, S: set<nat>, ft: seq<FtMark>, ef: seq<EfMark>, fp: seq<FtPlan>,
                                     goalsAt: seq<seq<nat>>, plan: seq<nat>, max: nat, n: nat, X: set<nat>, k: nat)
    requires g.WellFormed() && Levelled(g, S, ft, ef, max) && Achieved(g, ft, ef, fp, goalsAt, plan, max, 0, 0)
    requires k <= |plan| && HasGoals(ft, fp, X, n)
    ensures AreLive(g, Block(ef, plan[..k], n))
    ensures Executable(g, X, Block(ef, plan[..k], n))
    ensures X <= After(g, X, Block(ef, plan[..k], n))
    ensures forall f :: MadeTrue(g, ef, plan, k, n, f) ==> f in After(g, X, Block(ef, plan[..k], n))
  {
    hide Fired, GoalListsOk, After, Levelled, Provided, HasGoals, SelectionOk;
    AchievedIsLive(g, S, ft, ef, fp, goalsAt, plan, max);
    BlockIsLive(g, ef, plan[..k], n);
    if k == 0 {
      ExecutableEmpty(g, X);
      assert Block(ef, plan[..k], n) == [];
    } else {
      var e := plan[k - 1];
      var before := Block(ef, plan[..k - 1], n);
      assert plan[..k][..k - 1] == plan[..k - 1];
      BlockRuns(g, S, ft, ef, fp, goalsAt, plan, max, n, X, k - 1);
      if ef[e].level == n {
        assert Block(ef, plan[..k], n) == before + [e];
        ConditionsTrue(g, S, ft, ef, fp, goalsAt, plan, max, X, After(g, X, before), k - 1);
        ExecutableAppend(g, X, before, e);
      } else {
        assert Block(ef, plan[..k], n) == before;
      }
      forall f | MadeTrue(g, ef, plan, k, n, f)
        ensures f in After(g, X, Block(ef, plan[..k], n))
      {
        assert MadeTrue(g, ef, plan, k - 1, n, f) || Makes(g, ef, e, n, f);
      }
    }
  }

  lemma ExecutableAppend(g: Graph, X: set<nat>, a: seq<nat>, e: nat)
    requires g.ImpliedOk() && AreLive(g, a) && e < |g.efs| && !g.efs[e].removed
    requires Executable(g, X, a) && g.Holds(e, After(g, X, a))
    ensures AreLive(g, a + [e]) && Executable(g, X, a + [e])
    ensures After(g, X, a + [e]) == After(g, X, a) + Fired(g, e)
  {
    hide Fired;
    assert (a + [e])[..|a|] == a;
    forall i | 0 <= i < |a + [e]|
      ensures g.Holds((a + [e])[i], After(g, X, (a + [e])[..i]))
    {
      if i < |a| {
        assert (a + [e])[..i] == a[..i];
      }
    }
  }

  lemma GoalsOfFirstLevel(g: Graph, S: set<nat>, ft: seq<FtMark>, ef: seq<EfMark>, fp: seq<FtPlan>, max: nat)
    requires g.WellFormed() && Levelled(g, S, ft, ef, max) && |fp| == |ft|
    requires forall f :: 0 <= f < |fp| && fp[f].isGoal ==> 0 <= ft[f].level
    ensures HasGoals(ft, fp, S, 0)
  {
  }

  lemma ExecutableEmpty(g: Graph, X: set<nat>)
    requires g.ImpliedOk()
    ensures Executable(g, X, []) && After(g, X, []) == X
  {
  }

  /** Level by level, the relaxed plan runs and makes every goal and subgoal true. */
  lemma {:induction false} ScheduleRuns(g: Graph, S: set<nat>, ft: seq<FtMark>, ef: seq<EfMark>, fp: seq<FtPlan>,
                                        goalsAt: seq<seq<nat>>, plan: seq<nat>, max: nat, n: nat)
    requires g.WellFormed() && Levelled(g, S, ft, ef, max) && Achieved(g, ft, ef, fp, goalsAt, plan, max, 0, 0)
    requires n <= max
    ensures AreLive(g, Schedule(ef, plan, n)) && Executable(g, S, Schedule(ef, plan, n))
    ensures HasGoals(ft, fp, After(g, S, Schedule(ef, plan, n)), n)
  {
    hide Fired, Block, MadeTrue, After, Provided, Executable, HasGoals, Graph.EffectsOk, Graph.FactsOk, Graph.OpsOk;
    if n == 0 {
      ExecutableEmpty(g, S);
      GoalsOfFirstLevel(g, S, ft, ef, fp, max);
    } else {
      ScheduleRuns(g, S, ft, ef, fp, goalsAt, plan, max, n - 1);
      var before := Schedule(ef, plan, n - 1);
      var X := After(g, S, before);
      assert plan[..|plan|] == plan;
      BlockRuns(g, S, ft, ef, fp, goalsAt, plan, max, n - 1, X, |plan|);
      var block := Block(ef, plan, n - 1);
      ExecutableConcat(g, S, before, block);
      AfterConcat(g, S, before, block);
      GoalsOfNextLevel(g, ft, ef, fp, goalsAt, plan, max, n, X, After(g, X, block));
    }
  }

  lemma GoalsOfNextLevel(g: Graph, ft: seq<FtMark>, ef: seq<EfMark>, fp: seq<FtPlan>, goalsAt: seq<seq<nat>>,
                         plan: seq<nat>, max: nat, n: nat, X: set<nat>, Y: set<nat>)
    requires g.WellFormed() && Sized(g, ft, ef) && Achieved(g, ft, ef, fp, goalsAt, plan, max, 0, 0)
    requires 0 < n <= max && X <= Y && HasGoals(ft, fp, X, n - 1)
    requires forall f :: MadeTrue(g, ef, plan, |plan|, n - 1, f) ==> f in Y
    ensures HasGoals(ft, fp, Y, n)
  {
    hide MadeTrue, Provided;
    forall f | 0 <= f < |fp| && fp[f].isGoal && ft[f].level <= n
      ensures f in Y
    {
      if ft[f].level == n {
        var i :| 0 <= i < |goalsAt[n]| && goalsAt[n][i] == f;
        assert MadeTrue(g, ef, plan, |plan|, n - 1, goalsAt[n][i]);
      }
    }
  }

  // ---- every selected effect is scheduled once

  /** The selected effects below level `n`. */
  ghost function Lower(ef: seq<EfMark>, plan: seq<nat>, n: nat): multiset<nat>
    requires Below(plan, |ef|)
  {
    if plan == [] then multiset{}
    else
      var last := plan[|plan| - 1];
      Lower(ef, plan[..|plan| - 1], n) + if 0 <= ef[last].level < n then multiset{last} else multiset{}
  }

  lemma {:induction false} LowerSplits(ef: seq<EfMark>, plan: seq<nat>, n: nat)
    requires Below(plan, |ef|)
    ensures Lower(ef, plan, n + 1) == Lower(ef, plan, n) + multiset(Block(ef, plan, n))
  {
    if plan != [] {
      var front, last := plan[..|plan| - 1], plan[|plan| - 1];
      LowerSplits(ef, front, n);
      BlockMultiset(ef, plan, n);
    }
  }

  lemma BlockMultiset(ef: seq<EfMark>, plan: seq<nat>, n: nat)
    requires Below(plan, |ef|) && plan != []
    ensures multiset(Block(ef, plan, n)) == multiset(Block(ef, plan[..|plan| - 1], n)) +
            if ef[plan[|plan| - 1]].level == n then multiset{plan[|plan| - 1]} else multiset{}
  {
    hide Below;
  }

  lemma {:induction false} LowerNone(ef: seq<EfMark>, plan: seq<nat>)
    requires Below(plan, |ef|)
    ensures Lower(ef, plan, 0) == multiset{}
  {
    if plan != [] {
      LowerNone(ef, plan[..|plan| - 1]);
    }
  }

  lemma {:induction false} LowerAll(ef: seq<EfMark>, plan: seq<nat>, n: nat)
    requires InRange(ef, plan, n)
    ensures Lower(ef, plan, n) == multiset(plan)
  {
    if plan != [] {
      var front, last := plan[..|plan| - 1], plan[|plan| - 1];
      assert plan == front + [last];
      LowerAll(ef, front, n);
    }
  }

  lemma {:induction false} ScheduleIsLower(ef: seq<EfMark>, plan: seq<nat>, n: nat)
    requires Below(plan, |ef|)
    ensures multiset(Schedule(ef, plan, n)) == Lower(ef, plan, n)
  {
    hide Lower, Block;
    if n == 0 {
      LowerNone(ef, plan);
    } else {
      ScheduleIsLower(ef, plan, n - 1);
      LowerSplits(ef, plan, n - 1);
    }
  }

  lemma SchedulePermutes(ef: seq<EfMark>, plan: seq<nat>, max: nat)
    requires InRange(ef, plan, max)
    ensures multiset(Schedule(ef, plan, max)) == multiset(plan)
  {
    ScheduleIsLower(ef, plan, max);
    LowerAll(ef, plan, max);
  }

  // ---- the heuristic value

  /** The operators of the selected effects of level `t`. */
  ghost function OpsAt(g: Graph, ef: seq<EfMark>, plan: seq<nat>, t: int): set<nat>
    requires |ef| == |g.efs| && Below(plan, |ef|)
  {
    set k | 0 <= k < |plan| && ef[plan[k]].level == t :: g.efs[plan[k]].op
  }

  /** The number of operators used on the levels from `t` on, counted level by level. */
  ghost function OpCount(g: Graph, ef: seq<EfMark>, plan: seq<nat>, t: nat, max: nat): nat
    requires |ef| == |g.efs| && Below(plan, |ef|)
    decreases max - t
  {
    if t >= max then 0 else |OpsAt(g, ef, plan, t)| + OpCount(g, ef, plan, t + 1, max)
  }

  /** The operators of the selected effects, each with its level. */
  ghost function UsedOps(g: Graph, ef: seq<EfMark>, plan: seq<nat>, t: nat, max: nat): set<(int, nat)>
    requires |ef| == |g.efs| && Below(plan, |ef|)
  {
    set k | 0 <= k < |plan| && t <= ef[plan[k]].level < max :: (ef[plan[k]].level, g.efs[plan[k]].op)
  }

  /** The count is the number of pairs of a level and an operator used on it. */
  lemma {:induction false} OpCountCounts(g: Graph, ef: seq<EfMark>, plan: seq<nat>, t: nat, max: nat)
    requires |ef| == |g.efs| && Below(plan, |ef|)
    ensures OpCount(g, ef, plan, t, max) == |UsedOps(g, ef, plan, t, max)|
    decreases max - t
  {
    if t >= max {
      assert UsedOps(g, ef, plan, t, max) == {};
    } else {
      OpCountCounts(g, ef, plan, t + 1, max);
      var now := Tagged(t as int, OpsAt(g, ef, plan, t));
      TaggedSize(t as int, OpsAt(g, ef, plan, t));
      UsedSplit(g, ef, plan, t, max);
      DisjointSize(now, UsedOps(g, ef, plan, t + 1, max));
    }
  }

  lemma UsedSplit(g: Graph, ef: seq<EfMark>, plan: seq<nat>, t: nat, max: nat)
    requires |ef| == |g.efs| && Below(plan, |ef|) && t < max
    ensures UsedOps(g, ef, plan, t, max) == Tagged(t as int, OpsAt(g, ef, plan, t)) + UsedOps(g, ef, plan, t + 1, max)
  {
    var now := Tagged(t as int, OpsAt(g, ef, plan, t));
    forall x | x in UsedOps(g, ef, plan, t, max)
      ensures x in now + UsedOps(g, ef, plan, t + 1, max)
    {
      var k :| 0 <= k < |plan| && t <= ef[plan[k]].level < max && x == (ef[plan[k]].level, g.efs[plan[k]].op);
      if ef[plan[k]].level == t {
        assert g.efs[plan[k]].op in OpsAt(g, ef, plan, t);
      }
    }
    forall x | x in now + UsedOps(g, ef, plan, t + 1, max)
      ensures x in UsedOps(g, ef, plan, t, max)
    {
    }
  }

  lemma OpsAtAppend(g: Graph, ef: seq<EfMark>, plan: seq<nat>, e: nat, t: int)
    requires |ef| == |g.efs| && Below(plan, |ef|) && e < |ef|
    ensures Below(plan + [e], |ef|)
    ensures OpsAt(g, ef, plan + [e], t) == OpsAt(g, ef, plan, t) + if ef[e].level == t then {g.efs[e].op} else {}
  {
    var plan' := plan + [e];
    forall o | o in OpsAt(g, ef, plan, t)
      ensures o in OpsAt(g, ef, plan', t)
    {
      var k :| 0 <= k < |plan| && ef[plan[k]].level == t && g.efs[plan[k]].op == o;
      assert plan'[k] == plan[k];
    }
    assert plan'[|plan|] == e;
  }

  /** A selection for a lower level changes nothing above. */
  lemma {:induction false} OpCountAppend(g: Graph, ef: seq<EfMark>, plan: seq<nat>, e: nat, t: nat, max: nat)
    requires |ef| == |g.efs| && Below(plan, |ef|) && e < |ef| && ef[e].level < t
    ensures Below(plan + [e], |ef|)
    ensures OpCount(g, ef, plan + [e], t, max) == OpCount(g, ef, plan, t, max)
    decreases max - t
  {
    if t < max {
      OpsAtAppend(g, ef, plan, e, t);
      OpCountAppend(g, ef, plan, e, t + 1, max);
    }
  }

  lemma {:induction false} OpCountNone(g: Graph, ef: seq<EfMark>, plan: seq<nat>, t: nat, max: nat)
    requires |ef| == |g.efs| && Below(plan, |ef|)
    requires forall k :: 0 <= k < |plan| ==> ef[plan[k]].level < t
    ensures OpCount(g, ef, plan, t, max) == 0
    decreases max - t
  {
    if t < max {
      assert OpsAt(g, ef, plan, t) == {};
      OpCountNone(g, ef, plan, t + 1, max);
    }
  }

  /** Some fact of level `l` is a goal. */
  ghost predicate GoalAt(ft: seq<FtMark>, fp: seq<FtPlan>, l: nat)
    requires |ft| == |fp|
  {
    exists f :: 0 <= f < |fp| && fp[f].isGoal && ft[f].level == l
  }

  /** A goal of some level makes an effect be selected one level below, and the first such
      effect makes a goal of that level. */
  lemma GoalPropagates(g: Graph, S: set<nat>, ft: seq<FtMark>, ef: seq<EfMark>, fp: seq<FtPlan>,
                       goalsAt: seq<seq<nat>>, plan: seq<nat>, max: nat, l: nat)
    requires g.WellFormed() && Levelled(g, S, ft, ef, max) && Achieved(g, ft, ef, fp, goalsAt, plan, max, 0, 0)
    requires l < max && GoalAt(ft, fp, l + 1)
    ensures OpsAt(g, ef, plan, l) != {}
    ensures l > 0 ==> GoalAt(ft, fp, l)
  {
    hide OpsAt, GoalAt, Provided, Graph.EffectsOk, Graph.FactsOk, Graph.OpsOk;
    var j := GoalSelects(g, ft, ef, fp, goalsAt, plan, max, l);
    OpsAtHas(g, ef, plan, j);
    if l > 0 {
      var k := FirstOfLevel(ef, plan, l, j);
      FirstMakesGoal(g, S, ft, ef, fp, goalsAt, plan, max, k);
    }
  }

  lemma OpsAtHas(g: Graph, ef: seq<EfMark>, plan: seq<nat>, j: nat)
    requires |ef| == |g.efs| && Below(plan, |ef|) && j < |plan|
    ensures g.efs[plan[j]].op in OpsAt(g, ef, plan, ef[plan[j]].level)
  {
  }

  lemma GoalSelects(g: Graph, ft: seq<FtMark>, ef: seq<EfMark>, fp: seq<FtPlan>, goalsAt: seq<seq<nat>>,
                    plan: seq<nat>, max: nat, l: nat) returns (j: nat)
    requires g.WellFormed() && Sized(g, ft, ef) && Achieved(g, ft, ef, fp, goalsAt, plan, max, 0, 0)
    requires l < max && GoalAt(ft, fp, l + 1)
    ensures j < |plan| && ef[plan[j]].level == l
  {
    hide Provided, Fired, Graph.EffectsOk, Graph.FactsOk, Graph.OpsOk;
    var f :| 0 <= f < |fp| && fp[f].isGoal && ft[f].level == l + 1;
    var i :| 0 <= i < |goalsAt[l + 1]| && goalsAt[l + 1][i] == f;
    assert MadeTrue(g, ef, plan, |plan|, l + 1 - 1, goalsAt[l + 1][i]);
    j :| 0 <= j < |plan| && Makes(g, ef, plan[j], l, f);
  }

  lemma FirstMakesGoal(g: Graph, S: set<nat>, ft: seq<FtMark>, ef: seq<EfMark>, fp: seq<FtPlan>,
                       goalsAt: seq<seq<nat>>, plan: seq<nat>, max: nat, k: nat)
    requires g.WellFormed() && Levelled(g, S, ft, ef, max) && Achieved(g, ft, ef, fp, goalsAt, plan, max, 0, 0)
    requires k < |plan| && ef[plan[k]].level > 0
    requires forall i :: 0 <= i < k ==> ef[plan[i]].level != ef[plan[k]].level
    ensures GoalAt(ft, fp, ef[plan[k]].level)
  {
    hide GoalListsOk, Fired, Graph.EffectsOk, Graph.FactsOk, Graph.OpsOk;
    assert EffectSupported(g, ft, ef, plan[k]);
    var p :| p in g.efs[plan[k]].PC && p < |ft| && ft[p].level == ef[plan[k]].level;
    assert Provided(g, ef, fp, plan, k, p);
  }

  lemma {:induction false} FirstOfLevel(ef: seq<EfMark>, plan: seq<nat>, l: int, j: nat) returns (k: nat)
    requires Below(plan, |ef|) && j < |plan| && ef[plan[j]].level == l
    ensures k <= j && ef[plan[k]].level == l && forall i :: 0 <= i < k ==> ef[plan[i]].level != l
  {
    k := j;
    if exists i :: 0 <= i < j && ef[plan[i]].level == l {
      var i :| 0 <= i < j && ef[plan[i]].level == l;
      k := FirstOfLevel(ef, plan, l, i);
    }
  }

  /** With a goal on level `l`, at least one operator is counted for each level below. */
  lemma {:induction false} OpCountBound(g: Graph, S: set<nat>, ft: seq<FtMark>, ef: seq<EfMark>, fp: seq<FtPlan>,
                                        goalsAt: seq<seq<nat>>, plan: seq<nat>, max: nat, l: nat, m: nat)
    requires g.WellFormed() && Levelled(g, S, ft, ef, max) && Achieved(g, ft, ef, fp, goalsAt, plan, max, 0, 0)
    requires 0 < l <= m <= max && GoalAt(ft, fp, l)
    ensures OpCount(g, ef, plan, 0, m) >= l + OpCount(g, ef, plan, l, m)
    ensures GoalAt(ft, fp, 1)
  {
    hide Levelled, Achieved, OpsAt, GoalAt, Graph.EffectsOk, Graph.FactsOk, Graph.OpsOk;
    GoalPropagates(g, S, ft, ef, fp, goalsAt, plan, max, l - 1);
    if l > 1 {
      OpCountBound(g, S, ft, ef, fp, goalsAt, plan, max, l - 1, m);
    }
  }

  // ---- the state of the extraction between and within levels

  ghost predicate UsedMarksOk(g: Graph, ef: seq<EfMark>, om: seq<OpMark>, plan: seq<nat>, max: nat, time: nat)
    requires |ef| == |g.efs| && Below(plan, |ef|)
  {
    forall o :: 0 <= o < |om| ==>
      && (om[o].isUsed == INFINITY || time <= om[o].isUsed <= max)
      && (om[o].isUsed == time <==> o in OpsAt(g, ef, plan, time - 1))
  }

  /** The goals of all levels above `t` are dealt with. */
  ghost predicate Between(g: Graph, ft: seq<FtMark>, ef: seq<EfMark>, fp: seq<FtPlan>, om: seq<OpMark>,
                          goalsAt: seq<seq<nat>>, plan: seq<nat>, lh: nat, max: nat, t: nat)
  {
    && g.WellFormed() && Sized(g, ft, ef)
    && Achieved(g, ft, ef, fp, goalsAt, plan, max, t, 0) && SelectionOk(g, ef, plan, t)
    && (forall f :: 0 <= f < |fp| ==> fp[f].isTrue == INFINITY || t < fp[f].isTrue <= max)
    && (forall o :: 0 <= o < |om| ==> om[o].isUsed == INFINITY || t < om[o].isUsed <= max)
    && lh == OpCount(g, ef, plan, t, max)
  }

  /** The goals above `time` and the first `i` goals of level `time` are dealt with. */
  ghost predicate Within(g: Graph, ft: seq<FtMark>, ef: seq<EfMark>, fp: seq<FtPlan>, om: seq<OpMark>,
                         goalsAt: seq<seq<nat>>, plan: seq<nat>, lh: nat, max: nat, time: nat, i: nat)
  {
    && g.WellFormed() && Sized(g, ft, ef) && 0 < time <= max
    && Achieved(g, ft, ef, fp, goalsAt, plan, max, time, i)
    && TrueMarksOk(g, ef, fp, plan, max, time)
    && UsedMarksOk(g, ef, om, plan, max, time)
    && lh == OpCount(g, ef, plan, time - 1, max)
  }

  lemma WithinLists(g: Graph, ft: seq<FtMark>, ef: seq<EfMark>, fp: seq<FtPlan>, om: seq<OpMark>,
                    goalsAt: seq<seq<nat>>, plan: seq<nat>, lh: nat, max: nat, time: nat, i: nat)
    requires Within(g, ft, ef, fp, om, goalsAt, plan, lh, max, time, i)
    ensures |goalsAt| > max
  {
  }

  lemma BetweenLists(g: Graph, ft: seq<FtMark>, ef: seq<EfMark>, fp: seq<FtPlan>, om: seq<OpMark>,
                     goalsAt: seq<seq<nat>>, plan: seq<nat>, lh: nat, max: nat, t: nat)
    requires Between(g, ft, ef, fp, om, goalsAt, plan, lh, max, t)
    ensures GoalListsOk(ft, fp, goalsAt, max)
  {
  }

  lemma EnterLevel(g: Graph, ft: seq<FtMark>, ef: seq<EfMark>, fp: seq<FtPlan>, om: seq<OpMark>,
                   goalsAt: seq<seq<nat>>, plan: seq<nat>, lh: nat, max: nat, time: nat)
    requires 0 < time <= max && Between(g, ft, ef, fp, om, goalsAt, plan, lh, max, time)
    ensures Within(g, ft, ef, fp, om, goalsAt, plan, lh, max, time, 0)
  {
    hide Fired, Provided, GoalListsOk, Graph.EffectsOk, Graph.FactsOk, Graph.OpsOk;
    assert OpsAt(g, ef, plan, time - 1) == {};
    assert OpCount(g, ef, plan, time - 1, max) == 0 + OpCount(g, ef, plan, time, max);
  }

  lemma LeaveLevel(g: Graph, ft: seq<FtMark>, ef: seq<EfMark>, fp: seq<FtPlan>, om: seq<OpMark>,
                   goalsAt: seq<seq<nat>>, plan: seq<nat>, lh: nat, max: nat, time: nat)
    requires 0 < time <= max && |goalsAt| > max
    requires Within(g, ft, ef, fp, om, goalsAt, plan, lh, max, time, |goalsAt[time]|)
    ensures Between(g, ft, ef, fp, om, goalsAt, plan, lh, max, time - 1)
  {
    hide Fired, Provided, MadeTrue, GoalListsOk, Graph.EffectsOk, Graph.FactsOk, Graph.OpsOk;
  }

  /** Skipping a goal that an effect selected before makes true already. */
  lemma SkipStep(g: Graph, ft: seq<FtMark>, ef: seq<EfMark>, fp: seq<FtPlan>, om: seq<OpMark>,
                 goalsAt: seq<seq<nat>>, plan: seq<nat>, lh: nat, max: nat, time: nat, i: nat)
    requires Within(g, ft, ef, fp, om, goalsAt, plan, lh, max, time, i)
    requires i < |goalsAt[time]| && fp[goalsAt[time][i]].isTrue == time
    ensures Within(g, ft, ef, fp, om, goalsAt, plan, lh, max, time, i + 1)
  {
    hide Fired, Provided, MadeTrue, Graph.EffectsOk, Graph.FactsOk, Graph.OpsOk;
    assert MadeTrue(g, ef, plan, |plan|, time - 1, goalsAt[time][i]);
  }

  /** Counting the operator of a newly selected effect. */
  lemma UseStep(g: Graph, ef: seq<EfMark>, om: seq<OpMark>, om': seq<OpMark>, plan: seq<nat>, lh: nat, lh': nat,
                max: nat, time: nat, e: nat)
    requires |ef| == |g.efs| && Below(plan, |ef|) && e < |ef| && ef[e].level == time - 1 && 0 < time <= max
    requires UsedMarksOk(g, ef, om, plan, max, time) && lh == OpCount(g, ef, plan, time - 1, max)
    requires |om| == |om'| && g.efs[e].op < |om|
    requires om' == om[g.efs[e].op := om[g.efs[e].op].(isUsed := time)]
    requires lh' == lh + if om[g.efs[e].op].isUsed != time then 1 else 0
    ensures Below(plan + [e], |ef|)
    ensures UsedMarksOk(g, ef, om', plan + [e], max, time) && lh' == OpCount(g, ef, plan + [e], time - 1, max)
  {
    hide OpsAt;
    OpsAtAppend(g, ef, plan, e, time - 1);
    OpCountAppend(g, ef, plan, e, time, max);
    var o := g.efs[e].op;
    assert o in OpsAt(g, ef, plan, time - 1) ==>
      OpsAt(g, ef, plan, time - 1) + {o} == OpsAt(g, ef, plan, time - 1);
  }

  // ---- the cost of an adder, and helpful operators

  /** The sum of the levels of some facts. */
  function LevelSum(ft: seq<FtMark>, s: seq<nat>): int
    requires Below(s, |ft|)
  {
    if s == [] then 0 else LevelSum(ft, s[..|s| - 1]) + ft[s[|s| - 1]].level
  }

  /** One pair for every layer below every fact of the list. */
  ghost function LayersBelow(ft: seq<FtMark>, s: seq<nat>): set<(nat, nat)>
    requires Below(s, |ft|)
  {
    set i: nat, l: nat | i < |s| && l < ft[s[i]].level :: (i, l)
  }

  /** The sum counts the layers below the facts. */
  lemma {:induction false} LevelSumCounts(ft: seq<FtMark>, s: seq<nat>)
    requires Below(s, |ft|) && forall i :: 0 <= i < |s| ==> ft[s[i]].level >= 0
    ensures LevelSum(ft, s) == |LayersBelow(ft, s)|
  {
    if s == [] {
      assert LayersBelow(ft, s) == {};
    } else {
      var n: nat := |s| - 1;
      var front, level: nat := s[..n], ft[s[n]].level;
      LevelSumCounts(ft, front);
      ColumnSize(n, level);
      assert LayersBelow(ft, s) == LayersBelow(ft, front) + set l: nat | l < level :: (n, l);
    }
  }

  /** The operators of the effects in `s` that take place in the evaluated state. */
  ghost function OpsOf(g: Graph, ef: seq<EfMark>, s: seq<nat>): set<nat>
    requires |ef| == |g.efs| && Below(s, |ef|)
  {
    set e | e in s && ef[e].level == 0 :: g.efs[e].op
  }

  lemma OpsOfNone(g: Graph, ef: seq<EfMark>)
    requires |ef| == |g.efs|
    ensures forall s: seq<nat> :: s == [] ==> OpsOf(g, ef, s) == {}
  {
  }

  lemma OpsOfAppend(g: Graph, ef: seq<EfMark>, s: seq<nat>, e: nat)
    requires |ef| == |g.efs| && Below(s, |ef|) && e < |ef|
    ensures Below(s + [e], |ef|)
    ensures OpsOf(g, ef, s + [e]) == OpsOf(g, ef, s) + if ef[e].level == 0 then {g.efs[e].op} else {}
  {
    assert e in s + [e] && forall d :: d in s ==> d in s + [e];
  }

  /** The operators with such an effect that adds one of `facts`. */
  ghost function Adders(g: Graph, ef: seq<EfMark>, facts: seq<nat>): set<nat>
    requires g.FactsOk() && |ef| == |g.efs| && Below(facts, |g.fts|)
  {
    set f, o | f in facts && o in OpsOf(g, ef, g.fts[f].A) :: o
  }

  /** Operator `o` can be applied in the evaluated state and adds a goal of the first layer. */
  ghost predicate Helps(g: Graph, ft: seq<FtMark>, ef: seq<EfMark>, fp: seq<FtPlan>, o: nat)
    requires g.FactsOk() && Sized(g, ft, ef) && |fp| == |ft|
  {
    exists f :: 0 <= f < |fp| && fp[f].isGoal && ft[f].level == 1 && o in OpsOf(g, ef, g.fts[f].A)
  }

  /** How many of the facts in `s` are goals or subgoals. */
  function GoalsIn(fp: seq<FtPlan>, s: seq<nat>): nat
    requires Below(s, |fp|)
  {
    if s == [] then 0 else GoalsIn(fp, s[..|s| - 1]) + if fp[s[|s| - 1]].isGoal then 1 else 0
  }

  /** The same for the effects in `s` that take place in the evaluated state, effect by effect. */
  function GoalsDeletedBy(g: Graph, ef: seq<EfMark>, fp: seq<FtPlan>, s: seq<nat>): nat
    requires |ef| == |g.efs| && Below(s, |ef|) && forall e :: 0 <= e < |g.efs| ==> Below(g.efs[e].D, |fp|)
  {
    if s == [] then 0
    else
      var last := s[|s| - 1];
      GoalsDeletedBy(g, ef, fp, s[..|s| - 1]) + if ef[last].level == 0 then GoalsIn(fp, g.efs[last].D) else 0
  }

  /** The goals and subgoals that the effects in `s` delete in the evaluated state, each with its effect. */
  ghost function GoalDeletes(g: Graph, ef: seq<EfMark>, fp: seq<FtPlan>, s: seq<nat>): set<(nat, nat)>
    requires |ef| == |g.efs| && Below(s, |ef|) && forall e :: 0 <= e < |g.efs| ==> Below(g.efs[e].D, |fp|)
  {
    set e, f | e in s && ef[e].level == 0 && f in g.efs[e].D && f < |fp| && fp[f].isGoal :: (e, f)
  }

  ghost function DeletedGoals(g: Graph, ef: seq<EfMark>, fp: seq<FtPlan>, s: seq<nat>): nat
    requires |ef| == |g.efs| && Below(s, |ef|) && forall e :: 0 <= e < |g.efs| ==> Below(g.efs[e].D, |fp|)
  {
    |GoalDeletes(g, ef, fp, s)|
  }

  ghost function GoalSet(fp: seq<FtPlan>, s: seq<nat>): set<nat> {
    set f | f in s && f < |fp| && fp[f].isGoal
  }

  lemma GoalSetAppend(fp: seq<FtPlan>, s: seq<nat>, f: nat)
    requires f < |fp| && f !in s
    ensures |GoalSet(fp, s + [f])| == |GoalSet(fp, s)| + if fp[f].isGoal then 1 else 0
  {
    assert forall d :: d in s + [f] <==> d in s || d == f;
    assert GoalSet(fp, s + [f]) == if fp[f].isGoal then GoalSet(fp, s) + {f} else GoalSet(fp, s);
  }

  /** Counting along a list without duplicates counts the goals in it. */
  lemma {:induction false} GoalsInCounts(fp: seq<FtPlan>, s: seq<nat>)
    requires Below(s, |fp|) && Distinct(s)
    ensures GoalsIn(fp, s) == |GoalSet(fp, s)|
  {
    hide GoalSet;
    if s == [] {
      NoGoalSet(fp);
    } else {
      var front, last := s[..|s| - 1], s[|s| - 1];
      assert s == front + [last] && last !in front;
      GoalsInCounts(fp, front);
      GoalSetAppend(fp, front, last);
    }
  }

  lemma NoGoalSet(fp: seq<FtPlan>)
    ensures GoalSet(fp, []) == {}
  {
  }

  lemma NothingDeletes(g: Graph, ef: seq<EfMark>, fp: seq<FtPlan>)
    requires |ef| == |g.efs| && forall d :: 0 <= d < |g.efs| ==> Below(g.efs[d].D, |fp|)
    ensures GoalDeletes(g, ef, fp, []) == {}
  {
  }

  lemma DeletesSame(g: Graph, ef: seq<EfMark>, fp: seq<FtPlan>, s: seq<nat>, e: nat)
    requires |ef| == |g.efs| && Below(s, |ef|) && e < |ef| && ef[e].level != 0
    requires forall d :: 0 <= d < |g.efs| ==> Below(g.efs[d].D, |fp|)
    ensures Below(s + [e], |ef|) && GoalDeletes(g, ef, fp, s + [e]) == GoalDeletes(g, ef, fp, s)
  {
    assert forall d :: d in s + [e] <==> d in s || d == e;
  }

  lemma DeletesSplit(g: Graph, ef: seq<EfMark>, fp: seq<FtPlan>, s: seq<nat>, e: nat)
    requires |ef| == |g.efs| && Below(s, |ef|) && e < |ef| && ef[e].level == 0 && e !in s
    requires forall d :: 0 <= d < |g.efs| ==> Below(g.efs[d].D, |fp|)
    ensures Below(s + [e], |ef|)
    ensures var now := Tagged(e, GoalSet(fp, g.efs[e].D));
      GoalDeletes(g, ef, fp, s + [e]) == GoalDeletes(g, ef, fp, s) + now && GoalDeletes(g, ef, fp, s) !! now
  {
    assert forall d :: d in s + [e] <==> d in s || d == e;
  }

  /** So the count over the effects of an operator is the number of goals they delete. */
  lemma {:induction false} DeletedGoalsCount(g: Graph, ef: seq<EfMark>, fp: seq<FtPlan>, s: seq<nat>)
    requires |ef| == |g.efs| && Below(s, |ef|) && Distinct(s)
    requires forall e :: 0 <= e < |g.efs| ==> Below(g.efs[e].D, |fp|) && Distinct(g.efs[e].D)
    ensures GoalsDeletedBy(g, ef, fp, s) == DeletedGoals(g, ef, fp, s)
  {
    hide GoalDeletes, GoalsIn, GoalSet, Tagged;
    if s == [] {
      NothingDeletes(g, ef, fp);
    } else {
      var front, last := s[..|s| - 1], s[|s| - 1];
      assert s == front + [last] && last !in front;
      DeletedGoalsCount(g, ef, fp, front);
      if ef[last].level == 0 {
        GoalsInCounts(fp, g.efs[last].D);
        TaggedSize(last, GoalSet(fp, g.efs[last].D));
        DeletesSplit(g, ef, fp, front, last);
        DisjointSize(GoalDeletes(g, ef, fp, front), Tagged(last, GoalSet(fp, g.efs[last].D)));
      } else {
        DeletesSame(g, ef, fp, front, last);
      }
    }
  }

  /** What the extraction yields when the goals are in reach: a relaxed plan that runs from the
      state, fires each selected effect once and reaches the goals, and the number of its
      operators, counted per level. */
  ghost predicate Extracted(g: Graph, S: set<nat>, goals: set<nat>, ef: seq<EfMark>, plan: seq<nat>, max: nat, h: int) {
    && g.WellFormed() && |ef| == |g.efs| && AreLive(g, plan) && Distinct(plan)
    && AreLive(g, Schedule(ef, plan, max))
    && multiset(Schedule(ef, plan, max)) == multiset(plan)
    && Executable(g, S, Schedule(ef, plan, max))
    && goals <= After(g, S, Schedule(ef, plan, max))
    && h == OpCount(g, ef, plan, 0, max) == |UsedOps(g, ef, plan, 0, max)|
  }

  /** The helpful operators, without duplicates and those that delete fewer goals first. */
  ghost predicate HelpfulOk(g: Graph, ft: seq<FtMark>, ef: seq<EfMark>, fp: seq<FtPlan>, H: seq<nat>)
    requires g.WellFormed() && Sized(g, ft, ef) && |fp| == |ft|
  {
    && Distinct(H) && Below(H, |g.ops|)
    && (forall o :: o in H <==> Helps(g, ft, ef, fp, o))
    && forall i, j :: 0 <= i < j < |H| ==>
         DeletedGoals(g, ef, fp, g.ops[H[i]].E) <= DeletedGoals(g, ef, fp, g.ops[H[j]].E)
  }

  lemma ExtractionDone(g: Graph, S: set<nat>, goals: set<nat>, ft: seq<FtMark>, ef: seq<EfMark>, fp: seq<FtPlan>,
                       om: seq<OpMark>, goalsAt: seq<seq<nat>>, plan: seq<nat>, lh: nat, max: nat)
    requires Levelled(g, S, ft, ef, max) && Between(g, ft, ef, fp, om, goalsAt, plan, lh, max, 0)
    requires forall f :: f in goals ==> f < |fp| && fp[f].isGoal
    ensures Extracted(g, S, goals, ef, plan, max, lh)
  {
    hide Schedule, After, Executable, OpCount, MadeTrue, Provided, Fired, Graph.EffectsOk, Graph.FactsOk, Graph.OpsOk;
    ScheduleRuns(g, S, ft, ef, fp, goalsAt, plan, max, max);
    SchedulePermutes(ef, plan, max);
    OpCountCounts(g, ef, plan, 0, max);
  }

  lemma GoalListsEmpty(ft: seq<FtMark>, fp: seq<FtPlan>, goalsAt: seq<seq<nat>>, max: nat)
    requires |ft| == |fp| && |goalsAt| > max && forall l :: 0 <= l <= max ==> goalsAt[l] == []
    requires forall f :: 0 <= f < |fp| ==> fp[f] == FP_CLEAR
    ensures GoalListsOk(ft, fp, goalsAt, max)
  {
  }

  /** Making one more fact a goal of its level. */
  lemma GoalListsStep(ft: seq<FtMark>, fp: seq<FtPlan>, fp': seq<FtPlan>, goalsAt: seq<seq<nat>>, goalsAt': seq<seq<nat>>,
                      max: nat, f: nat)
    requires GoalListsOk(ft, fp, goalsAt, max) && f < |ft| && 0 <= ft[f].level <= max
    requires |fp'| == |fp| && fp'[f].isGoal && forall d :: 0 <= d < |fp| && d != f ==> fp'[d] == fp[d]
    requires goalsAt' == goalsAt[ft[f].level := goalsAt[ft[f].level] + [f]]
    ensures GoalListsOk(ft, fp', goalsAt', max)
  {
  }

  /** Among the first `n` effects of `s` with level `t`, the one at `i` has the fewest layers below its
      conditions, and no earlier one has as few. */
  ghost predicate Cheapest(g: Graph, ft: seq<FtMark>, ef: seq<EfMark>, s: seq<nat>, n: nat, t: int, i: nat)
    requires g.EffectsOk() && Sized(g, ft, ef) && Below(s, |ef|) && n <= |s|
  {
    && i < n && ef[s[i]].level == t
    && forall j :: 0 <= j < n && ef[s[j]].level == t ==>
         && |LayersBelow(ft, g.efs[s[i]].PC)| <= |LayersBelow(ft, g.efs[s[j]].PC)|
         && (j < i ==> |LayersBelow(ft, g.efs[s[i]].PC)| < |LayersBelow(ft, g.efs[s[j]].PC)|)
  }

  /** The operators collected from the goal list of the first layer are the helpful ones. */
  lemma AddersHelp(g: Graph, S: set<nat>, ft: seq<FtMark>, ef: seq<EfMark>, fp: seq<FtPlan>, goalsAt: seq<seq<nat>>,
                   max: nat, o: nat)
    requires g.WellFormed() && Levelled(g, S, ft, ef, max) && GoalListsOk(ft, fp, goalsAt, max)
    requires |goalsAt| > 1 && Below(goalsAt[1], |g.fts|)
    ensures o in Adders(g, ef, goalsAt[1]) <==> Helps(g, ft, ef, fp, o)
  {
    hide Graph.EffectsOk, Graph.OpsOk, Graph.ImpliedOk;
    if Helps(g, ft, ef, fp, o) {
      var f :| 0 <= f < |fp| && fp[f].isGoal && ft[f].level == 1 && o in OpsOf(g, ef, g.fts[f].A);
      assert f in goalsAt[1];
    }
    if o in Adders(g, ef, goalsAt[1]) {
      var f :| f in goalsAt[1] && o in OpsOf(g, ef, g.fts[f].A);
      var e :| e in g.fts[f].A && ef[e].level == 0;
      assert max >= 1;
      var i :| 0 <= i < |goalsAt[1]| && goalsAt[1][i] == f;
      assert fp[goalsAt[1][i]].isGoal;
    }
  }

  lemma AddersAppend(g: Graph, ef: seq<EfMark>, facts: seq<nat>, f: nat)
    requires g.FactsOk() && |ef| == |g.efs| && Below(facts, |g.fts|) && f < |g.fts|
    ensures Below(facts + [f], |g.fts|)
    ensures Adders(g, ef, facts + [f]) == Adders(g, ef, facts) + OpsOf(g, ef, g.fts[f].A)
  {
    hide OpsOf;
    assert f in facts + [f] && forall d :: d in facts ==> d in facts + [f];
  }

  /** Inserting an operator behind those that delete no more goals than it does. */
  lemma InsertSorted(H: seq<nat>, D: seq<nat>, j: nat, o: nat, d: nat)
    requires |D| == |H| && j <= |D| && forall i, k :: 0 <= i < k < |D| ==> D[i] <= D[k]
    requires (forall k :: 0 <= k < j ==> D[k] <= d) && (j < |D| ==> D[j] > d)
    ensures var D' := D[..j] + [d] + D[j..]; forall i, k :: 0 <= i < k < |D'| ==> D'[i] <= D'[k]
  {
  }

  /** The state of the extraction before its first level. */
  lemma ExtractionStarts(g: Graph, S: set<nat>, ft: seq<FtMark>, ef: seq<EfMark>, fp: seq<FtPlan>, om: seq<OpMark>,
                         goalsAt: seq<seq<nat>>, max: nat, m: nat)
    requires g.WellFormed() && Levelled(g, S, ft, ef, max) && GoalListsOk(ft, fp, goalsAt, max) && m <= max
    requires forall f :: 0 <= f < |fp| ==> fp[f].isTrue == INFINITY && (fp[f].isGoal ==> ft[f].level <= m)
    requires forall o :: 0 <= o < |om| ==> om[o].isUsed == INFINITY
    ensures Between(g, ft, ef, fp, om, goalsAt, [], 0, max, m)
  {
    hide MadeTrue, Graph.EffectsOk, Graph.OpsOk, Graph.FactsOk;
    OpCountNone(g, ef, [], m, max);
  }

  /** With a goal above the evaluated state, the heuristic value counts at least one operator
      for each level. */
  lemma GoalsCount(g: Graph, S: set<nat>, ft: seq<FtMark>, ef: seq<EfMark>, fp: seq<FtPlan>, om: seq<OpMark>,
                   goalsAt: seq<seq<nat>>, plan: seq<nat>, lh: nat, max: nat, f: nat)
    requires Levelled(g, S, ft, ef, max) && Between(g, ft, ef, fp, om, goalsAt, plan, lh, max, 0)
    requires f < |fp| && fp[f].isGoal && ft[f].level > 0
    ensures lh >= ft[f].level && GoalAt(ft, fp, 1)
  {
    hide MadeTrue, OpCount, Graph.EffectsOk, Graph.OpsOk, Graph.FactsOk, Graph.ImpliedOk, Provided;
    OpCountBound(g, S, ft, ef, fp, goalsAt, plan, max, ft[f].level, max);
  }

  /** A goal of the first layer has a helpful operator. */
  lemma GoalHelps(g: Graph, S: set<nat>, ft: seq<FtMark>, ef: seq<EfMark>, fp: seq<FtPlan>, max: nat)
    requires g.FactsOk() && Levelled(g, S, ft, ef, max) && |fp| == |ft| && GoalAt(ft, fp, 1)
    ensures exists o :: Helps(g, ft, ef, fp, o)
  {
    var d :| 0 <= d < |fp| && fp[d].isGoal && ft[d].level == 1;
    LevelledSupports(g, S, ft, ef, max, d);
    var i :| 0 <= i < |g.fts[d].A| && g.fts[d].A[i] < |ef| && ef[g.fts[d].A[i]].level == 0;
    assert g.efs[g.fts[d].A[i]].op in OpsOf(g, ef, g.fts[d].A);
    assert Helps(g, ft, ef, fp, g.efs[g.fts[d].A[i]].op);
  }

  // ---- what an evaluation says about the state

  /** The heuristic value is trustworthy: INFINITY exactly at the dead ends of the problem
      without deletes, zero exactly at the goals, else no less than the number of layers. */
  ghost predicate Trustworthy(g: Graph, S: set<nat>, goals: set<nat>, h: int) {
    && (h == INFINITY <==> RelaxedUnreachable(g, S, goals))
    && (h == 0 <==> goals <= S)
    && (h != INFINITY ==> h >= 0 && goals <= Layer(g, S, h))
  }

  lemma LevelsAreTrustworthy(g: Graph, S: set<nat>, goals: seq<nat>, ft: seq<FtMark>, ef: seq<EfMark>, time: nat, h: int)
    requires g.WellFormed() && g.IsList(goals) && Built(g, S, Elems(goals), ft, ef, time) && Sized(g, ft, ef) && h >= -1
    requires h == INFINITY <==> exists f :: f in goals && ft[f].level == INFINITY
    requires h != INFINITY ==> forall f :: f in goals ==> 0 <= ft[f].level <= h
    requires h > 0 ==> exists f :: f in goals && ft[f].level > 0
    ensures Trustworthy(g, S, Elems(goals), h)
  {
    LayerZero(g, S);
    hide Layer;
    if h == INFINITY {
      var f :| f in goals && ft[f].level == INFINITY;
      assert f in Elems(goals);
      forall t: nat
        ensures !(Elems(goals) <= Layer(g, S, t))
      {
        if t <= time {
          LayersGrow(g, S, t, time);
        } else {
          LayersStop(g, S, time, t);
        }
      }
    } else {
      forall f | f in Elems(goals)
        ensures f in Layer(g, S, h)
      {
        assert FactFirstAt(g, S, ft[f].level, f);
        LayersGrow(g, S, ft[f].level, h);
      }
      GoalsAreZero(g, S, goals, ft, ef, time, h);
    }
  }

  lemma GoalsAreZero(g: Graph, S: set<nat>, goals: seq<nat>, ft: seq<FtMark>, ef: seq<EfMark>, time: nat, h: int)
    requires g.IsList(goals) && Built(g, S, Elems(goals), ft, ef, time) && Sized(g, ft, ef) && h >= 0
    requires forall f :: f in goals ==> 0 <= ft[f].level <= h
    requires h > 0 ==> exists f :: f in goals && ft[f].level > 0
    ensures h == 0 <==> Elems(goals) <= S
  {
    LayerZero(g, S);
    hide Layer;
    if h == 0 {
      forall f | f in Elems(goals)
        ensures f in S
      {
        assert FactFirstAt(g, S, ft[f].level, f);
      }
    } else {
      var f :| f in goals && ft[f].level > 0;
      assert FactFirstAt(g, S, ft[f].level, f);
      LayersGrow(g, S, 0, ft[f].level - 1);
      assert f in Elems(goals);
    }
  }

  lemma LayerZero(g: Graph, S: set<nat>)
    ensures Layer(g, S, 0) == S
  {
  }

  /** A helpful operator can be applied in the state and adds a fact that is not yet true. */
  ghost predicate Useful(g: Graph, S: set<nat>, o: nat) {
    o < |g.ops| && exists e: nat :: e < |g.efs| && g.Fires(o, e, S) && !(Elems(g.efs[e].A) <= S)
  }

  lemma HelpfulIsUseful(g: Graph, S: set<nat>, goals: set<nat>, ft: seq<FtMark>, ef: seq<EfMark>, fp: seq<FtPlan>,
                        time: nat, o: nat)
    requires g.WellFormed() && Built(g, S, goals, ft, ef, time) && Sized(g, ft, ef) && |fp| == |ft|
    requires Helps(g, ft, ef, fp, o)
    ensures Useful(g, S, o)
  {
    LayerZero(g, S);
    hide Layer;
    var f :| 0 <= f < |fp| && fp[f].isGoal && ft[f].level == 1 && o in OpsOf(g, ef, g.fts[f].A);
    var e :| e in g.fts[f].A && ef[e].level == 0 && g.efs[e].op == o;
    assert FactFirstAt(g, S, 1, f) && EffectFirstAt(g, S, 0, e);
    assert g.Fires(o, e, S) && f in Elems(g.efs[e].A);
  }

  lemma AllAreUseful(g: Graph, S: set<nat>, goals: set<nat>, ft: seq<FtMark>, ef: seq<EfMark>, fp: seq<FtPlan>,
                     time: nat, H: seq<nat>)
    requires g.WellFormed() && Built(g, S, goals, ft, ef, time) && Sized(g, ft, ef) && |fp| == |ft|
    requires HelpfulOk(g, ft, ef, fp, H)
    ensures forall o :: o in H ==> Useful(g, S, o)
  {
    hide Graph.WellFormed, Built, Helps, Useful, DeletedGoals;
    forall o | o in H
      ensures Useful(g, S, o)
    {
      HelpfulIsUseful(g, S, goals, ft, ef, fp, time, o);
    }
  }

  /** What the extraction may rely on after the layer loop: if a goal has no level the fixpoint
      ends without it, else all levels have their witnesses. */
  lemma BuiltLevelled(g: Graph, S: set<nat>, goals: seq<nat>, ft: seq<FtMark>, ef: seq<EfMark>, time: nat)
    requires g.WellFormed() && g.IsList(goals) && Sized(g, ft, ef) && Built(g, S, Elems(goals), ft, ef, time)
    ensures forall f :: 0 <= f < |ft| ==> -1 <= ft[f].level <= time
    ensures (forall f :: f in goals ==> ft[f].level != INFINITY) ==> Levelled(g, S, ft, ef, time)
  {
    hide Layer, Levelled;
    if Elems(goals) <= Layer(g, S, time) {
      ExactLevelled(g, S, Elems(goals), ft, ef, time);
    } else {
      var f :| f in Elems(goals) && f !in Layer(g, S, time);
      assert f in goals && ft[f].level == INFINITY;
    }
  }
}
