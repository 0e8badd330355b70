/** Why the extraction of relax.c selects the effects it selects. */
module Reasons {
  import opened Sequences
  import opened Connectivity
  import opened Layers
  import opened Fixpoint
  import opened Extraction
  import opened Selection
  import Transition

  /** What those of the first `k` selected effects that have level `t` make true. */
  ghost function TrueAt(g: Graph, ef: seq<EfMark>, plan: seq<nat>, k: nat, t: int): set<nat>
    requires g.ImpliedOk() && |ef| == |g.efs| && AreLive(g, plan)
  {
    set j, f | 0 <= j < k && j < |plan| && ef[plan[j]].level == t && f in Fired(g, plan[j]) :: f
  }

  /** The goals, and behind them what the first `k` selected effects need: their conditions without those that
      effects selected earlier make true at the same level. */
  ghost function Entered(g: Graph, ef: seq<EfMark>, goals: seq<nat>, plan: seq<nat>, k: nat): seq<nat>
    requires g.ImpliedOk() && |ef| == |g.efs| && AreLive(g, plan) && k <= |plan|
  {
    if k == 0 then goals
    else
      var e := plan[k - 1];
      Entered(g, ef, goals, plan, k - 1) + Transition.Without(g.efs[e].PC, TrueAt(g, ef, plan, k - 1, ef[e].level))
  }

  /** The list of a level holds what was entered at that level, each fact once and in that order. */
  ghost predicate ListsAre(ft: seq<FtMark>, w: Work, entered: seq<nat>) {
    && w.goals == Elems(entered)
    && (forall f :: f in entered ==> f < |ft| && 0 <= ft[f].level < |w.lists|)
    && forall l :: 0 <= l < |w.lists| ==>
      && InOrderOf(w.lists[l], entered)
      && forall f :: f in w.lists[l] <==> f in entered && f < |ft| && ft[f].level == l
  }

  /** The fact at place `x` is the first one of the list that is not yet true. */
  ghost predicate IsNext(facts: seq<nat>, x: nat, true': set<nat>) {
    x < |facts| && facts[x] !in true' && forall y :: 0 <= y < x ==> facts[y] in true'
  }

  /** Effect `e` is the first of the cheapest adders of fact `f` that have level `t`. */
  ghost predicate IsAdder(g: Graph, ft: seq<FtMark>, ef: seq<EfMark>, f: nat, t: int, e: nat)
    requires g.WellFormed() && Sized(g, ft, ef)
  {
    f < |g.fts| && exists i: nat :: i < |g.fts[f].A| && g.fts[f].A[i] == e && Cheapest(g, ft, ef, g.fts[f].A, |g.fts[f].A|, t, i)
  }

  /** The `k`-th effect was selected for the goal at place `x` of the list one level above: the first one there
      that was not yet true. */
  ghost predicate IsReason(g: Graph, ft: seq<FtMark>, ef: seq<EfMark>, lists: seq<seq<nat>>, plan: seq<nat>, k: nat, x: nat)
    requires g.WellFormed() && Sized(g, ft, ef) && AreLive(g, plan) && k < |plan|
  {
    && 0 <= ef[plan[k]].level < |lists| - 1
    && IsNext(lists[ef[plan[k]].level + 1], x, TrueAt(g, ef, plan, k, ef[plan[k]].level))
    && IsAdder(g, ft, ef, lists[ef[plan[k]].level + 1][x], ef[plan[k]].level, plan[k])
  }

  ghost predicate HasReason(g: Graph, ft: seq<FtMark>, ef: seq<EfMark>, lists: seq<seq<nat>>, plan: seq<nat>, k: nat)
    requires g.WellFormed() && Sized(g, ft, ef) && AreLive(g, plan) && k < |plan|
  {
    exists x: nat :: IsReason(g, ft, ef, lists, plan, k, x)
  }

  /** Effects of level `least` or more, by decreasing level and with their reasons. */
  ghost predicate AreReasoned(g: Graph, ft: seq<FtMark>, ef: seq<EfMark>, lists: seq<seq<nat>>, plan: seq<nat>, least: int)
    requires g.WellFormed() && Sized(g, ft, ef) && AreLive(g, plan)
  {
    && (forall k :: 0 <= k < |plan| ==> ef[plan[k]].level >= least && HasReason(g, ft, ef, lists, plan, k))
    && forall j, k :: 0 <= j < k < |plan| ==> ef[plan[j]].level >= ef[plan[k]].level
  }

  /** The goals of the levels above `t` are true one level below, and the first `n` of level `t`. */
  ghost predicate AreServed(g: Graph, ef: seq<EfMark>, lists: seq<seq<nat>>, plan: seq<nat>, t: nat, n: nat)
    requires g.ImpliedOk() && |ef| == |g.efs| && AreLive(g, plan)
  {
    forall l, x :: t <= l < |lists| && 0 <= x < |lists[l]| && (l == t ==> x < n) ==>
      lists[l][x] in TrueAt(g, ef, plan, |plan|, l - 1)
  }

  /** A selection: effects by decreasing level, each with its reason, the goals they serve, and every goal above
      the evaluated state served. */
  ghost predicate IsSelection(g: Graph, ft: seq<FtMark>, ef: seq<EfMark>, goals: seq<nat>, w: Work)
    requires g.WellFormed() && Sized(g, ft, ef)
  {
    && AreLive(g, w.plan)
    && AreReasoned(g, ft, ef, w.lists, w.plan, 0)
    && AreServed(g, ef, w.lists, w.plan, 1, if |w.lists| > 1 then |w.lists[1]| else 0)
    && ListsAre(ft, w, Entered(g, ef, goals, w.plan, |w.plan|))
  }

  // ---- the goals entered

  lemma EnterGoal(ft: seq<FtMark>, w: Work, E: seq<nat>, f: nat)
    requires ListsAre(ft, w, E) && f !in E && f < |ft| && 0 <= ft[f].level < |w.lists|
    ensures ListsAre(ft, AddGoal(ft, w, f), E + [f])
  {
    var v := AddGoal(ft, w, f);
    ElemsAppend(E, f);
    assert forall d :: d in E + [f] <==> d in E || d == f;
    hide InOrderOf;
    forall l | 0 <= l < |w.lists|
      ensures InOrderOf(v.lists[l], E + [f])
      ensures forall d :: d in v.lists[l] <==> d in E + [f] && d < |ft| && ft[d].level == l
    {
      assert (forall d :: d in w.lists[l] <==> d in Elems(w.lists[l])) && forall d :: d in E <==> d in Elems(E);
      OneMoreInOrder(w.lists[l], E, f, l == ft[f].level);
    }
  }

  /** A fact that is a goal already changes nothing. */
  lemma GoalAgain(ft: seq<FtMark>, w: Work, E: seq<nat>, f: nat)
    requires ListsAre(ft, w, E) && f in E
    ensures ListsAre(ft, w, E + [f])
  {
    ElemsAppend(E, f);
    assert f in Elems(E) && Elems(E) + {f} == Elems(E);
    assert forall d :: d in E + [f] <==> d in E;
    forall l | 0 <= l < |w.lists|
      ensures InOrderOf(w.lists[l], E + [f])
    {
      forall i, j | 0 <= i < j < |w.lists[l]|
        ensures SeenBefore(E + [f], w.lists[l][i], w.lists[l][j])
      {
        SeenStays(E, [f], w.lists[l][i], w.lists[l][j]);
      }
    }
  }

  lemma {:induction false} StartIs(ft: seq<FtMark>, goals: seq<nat>, max: nat)
    requires Distinct(goals) && forall f :: f in goals ==> f < |ft| && 0 <= ft[f].level <= max
    ensures var w := Start(ft, goals, max);
      ListsAre(ft, w, goals) && |w.lists| == max + 1 && w.now == {} && w.plan == []
    ensures forall f :: f in goals ==> ft[f].level <= Top(ft, goals)
    ensures Top(ft, goals) <= max
  {
    if goals == [] {
      assert forall l :: 0 <= l <= max ==> Start(ft, goals, max).lists[l] == [];
    } else {
      var front, f := goals[..|goals| - 1], goals[|goals| - 1];
      assert forall d :: d in front ==> d in goals;
      StartIs(ft, front, max);
      assert goals == front + [f] && f !in front && goals[|goals| - 1] in goals;
      EnterGoal(ft, Start(ft, front, max), front, f);
    }
  }

  /** The conditions of a selected effect are entered, but those that are true at this level. */
  lemma {:induction false} SubgoalsAre(ft: seq<FtMark>, w: Work, pc: seq<nat>, E: seq<nat>, t: nat)
    requires ListsAre(ft, w, E) && t <= |w.lists| && forall p :: p in pc ==> p < |ft| && 0 <= ft[p].level < t
    ensures var v := AddSubgoalsTo(ft, w, pc);
      && ListsAre(ft, v, E + Transition.Without(pc, w.now))
      && v.plan == w.plan && v.now == w.now && |v.lists| == |w.lists|
      && forall l :: t <= l < |w.lists| ==> v.lists[l] == w.lists[l]
  {
    var E' := E + Transition.Without(pc, w.now);
    if pc == [] {
      assert E' == E;
    } else {
      var front, p := pc[..|pc| - 1], pc[|pc| - 1];
      assert pc == front + [p] && p in pc && forall q :: q in front ==> q in pc;
      SubgoalsAre(ft, w, front, E, t);
      var v, F := AddSubgoalsTo(ft, w, front), E + Transition.Without(front, w.now);
      assert forall d :: d in F <==> d in Elems(F);
      assert p in v.goals <==> p in F;
      hide ListsAre;
      if p in w.now {
        assert E' == F;
      } else {
        assert E' == F + [p];
        if p in F {
          GoalAgain(ft, v, F, p);
        } else {
          EnterGoal(ft, v, F, p);
        }
      }
    }
  }

  // ---- one more effect

  lemma TrueAtAppend(g: Graph, ef: seq<EfMark>, plan: seq<nat>, e: nat)
    requires g.ImpliedOk() && |ef| == |g.efs| && AreLive(g, plan) && e < |g.efs| && !g.efs[e].removed
    ensures AreLive(g, plan + [e])
    ensures forall k: nat, t :: k <= |plan| ==> TrueAt(g, ef, plan + [e], k, t) == TrueAt(g, ef, plan, k, t)
    ensures forall t :: TrueAt(g, ef, plan + [e], |plan| + 1, t) ==
              TrueAt(g, ef, plan, |plan|, t) + if ef[e].level == t then Fired(g, e) else {}
  {
    hide Fired;
    var plan' := plan + [e];
    assert plan'[|plan|] == e && forall j :: 0 <= j < |plan| ==> plan'[j] == plan[j];
  }

  lemma {:induction false} EnteredAppend(g: Graph, ef: seq<EfMark>, goals: seq<nat>, plan: seq<nat>, e: nat, k: nat)
    requires g.ImpliedOk() && |ef| == |g.efs| && AreLive(g, plan) && e < |g.efs| && !g.efs[e].removed && k <= |plan|
    ensures AreLive(g, plan + [e]) && Entered(g, ef, goals, plan + [e], k) == Entered(g, ef, goals, plan, k)
  {
    TrueAtAppend(g, ef, plan, e);
    hide TrueAt;
    if k > 0 {
      EnteredAppend(g, ef, goals, plan, e, k - 1);
      assert (plan + [e])[k - 1] == plan[k - 1];
    }
  }

  lemma EnteredOneMore(g: Graph, ef: seq<EfMark>, goals: seq<nat>, plan: seq<nat>, e: nat)
    requires g.ImpliedOk() && |ef| == |g.efs| && AreLive(g, plan) && e < |g.efs| && !g.efs[e].removed
    ensures AreLive(g, plan + [e])
    ensures Entered(g, ef, goals, plan + [e], |plan| + 1) ==
      Entered(g, ef, goals, plan, |plan|) + Transition.Without(g.efs[e].PC, TrueAt(g, ef, plan, |plan|, ef[e].level))
  {
    TrueAtAppend(g, ef, plan, e);
    EnteredAppend(g, ef, goals, plan, e, |plan|);
    hide TrueAt;
    assert (plan + [e])[|plan|] == e;
  }

  /** Among some adders of level `t` there is a first cheapest one. */
  lemma {:induction false} SomeCheapest(g: Graph, ft: seq<FtMark>, ef: seq<EfMark>, s: seq<nat>, n: nat, t: int) returns (i: nat)
    requires g.EffectsOk() && Sized(g, ft, ef) && Below(s, |ef|) && n <= |s|
    requires exists j :: 0 <= j < n && ef[s[j]].level == t
    ensures Cheapest(g, ft, ef, s, n, t, i)
  {
    hide LayersBelow;
    if exists j :: 0 <= j < n - 1 && ef[s[j]].level == t {
      i := SomeCheapest(g, ft, ef, s, n - 1, t);
      if ef[s[n - 1]].level == t && |LayersBelow(ft, g.efs[s[n - 1]].PC)| < |LayersBelow(ft, g.efs[s[i]].PC)| {
        i := n - 1;
      }
    } else {
      i := n - 1;
    }
  }

  lemma AdderIs(g: Graph, S: set<nat>, ft: seq<FtMark>, ef: seq<EfMark>, max: nat, f: nat) returns (e: nat)
    requires g.WellFormed() && Levelled(g, S, ft, ef, max) && f < |ft| && ft[f].level > 0
    ensures e == AdderOf(g, ft, ef, f, ft[f].level - 1) && IsAdder(g, ft, ef, f, ft[f].level - 1, e)
    ensures e < |g.efs| && !g.efs[e].removed && ef[e].level == ft[f].level - 1 && f in Fired(g, e)
    ensures forall p :: p in g.efs[e].PC ==> p < |ft| && 0 <= ft[p].level < ft[f].level
  {
    LevelledSupports(g, S, ft, ef, max, f);
    var s, t := g.fts[f].A, ft[f].level - 1;
    var i := SomeCheapest(g, ft, ef, s, |s|, t);
    e := AdderOf(g, ft, ef, f, t);
    hide LayersBelow;
    var j: nat :| j < |s| && s[j] == e && Cheapest(g, ft, ef, s, |s|, t, j);
    assert e in g.fts[f].A && EffectSupported(g, ft, ef, e);
    assert f in Elems(g.efs[e].A);
  }

  // ---- the run of the extraction

  /** The levels above `t` are done, and the first `n` goals of level `t`. */
  ghost predicate DoneTo(g: Graph, ft: seq<FtMark>, ef: seq<EfMark>, goals: seq<nat>, w: Work, t: nat, n: nat)
    requires g.WellFormed() && Sized(g, ft, ef)
  {
    && AreLive(g, w.plan)
    && AreReasoned(g, ft, ef, w.lists, w.plan, t - 1)
    && AreServed(g, ef, w.lists, w.plan, t, n)
    && ListsAre(ft, w, Entered(g, ef, goals, w.plan, |w.plan|))
    && w.now == TrueAt(g, ef, w.plan, |w.plan|, t - 1)
  }

  lemma ReasonStays(g: Graph, ft: seq<FtMark>, ef: seq<EfMark>, w: Work, v: Work, e: nat, t: nat, k: nat)
    requires g.WellFormed() && Sized(g, ft, ef) && AreLive(g, w.plan) && e < |g.efs| && !g.efs[e].removed
    requires v.plan == w.plan + [e] && |v.lists| == |w.lists| && forall l :: t <= l < |w.lists| ==> v.lists[l] == w.lists[l]
    requires k < |w.plan| && ef[w.plan[k]].level >= t - 1 && HasReason(g, ft, ef, w.lists, w.plan, k)
    ensures AreLive(g, v.plan) && HasReason(g, ft, ef, v.lists, v.plan, k)
  {
    hide TrueAt, IsNext, IsAdder, Graph.EffectsOk, Graph.OpsOk, Graph.ImpliedOk, Graph.FactsOk;
    TrueAtAppend(g, ef, w.plan, e);
    assert v.plan[k] == w.plan[k];
    var x: nat :| IsReason(g, ft, ef, w.lists, w.plan, k, x);
    assert v.lists[ef[w.plan[k]].level + 1] == w.lists[ef[w.plan[k]].level + 1];
    assert IsReason(g, ft, ef, v.lists, v.plan, k, x);
  }

  /** One goal: it is true already, or the effect selected for it makes it true. */
  lemma GoalDone(g: Graph, S: set<nat>, ft: seq<FtMark>, ef: seq<EfMark>, max: nat, goals: seq<nat>, w: Work, t: nat, n: nat)
    requires g.WellFormed() && Levelled(g, S, ft, ef, max)
    requires DoneTo(g, ft, ef, goals, w, t, n) && 0 < t < |w.lists| && n < |w.lists[t]|
    ensures var v := AfterGoal(g, ft, ef, w, w.lists[t][n], t);
      DoneTo(g, ft, ef, goals, v, t, n + 1) && |v.lists| == |w.lists| && v.lists[t] == w.lists[t]
  {
    var f := w.lists[t][n];
    assert f in w.lists[t];
    if f !in w.now {
      var e := AdderIs(g, S, ft, ef, max, f);
      EffectDone(g, ft, ef, goals, w, t, n, e);
    }
  }

  lemma EffectDone(g: Graph, ft: seq<FtMark>, ef: seq<EfMark>, goals: seq<nat>, w: Work, t: nat, n: nat, e: nat)
    requires g.WellFormed() && Sized(g, ft, ef)
    requires DoneTo(g, ft, ef, goals, w, t, n) && 0 < t < |w.lists| && n < |w.lists[t]| && w.lists[t][n] !in w.now
    requires e == AdderOf(g, ft, ef, w.lists[t][n], t - 1) && IsAdder(g, ft, ef, w.lists[t][n], t - 1, e)
    requires e < |g.efs| && !g.efs[e].removed && ef[e].level == t - 1 && w.lists[t][n] in Fired(g, e)
    requires forall p :: p in g.efs[e].PC ==> p < |ft| && 0 <= ft[p].level < t
    ensures var v := AfterGoal(g, ft, ef, w, w.lists[t][n], t);
      DoneTo(g, ft, ef, goals, v, t, n + 1) && |v.lists| == |w.lists| && v.lists[t] == w.lists[t]
  {
    hide TrueAt, Entered, ListsAre, AddSubgoalsTo, AdderOf, IsAdder, Fired, HasReason, AreReasoned,
      Graph.EffectsOk, Graph.OpsOk, Graph.FactsOk;
    var E, u := Entered(g, ef, goals, w.plan, |w.plan|), w.(plan := w.plan + [e]);
    var a, v := AddSubgoalsTo(ft, u, g.efs[e].PC), AfterGoal(g, ft, ef, w, w.lists[t][n], t);
    SameLists(ft, w, u, E);
    SubgoalsAre(ft, u, g.efs[e].PC, E, t);
    TrueAtAppend(g, ef, w.plan, e);
    EnteredOneMore(g, ef, goals, w.plan, e);
    assert v == a.(now := a.now + Fired(g, e));
    SameLists(ft, a, v, E + Transition.Without(g.efs[e].PC, w.now));
    OneMoreReason(g, ft, ef, w, v, e, t, n);
    OneMoreServed(g, ef, w, v, e, t, n);
  }

  lemma OneMoreReason(g: Graph, ft: seq<FtMark>, ef: seq<EfMark>, w: Work, v: Work, e: nat, t: nat, n: nat)
    requires g.WellFormed() && Sized(g, ft, ef) && AreLive(g, w.plan) && e < |g.efs| && !g.efs[e].removed
    requires v.plan == w.plan + [e] && |v.lists| == |w.lists| && forall l :: t <= l < |w.lists| ==> v.lists[l] == w.lists[l]
    requires 0 < t < |w.lists| && n < |w.lists[t]| && ef[e].level == t - 1 && IsAdder(g, ft, ef, w.lists[t][n], t - 1, e)
    requires IsNext(w.lists[t], n, TrueAt(g, ef, w.plan, |w.plan|, t - 1)) && AreReasoned(g, ft, ef, w.lists, w.plan, t - 1)
    ensures AreLive(g, v.plan) && AreReasoned(g, ft, ef, v.lists, v.plan, t - 1)
  {
    hide TrueAt, Fired;
    TrueAtAppend(g, ef, w.plan, e);
    forall k | 0 <= k < |v.plan|
      ensures ef[v.plan[k]].level >= t - 1 && HasReason(g, ft, ef, v.lists, v.plan, k)
    {
      if k < |w.plan| {
        ReasonStays(g, ft, ef, w, v, e, t, k);
      } else {
        assert IsReason(g, ft, ef, v.lists, v.plan, k, n);
      }
    }
  }

  lemma OneMoreServed(g: Graph, ef: seq<EfMark>, w: Work, v: Work, e: nat, t: nat, n: nat)
    requires g.ImpliedOk() && |ef| == |g.efs| && AreLive(g, w.plan) && e < |g.efs| && !g.efs[e].removed
    requires v.plan == w.plan + [e] && |v.lists| == |w.lists| && forall l :: t <= l < |w.lists| ==> v.lists[l] == w.lists[l]
    requires t < |w.lists| && n < |w.lists[t]| && ef[e].level == t - 1 && w.lists[t][n] in Fired(g, e)
    requires AreServed(g, ef, w.lists, w.plan, t, n)
    ensures AreLive(g, v.plan) && AreServed(g, ef, v.lists, v.plan, t, n + 1)
  {
    hide TrueAt, IsNext, IsAdder, Graph.EffectsOk, Graph.OpsOk, Graph.ImpliedOk, Graph.FactsOk;
    TrueAtAppend(g, ef, w.plan, e);
    hide TrueAt, Fired;
  }

  lemma SameLists(ft: seq<FtMark>, a: Work, v: Work, E: seq<nat>)
    requires ListsAre(ft, a, E) && v.lists == a.lists && v.goals == a.goals
    ensures ListsAre(ft, v, E)
  {
  }

  lemma {:induction false} GoalsDone(g: Graph, S: set<nat>, ft: seq<FtMark>, ef: seq<EfMark>, max: nat, goals: seq<nat>,
                                     w: Work, t: nat, n: nat)
    requires g.WellFormed() && Sized(g, ft, ef) && Levelled(g, S, ft, ef, max)
    requires DoneTo(g, ft, ef, goals, w, t, 0) && 0 < t < |w.lists| && n <= |w.lists[t]|
    ensures var v := AfterGoals(g, ft, ef, w, w.lists[t][..n], t);
      DoneTo(g, ft, ef, goals, v, t, n) && |v.lists| == |w.lists| && v.lists[t] == w.lists[t]
    decreases n
  {
    hide *;
    if n == 0 {
      NoGoals(g, ft, ef, w, t);
    } else {
      GoalsDone(g, S, ft, ef, max, goals, w, t, n - 1);
      GoalsStep(g, ft, ef, w, w.lists[t], t, n - 1);
      GoalDone(g, S, ft, ef, max, goals, AfterGoals(g, ft, ef, w, w.lists[t][..n - 1], t), t, n - 1);
    }
  }

  /** Nothing is true yet at the next level. */
  lemma NextLevel(g: Graph, ft: seq<FtMark>, ef: seq<EfMark>, goals: seq<nat>, w: Work, t: nat)
    requires g.WellFormed() && Sized(g, ft, ef) && 0 < t < |w.lists| && DoneTo(g, ft, ef, goals, w, t, |w.lists[t]|)
    ensures DoneTo(g, ft, ef, goals, w.(now := {}), t - 1, 0)
  {
    hide HasReason, Entered, Fired, Graph.EffectsOk, Graph.OpsOk, Graph.ImpliedOk, Graph.FactsOk;
    SameLists(ft, w, w.(now := {}), Entered(g, ef, goals, w.plan, |w.plan|));
  }

  lemma {:induction false} LevelsDone(g: Graph, S: set<nat>, ft: seq<FtMark>, ef: seq<EfMark>, max: nat, goals: seq<nat>,
                                      w: Work, t: nat)
    requires g.WellFormed() && Sized(g, ft, ef) && Levelled(g, S, ft, ef, max)
    requires DoneTo(g, ft, ef, goals, w, t, 0) && t < |w.lists|
    ensures DoneTo(g, ft, ef, goals, AfterLevels(g, ft, ef, w, t), 0, 0) && |AfterLevels(g, ft, ef, w, t).lists| == |w.lists|
    decreases t
  {
    hide *;
    if t == 0 {
      NoLevels(g, ft, ef, w);
    } else {
      LevelStep(g, ft, ef, w, t);
      var s := w.lists[t];
      assert s[..|s|] == s;
      GoalsDone(g, S, ft, ef, max, goals, w, t, |s|);
      var v := AfterGoals(g, ft, ef, w, s, t);
      NextLevel(g, ft, ef, goals, v, t);
      LevelsDone(g, S, ft, ef, max, goals, v.(now := {}), t - 1);
    }
  }

  lemma StartDone(g: Graph, ft: seq<FtMark>, ef: seq<EfMark>, goals: seq<nat>, w: Work, top: nat)
    requires g.WellFormed() && Sized(g, ft, ef) && ListsAre(ft, w, goals) && w.now == {} && w.plan == []
    requires forall f :: f in goals ==> f < |ft| && ft[f].level <= top
    ensures DoneTo(g, ft, ef, goals, w, top, 0)
  {
    hide Graph.EffectsOk, Graph.OpsOk, Graph.ImpliedOk, Graph.FactsOk, InOrderOf, HasReason, Fired;
    assert TrueAt(g, ef, w.plan, |w.plan|, top - 1) == {};
    forall l | top < l < |w.lists|
      ensures |w.lists[l]| == 0
    {
      EmptyOrNot(w.lists[l]);
    }
  }

  lemma DoneIsSelection(g: Graph, ft: seq<FtMark>, ef: seq<EfMark>, goals: seq<nat>, w: Work)
    requires g.WellFormed() && Sized(g, ft, ef) && DoneTo(g, ft, ef, goals, w, 0, 0)
    ensures IsSelection(g, ft, ef, goals, w)
  {
    hide Graph.EffectsOk, Graph.OpsOk, Graph.ImpliedOk, Graph.FactsOk, ListsAre, TrueAt, Entered;
  }

  /** The extraction selects by these reasons and no other. */
  lemma SelectionHasReasons(g: Graph, S: set<nat>, ft: seq<FtMark>, ef: seq<EfMark>, goals: seq<nat>, max: nat)
    requires g.WellFormed() && Sized(g, ft, ef) && Levelled(g, S, ft, ef, max) && Distinct(goals)
    requires forall f :: f in goals ==> f < |ft| && 0 <= ft[f].level <= max
    ensures IsSelection(g, ft, ef, goals, FinalWork(g, ft, ef, goals, max))
    ensures |FinalWork(g, ft, ef, goals, max).lists| == max + 1
  {
    hide Levelled, Graph.EffectsOk, Graph.OpsOk, Graph.ImpliedOk, Graph.FactsOk, ListsAre, Start, Top, AfterLevels, DoneTo,
      IsSelection;
    var w, top := Start(ft, goals, max), Top(ft, goals);
    StartIs(ft, goals, max);
    StartDone(g, ft, ef, goals, w, top);
    LevelsDone(g, S, ft, ef, max, goals, w, top);
    DoneIsSelection(g, ft, ef, goals, AfterLevels(g, ft, ef, w, top));
  }

  lemma GoalLevels(g: Graph, S: set<nat>, goals: seq<nat>, ft: seq<FtMark>, ef: seq<EfMark>, time: nat)
    requires g.WellFormed() && g.IsList(goals) && Sized(g, ft, ef) && Built(g, S, Elems(goals), ft, ef, time)
    requires Elems(goals) <= Layer(g, S, time)
    ensures Levelled(g, S, ft, ef, time) && forall f :: f in goals ==> f < |ft| && 0 <= ft[f].level <= time
  {
    hide Layer, Levelled, FactFirstAt, EffectFirstAt, Enabled;
    BuiltLevelled(g, S, goals, ft, ef, time);
    forall f | f in goals
      ensures f < |ft| && 0 <= ft[f].level <= time
    {
      assert f in Elems(goals);
    }
  }

  /** Relaxed plan, value and helpful operators of a state whose goals are in reach come from a selection in this sense. */
  lemma ResultsHaveReasons(g: Graph, S: set<nat>, goals: seq<nat>)
    returns (ft: seq<FtMark>, ef: seq<EfMark>, time: nat, w: Work)
    requires Evaluable(g, S, goals) && g.IsList(goals) && Distinct(goals)
    ensures g.WellFormed() && Levels(g, S, Elems(goals), ft, ef, time)
    ensures IsSelection(g, ft, ef, goals, w) && |w.lists| == time + 1
    ensures RelaxedPlan(g, S, goals) == w.plan && HelpfulOps(g, S, goals) == HelpfulAfter(g, ef, w)
    ensures Value(g, S, goals) == |UsedOps(g, ef, w.plan, 0, time)|
  {
    hide Layer, IsSelection, FinalWork, HelpfulAfter, RelaxedPlan, Value, HelpfulOps, OpCount, UsedOps, Built,
      Graph.EffectsOk, Graph.OpsOk, Graph.ImpliedOk, Graph.FactsOk;
    ft, ef, time :| Levels(g, S, Elems(goals), ft, ef, time) && Elems(goals) <= Layer(g, S, time);
    w := FinalWork(g, ft, ef, goals, time);
    GoalLevels(g, S, goals, ft, ef, time);
    SelectionHasReasons(g, S, ft, ef, goals, time);
    AreLiveHere(g, ft, ef, goals, w);
    assert Bare(ft) == ft && BareEffects(ef) == ef;
    ResultsAreFunctions(g, S, goals, ft, ef, time, w.plan);
    OpCountCounts(g, ef, w.plan, 0, time);
  }

  lemma AreLiveHere(g: Graph, ft: seq<FtMark>, ef: seq<EfMark>, goals: seq<nat>, w: Work)
    requires g.WellFormed() && Sized(g, ft, ef) && IsSelection(g, ft, ef, goals, w)
    ensures Below(w.plan, |ef|)
  {
  }

  // ---- there is only one selection

  lemma {:induction false} SamePrefix(g: Graph, ef: seq<EfMark>, goals: seq<nat>, plan: seq<nat>, plan': seq<nat>, k: nat)
    requires g.ImpliedOk() && |ef| == |g.efs| && AreLive(g, plan) && AreLive(g, plan')
    requires k <= |plan| && k <= |plan'| && forall j :: 0 <= j < k ==> plan[j] == plan'[j]
    ensures forall t :: TrueAt(g, ef, plan, k, t) == TrueAt(g, ef, plan', k, t)
    ensures Entered(g, ef, goals, plan, k) == Entered(g, ef, goals, plan', k)
  {
    hide Fired;
    if k > 0 {
      SamePrefix(g, ef, goals, plan, plan', k - 1);
    }
  }

  lemma WithoutElems(s: seq<nat>, X: set<nat>)
    ensures forall x :: x in Transition.Without(s, X) ==> x in s
  {
  }

  /** Effects of levels below `l` enter no facts of level `l`. */
  lemma {:induction false} EnteredLater(g: Graph, S: set<nat>, ft: seq<FtMark>, ef: seq<EfMark>, max: nat, goals: seq<nat>,
                                        plan: seq<nat>, k: nat, n: nat, l: int)
    requires g.WellFormed() && Levelled(g, S, ft, ef, max) && AreLive(g, plan) && k <= n <= |plan|
    requires forall j :: k <= j < n ==> 0 <= ef[plan[j]].level < l
    ensures Entered(g, ef, goals, plan, k) <= Entered(g, ef, goals, plan, n)
    ensures forall f :: f in Entered(g, ef, goals, plan, n) && f < |ft| && ft[f].level == l ==> f in Entered(g, ef, goals, plan, k)
    decreases n
  {
    hide TrueAt, Graph.EffectsOk, Graph.OpsOk, Graph.FactsOk, FactSupported, Transition.Without;
    if k < n {
      EnteredLater(g, S, ft, ef, max, goals, plan, k, n - 1, l);
      var e := plan[n - 1];
      WithoutElems(g.efs[e].PC, TrueAt(g, ef, plan, n - 1, ef[e].level));
      assert EffectSupported(g, ft, ef, e);
    }
  }

  lemma SameList(ft: seq<FtMark>, w: Work, w': Work, E: seq<nat>, E': seq<nat>, P: seq<nat>, l: nat)
    requires ListsAre(ft, w, E) && ListsAre(ft, w', E') && P <= E && P <= E' && l < |w.lists| && l < |w'.lists|
    requires forall f :: f in E && f < |ft| && ft[f].level == l ==> f in P
    requires forall f :: f in E' && f < |ft| && ft[f].level == l ==> f in P
    ensures w.lists[l] == w'.lists[l]
  {
    var r, r' := w.lists[l], w'.lists[l];
    InPrefix(ft, w, E, P, l);
    InPrefix(ft, w', E', P, l);
    assert (forall f :: f in P ==> f in E) && forall f :: f in P ==> f in E';
    hide InOrderOf;
    OneOrder(r, r', P);
  }

  lemma InPrefix(ft: seq<FtMark>, w: Work, E: seq<nat>, P: seq<nat>, l: nat)
    requires ListsAre(ft, w, E) && P <= E && l < |w.lists|
    requires forall f :: f in E && f < |ft| && ft[f].level == l ==> f in P
    ensures InOrderOf(w.lists[l], P)
  {
    hide SeenBefore;
    var r := w.lists[l];
    forall i, j | 0 <= i < j < |r|
      ensures SeenBefore(P, r[i], r[j])
    {
      assert r[j] in r;
      SeenInPrefix(P, E, r[i], r[j]);
    }
  }

  lemma SameAdder(g: Graph, ft: seq<FtMark>, ef: seq<EfMark>, f: nat, t: int, e: nat, e': nat)
    requires g.WellFormed() && Sized(g, ft, ef) && IsAdder(g, ft, ef, f, t, e) && IsAdder(g, ft, ef, f, t, e')
    ensures e == e'
  {
    hide LayersBelow, Graph.ImpliedOk, Graph.OpsOk;
  }

  lemma MakesTrue(g: Graph, ef: seq<EfMark>, plan: seq<nat>, k: nat, t: int, j: nat, f: nat)
    requires g.ImpliedOk() && |ef| == |g.efs| && AreLive(g, plan) && j < k <= |plan|
    requires ef[plan[j]].level == t && f in Fired(g, plan[j])
    ensures f in TrueAt(g, ef, plan, k, t)
  {
    hide Fired;
  }

  /** The goal that `plan[k]` was selected for is served in the other selection too, and not before place `k`. */
  lemma ServedThere(g: Graph, ef: seq<EfMark>, plan: seq<nat>, k: nat, t: int, f: nat)
    requires g.ImpliedOk() && |ef| == |g.efs| && AreLive(g, plan) && k <= |plan|
    requires f in TrueAt(g, ef, plan, |plan|, t) && f !in TrueAt(g, ef, plan, k, t)
    ensures exists j :: k <= j < |plan| && ef[plan[j]].level == t
  {
    hide Fired;
    var j: nat :| j < |plan| && ef[plan[j]].level == t && f in Fired(g, plan[j]);
    if j < k {
      MakesTrue(g, ef, plan, k, t, j, f);
    }
  }

  /** Two selections that agree so far agree on the next effect. */
  lemma MustFollow(g: Graph, S: set<nat>, ft: seq<FtMark>, ef: seq<EfMark>, max: nat, goals: seq<nat>, w: Work, w': Work, k: nat)
    requires g.WellFormed() && Sized(g, ft, ef) && Levelled(g, S, ft, ef, max)
    requires IsSelection(g, ft, ef, goals, w) && IsSelection(g, ft, ef, goals, w') && |w.lists| == |w'.lists|
    requires k < |w.plan| && k <= |w'.plan| && forall j :: 0 <= j < k ==> w.plan[j] == w'.plan[j]
    requires k < |w'.plan| ==> w'.plan[k] < |ef| && w.plan[k] < |ef| && ef[w'.plan[k]].level <= ef[w.plan[k]].level
    ensures k < |w'.plan| && w'.plan[k] == w.plan[k]
  {
    hide TrueAt, Entered, ListsAre, IsNext, IsAdder, Levelled, Graph.EffectsOk, Graph.OpsOk, Graph.FactsOk;
    var t := ef[w.plan[k]].level;
    assert HasReason(g, ft, ef, w.lists, w.plan, k);
    var x: nat :| IsReason(g, ft, ef, w.lists, w.plan, k, x);
    SamePrefix(g, ef, goals, w.plan, w'.plan, k);
    SameListThere(g, S, ft, ef, max, goals, w, w', k, t + 1);
    Unserved(w.lists[t + 1], x, TrueAt(g, ef, w.plan, k, t));
    ServedThere(g, ef, w'.plan, k, t, w'.lists[t + 1][x]);
    assert HasReason(g, ft, ef, w'.lists, w'.plan, k);
    var x': nat :| IsReason(g, ft, ef, w'.lists, w'.plan, k, x');
    OneNext(w.lists[t + 1], x, x', TrueAt(g, ef, w.plan, k, t));
    SameAdder(g, ft, ef, w.lists[t + 1][x], t, w.plan[k], w'.plan[k]);
  }

  lemma Unserved(facts: seq<nat>, x: nat, true': set<nat>)
    requires IsNext(facts, x, true')
    ensures x < |facts| && facts[x] !in true'
  {
  }

  lemma OneNext(facts: seq<nat>, x: nat, x': nat, true': set<nat>)
    requires IsNext(facts, x, true') && IsNext(facts, x', true')
    ensures x == x'
  {
  }

  lemma SameListThere(g: Graph, S: set<nat>, ft: seq<FtMark>, ef: seq<EfMark>, max: nat, goals: seq<nat>, w: Work, w': Work,
                      k: nat, l: nat)
    requires g.WellFormed() && Sized(g, ft, ef) && Levelled(g, S, ft, ef, max)
    requires IsSelection(g, ft, ef, goals, w) && IsSelection(g, ft, ef, goals, w')
    requires k <= |w.plan| && k <= |w'.plan| && forall j :: 0 <= j < k ==> w.plan[j] == w'.plan[j]
    requires forall j :: k <= j < |w.plan| ==> w.plan[j] < |ef| && ef[w.plan[j]].level < l
    requires forall j :: k <= j < |w'.plan| ==> w'.plan[j] < |ef| && ef[w'.plan[j]].level < l
    requires l < |w.lists| && l < |w'.lists|
    ensures w.lists[l] == w'.lists[l]
  {
    hide TrueAt, Entered, ListsAre, IsNext, IsAdder, HasReason, Levelled, Graph.EffectsOk, Graph.OpsOk, Graph.FactsOk;
    SamePrefix(g, ef, goals, w.plan, w'.plan, k);
    EnteredLater(g, S, ft, ef, max, goals, w.plan, k, |w.plan|, l);
    EnteredLater(g, S, ft, ef, max, goals, w'.plan, k, |w'.plan|, l);
    SameList(ft, w, w', Entered(g, ef, goals, w.plan, |w.plan|), Entered(g, ef, goals, w'.plan, |w'.plan|),
             Entered(g, ef, goals, w.plan, k), l);
  }

  lemma {:induction false} AgreeUpTo(g: Graph, S: set<nat>, ft: seq<FtMark>, ef: seq<EfMark>, max: nat, goals: seq<nat>,
                                     w: Work, w': Work, k: nat)
    requires g.WellFormed() && Sized(g, ft, ef) && Levelled(g, S, ft, ef, max)
    requires IsSelection(g, ft, ef, goals, w) && IsSelection(g, ft, ef, goals, w') && |w.lists| == |w'.lists|
    requires k <= |w.plan|
    ensures k <= |w'.plan| && forall j :: 0 <= j < k ==> w.plan[j] == w'.plan[j]
    decreases k
  {
    hide AreReasoned, AreServed, ListsAre, Levelled, Graph.EffectsOk, Graph.OpsOk, Graph.ImpliedOk, Graph.FactsOk;
    if k > 0 {
      AgreeUpTo(g, S, ft, ef, max, goals, w, w', k - 1);
      if k - 1 < |w'.plan| && ef[w'.plan[k - 1]].level > ef[w.plan[k - 1]].level {
        MustFollow(g, S, ft, ef, max, goals, w', w, k - 1);
      } else {
        MustFollow(g, S, ft, ef, max, goals, w, w', k - 1);
      }
    }
  }

  /** The reasons determine the selection. */
  lemma OneSelection(g: Graph, S: set<nat>, ft: seq<FtMark>, ef: seq<EfMark>, max: nat, goals: seq<nat>, w: Work, w': Work)
    requires g.WellFormed() && Sized(g, ft, ef) && Levelled(g, S, ft, ef, max)
    requires IsSelection(g, ft, ef, goals, w) && IsSelection(g, ft, ef, goals, w') && |w.lists| == |w'.lists|
    ensures w.plan == w'.plan && w.lists == w'.lists && w.goals == w'.goals
  {
    hide AreReasoned, AreServed, InOrderOf, Entered, Levelled, Graph.EffectsOk, Graph.OpsOk, Graph.FactsOk;
    AgreeUpTo(g, S, ft, ef, max, goals, w, w', |w.plan|);
    AgreeUpTo(g, S, ft, ef, max, goals, w', w, |w'.plan|);
    assert w.plan == w'.plan;
    var E := Entered(g, ef, goals, w.plan, |w.plan|);
    forall l | 0 <= l < |w.lists|
      ensures w.lists[l] == w'.lists[l]
    {
      SameList(ft, w, w', E, E, E, l);
    }
  }
}
