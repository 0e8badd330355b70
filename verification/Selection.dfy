/** The extraction of relax.c as a function: what an evaluation returns depends on the set of facts that
    are true, on the list of goals and on the graph, and on nothing that earlier evaluations left behind. */
module Selection {
  import opened Sequences
  import opened Connectivity
  import opened Layers
  import opened Fixpoint
  import opened Extraction

  // ---- the function

  /** The goals and subgoals so far, their lists, the facts made true at the current level, and the
      effects selected. */
  datatype Work = Work(goals: set<nat>, lists: seq<seq<nat>>, now: set<nat>, plan: seq<nat>)

  ghost function AddGoal(ft: seq<FtMark>, w: Work, f: nat): Work {
    if f < |ft| && 0 <= ft[f].level < |w.lists| then
      w.(goals := w.goals + {f}, lists := w.lists[ft[f].level := w.lists[ft[f].level] + [f]])
    else w
  }

  /** Goals as initialize_goals enters them, in their order. */
  ghost function Start(ft: seq<FtMark>, goals: seq<nat>, max: nat): Work {
    if goals == [] then Work({}, seq(max + 1, _ => []), {}, [])
    else AddGoal(ft, Start(ft, goals[..|goals| - 1], max), goals[|goals| - 1])
  }

  ghost function Top(ft: seq<FtMark>, goals: seq<nat>): nat {
    if goals == [] then 0
    else
      var t, f := Top(ft, goals[..|goals| - 1]), goals[|goals| - 1];
      if f < |ft| && ft[f].level > t then ft[f].level else t
  }

  /** The conditions that become goals. */
  ghost function AddSubgoalsTo(ft: seq<FtMark>, w: Work, pc: seq<nat>): Work {
    if pc == [] then w
    else
      var v, p := AddSubgoalsTo(ft, w, pc[..|pc| - 1]), pc[|pc| - 1];
      if p in v.now || p in v.goals then v else AddGoal(ft, v, p)
  }

  /** The first cheapest adder of level `t`. */
  ghost function AdderOf(g: Graph, ft: seq<FtMark>, ef: seq<EfMark>, f: nat, t: int): nat
    requires g.WellFormed() && Sized(g, ft, ef)
  {
    if f < |g.fts| && exists i: nat :: i < |g.fts[f].A| && Cheapest(g, ft, ef, g.fts[f].A, |g.fts[f].A|, t, i) then
      var i: nat :| i < |g.fts[f].A| && Cheapest(g, ft, ef, g.fts[f].A, |g.fts[f].A|, t, i);
      g.fts[f].A[i]
    else 0
  }

  ghost function AfterGoal(g: Graph, ft: seq<FtMark>, ef: seq<EfMark>, w: Work, f: nat, t: int): Work
    requires g.WellFormed() && Sized(g, ft, ef)
  {
    if f in w.now then w
    else
      var e := AdderOf(g, ft, ef, f, t - 1);
      if e < |g.efs| && !g.efs[e].removed then
        var v := AddSubgoalsTo(ft, w.(plan := w.plan + [e]), g.efs[e].PC);
        v.(now := v.now + Fired(g, e))
      else w
  }

  ghost function AfterGoals(g: Graph, ft: seq<FtMark>, ef: seq<EfMark>, w: Work, goals: seq<nat>, t: int): Work
    requires g.WellFormed() && Sized(g, ft, ef)
  {
    if goals == [] then w
    else AfterGoal(g, ft, ef, AfterGoals(g, ft, ef, w, goals[..|goals| - 1], t), goals[|goals| - 1], t)
  }

  /** The levels from `t` down to the first. */
  ghost function AfterLevels(g: Graph, ft: seq<FtMark>, ef: seq<EfMark>, w: Work, t: nat): Work
    requires g.WellFormed() && Sized(g, ft, ef)
    decreases t
  {
    if t == 0 then w
    else
      var v := AfterGoals(g, ft, ef, w, if t < |w.lists| then w.lists[t] else [], t);
      AfterLevels(g, ft, ef, v.(now := {}), t - 1)
  }

  ghost function FinalWork(g: Graph, ft: seq<FtMark>, ef: seq<EfMark>, goals: seq<nat>, max: nat): Work
    requires g.WellFormed() && Sized(g, ft, ef)
  {
    AfterLevels(g, ft, ef, Start(ft, goals, max), Top(ft, goals))
  }

  // ---- helpful operators

  /** The operators of some adders that take place in the evaluated state, behind those known already. */
  ghost function WithAdders(g: Graph, ef: seq<EfMark>, adders: seq<nat>, H: seq<nat>): seq<nat>
    requires |ef| == |g.efs|
  {
    if adders == [] then H
    else
      var H', e := WithAdders(g, ef, adders[..|adders| - 1], H), adders[|adders| - 1];
      if e < |ef| && ef[e].level == 0 && g.efs[e].op !in H' then H' + [g.efs[e].op] else H'
  }

  ghost function Collected(g: Graph, ef: seq<EfMark>, facts: seq<nat>): seq<nat>
    requires |ef| == |g.efs|
  {
    if facts == [] then []
    else
      var H, f := Collected(g, ef, facts[..|facts| - 1]), facts[|facts| - 1];
      if f < |g.fts| then WithAdders(g, ef, g.fts[f].A, H) else H
  }

  ghost function Marks(goals: set<nat>, n: nat): (r: seq<FtPlan>)
    ensures |r| == n && forall f :: 0 <= f < n ==> r[f] == FtPlan(f in goals, INFINITY, false)
  {
    seq(n, f => FtPlan(f in goals, INFINITY, false))
  }

  /** How many goals and subgoals an operator deletes in the evaluated state. */
  ghost function Deletions(g: Graph, ef: seq<EfMark>, goals: set<nat>, o: nat): nat
    requires g.WellFormed() && |ef| == |g.efs|
  {
    if o < |g.ops| then DeletedGoals(g, ef, Marks(goals, |g.fts|), g.ops[o].E) else 0
  }

  /** The operator in front of the first one that deletes more. */
  ghost function Placed(g: Graph, ef: seq<EfMark>, goals: set<nat>, s: seq<nat>, o: nat): seq<nat>
    requires g.WellFormed() && |ef| == |g.efs|
  {
    if s == [] || Deletions(g, ef, goals, s[0]) > Deletions(g, ef, goals, o) then [o] + s
    else [s[0]] + Placed(g, ef, goals, s[1..], o)
  }

  ghost function Ordered(g: Graph, ef: seq<EfMark>, goals: set<nat>, H: seq<nat>): seq<nat>
    requires g.WellFormed() && |ef| == |g.efs|
  {
    if H == [] then [] else Placed(g, ef, goals, Ordered(g, ef, goals, H[1..]), H[0])
  }

  ghost function HelpfulAfter(g: Graph, ef: seq<EfMark>, w: Work): seq<nat>
    requires g.WellFormed() && |ef| == |g.efs|
  {
    Ordered(g, ef, w.goals, Collected(g, ef, if |w.lists| > 1 then w.lists[1] else []))
  }

  // ---- what depends on the levels alone

  /** The marks of the facts without all but their levels. */
  ghost function Bare(ft: seq<FtMark>): (r: seq<FtMark>)
    ensures |r| == |ft| && forall f :: 0 <= f < |ft| ==> r[f] == FtMark(ft[f].level, false)
  {
    seq(|ft|, f requires 0 <= f < |ft| => FtMark(ft[f].level, false))
  }

  ghost function BareEffects(ef: seq<EfMark>): (r: seq<EfMark>)
    ensures |r| == |ef| && forall e :: 0 <= e < |ef| ==> r[e] == EfMark(ef[e].level, false, 0, false)
  {
    seq(|ef|, e requires 0 <= e < |ef| => EfMark(ef[e].level, false, 0, false))
  }

  lemma BareLayers(ft: seq<FtMark>, s: seq<nat>)
    requires Below(s, |ft|)
    ensures LayersBelow(Bare(ft), s) == LayersBelow(ft, s)
  {
  }

  lemma BareCheapest(g: Graph, ft: seq<FtMark>, ef: seq<EfMark>, s: seq<nat>, n: nat, t: int, i: nat)
    requires g.EffectsOk() && Sized(g, ft, ef) && Below(s, |ef|) && n <= |s| && Cheapest(g, ft, ef, s, n, t, i)
    ensures Cheapest(g, Bare(ft), BareEffects(ef), s, n, t, i)
  {
    hide LayersBelow;
    forall j | 0 <= j < n
      ensures LayersBelow(Bare(ft), g.efs[s[j]].PC) == LayersBelow(ft, g.efs[s[j]].PC)
    {
      BareLayers(ft, g.efs[s[j]].PC);
    }
  }

  /** The adder that select loop finds is the one of the function. */
  lemma AdderIsUnique(g: Graph, ft: seq<FtMark>, ef: seq<EfMark>, f: nat, t: int, i: nat)
    requires g.WellFormed() && Sized(g, ft, ef) && f < |g.fts| && i < |g.fts[f].A|
    requires Cheapest(g, ft, ef, g.fts[f].A, |g.fts[f].A|, t, i)
    ensures AdderOf(g, Bare(ft), BareEffects(ef), f, t) == g.fts[f].A[i]
  {
    hide LayersBelow, Graph.OpsOk, Graph.ImpliedOk;
    BareCheapest(g, ft, ef, g.fts[f].A, |g.fts[f].A|, t, i);
  }

  lemma SelectIs(g: Graph, ft: seq<FtMark>, ef: seq<EfMark>, w: Work, f: nat, t: int, e: nat)
    requires g.WellFormed() && Sized(g, ft, ef) && f !in w.now && e < |g.efs| && !g.efs[e].removed
    requires e == AdderOf(g, ft, ef, f, t - 1)
    ensures var v := AddSubgoalsTo(ft, w.(plan := w.plan + [e]), g.efs[e].PC);
      AfterGoal(g, ft, ef, w, f, t) == v.(now := v.now + Fired(g, e))
  {
  }

  lemma {:induction false} BareOpCount(g: Graph, ef: seq<EfMark>, plan: seq<nat>, t: nat, max: nat)
    requires |ef| == |g.efs| && Below(plan, |ef|)
    ensures OpCount(g, BareEffects(ef), plan, t, max) == OpCount(g, ef, plan, t, max)
    decreases max - t
  {
    if t < max {
      BareOpCount(g, ef, plan, t + 1, max);
      assert OpsAt(g, BareEffects(ef), plan, t) == OpsAt(g, ef, plan, t);
    }
  }

  // ---- the levels depend on the state and the goals alone

  /** Levels as the fixpoint leaves them, with no other mark. */
  ghost predicate Levels(g: Graph, S: set<nat>, goals: set<nat>, ft: seq<FtMark>, ef: seq<EfMark>, time: nat) {
    && Sized(g, ft, ef) && Built(g, S, goals, ft, ef, time)
    && (forall f :: 0 <= f < |ft| ==> !ft[f].inF)
    && forall e :: 0 <= e < |ef| ==> ef[e] == EfMark(ef[e].level, false, 0, false)
  }

  lemma BareLevels(g: Graph, S: set<nat>, goals: set<nat>, ft: seq<FtMark>, ef: seq<EfMark>, time: nat)
    requires Sized(g, ft, ef) && Built(g, S, goals, ft, ef, time)
    ensures Levels(g, S, goals, Bare(ft), BareEffects(ef), time)
  {
    hide Layer, Enabled, FactFirstAt, EffectFirstAt;
  }

  lemma LevelsAreUnique(g: Graph, S: set<nat>, goals: set<nat>, ft: seq<FtMark>, ef: seq<EfMark>, time: nat,
                        ft': seq<FtMark>, ef': seq<EfMark>, time': nat)
    requires Levels(g, S, goals, ft, ef, time) && Levels(g, S, goals, ft', ef', time')
    requires goals <= Layer(g, S, time)
    ensures time == time' && ft == ft' && ef == ef'
  {
    hide Layer, Enabled, EffectFirstAt, FactFirstAt;
    SameTime(g, S, goals, ft, ef, time, ft', ef', time');
    forall f: nat | f < |ft|
      ensures ft[f] == ft'[f]
    {
      if ft[f].level >= 0 && ft'[f].level >= 0 {
        FactFirstUnique(g, S, ft[f].level, ft'[f].level, f);
      }
    }
    forall e: nat | e < |ef|
      ensures ef[e] == ef'[e]
    {
      if ef[e].level >= 0 && ef'[e].level >= 0 {
        EffectFirstUnique(g, S, ef[e].level, ef'[e].level, e);
      }
    }
  }

  lemma SameTime(g: Graph, S: set<nat>, goals: set<nat>, ft: seq<FtMark>, ef: seq<EfMark>, time: nat,
                 ft': seq<FtMark>, ef': seq<EfMark>, time': nat)
    requires Levels(g, S, goals, ft, ef, time) && Levels(g, S, goals, ft', ef', time')
    requires goals <= Layer(g, S, time)
    ensures time == time'
  {
    hide Layer, Exact;
    if time < time' {
      LayersGrow(g, S, time, time' - 1);
    } else if time' < time {
      if goals <= Layer(g, S, time') {
        LayersGrow(g, S, time', time - 1);
      } else {
        LayersStop(g, S, time', time);
      }
    }
  }

  // ---- the marks of the program as values of the function

  ghost function WorkOf(fp: seq<FtPlan>, lists: seq<seq<nat>>, plan: seq<nat>, max: nat, time: int): Work
    requires |lists| > max
  {
    Work(Goals(fp), lists[..max + 1], (set f: nat | f < |fp| && fp[f].isTrue == time), plan)
  }

  ghost function Goals(fp: seq<FtPlan>): set<nat> {
    set f: nat | f < |fp| && fp[f].isGoal
  }

  /** The marks between two levels. */
  ghost function Idle(fp: seq<FtPlan>, lists: seq<seq<nat>>, plan: seq<nat>, max: nat): Work
    requires |lists| > max
  {
    Work(Goals(fp), lists[..max + 1], {}, plan)
  }

  lemma StartEmpty(ft: seq<FtMark>, fp: seq<FtPlan>, lists: seq<seq<nat>>, max: nat)
    requires |lists| > max && forall l :: 0 <= l <= max ==> lists[l] == []
    requires forall f :: 0 <= f < |fp| ==> !fp[f].isGoal
    ensures Idle(fp, lists, [], max) == Start(ft, [], max) && Top(ft, []) == 0
  {
    assert lists[..max + 1] == seq(max + 1, _ => []);
  }

  lemma GoalStep(ft: seq<FtMark>, fp: seq<FtPlan>, fp': seq<FtPlan>, lists: seq<seq<nat>>, lists': seq<seq<nat>>,
                 plan: seq<nat>, max: nat, time: int, f: nat)
    requires |fp| == |fp'| == |ft| && f < |ft| && 0 <= ft[f].level <= max < |lists|
    requires fp'[f].isGoal && fp'[f].isTrue == fp[f].isTrue && forall d :: 0 <= d < |fp| && d != f ==> fp'[d] == fp[d]
    requires lists' == lists[ft[f].level := lists[ft[f].level] + [f]]
    ensures WorkOf(fp', lists', plan, max, time) == AddGoal(Bare(ft), WorkOf(fp, lists, plan, max, time), f)
    ensures Idle(fp', lists', plan, max) == AddGoal(Bare(ft), Idle(fp, lists, plan, max), f)
  {
    var l := ft[f].level;
    assert lists'[..max + 1] == lists[..max + 1][l := lists[..max + 1][l] + [f]];
  }

  lemma FiredStep(g: Graph, fp: seq<FtPlan>, fp': seq<FtPlan>, lists: seq<seq<nat>>, plan: seq<nat>, max: nat, time: int,
                  e: nat)
    requires |lists| > max && g.EffectsOk() && g.ImpliedOk() && e < |g.efs| && !g.efs[e].removed && |fp| == |fp'| == |g.fts|
    requires forall f :: 0 <= f < |fp| ==>
      fp'[f].isGoal == fp[f].isGoal && fp'[f].isTrue == if f in Fired(g, e) then time else fp[f].isTrue
    ensures var w := WorkOf(fp, lists, plan, max, time);
      WorkOf(fp', lists, plan, max, time) == w.(now := w.now + Fired(g, e))
  {
    forall f | f in Fired(g, e)
      ensures f < |fp|
    {
    }
  }

  lemma SubgoalsOfNone(ft: seq<FtMark>, w: Work)
    ensures forall pc: seq<nat> :: pc == [] ==> AddSubgoalsTo(ft, w, pc) == w
  {
  }

  lemma SubgoalStep(ft: seq<FtMark>, w: Work, pc: seq<nat>, j: nat)
    requires j < |pc|
    ensures AddSubgoalsTo(ft, w, pc[..j + 1]) ==
      var v := AddSubgoalsTo(ft, w, pc[..j]); if pc[j] in v.now || pc[j] in v.goals then v else AddGoal(ft, v, pc[j])
  {
    assert pc[..j + 1][..j] == pc[..j];
  }

  lemma GoalsStep(g: Graph, ft: seq<FtMark>, ef: seq<EfMark>, w: Work, goals: seq<nat>, t: int, i: nat)
    requires g.WellFormed() && Sized(g, ft, ef) && i < |goals|
    ensures AfterGoals(g, ft, ef, w, goals[..i + 1], t) ==
      AfterGoal(g, ft, ef, AfterGoals(g, ft, ef, w, goals[..i], t), goals[i], t)
  {
    assert goals[..i + 1][..i] == goals[..i];
  }

  /** No fact is marked as true at a level that is only entered. */
  lemma EnterIdle(g: Graph, ft: seq<FtMark>, ef: seq<EfMark>, fp: seq<FtPlan>, om: seq<OpMark>, lists: seq<seq<nat>>,
                  plan: seq<nat>, lh: nat, max: nat, time: nat)
    requires 0 < time <= max < |lists| && Between(g, ft, ef, fp, om, lists, plan, lh, max, time)
    ensures WorkOf(fp, lists, plan, max, time) == Idle(fp, lists, plan, max)
  {
    hide Achieved, OpCount, SelectionOk;
  }

  lemma NoGoals(g: Graph, ft: seq<FtMark>, ef: seq<EfMark>, w: Work, t: int)
    requires g.WellFormed() && Sized(g, ft, ef)
    ensures AfterGoals(g, ft, ef, w, [], t) == w
  {
  }

  lemma LevelStep(g: Graph, ft: seq<FtMark>, ef: seq<EfMark>, w: Work, t: nat)
    requires g.WellFormed() && Sized(g, ft, ef) && 0 < t < |w.lists|
    ensures AfterLevels(g, ft, ef, w, t) ==
      AfterLevels(g, ft, ef, AfterGoals(g, ft, ef, w, w.lists[t], t).(now := {}), t - 1)
  {
  }

  lemma NoLevels(g: Graph, ft: seq<FtMark>, ef: seq<EfMark>, w: Work)
    requires g.WellFormed() && Sized(g, ft, ef)
    ensures AfterLevels(g, ft, ef, w, 0) == w
  {
  }

  lemma StartStep(ft: seq<FtMark>, goals: seq<nat>, max: nat, i: nat)
    requires i < |goals|
    ensures Start(ft, goals[..i + 1], max) == AddGoal(ft, Start(ft, goals[..i], max), goals[i])
    ensures Top(ft, goals[..i + 1]) ==
      var t, f := Top(ft, goals[..i]), goals[i]; if f < |ft| && ft[f].level > t then ft[f].level else t
  {
    assert goals[..i + 1][..i] == goals[..i];
  }

  lemma AddersStep(g: Graph, ef: seq<EfMark>, adders: seq<nat>, H: seq<nat>, j: nat)
    requires |ef| == |g.efs| && j < |adders|
    ensures WithAdders(g, ef, adders[..j + 1], H) ==
      var H', e := WithAdders(g, ef, adders[..j], H), adders[j];
      if e < |ef| && ef[e].level == 0 && g.efs[e].op !in H' then H' + [g.efs[e].op] else H'
  {
    assert adders[..j + 1][..j] == adders[..j];
  }

  lemma NoAdders(g: Graph, ef: seq<EfMark>, H: seq<nat>)
    requires |ef| == |g.efs|
    ensures forall s: seq<nat> :: s == [] ==> WithAdders(g, ef, s, H) == H && Collected(g, ef, s) == []
  {
  }

  lemma CollectedStep(g: Graph, ef: seq<EfMark>, facts: seq<nat>, i: nat)
    requires |ef| == |g.efs| && i < |facts| && facts[i] < |g.fts|
    ensures Collected(g, ef, facts[..i + 1]) == WithAdders(g, ef, g.fts[facts[i]].A, Collected(g, ef, facts[..i]))
  {
    assert facts[..i + 1][..i] == facts[..i];
  }

  /** The operators that some adders offer in the evaluated state, repeats included. */
  ghost function OfferedBy(g: Graph, ef: seq<EfMark>, adders: seq<nat>): seq<nat>
    requires |ef| == |g.efs|
  {
    if adders == [] then []
    else
      var e := adders[|adders| - 1];
      OfferedBy(g, ef, adders[..|adders| - 1]) + if e < |ef| && ef[e].level == 0 then [g.efs[e].op] else []
  }

  /** Goal by goal, and adder by adder for each goal. */
  ghost function Offered(g: Graph, ef: seq<EfMark>, facts: seq<nat>): seq<nat>
    requires |ef| == |g.efs|
  {
    if facts == [] then []
    else
      var f := facts[|facts| - 1];
      Offered(g, ef, facts[..|facts| - 1]) + if f < |g.fts| then OfferedBy(g, ef, g.fts[f].A) else []
  }

  lemma {:induction false} AddersSeen(g: Graph, ef: seq<EfMark>, adders: seq<nat>, H: seq<nat>, l: seq<nat>)
    requires |ef| == |g.efs| && FirstSeen(H, l)
    ensures FirstSeen(WithAdders(g, ef, adders, H), l + OfferedBy(g, ef, adders))
  {
    hide FirstSeen;
    if adders == [] {
      assert l + OfferedBy(g, ef, adders) == l;
    } else {
      var front, e := adders[..|adders| - 1], adders[|adders| - 1];
      AddersSeen(g, ef, front, H, l);
      if e < |ef| && ef[e].level == 0 {
        SeeOneMore(WithAdders(g, ef, front, H), l + OfferedBy(g, ef, front), g.efs[e].op);
        assert l + OfferedBy(g, ef, front) + [g.efs[e].op] == l + OfferedBy(g, ef, adders);
      } else {
        assert OfferedBy(g, ef, adders) == OfferedBy(g, ef, front);
      }
    }
  }

  /** The operators are collected in the order in which the goals and their adders offer them. */
  lemma {:induction false} CollectedInOrder(g: Graph, ef: seq<EfMark>, facts: seq<nat>)
    requires |ef| == |g.efs|
    ensures FirstSeen(Collected(g, ef, facts), Offered(g, ef, facts))
  {
    if facts != [] {
      var front, f := facts[..|facts| - 1], facts[|facts| - 1];
      CollectedInOrder(g, ef, front);
      hide FirstSeen;
      if f < |g.fts| {
        AddersSeen(g, ef, g.fts[f].A, Collected(g, ef, front), Offered(g, ef, front));
      } else {
        assert Offered(g, ef, facts) == Offered(g, ef, front);
      }
    }
  }

  /** `o` stands in front of `p` when the list `H` is sorted: it deletes fewer goals, or as many and comes later in `H`. */
  ghost predicate GoesFirst(g: Graph, ef: seq<EfMark>, goals: set<nat>, H: seq<nat>, o: nat, p: nat)
    requires g.WellFormed() && |ef| == |g.efs|
  {
    || Deletions(g, ef, goals, o) < Deletions(g, ef, goals, p)
    || (Deletions(g, ef, goals, o) == Deletions(g, ef, goals, p) && exists a, b :: 0 <= a < b < |H| && H[a] == p && H[b] == o)
  }

  lemma {:induction false} PlacedElems(g: Graph, ef: seq<EfMark>, goals: set<nat>, s: seq<nat>, o: nat) returns (j: nat)
    requires g.WellFormed() && |ef| == |g.efs|
    requires forall i, k :: 0 <= i < k < |s| ==> Deletions(g, ef, goals, s[i]) <= Deletions(g, ef, goals, s[k])
    ensures j <= |s| && Placed(g, ef, goals, s, o) == s[..j] + [o] + s[j..]
    ensures forall k :: 0 <= k < j ==> Deletions(g, ef, goals, s[k]) <= Deletions(g, ef, goals, o)
    ensures forall k :: j <= k < |s| ==> Deletions(g, ef, goals, s[k]) > Deletions(g, ef, goals, o)
  {
    hide Deletions, Placed;
    j := 0;
    while j < |s| && Deletions(g, ef, goals, s[j]) <= Deletions(g, ef, goals, o)
      invariant j <= |s| && forall k :: 0 <= k < j ==> Deletions(g, ef, goals, s[k]) <= Deletions(g, ef, goals, o)
    {
      j := j + 1;
    }
    PlacedAt(g, ef, goals, s, o, j);
  }

  /** The sorted list holds the same operators, those that delete fewer goals first, and of equal ones the last first. */
  lemma {:induction false} OrderedInOrder(g: Graph, ef: seq<EfMark>, goals: set<nat>, H: seq<nat>)
    requires g.WellFormed() && |ef| == |g.efs| && Distinct(H)
    ensures var r := Ordered(g, ef, goals, H);
      && Distinct(r) && Elems(r) == Elems(H)
      && forall i, k :: 0 <= i < k < |r| ==> GoesFirst(g, ef, goals, H, r[i], r[k])
  {
    if H != [] {
      OrderedInOrder(g, ef, goals, H[1..]);
      hide Ordered, Deletions, Placed, Graph.WellFormed;
      var s, o := Ordered(g, ef, goals, H[1..]), H[0];
      OrderedStep(g, ef, goals, H, 0);
      assert H[0..] == H;
      forall i, k | 0 <= i < k < |s|
        ensures GoesFirst(g, ef, goals, H, s[i], s[k])
      {
        GoesFirstKept(g, ef, goals, H, s[i], s[k]);
      }
      OneMoreGoesFirst(g, ef, goals, H, s);
    }
  }

  lemma GoesFirstKept(g: Graph, ef: seq<EfMark>, goals: set<nat>, H: seq<nat>, o: nat, p: nat)
    requires g.WellFormed() && |ef| == |g.efs| && H != [] && GoesFirst(g, ef, goals, H[1..], o, p)
    ensures GoesFirst(g, ef, goals, H, o, p)
  {
    hide Deletions, Graph.WellFormed;
    if a, b :| 0 <= a < b < |H[1..]| && H[1..][a] == p && H[1..][b] == o {
      assert H[a + 1] == p && H[b + 1] == o;
    }
  }

  lemma OneMoreGoesFirst(g: Graph, ef: seq<EfMark>, goals: set<nat>, H: seq<nat>, s: seq<nat>)
    requires g.WellFormed() && |ef| == |g.efs| && H != [] && Distinct(H) && Distinct(s) && Elems(s) == Elems(H[1..])
    requires forall i, k :: 0 <= i < k < |s| ==> GoesFirst(g, ef, goals, H, s[i], s[k])
    ensures var r := Placed(g, ef, goals, s, H[0]);
      && Distinct(r) && Elems(r) == Elems(H)
      && forall i, k :: 0 <= i < k < |r| ==> GoesFirst(g, ef, goals, H, r[i], r[k])
  {
    hide Deletions, Placed, Graph.WellFormed;
    var o := H[0];
    var j := PlacedElems(g, ef, goals, s, o);
    assert (forall x :: x in s <==> x in Elems(s)) && forall x :: x in H[1..] <==> x in Elems(H[1..]);
    assert H == [o] + H[1..] && o !in H[1..];
    InsertAt(s, j, o);
    var r := s[..j] + [o] + s[j..];
    forall i, k | 0 <= i < k < |r|
      ensures GoesFirst(g, ef, goals, H, r[i], r[k])
    {
      if k == j {
        assert s[i] in H[1..];
        var b :| 0 <= b < |H[1..]| && H[1..][b] == s[i];
        assert H[0] == o && H[b + 1] == s[i];
      } else if i != j {
        assert r[i] == s[if i < j then i else i - 1] && r[k] == s[if k < j then k else k - 1];
      }
    }
    assert Elems(H) == Elems(H[1..]) + {o};
  }

  lemma {:induction false} NoneTakesPlace(g: Graph, ef: seq<EfMark>, adders: seq<nat>, H: seq<nat>)
    requires |ef| == |g.efs| && forall e :: 0 <= e < |ef| ==> ef[e].level != 0
    ensures WithAdders(g, ef, adders, H) == H
  {
    if adders != [] {
      NoneTakesPlace(g, ef, adders[..|adders| - 1], H);
    }
  }

  /** Goal lists of earlier evaluations do no harm: without an effect of level 0 nothing is collected. */
  lemma {:induction false} NothingCollected(g: Graph, ef: seq<EfMark>, facts: seq<nat>)
    requires |ef| == |g.efs| && forall e :: 0 <= e < |ef| ==> ef[e].level != 0
    ensures Collected(g, ef, facts) == []
  {
    if facts != [] {
      NothingCollected(g, ef, facts[..|facts| - 1]);
      var f := facts[|facts| - 1];
      if f < |g.fts| {
        NoneTakesPlace(g, ef, g.fts[f].A, []);
      }
    }
  }

  lemma SameDeletions(g: Graph, ef: seq<EfMark>, fp: seq<FtPlan>, fp': seq<FtPlan>, s: seq<nat>)
    requires |ef| == |g.efs| && Below(s, |ef|) && forall e :: 0 <= e < |g.efs| ==> Below(g.efs[e].D, |fp|)
    requires |fp'| == |fp| && forall f :: 0 <= f < |fp| ==> fp[f].isGoal == fp'[f].isGoal
    ensures DeletedGoals(g, ef, fp, s) == DeletedGoals(g, BareEffects(ef), fp', s)
  {
    assert GoalDeletes(g, ef, fp, s) == GoalDeletes(g, BareEffects(ef), fp', s);
  }

  lemma DeletionsAre(g: Graph, ef: seq<EfMark>, fp: seq<FtPlan>, o: nat)
    requires g.WellFormed() && |ef| == |g.efs| && |fp| == |g.fts| && o < |g.ops|
    ensures DeletedGoals(g, ef, fp, g.ops[o].E) ==
      Deletions(g, BareEffects(ef), Goals(fp), o)
  {
    SameDeletions(g, ef, fp, Marks(Goals(fp), |g.fts|), g.ops[o].E);
  }

  lemma {:induction false} PlacedAt(g: Graph, ef: seq<EfMark>, goals: set<nat>, s: seq<nat>, o: nat, j: nat)
    requires g.WellFormed() && |ef| == |g.efs| && j <= |s|
    requires forall k :: 0 <= k < j ==> Deletions(g, ef, goals, s[k]) <= Deletions(g, ef, goals, o)
    requires j < |s| ==> Deletions(g, ef, goals, s[j]) > Deletions(g, ef, goals, o)
    ensures Placed(g, ef, goals, s, o) == s[..j] + [o] + s[j..]
    decreases j
  {
    hide Deletions;
    if j > 0 {
      PlacedAt(g, ef, goals, s[1..], o, j - 1);
      assert s == [s[0]] + s[1..];
    }
  }

  lemma PlacedThere(g: Graph, ef: seq<EfMark>, fp: seq<FtPlan>, s: seq<nat>, D: seq<nat>, o: nat, d: nat, j: nat)
    requires g.WellFormed() && |ef| == |g.efs| && |fp| == |g.fts| && Below(s, |g.ops|) && o < |g.ops| && |D| == |s|
    requires forall k :: 0 <= k < |D| ==> D[k] == DeletedGoals(g, ef, fp, g.ops[s[k]].E)
    requires d == DeletedGoals(g, ef, fp, g.ops[o].E)
    requires j <= |D| && (forall k :: 0 <= k < j ==> D[k] <= d) && (j < |D| ==> D[j] > d)
    ensures Placed(g, BareEffects(ef), Goals(fp), s, o) == s[..j] + [o] + s[j..]
  {
    hide Goals, DeletedGoals, Deletions, Placed, Graph.ImpliedOk, Graph.FactsOk;
    DeletionsAre(g, ef, fp, o);
    forall k | 0 <= k < |s|
      ensures D[k] == Deletions(g, BareEffects(ef), Goals(fp), s[k])
    {
      DeletionsAre(g, ef, fp, s[k]);
    }
    PlacedAt(g, BareEffects(ef), Goals(fp), s, o, j);
  }

  lemma OrderedStep(g: Graph, ef: seq<EfMark>, goals: set<nat>, H: seq<nat>, i: nat)
    requires g.WellFormed() && |ef| == |g.efs| && i < |H|
    ensures Ordered(g, ef, goals, H[i..]) == Placed(g, ef, goals, Ordered(g, ef, goals, H[i + 1..]), H[i])
  {
    assert H[i..][1..] == H[i + 1..];
  }

  /** What collect_H_info leaves behind, in terms of the work; at level 0 the goal list that it reads is
      one of an earlier evaluation, and no effect takes place that could come from it. */
  lemma HelpfulAfterIs(g: Graph, S: set<nat>, ft: seq<FtMark>, ef: seq<EfMark>, fp: seq<FtPlan>, lists: seq<seq<nat>>,
                       plan: seq<nat>, max: nat)
    requires g.WellFormed() && Levelled(g, S, ft, ef, max) && |lists| > max && |lists| > 1
    ensures Ordered(g, BareEffects(ef), Goals(fp), Collected(g, BareEffects(ef), lists[1])) ==
      HelpfulAfter(g, BareEffects(ef), Idle(fp, lists, plan, max))
  {
    hide Collected, Ordered, Goals, Graph.WellFormed;
    if max == 0 {
      NothingCollected(g, BareEffects(ef), lists[1]);
      NoAdders(g, BareEffects(ef), []);
    } else {
      assert lists[..max + 1][1] == lists[1];
    }
  }

  /** Which operators are helpful, and in which order, depends on the goals alone. */
  lemma HelpfulMarks(g: Graph, ft: seq<FtMark>, ef: seq<EfMark>, fp: seq<FtPlan>, H: seq<nat>)
    requires g.WellFormed() && Sized(g, ft, ef) && |fp| == |ft| && HelpfulOk(g, ft, ef, fp, H)
    ensures HelpfulOk(g, ft, ef, Marks(Goals(fp), |g.fts|), H)
  {
    hide DeletedGoals, OpsOf;
    var fp' := Marks(Goals(fp), |g.fts|);
    forall o: nat | o < |g.ops|
      ensures DeletedGoals(g, ef, fp', g.ops[o].E) == DeletedGoals(g, ef, fp, g.ops[o].E)
    {
      SameDeletions(g, ef, fp, fp', g.ops[o].E);
      SameDeletions(g, ef, fp', fp', g.ops[o].E);
    }
    forall o
      ensures Helps(g, ft, ef, fp, o) <==> Helps(g, ft, ef, fp', o)
    {
    }
  }

  // ---- the results

  ghost function PlanFrom(g: Graph, ft: seq<FtMark>, ef: seq<EfMark>, goals: seq<nat>, max: nat): seq<nat>
    requires g.WellFormed() && Sized(g, ft, ef)
  {
    FinalWork(g, ft, ef, goals, max).plan
  }

  ghost function HelpfulFrom(g: Graph, ft: seq<FtMark>, ef: seq<EfMark>, goals: seq<nat>, max: nat): seq<nat>
    requires g.WellFormed() && Sized(g, ft, ef)
  {
    HelpfulAfter(g, ef, FinalWork(g, ft, ef, goals, max))
  }

  ghost predicate Evaluable(g: Graph, S: set<nat>, goals: seq<nat>) {
    g.WellFormed() && exists ft, ef, time :: Levels(g, S, Elems(goals), ft, ef, time) && Elems(goals) <= Layer(g, S, time)
  }

  /** The relaxed plan of a state for some goals. */
  ghost function RelaxedPlan(g: Graph, S: set<nat>, goals: seq<nat>): seq<nat> {
    if Evaluable(g, S, goals) then
      var ft, ef, time :| Levels(g, S, Elems(goals), ft, ef, time) && Elems(goals) <= Layer(g, S, time);
      PlanFrom(g, ft, ef, goals, time)
    else []
  }

  /** The heuristic value. */
  ghost function Value(g: Graph, S: set<nat>, goals: seq<nat>): int {
    if Evaluable(g, S, goals) then
      var ft, ef, time :| Levels(g, S, Elems(goals), ft, ef, time) && Elems(goals) <= Layer(g, S, time);
      var plan := PlanFrom(g, ft, ef, goals, time);
      if Below(plan, |ef|) then OpCount(g, ef, plan, 0, time) else 0
    else INFINITY
  }

  /** The helpful operators, in their order. */
  ghost function HelpfulOps(g: Graph, S: set<nat>, goals: seq<nat>): seq<nat> {
    if Evaluable(g, S, goals) then
      var ft, ef, time :| Levels(g, S, Elems(goals), ft, ef, time) && Elems(goals) <= Layer(g, S, time);
      HelpfulFrom(g, ft, ef, goals, time)
    else []
  }

  /** Whatever levels the fixpoint yields, plan, value and helpful operators are those of the functions. */
  lemma ResultsAreFunctions(g: Graph, S: set<nat>, goals: seq<nat>, ft: seq<FtMark>, ef: seq<EfMark>, time: nat, plan: seq<nat>)
    requires g.WellFormed() && Sized(g, ft, ef) && Built(g, S, Elems(goals), ft, ef, time)
    requires Elems(goals) <= Layer(g, S, time) && Below(plan, |ef|)
    requires plan == PlanFrom(g, Bare(ft), BareEffects(ef), goals, time)
    ensures plan == RelaxedPlan(g, S, goals) && OpCount(g, ef, plan, 0, time) == Value(g, S, goals)
    ensures HelpfulFrom(g, Bare(ft), BareEffects(ef), goals, time) == HelpfulOps(g, S, goals)
  {
    hide Layer, Graph.WellFormed, PlanFrom, HelpfulFrom, OpCount, Levels, Built;
    BareLevels(g, S, Elems(goals), ft, ef, time);
    assert Evaluable(g, S, goals);
    forall ft', ef', time' | Levels(g, S, Elems(goals), ft', ef', time') && Elems(goals) <= Layer(g, S, time')
      ensures ft' == Bare(ft) && ef' == BareEffects(ef) && time' == time
    {
      LevelsAreUnique(g, S, Elems(goals), ft', ef', time', Bare(ft), BareEffects(ef), time);
    }
    BareOpCount(g, ef, plan, 0, time);
  }

  lemma OutOfReach(g: Graph, S: set<nat>, goals: seq<nat>)
    requires RelaxedUnreachable(g, S, Elems(goals))
    ensures Value(g, S, goals) == INFINITY
  {
    hide Layer, Levels;
  }

  /** What an evaluation returns, by the function. */
  lemma ValueIs(g: Graph, S: set<nat>, goals: seq<nat>, ft: seq<FtMark>, ef: seq<EfMark>, time: nat, plan: seq<nat>, h: int)
    requires g.WellFormed() && Sized(g, ft, ef) && Built(g, S, Elems(goals), ft, ef, time)
    requires Trustworthy(g, S, Elems(goals), h)
    requires h != INFINITY ==> Extracted(g, S, Elems(goals), ef, plan, time, h)
    requires h != INFINITY ==> plan == PlanFrom(g, Bare(ft), BareEffects(ef), goals, time)
    ensures h == Value(g, S, goals) && (h != INFINITY ==> plan == RelaxedPlan(g, S, goals))
    ensures h != INFINITY ==> HelpfulFrom(g, Bare(ft), BareEffects(ef), goals, time) == HelpfulOps(g, S, goals)
  {
    hide Layer, Graph.WellFormed, PlanFrom, HelpfulFrom, OpCount, Value, RelaxedPlan, HelpfulOps, Exact, Executable;
    if h == INFINITY {
      OutOfReach(g, S, goals);
    } else {
      if !(Elems(goals) <= Layer(g, S, time)) {
        NeverMore(g, S, Elems(goals), time);
      }
      ResultsAreFunctions(g, S, goals, ft, ef, time, plan);
    }
  }

  lemma NeverMore(g: Graph, S: set<nat>, goals: set<nat>, time: nat)
    requires Layer(g, S, time + 1) == Layer(g, S, time) && !(goals <= Layer(g, S, time))
    ensures RelaxedUnreachable(g, S, goals)
  {
    hide Layer;
    forall t: nat
      ensures !(goals <= Layer(g, S, t))
    {
      if t <= time {
        LayersGrow(g, S, t, time);
      } else {
        LayersStop(g, S, time, t);
      }
    }
  }
}
