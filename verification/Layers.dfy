/** Planning without deletes: the layers of facts, and the execution of a relaxed plan. */
module Layers {
  import opened Sequences
  import opened Connectivity

  /** One parallel step in which every effect whose conditions hold adds its facts. */
  ghost function Grow(g: Graph, X: set<nat>): set<nat> {
    X + set e, f | 0 <= e < |g.efs| && !g.efs[e].removed && g.Holds(e, X) && f in g.efs[e].A :: f
  }

  /** The facts reachable in at most `t` parallel steps. */
  ghost function Layer(g: Graph, S: set<nat>, t: nat): set<nat> {
    if t == 0 then S else Grow(g, Layer(g, S, t - 1))
  }

  ghost predicate FactFirstAt(g: Graph, S: set<nat>, t: nat, f: nat) {
    f in Layer(g, S, t) && (t > 0 ==> f !in Layer(g, S, t - 1))
  }

  ghost predicate EffectFirstAt(g: Graph, S: set<nat>, t: nat, e: nat)
    requires e < |g.efs|
  {
    g.Holds(e, Layer(g, S, t)) && (t > 0 ==> !g.Holds(e, Layer(g, S, t - 1)))
  }

  /** The goals cannot be reached even if nothing is ever deleted. */
  ghost predicate RelaxedUnreachable(g: Graph, S: set<nat>, goals: set<nat>) {
    forall t: nat :: !(goals <= Layer(g, S, t))
  }

  lemma {:induction false} LayersGrow(g: Graph, S: set<nat>, t: nat, u: nat)
    requires t <= u
    ensures Layer(g, S, t) <= Layer(g, S, u)
    decreases u
  {
    if t < u {
      LayersGrow(g, S, t, u - 1);
    }
  }

  /** Once a layer adds nothing, no later layer does. */
  lemma {:induction false} LayersStop(g: Graph, S: set<nat>, t: nat, u: nat)
    requires t <= u && Layer(g, S, t + 1) == Layer(g, S, t)
    ensures Layer(g, S, u) == Layer(g, S, t)
    decreases u
  {
    hide Grow;
    if t < u {
      LayersStop(g, S, t, u - 1);
    }
  }

  /** A fact of layer `u` has one first layer, at most `u`. */
  lemma {:induction false} FactHasFirst(g: Graph, S: set<nat>, u: nat, f: nat) returns (t: nat)
    requires f in Layer(g, S, u)
    ensures t <= u && FactFirstAt(g, S, t, f)
  {
    t := u;
    if u > 0 && f in Layer(g, S, u - 1) {
      t := FactHasFirst(g, S, u - 1, f);
    }
  }

  lemma FactFirstUnique(g: Graph, S: set<nat>, t: nat, u: nat, f: nat)
    requires FactFirstAt(g, S, t, f) && FactFirstAt(g, S, u, f)
    ensures t == u
  {
    if t < u {
      LayersGrow(g, S, t, u - 1);
    } else if u < t {
      LayersGrow(g, S, u, t - 1);
    }
  }

  lemma GrowAdds(g: Graph, X: set<nat>, e: nat, f: nat)
    requires e < |g.efs| && !g.efs[e].removed && f in g.efs[e].A
    ensures g.Holds(e, X) ==> f in Grow(g, X)
  {
  }

  /** A new fact of layer `t + 1` is added by an effect that is new in layer `t`. */
  lemma NewFactHasNewAdder(g: Graph, S: set<nat>, t: nat, f: nat) returns (e: nat)
    requires FactFirstAt(g, S, t + 1, f)
    ensures e < |g.efs| && !g.efs[e].removed && f in g.efs[e].A && EffectFirstAt(g, S, t, e)
  {
    var X := Layer(g, S, t);
    e :| 0 <= e < |g.efs| && !g.efs[e].removed && g.Holds(e, X) && f in g.efs[e].A;
    if t > 0 {
      GrowAdds(g, Layer(g, S, t - 1), e, f);
    }
  }

  /** A new effect of layer `t > 0` has a condition that is new in layer `t`. */
  lemma NewEffectHasNewCondition(g: Graph, S: set<nat>, t: nat, e: nat) returns (p: nat)
    requires t > 0 && e < |g.efs| && EffectFirstAt(g, S, t, e)
    ensures p in g.efs[e].PC && FactFirstAt(g, S, t, p)
  {
    p :| p in Elems(g.efs[e].PC) && p !in Layer(g, S, t - 1);
  }

  /** Ignoring deletes loses nothing: a real step stays inside the next layer. */
  lemma ResultInLayer(g: Graph, S: set<nat>, t: nat, X: set<nat>, o: nat)
    requires g.OpsOk() && o < |g.ops| && X <= Layer(g, S, t)
    ensures g.Result(o, X) <= Layer(g, S, t + 1)
  {
    var L := Layer(g, S, t);
    forall f | f in g.Adds(o, X)
      ensures f in Grow(g, L)
    {
      var e :| e in g.ops[o].E && g.Fires(o, e, X) && f in g.efs[e].A;
      assert g.Holds(e, L);
    }
  }

  lemma {:induction false} RunInLayer(g: Graph, S: set<nat>, t: nat, X: set<nat>, plan: seq<nat>)
    requires g.OpsOk() && g.IsOpList(plan) && X <= Layer(g, S, t)
    ensures g.Run(plan, X) <= Layer(g, S, t + |plan|)
    decreases |plan|
  {
    hide Layer;
    if plan != [] {
      ResultInLayer(g, S, t, X, plan[0]);
      RunInLayer(g, S, t + 1, g.Result(plan[0], X), plan[1..]);
    }
  }

  /** A state whose goals are out of reach without deletes is a true dead end. */
  lemma DeadEndIsSafe(g: Graph, S: set<nat>, goals: set<nat>)
    requires g.OpsOk() && RelaxedUnreachable(g, S, goals)
    ensures g.Unsolvable(S, goals)
  {
    forall plan | g.IsOpList(plan)
      ensures !(goals <= g.Run(plan, S))
    {
      RunInLayer(g, S, 0, S, plan);
    }
  }

  /** A solvable state is no dead end, and every plan is at least as long as there
      are layers below the goals. */
  lemma PlanBoundsLayers(g: Graph, S: set<nat>, goals: set<nat>, plan: seq<nat>)
    requires g.OpsOk() && g.IsOpList(plan) && goals <= g.Run(plan, S)
    ensures !RelaxedUnreachable(g, S, goals)
    ensures goals <= Layer(g, S, |plan|)
  {
    RunInLayer(g, S, 0, S, plan);
  }

  // ---- relaxed plans

  /** The facts an effect makes true without deletes: its own adds and those of
      the effects it implies. */
  ghost function Fired(g: Graph, e: nat): set<nat>
    requires e < |g.efs| && Below(g.efs[e].I, |g.efs|)
  {
    Elems(g.efs[e].A) + set i, f | i in g.efs[e].I && f in g.efs[i].A :: f
  }

  ghost predicate AreLive(g: Graph, plan: seq<nat>) {
    forall i :: 0 <= i < |plan| ==> plan[i] < |g.efs| && !g.efs[plan[i]].removed
  }

  /** The facts true after the effects of `plan` have fired one by one. */
  ghost function After(g: Graph, X: set<nat>, plan: seq<nat>): set<nat>
    requires g.ImpliedOk() && AreLive(g, plan)
  {
    if plan == [] then X
    else After(g, X, plan[..|plan| - 1]) + Fired(g, plan[|plan| - 1])
  }

  /** Each effect of `plan` finds its conditions true at its turn. */
  ghost predicate Executable(g: Graph, X: set<nat>, plan: seq<nat>)
    requires g.ImpliedOk() && AreLive(g, plan)
  {
    forall i :: 0 <= i < |plan| ==> g.Holds(plan[i], After(g, X, plan[..i]))
  }

  /** What an effect implies fires with it. */
  lemma ImpliedHold(g: Graph, e: nat, X: set<nat>)
    requires g.ImpliedOk() && e < |g.efs| && !g.efs[e].removed && g.Holds(e, X)
    ensures forall i :: i in g.efs[e].I ==> i < |g.efs| && g.Holds(i, X) && g.efs[i].op == g.efs[e].op
  {
  }
}
