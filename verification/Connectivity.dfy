/** The connectivity graph of ff.h: operators, effects and facts, and the
    meaning it gives to states. Facts, effects and operators are numbers. */
module Connectivity {
  import opened Sequences

  datatype OpConn = OpConn(E: seq<nat>)

  datatype EfConn = EfConn(op: nat, PC: seq<nat>, A: seq<nat>, D: seq<nat>, I: seq<nat>, removed: bool)

  datatype FtConn = FtConn(PC: seq<nat>, A: seq<nat>, D: seq<nat>, rand: nat, isGlobalGoal: bool)

  datatype Graph = Graph(ops: seq<OpConn>, efs: seq<EfConn>, fts: seq<FtConn>) {

    /** The effects stay within the three arrays and name each fact once. */
    ghost predicate EffectsOk() {
      forall e :: 0 <= e < |efs| ==>
        && efs[e].op < |ops|
        && Below(efs[e].PC, |fts|) && Distinct(efs[e].PC)
        && Below(efs[e].A, |fts|) && Distinct(efs[e].A)
        && Below(efs[e].D, |fts|) && Distinct(efs[e].D)
        && (efs[e].removed ==> efs[e].A == [])
    }

    /** An operator lists its own effects, those that were not removed. */
    ghost predicate OpsOk() {
      && (forall o :: 0 <= o < |ops| ==> Below(ops[o].E, |efs|) && Distinct(ops[o].E))
      && (forall o, e :: 0 <= o < |ops| && 0 <= e < |efs| ==>
           (e in ops[o].E <==> efs[e].op == o && !efs[e].removed))
    }

    /** `I` holds the other effects of the operator whose conditions are included. */
    ghost predicate ImpliedOk() {
      forall e :: 0 <= e < |efs| && !efs[e].removed ==>
        && Below(efs[e].I, |efs|) && Distinct(efs[e].I)
        && forall i :: 0 <= i < |efs| ==>
          (i in efs[e].I <==>
             i != e && !efs[i].removed && efs[i].op == efs[e].op && Elems(efs[i].PC) <= Elems(efs[e].PC))
    }

    /** The fact arrays invert the condition, add and delete lists. */
    ghost predicate FactsOk() {
      forall f :: 0 <= f < |fts| ==>
        && Below(fts[f].PC, |efs|) && Distinct(fts[f].PC)
        && Below(fts[f].A, |efs|) && Distinct(fts[f].A)
        && Below(fts[f].D, |efs|) && Distinct(fts[f].D)
        && forall e :: 0 <= e < |efs| ==>
          && (e in fts[f].PC <==> !efs[e].removed && f in efs[e].PC)
          && (e in fts[f].A <==> !efs[e].removed && f in efs[e].A)
          && (e in fts[f].D <==> !efs[e].removed && f in efs[e].D)
    }

    ghost predicate WellFormed() {
      EffectsOk() && OpsOk() && ImpliedOk() && FactsOk()
    }

    ghost predicate IsState(X: set<nat>) {
      forall f :: f in X ==> f < |fts|
    }

    predicate IsList(s: seq<nat>) {
      Below(s, |fts|)
    }

    /** Effect `e` has its conditions in `X`. */
    ghost predicate Holds(e: nat, X: set<nat>)
      requires e < |efs|
    {
      Elems(efs[e].PC) <= X
    }

    ghost predicate Fires(o: nat, e: nat, X: set<nat>)
      requires o < |ops|
    {
      e in ops[o].E && e < |efs| && Holds(e, X)
    }

    /** Some effect of `o` takes place in `X`. */
    ghost predicate Applicable(o: nat, X: set<nat>) {
      o < |ops| && exists e :: Fires(o, e, X)
    }

    ghost function Adds(o: nat, X: set<nat>): set<nat>
      requires o < |ops|
    {
      set e, f | e in ops[o].E && Fires(o, e, X) && f in efs[e].A :: f
    }

    ghost function Dels(o: nat, X: set<nat>): set<nat>
      requires o < |ops|
    {
      set e, f | e in ops[o].E && Fires(o, e, X) && f in efs[e].D :: f
    }

    /** The successor of `X` under `o`; an added fact stays although it is also deleted. */
    ghost function Result(o: nat, X: set<nat>): set<nat>
      requires o < |ops|
    {
      X - Dels(o, X) + Adds(o, X)
    }

    ghost predicate IsOpList(plan: seq<nat>) {
      Below(plan, |ops|)
    }

    /** The state reached by a sequence of operators. */
    ghost function Run(plan: seq<nat>, X: set<nat>): set<nat>
      requires IsOpList(plan)
      decreases |plan|
    {
      if plan == [] then X else Run(plan[1..], Result(plan[0], X))
    }

    /** No sequence of operators leads from `X` to a state with all of `goals`. */
    ghost predicate Unsolvable(X: set<nat>, goals: set<nat>) {
      forall plan :: IsOpList(plan) ==> !(goals <= Run(plan, X))
    }
  }
}
