/** The final representation of inst_final.c: the problem over the relevant facts alone. */
module FinalProblem {
  import opened Sequences
  import opened Grounded
  import opened Reachability

  /** The tables after the relevant facts are numbered. */
  datatype Tables = Tables(n: nat, I: set<nat>, D: set<nat>, lpos: seq<bool>, lneg: seq<bool>, luse: seq<bool>,
                           lindex: seq<int>, relevant: seq<nat>) {
    ghost predicate Ok() {
      Marked(n, I, D, lpos, lneg, luse, lindex, relevant)
    }

    /** The facts are possibly true and `D` holds what the template deletes: it is an action. */
    ghost predicate IsAction(t: Template) {
      && |lpos| == n && t.Within(n) && AllDels(t.effects) <= D
      && (forall f :: f in t.preconds ==> lpos[f])
      && forall e, f :: e in t.effects && f in e.adds ==> f < n && lpos[f]
    }

    /** A state between the facts that are always true and those that are possibly true. */
    ghost predicate Between(X: set<nat>) {
      && |lpos| == |lneg| == n
      && (forall f: nat :: f < n && !lneg[f] ==> f in X)
      && (forall f :: f in X ==> f < n && lpos[f])
    }
  }

  // ---- the construction

  /** Every fact that the table keeps has a number. */
  ghost predicate KeptNumbered(fs: seq<nat>, keep: seq<bool>, lindex: seq<int>) {
    Below(fs, |keep|) && Below(fs, |lindex|) && forall i :: 0 <= i < |fs| && keep[fs[i]] ==> lindex[fs[i]] >= 0
  }

  /** The numbers of those facts that the table keeps. */
  function Kept(fs: seq<nat>, keep: seq<bool>, lindex: seq<int>): seq<nat>
    requires KeptNumbered(fs, keep, lindex)
  {
    if fs == [] then []
    else
      var front, last := fs[..|fs| - 1], fs[|fs| - 1];
      Kept(front, keep, lindex) + if keep[last] then [lindex[last]] else []
  }

  /** Loops of this form fill every list of the final representation; no number in it is -1. */
  method Keep(fs: seq<nat>, keep: array<bool>, lindex: array<int>) returns (r: seq<nat>)
    requires KeptNumbered(fs, keep[..], lindex[..])
    ensures r == Kept(fs, keep[..], lindex[..])
  {
    r := [];
    for i := 0 to |fs|
      invariant r == Kept(fs[..i], keep[..], lindex[..])
    {
      assert fs[..i + 1][..i] == fs[..i];
      if keep[fs[i]] {
        r := r + [lindex[fs[i]]];
      }
    }
    assert fs[..|fs|] == fs;
  }

  ghost predicate AllPossible(T: Tables, fs: seq<nat>) {
    Below(fs, |T.lpos|) && forall i :: 0 <= i < |fs| ==> T.lpos[fs[i]]
  }

  lemma PossibleNumbered(T: Tables, fs: seq<nat>)
    requires T.Ok() && Below(fs, T.n)
    ensures AllPossible(T, fs) ==> KeptNumbered(fs, T.lneg, T.lindex)
    ensures (forall f :: f in fs ==> f in T.D) ==> KeptNumbered(fs, T.lpos, T.lindex)
  {
    forall f: nat | f < T.n && T.lpos[f] && T.lneg[f]
      ensures T.lindex[f] >= 0
    {
      NumberingIsBijection(T.n, T.I, T.D, T.lpos, T.lneg, T.luse, T.lindex, T.relevant, f);
    }
  }

  ghost predicate EffectOk(T: Tables, e: Effect) {
    && Below(e.conditions, T.n) && |T.lpos| == T.n
    && AllPossible(T, e.adds) && Below(e.dels, T.n) && (forall f :: f in e.dels ==> f in T.D)
  }

  /** What is left of an effect whose conditions are possible. */
  ghost function FinalEffect(T: Tables, e: Effect): Effect
    requires T.Ok() && EffectOk(T, e) && AllPossible(T, e.conditions)
  {
    PossibleNumbered(T, e.conditions);
    PossibleNumbered(T, e.adds);
    PossibleNumbered(T, e.dels);
    Effect(Kept(e.conditions, T.lneg, T.lindex), Kept(e.adds, T.lneg, T.lindex), Kept(e.dels, T.lpos, T.lindex))
  }

  /** Effects with an impossible condition are skipped. */
  ghost function FinalEffects(T: Tables, es: seq<Effect>): seq<Effect>
    requires T.Ok() && forall i :: 0 <= i < |es| ==> EffectOk(T, es[i])
  {
    if es == [] then []
    else
      var front, last := es[..|es| - 1], es[|es| - 1];
      FinalEffects(T, front) + if AllPossible(T, last.conditions) then [FinalEffect(T, last)] else []
  }

  lemma ActionEffects(T: Tables, t: Template)
    requires T.IsAction(t)
    ensures AllPossible(T, t.preconds) && forall i :: 0 <= i < |t.effects| ==> EffectOk(T, t.effects[i])
  {
    forall i | 0 <= i < |t.effects|
      ensures EffectOk(T, t.effects[i])
    {
      var e := t.effects[i];
      assert e in t.effects;
      assert forall f :: f in e.dels ==> f in AllDels(t.effects);
    }
  }

  /** The action that replaces a template. */
  ghost function FinalAction(T: Tables, t: Template): Template
    requires T.Ok() && T.IsAction(t)
  {
    ActionEffects(T, t);
    PossibleNumbered(T, t.preconds);
    Template(Kept(t.preconds, T.lneg, T.lindex), FinalEffects(T, t.effects))
  }

  // ---- the code of create_final_actions

  method ConditionsPossible(fs: seq<nat>, lpos: array<bool>) returns (all: bool)
    requires Below(fs, lpos.Length)
    ensures all <==> forall i :: 0 <= i < |fs| ==> lpos[fs[i]]
  {
    for i := 0 to |fs|
      invariant forall k :: 0 <= k < i ==> lpos[fs[k]]
    {
      if !lpos[fs[i]] {
        return false;
      }
    }
    return true;
  }

  /** The final form of one action. */
  method CreateFinalAction(t: Template, lpos: array<bool>, lneg: array<bool>, lindex: array<int>, ghost T: Tables)
    returns (a: Template)
    requires T.Ok() && T.IsAction(t) && T.lpos == lpos[..] && T.lneg == lneg[..] && T.lindex == lindex[..]
    ensures a == FinalAction(T, t)
  {
    hide Marked, Kept, KeptNumbered, AllPossible, Tables.IsAction;
    ActionEffects(T, t);
    TemplateWithin(T, t);
    PossibleNumbered(T, t.preconds);
    var preconds := Keep(t.preconds, lneg, lindex);
    var effects := [];
    for i := 0 to |t.effects|
      invariant effects == FinalEffects(T, t.effects[..i])
    {
      var e := t.effects[i];
      assert t.effects[..i + 1][..i] == t.effects[..i];
      var possible := ConditionsPossible(e.conditions, lpos);
      PossibleMeans(T, e.conditions);
      if possible {
        PossibleNumbered(T, e.conditions);
        PossibleNumbered(T, e.adds);
        PossibleNumbered(T, e.dels);
        var conditions := Keep(e.conditions, lneg, lindex);
        var adds := Keep(e.adds, lneg, lindex);
        var dels := Keep(e.dels, lpos, lindex);
        effects := effects + [Effect(conditions, adds, dels)];
      }
    }
    assert t.effects[..|t.effects|] == t.effects;
    return Template(preconds, effects);
  }

  lemma PossibleMeans(T: Tables, fs: seq<nat>)
    requires Below(fs, |T.lpos|)
    ensures AllPossible(T, fs) <==> forall i :: 0 <= i < |fs| ==> T.lpos[fs[i]]
  {
  }

  lemma TemplateWithin(T: Tables, t: Template)
    requires T.Ok() && T.IsAction(t)
    ensures t.Within(T.n) && |T.lpos| == |T.lneg| == |T.lindex| == T.n
    ensures forall i :: 0 <= i < |t.effects| ==> Below(t.effects[i].adds, T.n)
  {
  }

  // ---- the simulation

  /** The numbers of the relevant facts in `X`. */
  ghost function Numbered(T: Tables, X: set<nat>): set<nat> {
    set i: nat | i < |T.relevant| && T.relevant[i] in X
  }

  /** A list with exactly its relevant facts kept holds the numbers of these. */
  lemma {:induction false} KeptElems(T: Tables, fs: seq<nat>, keep: seq<bool>)
    requires T.Ok() && |keep| == T.n && KeptNumbered(fs, keep, T.lindex)
    requires forall i :: 0 <= i < |fs| ==> (keep[fs[i]] <==> T.luse[fs[i]])
    ensures Elems(Kept(fs, keep, T.lindex)) == Numbered(T, Elems(fs))
  {
    if fs != [] {
      var front, last := fs[..|fs| - 1], fs[|fs| - 1];
      assert fs == front + [last];
      KeptElems(T, front, keep);
      ElemsAppend(front, last);
      hide Marked;
      NumberedAdd(T, Elems(front), last);
      if keep[last] {
        ElemsAppend(Kept(front, keep, T.lindex), T.lindex[last] as nat);
      } else {
        assert Kept(fs, keep, T.lindex) == Kept(front, keep, T.lindex);
      }
    }
  }

  lemma NumberedAdd(T: Tables, X: set<nat>, f: nat)
    requires T.Ok() && f < T.n
    ensures T.luse[f] ==> T.lindex[f] >= 0 && Numbered(T, X + {f}) == Numbered(T, X) + {T.lindex[f] as nat}
    ensures !T.luse[f] ==> Numbered(T, X + {f}) == Numbered(T, X)
  {
    NumberingIsBijection(T.n, T.I, T.D, T.lpos, T.lneg, T.luse, T.lindex, T.relevant, f);
  }

  lemma PossibleKept(T: Tables, fs: seq<nat>)
    requires T.Ok() && Below(fs, T.n) && AllPossible(T, fs)
    ensures KeptNumbered(fs, T.lneg, T.lindex) && Elems(Kept(fs, T.lneg, T.lindex)) == Numbered(T, Elems(fs))
  {
    PossibleNumbered(T, fs);
    KeptElems(T, fs, T.lneg);
  }

  lemma DeletedKept(T: Tables, fs: seq<nat>)
    requires T.Ok() && Below(fs, T.n) && forall f :: f in fs ==> f in T.D
    ensures KeptNumbered(fs, T.lpos, T.lindex) && Elems(Kept(fs, T.lpos, T.lindex)) == Numbered(T, Elems(fs))
  {
    PossibleNumbered(T, fs);
    KeptElems(T, fs, T.lpos);
  }

  /** Between the bounds, a list of possible facts is true exactly if its relevant facts are. */
  lemma SameTruth(T: Tables, fs: seq<nat>, X: set<nat>)
    requires T.Ok() && T.Between(X) && AllPossible(T, fs)
    ensures Elems(fs) <= X <==> Numbered(T, Elems(fs)) <= Numbered(T, X)
  {
    if Numbered(T, Elems(fs)) <= Numbered(T, X) {
      forall f | f in fs
        ensures f in X
      {
        NumberingIsBijection(T.n, T.I, T.D, T.lpos, T.lneg, T.luse, T.lindex, T.relevant, f);
        if T.lneg[f] {
          assert T.lindex[f] as nat in Numbered(T, Elems(fs));
        }
      }
    }
  }

  lemma {:induction false} FinalEffectsElems(T: Tables, es: seq<Effect>)
    requires T.Ok() && forall i :: 0 <= i < |es| ==> EffectOk(T, es[i])
    ensures forall x :: x in FinalEffects(T, es) ==>
      exists e :: e in es && EffectOk(T, e) && AllPossible(T, e.conditions) && x == FinalEffect(T, e)
    ensures forall e :: e in es && EffectOk(T, e) && AllPossible(T, e.conditions) ==> FinalEffect(T, e) in FinalEffects(T, es)
  {
    hide Tables.Ok, EffectOk, AllPossible;
    if es != [] {
      var front, last := es[..|es| - 1], es[|es| - 1];
      assert es == front + [last];
      assert forall i :: 0 <= i < |front| ==> front[i] == es[i];
      FinalEffectsElems(T, front);
    }
  }

  lemma FinalEffectMeans(T: Tables, e: Effect, X: set<nat>)
    requires T.Ok() && EffectOk(T, e) && AllPossible(T, e.conditions) && T.Between(X)
    ensures var x := FinalEffect(T, e);
      && (Elems(e.conditions) <= X <==> Elems(x.conditions) <= Numbered(T, X))
      && Elems(x.adds) == Numbered(T, Elems(e.adds)) && Elems(x.dels) == Numbered(T, Elems(e.dels))
  {
    PossibleKept(T, e.conditions);
    PossibleKept(T, e.adds);
    DeletedKept(T, e.dels);
    SameTruth(T, e.conditions, X);
  }

  /** An effect that fires has possible conditions only. */
  lemma FiringIsPossible(T: Tables, e: Effect, X: set<nat>)
    requires T.Between(X) && Below(e.conditions, T.n) && Elems(e.conditions) <= X
    ensures AllPossible(T, e.conditions)
  {
    forall i | 0 <= i < |e.conditions|
      ensures T.lpos[e.conditions[i]]
    {
      assert e.conditions[i] in Elems(e.conditions);
    }
  }

  /** What the final action does, the template does. */
  lemma FinalWithin(T: Tables, t: Template, X: set<nat>, i: nat)
    requires T.Ok() && T.IsAction(t) && T.Between(X)
    ensures i in FinalAction(T, t).Added(Numbered(T, X)) ==> i in Numbered(T, t.Added(X))
    ensures i in FinalAction(T, t).Deleted(Numbered(T, X)) ==> i in Numbered(T, t.Deleted(X))
  {
    ActionEffects(T, t);
    var a := FinalAction(T, t);
    forall x | x in a.effects && Elems(x.conditions) <= Numbered(T, X)
      ensures Elems(x.adds) <= Numbered(T, t.Added(X)) && Elems(x.dels) <= Numbered(T, t.Deleted(X))
    {
      OneFinalEffect(T, t, X, x);
    }
    if i in a.Added(Numbered(T, X)) {
      var x, f :| x in a.effects && Elems(x.conditions) <= Numbered(T, X) && f in x.adds && f == i;
      assert i in Elems(x.adds);
    }
    if i in a.Deleted(Numbered(T, X)) {
      var x, f :| x in a.effects && Elems(x.conditions) <= Numbered(T, X) && f in x.dels && f == i;
      assert i in Elems(x.dels);
    }
  }

  lemma OneFinalEffect(T: Tables, t: Template, X: set<nat>, x: Effect)
    requires T.Ok() && T.IsAction(t) && T.Between(X)
    requires x in FinalAction(T, t).effects && Elems(x.conditions) <= Numbered(T, X)
    ensures Elems(x.adds) <= Numbered(T, t.Added(X)) && Elems(x.dels) <= Numbered(T, t.Deleted(X))
  {
    hide Tables.Ok, Tables.Between, Tables.IsAction, FinalEffect, FinalEffects, EffectOk, AllPossible;
    ActionEffects(T, t);
    FinalEffectsElems(T, t.effects);
    var e :| e in t.effects && EffectOk(T, e) && AllPossible(T, e.conditions) && x == FinalEffect(T, e);
    FinalEffectMeans(T, e, X);
    assert Elems(e.adds) <= t.Added(X) && Elems(e.dels) <= t.Deleted(X);
  }

  /** What the template does to relevant facts, the final action does. */
  lemma WithinFinal(T: Tables, t: Template, X: set<nat>, i: nat)
    requires T.Ok() && T.IsAction(t) && T.Between(X)
    ensures i in Numbered(T, t.Added(X)) ==> i in FinalAction(T, t).Added(Numbered(T, X))
    ensures i in Numbered(T, t.Deleted(X)) ==> i in FinalAction(T, t).Deleted(Numbered(T, X))
  {
    hide Tables.Ok, Tables.Between, Tables.IsAction, FinalAction, EffectOk;
    ActionEffects(T, t);
    if i in Numbered(T, t.Added(X)) {
      var e, f :| e in t.effects && Elems(e.conditions) <= X && f in e.adds && f == T.relevant[i];
      var x := FiringFinal(T, t, X, e);
      assert i in Numbered(T, Elems(e.adds));
      assert i in Elems(x.adds);
    }
    if i in Numbered(T, t.Deleted(X)) {
      var e, f :| e in t.effects && Elems(e.conditions) <= X && f in e.dels && f == T.relevant[i];
      var x := FiringFinal(T, t, X, e);
      assert i in Numbered(T, Elems(e.dels));
      assert i in Elems(x.dels);
    }
  }

  lemma FiringFinal(T: Tables, t: Template, X: set<nat>, e: Effect) returns (x: Effect)
    requires T.Ok() && T.IsAction(t) && T.Between(X) && e in t.effects && Elems(e.conditions) <= X
    ensures x in FinalAction(T, t).effects && Elems(x.conditions) <= Numbered(T, X)
    ensures Elems(x.adds) == Numbered(T, Elems(e.adds)) && Elems(x.dels) == Numbered(T, Elems(e.dels))
  {
    hide Tables.Ok, Tables.Between, Tables.IsAction, FinalEffect, FinalEffects, AllPossible;
    ActionEffects(T, t);
    var i :| 0 <= i < |t.effects| && t.effects[i] == e;
    assert EffectOk(T, e);
    FiringIsPossible(T, e, X);
    FinalEffectMeans(T, e, X);
    FinalEffectsElems(T, t.effects);
    x := FinalEffect(T, e);
  }

  /** Step for step, the final action is applicable when the template is, and its successor holds
      the relevant facts of the template's successor, which stays between the bounds. */
  lemma SameStep(T: Tables, t: Template, X: set<nat>)
    requires T.Ok() && T.IsAction(t) && T.Between(X)
    ensures t.Applicable(X) <==> FinalAction(T, t).Applicable(Numbered(T, X))
    ensures FinalAction(T, t).Successor(Numbered(T, X)) == Numbered(T, t.Successor(X))
    ensures T.Between(t.Successor(X))
  {
    hide EffectOk, FinalEffects, FinalEffect;
    ActionEffects(T, t);
    StaysBetween(T, t, X);
    hide Tables.Between, Tables.IsAction, AllPossible, Tables.Ok;
    PreconditionsBelow(T, t);
    PossibleKept(T, t.preconds);
    SameTruth(T, t.preconds, X);
    forall i: nat
      ensures i in FinalAction(T, t).Added(Numbered(T, X)) <==> i in Numbered(T, t.Added(X))
      ensures i in FinalAction(T, t).Deleted(Numbered(T, X)) <==> i in Numbered(T, t.Deleted(X))
    {
      FinalWithin(T, t, X, i);
      WithinFinal(T, t, X, i);
    }
    hide Template.Added, Template.Deleted, FinalAction;
    var a := FinalAction(T, t);
    assert a.Added(Numbered(T, X)) == Numbered(T, t.Added(X));
    assert a.Deleted(Numbered(T, X)) == Numbered(T, t.Deleted(X));
  }

  lemma PreconditionsBelow(T: Tables, t: Template)
    requires T.IsAction(t)
    ensures Below(t.preconds, T.n)
  {
  }

  lemma StaysBetween(T: Tables, t: Template, X: set<nat>)
    requires T.Ok() && T.IsAction(t) && T.Between(X)
    ensures T.Between(t.Successor(X))
  {
    assert t.Deleted(X) <= AllDels(t.effects);
  }

  /** The numbers in a final list are numbers of relevant facts, and none is there twice if the list
      had no duplicates. */
  lemma {:induction false} KeptFits(T: Tables, fs: seq<nat>, keep: seq<bool>)
    requires T.Ok() && |keep| == T.n && KeptNumbered(fs, keep, T.lindex)
    requires forall i :: 0 <= i < |fs| ==> (keep[fs[i]] <==> T.luse[fs[i]])
    ensures var r := Kept(fs, keep, T.lindex);
      && Below(r, |T.relevant|) && (Distinct(fs) ==> Distinct(r))
      && forall x :: x in r ==> T.relevant[x] in fs
  {
    if fs != [] {
      var front, last := fs[..|fs| - 1], fs[|fs| - 1];
      assert fs == front + [last];
      KeptFits(T, front, keep);
      NumberingIsBijection(T.n, T.I, T.D, T.lpos, T.lneg, T.luse, T.lindex, T.relevant, last);
    }
  }

  lemma EffectFits(T: Tables, e: Effect)
    requires T.Ok() && EffectOk(T, e) && AllPossible(T, e.conditions)
    ensures var x := FinalEffect(T, e); var n := |T.relevant|;
      && Below(x.conditions, n) && Below(x.adds, n) && Below(x.dels, n)
      && (Distinct(e.conditions) ==> Distinct(x.conditions))
  {
    PossibleNumbered(T, e.conditions);
    PossibleNumbered(T, e.adds);
    PossibleNumbered(T, e.dels);
    KeptFits(T, e.conditions, T.lneg);
    KeptFits(T, e.adds, T.lneg);
    KeptFits(T, e.dels, T.lpos);
  }

  /** A final action is in the form that the connectivity graph is built from. */
  lemma FinalActionFits(T: Tables, t: Template)
    requires T.Ok() && T.IsAction(t)
    ensures FinalAction(T, t).Within(|T.relevant|)
    ensures (forall e :: e in t.effects ==> Distinct(e.conditions)) ==>
      forall e :: e in FinalAction(T, t).effects ==> Distinct(e.conditions)
  {
    hide Tables.Ok, Kept, KeptNumbered, FinalEffect, FinalEffects, EffectOk, AllPossible, Distinct;
    ActionEffects(T, t);
    PreconditionsFit(T, t);
    FinalEffectsElems(T, t.effects);
    var a := FinalAction(T, t);
    forall x | x in a.effects
      ensures Below(x.conditions, |T.relevant|) && Below(x.adds, |T.relevant|) && Below(x.dels, |T.relevant|)
      ensures (forall e :: e in t.effects ==> Distinct(e.conditions)) ==> Distinct(x.conditions)
    {
      var e :| e in t.effects && EffectOk(T, e) && AllPossible(T, e.conditions) && x == FinalEffect(T, e);
      EffectFits(T, e);
    }
    assert forall i :: 0 <= i < |a.effects| ==> a.effects[i] in a.effects;
  }

  lemma PreconditionsFit(T: Tables, t: Template)
    requires T.Ok() && T.IsAction(t)
    ensures KeptNumbered(t.preconds, T.lneg, T.lindex) && Below(Kept(t.preconds, T.lneg, T.lindex), |T.relevant|)
  {
    PossibleNumbered(T, t.preconds);
    KeptFits(T, t.preconds, T.lneg);
  }

  // ---- runs

  /** The actions of the final problem. */
  ghost function FinalActions(T: Tables, ts: seq<Template>, actions: seq<nat>): (fs: seq<Template>)
    requires T.Ok() && Below(actions, |ts|) && forall k :: 0 <= k < |actions| ==> T.IsAction(ts[actions[k]])
    ensures |fs| == |actions| && forall k :: 0 <= k < |actions| ==> fs[k] == FinalAction(T, ts[actions[k]])
  {
    seq(|actions|, k requires 0 <= k < |actions| => FinalAction(T, ts[actions[k]]))
  }

  /** The states along the actions, and what the final problem has in their place. */
  ghost predicate Traces(T: Tables, ts: seq<Template>, run: seq<nat>, states: seq<set<nat>>) {
    && Below(run, |ts|) && |states| == |run| + 1 && T.Between(states[0])
    && forall i :: 0 <= i < |run| ==> T.IsAction(ts[run[i]]) && states[i + 1] == ts[run[i]].Successor(states[i])
  }

  lemma {:induction false} SameTrace(T: Tables, ts: seq<Template>, run: seq<nat>, states: seq<set<nat>>, i: nat)
    requires T.Ok() && Traces(T, ts, run, states) && i <= |run|
    ensures T.Between(states[i])
    ensures i < |run| ==>
      && (ts[run[i]].Applicable(states[i]) <==> FinalAction(T, ts[run[i]]).Applicable(Numbered(T, states[i])))
      && Numbered(T, states[i + 1]) == FinalAction(T, ts[run[i]]).Successor(Numbered(T, states[i]))
  {
    hide FinalAction, Numbered, Tables.Between, Tables.IsAction, Tables.Ok;
    if i > 0 {
      SameTrace(T, ts, run, states, i - 1);
      SameStep(T, ts[run[i - 1]], states[i - 1]);
    }
    if i < |run| {
      SameStep(T, ts[run[i]], states[i]);
    }
  }

  ghost predicate Solvable(ts: seq<Template>, I: set<nat>, G: set<nat>) {
    exists run, states :: IsRun(ts, run, states) && |states| == |run| + 1 && states[0] == I && G <= states[|run|]
  }

  lemma PlaceOf(actions: seq<nat>, run: seq<nat>) returns (run': seq<nat>)
    requires forall i :: 0 <= i < |run| ==> run[i] in actions
    ensures |run'| == |run| && Below(run', |actions|) && forall i :: 0 <= i < |run| ==> actions[run'[i]] == run[i]
  {
    run' := [];
    for i := 0 to |run|
      invariant |run'| == i && Below(run', |actions|) && forall k :: 0 <= k < i ==> actions[run'[k]] == run[k]
    {
      assert run[i] in actions;
      var k: nat :| k < |actions| && actions[k] == run[i];
      run' := run' + [k];
    }
  }

  /** What the analysis leaves behind. */
  ghost predicate Analysed(T: Tables, ts: seq<Template>, actions: seq<nat>, P: set<nat>) {
    && T.Ok() && Below(actions, |ts|) && T.D == ActionDels(ts, actions)
    && (forall i :: 0 <= i < |ts| ==> ts[i].Within(T.n))
    && (forall f :: f in P <==> 0 <= f < T.n && T.lpos[f]) && (forall f :: f in T.I ==> f < T.n)
    && ActionsOk(ts, actions, P)
    && forall id: nat :: id < |ts| ==> (id in actions <==> ts[id].Applicable(P))
  }

  /** perform_reachability_analysis and collect_relevant_facts, with the tables they leave behind. */
  method AnalyseTemplates(n: nat, initial: seq<nat>, ts: seq<Template>, nEasy: nat) returns (an: Analysis, ghost T: Tables)
    requires Below(initial, n) && nEasy <= |ts| && forall i :: 0 <= i < |ts| ==> ts[i].Within(n)
    ensures T.n == n && T.I == Elems(initial) && an.Shape() && an.n == n && Analysed(T, ts, an.actions, an.Possible())
    ensures T.lpos == an.lpos[..] && T.lneg == an.lneg[..] && T.lindex == an.lindex[..] && T.relevant == an.relevantFacts
    ensures Distinct(an.actions) && Least(ts, T.I, an.Possible())
  {
    hide AllAdds, AllDels, Least;
    an := new Analysis(n, initial, ts, nEasy);
    an.Analyse();
    T := Tables(n, Elems(initial), ActionDels(ts, an.actions), an.lpos[..], an.lneg[..], an.luse[..], an.lindex[..],
                an.relevantFacts);
  }

  /** create_final_initial_state: the initial facts that can become false. */
  method CreateFinalInitial(initial: seq<nat>, lneg: array<bool>, lindex: array<int>, ghost T: Tables)
    returns (init: seq<nat>)
    requires T.Ok() && Below(initial, T.n) && T.I == Elems(initial) && T.lneg == lneg[..] && T.lindex == lindex[..]
    ensures Elems(init) == Numbered(T, T.I) && Below(init, |T.relevant|) && (Distinct(initial) ==> Distinct(init))
  {
    forall i | 0 <= i < |initial|
      ensures T.lpos[initial[i]]
    {
      assert initial[i] in T.I;
    }
    PossibleKept(T, initial);
    KeptFits(T, initial, T.lneg);
    hide Marked, Kept, KeptNumbered, Numbered;
    init := Keep(initial, lneg, lindex);
  }

  /** create_final_actions: the final form of every action. */
  method CreateFinalActions(ts: seq<Template>, actions: seq<nat>, lpos: array<bool>, lneg: array<bool>,
                            lindex: array<int>, ghost T: Tables, ghost P: set<nat>)
    returns (fs: seq<Template>)
    requires Analysed(T, ts, actions, P) && T.lpos == lpos[..] && T.lneg == lneg[..] && T.lindex == lindex[..]
    ensures forall k :: 0 <= k < |actions| ==> T.IsAction(ts[actions[k]])
    ensures fs == FinalActions(T, ts, actions)
  {
    AllActions(T, ts, actions, P);
    AnalysedOk(T, ts, actions, P);
    hide Analysed, Tables.Ok, Tables.IsAction, FinalAction;
    fs := [];
    for k := 0 to |actions|
      invariant |fs| == k && forall j :: 0 <= j < k ==> fs[j] == FinalAction(T, ts[actions[j]])
    {
      var a := CreateFinalAction(ts[actions[k]], lpos, lneg, lindex, T);
      fs := fs + [a];
    }
  }

  /** The final actions are in the form that the connectivity graph is built from. */
  lemma FinalActionsFit(T: Tables, ts: seq<Template>, actions: seq<nat>)
    requires T.Ok() && Below(actions, |ts|) && forall k :: 0 <= k < |actions| ==> T.IsAction(ts[actions[k]])
    requires forall i :: 0 <= i < |ts| ==> DistinctConditions(ts[i])
    ensures forall k :: 0 <= k < |actions| ==>
      FinalActions(T, ts, actions)[k].Within(|T.relevant|) && DistinctConditions(FinalActions(T, ts, actions)[k])
  {
    hide Tables.Ok, Tables.IsAction, FinalAction, Template.Within, Distinct;
    forall k | 0 <= k < |actions|
      ensures FinalActions(T, ts, actions)[k].Within(|T.relevant|) && DistinctConditions(FinalActions(T, ts, actions)[k])
    {
      FinalActionFits(T, ts[actions[k]]);
    }
  }

  ghost predicate DistinctConditions(t: Template) {
    forall e :: e in t.effects ==> Distinct(e.conditions)
  }

  lemma ActionsAreActions(T: Tables, ts: seq<Template>, actions: seq<nat>, P: set<nat>, id: nat)
    requires Analysed(T, ts, actions, P) && id in actions
    ensures id < |ts| && T.IsAction(ts[id])
  {
    var k :| 0 <= k < |actions| && actions[k] == id;
    var t := ts[id];
    assert forall f :: f in t.preconds ==> f in Elems(t.preconds);
    assert forall e, f :: e in t.effects && f in e.adds ==> f in AllAdds(t.effects);
    assert forall f :: f in AllDels(t.effects) ==> f in ActionDels(ts, actions);
  }

  lemma InitialBetween(T: Tables, ts: seq<Template>, actions: seq<nat>, P: set<nat>)
    requires Analysed(T, ts, actions, P)
    ensures T.Between(T.I) && T.I <= P
  {
  }

  /** Every run of the grounded problem is a run of the final one. */
  lemma RunIsKept(T: Tables, ts: seq<Template>, actions: seq<nat>, P: set<nat>, run: seq<nat>, states: seq<set<nat>>)
    returns (run': seq<nat>, states': seq<set<nat>>)
    requires Analysed(T, ts, actions, P) && IsRun(ts, run, states) && states[0] == T.I
    ensures forall k :: 0 <= k < |actions| ==> T.IsAction(ts[actions[k]])
    ensures IsRun(FinalActions(T, ts, actions), run', states') && |run'| == |run|
    ensures T.Between(states[|run|])
    ensures forall i :: 0 <= i <= |run| ==> states'[i] == Numbered(T, states[i])
  {
    AllActions(T, ts, actions, P);
    InitialBetween(T, ts, actions, P);
    forall i | 0 <= i < |run|
      ensures run[i] in actions
    {
      ReachableIsPossible(ts, actions, T.I, P, run, states, i);
    }
    run' := PlaceOf(actions, run);
    states' := seq(|states|, i requires 0 <= i < |states| => Numbered(T, states[i]));
    hide Analysed, Numbered, Tables.Between, Tables.IsAction, Tables.Ok, FinalAction, Template.Applicable, Template.Successor;
    forall i | 0 <= i < |run|
      ensures T.IsAction(ts[run[i]])
    {
      assert actions[run'[i]] == run[i];
    }
    forall i: nat | i < |run|
      ensures FinalActions(T, ts, actions)[run'[i]].Applicable(states'[i])
      ensures states'[i + 1] == FinalActions(T, ts, actions)[run'[i]].Successor(states'[i])
    {
      assert ts[run[i]].Applicable(states[i]);
      SameTrace(T, ts, run, states, i);
    }
    SameTrace(T, ts, run, states, |run|);
  }

  lemma AllActions(T: Tables, ts: seq<Template>, actions: seq<nat>, P: set<nat>)
    requires Analysed(T, ts, actions, P)
    ensures forall k :: 0 <= k < |actions| ==> T.IsAction(ts[actions[k]])
  {
    forall k | 0 <= k < |actions|
      ensures T.IsAction(ts[actions[k]])
    {
      ActionsAreActions(T, ts, actions, P, actions[k]);
    }
  }

  /** The states that a sequence of templates passes through, applicable or not. */
  ghost function Trace(ts: seq<Template>, run: seq<nat>, X: set<nat>): (states: seq<set<nat>>)
    requires Below(run, |ts|)
    ensures |states| == |run| + 1
  {
    if run == [] then [X]
    else
      var front := Trace(ts, run[..|run| - 1], X);
      front + [ts[run[|run| - 1]].Successor(front[|run| - 1])]
  }

  lemma {:induction false} TraceSteps(ts: seq<Template>, run: seq<nat>, X: set<nat>, i: nat)
    requires Below(run, |ts|)
    ensures Trace(ts, run, X)[0] == X
    ensures i < |run| ==> Trace(ts, run, X)[i + 1] == ts[run[i]].Successor(Trace(ts, run, X)[i])
    decreases |run|
  {
    if run != [] {
      var front := run[..|run| - 1];
      TraceSteps(ts, front, X, i);
      assert i < |front| ==> front[i] == run[i];
    }
  }

  /** Every run of the final problem comes from a run of the grounded one. */
  lemma RunComesFrom(T: Tables, ts: seq<Template>, actions: seq<nat>, P: set<nat>, run': seq<nat>, states': seq<set<nat>>)
    returns (run: seq<nat>, states: seq<set<nat>>)
    requires Analysed(T, ts, actions, P) && forall k :: 0 <= k < |actions| ==> T.IsAction(ts[actions[k]])
    requires IsRun(FinalActions(T, ts, actions), run', states') && states'[0] == Numbered(T, T.I)
    ensures IsRun(ts, run, states) && states[0] == T.I && |run| == |run'|
    ensures T.Between(states[|run|])
    ensures forall i :: 0 <= i <= |run| ==> states'[i] == Numbered(T, states[i])
  {
    hide Analysed, Numbered, Tables.Ok, Tables.Between, Tables.IsAction, FinalAction, Template.Applicable, Template.Successor, Trace;
    AnalysedOk(T, ts, actions, P);
    InitialBetween(T, ts, actions, P);
    run := seq(|run'|, i requires 0 <= i < |run'| => actions[run'[i]]);
    states := Trace(ts, run, T.I);
    TraceSteps(ts, run, T.I, 0);
    forall i: nat | i < |run|
      ensures states[i + 1] == ts[run[i]].Successor(states[i])
    {
      TraceSteps(ts, run, T.I, i);
    }
    for i := 0 to |run|
      invariant forall k :: 0 <= k <= i ==> states'[k] == Numbered(T, states[k])
      invariant forall k :: 0 <= k < i ==> ts[run[k]].Applicable(states[k])
    {
      SameTrace(T, ts, run, states, i);
      assert FinalActions(T, ts, actions)[run'[i]].Applicable(states'[i]);
    }
    SameTrace(T, ts, run, states, |run|);
  }

  /** The final problem is solvable exactly if the grounded one is. */
  lemma SameSolvability(T: Tables, ts: seq<Template>, actions: seq<nat>, P: set<nat>, goal: seq<nat>)
    requires Analysed(T, ts, actions, P) && AllPossible(T, goal)
    ensures forall k :: 0 <= k < |actions| ==> T.IsAction(ts[actions[k]])
    ensures Solvable(ts, T.I, Elems(goal)) <==>
      Solvable(FinalActions(T, ts, actions), Numbered(T, T.I), Numbered(T, Elems(goal)))
  {
    AllActions(T, ts, actions, P);
    hide Analysed, Numbered, Tables.IsAction, FinalActions, AllPossible, IsRun, Tables.Between;
    AnalysedOk(T, ts, actions, P);
    if Solvable(ts, T.I, Elems(goal)) {
      var run, states :| IsRun(ts, run, states) && |states| == |run| + 1 && states[0] == T.I
        && Elems(goal) <= states[|run|];
      var run', states' := RunIsKept(T, ts, actions, P, run, states);
      SameTruth(T, goal, states[|run|]);
    }
    if Solvable(FinalActions(T, ts, actions), Numbered(T, T.I), Numbered(T, Elems(goal))) {
      var run', states' :| IsRun(FinalActions(T, ts, actions), run', states') && |states'| == |run'| + 1
        && states'[0] == Numbered(T, T.I) && Numbered(T, Elems(goal)) <= states'[|run'|];
      var run, states := RunComesFrom(T, ts, actions, P, run', states');
      SameTruth(T, goal, states[|run|]);
    }
  }

  lemma AnalysedOk(T: Tables, ts: seq<Template>, actions: seq<nat>, P: set<nat>)
    requires Analysed(T, ts, actions, P)
    ensures T.Ok() && Below(actions, |ts|)
  {
  }

  // ---- the goal

  /** A goal in disjunctive form: some disjunct is true. */
  ghost predicate GoalHolds(goal: seq<seq<nat>>, X: set<nat>) {
    exists d :: d in goal && Elems(d) <= X
  }

  ghost predicate GoalReachable(ts: seq<Template>, I: set<nat>, ds: seq<seq<nat>>) {
    exists run, states :: IsRun(ts, run, states) && |states| == |run| + 1 && states[0] == I && GoalHolds(ds, states[|run|])
  }

  /** What create_final_goal_state finds: a goal that is always or never true, where the planner stops, a
      list of facts, or disjuncts that become actions for one artificial fact. */
  datatype FinalGoal = AlwaysTrue | NeverTrue | Facts(F: seq<nat>) | Disjuncts(ds: seq<seq<nat>>)

  /** The final goal says what the goal says, in every state between the bounds. */
  ghost predicate GoalMeans(T: Tables, goal: seq<seq<nat>>, g: FinalGoal, X: set<nat>) {
    match g
    case AlwaysTrue => GoalHolds(goal, X)
    case NeverTrue => !GoalHolds(goal, X)
    case Facts(F) => GoalHolds(goal, X) <==> Elems(F) <= Numbered(T, X)
    case Disjuncts(ds) => |ds| >= 2 && (GoalHolds(goal, X) <==> GoalHolds(ds, Numbered(T, X)))
  }

  ghost predicate AllDistinct(goal: seq<seq<nat>>) {
    forall d :: d in goal ==> Distinct(d)
  }

  ghost predicate IsFinalDisjunct(T: Tables, goal: seq<seq<nat>>, d: seq<nat>) {
    d != [] && Below(d, |T.relevant|) && (AllDistinct(goal) ==> Distinct(d))
  }

  /** The facts of the final goal are facts of the final problem. */
  ghost predicate GoalFits(T: Tables, goal: seq<seq<nat>>, g: FinalGoal) {
    match g
    case Facts(F) => IsFinalDisjunct(T, goal, F)
    case Disjuncts(ds) => forall d :: d in ds ==> IsFinalDisjunct(T, goal, d)
    case _ => true
  }

  lemma DisjunctFits(T: Tables, goal: seq<seq<nat>>, i: nat)
    requires T.Ok() && i < |goal| && Below(goal[i], T.n) && AllPossible(T, goal[i])
    ensures KeptNumbered(goal[i], T.lneg, T.lindex)
    ensures var d := Kept(goal[i], T.lneg, T.lindex); d != [] ==> IsFinalDisjunct(T, goal, d)
  {
    PossibleNumbered(T, goal[i]);
    KeptFits(T, goal[i], T.lneg);
    assert goal[i] in goal;
  }

  lemma DisjunctMeans(T: Tables, d: seq<nat>, X: set<nat>)
    requires T.Ok() && Below(d, T.n) && T.Between(X)
    ensures AllPossible(T, d) ==> KeptNumbered(d, T.lneg, T.lindex)
    ensures AllPossible(T, d) ==> (Elems(d) <= X <==> Elems(Kept(d, T.lneg, T.lindex)) <= Numbered(T, X))
    ensures !AllPossible(T, d) ==> !(Elems(d) <= X)
  {
    if AllPossible(T, d) {
      PossibleKept(T, d);
      SameTruth(T, d, X);
    } else if Elems(d) <= X {
      FiringIsPossible(T, Effect(d, [], []), X);
    }
  }

  lemma GoalSplits(goal: seq<seq<nat>>, d: seq<nat>, X: set<nat>)
    ensures GoalHolds(goal + [d], X) <==> GoalHolds(goal, X) || Elems(d) <= X
  {
    assert forall x :: x in goal + [d] <==> x in goal || x == d;
  }

  lemma GoalSoFar(T: Tables, goal: seq<seq<nat>>, i: nat, ds: seq<seq<nat>>, d': seq<nat>)
    requires T.Ok() && i < |goal| && Below(goal[i], T.n)
    requires forall X :: T.Between(X) ==> (GoalHolds(goal[..i], X) <==> GoalHolds(ds, Numbered(T, X)))
    requires AllPossible(T, goal[i]) ==> KeptNumbered(goal[i], T.lneg, T.lindex) && d' == Kept(goal[i], T.lneg, T.lindex)
    ensures forall X :: T.Between(X) ==>
      (GoalHolds(goal[..i + 1], X) <==> GoalHolds(if AllPossible(T, goal[i]) then ds + [d'] else ds, Numbered(T, X)))
    ensures AllPossible(T, goal[i]) && d' == [] ==> forall X :: T.Between(X) ==> GoalHolds(goal, X)
  {
    hide GoalHolds, Numbered, Tables.Between, AllPossible, KeptNumbered, Kept, Tables.Ok;
    assert goal[..i + 1] == goal[..i] + [goal[i]];
    forall X | T.Between(X)
      ensures GoalHolds(goal[..i + 1], X) <==> GoalHolds(if AllPossible(T, goal[i]) then ds + [d'] else ds, Numbered(T, X))
      ensures AllPossible(T, goal[i]) && d' == [] ==> GoalHolds(goal, X)
    {
      DisjunctMeans(T, goal[i], X);
      GoalSplits(goal[..i], goal[i], X);
      GoalSplits(ds, d', Numbered(T, X));
      DisjunctHolds(goal, i, X);
    }
  }

  lemma DisjunctHolds(goal: seq<seq<nat>>, i: nat, X: set<nat>)
    requires i < |goal|
    ensures Elems(goal[i]) <= X ==> GoalHolds(goal, X)
  {
    assert goal[i] in goal;
  }

  /** create_final_goal_state: impossible disjuncts vanish, and so do facts that are always true. */
  method CreateFinalGoal(goal: seq<seq<nat>>, lpos: array<bool>, lneg: array<bool>, lindex: array<int>, ghost T: Tables)
    returns (g: FinalGoal)
    requires T.Ok() && T.lpos == lpos[..] && T.lneg == lneg[..] && T.lindex == lindex[..]
    requires forall i :: 0 <= i < |goal| ==> Below(goal[i], T.n)
    ensures GoalFits(T, goal, g) && forall X :: T.Between(X) ==> GoalMeans(T, goal, g, X)
  {
    hide IsFinalDisjunct, Marked, Kept, KeptNumbered, AllPossible, GoalHolds, Numbered, Tables.Between;
    var ds: seq<seq<nat>> := [];
    NoDisjuncts();
    TableSizes(T);
    for i := 0 to |goal|
      invariant forall X :: T.Between(X) ==> (GoalHolds(goal[..i], X) <==> GoalHolds(ds, Numbered(T, X)))
      invariant forall d :: d in ds ==> IsFinalDisjunct(T, goal, d)
    {
      var possible := ConditionsPossible(goal[i], lpos);
      PossibleMeans(T, goal[i]);
      PossibleNumbered(T, goal[i]);
      var d := [];
      if possible {
        d := Keep(goal[i], lneg, lindex);
        DisjunctFits(T, goal, i);
      }
      GoalSoFar(T, goal, i, ds, d);
      if possible {
        if d == [] {
          return AlwaysTrue;
        }
        ds := ds + [d];
      }
    }
    assert goal[..|goal|] == goal;
    if ds == [] {
      NoDisjuncts();
      return NeverTrue;
    } else if |ds| == 1 {
      OneDisjunct(ds);
      return Facts(ds[0]);
    }
    return Disjuncts(ds);
  }

  lemma TableSizes(T: Tables)
    requires T.Ok()
    ensures |T.lpos| == |T.lneg| == |T.lindex| == T.n
  {
  }

  lemma NoDisjuncts()
    ensures forall X :: !GoalHolds([], X)
  {
  }

  lemma OneDisjunct(ds: seq<seq<nat>>)
    requires |ds| == 1
    ensures forall X :: GoalHolds(ds, X) <==> Elems(ds[0]) <= X
  {
    assert ds == [ds[0]];
  }

  /** The final problem reaches its goal exactly if the grounded one does, for any goal with the same meaning. */
  lemma SameReachability(T: Tables, ts: seq<Template>, actions: seq<nat>, P: set<nat>, goal: seq<seq<nat>>, ds: seq<seq<nat>>)
    requires Analysed(T, ts, actions, P)
    requires forall X :: T.Between(X) ==> (GoalHolds(goal, X) <==> GoalHolds(ds, Numbered(T, X)))
    ensures forall k :: 0 <= k < |actions| ==> T.IsAction(ts[actions[k]])
    ensures GoalReachable(ts, T.I, goal) <==> GoalReachable(FinalActions(T, ts, actions), Numbered(T, T.I), ds)
  {
    AllActions(T, ts, actions, P);
    hide Analysed, Numbered, Tables.IsAction, FinalActions, IsRun, Tables.Between, GoalHolds;
    AnalysedOk(T, ts, actions, P);
    if GoalReachable(ts, T.I, goal) {
      var run, states :| IsRun(ts, run, states) && |states| == |run| + 1 && states[0] == T.I && GoalHolds(goal, states[|run|]);
      var run', states' := RunIsKept(T, ts, actions, P, run, states);
    }
    if GoalReachable(FinalActions(T, ts, actions), Numbered(T, T.I), ds) {
      var run', states' :| IsRun(FinalActions(T, ts, actions), run', states') && |states'| == |run'| + 1
        && states'[0] == Numbered(T, T.I) && GoalHolds(ds, states'[|run'|]);
      var run, states := RunComesFrom(T, ts, actions, P, run', states');
    }
  }

  /** A goal found always or never true is so. */
  lemma GoalDecided(T: Tables, ts: seq<Template>, actions: seq<nat>, P: set<nat>, goal: seq<seq<nat>>, g: FinalGoal)
    requires Analysed(T, ts, actions, P) && forall X :: T.Between(X) ==> GoalMeans(T, goal, g, X)
    ensures g.AlwaysTrue? ==> GoalHolds(goal, T.I)
    ensures g.NeverTrue? ==> !GoalReachable(ts, T.I, goal)
  {
    InitialBetween(T, ts, actions, P);
    hide Analysed, GoalHolds, Tables.Between, Tables.IsAction, IsRun;
    if g.NeverTrue? && GoalReachable(ts, T.I, goal) {
      var run, states :| IsRun(ts, run, states) && |states| == |run| + 1 && states[0] == T.I && GoalHolds(goal, states[|run|]);
      var run', states' := RunIsKept(T, ts, actions, P, run, states);
    }
  }

  /** The artificial action of a disjunct. */
  function GoalAction(d: seq<nat>, goalFact: nat): Template {
    Template(d, [Effect([], [goalFact], [])])
  }

  /** They are put in front of the actions, one after the other. */
  function WithGoalActions(ts: seq<Template>, ds: seq<seq<nat>>, goalFact: nat): (all: seq<Template>)
    ensures |all| == |ds| + |ts| && all[|ds|..] == ts
    ensures forall i :: 0 <= i < |ds| ==> all[i] == GoalAction(ds[|ds| - 1 - i], goalFact)
  {
    seq(|ds|, i requires 0 <= i < |ds| => GoalAction(ds[|ds| - 1 - i], goalFact)) + ts
  }

  lemma OneMoreGoalAction(ts: seq<Template>, ds: seq<seq<nat>>, i: nat, goalFact: nat)
    requires i < |ds|
    ensures WithGoalActions(ts, ds[..i + 1], goalFact) == [GoalAction(ds[i], goalFact)] + WithGoalActions(ts, ds[..i], goalFact)
  {
    hide GoalAction;
    var all, all' := WithGoalActions(ts, ds[..i], goalFact), WithGoalActions(ts, ds[..i + 1], goalFact);
    forall k | 0 <= k < |all'|
      ensures all'[k] == ([GoalAction(ds[i], goalFact)] + all)[k]
    {
      if k > i {
        assert all'[k] == all'[i + 1..][k - i - 1] && all[k - 1] == all[i..][k - 1 - i];
      }
    }
  }

  method AddGoalActions(ts: seq<Template>, ds: seq<seq<nat>>, goalFact: nat) returns (all: seq<Template>)
    ensures all == WithGoalActions(ts, ds, goalFact)
  {
    hide GoalAction;
    all := ts;
    for i := 0 to |ds|
      invariant all == WithGoalActions(ts, ds[..i], goalFact)
    {
      OneMoreGoalAction(ts, ds, i, goalFact);
      all := [GoalAction(ds[i], goalFact)] + all;
    }
    assert ds[..|ds|] == ds;
  }

  /** The numbers of a run behind `k` actions put in front. */
  ghost function Shifted(run: seq<nat>, k: nat): (r: seq<nat>)
    ensures |r| == |run| && forall i :: 0 <= i < |run| ==> r[i] == run[i] + k
  {
    seq(|run|, i requires 0 <= i < |run| => run[i] + k)
  }

  lemma GoalActionAdds(d: seq<nat>, goalFact: nat, X: set<nat>)
    ensures GoalAction(d, goalFact).Successor(X) == X + {goalFact}
  {
    var a := GoalAction(d, goalFact);
    var e := Effect([], [goalFact], []);
    assert a.effects[0] == e && e in a.effects;
    assert Elems<nat>(e.conditions) <= X;
    assert goalFact in e.adds;
    assert goalFact in a.Added(X);
    assert forall f :: f in a.Added(X) ==> f == goalFact;
    assert a.Deleted(X) == {};
  }

  lemma LongerRun(ts: seq<Template>, run: seq<nat>, states: seq<set<nat>>, a: nat)
    requires IsRun(ts, run, states) && a < |ts| && ts[a].Applicable(states[|run|])
    ensures IsRun(ts, run + [a], states + [ts[a].Successor(states[|run|])])
  {
    hide Template.Applicable, Template.Successor;
    var run', states' := run + [a], states + [ts[a].Successor(states[|run|])];
    forall i | 0 <= i < |run'|
      ensures ts[run'[i]].Applicable(states'[i]) && states'[i + 1] == ts[run'[i]].Successor(states'[i])
    {
      assert i < |run| ==> run'[i] == run[i] && ts[run[i]].Applicable(states[i]);
    }
  }

  lemma MoreActions(ts: seq<Template>, more: seq<Template>, run: seq<nat>, states: seq<set<nat>>)
    requires IsRun(ts, run, states)
    ensures IsRun(more + ts, Shifted(run, |more|), states)
  {
    hide Template.Applicable, Template.Successor;
  }

  /** A run over the original actions, followed by the artificial action of a disjunct that holds. */
  lemma ReachGoalFact(ts: seq<Template>, I: set<nat>, ds: seq<seq<nat>>, goalFact: nat)
    requires GoalReachable(ts, I, ds)
    ensures Solvable(WithGoalActions(ts, ds, goalFact), I, {goalFact})
  {
    hide IsRun, Template.Successor, GoalAction;
    var run, states :| IsRun(ts, run, states) && |states| == |run| + 1 && states[0] == I && GoalHolds(ds, states[|run|]);
    var d :| d in ds && Elems(d) <= states[|run|];
    var k: nat :| k < |ds| && ds[k] == d;
    var all := WithGoalActions(ts, ds, goalFact);
    var a: nat := |ds| - 1 - k;
    assert all[a] == GoalAction(d, goalFact);
    ApplicableGoal(d, goalFact, states[|run|]);
    MoreActions(ts, all[..|ds|], run, states);
    assert all[..|ds|] + ts == all;
    var run' := Shifted(run, |ds|);
    LongerRun(all, run', states, a);
    GoalActionAdds(d, goalFact, states[|run|]);
    RunSize(all, run', states);
    assert (states + [all[a].Successor(states[|run|])])[|run' + [a]|] == states[|run|] + {goalFact};
  }

  lemma RunSize(ts: seq<Template>, run: seq<nat>, states: seq<set<nat>>)
    requires IsRun(ts, run, states)
    ensures |states| == |run| + 1
  {
  }

  lemma ApplicableGoal(d: seq<nat>, goalFact: nat, X: set<nat>)
    ensures GoalAction(d, goalFact).Applicable(X) <==> Elems(d) <= X
  {
  }

  /** A run behind the `k` actions put in front. */
  ghost predicate RunBehind(ts: seq<Template>, k: nat, run: seq<nat>, states: seq<set<nat>>) {
    && |states| == |run| + 1
    && forall i :: 0 <= i < |run| ==>
      && k <= run[i] < k + |ts|
      && ts[run[i] - k].Applicable(states[i]) && states[i + 1] == ts[run[i] - k].Successor(states[i])
  }

  lemma BehindReaches(ts: seq<Template>, I: set<nat>, ds: seq<seq<nat>>, k: nat, run: seq<nat>, states: seq<set<nat>>)
    requires RunBehind(ts, k, run, states) && states[0] == I && GoalHolds(ds, states[|run|])
    ensures GoalReachable(ts, I, ds)
  {
    hide Template.Applicable, Template.Successor, GoalHolds;
    var run': seq<nat> := seq(|run|, i requires 0 <= i < |run| => run[i] - k);
    assert IsRun(ts, run', states);
  }

  /** Before the artificial fact is true, only the original actions were used, and it becomes true
      only where a disjunct holds. */
  lemma {:induction false} GoalFactComesFrom(ts: seq<Template>, I: set<nat>, ds: seq<seq<nat>>, goalFact: nat,
                                             run: seq<nat>, states: seq<set<nat>>)
    requires forall i :: 0 <= i < |ts| ==> ts[i].Within(goalFact)
    requires goalFact !in I && IsRun(WithGoalActions(ts, ds, goalFact), run, states) && states[0] == I
    ensures goalFact in states[|run|] ==> GoalReachable(ts, I, ds)
    ensures goalFact !in states[|run|] ==> RunBehind(ts, |ds|, run, states)
    decreases |run|
  {
    if run != [] {
      var n := |run| - 1;
      var all := WithGoalActions(ts, ds, goalFact);
      assert forall i :: 0 <= i < n ==> run[..n][i] == run[i];
      GoalFactComesFrom(ts, I, ds, goalFact, run[..n], states[..n + 1]);
      if goalFact !in states[n] {
        LastGoalStep(ts, I, ds, goalFact, run, states);
      } else {
        assert states[..n + 1][n] == states[n];
        if goalFact !in states[n + 1] {
          GoalFactStays(ts, ds, goalFact, run[n], states[n]);
        }
      }
    }
  }

  lemma GoalFactStays(ts: seq<Template>, ds: seq<seq<nat>>, goalFact: nat, a: nat, X: set<nat>)
    requires forall i :: 0 <= i < |ts| ==> ts[i].Within(goalFact)
    requires a < |WithGoalActions(ts, ds, goalFact)| && goalFact in X
    ensures goalFact in WithGoalActions(ts, ds, goalFact)[a].Successor(X)
  {
    var all := WithGoalActions(ts, ds, goalFact);
    if a < |ds| {
      GoalActionAdds(ds[|ds| - 1 - a], goalFact, X);
    } else {
      assert all[a] == all[|ds|..][a - |ds|];
    }
  }

  lemma LastGoalStep(ts: seq<Template>, I: set<nat>, ds: seq<seq<nat>>, goalFact: nat, run: seq<nat>, states: seq<set<nat>>)
    requires forall i :: 0 <= i < |ts| ==> ts[i].Within(goalFact)
    requires run != [] && IsRun(WithGoalActions(ts, ds, goalFact), run, states) && states[0] == I
    requires goalFact !in states[|run| - 1] && RunBehind(ts, |ds|, run[..|run| - 1], states[..|run|])
    ensures goalFact in states[|run|] ==> GoalReachable(ts, I, ds)
    ensures goalFact !in states[|run|] ==> RunBehind(ts, |ds|, run, states)
  {
    var n := |run| - 1;
    var all := WithGoalActions(ts, ds, goalFact);
    if run[n] >= |ds| {
      assert all[run[n]] == all[|ds|..][run[n] - |ds|];
      assert goalFact !in ts[run[n] - |ds|].Added(states[n]);
      forall i | 0 <= i < |run|
        ensures |ds| <= run[i] < |ds| + |ts| && ts[run[i] - |ds|].Applicable(states[i])
        ensures states[i + 1] == ts[run[i] - |ds|].Successor(states[i])
      {
        assert i < n ==> run[..n][i] == run[i] && states[..|run|][i] == states[i];
      }
    } else {
      var d := ds[|ds| - 1 - run[n]];
      assert all[run[n]] == GoalAction(d, goalFact);
      GoalActionAdds(d, goalFact, states[n]);
      assert d in ds && Elems(d) <= states[n];
      BehindReaches(ts, I, ds, |ds|, run[..n], states[..|run|]);
    }
  }

  /** With a disjunctive goal, the problem with the artificial fact as its goal is solvable exactly if
      some run makes a disjunct true. */
  lemma ArtificialGoal(ts: seq<Template>, I: set<nat>, ds: seq<seq<nat>>, goalFact: nat)
    requires (forall i :: 0 <= i < |ts| ==> ts[i].Within(goalFact)) && goalFact !in I
    ensures Solvable(WithGoalActions(ts, ds, goalFact), I, {goalFact}) <==> GoalReachable(ts, I, ds)
  {
    if GoalReachable(ts, I, ds) {
      ReachGoalFact(ts, I, ds, goalFact);
    }
    if Solvable(WithGoalActions(ts, ds, goalFact), I, {goalFact}) {
      var run, states :| IsRun(WithGoalActions(ts, ds, goalFact), run, states) && |states| == |run| + 1
        && states[0] == I && {goalFact} <= states[|run|];
      GoalFactComesFrom(ts, I, ds, goalFact, run, states);
    }
  }
}
