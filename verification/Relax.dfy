/** The heuristic evaluation of a state, as relax.c computes it with global arrays and work lists: the
    counter-driven fixpoint, the extraction of a relaxed plan and the helpful operators. The marks that
    the C program keeps in the graph's structs are one array per phase here, and every evaluation leaves
    them as it found them. What the loops have to establish is defined in Layers, Fixpoint and
    Extraction; the methods here only carry it from step to step. */
module Relax {
  import opened Sequences
  import opened Connectivity
  import opened Layers
  import opened Fixpoint
  import opened Extraction
  import opened Selection

  /** The first size of the table of goal lists. */
  const RELAXED_STEPS_DEFAULT := 25

  class Relaxation {
    const g: Graph

    // marks of the fixpoint
    const ft: array<FtMark>
    const ef: array<EfMark>
    var lcurrentGoals: seq<nat>
    var lF: seq<nat>
    var lE: seq<nat>
    var lchE: seq<nat>
    var l0PE: seq<nat>

    // marks of the extraction
    const fp: array<FtPlan>
    const inPlan: array<bool>
    const om: array<OpMark>
    var lgoalsAt: seq<seq<nat>>
    var lchF: seq<nat>
    var lusedO: seq<nat>
    var ginPlanE: seq<nat>
    var lh: nat
    var gH: seq<nat>
    var gA: seq<nat>

    ghost predicate Valid()
      reads this`l0PE, this`lcurrentGoals, ft, ef
    {
      && g.WellFormed()
      && Sized(g, ft[..], ef[..])
      && g.IsList(lcurrentGoals)
      && Ascending(l0PE) && (forall e :: e in l0PE <==> 0 <= e < |g.efs| && g.efs[e].PC == [])
    }

    /** What the extraction marks is on a list, so the next extraction can take it back. */
    ghost predicate PlanValid()
      reads this`lgoalsAt, this`lchF, this`lusedO, this`ginPlanE, this`gH, this`gA, fp, inPlan, om
    {
      && fp.Length == |g.fts| && inPlan.Length == |g.efs| && om.Length == |g.ops|
      && |lgoalsAt| >= RELAXED_STEPS_DEFAULT && (forall l :: 0 <= l < |lgoalsAt| ==> Below(lgoalsAt[l], |g.fts|))
      && ChangedOk() && UsedOk() && PlanListOk() && HelpfulListOk() && ApplicableListOk()
    }

    ghost predicate ChangedOk()
      reads this`lchF, fp
    {
      && Below(lchF, fp.Length)
      && forall f :: 0 <= f < fp.Length ==> (fp[f].ch <==> f in lchF) && (!fp[f].ch ==> fp[f] == FP_CLEAR)
    }

    ghost predicate UsedOk()
      reads this`lusedO, om
    {
      && Below(lusedO, om.Length)
      && forall o :: 0 <= o < om.Length ==> (om[o].isUsed != INFINITY <==> o in lusedO)
    }

    ghost predicate PlanListOk()
      reads this`ginPlanE, inPlan
    {
      && Below(ginPlanE, inPlan.Length)
      && forall e :: 0 <= e < inPlan.Length ==> (inPlan[e] <==> e in ginPlanE)
    }

    ghost predicate HelpfulListOk()
      reads this`gH, om
    {
      && Below(gH, om.Length) && Distinct(gH)
      && forall o :: 0 <= o < om.Length ==> (om[o].isInH <==> o in gH)
    }

    ghost predicate ApplicableListOk()
      reads this`gA, om
    {
      && Below(gA, om.Length) && Distinct(gA)
      && forall o :: 0 <= o < om.Length ==> (om[o].isInA <==> o in gA)
    }

    /** The marks are as an evaluation must find them. */
    ghost predicate Clean()
      reads ft, ef
    {
      Clear(ft[..], ef[..])
    }

    static method WithoutConditions(g: Graph) returns (l: seq<nat>)
      ensures Ascending(l) && forall e :: e in l <==> 0 <= e < |g.efs| && g.efs[e].PC == []
    {
      l := [];
      for i := 0 to |g.efs|
        invariant Ascending(l) && Below(l, i) && forall e :: e in l <==> 0 <= e < i && g.efs[e].PC == []
      {
        if |g.efs[i].PC| == 0 {
          l := l + [i];
        }
      }
    }

    /** The marks before the first extraction. */
    static method FirstMarks(g: Graph) returns (fp: array<FtPlan>, inPlan: array<bool>, om: array<OpMark>)
      ensures fresh(fp) && fresh(inPlan) && fresh(om)
      ensures fp.Length == |g.fts| && inPlan.Length == |g.efs| && om.Length == |g.ops|
      ensures forall f :: 0 <= f < fp.Length ==> fp[f] == FP_CLEAR
      ensures forall e :: 0 <= e < inPlan.Length ==> !inPlan[e]
      ensures forall o :: 0 <= o < om.Length ==> om[o] == OpMark(INFINITY, false, false)
    {
      fp := new FtPlan[|g.fts|](_ => FP_CLEAR);
      inPlan := new bool[|g.efs|](_ => false);
      om := new OpMark[|g.ops|](_ => OpMark(INFINITY, false, false));
    }

    constructor (g: Graph)
      requires g.WellFormed()
      ensures this.g == g && Valid() && PlanValid() && Clean()
      ensures fresh(ft) && fresh(ef) && fresh(fp) && fresh(inPlan) && fresh(om)
    {
      hide Graph.WellFormed;
      var none := Relaxation.WithoutConditions(g);
      var noPlan, noEffect, noOp := Relaxation.FirstMarks(g);
      this.g := g;
      ft := new FtMark[|g.fts|](_ => FT_CLEAR);
      ef := new EfMark[|g.efs|](_ => EF_CLEAR);
      lcurrentGoals := [];
      lF, lE, lchE := [], [], [];
      l0PE := none;
      fp, inPlan, om := noPlan, noEffect, noOp;
      lgoalsAt := seq(RELAXED_STEPS_DEFAULT, _ => []);
      lchF, lusedO, ginPlanE, gH, gA := [], [], [], [], [];
      lh := 0;
    }

    method NewFact(index: nat)
      requires Valid() && index < ft.Length
      requires FactListOk(ft[..], lF) && index !in lF
      modifies this`lF, ft
      ensures FactListOk(ft[..], lF) && lF == old(lF) + [index]
      ensures ft[..] == old(ft[..])[index := FtMark(old(ft[index].level), true)]
      ensures Valid()
    {
      lF := lF + [index];
      ft[index] := ft[index].(inF := true);
      DistinctAppend(old(lF), index);
    }

    method NewEf(index: nat)
      requires Valid() && index < ef.Length
      requires EffectListOk(ef[..], lE, lchE) && index !in lE
      modifies this`lE, ef
      ensures EffectListOk(ef[..], lE, lchE) && lE == old(lE) + [index]
      ensures ef[..] == old(ef[..])[index := old(ef[index]).(inE := true)]
      ensures Valid()
    {
      lE := lE + [index];
      ef[index] := ef[index].(inE := true);
      DistinctAppend(old(lE), index);
    }

    /** Put the facts of the state into the list, each once. */
    method InitializeFixpoint(S: seq<nat>)
      requires Valid() && Clean() && g.IsList(S)
      modifies this`lF, this`lE, this`lchE, ft
      ensures Valid()
      ensures AtLayer(g, Elems(S), ft[..], ef[..], lF, lE, lchE, 0, 0)
      ensures lE == [] && (Distinct(S) ==> lF == S)
    {
      lE := [];
      lchE := [];
      lF := [];
      for i := 0 to |S|
        invariant Valid() && FactListOk(ft[..], lF) && lE == [] && lchE == []
        invariant Elems(lF) == Elems(S[..i]) && (Distinct(S) ==> lF == S[..i])
        invariant forall f :: 0 <= f < ft.Length ==> ft[f].level == INFINITY
      {
        assert S[..i + 1] == S[..i] + [S[i]];
        ElemsAppend(S[..i], S[i]);
        if ft[S[i]].inF {
          assert S[i] in Elems(lF);
          continue;
        }
        ElemsAppend(lF, S[i]);
        NewFact(S[i]);
      }
      assert S[..|S|] == S;
      forall e | 0 <= e < ef.Length
        ensures CountOk(g, ef[..], e, {}, false)
      {
        CountInNone(g.efs[e].PC);
        CountInFull(g.efs[e].PC, {});
      }
      assert lF[..0] == [] && Elems(lF[..0]) == {};
    }

    /** One more condition of effect `e` is active: count it, and list the effect when it was the last. */
    method CountCondition(e: nat, ghost active: set<nat>, ghost f: nat, ghost zero: bool)
      requires Valid() && e < ef.Length && EffectListOk(ef[..], lE, lchE)
      requires f < |g.fts| && f !in active && e in g.fts[f].PC
      requires CountOk(g, ef[..], e, active, zero)
      modifies this`lE, this`lchE, ef
      ensures Valid() && EffectListOk(ef[..], lE, lchE)
      ensures CountOk(g, ef[..], e, active + {f}, zero)
      ensures forall d :: 0 <= d < ef.Length && d != e ==> ef[d] == old(ef[d])
      ensures ef[e].level == old(ef[e].level)
      ensures lE == old(lE) + if g.Holds(e, active + {f}) then [e] else []
    {
      ghost var before := ef[..];
      ef[e] := ef[e].(numActivePCs := ef[e].numActivePCs + 1);
      if !ef[e].ch {
        DistinctAppend(lchE, e);
        ef[e] := ef[e].(ch := true);
        lchE := lchE + [e];
      }
      CountTouched(g, before, before[e := before[e].(numActivePCs := before[e].numActivePCs + 1,
                              inE := before[e].inE || before[e].numActivePCs + 1 == |g.efs[e].PC|)],
                   e, active, f, zero);
      if ef[e].numActivePCs == |g.efs[e].PC| {
        NewEf(e);
      }
    }

    method ActivateFt(index: nat, time: nat, ghost active: set<nat>, ghost zero: bool)
      requires Valid() && index < ft.Length && index !in active
      requires EffectListOk(ef[..], lE, lchE) && CountsOk(g, ef[..], active, zero)
      modifies this`lE, this`lchE, ft, ef
      ensures Valid()
      ensures ft[..] == old(ft[..])[index := FtMark(time, old(ft[index].inF))]
      ensures EffectListOk(ef[..], lE, lchE) && CountsOk(g, ef[..], active + {index}, zero)
      ensures forall e :: 0 <= e < ef.Length ==> ef[e].level == old(ef[e].level)
      ensures lE == old(lE) + Complete(g, g.fts[index].PC, active + {index})
    {
      hide Complete;
      ft[index] := ft[index].(level := time);
      var pc := g.fts[index].PC;
      NoneComplete(g, lE, active + {index});
      for i := 0 to |pc|
        invariant Valid() && EffectListOk(ef[..], lE, lchE)
        invariant forall e :: 0 <= e < ef.Length ==>
          CountOk(g, ef[..], e, if e in pc[..i] then active + {index} else active, zero)
        invariant forall e :: 0 <= e < ef.Length ==> ef[e].level == old(ef[e].level)
        invariant lE == old(lE) + Complete(g, pc[..i], active + {index})
        invariant ft[..] == old(ft[..])[index := FtMark(time, old(ft[index].inF))]
      {
        assert pc[i] !in pc[..i] && pc[..i + 1] == pc[..i] + [pc[i]];
        CompleteStep(g, old(lE), pc, active + {index}, i);
        CountCondition(pc[i], active, index, zero);
      }
      assert pc[..|pc|] == pc;
      forall e: nat | e < ef.Length && e !in pc
        ensures CountOk(g, ef[..], e, active + {index}, zero)
      {
        CountUntouched(g, ef[..], e, active, index, zero);
      }
    }

    method ActivateEf(index: nat, time: nat)
      requires Valid() && index < ef.Length
      requires FactListOk(ft[..], lF)
      modifies this`lF, ft, ef
      ensures Valid()
      ensures ef[..] == old(ef[..])[index := old(ef[index]).(level := time)]
      ensures FactListOk(ft[..], lF) && old(lF) <= lF
      ensures Elems(lF) == old(Elems(lF)) + Elems(g.efs[index].A)
      ensures forall f :: 0 <= f < ft.Length ==> ft[f].level == old(ft[f].level)
    {
      ef[index] := ef[index].(level := time);
      var a := g.efs[index].A;
      for i := 0 to |a|
        invariant Valid() && FactListOk(ft[..], lF) && old(lF) <= lF
        invariant Elems(lF) == old(Elems(lF)) + Elems(a[..i])
        invariant forall f :: 0 <= f < ft.Length ==> ft[f].level == old(ft[f].level)
        invariant ef[..] == old(ef[..])[index := old(ef[index]).(level := time)]
      {
        assert a[..i + 1] == a[..i] + [a[i]];
        ElemsAppend(a[..i], a[i]);
        if ft[a[i]].inF {
          assert a[i] in Elems(lF);
          continue;
        }
        ElemsAppend(lF, a[i]);
        NewFact(a[i]);
      }
      assert a[..|a|] == a;
    }

    /** The loop over the facts that are new in this layer. */
    method ActivateFacts(startFt: nat, time: nat, ghost S: set<nat>)
      requires Valid() && AtLayer(g, S, ft[..], ef[..], lF, lE, lchE, startFt, time)
      modifies this`lE, this`lchE, ft, ef
      ensures Valid()
      ensures FactsActive(g, S, ft[..], ef[..], lF, lE, lchE, |old(lE)|, time, time > 0)
      ensures lE == old(lE) + CompletedBy(g, lF, startFt)
    {
      hide Layer, CompletedBy, Complete;
      NoneCompleted(g, lE, lF[..startFt]);
      NewFacts(g, S, lF, startFt, time);
      ListedEffects(g, S, ft[..], ef[..], lF, lE, lchE, startFt, time);
      var i := startFt;
      while i < |lF|
        invariant startFt <= i <= |lF|
        invariant Valid() && FactListOk(ft[..], lF) && EffectListOk(ef[..], lE, lchE)
        invariant FactLevelsOk(g, S, ft[..], lF, i)
        invariant CountsOk(g, ef[..], Elems(lF[..i]), time > 0)
        invariant lE == old(lE) + CompletedBy(g, lF[..i], startFt)
        invariant forall e :: 0 <= e < ef.Length ==> ef[e].level == old(ef[e].level)
      {
        assert lF[..i + 1] == lF[..i] + [lF[i]];
        ElemsAppend(lF[..i], lF[i]);
        CompletedStep(g, old(lE), lF, startFt, i);
        assert lF[i] !in lF[..i];
        ghost var before := ft[..];
        ActivateFt(lF[i], time, Elems(lF[..i]), time > 0);
        FactLevelStep(g, S, before, ft[..], lF, i, time);
        i := i + 1;
      }
      assert lF[..|lF|] == lF;
      assert lE[..|old(lE)|] == old(lE);
      assert old(lE)[..|old(lE)|] == old(lE);
    }

    /** Effects without conditions are in reach from the start. */
    method EnlistUnconditional(ghost S: set<nat>, ghost startE: nat, ghost time: nat)
      requires Valid() && FactsActive(g, S, ft[..], ef[..], lF, lE, lchE, startE, time, false)
      modifies this`lE, ef
      ensures Valid() && FactsActive(g, S, ft[..], ef[..], lF, lE, lchE, startE, time, true)
      ensures lE == old(lE) + l0PE
    {
      for i := 0 to |l0PE|
        invariant lE == old(lE) + l0PE[..i]
        invariant Valid() && EffectListOk(ef[..], lE, lchE)
        invariant startE <= |lE| && lE[..startE] == old(lE[..startE])
        invariant forall e :: 0 <= e < ef.Length ==> ef[e].level == old(ef[e].level)
        invariant CountsWith(g, ef[..], Elems(lF), l0PE[..i])
      {
        assert l0PE[i] in l0PE && l0PE[i] !in l0PE[..i] && l0PE[..i + 1] == l0PE[..i] + [l0PE[i]];
        UnconditionalStep(g, ef[..], ef[..][l0PE[i] := ef[l0PE[i]].(inE := true)], l0PE, i, Elems(lF));
        assert CountOk(g, ef[..], l0PE[i], Elems(lF), false);
        if !ef[l0PE[i]].inE {
          NewEf(l0PE[i]);
        }
      }
      assert l0PE[..|l0PE|] == l0PE;
    }

    /** The loop over the effects that are new in this layer. */
    method ActivateEffects(startEf: nat, time: nat, ghost S: set<nat>)
      requires Valid() && FactsActive(g, S, ft[..], ef[..], lF, lE, lchE, startEf, time, true)
      modifies this`lF, ft, ef
      ensures Valid()
      ensures AtLayer(g, S, ft[..], ef[..], lF, lE, lchE, |old(lF)|, time + 1)
      ensures old(lF) <= lF
    {
      hide Layer;
      EffectsStart(g, S, ft[..], ef[..], lF, lE, lchE, startEf, time);
      ghost var lF0 := lF;
      var i := startEf;
      while i < |lE|
        invariant startEf <= i <= |lE| && lF0 <= lF
        invariant Valid() && EffectsHalfway(g, S, ft[..], ef[..], lF0, lF, lE, lchE, i, time)
      {
        ghost var ft0, ef0, lF1 := ft[..], ef[..], lF;
        ActivateEf(lE[i], time);
        EffectsStep(g, S, ft0, ef0, ft[..], ef[..], lF0, lF1, lF, lE, lchE, i, time);
        i := i + 1;
      }
      LayerDone(g, S, ft[..], ef[..], lF0, lF, lE, lchE, time);
    }

    /** All current goals are in the list: then those that are new get the current level. */
    method AllGoalsActivated(time: nat) returns (all: bool)
      requires Valid() && FactListOk(ft[..], lF)
      modifies ft
      ensures Valid() && FactListOk(ft[..], lF)
      ensures all <==> Elems(lcurrentGoals) <= Elems(lF)
      ensures !all ==> ft[..] == old(ft[..])
      ensures all ==> forall f :: 0 <= f < ft.Length ==>
        ft[f] == if f in Elems(lcurrentGoals) && old(ft[f].level) == INFINITY then FtMark(time, old(ft[f].inF))
                 else old(ft[f])
    {
      for i := 0 to |lcurrentGoals|
        invariant forall j :: 0 <= j < i ==> ft[lcurrentGoals[j]].inF
      {
        if !ft[lcurrentGoals[i]].inF {
          assert lcurrentGoals[i] in Elems(lcurrentGoals);
          return false;
        }
      }
      for i := 0 to |lcurrentGoals|
        invariant Valid() && FactListOk(ft[..], lF)
        invariant forall f :: 0 <= f < ft.Length ==>
          ft[f] == if f in lcurrentGoals[..i] && old(ft[f].level) == INFINITY then FtMark(time, old(ft[f].inF))
                   else old(ft[f])
      {
        var f := lcurrentGoals[i];
        assert lcurrentGoals[..i + 1] == lcurrentGoals[..i] + [f];
        if ft[f].level == INFINITY {
          ft[f] := ft[f].(level := time);
        }
      }
      assert lcurrentGoals[..|lcurrentGoals|] == lcurrentGoals;
      return true;
    }

    /** Layer by layer, up to the goals or to the layer that adds nothing. */
    method BuildFixpoint(S: seq<nat>) returns (time: nat)
      requires Valid() && Clean() && g.IsList(S)
      modifies this`lF, this`lE, this`lchE, ft, ef
      ensures Valid() && Listed(ft[..], ef[..], lF, lE, lchE)
      ensures Built(g, Elems(S), Elems(lcurrentGoals), ft[..], ef[..], time)
    {
      hide Layer, Exact, Complete, CompletedBy;
      time := 0;
      InitializeFixpoint(S);
      var startFt: nat, startEf: nat := 0, 0;
      ghost var X, G := Elems(S), Elems(lcurrentGoals);
      while true
        invariant Valid() && AtLayer(g, X, ft[..], ef[..], lF, lE, lchE, startFt, time)
        invariant startEf == |lE|
        invariant time > 0 ==> !(G <= Layer(g, X, time - 1))
        decreases ft.Length - |lF|
      {
        ghost var ft0 := ft[..];
        DistinctBelow(lF, ft.Length);
        var all := AllGoalsActivated(time);
        if all {
          ReachedExact(g, X, ft0, ft[..], ef[..], lF, lE, lchE, startFt, time, G);
          ReachedListed(g, X, ft0, ft[..], ef[..], lF, lE, lchE, startFt, time, G);
          return;
        }
        var stopFt := |lF|;
        ActivateFacts(startFt, time, X);
        if time == 0 {
          EnlistUnconditional(X, startEf, time);
        }
        var stopEf := |lE|;
        ActivateEffects(startEf, time, X);
        if stopFt == |lF| {
          StuckBuilt(g, X, G, ft[..], ef[..], lF, lE, lchE, time);
          return;
        }
        startFt := stopFt;
        startEf := stopEf;
        time := time + 1;
      }
    }

    /** Take back every mark of the evaluation. */
    method ResetFixpoint()
      requires Valid() && Listed(ft[..], ef[..], lF, lE, lchE)
      modifies ft, ef
      ensures Valid() && Clean()
    {
      for i := 0 to |lF|
        invariant Valid() && ef[..] == old(ef[..])
        invariant forall f :: 0 <= f < ft.Length ==> ft[f] == if f in lF[..i] then FT_CLEAR else old(ft[f])
      {
        assert lF[..i + 1] == lF[..i] + [lF[i]];
        ft[lF[i]] := ft[lF[i]].(level := INFINITY, inF := false);
      }
      assert lF[..|lF|] == lF;
      for i := 0 to |lE|
        invariant Valid() && Clear(ft[..], [])
        invariant forall e :: 0 <= e < ef.Length ==>
          ef[e] == if e in lE[..i] then old(ef[e]).(level := INFINITY, inE := false) else old(ef[e])
      {
        assert lE[..i + 1] == lE[..i] + [lE[i]];
        ef[lE[i]] := ef[lE[i]].(level := INFINITY, inE := false);
      }
      assert lE[..|lE|] == lE;
      for i := 0 to |lchE|
        invariant Valid() && Clear(ft[..], [])
        invariant forall e :: 0 <= e < ef.Length ==>
          ef[e] == if e in lchE[..i] then EF_CLEAR else old(ef[e]).(level := INFINITY, inE := false)
      {
        assert lchE[..i + 1] == lchE[..i] + [lchE[i]];
        ef[lchE[i]] := ef[lchE[i]].(numActivePCs := 0, ch := false);
      }
      assert lchE[..|lchE|] == lchE;
    }

    // ---- extraction of the relaxed plan

    /** Take back every mark of the previous extraction. */
    method ResetSearchInfo()
      requires PlanValid()
      modifies this`lchF, this`lusedO, this`ginPlanE, fp, inPlan, om
      ensures PlanValid() && lchF == [] && lusedO == [] && ginPlanE == []
    {
      for i := 0 to |lchF|
        invariant forall f :: 0 <= f < fp.Length ==> fp[f] == if f in lchF[..i] then FP_CLEAR else old(fp[f])
        modifies fp
      {
        assert lchF[..i + 1] == lchF[..i] + [lchF[i]];
        fp[lchF[i]] := FtPlan(false, INFINITY, false);
      }
      assert lchF[..|lchF|] == lchF;
      lchF := [];
      for i := 0 to |lusedO|
        invariant forall o :: 0 <= o < om.Length ==>
          om[o] == if o in lusedO[..i] then old(om[o]).(isUsed := INFINITY) else old(om[o])
        modifies om
      {
        assert lusedO[..i + 1] == lusedO[..i] + [lusedO[i]];
        om[lusedO[i]] := om[lusedO[i]].(isUsed := INFINITY);
      }
      assert lusedO[..|lusedO|] == lusedO;
      lusedO := [];
      for i := 0 to |ginPlanE|
        invariant forall e :: 0 <= e < inPlan.Length ==> inPlan[e] == (old(inPlan[e]) && e !in ginPlanE[..i])
        modifies inPlan
      {
        assert ginPlanE[..i + 1] == ginPlanE[..i] + [ginPlanE[i]];
        inPlan[ginPlanE[i]] := false;
      }
      assert ginPlanE[..|ginPlanE|] == ginPlanE;
      ginPlanE := [];
    }

    /** Make fact `f` a goal of its level. */
    method NewGoal(f: nat)
      requires Valid() && PlanValid() && f < ft.Length && 0 <= ft[f].level < |lgoalsAt|
      modifies this`lgoalsAt, this`lchF, fp
      ensures PlanValid()
      ensures lgoalsAt == old(lgoalsAt)[ft[f].level := old(lgoalsAt)[ft[f].level] + [f]]
      ensures forall d :: 0 <= d < fp.Length && d != f ==> fp[d] == old(fp[d])
      ensures fp[f].isGoal && fp[f].isTrue == old(fp[f].isTrue)
    {
      lgoalsAt := lgoalsAt[ft[f].level := lgoalsAt[ft[f].level] + [f]];
      fp[f] := fp[f].(isGoal := true);
      if !fp[f].ch {
        lchF := lchF + [f];
        fp[f] := fp[f].(ch := true);
      }
    }

    /** Empty the goal lists up to `max`; longer tables are made when needed. */
    method ClearGoalLists(max: nat)
      requires PlanValid()
      modifies this`lgoalsAt
      ensures PlanValid() && |lgoalsAt| > max && forall l :: 0 <= l <= max ==> lgoalsAt[l] == []
    {
      if max + 1 > |lgoalsAt| {
        lgoalsAt := seq(max + 1, _ => []);
      }
      for i := 0 to max + 1
        invariant PlanValid() && |lgoalsAt| > max
        invariant forall l :: 0 <= l < i ==> lgoalsAt[l] == []
      {
        lgoalsAt := lgoalsAt[i := []];
      }
    }

    lemma NothingMarked()
      requires PlanValid() && lchF == []
      ensures forall f :: 0 <= f < fp.Length ==> fp[f] == FP_CLEAR
    {
    }

    /** Sort the current goals by level; INFINITY if one of them has none. */
    method InitializeGoals(max: nat) returns (maxGoalLevel: int)
      requires Valid() && PlanValid() && lchF == []
      requires forall f :: 0 <= f < ft.Length ==> -1 <= ft[f].level <= max
      modifies this`lgoalsAt, this`lchF, fp
      ensures PlanValid()
      ensures maxGoalLevel == INFINITY <==> exists f :: f in lcurrentGoals && ft[f].level == INFINITY
      ensures maxGoalLevel != INFINITY ==>
        && 0 <= maxGoalLevel <= max && GoalListsOk(ft[..], fp[..], lgoalsAt, max)
        && (forall f :: 0 <= f < fp.Length ==> (fp[f].isGoal <==> f in lcurrentGoals) && fp[f].isTrue == INFINITY)
        && (forall f :: f in lcurrentGoals ==> ft[f].level <= maxGoalLevel)
        && (maxGoalLevel > 0 ==> exists f :: f in lcurrentGoals && ft[f].level == maxGoalLevel)
      ensures maxGoalLevel != INFINITY ==>
        && |lgoalsAt| > max && Idle(fp[..], lgoalsAt, [], max) == Start(Bare(ft[..]), lcurrentGoals, max)
        && maxGoalLevel == Top(Bare(ft[..]), lcurrentGoals)
    {
      hide Graph.EffectsOk, Graph.OpsOk, Graph.ImpliedOk, Graph.FactsOk, UsedOk, PlanListOk, HelpfulListOk,
        ApplicableListOk, GoalListsOk, Start, AddGoal, Top, Idle, ChangedOk;
      NothingMarked();
      ClearGoalLists(max);
      maxGoalLevel := 0;
      GoalListsEmpty(ft[..], fp[..], lgoalsAt, max);
      StartEmpty(Bare(ft[..]), fp[..], lgoalsAt, max);
      assert lcurrentGoals[..0] == [];
      for i := 0 to |lcurrentGoals|
        invariant PlanValid() && 0 <= maxGoalLevel <= max < |lgoalsAt|
        invariant GoalListsOk(ft[..], fp[..], lgoalsAt, max)
        invariant forall f :: 0 <= f < fp.Length ==>
          (fp[f].isGoal <==> f in lcurrentGoals[..i]) && fp[f].isTrue == INFINITY
        invariant forall f :: f in lcurrentGoals[..i] ==> 0 <= ft[f].level <= maxGoalLevel
        invariant maxGoalLevel > 0 ==> exists f :: f in lcurrentGoals && ft[f].level == maxGoalLevel
        invariant Idle(fp[..], lgoalsAt, [], max) == Start(Bare(ft[..]), lcurrentGoals[..i], max)
        invariant maxGoalLevel == Top(Bare(ft[..]), lcurrentGoals[..i])
        modifies this`lgoalsAt, this`lchF, fp
      {
        var f := lcurrentGoals[i];
        assert f in lcurrentGoals && lcurrentGoals[..i + 1] == lcurrentGoals[..i] + [f];
        StartStep(Bare(ft[..]), lcurrentGoals, max, i);
        if ft[f].level == INFINITY {
          return INFINITY;
        }
        if ft[f].level > maxGoalLevel {
          maxGoalLevel := ft[f].level;
        }
        ghost var fp0, lists0 := fp[..], lgoalsAt;
        NewGoal(f);
        GoalListsStep(ft[..], fp0, fp[..], lists0, lgoalsAt, max, f);
        GoalStep(ft[..], fp0, fp[..], lists0, lgoalsAt, [], max, 0, f);
      }
      assert lcurrentGoals[..|lcurrentGoals|] == lcurrentGoals;
    }

    /** The sum of the levels of the conditions of an effect that has a level. */
    method ConditionCost(e: nat, ghost S: set<nat>, ghost max: nat) returns (p: int)
      requires Valid() && Levelled(g, S, ft[..], ef[..], max) && e < ef.Length && ef[e].level >= 0
      ensures p == |set k: nat, l: nat | k < |g.efs[e].PC| && l < ft[g.efs[e].PC[k]].level :: (k, l)|
      ensures p == |LayersBelow(ft[..], g.efs[e].PC)|
    {
      hide Graph.OpsOk, Graph.ImpliedOk, Graph.FactsOk;
      p := 0;
      var pc := g.efs[e].PC;
      for k := 0 to |pc|
        invariant p == LevelSum(ft[..], pc[..k])
      {
        assert pc[..k + 1][..k] == pc[..k];
        p := p + ft[pc[k]].level;
      }
      assert pc[..|pc|] == pc;
      assert EffectSupported(g, ft[..], ef[..], e);
      LevelSumCounts(ft[..], pc);
      assert LayersBelow(ft[..], pc) == set k: nat, l: nat | k < |pc| && l < ft[pc[k]].level :: (k, l);
    }

    /** The cheapest effect one level below that adds the fact, the first one on a tie. */
    method SelectAdder(f: nat, time: nat, ghost S: set<nat>, ghost max: nat) returns (minE: nat)
      requires Valid() && Levelled(g, S, ft[..], ef[..], max)
      requires f < ft.Length && time > 0 && ft[f].level == time
      ensures minE in g.fts[f].A && minE < ef.Length && ef[minE].level == time - 1
      ensures exists i :: 0 <= i < |g.fts[f].A| && g.fts[f].A[i] == minE &&
                          Cheapest(g, ft[..], ef[..], g.fts[f].A, |g.fts[f].A|, time - 1, i)
      ensures minE == AdderOf(g, Bare(ft[..]), BareEffects(ef[..]), f, time - 1)
    {
      hide Graph.OpsOk, Graph.ImpliedOk, LayersBelow, Levelled, AdderOf;
      var adders := g.fts[f].A;
      var minP := INFINITY;
      var found := -1;
      for j := 0 to |adders|
        invariant found == -1 <==> minP == INFINITY
        invariant found == -1 ==> forall i :: 0 <= i < j ==> ef[adders[i]].level != time - 1
        invariant found != -1 ==>
          && 0 <= found < j && minP == |LayersBelow(ft[..], g.efs[adders[found]].PC)|
          && Cheapest(g, ft[..], ef[..], adders, j, time - 1, found)
      {
        var e := adders[j];
        if ef[e].level != time - 1 {
          continue;
        }
        var p := ConditionCost(e, S, max);
        if Less(p, minP) {
          minP := p;
          found := j;
        }
      }
      LevelledSupports(g, S, ft[..], ef[..], max, f);
      minE := adders[found];
      AdderIsUnique(g, ft[..], ef[..], f, time - 1, found);
    }

    /** The conditions of a selected effect become goals, unless they are or come for free. */
    method AddSubgoals(e: nat, time: nat, ghost max: nat)
      requires Valid() && PlanValid() && GoalListsOk(ft[..], fp[..], lgoalsAt, max)
      requires |lgoalsAt| > max && e < ef.Length && time <= max && forall p :: p in g.efs[e].PC ==> p < ft.Length && 0 <= ft[p].level < time
      modifies this`lgoalsAt, this`lchF, fp
      ensures PlanValid() && GoalListsOk(ft[..], fp[..], lgoalsAt, max)
      ensures ListsExtended(old(lgoalsAt), lgoalsAt, time)
      ensures forall f :: 0 <= f < fp.Length ==>
        && (fp[f].isGoal <==> old(fp[f].isGoal) || (f in g.efs[e].PC && old(fp[f].isTrue) != time))
        && fp[f].isTrue == old(fp[f].isTrue)
      ensures WorkOf(fp[..], lgoalsAt, ginPlanE, max, time) ==
              AddSubgoalsTo(Bare(ft[..]), WorkOf(old(fp[..]), old(lgoalsAt), ginPlanE, max, time), g.efs[e].PC)
    {
      hide Graph.EffectsOk, Graph.OpsOk, Graph.ImpliedOk, Graph.FactsOk, UsedOk, PlanListOk, HelpfulListOk,
        ApplicableListOk, GoalListsOk, AddGoal, AddSubgoalsTo;
      var pc := g.efs[e].PC;
      ghost var w := WorkOf(fp[..], lgoalsAt, ginPlanE, max, time);
      SubgoalsOfNone(Bare(ft[..]), w);
      for j := 0 to |pc|
        invariant PlanValid() && GoalListsOk(ft[..], fp[..], lgoalsAt, max) && |lgoalsAt| > max
        invariant ListsExtended(old(lgoalsAt), lgoalsAt, time)
        invariant forall f :: 0 <= f < fp.Length ==>
          && (fp[f].isGoal <==> old(fp[f].isGoal) || (f in pc[..j] && old(fp[f].isTrue) != time))
          && fp[f].isTrue == old(fp[f].isTrue)
        invariant WorkOf(fp[..], lgoalsAt, ginPlanE, max, time) == AddSubgoalsTo(Bare(ft[..]), w, pc[..j])
        modifies this`lgoalsAt, this`lchF, fp
      {
        var p := pc[j];
        assert p in pc && pc[..j + 1] == pc[..j] + [p];
        SubgoalStep(Bare(ft[..]), w, pc, j);
        if fp[p].isTrue == time {
          continue;
        }
        if fp[p].isGoal {
          continue;
        }
        ghost var fp0, lists0 := fp[..], lgoalsAt;
        NewGoal(p);
        GoalListsStep(ft[..], fp0, fp[..], lists0, lgoalsAt, max, p);
        GoalStep(ft[..], fp0, fp[..], lists0, lgoalsAt, ginPlanE, max, time, p);
      }
      assert pc[..|pc|] == pc;
    }

    /** Facts that become true at this level. */
    method MarkTrue(facts: seq<nat>, time: nat)
      requires PlanValid() && Below(facts, fp.Length)
      modifies this`lchF, fp
      ensures PlanValid()
      ensures forall f :: 0 <= f < fp.Length ==>
        && fp[f].isGoal == old(fp[f].isGoal)
        && fp[f].isTrue == if f in facts then time else old(fp[f].isTrue)
    {
      for j := 0 to |facts|
        invariant PlanValid()
        invariant forall f :: 0 <= f < fp.Length ==>
          && fp[f].isGoal == old(fp[f].isGoal)
          && fp[f].isTrue == if f in facts[..j] then time else old(fp[f].isTrue)
        modifies this`lchF, fp
      {
        var f := facts[j];
        assert facts[..j + 1] == facts[..j] + [f];
        fp[f] := fp[f].(isTrue := time);
        if !fp[f].ch {
          lchF := lchF + [f];
          fp[f] := fp[f].(ch := true);
        }
      }
      assert facts[..|facts|] == facts;
    }

    /** A selected effect makes its adds true, and the adds of the effects it implies. */
    method MarkFired(e: nat, time: nat)
      requires Valid() && PlanValid() && e < ef.Length && !g.efs[e].removed
      modifies this`lchF, fp
      ensures PlanValid()
      ensures forall f :: 0 <= f < fp.Length ==>
        && fp[f].isGoal == old(fp[f].isGoal)
        && fp[f].isTrue == if f in Fired(g, e) then time else old(fp[f].isTrue)
    {
      hide Graph.OpsOk, Graph.FactsOk, ChangedOk, UsedOk, PlanListOk, HelpfulListOk, ApplicableListOk;
      MarkTrue(g.efs[e].A, time);
      var implied := g.efs[e].I;
      for j := 0 to |implied|
        invariant PlanValid()
        invariant forall f :: 0 <= f < fp.Length ==>
          && fp[f].isGoal == old(fp[f].isGoal)
          && fp[f].isTrue == if f in g.efs[e].A || (exists i :: 0 <= i < j && f in g.efs[implied[i]].A) then time
                             else old(fp[f].isTrue)
        modifies this`lchF, fp
      {
        MarkTrue(g.efs[implied[j]].A, time);
      }
      forall f | 0 <= f < fp.Length
        ensures f in Fired(g, e) <==> f in g.efs[e].A || exists i :: 0 <= i < |implied| && f in g.efs[implied[i]].A
      {
      }
    }

    /** Count the operator of a selected effect, once per level. */
    method UseOperator(o: nat, time: nat)
      requires PlanValid() && o < om.Length
      modifies this`lusedO, this`lh, om
      ensures PlanValid()
      ensures om[..] == old(om[..])[o := old(om[o]).(isUsed := time)]
      ensures lh == old(lh) + if old(om[o].isUsed) != time then 1 else 0
    {
      if om[o].isUsed != time {
        if om[o].isUsed == INFINITY {
          lusedO := lusedO + [o];
        }
        om[o] := om[o].(isUsed := time);
        lh := lh + 1;
      }
      assert forall d :: 0 <= d < om.Length && d != o ==> om[d] == old(om[d]);
    }

    /** Take the effect into the relaxed plan and count its operator. */
    method TakeEffect(e: nat, time: nat, ghost max: nat)
      requires Valid() && PlanValid() && 0 < time <= max && e < ef.Length && ef[e].level == time - 1 && e !in ginPlanE
      requires UsedMarksOk(g, ef[..], om[..], ginPlanE, max, time) && lh == OpCount(g, ef[..], ginPlanE, time - 1, max)
      modifies this`lusedO, this`ginPlanE, this`lh, inPlan, om
      ensures PlanValid() && ginPlanE == old(ginPlanE) + [e]
      ensures UsedMarksOk(g, ef[..], om[..], ginPlanE, max, time) && lh == OpCount(g, ef[..], ginPlanE, time - 1, max)
    {
      hide Graph.OpsOk, Graph.ImpliedOk, Graph.FactsOk, ChangedOk, OpCount, OpsAt;
      ghost var om0, lh0 := om[..], lh;
      assert !inPlan[e];
      if !inPlan[e] {
        inPlan[e] := true;
        ginPlanE := ginPlanE + [e];
      }
      UseOperator(g.efs[e].op, time);
      UseStep(g, ef[..], om0, om[..], old(ginPlanE), lh0, lh, max, time, e);
    }

    /** The conditions of a selected effect become goals, and what it fires becomes true. */
    method Pursue(e: nat, time: nat, ghost max: nat)
      requires Valid() && PlanValid() && GoalListsOk(ft[..], fp[..], lgoalsAt, max)
      requires |lgoalsAt| > max && e < ef.Length && !g.efs[e].removed && time <= max
      requires forall p :: p in g.efs[e].PC ==> p < ft.Length && 0 <= ft[p].level < time
      modifies this`lgoalsAt, this`lchF, fp
      ensures PlanValid() && GoalListsOk(ft[..], fp[..], lgoalsAt, max)
      ensures ListsExtended(old(lgoalsAt), lgoalsAt, time) && Selected(g, old(fp[..]), fp[..], e, time)
      ensures var v := AddSubgoalsTo(Bare(ft[..]), WorkOf(old(fp[..]), old(lgoalsAt), ginPlanE, max, time), g.efs[e].PC);
        WorkOf(fp[..], lgoalsAt, ginPlanE, max, time) == v.(now := v.now + Fired(g, e))
    {
      hide Graph.OpsOk, Graph.FactsOk, ChangedOk, UsedOk, PlanListOk, HelpfulListOk, ApplicableListOk, Fired,
        AddSubgoalsTo, WorkOf;
      AddSubgoals(e, time, max);
      ghost var fp0 := fp[..];
      MarkFired(e, time);
      FiredStep(g, fp0, fp[..], lgoalsAt, ginPlanE, max, time, e);
    }

    /** Deal with one goal of level `time`: skip it if an effect selected at this level has made
        it true, else select an adder, count its operator and make its conditions goals. */
    method AchieveGoal(time: nat, i: nat, ghost S: set<nat>, ghost max: nat)
      requires Valid() && PlanValid() && Levelled(g, S, ft[..], ef[..], max)
      requires Within(g, ft[..], ef[..], fp[..], om[..], lgoalsAt, ginPlanE, lh, max, time, i)
      requires |lgoalsAt| > max && i < |lgoalsAt[time]|
      modifies this`lgoalsAt, this`lchF, this`lusedO, this`ginPlanE, this`lh, fp, inPlan, om
      ensures PlanValid() && |lgoalsAt| > time && lgoalsAt[time] == old(lgoalsAt)[time]
      ensures Within(g, ft[..], ef[..], fp[..], om[..], lgoalsAt, ginPlanE, lh, max, time, i + 1)
      ensures forall f :: 0 <= f < fp.Length && old(fp[f].isGoal) ==> fp[f].isGoal
      ensures |lgoalsAt| > max && WorkOf(fp[..], lgoalsAt, ginPlanE, max, time) ==
        AfterGoal(g, Bare(ft[..]), BareEffects(ef[..]),
                  WorkOf(old(fp[..]), old(lgoalsAt), old(ginPlanE), max, time), old(lgoalsAt)[time][i], time)
    {
      hide Graph.EffectsOk, Graph.OpsOk, Graph.ImpliedOk, Graph.FactsOk, Levelled, ChangedOk, UsedOk, PlanListOk,
        HelpfulListOk, ApplicableListOk, MadeTrue, Provided, Fired, OpCount, OpsAt, UsedMarksOk, TrueMarksOk, Makes,
        AddSubgoalsTo, AdderOf;
      var f := lgoalsAt[time][i];
      if fp[f].isTrue == time {
        SkipStep(g, ft[..], ef[..], fp[..], om[..], lgoalsAt, ginPlanE, lh, max, time, i);
        return;
      }
      var e := SelectAdder(f, time, S, max);
      ghost var fp0, lists0, plan0 := fp[..], lgoalsAt, ginPlanE;
      SelectedOnce(g, ef[..], fp0, plan0, max, time, e, f);
      LevelledConditions(g, S, ft[..], ef[..], max, e);
      TakeEffect(e, time, max);
      Pursue(e, time, max);
      SelectStep(g, ft[..], ef[..], fp0, fp[..], lists0, lgoalsAt, plan0, max, time, i, e);
      SelectIs(g, Bare(ft[..]), BareEffects(ef[..]), WorkOf(fp0, lists0, plan0, max, time), f, time, e);
    }

    /** Deal with the goals of one level. */
    method AchieveGoals(time: nat, ghost S: set<nat>, ghost max: nat)
      requires Valid() && PlanValid() && Levelled(g, S, ft[..], ef[..], max) && 0 < time <= max
      requires Between(g, ft[..], ef[..], fp[..], om[..], lgoalsAt, ginPlanE, lh, max, time) && |lgoalsAt| > max
      modifies this`lgoalsAt, this`lchF, this`lusedO, this`ginPlanE, this`lh, fp, inPlan, om
      ensures PlanValid()
      ensures Between(g, ft[..], ef[..], fp[..], om[..], lgoalsAt, ginPlanE, lh, max, time - 1)
      ensures forall f :: 0 <= f < fp.Length && old(fp[f].isGoal) ==> fp[f].isGoal
      ensures |lgoalsAt| > max && Idle(fp[..], lgoalsAt, ginPlanE, max) ==
        AfterGoals(g, Bare(ft[..]), BareEffects(ef[..]),
                   Idle(old(fp[..]), old(lgoalsAt), old(ginPlanE), max), old(lgoalsAt)[time], time).(now := {})
    {
      hide Graph.EffectsOk, Graph.OpsOk, Graph.ImpliedOk, Graph.FactsOk, Levelled, ChangedOk, UsedOk, PlanListOk,
        HelpfulListOk, ApplicableListOk, Achieved, OpCount, UsedMarksOk, TrueMarksOk, AfterGoal, AfterGoals;
      EnterLevel(g, ft[..], ef[..], fp[..], om[..], lgoalsAt, ginPlanE, lh, max, time);
      WithinLists(g, ft[..], ef[..], fp[..], om[..], lgoalsAt, ginPlanE, lh, max, time, 0);
      EnterIdle(g, ft[..], ef[..], fp[..], om[..], lgoalsAt, ginPlanE, lh, max, time);
      var goals := lgoalsAt[time];
      ghost var w := Idle(fp[..], lgoalsAt, ginPlanE, max);
      NoGoals(g, Bare(ft[..]), BareEffects(ef[..]), w, time);
      for i := 0 to |goals|
        invariant PlanValid() && |lgoalsAt| > max && lgoalsAt[time] == goals
        invariant Within(g, ft[..], ef[..], fp[..], om[..], lgoalsAt, ginPlanE, lh, max, time, i)
        invariant WorkOf(fp[..], lgoalsAt, ginPlanE, max, time) ==
                  AfterGoals(g, Bare(ft[..]), BareEffects(ef[..]), w, goals[..i], time)
        invariant forall f :: 0 <= f < fp.Length && old(fp[f].isGoal) ==> fp[f].isGoal
        modifies this`lgoalsAt, this`lchF, this`lusedO, this`ginPlanE, this`lh, fp, inPlan, om
      {
        GoalsStep(g, Bare(ft[..]), BareEffects(ef[..]), w, goals, time, i);
        AchieveGoal(time, i, S, max);
        WithinLists(g, ft[..], ef[..], fp[..], om[..], lgoalsAt, ginPlanE, lh, max, time, i + 1);
      }
      assert goals[..|goals|] == goals;
      LeaveLevel(g, ft[..], ef[..], fp[..], om[..], lgoalsAt, ginPlanE, lh, max, time);
    }

    // ---- helpful operators

    /** `H` lists the operators marked as helpful, each once. */
    ghost predicate Marked(H: seq<nat>)
      reads om
    {
      Distinct(H) && Below(H, om.Length) && forall o :: 0 <= o < om.Length ==> (om[o].isInH <==> o in H)
    }

    /** The operator of one effect, if this takes place in the evaluated state. */
    method CollectAdder(e: nat, H: seq<nat>) returns (H': seq<nat>)
      requires Valid() && om.Length == |g.ops| && e < ef.Length && Marked(H)
      modifies om
      ensures Marked(H') && forall o :: 0 <= o < om.Length ==> om[o] == old(om[o]).(isInH := om[o].isInH)
      ensures H' == if ef[e].level == 0 && g.efs[e].op !in H then H + [g.efs[e].op] else H
    {
      hide Graph.OpsOk, Graph.ImpliedOk, Graph.FactsOk;
      if ef[e].level != 0 {
        return H;
      }
      var o := g.efs[e].op;
      if om[o].isInH {
        return H;
      }
      om[o] := om[o].(isInH := true);
      DistinctAppend(H, o);
      return H + [o];
    }

    /** The operators with an effect in `adders` that takes place in the evaluated state. */
    method CollectAdders(adders: seq<nat>, H: seq<nat>) returns (H': seq<nat>)
      requires Valid() && om.Length == |g.ops| && Below(adders, ef.Length) && Marked(H)
      modifies om
      ensures Marked(H') && forall o :: 0 <= o < om.Length ==> om[o] == old(om[o]).(isInH := om[o].isInH)
      ensures Elems(H') == Elems(H) + OpsOf(g, ef[..], adders)
      ensures H' == WithAdders(g, BareEffects(ef[..]), adders, H)
    {
      hide Graph.EffectsOk, Graph.OpsOk, Graph.ImpliedOk, Graph.FactsOk, WithAdders, Marked, OpsOf;
      NoAdders(g, BareEffects(ef[..]), H);
      OpsOfNone(g, ef[..]);
      H' := H;
      for j := 0 to |adders|
        invariant Marked(H') && forall o :: 0 <= o < om.Length ==> om[o] == old(om[o]).(isInH := om[o].isInH)
        invariant Elems(H') == Elems(H) + OpsOf(g, ef[..], adders[..j])
        invariant H' == WithAdders(g, BareEffects(ef[..]), adders[..j], H)
        modifies om
      {
        assert adders[..j + 1] == adders[..j] + [adders[j]];
        OpsOfAppend(g, ef[..], adders[..j], adders[j]);
        AddersStep(g, BareEffects(ef[..]), adders, H, j);
        ElemsAppend(H', g.efs[adders[j]].op);
        H' := CollectAdder(adders[j], H');
      }
      assert adders[..|adders|] == adders;
    }

    /** How many goals and subgoals the operator deletes in the evaluated state. */
    method CountDeletedGoals(o: nat) returns (d: nat)
      requires Valid() && fp.Length == |g.fts| && o < |g.ops|
      ensures d == |set e, f | e in g.ops[o].E && ef[e].level == 0 && f in g.efs[e].D && f < fp.Length && fp[f].isGoal :: (e, f)|
      ensures d == DeletedGoals(g, ef[..], fp[..], g.ops[o].E)
    {
      hide Graph.ImpliedOk, Graph.FactsOk;
      d := 0;
      var E := g.ops[o].E;
      for j := 0 to |E|
        invariant d == GoalsDeletedBy(g, ef[..], fp[..], E[..j])
      {
        assert E[..j + 1][..j] == E[..j];
        if ef[E[j]].level != 0 {
          continue;
        }
        var dels := g.efs[E[j]].D;
        ghost var d0 := d;
        for k := 0 to |dels|
          invariant d == d0 + GoalsIn(fp[..], dels[..k])
        {
          assert dels[..k + 1][..k] == dels[..k];
          if fp[dels[k]].isGoal {
            d := d + 1;
          }
        }
        assert dels[..|dels|] == dels;
      }
      assert E[..|E|] == E;
      DeletedGoalsCount(g, ef[..], fp[..], E);
      assert GoalDeletes(g, ef[..], fp[..], E) ==
        set e, f | e in E && ef[e].level == 0 && f in g.efs[e].D && f < fp.Length && fp[f].isGoal :: (e, f);
    }

    /** Collect the operators that add a goal of the first layer; from back to front, put those
        that delete fewer goals first. */
    method CollectHInfo(ghost S: set<nat>, ghost max: nat)
      requires Valid() && PlanValid()
      requires Levelled(g, S, ft[..], ef[..], max) && GoalListsOk(ft[..], fp[..], lgoalsAt, max)
      modifies this`gH, om
      ensures PlanValid() && HelpfulOk(g, ft[..], ef[..], fp[..], gH)
      ensures gH == Ordered(g, BareEffects(ef[..]), Goals(fp[..]), Collected(g, BareEffects(ef[..]), lgoalsAt[1]))
    {
      hide Graph.EffectsOk, Graph.OpsOk, Graph.ImpliedOk, Graph.FactsOk, ChangedOk, PlanListOk, Levelled, GoalListsOk,
        DeletedGoals, Adders, OpsOf, Helps, Ordered, Collected, Goals;
      ForgetH();
      var H := CollectH();
      gH := SortH(H);
      assert (forall o :: o in gH <==> o in Elems(gH)) && (forall o :: o in H <==> o in Elems(H));
      forall o
        ensures o in gH <==> Helps(g, ft[..], ef[..], fp[..], o)
      {
        AddersHelp(g, S, ft[..], ef[..], fp[..], lgoalsAt, max, o);
        assert o in gH <==> o in Elems(gH);
      }
    }

    /** The marks of the last helpful operators are taken back. */
    method ForgetH()
      requires PlanValid()
      modifies this`gH, om
      ensures PlanValid() && gH == [] && forall o :: 0 <= o < om.Length ==> om[o] == old(om[o]).(isInH := false)
    {
      hide ChangedOk, PlanListOk;
      for i := 0 to |gH|
        invariant forall o :: 0 <= o < om.Length ==>
          om[o] == if o in gH[..i] then old(om[o]).(isInH := false) else old(om[o])
        modifies om
      {
        assert gH[..i + 1] == gH[..i] + [gH[i]];
        om[gH[i]] := om[gH[i]].(isInH := false);
      }
      assert gH[..|gH|] == gH;
      gH := [];
    }

    method CollectH() returns (H: seq<nat>)
      requires Valid() && PlanValid() && gH == []
      modifies om
      ensures Marked(H) && forall o :: 0 <= o < om.Length ==> om[o] == old(om[o]).(isInH := om[o].isInH)
      ensures Elems(H) == Adders(g, ef[..], lgoalsAt[1])
      ensures H == Collected(g, BareEffects(ef[..]), lgoalsAt[1])
    {
      hide Graph.EffectsOk, Graph.OpsOk, Graph.ImpliedOk, ChangedOk, PlanListOk, Collected, WithAdders;
      NoAdders(g, BareEffects(ef[..]), []);
      H := [];
      var goals := lgoalsAt[1];
      for i := 0 to |goals|
        invariant Marked(H) && forall o :: 0 <= o < om.Length ==> om[o] == old(om[o]).(isInH := om[o].isInH)
        invariant Elems(H) == Adders(g, ef[..], goals[..i])
        invariant H == Collected(g, BareEffects(ef[..]), goals[..i])
        modifies om
      {
        CollectedStep(g, BareEffects(ef[..]), goals, i);
        assert goals[..i + 1] == goals[..i] + [goals[i]];
        AddersAppend(g, ef[..], goals[..i], goals[i]);
        H := CollectAdders(g.fts[goals[i]].A, H);
      }
      assert goals[..|goals|] == goals;
    }

    /** Operators in the order of the goals they delete; `D` holds the numbers of these. */
    ghost predicate InOrder(sorted: seq<nat>, D: seq<nat>)
      reads fp, ef
      requires g.WellFormed() && ef.Length == |g.efs| && fp.Length == |g.fts|
    {
      && Distinct(sorted) && Below(sorted, |g.ops|) && |D| == |sorted|
      && (forall k :: 0 <= k < |D| ==> D[k] == DeletedGoals(g, ef[..], fp[..], g.ops[sorted[k]].E))
      && forall k, l :: 0 <= k < l < |D| ==> D[k] <= D[l]
    }

    /** Insert an operator behind those that delete no more goals. */
    method InsertOp(sorted: seq<nat>, D: seq<nat>, o: nat) returns (sorted': seq<nat>, D': seq<nat>)
      requires Valid() && fp.Length == |g.fts| && InOrder(sorted, D) && o < |g.ops| && o !in sorted
      ensures InOrder(sorted', D') && Elems(sorted') == Elems(sorted) + {o}
      ensures sorted' == Placed(g, BareEffects(ef[..]), Goals(fp[..]), sorted, o)
    {
      hide Graph.ImpliedOk, Graph.FactsOk, DeletedGoals, Deletions, Placed, Goals;
      var d := CountDeletedGoals(o);
      var j := 0;
      while j < |D| && D[j] <= d
        invariant j <= |D| && forall k :: 0 <= k < j ==> D[k] <= d
      {
        j := j + 1;
      }
      InsertAt(sorted, j, o);
      InsertSorted(sorted, D, j, o, d);
      PlacedThere(g, ef[..], fp[..], sorted, D, o, d, j);
      sorted' := sorted[..j] + [o] + sorted[j..];
      D' := D[..j] + [d] + D[j..];
    }

    /** Insertion from the back of `H`. */
    method SortH(H: seq<nat>) returns (sorted: seq<nat>)
      requires Valid() && fp.Length == |g.fts| && Distinct(H) && Below(H, |g.ops|)
      ensures Distinct(sorted) && Elems(sorted) == Elems(H) && Below(sorted, |g.ops|)
      ensures forall i, j :: 0 <= i < j < |sorted| ==>
        DeletedGoals(g, ef[..], fp[..], g.ops[sorted[i]].E) <= DeletedGoals(g, ef[..], fp[..], g.ops[sorted[j]].E)
      ensures sorted == Ordered(g, BareEffects(ef[..]), Goals(fp[..]), H)
    {
      hide Graph.ImpliedOk, Graph.FactsOk, DeletedGoals, Deletions, Placed, Goals;
      sorted := [];
      assert H[|H|..] == [];
      var D: seq<nat> := [];
      for i := |H| downto 0
        invariant InOrder(sorted, D) && Elems(sorted) == Elems(H[i..])
        invariant sorted == Ordered(g, BareEffects(ef[..]), Goals(fp[..]), H[i..])
      {
        OrderedStep(g, BareEffects(ef[..]), Goals(fp[..]), H, i);
        assert H[i..] == [H[i]] + H[i + 1..] && H[i] !in H[i + 1..];
        assert H[i] !in Elems(sorted);
        sorted, D := InsertOp(sorted, D, H[i]);
      }
      assert H[0..] == H;
    }

    // ---- the two entry points

    /** Achieve the goals level by level, from the highest goal down. */
    method AchieveAll(maxGoalLevel: nat, ghost S: set<nat>, ghost max: nat)
      requires Valid() && PlanValid() && Levelled(g, S, ft[..], ef[..], max) && maxGoalLevel <= max
      requires Between(g, ft[..], ef[..], fp[..], om[..], lgoalsAt, ginPlanE, lh, max, maxGoalLevel) && |lgoalsAt| > max
      modifies this`lgoalsAt, this`lchF, this`lusedO, this`ginPlanE, this`lh, fp, inPlan, om
      ensures PlanValid() && Between(g, ft[..], ef[..], fp[..], om[..], lgoalsAt, ginPlanE, lh, max, 0)
      ensures forall f :: 0 <= f < fp.Length && old(fp[f].isGoal) ==> fp[f].isGoal
      ensures maxGoalLevel == 0 ==> lh == old(lh)
      ensures |lgoalsAt| > max && Idle(fp[..], lgoalsAt, ginPlanE, max) ==
        AfterLevels(g, Bare(ft[..]), BareEffects(ef[..]), Idle(old(fp[..]), old(lgoalsAt), old(ginPlanE), max), maxGoalLevel)
    {
      hide Graph.EffectsOk, Graph.OpsOk, Graph.ImpliedOk, Graph.FactsOk, Levelled, ChangedOk, UsedOk, PlanListOk,
        HelpfulListOk, ApplicableListOk, Between, AfterGoals, AfterLevels;
      var time := maxGoalLevel;
      ghost var w := Idle(fp[..], lgoalsAt, ginPlanE, max);
      while time > 0
        invariant 0 <= time <= maxGoalLevel && PlanValid()
        invariant Between(g, ft[..], ef[..], fp[..], om[..], lgoalsAt, ginPlanE, lh, max, time)
        invariant forall f :: 0 <= f < fp.Length && old(fp[f].isGoal) ==> fp[f].isGoal
        invariant time == maxGoalLevel ==> lh == old(lh)
        invariant |lgoalsAt| > max &&
          AfterLevels(g, Bare(ft[..]), BareEffects(ef[..]), Idle(fp[..], lgoalsAt, ginPlanE, max), time) ==
          AfterLevels(g, Bare(ft[..]), BareEffects(ef[..]), w, maxGoalLevel)
        modifies this`lgoalsAt, this`lchF, this`lusedO, this`ginPlanE, this`lh, fp, inPlan, om
      {
        LevelStep(g, Bare(ft[..]), BareEffects(ef[..]), Idle(fp[..], lgoalsAt, ginPlanE, max), time);
        AchieveGoals(time, S, max);
        time := time - 1;
      }
      NoLevels(g, Bare(ft[..]), BareEffects(ef[..]), Idle(fp[..], lgoalsAt, ginPlanE, max));
    }

    /** The extraction after the goals are marked, down from their largest level `m`. */
    method ExtractFrom(m: nat, max: nat, hInfo: bool, ghost S: set<nat>)
      requires Valid() && PlanValid() && m <= max && Levelled(g, S, ft[..], ef[..], max)
      requires Between(g, ft[..], ef[..], fp[..], om[..], lgoalsAt, ginPlanE, lh, max, m) && lh == 0 && |lgoalsAt| > max
      requires forall f :: f in lcurrentGoals ==> 0 <= ft[f].level <= m && fp[f].isGoal
      requires m > 0 ==> exists f :: f in lcurrentGoals && ft[f].level == m
      modifies this`lgoalsAt, this`lchF, this`lusedO, this`ginPlanE, this`lh, this`gH, fp, inPlan, om
      ensures PlanValid() && lh >= m && Extracted(g, S, Elems(lcurrentGoals), ef[..], ginPlanE, max, lh)
      ensures m == 0 ==> lh == 0
      ensures hInfo ==> HelpfulOk(g, ft[..], ef[..], fp[..], gH) && (m > 0 ==> gH != [])
      ensures !hInfo ==> gH == old(gH)
      ensures |lgoalsAt| > max && Idle(fp[..], lgoalsAt, ginPlanE, max) ==
        AfterLevels(g, Bare(ft[..]), BareEffects(ef[..]), Idle(old(fp[..]), old(lgoalsAt), old(ginPlanE), max), m)
      ensures hInfo ==> gH == HelpfulAfter(g, BareEffects(ef[..]), Idle(fp[..], lgoalsAt, ginPlanE, max))
    {
      hide Graph.EffectsOk, Graph.OpsOk, Graph.ImpliedOk, Graph.FactsOk, HelpfulListOk, ApplicableListOk, ChangedOk, UsedOk,
        PlanListOk, Extracted, Helps, DeletedGoals, OpCount, Between, AfterLevels, Idle, Levelled, Ordered, Collected, Goals,
        HelpfulAfter;
      AchieveAll(m, S, max);
      ExtractionDone(g, S, Elems(lcurrentGoals), ft[..], ef[..], fp[..], om[..], lgoalsAt, ginPlanE, lh, max);
      if m > 0 {
        ghost var f :| f in lcurrentGoals && ft[f].level == m;
        GoalsCount(g, S, ft[..], ef[..], fp[..], om[..], lgoalsAt, ginPlanE, lh, max, f);
        GoalHelps(g, S, ft[..], ef[..], fp[..], max);
      }
      if hInfo {
        BetweenLists(g, ft[..], ef[..], fp[..], om[..], lgoalsAt, ginPlanE, lh, max, 0);
        CollectHInfo(S, max);
        HelpfulAfterIs(g, S, ft[..], ef[..], fp[..], lgoalsAt, ginPlanE, max);
      }
    }

    /** The relaxed plan for the current goals, and its length; INFINITY if there is none. */
    method Extract1P(max: nat, hInfo: bool, ghost S: set<nat>) returns (h: int)
      requires Valid() && PlanValid() && forall f :: 0 <= f < ft.Length ==> -1 <= ft[f].level <= max
      requires (forall f :: f in lcurrentGoals ==> ft[f].level != INFINITY) ==> Levelled(g, S, ft[..], ef[..], max)
      modifies this`lgoalsAt, this`lchF, this`lusedO, this`ginPlanE, this`lh, this`gH, fp, inPlan, om
      ensures PlanValid() && h >= -1
      ensures h == INFINITY <==> exists f :: f in lcurrentGoals && ft[f].level == INFINITY
      ensures h != INFINITY ==> Extracted(g, S, Elems(lcurrentGoals), ef[..], ginPlanE, max, h)
      ensures h != INFINITY ==> ginPlanE == PlanFrom(g, Bare(ft[..]), BareEffects(ef[..]), lcurrentGoals, max)
      ensures h != INFINITY ==> forall f :: f in lcurrentGoals ==> 0 <= ft[f].level <= h
      ensures h > 0 ==> exists f :: f in lcurrentGoals && ft[f].level > 0
      ensures hInfo && h != INFINITY ==> HelpfulOk(g, ft[..], ef[..], fp[..], gH)
      ensures hInfo && h > 0 ==> gH != []
      ensures !hInfo || h == INFINITY ==> gH == old(gH)
      ensures hInfo && h != INFINITY ==> gH == HelpfulFrom(g, Bare(ft[..]), BareEffects(ef[..]), lcurrentGoals, max)
      ensures h != INFINITY ==> Goals(fp[..]) == FinalWork(g, Bare(ft[..]), BareEffects(ef[..]), lcurrentGoals, max).goals
    {
      hide Graph.EffectsOk, Graph.OpsOk, Graph.ImpliedOk, Graph.FactsOk, HelpfulListOk, ApplicableListOk, PlanListOk,
        Extracted, HelpfulOk, Between, FactSupported, EffectSupported, GoalListsOk, AfterLevels, Start, Top, HelpfulAfter,
        Goals, Levelled;
      ResetSearchInfo();
      var m := InitializeGoals(max);
      if m == INFINITY {
        return INFINITY;
      }
      lh := 0;
      ExtractionStarts(g, S, ft[..], ef[..], fp[..], om[..], lgoalsAt, max, m);
      ExtractFrom(m, max, hInfo, S);
      return lh;
    }

    /** get_1P and, with `hInfo`, get_1P_and_H: evaluate a state with respect to some goals.
        All marks of the fixpoint are as before; the ghost results are the levels it had found. */
    method Get1P(S: seq<nat>, goals: seq<nat>, hInfo: bool)
      returns (h: int, ghost levels: seq<FtMark>, ghost marks: seq<EfMark>, ghost time: nat)
      requires Valid() && PlanValid() && Clean() && g.IsList(S) && g.IsList(goals)
      modifies this, ft, ef, fp, inPlan, om
      ensures Valid() && PlanValid() && Clean()
      ensures Trustworthy(g, Elems(S), Elems(goals), h)
      ensures Built(g, Elems(S), Elems(goals), levels, marks, time) && Sized(g, levels, marks)
      ensures h != INFINITY ==> Extracted(g, Elems(S), Elems(goals), marks, ginPlanE, time, h)
      ensures h == Value(g, Elems(S), goals) && (h != INFINITY ==> ginPlanE == RelaxedPlan(g, Elems(S), goals))
      ensures hInfo && h != INFINITY ==> gH == HelpfulOps(g, Elems(S), goals)
      ensures hInfo && h != INFINITY ==>
        HelpfulOk(g, levels, marks, Marks(FinalWork(g, Bare(levels), BareEffects(marks), goals, time).goals, |g.fts|), gH)
      ensures hInfo && h != INFINITY ==> forall o :: o in gH ==> Useful(g, Elems(S), o)
      ensures hInfo && h > 0 ==> gH != []
      ensures !hInfo || h == INFINITY ==> gH == old(gH)
      ensures gA == old(gA)
    {
      hide Graph.EffectsOk, Graph.OpsOk, Graph.ImpliedOk, Graph.FactsOk, HelpfulListOk, ApplicableListOk, ChangedOk,
        UsedOk, PlanListOk, Exact, Extracted, Trustworthy, Useful, HelpfulOk, Levelled, Built, OpCount, Layer, Value,
        RelaxedPlan, HelpfulOps, PlanFrom, HelpfulFrom, FinalWork, Goals, Marks;
      lcurrentGoals := goals;
      var max := BuildFixpoint(S);
      time := max;
      levels, marks := ft[..], ef[..];
      BuiltLevelled(g, Elems(S), goals, levels, marks, time);
      h := Extract1P(max, hInfo, Elems(S));
      LevelsAreTrustworthy(g, Elems(S), goals, levels, marks, time, h);
      ValueIs(g, Elems(S), goals, levels, marks, time, ginPlanE, h);
      if hInfo && h != INFINITY {
        AllAreUseful(g, Elems(S), Elems(goals), levels, marks, fp[..], time, gH);
        HelpfulMarks(g, levels, marks, fp[..], gH);
      }
      ResetFixpoint();
    }

    // ---- applicable operators

    /** The operators of the listed effects, each once. */
    method CollectAInfo()
      requires Valid() && PlanValid() && EffectListOk(ef[..], lE, lchE)
      modifies this`gA, om
      ensures PlanValid()
      ensures Below(lE, |g.efs|) && FirstSeen(gA, OpsIn(g, lE))
    {
      hide Graph.OpsOk, Graph.ImpliedOk, Graph.FactsOk, ChangedOk, PlanListOk, FirstSeen;
      for i := 0 to |gA|
        invariant forall o :: 0 <= o < om.Length ==>
          om[o] == if o in gA[..i] then old(om[o]).(isInA := false) else old(om[o])
        modifies om
      {
        assert gA[..i + 1] == gA[..i] + [gA[i]];
        om[gA[i]] := om[gA[i]].(isInA := false);
      }
      assert gA[..|gA|] == gA && OpsIn(g, lE[..0]) == [];
      gA := [];
      SeenNothing();
      for i := 0 to |lE|
        invariant forall o :: 0 <= o < om.Length ==> om[o] == old(om[o]).(isInA := om[o].isInA)
        invariant ApplicableListOk() && FirstSeen(gA, OpsIn(g, lE[..i]))
        modifies this`gA, om
      {
        var o := g.efs[lE[i]].op;
        OpsInStep(g, lE, i);
        SeeOneMore(gA, OpsIn(g, lE[..i]), o);
        if om[o].isInA {
          continue;
        }
        om[o] := om[o].(isInA := true);
        DistinctAppend(gA, o);
        gA := gA + [o];
      }
      assert lE[..|lE|] == lE;
    }

    /** get_A: the operators that have an effect whose conditions hold in `S`, in the order in which
        the facts of `S` complete the conditions. A removed effect without conditions brings in its
        operator too. */
    method GetA(S: seq<nat>)
      requires Valid() && PlanValid() && Clean() && g.IsList(S)
      modifies this, ft, ef, om
      ensures Valid() && PlanValid() && Clean()
      ensures forall o :: o in gA <==> exists e: nat :: e < |g.efs| && g.efs[e].op == o && Enabled(g, e, Elems(S), true)
      ensures Distinct(S) ==> exists L :: IsEnablingOrder(g, S, L) && FirstSeen(gA, OpsIn(g, L))
      ensures ginPlanE == old(ginPlanE) && gH == old(gH)
    {
      hide Graph.EffectsOk, Graph.OpsOk, Graph.ImpliedOk, Graph.FactsOk, HelpfulListOk, ApplicableListOk, ChangedOk,
        UsedOk, PlanListOk, Layer, CompletedBy, IsEnablingOrder, FirstSeen,
        Enabled;
      LayerZero(g, Elems(S));
      InitializeFixpoint(S);
      ActivateFacts(0, 0, Elems(S));
      EnlistUnconditional(Elems(S), 0, 0);
      CollectAInfo();
      assert lF[..|lF|] == lF && lE[..0] == [];
      forall e: nat | e < |g.efs|
        ensures e in lE <==> Enabled(g, e, Elems(S), true)
      {
        assert CountOk(g, ef[..], e, Elems(S), true);
      }
      CollectedAre(g, S, lF, lE, l0PE, gA);
      ResetFixpoint();
    }
  }
}
