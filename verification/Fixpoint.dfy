/** What the marks of the incremental fixpoint in relax.c mean: the invariants
    that tie counters, flags and work lists to the layers. */
module Fixpoint {
  import opened Sequences
  import opened Connectivity
  import opened Layers

  /** INFINITY of ff.h. */
  const INFINITY := -1

  /** LESS of relax.c: -1 counts as infinitely large. */
  predicate Less(a: int, b: int) {
    a != INFINITY && (b == INFINITY || a < b)
  }

  datatype FtMark = FtMark(level: int, inF: bool)

  datatype EfMark = EfMark(level: int, inE: bool, numActivePCs: nat, ch: bool)

  const FT_CLEAR := FtMark(INFINITY, false)

  const EF_CLEAR := EfMark(INFINITY, false, 0, false)

  ghost predicate Sized(g: Graph, ft: seq<FtMark>, ef: seq<EfMark>) {
    |ft| == |g.fts| && |ef| == |g.efs|
  }

  /** All marks as they are between two evaluations. */
  ghost predicate Clear(ft: seq<FtMark>, ef: seq<EfMark>) {
    && (forall f :: 0 <= f < |ft| ==> ft[f] == FT_CLEAR)
    && (forall e :: 0 <= e < |ef| ==> ef[e] == EF_CLEAR)
  }

  /** `lF` lists the facts with `inF`, each once. */
  ghost predicate FactListOk(ft: seq<FtMark>, lF: seq<nat>) {
    && Distinct(lF) && Below(lF, |ft|)
    && forall f :: 0 <= f < |ft| ==> (ft[f].inF <==> f in lF)
  }

  /** Exactly the first `k` facts of `lF` carry their level, the layer in which they are new. */
  ghost predicate FactLevelsOk(g: Graph, S: set<nat>, ft: seq<FtMark>, lF: seq<nat>, k: nat)
    requires k <= |lF|
  {
    forall f :: 0 <= f < |ft| ==>
      if f in lF[..k] then ft[f].level >= 0 && FactFirstAt(g, S, ft[f].level, f)
      else ft[f].level == INFINITY
  }

  ghost predicate EffectLevelsOk(g: Graph, S: set<nat>, ef: seq<EfMark>, lE: seq<nat>, k: nat)
    requires k <= |lE| && |ef| == |g.efs|
  {
    forall e :: 0 <= e < |ef| ==>
      if e in lE[..k] then ef[e].level >= 0 && EffectFirstAt(g, S, ef[e].level, e)
      else ef[e].level == INFINITY
  }

  /** When an effect is taken into `lE`: all its conditions are active, or it has
      none and the effects without conditions were taken (removed ones included). */
  ghost predicate Enabled(g: Graph, e: nat, active: set<nat>, zero: bool)
    requires e < |g.efs|
  {
    if g.efs[e].PC == [] then zero else !g.efs[e].removed && g.Holds(e, active)
  }

  ghost predicate EffectListOk(ef: seq<EfMark>, lE: seq<nat>, lchE: seq<nat>) {
    && Distinct(lE) && Below(lE, |ef|)
    && Distinct(lchE) && Below(lchE, |ef|)
    && forall e :: 0 <= e < |ef| ==>
      && (ef[e].inE <==> e in lE)
      && (ef[e].ch <==> e in lchE)
      && (!ef[e].ch ==> ef[e].numActivePCs == 0)
  }

  /** The counter of `e` counts its active conditions, and `e` is listed when they are all active. */
  ghost predicate CountOk(g: Graph, ef: seq<EfMark>, e: nat, active: set<nat>, zero: bool)
    requires e < |g.efs| == |ef|
  {
    && ef[e].numActivePCs == (if g.efs[e].removed then 0 else CountIn(g.efs[e].PC, active))
    && (ef[e].inE <==> Enabled(g, e, active, zero))
  }

  ghost predicate CountsOk(g: Graph, ef: seq<EfMark>, active: set<nat>, zero: bool)
    requires |ef| == |g.efs|
  {
    forall e :: 0 <= e < |ef| ==> CountOk(g, ef, e, active, zero)
  }

  /** Activating a fact leaves the counters of the effects it is no condition of correct. */
  lemma CountUntouched(g: Graph, ef: seq<EfMark>, e: nat, active: set<nat>, f: nat, zero: bool)
    requires g.WellFormed() && |ef| == |g.efs| && e < |ef| && f < |g.fts|
    requires CountOk(g, ef, e, active, zero) && f !in active && e !in g.fts[f].PC
    ensures CountOk(g, ef, e, active + {f}, zero)
  {
    if !g.efs[e].removed {
      assert f !in g.efs[e].PC;
      CountInAdd(g.efs[e].PC, active, f);
    }
  }

  /** The step of activate_ft on one effect: count, and list the effect when the count is full. */
  lemma CountTouched(g: Graph, ef: seq<EfMark>, ef': seq<EfMark>, e: nat, active: set<nat>, f: nat, zero: bool)
    requires g.WellFormed() && |ef| == |g.efs| == |ef'| && e < |ef| && f < |g.fts|
    requires CountOk(g, ef, e, active, zero) && f !in active && e in g.fts[f].PC
    requires ef'[e].numActivePCs == ef[e].numActivePCs + 1
    requires ef'[e].inE == (ef[e].inE || ef'[e].numActivePCs == |g.efs[e].PC|)
    ensures CountOk(g, ef', e, active + {f}, zero) && !ef[e].inE
  {
    var pc := g.efs[e].PC;
    assert f in pc && !g.efs[e].removed;
    CountInAdd(pc, active, f);
    CountInFull(pc, active + {f});
    assert f in Elems(pc);
  }

  /** The effects of a list that have all their conditions, in the order of the list. */
  ghost function Complete(g: Graph, es: seq<nat>, active: set<nat>): seq<nat> {
    if es == [] then []
    else
      var e := es[|es| - 1];
      Complete(g, es[..|es| - 1], active) + if e < |g.efs| && g.Holds(e, active) then [e] else []
  }

  /** The effects that the facts of `F` behind the first `k` complete, fact by fact. */
  ghost function CompletedBy(g: Graph, F: seq<nat>, k: nat): seq<nat>
    requires k <= |F|
    decreases |F|
  {
    if |F| == k then []
    else
      var f := F[|F| - 1];
      CompletedBy(g, F[..|F| - 1], k) + if f < |g.fts| then Complete(g, g.fts[f].PC, Elems(F)) else []
  }

  /** One more effect behind the list `l`. */
  lemma CompleteStep(g: Graph, l: seq<nat>, es: seq<nat>, active: set<nat>, i: nat)
    requires i < |es| && es[i] < |g.efs|
    ensures l + Complete(g, es[..i + 1], active) ==
      l + Complete(g, es[..i], active) + if g.Holds(es[i], active) then [es[i]] else []
  {
    assert es[..i + 1][..i] == es[..i];
  }

  lemma NoneComplete(g: Graph, l: seq<nat>, active: set<nat>)
    ensures l + Complete(g, [], active) == l
  {
  }

  /** One more fact. */
  lemma CompletedStep(g: Graph, l: seq<nat>, F: seq<nat>, k: nat, i: nat)
    requires k <= i < |F| && F[i] < |g.fts|
    ensures l + CompletedBy(g, F[..i + 1], k) ==
      l + CompletedBy(g, F[..i], k) + Complete(g, g.fts[F[i]].PC, Elems(F[..i + 1]))
  {
    assert F[..i + 1][..i] == F[..i];
  }

  lemma NoneCompleted(g: Graph, l: seq<nat>, F: seq<nat>)
    ensures l + CompletedBy(g, F, |F|) == l
  {
  }

  /** With the first `n` facts of `F`, effect `d` has all its conditions and effect `e` has not. */
  ghost predicate CompleteBefore(g: Graph, F: seq<nat>, n: nat, d: nat, e: nat)
    requires d < |g.efs| && e < |g.efs|
  {
    n <= |F| && g.Holds(d, Elems(F[..n])) && !g.Holds(e, Elems(F[..n]))
  }

  /** Both get their last condition with the fact behind the first `n`, which lists `d` first. */
  ghost predicate CompleteTogether(g: Graph, F: seq<nat>, n: nat, d: nat, e: nat)
    requires d < |g.efs| && e < |g.efs|
  {
    && n < |F| && F[n] < |g.fts| && SeenBefore(g.fts[F[n]].PC, d, e)
    && !g.Holds(d, Elems(F[..n])) && !g.Holds(e, Elems(F[..n]))
    && g.Holds(d, Elems(F[..n + 1])) && g.Holds(e, Elems(F[..n + 1]))
  }

  /** When the facts of `F` become active one after the other, effect `d` is complete before effect `e`. */
  ghost predicate CompleteFirst(g: Graph, F: seq<nat>, d: nat, e: nat)
    requires d < |g.efs| && e < |g.efs|
  {
    exists n: nat :: CompleteBefore(g, F, n, d, e) || CompleteTogether(g, F, n, d, e)
  }

  /** The same with the effects without conditions, which come last. */
  ghost predicate EnabledFirst(g: Graph, F: seq<nat>, d: nat, e: nat)
    requires d < |g.efs| && e < |g.efs|
  {
    if g.efs[e].PC == [] then g.efs[d].PC != [] || d < e else g.efs[d].PC != [] && CompleteFirst(g, F, d, e)
  }

  /** `L` lists the effects that the facts of `F` enable in the order in which they do. */
  ghost predicate IsEnablingOrder(g: Graph, F: seq<nat>, L: seq<nat>) {
    && Below(L, |g.efs|)
    && (forall e: nat :: e < |g.efs| ==> (e in L <==> Enabled(g, e, Elems(F), true)))
    && forall i, j :: 0 <= i < j < |L| ==> EnabledFirst(g, F, L[i], L[j])
  }

  ghost predicate AreComplete(g: Graph, F: seq<nat>, L: seq<nat>) {
    && Below(L, |g.efs|)
    && (forall i :: 0 <= i < |L| ==> g.efs[L[i]].PC != [] && g.Holds(L[i], Elems(F)))
    && forall i, j :: 0 <= i < j < |L| ==> CompleteFirst(g, F, L[i], L[j])
  }

  lemma {:induction false} CompleteOnes(g: Graph, es: seq<nat>, active: set<nat>)
    requires Distinct(es) && Below(es, |g.efs|)
    ensures Below(Complete(g, es, active), |g.efs|) && InOrderOf(Complete(g, es, active), es)
    ensures forall e :: e in Complete(g, es, active) <==> e in es && g.Holds(e, active)
  {
    if es != [] {
      var front, e := es[..|es| - 1], es[|es| - 1];
      CompleteOnes(g, front, active);
      assert es == front + [e] && e !in front;
      hide InOrderOf;
      OneMoreInOrder(Complete(g, front, active), front, e, g.Holds(e, active));
    }
  }

  lemma CompleteFirstStays(g: Graph, F: seq<nat>, f: nat, d: nat, e: nat)
    requires d < |g.efs| && e < |g.efs| && CompleteFirst(g, F, d, e)
    ensures CompleteFirst(g, F + [f], d, e)
  {
    hide Graph.Holds, SeenBefore;
    var n: nat :| CompleteBefore(g, F, n, d, e) || CompleteTogether(g, F, n, d, e);
    assert (F + [f])[..n] == F[..n];
    if CompleteTogether(g, F, n, d, e) {
      assert (F + [f])[..n + 1] == F[..n + 1];
      assert CompleteTogether(g, F + [f], n, d, e);
    } else {
      assert CompleteBefore(g, F + [f], n, d, e);
    }
  }

  lemma {:induction false} CompletedInOrder(g: Graph, F: seq<nat>)
    requires g.WellFormed() && g.IsList(F) && Distinct(F)
    ensures AreComplete(g, F, CompletedBy(g, F, 0))
  {
    if F != [] {
      var n: nat := |F| - 1;
      var front, f := F[..n], F[n];
      CompletedInOrder(g, front);
      assert F == front + [f] && f !in front;
      OneMoreFact(g, front, f, CompletedBy(g, front, 0));
    }
  }

  lemma OneMoreFact(g: Graph, F: seq<nat>, f: nat, L: seq<nat>)
    requires g.WellFormed() && AreComplete(g, F, L) && f < |g.fts| && f !in F
    ensures AreComplete(g, F + [f], L + Complete(g, g.fts[f].PC, Elems(F + [f])))
  {
    var F', new' := F + [f], Complete(g, g.fts[f].PC, Elems(F + [f]));
    var L' := L + new';
    ElemsAppend(F, f);
    CompleteOnes(g, g.fts[f].PC, Elems(F'));
    hide Complete;
    assert F'[..|F|] == F && F'[..|F| + 1] == F';
    forall x | x in new'
      ensures x < |g.efs| && g.efs[x].PC != [] && !g.Holds(x, Elems(F)) && g.Holds(x, Elems(F'))
    {
      assert f in Elems(g.efs[x].PC);
    }
    forall i, j | 0 <= i < j < |L'|
      ensures CompleteFirst(g, F', L'[i], L'[j])
    {
      if j < |L| {
        CompleteFirstStays(g, F, f, L[i], L[j]);
      } else if i < |L| {
        assert L'[j] in new' && CompleteBefore(g, F', |F|, L'[i], L'[j]);
      } else {
        assert L'[i] in new' && L'[j] in new' && F'[|F|] == f;
        assert SeenBefore(g.fts[f].PC, new'[i - |L|], new'[j - |L|]);
        assert CompleteTogether(g, F', |F|, L'[i], L'[j]);
      }
    }
  }

  /** With the effects without conditions behind them, these are the effects enabled. */
  lemma EnabledInOrder(g: Graph, F: seq<nat>, free: seq<nat>)
    requires g.WellFormed() && g.IsList(F) && Distinct(F)
    requires Ascending(free) && forall e :: e in free <==> 0 <= e < |g.efs| && g.efs[e].PC == []
    requires var L := CompletedBy(g, F, 0) + free;
      forall e: nat :: e < |g.efs| ==> (e in L <==> Enabled(g, e, Elems(F), true))
    ensures IsEnablingOrder(g, F, CompletedBy(g, F, 0) + free)
  {
    CompletedInOrder(g, F);
    hide CompletedBy, Enabled, CompleteFirst;
    var first := CompletedBy(g, F, 0);
    var L := first + free;
    forall i, j | 0 <= i < j < |L|
      ensures L[i] < |g.efs| && L[j] < |g.efs| && EnabledFirst(g, F, L[i], L[j])
    {
      if j >= |first| {
        assert L[j] in free;
      }
      if i >= |first| {
        assert L[i] in free;
      }
    }
    forall i | 0 <= i < |L|
      ensures L[i] < |g.efs|
    {
      if i >= |first| {
        assert L[i] in free;
      }
    }
  }

  /** The operators of a list of effects, place by place. */
  function OpsIn(g: Graph, L: seq<nat>): (r: seq<nat>)
    requires Below(L, |g.efs|)
    ensures |r| == |L| && forall i :: 0 <= i < |L| ==> r[i] == g.efs[L[i]].op
  {
    seq(|L|, i requires 0 <= i < |L| => g.efs[L[i]].op)
  }

  lemma SeenOps(g: Graph, L: seq<nat>, A: seq<nat>)
    requires Below(L, |g.efs|) && FirstSeen(A, OpsIn(g, L))
    ensures forall o :: o in A <==> exists e: nat :: e in L && e < |g.efs| && g.efs[e].op == o
  {
    assert (forall o :: o in A <==> o in Elems(A)) && forall o :: o in OpsIn(g, L) <==> o in Elems(OpsIn(g, L));
    forall o
      ensures o in OpsIn(g, L) <==> exists e: nat :: e in L && e < |g.efs| && g.efs[e].op == o
    {
      if e: nat :| e in L && e < |g.efs| && g.efs[e].op == o {
        var i :| 0 <= i < |L| && L[i] == e;
        assert OpsIn(g, L)[i] == o;
      }
      if o in OpsIn(g, L) {
        var i :| 0 <= i < |L| && OpsIn(g, L)[i] == o;
        assert L[i] in L;
      }
    }
  }

  lemma OpsInStep(g: Graph, L: seq<nat>, i: nat)
    requires Below(L, |g.efs|) && i < |L|
    ensures OpsIn(g, L[..i + 1]) == OpsIn(g, L[..i]) + [g.efs[L[i]].op]
  {
  }

  /** The operators collected from the enabled effects. */
  lemma CollectedAre(g: Graph, S: seq<nat>, lF: seq<nat>, lE: seq<nat>, free: seq<nat>, A: seq<nat>)
    requires g.WellFormed() && g.IsList(S) && Below(lE, |g.efs|) && (Distinct(S) ==> lF == S)
    requires lE == CompletedBy(g, lF, 0) + free
    requires Ascending(free) && forall e :: e in free <==> 0 <= e < |g.efs| && g.efs[e].PC == []
    requires forall e: nat :: e < |g.efs| ==> (e in lE <==> Enabled(g, e, Elems(S), true))
    requires FirstSeen(A, OpsIn(g, lE))
    ensures forall o :: o in A <==> exists e: nat :: e < |g.efs| && g.efs[e].op == o && Enabled(g, e, Elems(S), true)
    ensures Distinct(S) ==> exists L :: IsEnablingOrder(g, S, L) && FirstSeen(A, OpsIn(g, L))
  {
    SeenOps(g, lE, A);
    hide CompletedBy, FirstSeen, IsEnablingOrder, Enabled;
    if Distinct(S) {
      EnabledInOrder(g, S, free);
      assert IsEnablingOrder(g, S, lE);
    }
  }

  /** What the loop of build_fixpoint knows each time it looks for the goals. */
  ghost predicate AtLayer(g: Graph, S: set<nat>, ft: seq<FtMark>, ef: seq<EfMark>,
                          lF: seq<nat>, lE: seq<nat>, lchE: seq<nat>, startF: nat, time: nat)
  {
    && Sized(g, ft, ef) && startF <= |lF|
    && FactListOk(ft, lF) && EffectListOk(ef, lE, lchE)
    && Elems(lF) == Layer(g, S, time)
    && Elems(lF[..startF]) == (if time == 0 then {} else Layer(g, S, time - 1))
    && FactLevelsOk(g, S, ft, lF, startF)
    && CountsOk(g, ef, Elems(lF[..startF]), time > 0)
    && EffectLevelsOk(g, S, ef, lE, |lE|)
  }

  /** The marks after the facts of a layer were activated: every effect that can
      take place in it is listed. */
  ghost predicate FactsActive(g: Graph, S: set<nat>, ft: seq<FtMark>, ef: seq<EfMark>,
                              lF: seq<nat>, lE: seq<nat>, lchE: seq<nat>, startE: nat, time: nat, zero: bool)
  {
    && Sized(g, ft, ef) && startE <= |lE|
    && FactListOk(ft, lF) && EffectListOk(ef, lE, lchE)
    && Elems(lF) == Layer(g, S, time)
    && FactLevelsOk(g, S, ft, lF, |lF|)
    && CountsOk(g, ef, Elems(lF), zero)
    && EffectLevelsOk(g, S, ef, lE, startE)
    && forall e :: 0 <= e < |ef| ==>
         (e in lE[..startE] <==> time > 0 && Enabled(g, e, Layer(g, S, time - 1), true))
  }

  /** The facts behind `startF` are the new ones of the layer. */
  lemma NewFacts(g: Graph, S: set<nat>, lF: seq<nat>, startF: nat, time: nat)
    requires Distinct(lF) && startF <= |lF| && Elems(lF) == Layer(g, S, time)
    requires Elems(lF[..startF]) == (if time == 0 then {} else Layer(g, S, time - 1))
    ensures forall i :: startF <= i < |lF| ==> FactFirstAt(g, S, time, lF[i])
  {
    forall i | startF <= i < |lF|
      ensures FactFirstAt(g, S, time, lF[i])
    {
      assert lF[i] in Elems(lF);
      assert lF[i] !in Elems(lF[..startF]);
    }
  }

  /** Giving its level to the next fact of the list. */
  lemma FactLevelStep(g: Graph, S: set<nat>, ft: seq<FtMark>, ft': seq<FtMark>, lF: seq<nat>, i: nat, time: nat)
    requires FactListOk(ft, lF) && i < |lF| && FactLevelsOk(g, S, ft, lF, i)
    requires FactFirstAt(g, S, time, lF[i])
    requires ft' == ft[lF[i] := FtMark(time, ft[lF[i]].inF)]
    ensures FactListOk(ft', lF) && FactLevelsOk(g, S, ft', lF, i + 1)
  {
    assert lF[..i + 1] == lF[..i] + [lF[i]];
  }

  /** The listed effects at the start of a layer are those that took place in the last one. */
  lemma ListedEffects(g: Graph, S: set<nat>, ft: seq<FtMark>, ef: seq<EfMark>,
                      lF: seq<nat>, lE: seq<nat>, lchE: seq<nat>, startF: nat, time: nat)
    requires AtLayer(g, S, ft, ef, lF, lE, lchE, startF, time)
    ensures forall e :: 0 <= e < |ef| ==> (e in lE <==> time > 0 && Enabled(g, e, Layer(g, S, time - 1), true))
  {
    forall e: nat | e < |ef|
      ensures e in lE <==> time > 0 && Enabled(g, e, Layer(g, S, time - 1), true)
    {
      assert CountOk(g, ef, e, Elems(lF[..startF]), time > 0);
      assert g.efs[e].PC != [] ==> g.efs[e].PC[0] in Elems(g.efs[e].PC);
    }
  }

  /** The effects behind `startE` are the new ones of the layer. */
  lemma NewEffects(g: Graph, S: set<nat>, ft: seq<FtMark>, ef: seq<EfMark>,
                   lF: seq<nat>, lE: seq<nat>, lchE: seq<nat>, startE: nat, time: nat)
    requires FactsActive(g, S, ft, ef, lF, lE, lchE, startE, time, true)
    ensures forall i :: startE <= i < |lE| ==> EffectFirstAt(g, S, time, lE[i])
  {
    forall i | startE <= i < |lE|
      ensures EffectFirstAt(g, S, time, lE[i])
    {
      var e := lE[i];
      assert e !in lE[..startE];
      assert CountOk(g, ef, e, Elems(lF), true);
      assert Enabled(g, e, Layer(g, S, time), true);
    }
  }

  /** The counters while the effects of `taken` are listed without waiting for conditions. */
  ghost predicate CountsWith(g: Graph, ef: seq<EfMark>, active: set<nat>, taken: seq<nat>)
    requires |ef| == |g.efs|
  {
    forall e :: 0 <= e < |ef| ==> CountOk(g, ef, e, active, e in taken)
  }

  /** Listing an effect without conditions. */
  lemma UnconditionalStep(g: Graph, ef: seq<EfMark>, ef': seq<EfMark>, l: seq<nat>, i: nat, active: set<nat>)
    requires |ef| == |g.efs| && i < |l| && l[i] < |ef| && g.efs[l[i]].PC == []
    requires CountsWith(g, ef, active, l[..i])
    requires ef' == ef[l[i] := ef[l[i]].(inE := true)]
    ensures CountsWith(g, ef', active, l[..i + 1])
  {
    assert l[..i + 1] == l[..i] + [l[i]];
    var part := l[..i + 1];
    forall e | 0 <= e < |ef|
      ensures CountOk(g, ef', e, active, e in part)
    {
      assert CountOk(g, ef, e, active, e in l[..i]);
    }
  }

  /** The marks while the first `i` effects of the list have their level and have added their facts. */
  ghost predicate EffectsHalfway(g: Graph, S: set<nat>, ft: seq<FtMark>, ef: seq<EfMark>, lF0: seq<nat>,
                                 lF: seq<nat>, lE: seq<nat>, lchE: seq<nat>, i: nat, time: nat)
  {
    && Sized(g, ft, ef) && lF0 <= lF && i <= |lE|
    && FactListOk(ft, lF) && EffectListOk(ef, lE, lchE)
    && Elems(lF0) == Layer(g, S, time) && FactLevelsOk(g, S, ft, lF0, |lF0|)
    && CountsOk(g, ef, Elems(lF0), true)
    && EffectLevelsOk(g, S, ef, lE, i)
    && (forall j :: i <= j < |lE| ==> EffectFirstAt(g, S, time, lE[j]))
    && Elems(lF) <= Layer(g, S, time + 1)
    && (forall j :: 0 <= j < i ==> Elems(g.efs[lE[j]].A) <= Elems(lF))
  }

  /** What the effects of earlier layers add is in the list already. */
  lemma EffectsStart(g: Graph, S: set<nat>, ft: seq<FtMark>, ef: seq<EfMark>,
                     lF: seq<nat>, lE: seq<nat>, lchE: seq<nat>, startE: nat, time: nat)
    requires g.WellFormed()
    requires FactsActive(g, S, ft, ef, lF, lE, lchE, startE, time, true)
    ensures EffectsHalfway(g, S, ft, ef, lF, lF, lE, lchE, startE, time)
  {
    NewEffects(g, S, ft, ef, lF, lE, lchE, startE, time);
    LayersGrow(g, S, time, time + 1);
    forall i | 0 <= i < startE
      ensures Elems(g.efs[lE[i]].A) <= Elems(lF)
    {
      var e := lE[i];
      assert e in lE[..startE];
      assert time > 0 && Enabled(g, e, Layer(g, S, time - 1), true);
    }
  }

  lemma EffectsStep(g: Graph, S: set<nat>, ft: seq<FtMark>, ef: seq<EfMark>, ft': seq<FtMark>, ef': seq<EfMark>,
                    lF0: seq<nat>, lF: seq<nat>, lF': seq<nat>, lE: seq<nat>, lchE: seq<nat>, i: nat, time: nat)
    requires g.WellFormed() && i < |lE|
    requires EffectsHalfway(g, S, ft, ef, lF0, lF, lE, lchE, i, time)
    requires lF <= lF' && |ft'| == |ft| && FactListOk(ft', lF')
    requires forall f :: 0 <= f < |ft| ==> ft'[f].level == ft[f].level
    requires Elems(lF') == Elems(lF) + Elems(g.efs[lE[i]].A)
    requires ef' == ef[lE[i] := ef[lE[i]].(level := time)]
    ensures EffectsHalfway(g, S, ft', ef', lF0, lF', lE, lchE, i + 1, time)
  {
    assert Layer(g, S, time + 1) == Grow(g, Layer(g, S, time));
    hide Layer;
    assert CountOk(g, ef, lE[i], Elems(lF0), true);
    assert Enabled(g, lE[i], Layer(g, S, time), true);
    EffectLevelStep(g, S, ef, ef', lE, lchE, i, time, Elems(lF0));
  }

  lemma EffectLevelStep(g: Graph, S: set<nat>, ef: seq<EfMark>, ef': seq<EfMark>, lE: seq<nat>, lchE: seq<nat>,
                        i: nat, time: nat, active: set<nat>)
    requires EffectListOk(ef, lE, lchE) && |ef| == |g.efs| && i < |lE| && EffectLevelsOk(g, S, ef, lE, i)
    requires EffectFirstAt(g, S, time, lE[i]) && CountsOk(g, ef, active, true)
    requires ef' == ef[lE[i] := ef[lE[i]].(level := time)]
    ensures EffectListOk(ef', lE, lchE) && EffectLevelsOk(g, S, ef', lE, i + 1) && CountsOk(g, ef', active, true)
  {
    hide Layer;
    assert lE[..i + 1] == lE[..i] + [lE[i]];
    forall e: nat | e < |ef|
      ensures CountOk(g, ef', e, active, true)
    {
      assert CountOk(g, ef, e, active, true);
    }
  }

  /** After all effects of the layer have added their facts, the marks are those of the next layer. */
  lemma LayerDone(g: Graph, S: set<nat>, ft: seq<FtMark>, ef: seq<EfMark>,
                  lF0: seq<nat>, lF: seq<nat>, lE: seq<nat>, lchE: seq<nat>, time: nat)
    requires g.WellFormed() && EffectsHalfway(g, S, ft, ef, lF0, lF, lE, lchE, |lE|, time)
    ensures AtLayer(g, S, ft, ef, lF, lE, lchE, |lF0|, time + 1)
  {
    assert lF[..|lF0|] == lF0 == lF0[..|lF0|];
    forall f | f in Layer(g, S, time + 1)
      ensures f in lF
    {
      if f in Layer(g, S, time) {
        assert f in Elems(lF0);
      } else {
        var e :| 0 <= e < |g.efs| && !g.efs[e].removed && g.Holds(e, Layer(g, S, time)) && f in g.efs[e].A;
        assert CountOk(g, ef, e, Elems(lF0), true);
        var j :| 0 <= j < |lE| && lE[j] == e;
        assert f in Elems(g.efs[lE[j]].A);
      }
    }
  }

  /** The exact levels of `h` complete layers, with the goals of layer `h` marked as well. */
  ghost predicate Exact(g: Graph, S: set<nat>, goals: set<nat>, ft: seq<FtMark>, ef: seq<EfMark>, h: nat) {
    && Sized(g, ft, ef)
    && (forall f :: 0 <= f < |ft| ==>
         && -1 <= ft[f].level <= h
         && (ft[f].level >= 0 ==> FactFirstAt(g, S, ft[f].level, f))
         && (ft[f].level == h ==> f in goals)
         && (ft[f].level == INFINITY <==> f !in Layer(g, S, h) || (f !in goals && (h > 0 ==> f !in Layer(g, S, h - 1)))))
    && (forall e :: 0 <= e < |ef| ==>
         && -1 <= ef[e].level < h
         && (ef[e].level >= 0 ==> EffectFirstAt(g, S, ef[e].level, e))
         && (ef[e].level >= 0 <==> h > 0 && Enabled(g, e, Layer(g, S, h - 1), true)))
  }

  /** Everything that carries a mark is on a list, so the lists suffice to clear the marks. */
  ghost predicate Listed(ft: seq<FtMark>, ef: seq<EfMark>, lF: seq<nat>, lE: seq<nat>, lchE: seq<nat>) {
    && FactListOk(ft, lF) && EffectListOk(ef, lE, lchE)
    && (forall f :: 0 <= f < |ft| && f !in lF ==> ft[f].level == INFINITY)
    && (forall e :: 0 <= e < |ef| && e !in lE ==> ef[e].level == INFINITY)
  }

  /** The facts with a level are those of the earlier layers. */
  lemma LevelledFacts(g: Graph, S: set<nat>, ft: seq<FtMark>, lF: seq<nat>, startF: nat, time: nat)
    requires |ft| == |g.fts| && startF <= |lF| && FactListOk(ft, lF) && FactLevelsOk(g, S, ft, lF, startF)
    requires Elems(lF) == Layer(g, S, time)
    requires Elems(lF[..startF]) == (if time == 0 then {} else Layer(g, S, time - 1))
    ensures forall f :: 0 <= f < |ft| ==>
      && (ft[f].inF <==> f in Layer(g, S, time))
      && (if time > 0 && f in Layer(g, S, time - 1) then 0 <= ft[f].level < time else ft[f].level == INFINITY)
      && (ft[f].level >= 0 ==> FactFirstAt(g, S, ft[f].level, f))
  {
    hide Layer;
    forall f | 0 <= f < |ft|
      ensures ft[f].inF <==> f in Layer(g, S, time)
      ensures if time > 0 && f in Layer(g, S, time - 1) then 0 <= ft[f].level < time else ft[f].level == INFINITY
      ensures ft[f].level >= 0 ==> FactFirstAt(g, S, ft[f].level, f)
    {
      assert f in lF[..startF] <==> f in Elems(lF[..startF]);
      assert f in lF <==> f in Elems(lF);
      if f in lF[..startF] {
        var t := FactHasFirst(g, S, time - 1, f);
        FactFirstUnique(g, S, t, ft[f].level, f);
      }
    }
  }

  /** The effects with a level are those that take place in the earlier layers. */
  lemma LevelledEffects(g: Graph, S: set<nat>, ef: seq<EfMark>, lE: seq<nat>, time: nat)
    requires |ef| == |g.efs| && EffectLevelsOk(g, S, ef, lE, |lE|)
    requires forall e :: 0 <= e < |ef| ==> (e in lE <==> time > 0 && Enabled(g, e, Layer(g, S, time - 1), true))
    ensures forall e :: 0 <= e < |ef| ==>
      && -1 <= ef[e].level < time
      && (ef[e].level >= 0 ==> EffectFirstAt(g, S, ef[e].level, e))
      && (ef[e].level >= 0 <==> time > 0 && Enabled(g, e, Layer(g, S, time - 1), true))
  {
    hide Layer;
    var l := lE[..|lE|];
    assert l == lE;
    forall e | 0 <= e < |ef|
      ensures -1 <= ef[e].level < time
      ensures ef[e].level >= 0 ==> EffectFirstAt(g, S, ef[e].level, e)
      ensures ef[e].level >= 0 <==> time > 0 && Enabled(g, e, Layer(g, S, time - 1), true)
    {
      if e in l {
        LayersReach(g, S, ef[e].level, time - 1, e);
      }
    }
  }

  /** The levels when the goals have all come up: facts of earlier layers have theirs, and
      `ft'` gives the current one to those goals that are new. */
  lemma ReachedExact(g: Graph, S: set<nat>, ft: seq<FtMark>, ft': seq<FtMark>, ef: seq<EfMark>,
                     lF: seq<nat>, lE: seq<nat>, lchE: seq<nat>, startF: nat, time: nat, goals: set<nat>)
    requires AtLayer(g, S, ft, ef, lF, lE, lchE, startF, time) && goals <= Layer(g, S, time)
    requires |ft'| == |ft|
    requires forall f :: 0 <= f < |ft| ==>
      ft'[f] == if f in goals && ft[f].level == INFINITY then FtMark(time, ft[f].inF) else ft[f]
    ensures Exact(g, S, goals, ft', ef, time)
  {
    hide Layer;
    LevelledFacts(g, S, ft, lF, startF, time);
    ListedEffects(g, S, ft, ef, lF, lE, lchE, startF, time);
    LevelledEffects(g, S, ef, lE, time);
    if time > 0 {
      LayersGrow(g, S, time - 1, time);
    }
  }

  lemma ReachedListed(g: Graph, S: set<nat>, ft: seq<FtMark>, ft': seq<FtMark>, ef: seq<EfMark>,
                      lF: seq<nat>, lE: seq<nat>, lchE: seq<nat>, startF: nat, time: nat, goals: set<nat>)
    requires AtLayer(g, S, ft, ef, lF, lE, lchE, startF, time) && goals <= Layer(g, S, time)
    requires |ft'| == |ft|
    requires forall f :: 0 <= f < |ft| ==>
      ft'[f] == if f in goals && ft[f].level == INFINITY then FtMark(time, ft[f].inF) else ft[f]
    ensures Listed(ft', ef, lF, lE, lchE)
  {
    assert lE[..|lE|] == lE;
    assert forall f :: f in lF <==> f in Elems(lF);
  }

  /** An effect that takes place in a layer is new there or earlier. */
  lemma LayersReach(g: Graph, S: set<nat>, t: nat, u: nat, e: nat)
    requires e < |g.efs| && EffectFirstAt(g, S, t, e) && g.Holds(e, Layer(g, S, u))
    ensures t <= u
  {
    hide Layer;
    if u < t {
      LayersGrow(g, S, u, t - 1);
    }
  }

  /** The outcome of the layer loop: it stops at the first layer with all goals, or at the
      layer to which nothing can be added; either way the levels are exact. */
  ghost predicate Built(g: Graph, S: set<nat>, goals: set<nat>, ft: seq<FtMark>, ef: seq<EfMark>, time: nat) {
    && (time > 0 ==> !(goals <= Layer(g, S, time - 1)))
    && if goals <= Layer(g, S, time) then Exact(g, S, goals, ft, ef, time)
       else Layer(g, S, time + 1) == Layer(g, S, time) && Exact(g, S, goals, ft, ef, time + 1)
  }

  lemma StuckBuilt(g: Graph, S: set<nat>, goals: set<nat>, ft: seq<FtMark>, ef: seq<EfMark>,
                   lF: seq<nat>, lE: seq<nat>, lchE: seq<nat>, time: nat)
    requires AtLayer(g, S, ft, ef, lF, lE, lchE, |lF|, time + 1)
    requires !(goals <= Layer(g, S, time))
    ensures Built(g, S, goals, ft, ef, time) && Listed(ft, ef, lF, lE, lchE)
  {
    hide Layer;
    assert lF[..|lF|] == lF;
    ReachedExact(g, S, ft, ft, ef, lF, lE, lchE, |lF|, time + 1, {});
    ReachedListed(g, S, ft, ft, ef, lF, lE, lchE, |lF|, time + 1, {});
    if time > 0 {
      LayersGrow(g, S, time - 1, time);
    }
    assert Exact(g, S, {}, ft, ef, time + 1);
  }

  /** Fact `f` of a layer above the first has an adder one layer below. */
  ghost predicate FactSupported(g: Graph, ft: seq<FtMark>, ef: seq<EfMark>, f: nat)
    requires Sized(g, ft, ef) && f < |ft|
  {
    exists e :: e in g.fts[f].A && e < |ef| && ef[e].level == ft[f].level - 1
  }

  /** The level of effect `e` is the largest level of its conditions. */
  ghost predicate EffectSupported(g: Graph, ft: seq<FtMark>, ef: seq<EfMark>, e: nat)
    requires Sized(g, ft, ef) && e < |ef|
  {
    && (forall p :: p in g.efs[e].PC ==> p < |ft| && 0 <= ft[p].level <= ef[e].level)
    && (ef[e].level > 0 ==> exists p :: p in g.efs[e].PC && p < |ft| && ft[p].level == ef[e].level)
  }

  /** What the extraction of a relaxed plan relies on: levels with witnesses one layer below. */
  ghost predicate Levelled(g: Graph, S: set<nat>, ft: seq<FtMark>, ef: seq<EfMark>, max: nat) {
    && Sized(g, ft, ef)
    && (forall f :: 0 <= f < |ft| ==>
         && -1 <= ft[f].level <= max
         && (ft[f].level == 0 ==> f in S)
         && (ft[f].level > 0 ==> FactSupported(g, ft, ef, f)))
    && (forall e :: 0 <= e < |ef| ==>
         && -1 <= ef[e].level < max
         && (ef[e].level >= 0 ==> EffectSupported(g, ft, ef, e)))
  }

  lemma LevelledSupports(g: Graph, S: set<nat>, ft: seq<FtMark>, ef: seq<EfMark>, max: nat, f: nat)
    requires Levelled(g, S, ft, ef, max) && f < |ft| && ft[f].level > 0
    ensures exists i :: 0 <= i < |g.fts[f].A| && g.fts[f].A[i] < |ef| && ef[g.fts[f].A[i]].level == ft[f].level - 1
  {
    assert FactSupported(g, ft, ef, f);
  }

  lemma LevelledConditions(g: Graph, S: set<nat>, ft: seq<FtMark>, ef: seq<EfMark>, max: nat, e: nat)
    requires g.EffectsOk() && Levelled(g, S, ft, ef, max) && e < |ef| && ef[e].level >= 0
    ensures g.efs[e].op < |g.ops|
    ensures forall p :: p in g.efs[e].PC ==> p < |ft| && 0 <= ft[p].level <= ef[e].level
  {
    assert EffectSupported(g, ft, ef, e);
  }

  /** The exact levels have such witnesses. */
  lemma ExactLevelled(g: Graph, S: set<nat>, goals: set<nat>, ft: seq<FtMark>, ef: seq<EfMark>, h: nat)
    requires g.WellFormed() && Exact(g, S, goals, ft, ef, h)
    ensures Levelled(g, S, ft, ef, h)
  {
    assert forall f :: f in Layer(g, S, 0) <==> f in S;
    hide Layer;
    forall f: nat | f < |ft| && ft[f].level > 0
      ensures FactSupported(g, ft, ef, f)
    {
      ExactFact(g, S, goals, ft, ef, h, f);
    }
    forall e: nat | e < |ef| && ef[e].level >= 0
      ensures EffectSupported(g, ft, ef, e)
    {
      ExactEffect(g, S, goals, ft, ef, h, e);
    }
  }

  lemma ExactFact(g: Graph, S: set<nat>, goals: set<nat>, ft: seq<FtMark>, ef: seq<EfMark>, h: nat, f: nat)
    requires g.WellFormed() && Exact(g, S, goals, ft, ef, h) && f < |ft| && ft[f].level > 0
    ensures FactSupported(g, ft, ef, f)
  {
    hide Layer;
    var e := NewFactHasNewAdder(g, S, ft[f].level - 1, f);
    LayersGrow(g, S, ft[f].level - 1, h - 1);
    assert Enabled(g, e, Layer(g, S, h - 1), true);
    EffectFirstUnique(g, S, ft[f].level - 1, ef[e].level, e);
    assert e in g.fts[f].A;
  }

  lemma EffectFirstUnique(g: Graph, S: set<nat>, t: nat, u: nat, e: nat)
    requires e < |g.efs| && EffectFirstAt(g, S, t, e) && EffectFirstAt(g, S, u, e)
    ensures t == u
  {
    hide Layer;
    LayersReach(g, S, t, u, e);
    LayersReach(g, S, u, t, e);
  }

  lemma ExactEffect(g: Graph, S: set<nat>, goals: set<nat>, ft: seq<FtMark>, ef: seq<EfMark>, h: nat, e: nat)
    requires g.WellFormed() && Exact(g, S, goals, ft, ef, h) && e < |ef| && ef[e].level >= 0
    ensures EffectSupported(g, ft, ef, e)
  {
    hide Layer;
    var l := ef[e].level;
    LayersGrow(g, S, l, h - 1);
    LayersGrow(g, S, h - 1, h);
    forall p | p in g.efs[e].PC
      ensures p < |ft| && 0 <= ft[p].level <= l
    {
      assert p in Elems(g.efs[e].PC) && p in Layer(g, S, l);
      var t := FactHasFirst(g, S, l, p);
      FactFirstUnique(g, S, t, ft[p].level, p);
    }
    if l > 0 {
      var p := NewEffectHasNewCondition(g, S, l, e);
      FactFirstUnique(g, S, l, ft[p].level, p);
    }
  }
}
