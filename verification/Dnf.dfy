/** The disjunctive normal form of inst_pre.c, its meaning and its shape. */
module Dnf {
  import opened Formulas
  import opened Normalize

  // ---- the specification

  /** copy_Wff puts the sons of a copied node in reverse order. */
  function CopyWff(w: Wff): Wff
    decreases w
  {
    match w
    case All(v, ty, son) => All(v, ty, CopyWff(son))
    case Ex(v, ty, son) => Ex(v, ty, CopyWff(son))
    case And(sons) => And(seq(|sons|, i requires 0 <= i < |sons| => CopyWff(sons[|sons| - 1 - i])))
    case Or(sons) => Or(seq(|sons|, i requires 0 <= i < |sons| => CopyWff(sons[|sons| - 1 - i])))
    case Not(son) => Not(CopyWff(son))
    case _ => w
  }

  /** The conjunction of the chosen formulas, the last one in front. */
  function AndOf(chosen: seq<Wff>): Wff {
    And(seq(|chosen|, i requires 0 <= i < |chosen| => CopyWff(chosen[|chosen| - 1 - i])))
  }

  /** What a hitting set may take from a son: one disjunct, or the son itself. */
  function Options(w: Wff): seq<Wff> {
    if w.Or? then w.sons else [w]
  }

  /** The hitting sets of `sons` that go on from `chosen`, the last one found in front. */
  function Hits(sons: seq<Wff>, chosen: seq<Wff>): seq<Wff>
    decreases |sons|, 0
  {
    if sons == [] then [AndOf(chosen)] else HitsOf(Options(sons[0]), sons[1..], chosen)
  }

  function HitsOf(options: seq<Wff>, rest: seq<Wff>, chosen: seq<Wff>): seq<Wff>
    decreases |rest|, 1, |options|
  {
    if options == [] then []
    else HitsOf(options[1..], rest, chosen) + Hits(rest, chosen + [options[0]])
  }

  /** ANDs_below_ORs_in_wff; a quantifier makes the planner exit. */
  function AndsBelowOrs(w: Wff): Wff
    requires QuantifierFree(w)
    decreases w
  {
    match w
    case And(sons) =>
      var ws := seq(|sons|, i requires 0 <= i < |sons| => AndsBelowOrs(sons[i]));
      if exists i :: 0 <= i < |ws| && ws[i].Or? then Or(Splice(false, Hits(ws, []))) else And(Splice(true, ws))
    case Or(sons) => Or(Splice(false, seq(|sons|, i requires 0 <= i < |sons| => AndsBelowOrs(sons[i]))))
    case _ => w
  }

  // ---- the code that collects the hitting sets

  /** The shared lists of collect_hitting_sets. */
  class HittingSets {
    var lset: seq<Wff>
    var lhittingSets: seq<Wff>

    constructor (m: nat)
      ensures |lset| == m && lhittingSets == []
    {
      lset := seq(m, _ => Tru);
      lhittingSets := [];
    }

    /** One complete hitting set. */
    method AddSet(index: nat)
      requires index <= |lset|
      modifies this`lhittingSets
      ensures lhittingSets == [AndOf(lset[..index])] + old(lhittingSets)
    {
      var sons: seq<Wff> := [];
      ghost var set0 := lset[..index];
      for i := 0 to index
        invariant |sons| == i && forall k :: 0 <= k < i ==> sons[k] == CopyWff(set0[i - 1 - k])
      {
        sons := [CopyWff(lset[i])] + sons;
      }
      assert And(sons) == AndOf(set0);
      lhittingSets := [And(sons)] + lhittingSets;
    }

    /** collect_hitting_sets: sets found later come in front of those found before. */
    method CollectHittingSets(orList: seq<Wff>, index: nat)
      requires index + |orList| <= |lset|
      modifies this
      ensures |lset| == old(|lset|) && lset[..index] == old(lset[..index])
      ensures lhittingSets == Hits(orList, old(lset[..index])) + old(lhittingSets)
      decreases |orList|, 1
    {
      hide AndOf;
      if orList == [] {
        AddSet(index);
        return;
      }
      if !orList[0].Or? {
        CollectWith(orList[0], orList[1..], index);
        HitsOfOne(orList[0], orList[1..], lset[..index]);
        return;
      }
      ghost var chosen, options, old0 := lset[..index], orList[0].sons, lhittingSets;
      for j := 0 to |orList[0].sons|
        invariant |lset| == old(|lset|) && lset[..index] == chosen
        invariant HitsOf(options, orList[1..], chosen) + old0 == HitsOf(options[j..], orList[1..], chosen) + lhittingSets
      {
        ghost var before := lhittingSets;
        CollectWith(orList[0].sons[j], orList[1..], index);
        NextOption(options, j, orList[1..], chosen, before);
      }
    }

    /** The hitting sets that take `w` at place `index`. */
    method CollectWith(w: Wff, rest: seq<Wff>, index: nat)
      requires index + 1 + |rest| <= |lset|
      modifies this
      ensures |lset| == old(|lset|) && lset[..index] == old(lset[..index])
      ensures lhittingSets == Hits(rest, old(lset[..index]) + [w]) + old(lhittingSets)
      decreases |rest| + 1, 0
    {
      hide Hits;
      lset := lset[index := w];
      assert lset[..index + 1] == old(lset[..index]) + [w];
      CollectHittingSets(rest, index + 1);
      assert lset[..index] == lset[..index + 1][..index];
    }
  }

  lemma NextOption(options: seq<Wff>, j: nat, rest: seq<Wff>, chosen: seq<Wff>, before: seq<Wff>)
    requires j < |options|
    ensures HitsOf(options[j..], rest, chosen) + before
         == HitsOf(options[j + 1..], rest, chosen) + (Hits(rest, chosen + [options[j]]) + before)
  {
    assert options[j..][1..] == options[j + 1..];
  }

  lemma HitsOfOne(w: Wff, rest: seq<Wff>, chosen: seq<Wff>)
    ensures HitsOf([w], rest, chosen) == Hits(rest, chosen + [w])
  {
    assert HitsOf([], rest, chosen) == [];
  }

  // ---- the hitting sets are exactly the choices

  /** One option from every son. */
  ghost predicate IsChoice(sons: seq<Wff>, choice: seq<Wff>) {
    |choice| == |sons| && forall i :: 0 <= i < |sons| ==> choice[i] in Options(sons[i])
  }

  ghost predicate FromChoice(sons: seq<Wff>, chosen: seq<Wff>, x: Wff) {
    exists choice :: IsChoice(sons, choice) && x == AndOf(chosen + choice)
  }

  function Product(sons: seq<Wff>): nat {
    if sons == [] then 1 else |Options(sons[0])| * Product(sons[1..])
  }

  ghost predicate FromOption(options: seq<Wff>, rest: seq<Wff>, chosen: seq<Wff>, x: Wff) {
    exists o :: o in options && FromChoice(rest, chosen + [o], x)
  }

  lemma ChoiceSplits(sons: seq<Wff>, chosen: seq<Wff>, x: Wff)
    requires sons != []
    ensures FromChoice(sons, chosen, x) <==> FromOption(Options(sons[0]), sons[1..], chosen, x)
  {
    hide AndOf, Options;
    if FromChoice(sons, chosen, x) {
      var choice :| IsChoice(sons, choice) && x == AndOf(chosen + choice);
      assert chosen + choice == (chosen + [choice[0]]) + choice[1..];
      assert IsChoice(sons[1..], choice[1..]);
      assert FromChoice(sons[1..], chosen + [choice[0]], x);
    }
    if FromOption(Options(sons[0]), sons[1..], chosen, x) {
      var o :| o in Options(sons[0]) && FromChoice(sons[1..], chosen + [o], x);
      var choice :| IsChoice(sons[1..], choice) && x == AndOf(chosen + [o] + choice);
      assert chosen + [o] + choice == chosen + ([o] + choice);
      assert IsChoice(sons, [o] + choice);
    }
  }

  /** Each choice of one option per son gives a hitting set, there are no others, and there are as
      many as the numbers of options multiply to. */
  lemma {:induction false} HitsAreChoices(sons: seq<Wff>, chosen: seq<Wff>)
    ensures |Hits(sons, chosen)| == Product(sons)
    ensures forall x :: x in Hits(sons, chosen) <==> FromChoice(sons, chosen, x)
    decreases |sons|, 0
  {
    if sons == [] {
      assert chosen + [] == chosen;
      assert IsChoice(sons, []);
    } else {
      hide FromChoice, FromOption, Options;
      HitsOfAreChoices(Options(sons[0]), sons[1..], chosen);
      forall x
        ensures x in Hits(sons, chosen) <==> FromChoice(sons, chosen, x)
      {
        ChoiceSplits(sons, chosen, x);
      }
    }
  }

  lemma {:induction false} HitsOfAreChoices(options: seq<Wff>, rest: seq<Wff>, chosen: seq<Wff>)
    ensures |HitsOf(options, rest, chosen)| == |options| * Product(rest)
    ensures forall x :: x in HitsOf(options, rest, chosen) <==>
      FromOption(options, rest, chosen, x)
    decreases |rest|, 1, |options|
  {
    hide FromChoice, FromOption, Hits, Product;
    if options == [] {
      NoOption(rest, chosen);
    } else {
      HitsOfAreChoices(options[1..], rest, chosen);
      HitsAreChoices(rest, chosen + [options[0]]);
      FirstOption(options, rest, chosen);
      OneMore(|options| - 1, Product(rest));
    }
  }

  lemma NoOption(rest: seq<Wff>, chosen: seq<Wff>)
    ensures forall x :: !FromOption([], rest, chosen, x)
  {
  }

  lemma FirstOption(options: seq<Wff>, rest: seq<Wff>, chosen: seq<Wff>)
    requires options != []
    ensures forall x :: FromOption(options, rest, chosen, x) <==>
      FromChoice(rest, chosen + [options[0]], x) || FromOption(options[1..], rest, chosen, x)
  {
    hide FromChoice;
    assert options == [options[0]] + options[1..];
  }

  lemma OneMore(n: nat, p: nat)
    ensures n * p + p == (n + 1) * p
  {
  }

  // ---- the meaning

  lemma {:induction false} CopyMeans(dom: Domain, w: Wff, env: map<nat, nat>, S: set<GroundFact>)
    ensures Eval(dom, CopyWff(w), env, S) == Eval(dom, w, env, S)
    decreases w
  {
    hide Eval;
    match w
    case All(v, ty, son) =>
      forall c | c in dom.consts(ty)
        ensures Eval(dom, CopyWff(son), env[v := c], S) == Eval(dom, son, env[v := c], S)
      {
        CopyMeans(dom, son, env[v := c], S);
      }
      QuantifiersMean(dom, ty, v, CopyWff(son), env, v, son, env, S);
    case Ex(v, ty, son) =>
      forall c | c in dom.consts(ty)
        ensures Eval(dom, CopyWff(son), env[v := c], S) == Eval(dom, son, env[v := c], S)
      {
        CopyMeans(dom, son, env[v := c], S);
      }
      QuantifiersMean(dom, ty, v, CopyWff(son), env, v, son, env, S);
    case And(sons) => CopySons(dom, sons, env, S);
    case Or(sons) => CopySons(dom, sons, env, S);
    case Not(son) =>
      CopyMeans(dom, son, env, S);
      NegationMeans(dom, son, env, S);
      NegationMeans(dom, CopyWff(son), env, S);
    case _ =>
  }

  function Reversed<T>(s: seq<T>): seq<T> {
    seq(|s|, i requires 0 <= i < |s| => s[|s| - 1 - i])
  }

  lemma ReversedMeans(dom: Domain, ws: seq<Wff>, env: map<nat, nat>, S: set<GroundFact>)
    ensures Eval(dom, And(Reversed(ws)), env, S) == Eval(dom, And(ws), env, S)
    ensures Eval(dom, Or(Reversed(ws)), env, S) == Eval(dom, Or(ws), env, S)
  {
    hide Eval;
    NodesMean(dom, ws, env, S);
    NodesMean(dom, Reversed(ws), env, S);
    forall x
      ensures x in Reversed(ws) <==> x in ws
    {
      if x in ws {
        var i :| 0 <= i < |ws| && ws[i] == x;
        assert Reversed(ws)[|ws| - 1 - i] == x;
      }
    }
  }

  lemma {:induction false} CopySons(dom: Domain, sons: seq<Wff>, env: map<nat, nat>, S: set<GroundFact>)
    ensures var ws := seq(|sons|, i requires 0 <= i < |sons| => CopyWff(sons[|sons| - 1 - i]));
      Eval(dom, And(ws), env, S) == Eval(dom, And(sons), env, S) && Eval(dom, Or(ws), env, S) == Eval(dom, Or(sons), env, S)
    decreases sons
  {
    hide Eval;
    var ws := seq(|sons|, i requires 0 <= i < |sons| => CopyWff(sons[|sons| - 1 - i]));
    forall i | 0 <= i < |sons|
      ensures Eval(dom, ws[i], env, S) == Eval(dom, Reversed(sons)[i], env, S)
    {
      CopyMeans(dom, sons[|sons| - 1 - i], env, S);
    }
    SonsMean(dom, ws, env, Reversed(sons), env, S);
    ReversedMeans(dom, sons, env, S);
  }

  /** Some hitting set is true exactly if all that was chosen and all sons are true. */
  lemma {:induction false} HitsMean(dom: Domain, sons: seq<Wff>, chosen: seq<Wff>, env: map<nat, nat>, S: set<GroundFact>)
    ensures SomeTrue(dom, Hits(sons, chosen), env, S) == (AllTrue(dom, chosen, env, S) && AllTrue(dom, sons, env, S))
    decreases |sons|, 0
  {
    hide Eval, AllTrue, SomeTrue, Options, AndOf;
    if sons == [] {
      TrueOfNone(dom, env, S);
      TrueOfOne(dom, AndOf(chosen), env, S);
      AndOfMeans(dom, chosen, env, S);
    } else {
      HitsOfMean(dom, Options(sons[0]), sons[1..], chosen, env, S);
      OptionsMean(dom, sons[0], env, S);
      TrueOfOne(dom, sons[0], env, S);
      TrueOfSum(dom, [sons[0]], sons[1..], env, S);
      assert sons == [sons[0]] + sons[1..];
    }
  }

  lemma AndOfMeans(dom: Domain, chosen: seq<Wff>, env: map<nat, nat>, S: set<GroundFact>)
    ensures Eval(dom, AndOf(chosen), env, S) == AllTrue(dom, chosen, env, S)
  {
    hide Eval, AllTrue;
    CopySons(dom, chosen, env, S);
    NodesMean(dom, chosen, env, S);
  }

  lemma OptionsMean(dom: Domain, w: Wff, env: map<nat, nat>, S: set<GroundFact>)
    ensures SomeTrue(dom, Options(w), env, S) == Eval(dom, w, env, S)
  {
    hide Eval, SomeTrue;
    NodesMean(dom, Options(w), env, S);
    TrueOfOne(dom, w, env, S);
  }

  lemma {:induction false} HitsOfMean(dom: Domain, options: seq<Wff>, rest: seq<Wff>, chosen: seq<Wff>,
                                      env: map<nat, nat>, S: set<GroundFact>)
    ensures SomeTrue(dom, HitsOf(options, rest, chosen), env, S)
         == (SomeTrue(dom, options, env, S) && AllTrue(dom, chosen, env, S) && AllTrue(dom, rest, env, S))
    decreases |rest|, 1, |options|
  {
    hide Eval, AllTrue, SomeTrue, Hits;
    if options == [] {
      TrueOfNone(dom, env, S);
    } else {
      var o := options[0];
      HitsOfMean(dom, options[1..], rest, chosen, env, S);
      HitsMean(dom, rest, chosen + [o], env, S);
      TrueOfSum(dom, HitsOf(options[1..], rest, chosen), Hits(rest, chosen + [o]), env, S);
      TrueOfSum(dom, chosen, [o], env, S);
      TrueOfSum(dom, [o], options[1..], env, S);
      TrueOfOne(dom, o, env, S);
      assert options == [o] + options[1..];
    }
  }

  /** Multiplying out keeps the meaning. */
  lemma {:induction false} DnfMeans(dom: Domain, w: Wff, env: map<nat, nat>, S: set<GroundFact>)
    requires QuantifierFree(w)
    ensures Eval(dom, AndsBelowOrs(w), env, S) == Eval(dom, w, env, S)
    decreases w
  {
    match w
    case And(sons) => DnfSons(dom, sons, env, S);
    case Or(sons) => DnfSons(dom, sons, env, S);
    case _ =>
  }

  lemma {:induction false} DnfSons(dom: Domain, sons: seq<Wff>, env: map<nat, nat>, S: set<GroundFact>)
    requires forall i :: 0 <= i < |sons| ==> QuantifierFree(sons[i])
    ensures var ws := seq(|sons|, i requires 0 <= i < |sons| => AndsBelowOrs(sons[i]));
      && Eval(dom, Or(Splice(false, Hits(ws, []))), env, S) == Eval(dom, And(sons), env, S)
      && Eval(dom, And(Splice(true, ws)), env, S) == Eval(dom, And(sons), env, S)
      && Eval(dom, Or(Splice(false, ws)), env, S) == Eval(dom, Or(sons), env, S)
    decreases sons
  {
    hide Eval, QuantifierFree, AllTrue, SomeTrue, Hits;
    var ws := seq(|sons|, i requires 0 <= i < |sons| => AndsBelowOrs(sons[i]));
    forall i | 0 <= i < |sons|
      ensures Eval(dom, ws[i], env, S) == Eval(dom, sons[i], env, S)
    {
      DnfMeans(dom, sons[i], env, S);
    }
    SonsMean(dom, ws, env, sons, env, S);
    SpliceMeans(dom, ws, env, S);
    var hits := Hits(ws, []);
    SpliceMeans(dom, hits, env, S);
    HitsMean(dom, ws, [], env, S);
    TrueOfNone(dom, env, S);
    NodesMean(dom, hits, env, S);
    NodesMean(dom, ws, env, S);
  }

  // ---- the shape

  /** What is_dnf answers: exit for quantifiers and negations, -1, or the number of disjuncts. */
  datatype Shape = Exits | NoDnf | Disjuncts(n: nat)

  predicate AllAtoms(ws: seq<Wff>) {
    forall i :: 0 <= i < |ws| ==> ws[i].Atom?
  }

  /** is_dnf. */
  function IsDnf(w: Wff): Shape {
    match w
    case And(sons) => if AllAtoms(sons) then Disjuncts(1) else NoDnf
    case Or(sons) =>
      if forall i :: 0 <= i < |sons| ==> sons[i].Atom? || (sons[i].And? && AllAtoms(sons[i].sons))
      then Disjuncts(|sons|) else NoDnf
    case Atom(_, _) => Disjuncts(1)
    case Tru => Disjuncts(1)
    case Fal => Disjuncts(1)
    case _ => Exits
  }

  /** Neither quantifiers nor negations. */
  predicate Positive(w: Wff)
    decreases w
  {
    match w
    case And(sons) => forall i :: 0 <= i < |sons| ==> Positive(sons[i])
    case Or(sons) => forall i :: 0 <= i < |sons| ==> Positive(sons[i])
    case Atom(_, _) => true
    case Tru => true
    case Fal => true
    case _ => false
  }

  predicate Plain(w: Wff) {
    w.Atom? || w.Tru? || w.Fal?
  }

  /** Atoms and constants under conjunctions only. */
  predicate ConjTree(w: Wff)
    decreases w
  {
    Plain(w) || (w.And? && forall i :: 0 <= i < |w.sons| ==> ConjTree(w.sons[i]))
  }

  predicate DnfTree(w: Wff) {
    ConjTree(w) || (w.Or? && forall i :: 0 <= i < |w.sons| ==> ConjTree(w.sons[i]))
  }

  predicate AllPlain(ws: seq<Wff>) {
    forall i :: 0 <= i < |ws| ==> Plain(ws[i])
  }

  predicate Flat(w: Wff) {
    Plain(w) || (w.And? && AllPlain(w.sons))
  }

  predicate FlatDnf(w: Wff) {
    Flat(w) || (w.Or? && forall i :: 0 <= i < |w.sons| ==> Flat(w.sons[i]))
  }

  lemma {:induction false} SpliceFrom(conj: bool, ws: seq<Wff>, x: Wff)
    requires x in Splice(conj, ws)
    ensures (x in ws && !(if conj then x.And? else x.Or?))
      || exists w :: w in ws && (if conj then w.And? else w.Or?) && x in w.sons
  {
    assert ws == [ws[0]] + ws[1..];
    if x in Splice(conj, ws[1..]) {
      SpliceFrom(conj, ws[1..], x);
    }
  }

  lemma {:induction false} PositiveIsQuantifierFree(w: Wff)
    requires Positive(w)
    ensures QuantifierFree(w)
    decreases w
  {
    match w
    case And(sons) => forall i | 0 <= i < |sons| ensures QuantifierFree(sons[i]) { PositiveIsQuantifierFree(sons[i]); }
    case Or(sons) => forall i | 0 <= i < |sons| ensures QuantifierFree(sons[i]) { PositiveIsQuantifierFree(sons[i]); }
    case _ =>
  }

  lemma {:induction false} CopyConj(w: Wff)
    requires ConjTree(w)
    ensures ConjTree(CopyWff(w))
    decreases w
  {
    if w.And? {
      forall x | x in w.sons
        ensures ConjTree(CopyWff(x))
      {
        CopyConj(x);
      }
    }
  }

  lemma OptionIsConj(w: Wff, o: Wff)
    requires DnfTree(w) && o in Options(w)
    ensures ConjTree(CopyWff(o))
  {
    CopyConj(o);
  }

  /** Hitting sets of disjunctions of conjunctions are conjunctions. */
  lemma HitsAreConj(ws: seq<Wff>, x: Wff)
    requires (forall i :: 0 <= i < |ws| ==> DnfTree(ws[i])) && x in Hits(ws, [])
    ensures x.And? && ConjTree(x)
  {
    hide ConjTree, DnfTree, Options, Hits, CopyWff;
    HitsAreChoices(ws, []);
    var choice :| IsChoice(ws, choice) && x == AndOf([] + choice);
    assert [] + choice == choice;
    ChoiceIsConj(ws, choice);
  }

  lemma ChoiceIsConj(ws: seq<Wff>, choice: seq<Wff>)
    requires (forall i :: 0 <= i < |ws| ==> DnfTree(ws[i])) && IsChoice(ws, choice)
    ensures ConjTree(AndOf(choice))
  {
    hide ConjTree, DnfTree, Options, CopyWff;
    var x := AndOf(choice);
    forall i | 0 <= i < |x.sons|
      ensures ConjTree(x.sons[i])
    {
      OptionIsConj(ws[|choice| - 1 - i], choice[|choice| - 1 - i]);
    }
    ConjNode(x);
  }

  lemma ConjNode(w: Wff)
    requires w.And? && forall i :: 0 <= i < |w.sons| ==> ConjTree(w.sons[i])
    ensures ConjTree(w)
  {
  }

  lemma SplicedConj(ws: seq<Wff>, i: nat)
    requires (forall k :: 0 <= k < |ws| ==> ConjTree(ws[k])) && i < |Splice(true, ws)|
    ensures ConjTree(Splice(true, ws)[i])
  {
    var x := Splice(true, ws)[i];
    SpliceFrom(true, ws, x);
  }

  lemma SplicedDnf(ws: seq<Wff>, i: nat)
    requires (forall k :: 0 <= k < |ws| ==> DnfTree(ws[k])) && i < |Splice(false, ws)|
    ensures ConjTree(Splice(false, ws)[i])
  {
    var x := Splice(false, ws)[i];
    SpliceFrom(false, ws, x);
  }

  /** Multiplying out leaves at most one disjunction, at the top. */
  lemma {:induction false} DnfShape(w: Wff)
    requires Positive(w)
    ensures QuantifierFree(w) && DnfTree(AndsBelowOrs(w))
    decreases w
  {
    PositiveIsQuantifierFree(w);
    if w.And? || w.Or? {
      var sons := w.sons;
      var ws := seq(|sons|, i requires 0 <= i < |sons| => AndsBelowOrs(sons[i]));
      forall i | 0 <= i < |sons|
        ensures DnfTree(ws[i])
      {
        DnfShape(sons[i]);
      }
      SplicedShape(ws);
    }
  }

  lemma SplicedShape(ws: seq<Wff>)
    requires forall i :: 0 <= i < |ws| ==> DnfTree(ws[i])
    ensures DnfTree(Or(Splice(false, ws)))
    ensures if exists i :: 0 <= i < |ws| && ws[i].Or? then DnfTree(Or(Splice(false, Hits(ws, []))))
      else DnfTree(And(Splice(true, ws)))
  {
    hide ConjTree;
    forall i | 0 <= i < |Splice(false, ws)|
      ensures ConjTree(Splice(false, ws)[i])
    {
      SplicedDnf(ws, i);
    }
    if exists i :: 0 <= i < |ws| && ws[i].Or? {
      var hits := Hits(ws, []);
      forall i | 0 <= i < |hits|
        ensures DnfTree(hits[i])
      {
        HitsAreConj(ws, hits[i]);
      }
      forall i | 0 <= i < |Splice(false, hits)|
        ensures ConjTree(Splice(false, hits)[i])
      {
        SplicedDnf(hits, i);
      }
    } else {
      forall i | 0 <= i < |Splice(true, ws)|
        ensures ConjTree(Splice(true, ws)[i])
      {
        SplicedConj(ws, i);
      }
      ConjNode(And(Splice(true, ws)));
    }
  }

  /** Merging leaves conjunctions of atoms and constants. */
  lemma {:induction false} MergeConj(w: Wff)
    requires ConjTree(w)
    ensures Flat(Merge(w))
    decreases w
  {
    if w.And? {
      var ws := seq(|w.sons|, i requires 0 <= i < |w.sons| => Merge(w.sons[i]));
      forall i | 0 <= i < |ws|
        ensures Flat(ws[i])
      {
        MergeConj(w.sons[i]);
      }
      forall i | 0 <= i < |Splice(true, ws)|
        ensures Plain(Splice(true, ws)[i])
      {
        SpliceFrom(true, ws, Splice(true, ws)[i]);
      }
    }
  }

  lemma MergeDnf(w: Wff)
    requires DnfTree(w)
    ensures FlatDnf(Merge(w))
  {
    if ConjTree(w) {
      MergeConj(w);
    } else {
      var ws := seq(|w.sons|, i requires 0 <= i < |w.sons| => Merge(w.sons[i]));
      forall i | 0 <= i < |ws|
        ensures Flat(ws[i])
      {
        MergeConj(w.sons[i]);
      }
      forall i | 0 <= i < |Splice(false, ws)|
        ensures Flat(Splice(false, ws)[i])
      {
        SpliceFrom(false, ws, Splice(false, ws)[i]);
      }
    }
  }

  lemma TautologiesFlat(w: Wff)
    requires Flat(w)
    ensures Flat(Tautologies(w)) && (w.And? ==> Tautologies(w).And?)
    ensures w.And? && AllAtoms(w.sons) ==> AllAtoms(Tautologies(w).sons)
  {
    if w.And? {
      var ws := seq(|w.sons|, i requires 0 <= i < |w.sons| => Tautologies(w.sons[i]));
      assert ws == w.sons;
      RepeatsElems(ws);
      forall i | 0 <= i < |DropRepeats(ws)|
        ensures Plain(DropRepeats(ws)[i]) && (AllAtoms(ws) ==> DropRepeats(ws)[i].Atom?)
      {
        assert DropRepeats(ws)[i] in ws;
      }
    }
  }

  /** Formulas that is_dnf accepts; TRUE and FALSE stand alone. */
  predicate Clean(w: Wff) {
    IsDnf(w).Disjuncts?
  }

  /** Looking for tautologies keeps the shape, as there are no negations. */
  lemma TautologiesShape(w: Wff)
    requires FlatDnf(w)
    ensures FlatDnf(Tautologies(w)) && (Clean(w) ==> Clean(Tautologies(w)))
  {
    if w.Or? {
      var ws := seq(|w.sons|, i requires 0 <= i < |w.sons| => Tautologies(w.sons[i]));
      forall i | 0 <= i < |ws|
        ensures Flat(ws[i])
        ensures Clean(w) ==> ws[i].Atom? || (ws[i].And? && AllAtoms(ws[i].sons))
      {
        TautologiesFlat(w.sons[i]);
      }
      RepeatsElems(ws);
      forall i | 0 <= i < |DropRepeats(ws)|
        ensures DropRepeats(ws)[i] in ws
      {
        assert DropRepeats(ws)[i] in DropRepeats(ws);
      }
    } else {
      TautologiesFlat(w);
    }
  }

  lemma SimplifyFlat(dom: Domain, w: Wff)
    requires Flat(w)
    ensures var s := Simplify(dom, w); Plain(s) || (s.And? && AllAtoms(s.sons))
  {
    if w.And? {
      var ws := seq(|w.sons|, i requires 0 <= i < |w.sons| => Simplify(dom, w.sons[i]));
      assert AllPlain(ws);
      WithoutElems(ws, Tru);
      var k := Without(ws, Tru);
      if Fal !in ws {
        forall i | 0 <= i < |k|
          ensures k[i].Atom?
        {
          assert k[i] in k;
        }
      }
    }
  }

  lemma SimplifyShape(dom: Domain, w: Wff)
    requires FlatDnf(w)
    ensures Clean(Simplify(dom, w)) && FlatDnf(Simplify(dom, w))
  {
    if w.Or? {
      var ws := seq(|w.sons|, i requires 0 <= i < |w.sons| => Simplify(dom, w.sons[i]));
      forall i | 0 <= i < |ws|
        ensures Plain(ws[i]) || (ws[i].And? && AllAtoms(ws[i].sons))
      {
        SimplifyFlat(dom, w.sons[i]);
      }
      WithoutElems(ws, Fal);
      var k := Without(ws, Fal);
      forall i | 0 <= i < |k|
        ensures k[i] in ws && k[i] != Fal
      {
        assert k[i] in k;
      }
    } else {
      SimplifyFlat(dom, w);
    }
  }

  lemma MergeAtoms(ws: seq<Wff>)
    requires AllAtoms(ws)
    ensures Merge(And(ws)) == And(ws)
  {
    var ms := seq(|ws|, i requires 0 <= i < |ws| => Merge(ws[i]));
    assert ms == ws;
    SpliceNothing(true, ws);
  }

  lemma {:induction false} SpliceNothing(conj: bool, ws: seq<Wff>)
    requires forall i :: 0 <= i < |ws| ==> !(if conj then ws[i].And? else ws[i].Or?)
    ensures Splice(conj, ws) == ws
  {
    if ws != [] {
      SpliceNothing(conj, ws[1..]);
      assert ws == [ws[0]] + ws[1..];
    }
  }

  lemma MergeClean(w: Wff)
    requires Clean(w)
    ensures Merge(w) == w
  {
    match w
    case And(sons) => MergeAtoms(sons);
    case Or(sons) =>
      var ms := seq(|sons|, i requires 0 <= i < |sons| => Merge(sons[i]));
      forall i | 0 <= i < |sons|
        ensures ms[i] == sons[i]
      {
        if sons[i].And? {
          MergeAtoms(sons[i].sons);
        }
      }
      assert ms == sons;
      SpliceNothing(false, sons);
    case _ =>
  }

  /** Conversion and cleanup of any formula without quantifiers and negations give a formula that
      is_dnf accepts, with the same truth value in every state that respects the static facts. */
  lemma DnfIsRight(dom: Domain, w: Wff)
    requires Positive(w) && TypesInhabited(dom)
    ensures QuantifierFree(w) && IsDnf(Cleanup(dom, AndsBelowOrs(w))).Disjuncts?
    ensures forall env, S :: StaticOk(dom, S) ==>
      Eval(dom, Cleanup(dom, AndsBelowOrs(w)), env, S) == Eval(dom, w, env, S)
  {
    hide Eval, StaticOk, TypesInhabited, Positive, DnfTree, FlatDnf;
    DnfShape(w);
    var a := AndsBelowOrs(w);
    forall env, S | StaticOk(dom, S)
      ensures Eval(dom, Cleanup(dom, a), env, S) == Eval(dom, w, env, S)
    {
      DnfMeans(dom, w, env, S);
      CleanupMeans(dom, a, env, S);
    }
    CleanupShape(dom, a);
  }

  lemma CleanupShape(dom: Domain, w: Wff)
    requires DnfTree(w)
    ensures Clean(Cleanup(dom, w))
  {
    hide DnfTree, FlatDnf, Clean;
    var b := Merge(w);
    MergeDnf(w);
    TautologiesShape(b);
    var c := Simplify(dom, Tautologies(b));
    SimplifyShape(dom, Tautologies(b));
    TautologiesShape(c);
    MergeClean(Tautologies(c));
  }
}
