/** What the passes of inst_pre.c leave of a formula. */
module NormalForm {
  import opened Formulas
  import opened Normalize

  // ---- what the static facts decide

  ghost predicate CanBeTrue(dom: Domain, f: Fact) {
    exists env, S :: StaticOk(dom, S) && Ground(f, env) in S
  }

  ghost predicate CanBeFalse(dom: Domain, f: Fact) {
    exists env, S :: StaticOk(dom, S) && Ground(f, env) !in S
  }

  /** The tuple is an instance of the arguments: unlike `Matches`, with equal constants for equal variables. */
  ghost predicate IsInstance(args: seq<int>, tuple: seq<nat>) {
    Matches(args, tuple) && forall j, k :: 0 <= j < k < |args| && args[j] == args[k] ==> tuple[j] == tuple[k]
  }

  ghost predicate HasInstance(dom: Domain, f: Fact) {
    exists i :: 0 <= i < |dom.initial(f.pred)| && IsInstance(f.args, dom.initial(f.pred)[i])
  }

  /** Initial facts match a never-added predicate, but each has different constants for some variable. */
  ghost predicate OnlyMatches(dom: Domain, f: Fact) {
    PossiblyPositive(dom, f) && !dom.isAdded(f.pred) && !HasInstance(dom, f)
  }

  /** A fact may be missing unless it is initial and never deleted. */
  lemma TakeAway(dom: Domain, S: set<GroundFact>, g: GroundFact)
    requires StaticOk(dom, S) && (dom.isDeleted(g.pred) || g.args !in dom.initial(g.pred))
    ensures StaticOk(dom, S - {g})
  {
  }

  /** A fact may be there unless it is not initial and never added. */
  lemma PutIn(dom: Domain, S: set<GroundFact>, g: GroundFact)
    requires StaticOk(dom, S) && (dom.isAdded(g.pred) || g.args in dom.initial(g.pred))
    ensures StaticOk(dom, S + {g})
  {
  }

  /** A number that is at place `j` of no tuple. */
  function Unused(tuples: seq<seq<nat>>, j: nat): (m: nat)
    ensures forall i :: 0 <= i < |tuples| && j < |tuples[i]| ==> tuples[i][j] < m
  {
    if tuples == [] then 0
    else
      var t, m := tuples[|tuples| - 1], Unused(tuples[..|tuples| - 1], j);
      if j < |t| && t[j] >= m then t[j] + 1 else m
  }

  lemma NegativeIsFalse(dom: Domain, f: Fact, S: set<GroundFact>)
    requires StaticOk(dom, S) && PossiblyNegative(dom, f)
    ensures CanBeFalse(dom, f)
  {
    var env: map<nat, nat> := map[];
    if !dom.isDeleted(f.pred) {
      if j: nat :| j < |f.args| && f.args[j] < 0 {
        env := map[DecodeVar(f.args[j]) := Unused(dom.initial(f.pred), j)];
        assert Ground(f, env).args[j] == Unused(dom.initial(f.pred), j);
      } else {
        forall i | 0 <= i < |dom.initial(f.pred)|
          ensures dom.initial(f.pred)[i] != Ground(f, env).args
        {
          assert !Matches(f.args, dom.initial(f.pred)[i]);
        }
      }
    }
    TakeAway(dom, S, Ground(f, env));
    assert Ground(f, env) !in S - {Ground(f, env)};
  }

  /** The values that make the arguments the tuple. */
  ghost function Binding(args: seq<int>, tuple: seq<nat>): map<nat, nat>
    requires |args| == |tuple|
  {
    if args == [] then map[]
    else
      var n := |args| - 1;
      var env := Binding(args[..n], tuple[..n]);
      if args[n] < 0 then env[DecodeVar(args[n]) := tuple[n]] else env
  }

  lemma {:induction false} BindingIs(args: seq<int>, tuple: seq<nat>, j: nat)
    requires IsInstance(args, tuple) && j < |args|
    ensures ArgValue(Binding(args, tuple), args[j]) == tuple[j]
  {
    var n: nat := |args| - 1;
    if j < n {
      BindingIs(args[..n], tuple[..n], j);
      assert args[j] == args[n] ==> tuple[j] == tuple[n];
    }
  }

  lemma InstanceIsTrue(dom: Domain, f: Fact, S: set<GroundFact>)
    requires StaticOk(dom, S) && (dom.isAdded(f.pred) || HasInstance(dom, f))
    ensures CanBeTrue(dom, f)
  {
    var env: map<nat, nat> := map[];
    if !dom.isAdded(f.pred) {
      var i :| 0 <= i < |dom.initial(f.pred)| && IsInstance(f.args, dom.initial(f.pred)[i]);
      var tuple := dom.initial(f.pred)[i];
      env := Binding(f.args, tuple);
      forall j | 0 <= j < |f.args|
        ensures ArgValue(env, f.args[j]) == tuple[j]
      {
        BindingIs(f.args, tuple, j);
      }
      assert Ground(f, env).args == tuple;
    }
    PutIn(dom, S, Ground(f, env));
    assert Ground(f, env) in S + {Ground(f, env)};
  }

  lemma TrueIsInstance(dom: Domain, f: Fact)
    requires CanBeTrue(dom, f)
    ensures dom.isAdded(f.pred) || HasInstance(dom, f)
  {
    var env, S :| StaticOk(dom, S) && Ground(f, env) in S;
    var g := Ground(f, env);
    if !dom.isAdded(f.pred) {
      assert g.args in dom.initial(g.pred);
      var i :| 0 <= i < |dom.initial(f.pred)| && dom.initial(f.pred)[i] == g.args;
      assert IsInstance(f.args, dom.initial(f.pred)[i]);
    }
  }

  /** Simplification decides an atom exactly as the static facts do, where there is a state that respects
      them; except that it leaves an atom open that only initial facts match which disagree on a variable. */
  lemma AtomsDecided(dom: Domain, f: Fact, S: set<GroundFact>)
    requires StaticOk(dom, S)
    ensures StaticAtom(dom, f) == Tru <==> !CanBeFalse(dom, f)
    ensures StaticAtom(dom, f) == Fal <==> !CanBeTrue(dom, f) && !OnlyMatches(dom, f)
    ensures OnlyMatches(dom, f) ==> !CanBeTrue(dom, f)
  {
    if CanBeFalse(dom, f) {
      var env, S' :| StaticOk(dom, S') && Ground(f, env) !in S';
      StaticAtoms(dom, f, env, S');
    }
    if PossiblyNegative(dom, f) {
      NegativeIsFalse(dom, f, S);
    }
    if CanBeTrue(dom, f) {
      var env, S' :| StaticOk(dom, S') && Ground(f, env) in S';
      StaticAtoms(dom, f, env, S');
      TrueIsInstance(dom, f);
    }
    if dom.isAdded(f.pred) || HasInstance(dom, f) {
      InstanceIsTrue(dom, f, S);
    }
    if !PossiblyNegative(dom, f) {
      var i :| 0 <= i < |dom.initial(f.pred)| && Matches(f.args, dom.initial(f.pred)[i]);
      assert IsInstance(f.args, dom.initial(f.pred)[i]);
    }
  }

  /** The atom p(x, x) of a never-added predicate with the one initial fact p(0, 1) is never true and stays. */
  lemma RepeatsAreMissed(dom: Domain)
    requires !dom.isAdded(0) && dom.initial(0) == [[0, 1]]
    ensures var f := Fact(0, [-1, -1]); StaticAtom(dom, f) == Atom(f, true) && !CanBeTrue(dom, f)
  {
    var f := Fact(0, [-1, -1]);
    assert f.args[0] < 0 && Matches(f.args, dom.initial(0)[0]);
    assert f.args[0] == f.args[1] && !IsInstance(f.args, [0, 1]);
    if CanBeTrue(dom, f) {
      TrueIsInstance(dom, f);
    }
  }

  // ---- simplification

  /** The static facts decide the atom neither way. */
  predicate IsOpen(dom: Domain, f: Fact) {
    PossiblyPositive(dom, f) && PossiblyNegative(dom, f)
  }

  lemma OpenMeans(dom: Domain, f: Fact, S: set<GroundFact>)
    requires StaticOk(dom, S)
    ensures IsOpen(dom, f) <==> CanBeFalse(dom, f) && (CanBeTrue(dom, f) || OnlyMatches(dom, f))
  {
    AtomsDecided(dom, f, S);
  }

  /** Every atom is marked and open; with `all` false, every atom that is marked is open. */
  predicate AtomsOpen(dom: Domain, w: Wff, all: bool)
    decreases w
  {
    match w
    case All(_, _, son) => AtomsOpen(dom, son, all)
    case Ex(_, _, son) => AtomsOpen(dom, son, all)
    case And(sons) => forall i :: 0 <= i < |sons| ==> AtomsOpen(dom, sons[i], all)
    case Or(sons) => forall i :: 0 <= i < |sons| ==> AtomsOpen(dom, sons[i], all)
    case Not(son) => AtomsOpen(dom, son, all)
    case Atom(f, visited) => if visited then IsOpen(dom, f) else !all
    case _ => true
  }

  /** No constant is left, and every AND and OR has two sons at least. */
  predicate Pruned(w: Wff)
    decreases w
  {
    match w
    case All(_, _, son) => Pruned(son)
    case Ex(_, _, son) => Pruned(son)
    case And(sons) => |sons| >= 2 && forall i :: 0 <= i < |sons| ==> Pruned(sons[i])
    case Or(sons) => |sons| >= 2 && forall i :: 0 <= i < |sons| ==> Pruned(sons[i])
    case Not(son) => Pruned(son)
    case Atom(_, _) => true
    case _ => false
  }

  predicate Simple(w: Wff) {
    w.Tru? || w.Fal? || Pruned(w)
  }

  lemma NodesPruned(ws: seq<Wff>)
    requires forall i :: 0 <= i < |ws| ==> Simple(ws[i])
    ensures Simple(Conj(ws)) && Simple(Disj(ws))
  {
    hide Pruned;
    WithoutElems(ws, Tru);
    WithoutElems(ws, Fal);
    forall c, k | c in [Tru, Fal] && 0 <= k < |Without(ws, c)|
      ensures Without(ws, c)[k] in ws && Without(ws, c)[k] != c
    {
      assert Without(ws, c)[k] in Without(ws, c);
    }
    assert Tru in [Tru, Fal] && Fal in [Tru, Fal];
    if Fal !in ws {
      AllPruned(Without(ws, Tru));
    }
    if Tru !in ws {
      AllPruned(Without(ws, Fal));
    }
  }

  lemma AllPruned(ws: seq<Wff>)
    requires forall k :: 0 <= k < |ws| ==> Simple(ws[k]) && ws[k] != Tru && ws[k] != Fal
    ensures (forall k :: 0 <= k < |ws| ==> Pruned(ws[k])) && (|ws| >= 2 ==> Pruned(And(ws)) && Pruned(Or(ws)))
  {
  }

  /** Simplification leaves a constant, or a formula without constants and without nodes of a single son. */
  lemma {:induction false} SimplifyIsSimple(dom: Domain, w: Wff)
    ensures Simple(Simplify(dom, w))
    decreases w
  {
    match w
    case All(_, _, son) => SimplifyIsSimple(dom, son);
    case Ex(_, _, son) => SimplifyIsSimple(dom, son);
    case And(sons) => SonsAreSimple(dom, sons);
    case Or(sons) => SonsAreSimple(dom, sons);
    case Not(son) => SimplifyIsSimple(dom, son);
    case _ =>
  }

  lemma {:induction false} SonsAreSimple(dom: Domain, sons: seq<Wff>)
    ensures Simple(Simplify(dom, And(sons))) && Simple(Simplify(dom, Or(sons)))
    decreases sons
  {
    hide Simple, Conj, Disj;
    var ws := seq(|sons|, i requires 0 <= i < |sons| => Simplify(dom, sons[i]));
    forall i | 0 <= i < |sons|
      ensures Simple(ws[i])
    {
      SimplifyIsSimple(dom, sons[i]);
    }
    NodesPruned(ws);
  }

  lemma NodesOpen(dom: Domain, ws: seq<Wff>)
    requires forall i :: 0 <= i < |ws| ==> AtomsOpen(dom, ws[i], true)
    ensures AtomsOpen(dom, Conj(ws), true) && AtomsOpen(dom, Disj(ws), true)
  {
    WithoutElems(ws, Tru);
    WithoutElems(ws, Fal);
    forall c, k | c in [Tru, Fal] && 0 <= k < |Without(ws, c)|
      ensures AtomsOpen(dom, Without(ws, c)[k], true)
    {
      assert Without(ws, c)[k] in Without(ws, c);
    }
    assert Tru in [Tru, Fal] && Fal in [Tru, Fal];
  }

  /** No atom that simplification leaves is decided by the static facts. */
  lemma {:induction false} SimplifyOpens(dom: Domain, w: Wff)
    requires AtomsOpen(dom, w, false)
    ensures AtomsOpen(dom, Simplify(dom, w), true)
    decreases w
  {
    match w
    case All(_, _, son) => SimplifyOpens(dom, son);
    case Ex(_, _, son) => SimplifyOpens(dom, son);
    case And(sons) => SimplifyOpensSons(dom, sons);
    case Or(sons) => SimplifyOpensSons(dom, sons);
    case Not(son) => SimplifyOpens(dom, son);
    case _ =>
  }

  lemma {:induction false} SimplifyOpensSons(dom: Domain, sons: seq<Wff>)
    requires forall i :: 0 <= i < |sons| ==> AtomsOpen(dom, sons[i], false)
    ensures AtomsOpen(dom, Simplify(dom, And(sons)), true) && AtomsOpen(dom, Simplify(dom, Or(sons)), true)
    decreases sons
  {
    hide Conj, Disj;
    var ws := seq(|sons|, i requires 0 <= i < |sons| => Simplify(dom, sons[i]));
    forall i | 0 <= i < |sons|
      ensures AtomsOpen(dom, ws[i], true)
    {
      SimplifyOpens(dom, sons[i]);
    }
    NodesOpen(dom, ws);
  }

  // ---- tautologies and merging

  /** Among the sons of an AND or OR there is no atom twice, and no atom with its negation. */
  predicate NoTautology(w: Wff)
    decreases w
  {
    match w
    case All(_, _, son) => NoTautology(son)
    case Ex(_, _, son) => NoTautology(son)
    case And(sons) => NoTwins(sons) && !HasComplement(sons) && forall i :: 0 <= i < |sons| ==> NoTautology(sons[i])
    case Or(sons) => NoTwins(sons) && !HasComplement(sons) && forall i :: 0 <= i < |sons| ==> NoTautology(sons[i])
    case Not(son) => NoTautology(son)
    case _ => true
  }

  predicate NoTwins(ws: seq<Wff>) {
    forall i, j :: 0 <= i < j < |ws| ==> !IdenticalAtoms(ws[i], ws[j])
  }

  lemma {:induction false} RepeatsDropped(ws: seq<Wff>)
    ensures NoTwins(DropRepeats(ws))
    decreases |ws|
  {
    if ws != [] {
      TwinsElems(ws[1..], ws[0]);
      var rest := WithoutTwins(ws[1..], ws[0]);
      RepeatsDropped(rest);
      RepeatsElems(rest);
      forall j | 0 <= j < |DropRepeats(rest)|
        ensures !IdenticalAtoms(ws[0], DropRepeats(rest)[j])
      {
        assert DropRepeats(rest)[j] in rest;
      }
    }
  }

  lemma NoComplementLeft(ws: seq<Wff>)
    requires !HasComplement(ws)
    ensures !HasComplement(DropRepeats(ws))
  {
    RepeatsElems(ws);
    var ds := DropRepeats(ws);
    forall i, j | 0 <= i < |ds| && 0 <= j < |ds| && ds[i].Not?
      ensures !IdenticalAtoms(ds[i].son, ds[j])
    {
      assert ds[i] in ws && ds[j] in ws;
      var a :| 0 <= a < |ws| && ws[a] == ds[i];
      var b :| 0 <= b < |ws| && ws[b] == ds[j];
      assert !IdenticalAtoms(ws[a].son, ws[b]);
    }
  }

  lemma CleanNode(ds: seq<Wff>)
    requires NoTwins(ds) && !HasComplement(ds) && forall i :: 0 <= i < |ds| ==> NoTautology(ds[i])
    ensures NoTautology(And(ds)) && NoTautology(Or(ds))
  {
    hide NoTwins, HasComplement;
  }

  lemma NodeClean(ws: seq<Wff>)
    requires forall i :: 0 <= i < |ws| ==> NoTautology(ws[i])
    ensures NoTautology(if HasComplement(ws) then Fal else And(DropRepeats(ws)))
    ensures NoTautology(if HasComplement(ws) then Tru else Or(DropRepeats(ws)))
  {
    hide HasComplement, NoTwins, DropRepeats, IdenticalAtoms;
    if !HasComplement(ws) {
      RepeatsDropped(ws);
      NoComplementLeft(ws);
      RepeatsElems(ws);
      forall i | 0 <= i < |DropRepeats(ws)|
        ensures NoTautology(DropRepeats(ws)[i])
      {
        assert DropRepeats(ws)[i] in ws;
      }
      CleanNode(DropRepeats(ws));
    }
  }

  /** After the pass no node has a repeated atom or a complementary pair. */
  lemma {:induction false} TautologiesGone(w: Wff)
    ensures NoTautology(Tautologies(w))
    decreases w
  {
    match w
    case All(_, _, son) => TautologiesGone(son);
    case Ex(_, _, son) => TautologiesGone(son);
    case And(sons) => TautologiesGoneSons(sons);
    case Or(sons) => TautologiesGoneSons(sons);
    case Not(son) => TautologiesGone(son);
    case _ =>
  }

  lemma {:induction false} TautologiesGoneSons(sons: seq<Wff>)
    ensures NoTautology(Tautologies(And(sons))) && NoTautology(Tautologies(Or(sons)))
    decreases sons
  {
    hide NoTautology, HasComplement;
    var ws := seq(|sons|, i requires 0 <= i < |sons| => Tautologies(sons[i]));
    forall i | 0 <= i < |sons|
      ensures NoTautology(ws[i])
    {
      TautologiesGone(sons[i]);
    }
    NodeClean(ws);
  }

  /** No AND directly below an AND, no OR directly below an OR. */
  predicate Flat(w: Wff)
    decreases w
  {
    match w
    case All(_, _, son) => Flat(son)
    case Ex(_, _, son) => Flat(son)
    case And(sons) => forall i :: 0 <= i < |sons| ==> !sons[i].And? && Flat(sons[i])
    case Or(sons) => forall i :: 0 <= i < |sons| ==> !sons[i].Or? && Flat(sons[i])
    case Not(son) => Flat(son)
    case _ => true
  }

  lemma {:induction false} SpliceFlat(conj: bool, ws: seq<Wff>)
    requires forall i :: 0 <= i < |ws| ==> Flat(ws[i])
    ensures Flat(if conj then And(Splice(conj, ws)) else Or(Splice(conj, ws)))
  {
    if ws != [] {
      SpliceFlat(conj, ws[1..]);
      var head := if (if conj then ws[0].And? else ws[0].Or?) then ws[0].sons else [ws[0]];
      var rest := Splice(conj, ws[1..]);
      assert Flat(if conj then And(rest) else Or(rest));
      forall i | 0 <= i < |head + rest|
        ensures Flat((head + rest)[i]) && !(if conj then (head + rest)[i].And? else (head + rest)[i].Or?)
      {
        if i >= |head| {
          assert (head + rest)[i] == rest[i - |head|];
        }
      }
    }
  }

  /** Merging leaves no node below one of its own kind. */
  lemma {:induction false} MergeIsFlat(w: Wff)
    ensures Flat(Merge(w))
    decreases w
  {
    match w
    case All(_, _, son) => MergeIsFlat(son);
    case Ex(_, _, son) => MergeIsFlat(son);
    case And(sons) => MergeSonsFlat(sons);
    case Or(sons) => MergeSonsFlat(sons);
    case Not(son) => MergeIsFlat(son);
    case _ =>
  }

  lemma {:induction false} MergeSonsFlat(sons: seq<Wff>)
    ensures Flat(Merge(And(sons))) && Flat(Merge(Or(sons)))
    decreases sons
  {
    hide Flat, Splice;
    var ws := seq(|sons|, i requires 0 <= i < |sons| => Merge(sons[i]));
    forall i | 0 <= i < |sons|
      ensures Flat(ws[i])
    {
      MergeIsFlat(sons[i]);
    }
    SpliceFlat(true, ws);
    SpliceFlat(false, ws);
  }

  lemma SpliceElems(conj: bool, ws: seq<Wff>, x: Wff)
    requires x in Splice(conj, ws)
    ensures x in ws || exists y :: y in ws && (if conj then y.And? else y.Or?) && x in y.sons
  {
    if ws != [] {
      var head := if (if conj then ws[0].And? else ws[0].Or?) then ws[0].sons else [ws[0]];
      if x !in head {
        SpliceElems(conj, ws[1..], x);
      }
    }
  }

  lemma SplicedOpen(dom: Domain, conj: bool, ws: seq<Wff>, all: bool)
    requires forall i :: 0 <= i < |ws| ==> AtomsOpen(dom, ws[i], all)
    ensures forall i :: 0 <= i < |Splice(conj, ws)| ==> AtomsOpen(dom, Splice(conj, ws)[i], all)
  {
    forall i | 0 <= i < |Splice(conj, ws)|
      ensures AtomsOpen(dom, Splice(conj, ws)[i], all)
    {
      SpliceElems(conj, ws, Splice(conj, ws)[i]);
    }
  }

  lemma {:induction false} MergeOpens(dom: Domain, w: Wff, all: bool)
    requires AtomsOpen(dom, w, all)
    ensures AtomsOpen(dom, Merge(w), all)
    decreases w
  {
    match w
    case All(_, _, son) => MergeOpens(dom, son, all);
    case Ex(_, _, son) => MergeOpens(dom, son, all);
    case And(sons) => MergeOpensSons(dom, sons, all);
    case Or(sons) => MergeOpensSons(dom, sons, all);
    case Not(son) => MergeOpens(dom, son, all);
    case _ =>
  }

  lemma {:induction false} MergeOpensSons(dom: Domain, sons: seq<Wff>, all: bool)
    requires forall i :: 0 <= i < |sons| ==> AtomsOpen(dom, sons[i], all)
    ensures AtomsOpen(dom, Merge(And(sons)), all) && AtomsOpen(dom, Merge(Or(sons)), all)
    decreases sons
  {
    hide Splice;
    var ws := seq(|sons|, i requires 0 <= i < |sons| => Merge(sons[i]));
    forall i | 0 <= i < |sons|
      ensures AtomsOpen(dom, ws[i], all)
    {
      MergeOpens(dom, sons[i], all);
    }
    SplicedOpen(dom, true, ws, all);
    SplicedOpen(dom, false, ws, all);
  }

  lemma {:induction false} TautologiesOpen(dom: Domain, w: Wff, all: bool)
    requires AtomsOpen(dom, w, all)
    ensures AtomsOpen(dom, Tautologies(w), all)
    decreases w
  {
    match w
    case All(_, _, son) => TautologiesOpen(dom, son, all);
    case Ex(_, _, son) => TautologiesOpen(dom, son, all);
    case And(sons) => TautologiesOpenSons(dom, sons, all);
    case Or(sons) => TautologiesOpenSons(dom, sons, all);
    case Not(son) => TautologiesOpen(dom, son, all);
    case _ =>
  }

  lemma {:induction false} TautologiesOpenSons(dom: Domain, sons: seq<Wff>, all: bool)
    requires forall i :: 0 <= i < |sons| ==> AtomsOpen(dom, sons[i], all)
    ensures AtomsOpen(dom, Tautologies(And(sons)), all) && AtomsOpen(dom, Tautologies(Or(sons)), all)
    decreases sons
  {
    hide HasComplement;
    var ws := seq(|sons|, i requires 0 <= i < |sons| => Tautologies(sons[i]));
    forall i | 0 <= i < |sons|
      ensures AtomsOpen(dom, ws[i], all)
    {
      TautologiesOpen(dom, sons[i], all);
    }
    RepeatsElems(ws);
    forall i | 0 <= i < |DropRepeats(ws)|
      ensures AtomsOpen(dom, DropRepeats(ws)[i], all)
    {
      assert DropRepeats(ws)[i] in ws;
    }
  }

  /** The cleanup leaves no atom that the static facts decide, and no node below one of its own kind. */
  lemma CleanupForm(dom: Domain, w: Wff)
    requires AtomsOpen(dom, w, false)
    ensures AtomsOpen(dom, Cleanup(dom, w), true) && Flat(Cleanup(dom, w))
  {
    hide AtomsOpen, Flat;
    MergeOpens(dom, w, false);
    TautologiesOpen(dom, Merge(w), false);
    var c := Simplify(dom, Tautologies(Merge(w)));
    SimplifyOpens(dom, Tautologies(Merge(w)));
    TautologiesOpen(dom, c, true);
    MergeOpens(dom, Tautologies(c), true);
    MergeIsFlat(Tautologies(c));
  }

  // ---- unused variables

  /** Every quantifier binds a variable that occurs below it. */
  predicate AllUsed(w: Wff)
    decreases w
  {
    match w
    case All(v, _, son) => Used(EncodeVar(v), son) && AllUsed(son)
    case Ex(v, _, son) => Used(EncodeVar(v), son) && AllUsed(son)
    case And(sons) => forall i :: 0 <= i < |sons| ==> AllUsed(sons[i])
    case Or(sons) => forall i :: 0 <= i < |sons| ==> AllUsed(sons[i])
    case Not(son) => AllUsed(son)
    case _ => true
  }

  /** A variable that is used is so under its new number. */
  lemma {:induction false} DecrementUsed(v: nat, w: Wff, d: nat, u: nat)
    requires Numbered(w, d) && v < d && u != v && Used(EncodeVar(u), w)
    ensures Used(EncodeVar(Renumbered(v, u)), Decrement(v, w, d))
    decreases w
  {
    match w
    case All(_, _, son) => DecrementUsed(v, son, d + 1, u);
    case Ex(_, _, son) => DecrementUsed(v, son, d + 1, u);
    case And(sons) =>
      var i :| 0 <= i < |sons| && Used(EncodeVar(u), sons[i]);
      DecrementUsed(v, sons[i], d, u);
      assert Used(EncodeVar(Renumbered(v, u)), Decrement(v, w, d).sons[i]);
    case Or(sons) =>
      var i :| 0 <= i < |sons| && Used(EncodeVar(u), sons[i]);
      DecrementUsed(v, sons[i], d, u);
      assert Used(EncodeVar(Renumbered(v, u)), Decrement(v, w, d).sons[i]);
    case Not(son) => DecrementUsed(v, son, d, u);
    case Atom(f, _) =>
      var j :| 0 <= j < |f.args| && f.args[j] < 0 && f.args[j] == EncodeVar(u);
      assert DecrementFact(v, f).args[j] == EncodeVar(Renumbered(v, u));
    case _ =>
  }

  lemma {:induction false} DecrementAllUsed(v: nat, w: Wff, d: nat)
    requires Numbered(w, d) && v < d && AllUsed(w)
    ensures AllUsed(Decrement(v, w, d))
    decreases w
  {
    match w
    case All(u, _, son) =>
      DecrementAllUsed(v, son, d + 1);
      DecrementUsed(v, son, d + 1, u);
    case Ex(u, _, son) =>
      DecrementAllUsed(v, son, d + 1);
      DecrementUsed(v, son, d + 1, u);
    case And(sons) => forall i | 0 <= i < |sons| ensures AllUsed(Decrement(v, sons[i], d)) { DecrementAllUsed(v, sons[i], d); }
    case Or(sons) => forall i | 0 <= i < |sons| ensures AllUsed(Decrement(v, sons[i], d)) { DecrementAllUsed(v, sons[i], d); }
    case Not(son) => DecrementAllUsed(v, son, d);
    case _ =>
  }

  /** No quantifier over an unused variable is left. */
  lemma {:induction false} UnusedAreGone(w: Wff, d: nat)
    requires Numbered(w, d)
    ensures AllUsed(RemoveUnused(w, d))
    decreases w, 0
  {
    match w
    case All(v, _, son) => UnusedOneGone(son, d, v);
    case Ex(v, _, son) => UnusedOneGone(son, d, v);
    case And(sons) => forall i | 0 <= i < |sons| ensures AllUsed(RemoveUnused(sons[i], d)) { UnusedAreGone(sons[i], d); }
    case Or(sons) => forall i | 0 <= i < |sons| ensures AllUsed(RemoveUnused(sons[i], d)) { UnusedAreGone(sons[i], d); }
    case Not(son) => UnusedAreGone(son, d);
    case _ =>
  }

  lemma {:induction false} UnusedOneGone(son: Wff, d: nat, v: nat)
    requires Numbered(son, d + 1) && v == d
    ensures var s := RemoveUnused(son, d + 1); AllUsed(s) && (!Used(EncodeVar(v), s) ==> AllUsed(Decrement(v, s, d + 1)))
    decreases son, 1
  {
    UnusedAreGone(son, d + 1);
    DecrementAllUsed(v, RemoveUnused(son, d + 1), d + 1);
  }

  // ---- the whole normalisation

  lemma DecrementOpen(dom: Domain, v: nat, f: Fact)
    ensures IsOpen(dom, DecrementFact(v, f)) <==> IsOpen(dom, f)
  {
    var f' := DecrementFact(v, f);
    assert forall j :: 0 <= j < |f.args| ==> (f'.args[j] < 0 <==> f.args[j] < 0) && (f.args[j] >= 0 ==> f'.args[j] == f.args[j]);
    assert forall tuple: seq<nat> :: Matches(f'.args, tuple) <==> Matches(f.args, tuple);
  }

  lemma {:induction false} DecrementOpens(dom: Domain, v: nat, w: Wff, d: nat, all: bool)
    requires Numbered(w, d) && v < d && AtomsOpen(dom, w, all)
    ensures AtomsOpen(dom, Decrement(v, w, d), all)
    decreases w
  {
    match w
    case All(_, _, son) => DecrementOpens(dom, v, son, d + 1, all);
    case Ex(_, _, son) => DecrementOpens(dom, v, son, d + 1, all);
    case And(sons) =>
      forall i | 0 <= i < |sons|
        ensures AtomsOpen(dom, Decrement(v, sons[i], d), all)
      {
        DecrementOpens(dom, v, sons[i], d, all);
      }
    case Or(sons) =>
      forall i | 0 <= i < |sons|
        ensures AtomsOpen(dom, Decrement(v, sons[i], d), all)
      {
        DecrementOpens(dom, v, sons[i], d, all);
      }
    case Not(son) => DecrementOpens(dom, v, son, d, all);
    case Atom(f, _) => DecrementOpen(dom, v, f);
    case _ =>
  }

  lemma {:induction false} RemoveUnusedOpens(dom: Domain, w: Wff, d: nat, all: bool)
    requires Numbered(w, d) && AtomsOpen(dom, w, all)
    ensures AtomsOpen(dom, RemoveUnused(w, d), all)
    decreases w
  {
    match w
    case All(v, _, son) =>
      RemoveUnusedOpens(dom, son, d + 1, all);
      DecrementOpens(dom, v, RemoveUnused(son, d + 1), d + 1, all);
    case Ex(v, _, son) =>
      RemoveUnusedOpens(dom, son, d + 1, all);
      DecrementOpens(dom, v, RemoveUnused(son, d + 1), d + 1, all);
    case And(sons) =>
      forall i | 0 <= i < |sons|
        ensures AtomsOpen(dom, RemoveUnused(sons[i], d), all)
      {
        RemoveUnusedOpens(dom, sons[i], d, all);
      }
    case Or(sons) =>
      forall i | 0 <= i < |sons|
        ensures AtomsOpen(dom, RemoveUnused(sons[i], d), all)
      {
        RemoveUnusedOpens(dom, sons[i], d, all);
      }
    case Not(son) => RemoveUnusedOpens(dom, son, d, all);
    case _ =>
  }

  /** Putting in a constant decides every atom that the static facts now decide. */
  lemma {:induction false} SubstituteOpens(dom: Domain, w: Wff, v: nat, c: nat)
    requires AtomsOpen(dom, w, false)
    ensures AtomsOpen(dom, Substitute(dom, w, v, c), true)
    decreases w
  {
    match w
    case All(_, _, son) => SubstituteOpens(dom, son, v, c);
    case Ex(_, _, son) => SubstituteOpens(dom, son, v, c);
    case And(sons) =>
      forall i | 0 <= i < |sons|
        ensures AtomsOpen(dom, Substitute(dom, sons[i], v, c), true)
      {
        SubstituteOpens(dom, sons[i], v, c);
      }
    case Or(sons) =>
      forall i | 0 <= i < |sons|
        ensures AtomsOpen(dom, Substitute(dom, sons[i], v, c), true)
      {
        SubstituteOpens(dom, sons[i], v, c);
      }
    case Not(son) => SubstituteOpens(dom, son, v, c);
    case _ =>
  }

  lemma {:induction false} MarkedOpen(dom: Domain, w: Wff)
    requires AtomsOpen(dom, w, true)
    ensures AtomsOpen(dom, w, false)
    decreases w
  {
    match w
    case All(_, _, son) => MarkedOpen(dom, son);
    case Ex(_, _, son) => MarkedOpen(dom, son);
    case And(sons) => forall i | 0 <= i < |sons| ensures AtomsOpen(dom, sons[i], false) { MarkedOpen(dom, sons[i]); }
    case Or(sons) => forall i | 0 <= i < |sons| ensures AtomsOpen(dom, sons[i], false) { MarkedOpen(dom, sons[i]); }
    case Not(son) => MarkedOpen(dom, son);
    case _ =>
  }

  lemma {:induction false} ExpandOpens(dom: Domain, w: Wff, d: nat)
    requires Scoped(w, d) && AtomsOpen(dom, w, true)
    ensures AtomsOpen(dom, Expand(dom, w, d), true)
    decreases Height(w), 0
  {
    match w
    case All(v, ty, son) => CopiesOpen(dom, son, v, dom.consts(ty));
    case Ex(v, ty, son) => CopiesOpen(dom, son, v, dom.consts(ty));
    case And(sons) =>
      forall i | 0 <= i < |sons|
        ensures AtomsOpen(dom, Expand(dom, sons[i], d), true)
      {
        MaxHeightBounds(sons, i);
        ExpandOpens(dom, sons[i], d);
      }
    case Or(sons) =>
      forall i | 0 <= i < |sons|
        ensures AtomsOpen(dom, Expand(dom, sons[i], d), true)
      {
        MaxHeightBounds(sons, i);
        ExpandOpens(dom, sons[i], d);
      }
    case Not(son) => ExpandOpens(dom, son, d);
    case _ =>
  }

  lemma {:induction false} CopiesOpen(dom: Domain, son: Wff, v: nat, cs: seq<nat>)
    requires Scoped(son, v + 1) && AtomsOpen(dom, son, true)
    ensures |Copies(dom, son, v, cs)| == |cs|
    ensures forall i :: 0 <= i < |cs| ==> AtomsOpen(dom, Copies(dom, son, v, cs)[i], true)
    decreases Height(son), 1
  {
    CopiesElems(dom, son, v, cs);
    MarkedOpen(dom, son);
    forall c | c in cs
      ensures AtomsOpen(dom, Copy(dom, son, v, c), true)
    {
      SubstituteShape(dom, son, v + 1, v, c);
      SubstituteOpens(dom, son, v, c);
      ExpandOpens(dom, Substitute(dom, son, v, c), v + 1);
    }
  }

  lemma {:induction false} NotsDownOpens(dom: Domain, w: Wff, all: bool)
    requires QuantifierFree(w) && AtomsOpen(dom, w, all)
    ensures AtomsOpen(dom, NotsDown(w), all) && AtomsOpen(dom, Negated(w), all)
    decreases w
  {
    match w
    case And(sons) => forall i | 0 <= i < |sons| ensures AtomsOpen(dom, NotsDown(sons[i]), all) && AtomsOpen(dom, Negated(sons[i]), all) { NotsDownOpens(dom, sons[i], all); }
    case Or(sons) => forall i | 0 <= i < |sons| ensures AtomsOpen(dom, NotsDown(sons[i]), all) && AtomsOpen(dom, Negated(sons[i]), all) { NotsDownOpens(dom, sons[i], all); }
    case Not(son) => NotsDownOpens(dom, son, all);
    case _ =>
  }

  // negations stay where they are

  lemma {:induction false} MergeNormal(w: Wff)
    requires NegationNormal(w)
    ensures NegationNormal(Merge(w))
    decreases w
  {
    match w
    case And(sons) => MergeNormalSons(sons);
    case Or(sons) => MergeNormalSons(sons);
    case _ =>
  }

  lemma {:induction false} MergeNormalSons(sons: seq<Wff>)
    requires forall i :: 0 <= i < |sons| ==> NegationNormal(sons[i])
    ensures NegationNormal(Merge(And(sons))) && NegationNormal(Merge(Or(sons)))
    decreases sons
  {
    hide Splice;
    var ws := seq(|sons|, i requires 0 <= i < |sons| => Merge(sons[i]));
    forall i | 0 <= i < |sons|
      ensures NegationNormal(ws[i])
    {
      MergeNormal(sons[i]);
    }
    forall conj, i | 0 <= i < |Splice(conj, ws)|
      ensures NegationNormal(Splice(conj, ws)[i])
    {
      SpliceElems(conj, ws, Splice(conj, ws)[i]);
    }
  }

  lemma {:induction false} TautologiesNormal(w: Wff)
    requires NegationNormal(w)
    ensures NegationNormal(Tautologies(w))
    decreases w
  {
    match w
    case And(sons) => TautologiesNormalSons(sons);
    case Or(sons) => TautologiesNormalSons(sons);
    case _ =>
  }

  lemma {:induction false} TautologiesNormalSons(sons: seq<Wff>)
    requires forall i :: 0 <= i < |sons| ==> NegationNormal(sons[i])
    ensures NegationNormal(Tautologies(And(sons))) && NegationNormal(Tautologies(Or(sons)))
    decreases sons
  {
    hide HasComplement;
    var ws := seq(|sons|, i requires 0 <= i < |sons| => Tautologies(sons[i]));
    forall i | 0 <= i < |sons|
      ensures NegationNormal(ws[i])
    {
      TautologiesNormal(sons[i]);
    }
    RepeatsElems(ws);
    forall i | 0 <= i < |DropRepeats(ws)|
      ensures NegationNormal(DropRepeats(ws)[i])
    {
      assert DropRepeats(ws)[i] in ws;
    }
  }

  lemma {:induction false} SimplifyNormal(dom: Domain, w: Wff)
    requires NegationNormal(w)
    ensures NegationNormal(Simplify(dom, w))
    decreases w
  {
    match w
    case And(sons) => SimplifyNormalSons(dom, sons);
    case Or(sons) => SimplifyNormalSons(dom, sons);
    case _ =>
  }

  lemma {:induction false} SimplifyNormalSons(dom: Domain, sons: seq<Wff>)
    requires forall i :: 0 <= i < |sons| ==> NegationNormal(sons[i])
    ensures NegationNormal(Simplify(dom, And(sons))) && NegationNormal(Simplify(dom, Or(sons)))
    decreases sons
  {
    var ws := seq(|sons|, i requires 0 <= i < |sons| => Simplify(dom, sons[i]));
    forall i | 0 <= i < |sons|
      ensures NegationNormal(ws[i])
    {
      SimplifyNormal(dom, sons[i]);
    }
    WithoutElems(ws, Tru);
    WithoutElems(ws, Fal);
    forall c, k | c in [Tru, Fal] && 0 <= k < |Without(ws, c)|
      ensures NegationNormal(Without(ws, c)[k])
    {
      assert Without(ws, c)[k] in Without(ws, c);
    }
    assert Tru in [Tru, Fal] && Fal in [Tru, Fal];
  }

  lemma {:induction false} NotsDownNormal(w: Wff)
    requires QuantifierFree(w)
    ensures NegationNormal(NotsDown(w)) && NegationNormal(Negated(w))
    decreases w
  {
    match w
    case And(sons) => forall i | 0 <= i < |sons| ensures NegationNormal(NotsDown(sons[i])) && NegationNormal(Negated(sons[i])) { NotsDownNormal(sons[i]); }
    case Or(sons) => forall i | 0 <= i < |sons| ensures NegationNormal(NotsDown(sons[i])) && NegationNormal(Negated(sons[i])) { NotsDownNormal(sons[i]); }
    case Not(son) => NotsDownNormal(son);
    case _ =>
  }

  /** What normalisation leaves of a formula without marked atoms: no quantifier, negations at atoms and
      constants only, no node below one of its own kind, and no atom that the static facts decide. */
  lemma NormalForms(dom: Domain, w: Wff, d: nat)
    requires Numbered(w, d) && AtomsOpen(dom, w, false)
    ensures var r := NormalizeWff(dom, w, d); NegationNormal(r) && Flat(r) && AtomsOpen(dom, r, true)
  {
    hide Numbered, Scoped, QuantifierFree, NegationNormal, AtomsOpen, Flat;
    var a := Simplify(dom, w);
    SimplifyNumbered(dom, w, d);
    var b := RemoveUnused(a, d);
    NumberedIsScoped(b, d);
    var c := Expand(dom, b, d);
    ExpandIsQuantifierFree(dom, b, d);
    SimplifyOpens(dom, w);
    RemoveUnusedOpens(dom, a, d, true);
    ExpandOpens(dom, b, d);
    NotsDownOpens(dom, c, true);
    NotsDownNormal(c);
    MarkedOpen(dom, NotsDown(c));
    CleanupForm(dom, NotsDown(c));
    MergeNormal(NotsDown(c));
    TautologiesNormal(Merge(NotsDown(c)));
    var e := Tautologies(Merge(NotsDown(c)));
    SimplifyNormal(dom, e);
    TautologiesNormal(Simplify(dom, e));
    MergeNormal(Tautologies(Simplify(dom, e)));
  }
}
