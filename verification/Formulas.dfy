/** The formulas of inst_pre.c with typed variables, their meaning in a state, and the passes that clean them up. */
module Formulas {

  /** The arguments of an atom are constants, or variables coded as negative numbers. */
  datatype Fact = Fact(pred: nat, args: seq<int>)

  datatype Wff =
    | All(v: nat, ty: nat, son: Wff)
    | Ex(v: nat, ty: nat, son: Wff)
    | And(sons: seq<Wff>)
    | Or(sons: seq<Wff>)
    | Not(son: Wff)
    | Atom(fact: Fact, visited: bool)
    | Tru
    | Fal

  datatype GroundFact = GroundFact(pred: nat, args: seq<nat>)

  /** The constants of each type; which predicates are ever added or deleted; the initial facts. */
  datatype Domain = Domain(consts: nat -> seq<nat>, isAdded: nat -> bool, isDeleted: nat -> bool,
                           initial: nat -> seq<seq<nat>>)

  function EncodeVar(v: nat): int {
    v * (-1) - 1
  }

  function DecodeVar(a: int): (v: nat)
    requires a < 0
    ensures EncodeVar(v) == a
  {
    (a + 1) * (-1)
  }

  // ---- meaning

  function Value(env: map<nat, nat>, v: nat): nat {
    if v in env then env[v] else 0
  }

  function ArgValue(env: map<nat, nat>, a: int): nat {
    if a >= 0 then a else Value(env, DecodeVar(a))
  }

  function Ground(f: Fact, env: map<nat, nat>): (g: GroundFact)
    ensures |g.args| == |f.args|
  {
    GroundFact(f.pred, seq(|f.args|, i requires 0 <= i < |f.args| => ArgValue(env, f.args[i])))
  }

  /** Typed first-order truth in the state `S`, for the values `env` of the variables. */
  ghost predicate Eval(dom: Domain, w: Wff, env: map<nat, nat>, S: set<GroundFact>)
    decreases w
  {
    match w
    case All(v, ty, son) => forall c :: c in dom.consts(ty) ==> Eval(dom, son, env[v := c], S)
    case Ex(v, ty, son) => exists c :: c in dom.consts(ty) && Eval(dom, son, env[v := c], S)
    case And(sons) => forall x :: x in sons ==> Eval(dom, x, env, S)
    case Or(sons) => exists x :: x in sons && Eval(dom, x, env, S)
    case Not(son) => !Eval(dom, son, env, S)
    case Atom(f, _) => Ground(f, env) in S
    case Tru => true
    case Fal => false
  }

  /** The state keeps the initial facts of never-deleted predicates and has no other facts of
      never-added ones. */
  ghost predicate StaticOk(dom: Domain, S: set<GroundFact>) {
    forall g: GroundFact {:trigger g in S} ::
      && (!dom.isDeleted(g.pred) && g.args in dom.initial(g.pred) ==> g in S)
      && (!dom.isAdded(g.pred) && g.args !in dom.initial(g.pred) ==> g !in S)
  }

  // ---- simplification by static facts

  predicate Matches(args: seq<int>, tuple: seq<nat>) {
    |args| == |tuple| && forall i :: 0 <= i < |args| && args[i] >= 0 ==> args[i] == tuple[i]
  }

  predicate PossiblyPositive(dom: Domain, f: Fact) {
    dom.isAdded(f.pred) || exists i :: 0 <= i < |dom.initial(f.pred)| && Matches(f.args, dom.initial(f.pred)[i])
  }

  predicate PossiblyNegative(dom: Domain, f: Fact) {
    || dom.isDeleted(f.pred)
    || (exists i :: 0 <= i < |f.args| && f.args[i] < 0)
    || forall i :: 0 <= i < |dom.initial(f.pred)| ==> !Matches(f.args, dom.initial(f.pred)[i])
  }

  /** An atom is replaced only when every static state decides it. */
  lemma StaticAtoms(dom: Domain, f: Fact, env: map<nat, nat>, S: set<GroundFact>)
    requires StaticOk(dom, S)
    ensures !PossiblyPositive(dom, f) ==> Ground(f, env) !in S
    ensures !PossiblyNegative(dom, f) ==> Ground(f, env) in S
  {
    var g := Ground(f, env);
    if g.args in dom.initial(f.pred) {
      var i :| 0 <= i < |dom.initial(f.pred)| && dom.initial(f.pred)[i] == g.args;
      assert Matches(f.args, dom.initial(f.pred)[i]);
      assert PossiblyPositive(dom, f);
    }
    if !PossiblyNegative(dom, f) {
      var i :| 0 <= i < |dom.initial(f.pred)| && Matches(f.args, dom.initial(f.pred)[i]);
      assert g.args == dom.initial(f.pred)[i];
    }
    assert g in S || g !in S;
  }

  function StaticAtom(dom: Domain, f: Fact): Wff {
    if !PossiblyNegative(dom, f) then Tru else if !PossiblyPositive(dom, f) then Fal else Atom(f, true)
  }

  function Without(ws: seq<Wff>, w: Wff): seq<Wff> {
    if ws == [] then [] else (if ws[0] == w then [] else [ws[0]]) + Without(ws[1..], w)
  }

  /** The conjunction of simplified sons; one remaining son takes the place of the node. */
  function Conj(ws: seq<Wff>): Wff {
    if Fal in ws then Fal
    else var k := Without(ws, Tru); if |k| == 0 then Tru else if |k| == 1 then k[0] else And(k)
  }

  function Disj(ws: seq<Wff>): Wff {
    if Tru in ws then Tru
    else var k := Without(ws, Fal); if |k| == 0 then Fal else if |k| == 1 then k[0] else Or(k)
  }

  /** simplify_wff. */
  function Simplify(dom: Domain, w: Wff): Wff
    decreases w
  {
    match w
    case All(v, ty, son) => var s := Simplify(dom, son); if s == Tru || s == Fal then s else All(v, ty, s)
    case Ex(v, ty, son) => var s := Simplify(dom, son); if s == Tru || s == Fal then s else Ex(v, ty, s)
    case And(sons) => Conj(seq(|sons|, i requires 0 <= i < |sons| => Simplify(dom, sons[i])))
    case Or(sons) => Disj(seq(|sons|, i requires 0 <= i < |sons| => Simplify(dom, sons[i])))
    case Not(son) => var s := Simplify(dom, son); if s == Tru then Fal else if s == Fal then Tru else Not(s)
    case Atom(f, visited) => if visited then w else StaticAtom(dom, f)
    case _ => w
  }

  ghost predicate AllTrue(dom: Domain, ws: seq<Wff>, env: map<nat, nat>, S: set<GroundFact>) {
    forall x :: x in ws ==> Eval(dom, x, env, S)
  }

  ghost predicate SomeTrue(dom: Domain, ws: seq<Wff>, env: map<nat, nat>, S: set<GroundFact>) {
    exists x :: x in ws && Eval(dom, x, env, S)
  }

  lemma NodesMean(dom: Domain, ws: seq<Wff>, env: map<nat, nat>, S: set<GroundFact>)
    ensures Eval(dom, And(ws), env, S) == AllTrue(dom, ws, env, S)
    ensures Eval(dom, Or(ws), env, S) == SomeTrue(dom, ws, env, S)
  {
  }

  lemma {:induction false} WithoutElems(ws: seq<Wff>, w: Wff)
    ensures forall x :: x in Without(ws, w) <==> x in ws && x != w
  {
    if ws != [] {
      assert ws == [ws[0]] + ws[1..];
      WithoutElems(ws[1..], w);
    }
  }

  lemma ConjMeans(dom: Domain, ws: seq<Wff>, env: map<nat, nat>, S: set<GroundFact>)
    ensures Eval(dom, Conj(ws), env, S) == Eval(dom, And(ws), env, S)
  {
    WithoutElems(ws, Tru);
    var k := Without(ws, Tru);
    if Fal !in ws && |k| == 1 {
      assert k[0] in k;
    }
  }

  lemma DisjMeans(dom: Domain, ws: seq<Wff>, env: map<nat, nat>, S: set<GroundFact>)
    ensures Eval(dom, Disj(ws), env, S) == Eval(dom, Or(ws), env, S)
  {
    WithoutElems(ws, Fal);
    var k := Without(ws, Fal);
    if Tru in ws {
      assert Eval(dom, Tru, env, S);
    } else if |k| == 1 {
      assert k[0] in k;
    }
  }

  /** Every type that a quantifier ranges over has a constant. */
  ghost predicate TypesInhabited(dom: Domain) {
    forall ty :: dom.consts(ty) != []
  }

  /** Sons with pairwise the same meaning, possibly for different values of the variables. */
  lemma SonsMean(dom: Domain, xs: seq<Wff>, env: map<nat, nat>, ys: seq<Wff>, env': map<nat, nat>, S: set<GroundFact>)
    requires |xs| == |ys| && forall i :: 0 <= i < |xs| ==> Eval(dom, xs[i], env, S) == Eval(dom, ys[i], env', S)
    ensures Eval(dom, And(xs), env, S) == Eval(dom, And(ys), env', S)
    ensures Eval(dom, Or(xs), env, S) == Eval(dom, Or(ys), env', S)
  {
    hide Eval;
    NodesMean(dom, xs, env, S);
    NodesMean(dom, ys, env', S);
    TrueTogether(dom, xs, env, ys, env', S);
    TrueTogether(dom, ys, env', xs, env, S);
  }

  lemma TrueTogether(dom: Domain, xs: seq<Wff>, env: map<nat, nat>, ys: seq<Wff>, env': map<nat, nat>, S: set<GroundFact>)
    requires |xs| == |ys| && forall i :: 0 <= i < |xs| ==> Eval(dom, xs[i], env, S) == Eval(dom, ys[i], env', S)
    ensures AllTrue(dom, xs, env, S) ==> AllTrue(dom, ys, env', S)
    ensures SomeTrue(dom, xs, env, S) ==> SomeTrue(dom, ys, env', S)
  {
    hide Eval;
    if SomeTrue(dom, xs, env, S) {
      var x :| x in xs && Eval(dom, x, env, S);
      var i :| 0 <= i < |xs| && xs[i] == x;
      assert ys[i] in ys;
    }
    if AllTrue(dom, xs, env, S) {
      forall y | y in ys
        ensures Eval(dom, y, env', S)
      {
        var i :| 0 <= i < |ys| && ys[i] == y;
        assert xs[i] in xs;
      }
    }
  }

  /** Simplification keeps the meaning in every state that respects the static facts. */
  lemma {:induction false} SimplifyMeans(dom: Domain, w: Wff, env: map<nat, nat>, S: set<GroundFact>)
    requires StaticOk(dom, S) && TypesInhabited(dom)
    ensures Eval(dom, Simplify(dom, w), env, S) == Eval(dom, w, env, S)
    decreases w
  {
    match w
    case All(v, ty, son) =>
      forall c | c in dom.consts(ty)
        ensures Eval(dom, Simplify(dom, son), env[v := c], S) == Eval(dom, son, env[v := c], S)
      {
        SimplifyMeans(dom, son, env[v := c], S);
      }
      assert dom.consts(ty)[0] in dom.consts(ty);
    case Ex(v, ty, son) =>
      forall c | c in dom.consts(ty)
        ensures Eval(dom, Simplify(dom, son), env[v := c], S) == Eval(dom, son, env[v := c], S)
      {
        SimplifyMeans(dom, son, env[v := c], S);
      }
      assert dom.consts(ty)[0] in dom.consts(ty);
    case And(sons) => SimplifySons(dom, sons, env, S);
    case Or(sons) => SimplifySons(dom, sons, env, S);
    case Not(son) =>
      SimplifyMeans(dom, son, env, S);
    case Atom(f, _) =>
      StaticAtoms(dom, f, env, S);
    case _ =>
  }

  lemma {:induction false} SimplifySons(dom: Domain, sons: seq<Wff>, env: map<nat, nat>, S: set<GroundFact>)
    requires StaticOk(dom, S) && TypesInhabited(dom)
    ensures Eval(dom, Simplify(dom, And(sons)), env, S) == Eval(dom, And(sons), env, S)
    ensures Eval(dom, Simplify(dom, Or(sons)), env, S) == Eval(dom, Or(sons), env, S)
    decreases sons
  {
    hide Eval, StaticOk, Conj, Disj;
    var ws := seq(|sons|, i requires 0 <= i < |sons| => Simplify(dom, sons[i]));
    forall i | 0 <= i < |sons|
      ensures Eval(dom, ws[i], env, S) == Eval(dom, sons[i], env, S)
    {
      SimplifyMeans(dom, sons[i], env, S);
    }
    SonsMean(dom, ws, env, sons, env, S);
    ConjMeans(dom, ws, env, S);
    DisjMeans(dom, ws, env, S);
  }

  /** Quantifiers over sons with the same meaning for every value. */
  lemma QuantifiersMean(dom: Domain, ty: nat, v: nat, son: Wff, env: map<nat, nat>,
                        v': nat, son': Wff, env': map<nat, nat>, S: set<GroundFact>)
    requires forall c :: c in dom.consts(ty) ==> Eval(dom, son, env[v := c], S) == Eval(dom, son', env'[v' := c], S)
    ensures Eval(dom, All(v, ty, son), env, S) == Eval(dom, All(v', ty, son'), env', S)
    ensures Eval(dom, Ex(v, ty, son), env, S) == Eval(dom, Ex(v', ty, son'), env', S)
  {
  }

  lemma LiteralsMean(dom: Domain, f: Fact, visited: bool, env: map<nat, nat>, S: set<GroundFact>)
    ensures Eval(dom, Atom(f, visited), env, S) == (Ground(f, env) in S)
    ensures Eval(dom, Tru, env, S) && !Eval(dom, Fal, env, S)
  {
  }

  lemma NegationMeans(dom: Domain, w: Wff, env: map<nat, nat>, S: set<GroundFact>)
    ensures Eval(dom, Not(w), env, S) == !Eval(dom, w, env, S)
  {
  }

  // ---- merging and tautologies

  /** The list of sons with those of the node's own connective replaced by their sons. */
  function Splice(conj: bool, ws: seq<Wff>): seq<Wff> {
    if ws == [] then []
    else (if (if conj then ws[0].And? else ws[0].Or?) then ws[0].sons else [ws[0]]) + Splice(conj, ws[1..])
  }

  /** merge_ANDs_and_ORs_in_wff. */
  function Merge(w: Wff): Wff
    decreases w
  {
    match w
    case All(v, ty, son) => All(v, ty, Merge(son))
    case Ex(v, ty, son) => Ex(v, ty, Merge(son))
    case And(sons) => And(Splice(true, seq(|sons|, i requires 0 <= i < |sons| => Merge(sons[i]))))
    case Or(sons) => Or(Splice(false, seq(|sons|, i requires 0 <= i < |sons| => Merge(sons[i]))))
    case Not(son) => Not(Merge(son))
    case _ => w
  }

  lemma SpliceMeans(dom: Domain, ws: seq<Wff>, env: map<nat, nat>, S: set<GroundFact>)
    ensures Eval(dom, And(Splice(true, ws)), env, S) == Eval(dom, And(ws), env, S)
    ensures Eval(dom, Or(Splice(false, ws)), env, S) == Eval(dom, Or(ws), env, S)
  {
    hide Eval;
    NodesMean(dom, ws, env, S);
    NodesMean(dom, Splice(true, ws), env, S);
    NodesMean(dom, Splice(false, ws), env, S);
    SpliceTrue(dom, ws, env, S);
  }

  lemma {:induction false} SpliceTrue(dom: Domain, ws: seq<Wff>, env: map<nat, nat>, S: set<GroundFact>)
    ensures AllTrue(dom, Splice(true, ws), env, S) == AllTrue(dom, ws, env, S)
    ensures SomeTrue(dom, Splice(false, ws), env, S) == SomeTrue(dom, ws, env, S)
  {
    hide Eval, AllTrue, SomeTrue;
    if ws == [] {
      TrueOfNone(dom, env, S);
    } else {
      var conjs := if ws[0].And? then ws[0].sons else [ws[0]];
      var disjs := if ws[0].Or? then ws[0].sons else [ws[0]];
      assert ws == [ws[0]] + ws[1..];
      TrueOfSum(dom, [ws[0]], ws[1..], env, S);
      TrueOfSum(dom, conjs, Splice(true, ws[1..]), env, S);
      TrueOfSum(dom, disjs, Splice(false, ws[1..]), env, S);
      SpliceTrue(dom, ws[1..], env, S);
      NodesMean(dom, conjs, env, S);
      NodesMean(dom, disjs, env, S);
      TrueOfOne(dom, ws[0], env, S);
    }
  }

  lemma TrueOfNone(dom: Domain, env: map<nat, nat>, S: set<GroundFact>)
    ensures AllTrue(dom, [], env, S) && !SomeTrue(dom, [], env, S)
  {
  }

  lemma TrueOfOne(dom: Domain, w: Wff, env: map<nat, nat>, S: set<GroundFact>)
    ensures AllTrue(dom, [w], env, S) == SomeTrue(dom, [w], env, S) == Eval(dom, w, env, S)
  {
    hide Eval;
    assert w in [w];
  }

  lemma TrueOfSum(dom: Domain, xs: seq<Wff>, ys: seq<Wff>, env: map<nat, nat>, S: set<GroundFact>)
    ensures AllTrue(dom, xs + ys, env, S) == (AllTrue(dom, xs, env, S) && AllTrue(dom, ys, env, S))
    ensures SomeTrue(dom, xs + ys, env, S) == (SomeTrue(dom, xs, env, S) || SomeTrue(dom, ys, env, S))
  {
    hide Eval;
    assert forall x :: x in xs + ys <==> x in xs || x in ys;
  }

  lemma {:induction false} MergeMeans(dom: Domain, w: Wff, env: map<nat, nat>, S: set<GroundFact>)
    ensures Eval(dom, Merge(w), env, S) == Eval(dom, w, env, S)
    decreases w
  {
    hide Eval;
    match w
    case All(v, ty, son) =>
      forall c | c in dom.consts(ty)
        ensures Eval(dom, Merge(son), env[v := c], S) == Eval(dom, son, env[v := c], S)
      {
        MergeMeans(dom, son, env[v := c], S);
      }
      QuantifiersMean(dom, ty, v, Merge(son), env, v, son, env, S);
    case Ex(v, ty, son) =>
      forall c | c in dom.consts(ty)
        ensures Eval(dom, Merge(son), env[v := c], S) == Eval(dom, son, env[v := c], S)
      {
        MergeMeans(dom, son, env[v := c], S);
      }
      QuantifiersMean(dom, ty, v, Merge(son), env, v, son, env, S);
    case And(sons) =>
      MergeSons(dom, sons, env, S);
    case Or(sons) =>
      MergeSons(dom, sons, env, S);
    case Not(son) =>
      MergeMeans(dom, son, env, S);
      NegationMeans(dom, son, env, S);
      NegationMeans(dom, Merge(son), env, S);
    case _ =>
  }

  lemma {:induction false} MergeSons(dom: Domain, sons: seq<Wff>, env: map<nat, nat>, S: set<GroundFact>)
    ensures var ws := seq(|sons|, i requires 0 <= i < |sons| => Merge(sons[i]));
      && Eval(dom, And(Splice(true, ws)), env, S) == Eval(dom, And(sons), env, S)
      && Eval(dom, Or(Splice(false, ws)), env, S) == Eval(dom, Or(sons), env, S)
    decreases sons
  {
    hide Eval;
    var ws := seq(|sons|, i requires 0 <= i < |sons| => Merge(sons[i]));
    forall i | 0 <= i < |sons|
      ensures Eval(dom, ws[i], env, S) == Eval(dom, sons[i], env, S)
    {
      MergeMeans(dom, sons[i], env, S);
    }
    SonsMean(dom, ws, env, sons, env, S);
    SpliceMeans(dom, ws, env, S);
  }

  predicate IdenticalAtoms(x: Wff, y: Wff) {
    x.Atom? && y.Atom? && x.fact == y.fact
  }

  function WithoutTwins(ws: seq<Wff>, x: Wff): seq<Wff> {
    if ws == [] then [] else (if IdenticalAtoms(x, ws[0]) then [] else [ws[0]]) + WithoutTwins(ws[1..], x)
  }

  lemma {:induction false} TwinsElems(ws: seq<Wff>, x: Wff)
    ensures |WithoutTwins(ws, x)| <= |ws|
    ensures forall y :: y in WithoutTwins(ws, x) <==> y in ws && !IdenticalAtoms(x, y)
  {
    if ws != [] {
      assert ws == [ws[0]] + ws[1..];
      TwinsElems(ws[1..], x);
    }
  }

  /** Later sons that repeat an atom are removed. */
  function DropRepeats(ws: seq<Wff>): seq<Wff>
    decreases |ws|
  {
    if ws == [] then [] else TwinsElems(ws[1..], ws[0]); [ws[0]] + DropRepeats(WithoutTwins(ws[1..], ws[0]))
  }

  /** An atom and its negation are both among the sons. */
  predicate HasComplement(ws: seq<Wff>) {
    exists i, j :: 0 <= i < |ws| && 0 <= j < |ws| && ws[i].Not? && IdenticalAtoms(ws[i].son, ws[j])
  }

  /** detect_tautologies_in_wff. */
  function Tautologies(w: Wff): Wff
    decreases w
  {
    match w
    case All(v, ty, son) => All(v, ty, Tautologies(son))
    case Ex(v, ty, son) => Ex(v, ty, Tautologies(son))
    case And(sons) =>
      var ws := seq(|sons|, i requires 0 <= i < |sons| => Tautologies(sons[i]));
      if HasComplement(ws) then Fal else And(DropRepeats(ws))
    case Or(sons) =>
      var ws := seq(|sons|, i requires 0 <= i < |sons| => Tautologies(sons[i]));
      if HasComplement(ws) then Tru else Or(DropRepeats(ws))
    case Not(son) => Not(Tautologies(son))
    case _ => w
  }

  lemma {:induction false} RepeatsElems(ws: seq<Wff>)
    ensures forall x :: x in DropRepeats(ws) ==> x in ws
    ensures forall x :: x in ws ==> x in DropRepeats(ws) || exists y :: y in DropRepeats(ws) && IdenticalAtoms(y, x)
    decreases |ws|
  {
    if ws != [] {
      assert ws == [ws[0]] + ws[1..];
      TwinsElems(ws[1..], ws[0]);
      RepeatsElems(WithoutTwins(ws[1..], ws[0]));
    }
  }

  lemma RepeatsMean(dom: Domain, ws: seq<Wff>, env: map<nat, nat>, S: set<GroundFact>)
    ensures Eval(dom, And(DropRepeats(ws)), env, S) == Eval(dom, And(ws), env, S)
    ensures Eval(dom, Or(DropRepeats(ws)), env, S) == Eval(dom, Or(ws), env, S)
  {
    RepeatsElems(ws);
    forall x, y | IdenticalAtoms(y, x)
      ensures Eval(dom, x, env, S) == Eval(dom, y, env, S)
    {
    }
  }

  lemma ComplementDecides(dom: Domain, ws: seq<Wff>, env: map<nat, nat>, S: set<GroundFact>)
    requires HasComplement(ws)
    ensures !Eval(dom, And(ws), env, S) && Eval(dom, Or(ws), env, S)
  {
    var i, j :| 0 <= i < |ws| && 0 <= j < |ws| && ws[i].Not? && IdenticalAtoms(ws[i].son, ws[j]);
    assert Eval(dom, ws[i], env, S) == !Eval(dom, ws[j], env, S);
    assert ws[i] in ws && ws[j] in ws;
  }

  lemma DecidedMean(dom: Domain, ws: seq<Wff>, env: map<nat, nat>, S: set<GroundFact>)
    ensures Eval(dom, if HasComplement(ws) then Fal else And(DropRepeats(ws)), env, S) == Eval(dom, And(ws), env, S)
    ensures Eval(dom, if HasComplement(ws) then Tru else Or(DropRepeats(ws)), env, S) == Eval(dom, Or(ws), env, S)
  {
    hide HasComplement;
    RepeatsMean(dom, ws, env, S);
    if HasComplement(ws) {
      ComplementDecides(dom, ws, env, S);
    }
  }

  lemma {:induction false} TautologiesMean(dom: Domain, w: Wff, env: map<nat, nat>, S: set<GroundFact>)
    ensures Eval(dom, Tautologies(w), env, S) == Eval(dom, w, env, S)
    decreases w
  {
    hide Eval;
    match w
    case All(v, ty, son) =>
      forall c | c in dom.consts(ty)
        ensures Eval(dom, Tautologies(son), env[v := c], S) == Eval(dom, son, env[v := c], S)
      {
        TautologiesMean(dom, son, env[v := c], S);
      }
      QuantifiersMean(dom, ty, v, Tautologies(son), env, v, son, env, S);
    case Ex(v, ty, son) =>
      forall c | c in dom.consts(ty)
        ensures Eval(dom, Tautologies(son), env[v := c], S) == Eval(dom, son, env[v := c], S)
      {
        TautologiesMean(dom, son, env[v := c], S);
      }
      QuantifiersMean(dom, ty, v, Tautologies(son), env, v, son, env, S);
    case And(sons) =>
      TautologySons(dom, sons, env, S);
    case Or(sons) =>
      TautologySons(dom, sons, env, S);
    case Not(son) =>
      TautologiesMean(dom, son, env, S);
      NegationMeans(dom, son, env, S);
      NegationMeans(dom, Tautologies(son), env, S);
    case _ =>
  }

  lemma {:induction false} TautologySons(dom: Domain, sons: seq<Wff>, env: map<nat, nat>, S: set<GroundFact>)
    ensures Eval(dom, Tautologies(And(sons)), env, S) == Eval(dom, And(sons), env, S)
    ensures Eval(dom, Tautologies(Or(sons)), env, S) == Eval(dom, Or(sons), env, S)
    decreases sons
  {
    hide Eval, HasComplement;
    var ws := seq(|sons|, i requires 0 <= i < |sons| => Tautologies(sons[i]));
    forall i | 0 <= i < |sons|
      ensures Eval(dom, ws[i], env, S) == Eval(dom, sons[i], env, S)
    {
      TautologiesMean(dom, sons[i], env, S);
    }
    SonsMean(dom, ws, env, sons, env, S);
    DecidedMean(dom, ws, env, S);
  }

  /** cleanup_wff. */
  function Cleanup(dom: Domain, w: Wff): Wff {
    Merge(Tautologies(Simplify(dom, Tautologies(Merge(w)))))
  }

  /** Cleaning up keeps the meaning in every state that respects the static facts. */
  lemma CleanupMeans(dom: Domain, w: Wff, env: map<nat, nat>, S: set<GroundFact>)
    requires StaticOk(dom, S) && TypesInhabited(dom)
    ensures Eval(dom, Cleanup(dom, w), env, S) == Eval(dom, w, env, S)
  {
    var a := Merge(w);
    var b := Tautologies(a);
    var c := Simplify(dom, b);
    var d := Tautologies(c);
    MergeMeans(dom, w, env, S);
    TautologiesMean(dom, a, env, S);
    SimplifyMeans(dom, b, env, S);
    TautologiesMean(dom, c, env, S);
    MergeMeans(dom, d, env, S);
  }
}
