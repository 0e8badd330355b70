/** The normalisation of formulas in inst_pre.c: unused variables, quantifiers and negations. */
module Normalize {
  import opened Formulas

  /** Variables are numbered by depth: `d` are in scope, and a quantifier binds number `d`. */
  predicate Numbered(w: Wff, d: nat)
    decreases w
  {
    match w
    case All(v, _, son) => v == d && Numbered(son, d + 1)
    case Ex(v, _, son) => v == d && Numbered(son, d + 1)
    case And(sons) => forall i :: 0 <= i < |sons| ==> Numbered(sons[i], d)
    case Or(sons) => forall i :: 0 <= i < |sons| ==> Numbered(sons[i], d)
    case Not(son) => Numbered(son, d)
    case Atom(f, _) => forall j :: 0 <= j < |f.args| && f.args[j] < 0 ==> DecodeVar(f.args[j]) < d
    case _ => true
  }

  lemma {:induction false} SimplifyNumbered(dom: Domain, w: Wff, d: nat)
    requires Numbered(w, d)
    ensures Numbered(Simplify(dom, w), d)
    decreases w
  {
    match w
    case All(_, _, son) => SimplifyNumbered(dom, son, d + 1);
    case Ex(_, _, son) => SimplifyNumbered(dom, son, d + 1);
    case And(sons) => SimplifySonsNumbered(dom, sons, d);
    case Or(sons) => SimplifySonsNumbered(dom, sons, d);
    case Not(son) => SimplifyNumbered(dom, son, d);
    case _ =>
  }

  lemma {:induction false} SimplifySonsNumbered(dom: Domain, sons: seq<Wff>, d: nat)
    requires forall i :: 0 <= i < |sons| ==> Numbered(sons[i], d)
    ensures Numbered(Simplify(dom, And(sons)), d) && Numbered(Simplify(dom, Or(sons)), d)
    decreases sons
  {
    var ws := seq(|sons|, i requires 0 <= i < |sons| => Simplify(dom, sons[i]));
    forall i | 0 <= i < |sons|
      ensures Numbered(ws[i], d)
    {
      SimplifyNumbered(dom, sons[i], d);
    }
    WithoutElems(ws, Tru);
    WithoutElems(ws, Fal);
    forall w, k | w in [Tru, Fal] && 0 <= k < |Without(ws, w)|
      ensures Numbered(Without(ws, w)[k], d)
    {
      assert Without(ws, w)[k] in Without(ws, w);
    }
    assert Tru in [Tru, Fal] && Fal in [Tru, Fal];
  }

  // ---- unused variables

  /** var_used_in_wff. */
  predicate Used(code: int, w: Wff)
    decreases w
  {
    match w
    case All(_, _, son) => Used(code, son)
    case Ex(_, _, son) => Used(code, son)
    case And(sons) => exists i :: 0 <= i < |sons| && Used(code, sons[i])
    case Or(sons) => exists i :: 0 <= i < |sons| && Used(code, sons[i])
    case Not(son) => Used(code, son)
    case Atom(f, _) => exists j :: 0 <= j < |f.args| && f.args[j] < 0 && f.args[j] == code
    case _ => false
  }

  function DecrementArg(v: nat, a: int): int {
    if a < 0 && DecodeVar(a) > v then a + 1 else a
  }

  /** decrement_inferior_vars, where `d` variables are in scope. */
  function Decrement(v: nat, w: Wff, ghost d: nat): Wff
    requires Numbered(w, d) && v < d
    decreases w
  {
    match w
    case All(u, ty, son) => All(u - 1, ty, Decrement(v, son, d + 1))
    case Ex(u, ty, son) => Ex(u - 1, ty, Decrement(v, son, d + 1))
    case And(sons) => And(seq(|sons|, i requires 0 <= i < |sons| => Decrement(v, sons[i], d)))
    case Or(sons) => Or(seq(|sons|, i requires 0 <= i < |sons| => Decrement(v, sons[i], d)))
    case Not(son) => Not(Decrement(v, son, d))
    case Atom(f, visited) => Atom(DecrementFact(v, f), visited)
    case _ => w
  }

  function DecrementFact(v: nat, f: Fact): Fact {
    Fact(f.pred, seq(|f.args|, i requires 0 <= i < |f.args| => DecrementArg(v, f.args[i])))
  }

  lemma {:induction false} DecrementNumbered(v: nat, w: Wff, d: nat)
    requires Numbered(w, d) && v < d && !Used(EncodeVar(v), w)
    ensures Numbered(Decrement(v, w, d), d - 1)
    decreases w
  {
    match w
    case All(_, _, son) => DecrementNumbered(v, son, d + 1);
    case Ex(_, _, son) => DecrementNumbered(v, son, d + 1);
    case And(sons) =>
      forall i | 0 <= i < |sons|
        ensures Numbered(Decrement(v, sons[i], d), d - 1)
      {
        DecrementNumbered(v, sons[i], d);
      }
    case Or(sons) =>
      forall i | 0 <= i < |sons|
        ensures Numbered(Decrement(v, sons[i], d), d - 1)
      {
        DecrementNumbered(v, sons[i], d);
      }
    case Not(son) => DecrementNumbered(v, son, d);
    case _ =>
  }

  /** The new number of variable `j`. */
  function Renumbered(v: nat, j: nat): nat {
    if j > v then j - 1 else j
  }

  /** Taking variable `v` out of the first `d` variables and closing the gap turns `was` into `env`. */
  ghost predicate Shifted(v: nat, d: nat, env: map<nat, nat>, was: map<nat, nat>) {
    forall j: nat :: j < d && j != v ==> Value(was, j) == Value(env, Renumbered(v, j))
  }

  lemma ShiftedBinding(v: nat, d: nat, env: map<nat, nat>, was: map<nat, nat>, c: nat)
    requires Shifted(v, d, env, was) && v < d
    ensures Shifted(v, d + 1, env[d - 1 := c], was[d := c])
  {
    forall j: nat | j < d + 1 && j != v
      ensures Value(was[d := c], j) == Value(env[d - 1 := c], Renumbered(v, j))
    {
      assert j < d ==> Value(was, j) == Value(env, Renumbered(v, j));
    }
  }

  lemma DecrementGround(v: nat, d: nat, f: Fact, env: map<nat, nat>, was: map<nat, nat>)
    requires Shifted(v, d, env, was) && Numbered(Atom(f, false), d)
    requires forall j :: 0 <= j < |f.args| ==> f.args[j] != EncodeVar(v)
    ensures Ground(DecrementFact(v, f), env) == Ground(f, was)
  {
    forall i | 0 <= i < |f.args|
      ensures ArgValue(env, DecrementArg(v, f.args[i])) == ArgValue(was, f.args[i])
    {
      if f.args[i] < 0 {
        var k := DecodeVar(f.args[i]);
        assert Value(was, k) == Value(env, Renumbered(v, k));
      }
    }
  }

  /** Renaming keeps the meaning of a formula that does not use the removed variable. */
  lemma {:induction false} DecrementMeans(dom: Domain, v: nat, w: Wff, d: nat, env: map<nat, nat>, was: map<nat, nat>,
                                          S: set<GroundFact>)
    requires Numbered(w, d) && v < d && !Used(EncodeVar(v), w) && Shifted(v, d, env, was)
    ensures Eval(dom, Decrement(v, w, d), env, S) == Eval(dom, w, was, S)
    decreases w
  {
    hide Eval;
    match w
    case All(u, ty, son) =>
      forall c | c in dom.consts(ty)
        ensures Eval(dom, Decrement(v, son, d + 1), env[u - 1 := c], S) == Eval(dom, son, was[u := c], S)
      {
        ShiftedBinding(v, d, env, was, c);
        DecrementMeans(dom, v, son, d + 1, env[u - 1 := c], was[u := c], S);
      }
      QuantifiersMean(dom, ty, u - 1, Decrement(v, son, d + 1), env, u, son, was, S);
    case Ex(u, ty, son) =>
      forall c | c in dom.consts(ty)
        ensures Eval(dom, Decrement(v, son, d + 1), env[u - 1 := c], S) == Eval(dom, son, was[u := c], S)
      {
        ShiftedBinding(v, d, env, was, c);
        DecrementMeans(dom, v, son, d + 1, env[u - 1 := c], was[u := c], S);
      }
      QuantifiersMean(dom, ty, u - 1, Decrement(v, son, d + 1), env, u, son, was, S);
    case And(sons) => DecrementSons(dom, v, sons, d, env, was, S);
    case Or(sons) => DecrementSons(dom, v, sons, d, env, was, S);
    case Not(son) =>
      DecrementMeans(dom, v, son, d, env, was, S);
      NegationMeans(dom, Decrement(v, son, d), env, S);
      NegationMeans(dom, son, was, S);
    case Atom(f, visited) =>
      DecrementGround(v, d, f, env, was);
      LiteralsMean(dom, f, visited, was, S);
      LiteralsMean(dom, DecrementFact(v, f), visited, env, S);
    case _ =>
      LiteralsMean(dom, Fact(0, []), true, was, S);
      LiteralsMean(dom, Fact(0, []), true, env, S);
  }

  lemma {:induction false} DecrementSons(dom: Domain, v: nat, sons: seq<Wff>, d: nat, env: map<nat, nat>,
                                         was: map<nat, nat>, S: set<GroundFact>)
    requires forall i :: 0 <= i < |sons| ==> Numbered(sons[i], d) && !Used(EncodeVar(v), sons[i])
    requires v < d && Shifted(v, d, env, was)
    ensures var ws := seq(|sons|, i requires 0 <= i < |sons| => Decrement(v, sons[i], d));
      && Eval(dom, And(ws), env, S) == Eval(dom, And(sons), was, S)
      && Eval(dom, Or(ws), env, S) == Eval(dom, Or(sons), was, S)
    decreases sons
  {
    hide Eval, Shifted, Numbered, Used;
    var ws := seq(|sons|, i requires 0 <= i < |sons| => Decrement(v, sons[i], d));
    forall i | 0 <= i < |sons|
      ensures Eval(dom, ws[i], env, S) == Eval(dom, sons[i], was, S)
    {
      DecrementMeans(dom, v, sons[i], d, env, was, S);
    }
    SonsMean(dom, ws, env, sons, was, S);
  }

  /** remove_unused_vars_in_wff. */
  function RemoveUnused(w: Wff, ghost d: nat): (r: Wff)
    requires Numbered(w, d)
    ensures Numbered(r, d)
    decreases w
  {
    match w
    case All(v, ty, son) =>
      var s := RemoveUnused(son, d + 1);
      if Used(EncodeVar(v), s) then All(v, ty, s) else DecrementNumbered(v, s, d + 1); Decrement(v, s, d + 1)
    case Ex(v, ty, son) =>
      var s := RemoveUnused(son, d + 1);
      if Used(EncodeVar(v), s) then Ex(v, ty, s) else DecrementNumbered(v, s, d + 1); Decrement(v, s, d + 1)
    case And(sons) => And(seq(|sons|, i requires 0 <= i < |sons| => RemoveUnused(sons[i], d)))
    case Or(sons) => Or(seq(|sons|, i requires 0 <= i < |sons| => RemoveUnused(sons[i], d)))
    case Not(son) => Not(RemoveUnused(son, d))
    case _ => w
  }

  /** Removing unused variables keeps the meaning, if every type has a constant. */
  lemma {:induction false} RemoveUnusedMeans(dom: Domain, w: Wff, d: nat, env: map<nat, nat>, S: set<GroundFact>)
    requires Numbered(w, d) && TypesInhabited(dom)
    ensures Eval(dom, RemoveUnused(w, d), env, S) == Eval(dom, w, env, S)
    decreases w
  {
    hide Eval;
    match w
    case All(v, ty, son) =>
      forall c | c in dom.consts(ty)
        ensures Eval(dom, RemoveUnused(son, d + 1), env[v := c], S) == Eval(dom, son, env[v := c], S)
      {
        RemoveUnusedMeans(dom, son, d + 1, env[v := c], S);
      }
      QuantifiersMean(dom, ty, v, RemoveUnused(son, d + 1), env, v, son, env, S);
      UnusedMeans(dom, v, ty, RemoveUnused(son, d + 1), env, S);
    case Ex(v, ty, son) =>
      forall c | c in dom.consts(ty)
        ensures Eval(dom, RemoveUnused(son, d + 1), env[v := c], S) == Eval(dom, son, env[v := c], S)
      {
        RemoveUnusedMeans(dom, son, d + 1, env[v := c], S);
      }
      QuantifiersMean(dom, ty, v, RemoveUnused(son, d + 1), env, v, son, env, S);
      UnusedMeans(dom, v, ty, RemoveUnused(son, d + 1), env, S);
    case And(sons) => RemoveUnusedSons(dom, sons, d, env, S);
    case Or(sons) => RemoveUnusedSons(dom, sons, d, env, S);
    case Not(son) =>
      RemoveUnusedMeans(dom, son, d, env, S);
      NegationMeans(dom, RemoveUnused(son, d), env, S);
      NegationMeans(dom, son, env, S);
    case _ =>
  }

  /** A quantifier over a variable that is not used says what its son says. */
  lemma UnusedMeans(dom: Domain, v: nat, ty: nat, son: Wff, env: map<nat, nat>, S: set<GroundFact>)
    requires Numbered(son, v + 1) && TypesInhabited(dom)
    ensures !Used(EncodeVar(v), son) ==>
      && Eval(dom, Decrement(v, son, v + 1), env, S) == Eval(dom, All(v, ty, son), env, S)
      && Eval(dom, Decrement(v, son, v + 1), env, S) == Eval(dom, Ex(v, ty, son), env, S)
  {
    if !Used(EncodeVar(v), son) {
      forall c | c in dom.consts(ty)
        ensures Eval(dom, son, env[v := c], S) == Eval(dom, Decrement(v, son, v + 1), env, S)
      {
        DecrementMeans(dom, v, son, v + 1, env, env[v := c], S);
      }
      assert dom.consts(ty)[0] in dom.consts(ty);
    }
  }

  lemma {:induction false} RemoveUnusedSons(dom: Domain, sons: seq<Wff>, d: nat, env: map<nat, nat>, S: set<GroundFact>)
    requires (forall i :: 0 <= i < |sons| ==> Numbered(sons[i], d)) && TypesInhabited(dom)
    ensures var ws := seq(|sons|, i requires 0 <= i < |sons| => RemoveUnused(sons[i], d));
      && Eval(dom, And(ws), env, S) == Eval(dom, And(sons), env, S)
      && Eval(dom, Or(ws), env, S) == Eval(dom, Or(sons), env, S)
    decreases sons
  {
    hide Eval, Numbered;
    var ws := seq(|sons|, i requires 0 <= i < |sons| => RemoveUnused(sons[i], d));
    forall i | 0 <= i < |sons|
      ensures Eval(dom, ws[i], env, S) == Eval(dom, sons[i], env, S)
    {
      RemoveUnusedMeans(dom, sons[i], d, env, S);
    }
    SonsMean(dom, ws, env, sons, env, S);
  }

  // ---- quantifiers

  /** Inner quantifiers bind larger variables than outer ones, all of them `d` or more. */
  predicate Scoped(w: Wff, d: nat)
    decreases w
  {
    match w
    case All(v, _, son) => d <= v && Scoped(son, v + 1)
    case Ex(v, _, son) => d <= v && Scoped(son, v + 1)
    case And(sons) => forall i :: 0 <= i < |sons| ==> Scoped(sons[i], d)
    case Or(sons) => forall i :: 0 <= i < |sons| ==> Scoped(sons[i], d)
    case Not(son) => Scoped(son, d)
    case _ => true
  }

  lemma {:induction false} NumberedIsScoped(w: Wff, d: nat)
    requires Numbered(w, d)
    ensures Scoped(w, d)
    decreases w
  {
    match w
    case All(_, _, son) => NumberedIsScoped(son, d + 1);
    case Ex(_, _, son) => NumberedIsScoped(son, d + 1);
    case And(sons) => forall i | 0 <= i < |sons| ensures Scoped(sons[i], d) { NumberedIsScoped(sons[i], d); }
    case Or(sons) => forall i | 0 <= i < |sons| ensures Scoped(sons[i], d) { NumberedIsScoped(sons[i], d); }
    case Not(son) => NumberedIsScoped(son, d);
    case _ =>
  }

  function SubstituteFact(f: Fact, v: nat, c: nat): Fact {
    Fact(f.pred, seq(|f.args|, i requires 0 <= i < |f.args| => if f.args[i] == EncodeVar(v) then c else f.args[i]))
  }

  /** expand_quantifiers_in_wff with an active variable: put the constant in its place. */
  function Substitute(dom: Domain, w: Wff, v: nat, c: nat): Wff
    decreases w
  {
    match w
    case All(u, ty, son) => All(u, ty, Substitute(dom, son, v, c))
    case Ex(u, ty, son) => Ex(u, ty, Substitute(dom, son, v, c))
    case And(sons) => And(seq(|sons|, i requires 0 <= i < |sons| => Substitute(dom, sons[i], v, c)))
    case Or(sons) => Or(seq(|sons|, i requires 0 <= i < |sons| => Substitute(dom, sons[i], v, c)))
    case Not(son) => Not(Substitute(dom, son, v, c))
    case Atom(f, visited) =>
      if (forall l :: 0 <= l < |f.args| ==> f.args[l] != EncodeVar(v)) && visited then w
      else StaticAtom(dom, SubstituteFact(f, v, c))
    case _ => w
  }

  lemma SubstituteGround(f: Fact, v: nat, c: nat, env: map<nat, nat>)
    ensures Ground(SubstituteFact(f, v, c), env) == Ground(f, env[v := c])
  {
  }

  lemma Rebinding(env: map<nat, nat>, u: nat, b: nat, v: nat, c: nat)
    requires u != v
    ensures env[u := b][v := c] == env[v := c][u := b]
  {
  }

  /** Putting a constant in keeps the meaning the formula has for that value of the variable. */
  lemma {:induction false} SubstituteMeans(dom: Domain, w: Wff, d: nat, v: nat, c: nat, env: map<nat, nat>, S: set<GroundFact>)
    requires Scoped(w, d) && v < d && StaticOk(dom, S)
    ensures Eval(dom, Substitute(dom, w, v, c), env, S) == Eval(dom, w, env[v := c], S)
    decreases w
  {
    match w
    case All(u, ty, son) =>
      forall b | b in dom.consts(ty)
        ensures Eval(dom, Substitute(dom, son, v, c), env[u := b], S) == Eval(dom, son, env[v := c][u := b], S)
      {
        Rebinding(env, u, b, v, c);
        SubstituteMeans(dom, son, u + 1, v, c, env[u := b], S);
      }
    case Ex(u, ty, son) =>
      forall b | b in dom.consts(ty)
        ensures Eval(dom, Substitute(dom, son, v, c), env[u := b], S) == Eval(dom, son, env[v := c][u := b], S)
      {
        Rebinding(env, u, b, v, c);
        SubstituteMeans(dom, son, u + 1, v, c, env[u := b], S);
      }
    case And(sons) => SubstituteSons(dom, sons, d, v, c, env, S);
    case Or(sons) => SubstituteSons(dom, sons, d, v, c, env, S);
    case Not(son) => SubstituteMeans(dom, son, d, v, c, env, S);
    case Atom(f, _) =>
      SubstituteGround(f, v, c, env);
      StaticAtoms(dom, SubstituteFact(f, v, c), env, S);
      if forall l :: 0 <= l < |f.args| ==> f.args[l] != EncodeVar(v) {
        assert SubstituteFact(f, v, c) == f;
      }
    case _ =>
  }

  lemma {:induction false} SubstituteSons(dom: Domain, sons: seq<Wff>, d: nat, v: nat, c: nat, env: map<nat, nat>,
                                          S: set<GroundFact>)
    requires (forall i :: 0 <= i < |sons| ==> Scoped(sons[i], d)) && v < d && StaticOk(dom, S)
    ensures var ws := seq(|sons|, i requires 0 <= i < |sons| => Substitute(dom, sons[i], v, c));
      && Eval(dom, And(ws), env, S) == Eval(dom, And(sons), env[v := c], S)
      && Eval(dom, Or(ws), env, S) == Eval(dom, Or(sons), env[v := c], S)
    decreases sons
  {
    hide Eval, Scoped, StaticOk;
    var ws := seq(|sons|, i requires 0 <= i < |sons| => Substitute(dom, sons[i], v, c));
    forall i | 0 <= i < |sons|
      ensures Eval(dom, ws[i], env, S) == Eval(dom, sons[i], env[v := c], S)
    {
      SubstituteMeans(dom, sons[i], d, v, c, env, S);
    }
    SonsMean(dom, ws, env, sons, env[v := c], S);
  }

  function Max(a: nat, b: nat): nat {
    if a > b then a else b
  }

  function Height(w: Wff): nat
    decreases w
  {
    match w
    case All(_, _, son) => Height(son) + 1
    case Ex(_, _, son) => Height(son) + 1
    case And(sons) => MaxHeight(sons) + 1
    case Or(sons) => MaxHeight(sons) + 1
    case Not(son) => Height(son) + 1
    case _ => 0
  }

  function MaxHeight(ws: seq<Wff>): nat
    decreases ws
  {
    if ws == [] then 0 else Max(Height(ws[0]), MaxHeight(ws[1..]))
  }

  lemma {:induction false} MaxHeightBounds(ws: seq<Wff>, i: nat)
    requires i < |ws|
    ensures Height(ws[i]) <= MaxHeight(ws)
  {
    if i > 0 {
      MaxHeightBounds(ws[1..], i - 1);
    }
  }

  lemma {:induction false} MaxHeightLess(xs: seq<Wff>, ys: seq<Wff>)
    requires |xs| == |ys| && forall i :: 0 <= i < |xs| ==> Height(xs[i]) <= Height(ys[i])
    ensures MaxHeight(xs) <= MaxHeight(ys)
  {
    if xs != [] {
      assert Height(xs[0]) <= Height(ys[0]);
      forall i | 0 <= i < |xs[1..]|
        ensures Height(xs[1..][i]) <= Height(ys[1..][i])
      {
        assert Height(xs[i + 1]) <= Height(ys[i + 1]);
      }
      MaxHeightLess(xs[1..], ys[1..]);
    }
  }

  /** Putting in a constant makes no formula higher and binds nothing anew. */
  lemma {:induction false} SubstituteShape(dom: Domain, w: Wff, d: nat, v: nat, c: nat)
    requires Scoped(w, d)
    ensures Height(Substitute(dom, w, v, c)) <= Height(w) && Scoped(Substitute(dom, w, v, c), d)
    decreases w
  {
    match w
    case All(u, _, son) => SubstituteShape(dom, son, u + 1, v, c);
    case Ex(u, _, son) => SubstituteShape(dom, son, u + 1, v, c);
    case And(sons) => SubstituteSonsShape(dom, sons, d, v, c);
    case Or(sons) => SubstituteSonsShape(dom, sons, d, v, c);
    case Not(son) => SubstituteShape(dom, son, d, v, c);
    case _ =>
  }

  lemma {:induction false} SubstituteSonsShape(dom: Domain, sons: seq<Wff>, d: nat, v: nat, c: nat)
    requires forall i :: 0 <= i < |sons| ==> Scoped(sons[i], d)
    ensures var ws := seq(|sons|, i requires 0 <= i < |sons| => Substitute(dom, sons[i], v, c));
      MaxHeight(ws) <= MaxHeight(sons) && forall i :: 0 <= i < |ws| ==> Scoped(ws[i], d)
    decreases sons
  {
    var ws := seq(|sons|, i requires 0 <= i < |sons| => Substitute(dom, sons[i], v, c));
    forall i | 0 <= i < |sons|
      ensures Height(ws[i]) <= Height(sons[i]) && Scoped(ws[i], d)
    {
      SubstituteShape(dom, sons[i], d, v, c);
    }
    MaxHeightLess(ws, sons);
  }

  /** expand_quantifiers_in_wff: a quantifier becomes one copy of its son for every constant, the
      last constant in front. */
  function Expand(dom: Domain, w: Wff, ghost d: nat): Wff
    requires Scoped(w, d)
    decreases Height(w), 0
  {
    match w
    case All(v, ty, son) => And(Copies(dom, son, v, dom.consts(ty)))
    case Ex(v, ty, son) => Or(Copies(dom, son, v, dom.consts(ty)))
    case And(sons) =>
      And(seq(|sons|, i requires 0 <= i < |sons| => MaxHeightBounds(sons, i); Expand(dom, sons[i], d)))
    case Or(sons) =>
      Or(seq(|sons|, i requires 0 <= i < |sons| => MaxHeightBounds(sons, i); Expand(dom, sons[i], d)))
    case Not(son) => Not(Expand(dom, son, d))
    case _ => w
  }

  function Copies(dom: Domain, son: Wff, v: nat, cs: seq<nat>): (ws: seq<Wff>)
    requires Scoped(son, v + 1)
    decreases Height(son), |cs| + 2
  {
    if cs == [] then []
    else Copies(dom, son, v, cs[1..]) + [Copy(dom, son, v, cs[0])]
  }

  function Copy(dom: Domain, son: Wff, v: nat, c: nat): Wff
    requires Scoped(son, v + 1)
    decreases Height(son), 1
  {
    SubstituteShape(dom, son, v + 1, v, c); Expand(dom, Substitute(dom, son, v, c), v + 1)
  }

  lemma {:induction false} CopiesElems(dom: Domain, son: Wff, v: nat, cs: seq<nat>)
    requires Scoped(son, v + 1)
    ensures |Copies(dom, son, v, cs)| == |cs|
    ensures forall i :: 0 <= i < |cs| ==> Copies(dom, son, v, cs)[i] == Copy(dom, son, v, cs[|cs| - 1 - i])
    decreases cs
  {
    if cs != [] {
      CopiesElems(dom, son, v, cs[1..]);
    }
  }

  /** Expanding the quantifiers keeps the meaning in every state that respects the static facts. */
  lemma {:induction false} ExpandMeans(dom: Domain, w: Wff, d: nat, env: map<nat, nat>, S: set<GroundFact>)
    requires Scoped(w, d) && StaticOk(dom, S)
    ensures Eval(dom, Expand(dom, w, d), env, S) == Eval(dom, w, env, S)
    decreases Height(w), 0, 1
  {
    match w
    case All(v, ty, son) => CopiesMean(dom, son, v, dom.consts(ty), env, S);
    case Ex(v, ty, son) => CopiesMean(dom, son, v, dom.consts(ty), env, S);
    case And(sons) => ExpandSons(dom, sons, d, env, S);
    case Or(sons) => ExpandSons(dom, sons, d, env, S);
    case Not(son) => ExpandMeans(dom, son, d, env, S);
    case _ =>
  }

  lemma {:induction false} CopiesMean(dom: Domain, son: Wff, v: nat, cs: seq<nat>, env: map<nat, nat>, S: set<GroundFact>)
    requires Scoped(son, v + 1) && StaticOk(dom, S)
    ensures Eval(dom, And(Copies(dom, son, v, cs)), env, S) <==> HoldsForAll(dom, son, v, cs, env, S)
    ensures Eval(dom, Or(Copies(dom, son, v, cs)), env, S) <==> HoldsForSome(dom, son, v, cs, env, S)
    decreases Height(son), 1, |cs|
  {
    hide Eval, StaticOk, Scoped, AllTrue, SomeTrue, Copy;
    var ws := Copies(dom, son, v, cs);
    NodesMean(dom, ws, env, S);
    if cs == [] {
      TrueOfNone(dom, env, S);
    } else {
      var one := Copy(dom, son, v, cs[0]);
      CopyMeans(dom, son, v, cs[0], env, S);
      CopiesMean(dom, son, v, cs[1..], env, S);
      NodesMean(dom, Copies(dom, son, v, cs[1..]), env, S);
      TrueOfSum(dom, Copies(dom, son, v, cs[1..]), [one], env, S);
      TrueOfOne(dom, one, env, S);
      ValuesSplit(dom, son, v, cs, env, S);
    }
  }

  lemma ValuesSplit(dom: Domain, son: Wff, v: nat, cs: seq<nat>, env: map<nat, nat>, S: set<GroundFact>)
    requires cs != []
    ensures HoldsForAll(dom, son, v, cs, env, S) <==>
      Eval(dom, son, env[v := cs[0]], S) && HoldsForAll(dom, son, v, cs[1..], env, S)
    ensures HoldsForSome(dom, son, v, cs, env, S) <==>
      Eval(dom, son, env[v := cs[0]], S) || HoldsForSome(dom, son, v, cs[1..], env, S)
  {
    hide Eval;
    assert cs[0] in cs;
    assert forall c :: c in cs <==> c == cs[0] || c in cs[1..];
  }

  ghost predicate HoldsForAll(dom: Domain, son: Wff, v: nat, cs: seq<nat>, env: map<nat, nat>, S: set<GroundFact>) {
    forall c :: c in cs ==> Eval(dom, son, env[v := c], S)
  }

  ghost predicate HoldsForSome(dom: Domain, son: Wff, v: nat, cs: seq<nat>, env: map<nat, nat>, S: set<GroundFact>) {
    exists c :: c in cs && Eval(dom, son, env[v := c], S)
  }

  lemma {:induction false} CopyMeans(dom: Domain, son: Wff, v: nat, c: nat, env: map<nat, nat>, S: set<GroundFact>)
    requires Scoped(son, v + 1) && StaticOk(dom, S)
    ensures Eval(dom, Copy(dom, son, v, c), env, S) == Eval(dom, son, env[v := c], S)
    decreases Height(son), 0, 2
  {
    hide Eval, StaticOk, Scoped;
    SubstituteShape(dom, son, v + 1, v, c);
    ExpandMeans(dom, Substitute(dom, son, v, c), v + 1, env, S);
    SubstituteMeans(dom, son, v + 1, v, c, env, S);
  }

  lemma {:induction false} ExpandSons(dom: Domain, sons: seq<Wff>, d: nat, env: map<nat, nat>, S: set<GroundFact>)
    requires (forall i :: 0 <= i < |sons| ==> Scoped(sons[i], d)) && StaticOk(dom, S)
    ensures var ws := seq(|sons|, i requires 0 <= i < |sons| => Expand(dom, sons[i], d));
      && Eval(dom, And(ws), env, S) == Eval(dom, And(sons), env, S)
      && Eval(dom, Or(ws), env, S) == Eval(dom, Or(sons), env, S)
    decreases MaxHeight(sons), 0, 2
  {
    hide Eval, StaticOk, Scoped;
    var ws := seq(|sons|, i requires 0 <= i < |sons| => Expand(dom, sons[i], d));
    forall i | 0 <= i < |sons|
      ensures Eval(dom, ws[i], env, S) == Eval(dom, sons[i], env, S)
    {
      MaxHeightBounds(sons, i);
      ExpandMeans(dom, sons[i], d, env, S);
    }
    SonsMean(dom, ws, env, sons, env, S);
  }

  predicate QuantifierFree(w: Wff)
    decreases w
  {
    match w
    case All(_, _, _) => false
    case Ex(_, _, _) => false
    case And(sons) => forall i :: 0 <= i < |sons| ==> QuantifierFree(sons[i])
    case Or(sons) => forall i :: 0 <= i < |sons| ==> QuantifierFree(sons[i])
    case Not(son) => QuantifierFree(son)
    case _ => true
  }

  /** No quantifier is left. */
  lemma {:induction false} ExpandIsQuantifierFree(dom: Domain, w: Wff, d: nat)
    requires Scoped(w, d)
    ensures QuantifierFree(Expand(dom, w, d))
    decreases Height(w), 0
  {
    match w
    case All(v, ty, son) => CopiesAreQuantifierFree(dom, son, v, dom.consts(ty));
    case Ex(v, ty, son) => CopiesAreQuantifierFree(dom, son, v, dom.consts(ty));
    case And(sons) =>
      forall i | 0 <= i < |sons|
        ensures QuantifierFree(Expand(dom, sons[i], d))
      {
        MaxHeightBounds(sons, i);
        ExpandIsQuantifierFree(dom, sons[i], d);
      }
    case Or(sons) =>
      forall i | 0 <= i < |sons|
        ensures QuantifierFree(Expand(dom, sons[i], d))
      {
        MaxHeightBounds(sons, i);
        ExpandIsQuantifierFree(dom, sons[i], d);
      }
    case Not(son) => ExpandIsQuantifierFree(dom, son, d);
    case _ =>
  }

  lemma {:induction false} CopiesAreQuantifierFree(dom: Domain, son: Wff, v: nat, cs: seq<nat>)
    requires Scoped(son, v + 1)
    ensures |Copies(dom, son, v, cs)| == |cs|
    ensures forall i :: 0 <= i < |cs| ==> QuantifierFree(Copies(dom, son, v, cs)[i])
    decreases Height(son), 1
  {
    CopiesElems(dom, son, v, cs);
    forall c | c in cs
      ensures QuantifierFree(Copy(dom, son, v, c))
    {
      SubstituteShape(dom, son, v + 1, v, c);
      ExpandIsQuantifierFree(dom, Substitute(dom, son, v, c), v + 1);
    }
  }

  /** Atoms use no variable but those in `V` and those bound above them. */
  predicate Uses(w: Wff, V: set<nat>)
    decreases w
  {
    match w
    case All(v, _, son) => Uses(son, V + {v})
    case Ex(v, _, son) => Uses(son, V + {v})
    case And(sons) => forall i :: 0 <= i < |sons| ==> Uses(sons[i], V)
    case Or(sons) => forall i :: 0 <= i < |sons| ==> Uses(sons[i], V)
    case Not(son) => Uses(son, V)
    case Atom(f, _) => forall j :: 0 <= j < |f.args| && f.args[j] < 0 ==> DecodeVar(f.args[j]) in V
    case _ => true
  }

  lemma {:induction false} UsesMore(w: Wff, V: set<nat>, V': set<nat>)
    requires Uses(w, V) && V <= V'
    ensures Uses(w, V')
    decreases w
  {
    match w
    case All(v, _, son) => UsesMore(son, V + {v}, V' + {v});
    case Ex(v, _, son) => UsesMore(son, V + {v}, V' + {v});
    case And(sons) => forall i | 0 <= i < |sons| ensures Uses(sons[i], V') { UsesMore(sons[i], V, V'); }
    case Or(sons) => forall i | 0 <= i < |sons| ensures Uses(sons[i], V') { UsesMore(sons[i], V, V'); }
    case Not(son) => UsesMore(son, V, V');
    case _ =>
  }

  /** The variables of the first `d` quantifiers or parameters. */
  function Parameters(d: nat): (V: set<nat>)
    ensures forall v: nat :: v in V <==> v < d
  {
    if d == 0 then {} else Parameters(d - 1) + {d - 1}
  }

  lemma {:induction false} NumberedUses(w: Wff, d: nat)
    requires Numbered(w, d)
    ensures Uses(w, Parameters(d))
    decreases w
  {
    var V, V' := Parameters(d), Parameters(d + 1);
    assert V' == V + {d};
    match w
    case All(_, _, son) => NumberedUses(son, d + 1);
    case Ex(_, _, son) => NumberedUses(son, d + 1);
    case And(sons) => forall i | 0 <= i < |sons| ensures Uses(sons[i], V) { NumberedUses(sons[i], d); }
    case Or(sons) => forall i | 0 <= i < |sons| ensures Uses(sons[i], V) { NumberedUses(sons[i], d); }
    case Not(son) => NumberedUses(son, d);
    case _ =>
  }

  /** The variable is gone after a constant was put in its place. */
  lemma {:induction false} SubstituteUses(dom: Domain, w: Wff, d: nat, v: nat, c: nat, V: set<nat>)
    requires Scoped(w, d) && v < d && Uses(w, V)
    ensures Uses(Substitute(dom, w, v, c), V - {v})
    decreases w
  {
    match w
    case All(u, _, son) =>
      SubstituteUses(dom, son, u + 1, v, c, V + {u});
      assert V + {u} - {v} == V - {v} + {u};
    case Ex(u, _, son) =>
      SubstituteUses(dom, son, u + 1, v, c, V + {u});
      assert V + {u} - {v} == V - {v} + {u};
    case And(sons) =>
      forall i | 0 <= i < |sons|
        ensures Uses(Substitute(dom, sons[i], v, c), V - {v})
      {
        SubstituteUses(dom, sons[i], d, v, c, V);
      }
    case Or(sons) =>
      forall i | 0 <= i < |sons|
        ensures Uses(Substitute(dom, sons[i], v, c), V - {v})
      {
        SubstituteUses(dom, sons[i], d, v, c, V);
      }
    case Not(son) => SubstituteUses(dom, son, d, v, c, V);
    case Atom(f, _) =>
      forall j | 0 <= j < |f.args| && f.args[j] < 0 && f.args[j] != EncodeVar(v)
        ensures DecodeVar(f.args[j]) in V - {v}
      {
      }
    case _ =>
  }

  /** No bound variable is left: the expanded formula uses only the variables that were free. */
  lemma {:induction false} ExpandUses(dom: Domain, w: Wff, d: nat, V: set<nat>)
    requires Scoped(w, d) && Uses(w, V)
    ensures Uses(Expand(dom, w, d), V)
    decreases Height(w), 0
  {
    match w
    case All(v, ty, son) => CopiesUse(dom, son, v, dom.consts(ty), V);
    case Ex(v, ty, son) => CopiesUse(dom, son, v, dom.consts(ty), V);
    case And(sons) =>
      forall i | 0 <= i < |sons|
        ensures Uses(Expand(dom, sons[i], d), V)
      {
        MaxHeightBounds(sons, i);
        ExpandUses(dom, sons[i], d, V);
      }
    case Or(sons) =>
      forall i | 0 <= i < |sons|
        ensures Uses(Expand(dom, sons[i], d), V)
      {
        MaxHeightBounds(sons, i);
        ExpandUses(dom, sons[i], d, V);
      }
    case Not(son) => ExpandUses(dom, son, d, V);
    case _ =>
  }

  lemma {:induction false} CopiesUse(dom: Domain, son: Wff, v: nat, cs: seq<nat>, V: set<nat>)
    requires Scoped(son, v + 1) && Uses(son, V + {v})
    ensures |Copies(dom, son, v, cs)| == |cs|
    ensures forall i :: 0 <= i < |cs| ==> Uses(Copies(dom, son, v, cs)[i], V)
    decreases Height(son), 1
  {
    CopiesElems(dom, son, v, cs);
    forall c | c in cs
      ensures Uses(Copy(dom, son, v, c), V)
    {
      SubstituteShape(dom, son, v + 1, v, c);
      SubstituteUses(dom, son, v + 1, v, c, V + {v});
      UsesMore(Substitute(dom, son, v, c), V + {v} - {v}, V);
      ExpandUses(dom, Substitute(dom, son, v, c), v + 1, V);
    }
  }

  /** A formula with `d` parameters is left with these alone, and without quantifiers. */
  lemma ExpandedUsesParameters(dom: Domain, w: Wff, d: nat)
    requires Numbered(w, d)
    ensures Scoped(w, d) && QuantifierFree(Expand(dom, w, d))
    ensures Uses(Expand(dom, w, d), Parameters(d))
  {
    NumberedIsScoped(w, d);
    NumberedUses(w, d);
    ExpandIsQuantifierFree(dom, w, d);
    ExpandUses(dom, w, d, Parameters(d));
  }

  // ---- negations

  /** NOTs_down_in_wff; a quantifier makes the planner exit. */
  function NotsDown(w: Wff): Wff
    requires QuantifierFree(w)
    decreases w, 0
  {
    match w
    case And(sons) => And(seq(|sons|, i requires 0 <= i < |sons| => NotsDown(sons[i])))
    case Or(sons) => Or(seq(|sons|, i requires 0 <= i < |sons| => NotsDown(sons[i])))
    case Not(son) => Negated(son)
    case _ => w
  }

  /** The same for the negation of `w`. */
  function Negated(w: Wff): Wff
    requires QuantifierFree(w)
    decreases w, 1
  {
    match w
    case And(sons) => Or(seq(|sons|, i requires 0 <= i < |sons| => Negated(sons[i])))
    case Or(sons) => And(seq(|sons|, i requires 0 <= i < |sons| => Negated(sons[i])))
    case Not(son) => NotsDown(son)
    case _ => Not(w)
  }

  /** Negations stand only in front of atoms and constants. */
  predicate NegationNormal(w: Wff)
    decreases w
  {
    match w
    case And(sons) => forall i :: 0 <= i < |sons| ==> NegationNormal(sons[i])
    case Or(sons) => forall i :: 0 <= i < |sons| ==> NegationNormal(sons[i])
    case Not(son) => son.Atom? || son.Tru? || son.Fal?
    case All(_, _, _) => false
    case Ex(_, _, _) => false
    case _ => true
  }

  /** Pushing negations down keeps the meaning and leaves them only in front of atoms. */
  lemma {:induction false} NotsDownMeans(dom: Domain, w: Wff, env: map<nat, nat>, S: set<GroundFact>)
    requires QuantifierFree(w)
    ensures Eval(dom, NotsDown(w), env, S) == Eval(dom, w, env, S) && NegationNormal(NotsDown(w))
    ensures Eval(dom, Negated(w), env, S) == !Eval(dom, w, env, S) && NegationNormal(Negated(w))
    decreases w
  {
    match w
    case And(sons) => NotsDownSons(dom, sons, env, S);
    case Or(sons) => NotsDownSons(dom, sons, env, S);
    case Not(son) => NotsDownMeans(dom, son, env, S);
    case _ =>
  }

  lemma {:induction false} NotsDownSons(dom: Domain, sons: seq<Wff>, env: map<nat, nat>, S: set<GroundFact>)
    requires forall i :: 0 <= i < |sons| ==> QuantifierFree(sons[i])
    ensures var ws := seq(|sons|, i requires 0 <= i < |sons| => NotsDown(sons[i]));
      && (forall i :: 0 <= i < |ws| ==> NegationNormal(ws[i]))
      && Eval(dom, And(ws), env, S) == Eval(dom, And(sons), env, S)
      && Eval(dom, Or(ws), env, S) == Eval(dom, Or(sons), env, S)
    ensures var ns := seq(|sons|, i requires 0 <= i < |sons| => Negated(sons[i]));
      && (forall i :: 0 <= i < |ns| ==> NegationNormal(ns[i]))
      && Eval(dom, Or(ns), env, S) == !Eval(dom, And(sons), env, S)
      && Eval(dom, And(ns), env, S) == !Eval(dom, Or(sons), env, S)
    decreases sons
  {
    hide Eval, QuantifierFree, NegationNormal;
    var ws := seq(|sons|, i requires 0 <= i < |sons| => NotsDown(sons[i]));
    var ns := seq(|sons|, i requires 0 <= i < |sons| => Negated(sons[i]));
    forall i | 0 <= i < |sons|
      ensures Eval(dom, ws[i], env, S) == Eval(dom, sons[i], env, S) && NegationNormal(ws[i])
      ensures Eval(dom, ns[i], env, S) == !Eval(dom, sons[i], env, S) && NegationNormal(ns[i])
    {
      NotsDownMeans(dom, sons[i], env, S);
    }
    SonsMean(dom, ws, env, sons, env, S);
    SonsOppose(dom, ns, sons, env, S);
  }

  lemma SonsOppose(dom: Domain, ns: seq<Wff>, ws: seq<Wff>, env: map<nat, nat>, S: set<GroundFact>)
    requires |ns| == |ws| && forall i :: 0 <= i < |ns| ==> Eval(dom, ns[i], env, S) == !Eval(dom, ws[i], env, S)
    ensures Eval(dom, Or(ns), env, S) == !Eval(dom, And(ws), env, S)
    ensures Eval(dom, And(ns), env, S) == !Eval(dom, Or(ws), env, S)
  {
    hide Eval;
    var negs := seq(|ws|, i requires 0 <= i < |ws| => Not(ws[i]));
    forall i | 0 <= i < |ws|
      ensures Eval(dom, negs[i], env, S) == Eval(dom, ns[i], env, S)
    {
      NegationMeans(dom, ws[i], env, S);
    }
    SonsMean(dom, ns, env, negs, env, S);
    DeMorgan(dom, ws, env, S);
  }

  lemma {:induction false} DeMorgan(dom: Domain, ws: seq<Wff>, env: map<nat, nat>, S: set<GroundFact>)
    ensures var negs := seq(|ws|, i requires 0 <= i < |ws| => Not(ws[i]));
      && Eval(dom, Or(negs), env, S) == !Eval(dom, And(ws), env, S)
      && Eval(dom, And(negs), env, S) == !Eval(dom, Or(ws), env, S)
  {
    hide Eval, AllTrue, SomeTrue;
    var negs := seq(|ws|, i requires 0 <= i < |ws| => Not(ws[i]));
    NodesMean(dom, ws, env, S);
    NodesMean(dom, negs, env, S);
    if ws == [] {
      TrueOfNone(dom, env, S);
    } else {
      var w, rest := ws[0], ws[1..];
      var negRest := seq(|rest|, i requires 0 <= i < |rest| => Not(rest[i]));
      DeMorgan(dom, rest, env, S);
      NodesMean(dom, rest, env, S);
      NodesMean(dom, negRest, env, S);
      assert ws == [w] + rest && negs == [Not(w)] + negRest;
      TrueOfSum(dom, [w], rest, env, S);
      TrueOfSum(dom, [Not(w)], negRest, env, S);
      TrueOfOne(dom, w, env, S);
      TrueOfOne(dom, Not(w), env, S);
      NegationMeans(dom, w, env, S);
    }
  }

  // ---- the whole normalisation

  /** The passes of normalize_all_wffs, for a formula with `d` parameters. */
  function NormalizeWff(dom: Domain, w: Wff, ghost d: nat): Wff
    requires Numbered(w, d)
  {
    SimplifyNumbered(dom, w, d);
    var used := RemoveUnused(Simplify(dom, w), d);
    NumberedIsScoped(used, d);
    ExpandIsQuantifierFree(dom, used, d);
    Cleanup(dom, NotsDown(Expand(dom, used, d)))
  }

  /** Normalisation keeps the typed first-order meaning of the formula, for all values of the
      parameters, in every state that respects the static facts. */
  lemma NormalizeMeans(dom: Domain, w: Wff, d: nat, env: map<nat, nat>, S: set<GroundFact>)
    requires Numbered(w, d) && StaticOk(dom, S) && TypesInhabited(dom)
    ensures Eval(dom, NormalizeWff(dom, w, d), env, S) == Eval(dom, w, env, S)
  {
    hide Eval, StaticOk, TypesInhabited, Numbered, Scoped, QuantifierFree, NegationNormal, Cleanup;
    var a := Simplify(dom, w);
    SimplifyNumbered(dom, w, d);
    var b := RemoveUnused(a, d);
    NumberedIsScoped(b, d);
    var c := Expand(dom, b, d);
    ExpandIsQuantifierFree(dom, b, d);
    SimplifyMeans(dom, w, env, S);
    RemoveUnusedMeans(dom, a, d, env, S);
    ExpandMeans(dom, b, d, env, S);
    NotsDownMeans(dom, c, env, S);
    CleanupMeans(dom, NotsDown(c), env, S);
  }
}
