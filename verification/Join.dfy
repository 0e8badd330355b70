/** The join over static preconditions in inst_easy.c. */
module Join {
  import opened Sequences
  import opened Formulas

  const UNBOUND: int := -1

  /** An operator as the join sees it: the types of its variables, its static preconditions, and the
      variables that occur in none of these. */
  datatype Schema = Schema(dom: Domain, types: seq<nat>, conds: seq<Fact>, params: seq<nat>) {

    predicate HasType(c: int, v: nat)
      requires v < |types|
    {
      c in dom.consts(types[v])
    }

    /** The arguments of a static precondition fit the initial facts and the variables. */
    ghost predicate CondOk(f: Fact) {
      && (forall i :: 0 <= i < |f.args| && f.args[i] < 0 ==> DecodeVar(f.args[i]) < |types| && DecodeVar(f.args[i]) !in params)
      && Distinct(dom.initial(f.pred)) && forall row :: row in dom.initial(f.pred) ==> |row| == |f.args|
    }

    ghost predicate Ok() {
      && Distinct(params) && Below(params, |types|)
      && (forall ty :: Distinct(dom.consts(ty)))
      && forall k :: 0 <= k < |conds| ==> CondOk(conds[k])
    }

    /** Values for the variables, some of them still without one. */
    predicate IsTable(t: seq<int>) {
      |t| == |types| && forall v :: 0 <= v < |t| ==> t[v] >= UNBOUND
    }

    predicate ArgsOk(args: seq<int>) {
      forall i :: 0 <= i < |args| && args[i] < 0 ==> DecodeVar(args[i]) < |types|
    }

    // ---- what the recursion computes

    /** All values for the parameters from the `k`-th on, those found later in front. */
    ghost function Multiplied(k: nat, t: seq<int>): seq<seq<int>>
      requires Below(params, |types|) && |t| == |types| && k <= |params|
      decreases |params| - k, 0, 0
    {
      if k == |params| then [t] else MultipliedOver(dom.consts(types[params[k]]), k, t)
    }

    ghost function MultipliedOver(cs: seq<nat>, k: nat, t: seq<int>): seq<seq<int>>
      requires Below(params, |types|) && |t| == |types| && k < |params|
      decreases |params| - k - 1, 1, |cs|
    {
      if cs == [] then [] else MultipliedOver(cs[1..], k, t) + Multiplied(k + 1, t[params[k] := cs[0]])
    }

    /** The arguments with the values of the variables that have one. */
    function BoundArgs(args: seq<int>, t: seq<int>): (r: seq<int>)
      requires IsTable(t) && ArgsOk(args)
      ensures |r| == |args| && ArgsOk(r)
    {
      seq(|args|, i requires 0 <= i < |args| => BoundArg(args[i], t))
    }

    function BoundArg(a: int, t: seq<int>): int
      requires a < 0 ==> DecodeVar(a) < |t|
    {
      if a < 0 && t[DecodeVar(a)] != UNBOUND then t[DecodeVar(a)] else a
    }

    /** The row agrees with the bound arguments, and its other constants have the right types. */
    predicate RowFits(args: seq<int>, row: seq<nat>)
      requires |row| == |args| && ArgsOk(args)
    {
      forall j :: 0 <= j < |args| ==> Fits(args[j], row[j])
    }

    predicate Fits(a: int, c: nat)
      requires a < 0 ==> DecodeVar(a) < |types|
    {
      if a >= 0 then a == c else HasType(c, DecodeVar(a))
    }

    /** The table after the first `n` constants of the row are entered for the unbound arguments. Of
        several occurrences of one variable the last one counts. */
    function Entered(args: seq<int>, row: seq<nat>, n: nat, t: seq<int>): (r: seq<int>)
      requires |row| == |args| && n <= |args| && IsTable(t) && ArgsOk(args)
      ensures IsTable(r)
    {
      if n == 0 then t
      else
        var b := Entered(args, row, n - 1, t);
        if args[n - 1] < 0 then b[DecodeVar(args[n - 1]) := row[n - 1]] else b
    }

    /** All values that satisfy the static preconditions from the `k`-th on. */
    ghost function Unified(k: nat, t: seq<int>): seq<seq<int>>
      requires Ok() && IsTable(t) && k <= |conds|
      decreases |conds| - k, 0, 0
    {
      if k == |conds| then Multiplied(0, t)
      else UnifiedOver(dom.initial(conds[k].pred), BoundArgs(conds[k].args, t), k, t)
    }

    ghost function UnifiedOver(rows: seq<seq<nat>>, args: seq<int>, k: nat, t: seq<int>): seq<seq<int>>
      requires Ok() && IsTable(t) && k < |conds| && (forall row :: row in rows ==> |row| == |args|) && ArgsOk(args)
      decreases |conds| - k - 1, 1, |rows|
    {
      if rows == [] then []
      else
        UnifiedOver(rows[1..], args, k, t)
          + (if RowFits(args, rows[0]) then Unified(k + 1, Entered(args, rows[0], |args|, t)) else [])
    }
  }

  // ---- the code

  class EasyTemplates {
    const s: Schema
    const instTable: array<int>
    var templates: seq<seq<int>>

    ghost predicate Valid() {
      s.Ok() && instTable.Length == |s.types|
    }

    constructor (s: Schema)
      requires s.Ok()
      ensures Valid() && this.s == s && fresh(instTable) && templates == []
      ensures forall v :: 0 <= v < instTable.Length ==> instTable[v] == UNBOUND
    {
      this.s, instTable, templates := s, new int[|s.types|](_ => UNBOUND), [];
    }

    /** The parameters from the `k`-th on have no value. */
    ghost predicate Free(k: nat)
      requires Valid()
      reads instTable
    {
      forall i :: k <= i < |s.params| ==> instTable[s.params[i]] == UNBOUND
    }

    method AddTemplate()
      modifies `templates
      ensures templates == [instTable[..]] + old(templates)
    {
      templates := [instTable[..]] + templates;
    }

    /** multiply_easy_non_constrained_op_parameters. */
    method MultiplyNonConstrained(k: nat)
      requires Valid() && k <= |s.params| && Free(k)
      modifies `templates, instTable
      ensures instTable[..] == old(instTable[..])
      ensures templates == s.Multiplied(k, old(instTable[..])) + old(templates)
      decreases |s.params| - k
    {
      if k == |s.params| {
        AddTemplate();
        return;
      }
      var v := s.params[k];
      var cs := s.dom.consts(s.types[v]);
      ghost var t, old0 := instTable[..], templates;
      for i := 0 to |cs|
        invariant |instTable[..]| == |t| && instTable[..][v := UNBOUND] == t
        invariant s.MultipliedOver(cs, k, t) + old0 == s.MultipliedOver(cs[i..], k, t) + templates
      {
        ghost var before := templates;
        instTable[v] := cs[i];
        assert instTable[..] == t[v := cs[i]];
        if k == |s.params| - 1 {
          AddTemplate();
        } else {
          MultiplyNonConstrained(k + 1);
        }
        NextConst(s, cs, i, k, t, before);
      }
      instTable[v] := UNBOUND;
    }
  
    /** The inner loop of unify_easy_inertia_preconds: enter the row as far as it fits. */
    method EnterRow(args: seq<int>, row: seq<nat>, ghost t: seq<int>) returns (fits: bool)
      requires Valid() && s.IsTable(t) && s.ArgsOk(args) && |row| == |args|
      requires Outside(args, t, instTable[..])
      modifies instTable
      ensures Outside(args, t, instTable[..]) && fits == s.RowFits(args, row)
      ensures fits ==> instTable[..] == s.Entered(args, row, |args|, t)
    {
      for j := 0 to |args|
        invariant Outside(args, t, instTable[..]) && HasEntered(s, args, row, j, t, instTable[..])
        invariant forall i :: 0 <= i < j ==> s.Fits(args[i], row[i])
      {
        if args[j] >= 0 {
          if args[j] != row[j] {
            return false;
          }
          EnterNone(s, args, row, j, t, instTable[..]);
        } else {
          var v := DecodeVar(args[j]);
          if !s.HasType(row[j], v) {
            return false;
          }
          EnterOne(s, args, row, j, t, instTable[..]);
          instTable[v] := row[j];
        }
      }
      FullyEntered(s, args, row, t, instTable[..]);
      return true;
    }

    /** The last loop of unify_easy_inertia_preconds: the variables of this precondition lose their values. */
    method Release(args: seq<int>, ghost t: seq<int>)
      requires Valid() && |t| == |s.types| && s.ArgsOk(args) && Outside(args, t, instTable[..])
      requires forall i :: 0 <= i < |args| && args[i] < 0 ==> t[DecodeVar(args[i])] == UNBOUND
      modifies instTable
      ensures instTable[..] == t
    {
      for j := 0 to |args|
        invariant Outside(args, t, instTable[..])
        invariant forall i :: 0 <= i < j && args[i] < 0 ==> instTable[DecodeVar(args[i])] == UNBOUND
      {
        if args[j] < 0 {
          instTable[DecodeVar(args[j])] := UNBOUND;
        }
      }
      forall v | 0 <= v < |t|
        ensures instTable[v] == t[v]
      {
        if EncodeVar(v) in args {
          var i :| 0 <= i < |args| && args[i] == EncodeVar(v);
        }
      }
    }

    /** What a row of initial facts contributes: everything that goes on from it. */
    method TryRow(k: nat, args: seq<int>, row: seq<nat>, ghost t: seq<int>)
      requires Valid() && k < |s.conds| && s.IsTable(t) && s.ArgsOk(args) && |row| == |args|
      requires Outside(args, t, instTable[..]) && NoParams(s, args, t)
      modifies `templates, instTable
      ensures Outside(args, t, instTable[..])
      ensures templates == (if s.RowFits(args, row) then s.Unified(k + 1, s.Entered(args, row, |args|, t)) else [])
                           + old(templates)
      decreases |s.conds| - k, 0
    {
      hide Outside, Schema.RowFits, Schema.Entered, Schema.Unified, Schema.CondOk, NoParams;
      var fits := EnterRow(args, row, t);
      if fits {
        ParamsFree(s, args, t, instTable[..]);
        UnifyInertiaPreconds(k + 1);
      }
    }

    /** unify_easy_inertia_preconds. */
    method UnifyInertiaPreconds(k: nat)
      requires Valid() && k <= |s.conds| && s.IsTable(instTable[..]) && Free(0)
      modifies `templates, instTable
      ensures instTable[..] == old(instTable[..])
      ensures templates == s.Unified(k, old(instTable[..])) + old(templates)
      decreases |s.conds| - k, 1
    {
      hide Outside, Schema.RowFits, Schema.Entered, Schema.CondOk, NoParams, Schema.UnifiedOver;
      if k == |s.conds| {
        MultiplyNonConstrained(0);
        return;
      }
      ghost var t, old0 := instTable[..], templates;
      NoParamsYet(s, t);
      BoundArgsOk(s, s.conds[k], t);
      var args := s.BoundArgs(s.conds[k].args, instTable[..]);
      var rows := s.dom.initial(s.conds[k].pred);
      NothingEntered(args, t);
      for i := 0 to |rows|
        invariant Outside(args, t, instTable[..])
        invariant s.UnifiedOver(rows, args, k, t) + old0 == s.UnifiedOver(rows[i..], args, k, t) + templates
        modifies `templates, instTable
      {
        ghost var before := templates;
        assert rows[i] in rows;
        TryRow(k, args, rows[i], t);
        NextRow(s, rows, i, args, k, t, before);
      }
      NoRowsLeft(s, rows, args, k, t);
      Release(args, t);
    }
  }

  lemma NoRowsLeft(s: Schema, rows: seq<seq<nat>>, args: seq<int>, k: nat, t: seq<int>)
    requires s.Ok() && s.IsTable(t) && k < |s.conds| && s.ArgsOk(args) && forall row :: row in rows ==> |row| == |args|
    ensures s.UnifiedOver(rows[|rows|..], args, k, t) == []
  {
  }

  /** The parameters have no value in `t`, and `args` does not mention them. */
  ghost predicate NoParams(s: Schema, args: seq<int>, t: seq<int>) {
    Below(s.params, |t|) && forall i :: 0 <= i < |s.params| ==> EncodeVar(s.params[i]) !in args && t[s.params[i]] == UNBOUND
  }

  lemma ParamsFree(s: Schema, args: seq<int>, t: seq<int>, cur: seq<int>)
    requires NoParams(s, args, t) && Outside(args, t, cur)
    ensures Below(s.params, |cur|) && forall i :: 0 <= i < |s.params| ==> cur[s.params[i]] == UNBOUND
  {
  }

  lemma NoParamsYet(s: Schema, t: seq<int>)
    requires Below(s.params, |t|) && forall i :: 0 <= i < |s.params| ==> t[s.params[i]] == UNBOUND
    ensures NoParams(s, [], t)
  {
  }

  lemma NothingEntered(args: seq<int>, t: seq<int>)
    ensures Outside(args, t, t)
  {
  }

  /** The row has equal constants wherever the arguments repeat a variable. */
  ghost predicate SameAtRepeats(args: seq<int>, row: seq<nat>) {
    |row| == |args| && forall i, j :: 0 <= i < j < |args| && args[i] < 0 && args[i] == args[j] ==> row[i] == row[j]
  }

  /** Only the variables of `args` may differ from their values in `t`. */
  ghost predicate Outside(args: seq<int>, t: seq<int>, cur: seq<int>) {
    |cur| == |t| && forall v :: 0 <= v < |t| && EncodeVar(v) !in args ==> cur[v] == t[v]
  }

  /** The variables among the first `n` arguments have the values that entering so much of the row gives. */
  ghost predicate HasEntered(s: Schema, args: seq<int>, row: seq<nat>, n: nat, t: seq<int>, cur: seq<int>)
    requires s.IsTable(t) && s.ArgsOk(args)
  {
    && n <= |args| == |row| && |cur| == |t|
    && forall v: nat :: v < |t| && EncodeVar(v) in args[..n] ==> cur[v] == s.Entered(args, row, n, t)[v]
  }

  lemma EnterOne(s: Schema, args: seq<int>, row: seq<nat>, j: nat, t: seq<int>, cur: seq<int>)
    requires s.IsTable(t) && s.ArgsOk(args) && j < |args| && args[j] < 0 && DecodeVar(args[j]) < |cur|
    requires HasEntered(s, args, row, j, t, cur) && Outside(args, t, cur)
    ensures var cur' := cur[DecodeVar(args[j]) := row[j]];
      HasEntered(s, args, row, j + 1, t, cur') && Outside(args, t, cur')
  {
    assert args[j] in args && args[..j + 1] == args[..j] + [args[j]];
    assert EncodeVar(DecodeVar(args[j])) == args[j];
  }

  lemma EnterNone(s: Schema, args: seq<int>, row: seq<nat>, j: nat, t: seq<int>, cur: seq<int>)
    requires s.IsTable(t) && s.ArgsOk(args) && j < |args| && args[j] >= 0 && HasEntered(s, args, row, j, t, cur)
    ensures HasEntered(s, args, row, j + 1, t, cur)
  {
    assert args[..j + 1] == args[..j] + [args[j]];
  }

  /** Variables that do not occur keep their values, the others have a constant of the row. */
  lemma {:induction false} EnteredSome(s: Schema, args: seq<int>, row: seq<nat>, n: nat, t: seq<int>, v: nat)
    requires s.IsTable(t) && s.ArgsOk(args) && |row| == |args| && n <= |args| && v < |t|
    ensures var r := s.Entered(args, row, n, t);
      && (EncodeVar(v) !in args[..n] ==> r[v] == t[v])
      && (EncodeVar(v) in args[..n] ==> exists i :: 0 <= i < n && args[i] == EncodeVar(v) && r[v] == row[i])
  {
    if n > 0 {
      EnteredSome(s, args, row, n - 1, t, v);
      assert args[..n] == args[..n - 1] + [args[n - 1]];
    }
  }

  /** With equal constants at repeated variables it does not matter which occurrence counts. */
  lemma EnteredAt(s: Schema, args: seq<int>, row: seq<nat>, t: seq<int>, v: nat)
    requires s.IsTable(t) && s.ArgsOk(args) && |row| == |args| && v < |t|
    ensures var r := s.Entered(args, row, |args|, t);
      && (SameAtRepeats(args, row) ==> forall i :: 0 <= i < |args| && args[i] == EncodeVar(v) ==> r[v] == row[i])
      && (EncodeVar(v) !in args ==> r[v] == t[v])
      && (EncodeVar(v) in args ==> exists i :: 0 <= i < |args| && args[i] == EncodeVar(v) && r[v] == row[i])
  {
    hide Schema.Entered;
    EnteredSize(s, args, row, |args|, t);
    EnteredSome(s, args, row, |args|, t, v);
    assert args[..|args|] == args;
    if EncodeVar(v) in args {
      var k :| 0 <= k < |args| && args[k] == EncodeVar(v) && s.Entered(args, row, |args|, t)[v] == row[k];
      if SameAtRepeats(args, row) {
        RepeatsEqual(args, row, EncodeVar(v), k);
      }
    }
  }

  lemma RepeatsEqual(args: seq<int>, row: seq<nat>, a: int, k: nat)
    requires |row| == |args| && SameAtRepeats(args, row) && k < |args| && args[k] == a && a < 0
    ensures forall i :: 0 <= i < |args| && args[i] == a ==> row[i] == row[k]
  {
  }

  lemma FullyEntered(s: Schema, args: seq<int>, row: seq<nat>, t: seq<int>, cur: seq<int>)
    requires s.IsTable(t) && s.ArgsOk(args)
    requires Outside(args, t, cur) && HasEntered(s, args, row, |args|, t, cur)
    ensures cur == s.Entered(args, row, |args|, t)
  {
    var r := s.Entered(args, row, |args|, t);
    assert args[..|args|] == args;
    EnteredSize(s, args, row, |args|, t);
    forall v: nat | v < |t|
      ensures cur[v] == r[v]
    {
      EnteredSome(s, args, row, |args|, t, v);
    }
  }

  lemma EnteredSize(s: Schema, args: seq<int>, row: seq<nat>, n: nat, t: seq<int>)
    requires s.IsTable(t) && s.ArgsOk(args) && |row| == |args| && n <= |args|
    ensures |s.Entered(args, row, n, t)| == |t|
  {
  }

  /** The arguments that stay unbound are variables without a value, and no parameters. */
  lemma BoundArgsOk(s: Schema, f: Fact, t: seq<int>)
    requires s.CondOk(f) && s.IsTable(t)
    ensures s.ArgsOk(f.args)
    ensures var args := s.BoundArgs(f.args, t);
      && (forall i :: 0 <= i < |args| && args[i] < 0 ==> args[i] == f.args[i] && t[DecodeVar(args[i])] == UNBOUND)
      && (NoParams(s, [], t) ==> NoParams(s, args, t))
      && forall row :: row in s.dom.initial(f.pred) ==> |row| == |args|
  {
    var args := s.BoundArgs(f.args, t);
    forall i | 0 <= i < |s.params|
      ensures EncodeVar(s.params[i]) !in args
    {
      assert forall j :: 0 <= j < |args| && args[j] < 0 ==> DecodeVar(f.args[j]) !in s.params;
    }
  }

  lemma NextRow(s: Schema, rows: seq<seq<nat>>, i: nat, args: seq<int>, k: nat, t: seq<int>, before: seq<seq<int>>)
    requires s.Ok() && s.IsTable(t) && k < |s.conds| && s.ArgsOk(args) && i < |rows|
    requires forall row :: row in rows ==> |row| == |args|
    ensures s.UnifiedOver(rows[i..], args, k, t) + before
         == s.UnifiedOver(rows[i + 1..], args, k, t)
          + ((if s.RowFits(args, rows[i]) then s.Unified(k + 1, s.Entered(args, rows[i], |args|, t)) else []) + before)
  {
    hide Schema.Unified, Schema.Entered, Schema.RowFits;
    assert rows[i..][1..] == rows[i + 1..];
  }

  lemma NextConst(s: Schema, cs: seq<nat>, i: nat, k: nat, t: seq<int>, before: seq<seq<int>>)
    requires Below(s.params, |s.types|) && |t| == |s.types| && k < |s.params| && i < |cs|
    ensures s.MultipliedOver(cs[i..], k, t) + before
         == s.MultipliedOver(cs[i + 1..], k, t) + (s.Multiplied(k + 1, t[s.params[k] := cs[i]]) + before)
  {
    assert cs[i..][1..] == cs[i + 1..];
  }

  // ---- the join is a filter

  /** `x` gives every variable a value: the one in `t`, or else a constant of its type. */
  ghost predicate Completes(s: Schema, t: seq<int>, x: seq<int>) {
    && |x| == |t| == |s.types|
    && forall v :: 0 <= v < |t| ==> if t[v] != UNBOUND then x[v] == t[v] else s.HasType(x[v], v)
  }

  /** The row is the instance of the arguments under `x`. */
  ghost predicate RowIs(args: seq<int>, x: seq<int>, row: seq<nat>) {
    && |row| == |args|
    && forall i :: 0 <= i < |args| ==>
      if args[i] >= 0 then row[i] == args[i] else DecodeVar(args[i]) < |x| && row[i] == x[DecodeVar(args[i])]
  }

  ghost predicate HoldsIn(rows: seq<seq<nat>>, args: seq<int>, x: seq<int>) {
    exists row :: row in rows && RowIs(args, x, row)
  }

  /** The static preconditions from the `k`-th on are initial facts. */
  ghost predicate HoldFrom(s: Schema, k: nat, x: seq<int>) {
    forall i :: k <= i < |s.conds| ==> HoldsIn(s.dom.initial(s.conds[i].pred), s.conds[i].args, x)
  }

  lemma DistinctSum<T>(a: seq<T>, b: seq<T>)
    requires Distinct(a) && Distinct(b) && forall x :: x in a ==> x !in b
    ensures Distinct(a + b)
  {
    forall i, j | 0 <= i < j < |a + b|
      ensures (a + b)[i] != (a + b)[j]
    {
      if i < |a| <= j {
        assert a[i] in a && b[j - |a|] in b;
      }
    }
  }

  lemma {:induction false} MultipliedExact(s: Schema, k: nat, t: seq<int>)
    requires s.Ok() && s.IsTable(t) && k <= |s.params|
    requires forall v: nat :: v < |t| ==> (t[v] == UNBOUND <==> v in s.params[k..])
    ensures forall x :: x in s.Multiplied(k, t) <==> Completes(s, t, x)
    ensures Distinct(s.Multiplied(k, t))
    decreases |s.params| - k, 0, 0
  {
    hide Schema.CondOk;
    if k == |s.params| {
      forall x | Completes(s, t, x)
        ensures x == t
      {
      }
    } else {
      var v := s.params[k];
      var cs := s.dom.consts(s.types[v]);
      assert v in s.params[k..];
      MultipliedOverExact(s, cs, k, t);
      forall x
        ensures x in s.Multiplied(k, t) <==> Completes(s, t, x)
      {
        OneParameter(s, v, t, x);
      }
    }
  }

  lemma OneParameter(s: Schema, v: nat, t: seq<int>, x: seq<int>)
    requires |t| == |s.types| && v < |t| && t[v] == UNBOUND
    ensures Completes(s, t, x) <==> |x| == |t| && s.HasType(x[v], v) && Completes(s, t[v := x[v]], x)
  {
  }

  lemma {:induction false} MultipliedOverExact(s: Schema, cs: seq<nat>, k: nat, t: seq<int>)
    requires s.Ok() && s.IsTable(t) && k < |s.params| && Distinct(cs)
    requires forall v: nat :: v < |t| ==> (t[v] == UNBOUND <==> v in s.params[k..])
    ensures forall x :: x in s.MultipliedOver(cs, k, t) <==>
      |x| == |t| && x[s.params[k]] in cs && Completes(s, t[s.params[k] := x[s.params[k]]], x)
    ensures Distinct(s.MultipliedOver(cs, k, t))
    decreases |s.params| - k - 1, 1, |cs|
  {
    hide Schema.CondOk, Completes;
    if cs != [] {
      var v := s.params[k];
      var t' := t[v := cs[0]];
      MultipliedOverExact(s, cs[1..], k, t);
      ParamsSplit(s, k);
      MultipliedExact(s, k + 1, t');
      CompletesAt(s, t', v);
      DistinctSum(s.MultipliedOver(cs[1..], k, t), s.Multiplied(k + 1, t'));
      assert cs == [cs[0]] + cs[1..];
    }
  }

  lemma ParamsSplit(s: Schema, k: nat)
    requires k < |s.params| && Distinct(s.params)
    ensures forall v :: v in s.params[k..] <==> v == s.params[k] || v in s.params[k + 1..]
    ensures s.params[k] !in s.params[k + 1..]
  {
    assert s.params[k..] == [s.params[k]] + s.params[k + 1..];
  }

  lemma CompletesAt(s: Schema, t: seq<int>, v: nat)
    requires v < |t| && t[v] != UNBOUND
    ensures forall x :: Completes(s, t, x) ==> |x| == |t| && x[v] == t[v]
  {
  }

  /** The row of an instance has equal constants at repeated variables. */
  lemma InstanceRepeats(s: Schema, f: Fact, row: seq<nat>, t: seq<int>, x: seq<int>)
    requires s.IsTable(t) && s.ArgsOk(f.args) && RowIs(f.args, x, row)
    ensures SameAtRepeats(f.args, row) && SameAtRepeats(s.BoundArgs(f.args, t), row)
  {
    BoundRepeats(s, f, row, t);
  }

  /** Only unbound arguments can disagree. */
  lemma BoundRepeats(s: Schema, f: Fact, row: seq<nat>, t: seq<int>)
    requires s.IsTable(t) && s.ArgsOk(f.args) && SameAtRepeats(f.args, row)
    ensures SameAtRepeats(s.BoundArgs(f.args, t), row)
  {
    var args := s.BoundArgs(f.args, t);
    forall i, j | 0 <= i < j < |args| && args[i] < 0 && args[i] == args[j]
      ensures row[i] == row[j]
    {
      assert args[i] == s.BoundArg(f.args[i], t) && args[j] == s.BoundArg(f.args[j], t);
    }
  }

  /** A row that fits, entered in the table, is the row of the completed instance, when the row has equal
      constants at repeated variables. */
  lemma RowStep(s: Schema, f: Fact, row: seq<nat>, t: seq<int>, x: seq<int>)
    requires s.CondOk(f) && s.IsTable(t) && |row| == |f.args|
    requires s.RowFits(s.BoundArgs(f.args, t), row) ==> SameAtRepeats(s.BoundArgs(f.args, t), row)
    ensures s.ArgsOk(f.args)
    ensures var args := s.BoundArgs(f.args, t);
      s.RowFits(args, row) && Completes(s, s.Entered(args, row, |args|, t), x)
      <==> Completes(s, t, x) && RowIs(f.args, x, row)
  {
    var args := s.BoundArgs(f.args, t);
    BoundArgsOk(s, f, t);
    if s.RowFits(args, row) && Completes(s, s.Entered(args, row, |args|, t), x) {
      RowEntered(s, args, row, t);
      RowStepForth(s, f, args, row, t, s.Entered(args, row, |args|, t), x);
    }
    if Completes(s, t, x) && RowIs(f.args, x, row) {
      InstanceRepeats(s, f, row, t, x);
      RowEntered(s, args, row, t);
      RowStepBack(s, f, args, row, t, s.Entered(args, row, |args|, t), x);
    }
  }

  /** Whatever the row is, the instance made from it has this row as its precondition exactly if the row
      has equal constants where an unbound variable is repeated. */
  lemma EnteredRowIsExact(s: Schema, f: Fact, row: seq<nat>, t: seq<int>, x: seq<int>)
    requires s.CondOk(f) && s.IsTable(t) && |row| == |f.args|
    requires s.ArgsOk(f.args)
    requires s.RowFits(s.BoundArgs(f.args, t), row)
    requires Completes(s, s.Entered(s.BoundArgs(f.args, t), row, |f.args|, t), x)
    ensures RowIs(f.args, x, row) <==> SameAtRepeats(s.BoundArgs(f.args, t), row)
  {
    if RowIs(f.args, x, row) {
      InstanceRepeats(s, f, row, t, x);
    }
    if SameAtRepeats(s.BoundArgs(f.args, t), row) {
      RowStep(s, f, row, t, x);
    }
  }

  lemma RowEntered(s: Schema, args: seq<int>, row: seq<nat>, t: seq<int>)
    requires s.IsTable(t) && s.ArgsOk(args) && SameAtRepeats(args, row)
    ensures IsEntered(s, args, row, t, s.Entered(args, row, |args|, t))
  {
    hide Schema.Entered;
    EnteredSize(s, args, row, |args|, t);
    forall v: nat | v < |t|
      ensures EncodeVar(v) !in args ==> s.Entered(args, row, |args|, t)[v] == t[v]
      ensures forall i :: 0 <= i < |args| && args[i] == EncodeVar(v) ==> s.Entered(args, row, |args|, t)[v] == row[i]
    {
      EnteredAt(s, args, row, t, v);
    }
  }

  /** `r` is `t` with the row entered for the unbound arguments. */
  ghost predicate IsEntered(s: Schema, args: seq<int>, row: seq<nat>, t: seq<int>, r: seq<int>) {
    && |r| == |t| == |s.types| && |row| == |args| && s.ArgsOk(args)
    && forall v: nat :: v < |t| ==>
      && (EncodeVar(v) !in args ==> r[v] == t[v])
      && (forall i :: 0 <= i < |args| && args[i] == EncodeVar(v) ==> r[v] == row[i])
  }

  lemma RowStepForth(s: Schema, f: Fact, args: seq<int>, row: seq<nat>, t: seq<int>, r: seq<int>, x: seq<int>)
    requires s.CondOk(f) && s.IsTable(t) && s.ArgsOk(f.args) && args == s.BoundArgs(f.args, t)
    requires IsEntered(s, args, row, t, r) && s.RowFits(args, row) && Completes(s, r, x)
    requires forall i :: 0 <= i < |args| && args[i] < 0 ==> args[i] == f.args[i] && t[DecodeVar(args[i])] == UNBOUND
    ensures Completes(s, t, x) && RowIs(f.args, x, row)
  {
    hide Schema.CondOk;
    forall v: nat | v < |t|
      ensures if t[v] != UNBOUND then x[v] == t[v] else s.HasType(x[v], v)
    {
      if EncodeVar(v) in args {
        var i :| 0 <= i < |args| && args[i] == EncodeVar(v);
        assert s.Fits(args[i], row[i]);
      }
    }
    forall i | 0 <= i < |f.args|
      ensures if f.args[i] >= 0 then row[i] == f.args[i] else row[i] == x[DecodeVar(f.args[i])]
    {
      assert s.Fits(args[i], row[i]);
      assert args[i] == s.BoundArg(f.args[i], t);
    }
  }

  lemma RowStepBack(s: Schema, f: Fact, args: seq<int>, row: seq<nat>, t: seq<int>, r: seq<int>, x: seq<int>)
    requires s.CondOk(f) && s.IsTable(t) && s.ArgsOk(f.args) && args == s.BoundArgs(f.args, t)
    requires IsEntered(s, args, row, t, r) && Completes(s, t, x) && RowIs(f.args, x, row)
    requires forall i :: 0 <= i < |args| && args[i] < 0 ==> args[i] == f.args[i] && t[DecodeVar(args[i])] == UNBOUND
    ensures s.RowFits(args, row) && Completes(s, r, x)
  {
    hide Schema.CondOk;
    forall v: nat | v < |t|
      ensures if r[v] != UNBOUND then x[v] == r[v] else s.HasType(x[v], v)
    {
      if EncodeVar(v) in args {
        var i :| 0 <= i < |args| && args[i] == EncodeVar(v);
        assert row[i] == x[DecodeVar(f.args[i])];
      }
    }
    forall i | 0 <= i < |args|
      ensures s.Fits(args[i], row[i])
    {
      assert args[i] == s.BoundArg(f.args[i], t);
    }
  }

  /** The variables without a value are parameters or occur in a later precondition. */
  ghost predicate Covered(s: Schema, k: nat, t: seq<int>) {
    forall v: nat :: v < |t| && t[v] == UNBOUND ==> v in s.params || Mentioned(s, k, v)
  }

  ghost predicate Mentioned(s: Schema, k: nat, v: nat) {
    exists i :: k <= i < |s.conds| && EncodeVar(v) in s.conds[i].args
  }

  /** Every row that fits the precondition has equal constants where this repeats a variable. */
  ghost predicate Agrees(s: Schema, f: Fact)
    requires s.ArgsOk(f.args)
  {
    forall row :: row in s.dom.initial(f.pred) && |row| == |f.args| && s.RowFits(f.args, row) ==> SameAtRepeats(f.args, row)
  }

  ghost predicate AllAgree(s: Schema)
    requires s.Ok()
  {
    forall k :: 0 <= k < |s.conds| ==> s.ArgsOk(s.conds[k].args) && Agrees(s, s.conds[k])
  }

  ghost predicate Typed(s: Schema, t: seq<int>) {
    |t| == |s.types| && forall v :: 0 <= v < |t| && t[v] != UNBOUND ==> s.HasType(t[v], v)
  }

  lemma FittingAgrees(s: Schema, f: Fact, row: seq<nat>, t: seq<int>)
    requires s.CondOk(f) && s.IsTable(t) && Typed(s, t) && s.ArgsOk(f.args) && Agrees(s, f)
    requires row in s.dom.initial(f.pred)
    ensures var args := s.BoundArgs(f.args, t); s.RowFits(args, row) ==> SameAtRepeats(args, row)
  {
    var args := s.BoundArgs(f.args, t);
    if s.RowFits(args, row) {
      forall j | 0 <= j < |args|
        ensures s.Fits(f.args[j], row[j])
      {
        assert args[j] == s.BoundArg(f.args[j], t) && s.Fits(args[j], row[j]);
      }
      BoundRepeats(s, f, row, t);
    }
  }

  lemma EnteredTypedAt(s: Schema, args: seq<int>, row: seq<nat>, t: seq<int>, v: nat)
    requires s.IsTable(t) && Typed(s, t) && s.ArgsOk(args) && |row| == |args| && s.RowFits(args, row) && v < |t|
    ensures var c := s.Entered(args, row, |args|, t)[v]; c != UNBOUND ==> s.HasType(c, v)
  {
    hide Schema.Entered, SameAtRepeats, Schema.HasType;
    EnteredAt(s, args, row, t, v);
    if EncodeVar(v) in args {
      var i :| 0 <= i < |args| && args[i] == EncodeVar(v) && s.Entered(args, row, |args|, t)[v] == row[i];
      assert s.Fits(args[i], row[i]);
    }
  }

  lemma EnteredTyped(s: Schema, args: seq<int>, row: seq<nat>, t: seq<int>)
    requires s.IsTable(t) && Typed(s, t) && s.ArgsOk(args) && |row| == |args| && s.RowFits(args, row)
    ensures Typed(s, s.Entered(args, row, |args|, t))
  {
    hide Schema.Entered, Schema.RowFits, Schema.HasType, Schema.ArgsOk;
    EnteredSize(s, args, row, |args|, t);
    forall v: nat | v < |t| && s.Entered(args, row, |args|, t)[v] != UNBOUND
      ensures s.HasType(s.Entered(args, row, |args|, t)[v], v)
    {
      EnteredTypedAt(s, args, row, t, v);
    }
  }

  lemma {:induction false} UnifiedExact(s: Schema, k: nat, t: seq<int>)
    requires s.Ok() && s.IsTable(t) && k <= |s.conds| && NoParams(s, [], t) && Covered(s, k, t)
    requires Typed(s, t) && AllAgree(s)
    ensures forall x :: x in s.Unified(k, t) <==> Completes(s, t, x) && HoldFrom(s, k, x)
    ensures Distinct(s.Unified(k, t))
    decreases |s.conds| - k, 0, 0
  {
    if k == |s.conds| {
      forall v: nat | v < |t|
        ensures t[v] == UNBOUND <==> v in s.params[0..]
      {
        assert s.params[0..] == s.params;
      }
      MultipliedExact(s, 0, t);
    } else {
      var f := s.conds[k];
      BoundArgsOk(s, f, t);
      var rows := s.dom.initial(f.pred);
      hide Completes, Covered, NoParams, HoldsIn, Schema.Ok, Schema.CondOk, Typed, AllAgree;
      UnifiedOverExact(s, rows, k, t);
    }
  }

  lemma {:induction false} UnifiedOverExact(s: Schema, rows: seq<seq<nat>>, k: nat, t: seq<int>)
    requires s.Ok() && s.IsTable(t) && k < |s.conds| && NoParams(s, [], t) && Covered(s, k, t)
    requires Distinct(rows) && forall row :: row in rows ==> |row| == |s.conds[k].args|
    requires Typed(s, t) && AllAgree(s) && forall row :: row in rows ==> row in s.dom.initial(s.conds[k].pred)
    ensures s.ArgsOk(s.conds[k].args)
    ensures var us := s.UnifiedOver(rows, s.BoundArgs(s.conds[k].args, t), k, t);
      && (forall x :: x in us <==> Completes(s, t, x) && HoldsIn(rows, s.conds[k].args, x) && HoldFrom(s, k + 1, x))
      && Distinct(us)
    decreases |s.conds| - k - 1, 1, |rows|
  {
    var f := s.conds[k];
    assert s.CondOk(f);
    BoundArgsOk(s, f, t);
    if rows != [] {
      OneRow(s, rows, k, t);
    }
  }

  lemma {:induction false} OneRow(s: Schema, rows: seq<seq<nat>>, k: nat, t: seq<int>)
    requires s.Ok() && s.IsTable(t) && k < |s.conds| && NoParams(s, [], t) && Covered(s, k, t) && rows != []
    requires Distinct(rows) && forall row :: row in rows ==> |row| == |s.conds[k].args|
    requires Typed(s, t) && AllAgree(s) && forall row :: row in rows ==> row in s.dom.initial(s.conds[k].pred)
    ensures s.ArgsOk(s.conds[k].args)
    ensures var us := s.UnifiedOver(rows, s.BoundArgs(s.conds[k].args, t), k, t);
      && (forall x :: x in us <==> Completes(s, t, x) && HoldsIn(rows, s.conds[k].args, x) && HoldFrom(s, k + 1, x))
      && Distinct(us)
    decreases |s.conds| - k - 1, 1, |rows|, 0
  {
    hide Completes, HoldsIn, HoldFrom, Covered, NoParams, Schema.CondOk, RowIs, Schema.RowFits, Schema.Entered, Schema.Unified, Schema.BoundArgs,
      Typed, SameAtRepeats;
    var f := s.conds[k];
    assert s.CondOk(f);
    BoundArgsOk(s, f, t);
    var args := s.BoundArgs(f.args, t);
    var row, rest := rows[0], rows[1..];
    assert rows == [row] + rest && row in rows;
    UnifiedOverExact(s, rest, k, t);
    var front := s.UnifiedOver(rest, args, k, t);
    var back := if s.RowFits(args, row) then s.Unified(k + 1, s.Entered(args, row, |args|, t)) else [];
    FittingAgrees(s, f, row, t);
    if s.RowFits(args, row) {
      EnteredTyped(s, args, row, t);
      EnteredCovers(s, k, row, t);
      UnifiedExact(s, k + 1, s.Entered(args, row, |args|, t));
    }
    forall x
      ensures x in back <==> Completes(s, t, x) && RowIs(f.args, x, row) && HoldFrom(s, k + 1, x)
    {
      RowStep(s, f, row, t, x);
    }
    forall x
      ensures HoldsIn(rows, f.args, x) <==> RowIs(f.args, x, row) || HoldsIn(rest, f.args, x)
      ensures RowIs(f.args, x, row) ==> !HoldsIn(rest, f.args, x)
    {
      RowsSplit(rows, f.args, x);
    }
    DistinctSum(front, back);
  }

  lemma RowsSplit(rows: seq<seq<nat>>, args: seq<int>, x: seq<int>)
    requires rows != [] && Distinct(rows)
    ensures HoldsIn(rows, args, x) <==> RowIs(args, x, rows[0]) || HoldsIn(rows[1..], args, x)
    ensures RowIs(args, x, rows[0]) ==> !HoldsIn(rows[1..], args, x)
  {
    hide Distinct;
    assert rows == [rows[0]] + rows[1..];
    if RowIs(args, x, rows[0]) && HoldsIn(rows[1..], args, x) {
      var row :| row in rows[1..] && RowIs(args, x, row);
      SameRow(args, x, row, rows[0]);
      FirstOnce(rows);
    }
  }

  lemma SameRow(args: seq<int>, x: seq<int>, row: seq<nat>, row': seq<nat>)
    requires RowIs(args, x, row) && RowIs(args, x, row')
    ensures row == row'
  {
    forall i | 0 <= i < |args|
      ensures row[i] == row'[i]
    {
    }
  }

  lemma FirstOnce<T>(s: seq<T>)
    requires Distinct(s) && s != []
    ensures s[0] !in s[1..]
  {
  }

  /** What entering a row does to the value of one variable. */
  lemma EnteredCell(s: Schema, f: Fact, row: seq<nat>, t: seq<int>, v: nat)
    requires s.CondOk(f) && s.IsTable(t) && |row| == |f.args| && v < |t|
    ensures s.ArgsOk(f.args)
    ensures var args := s.BoundArgs(f.args, t); var r := s.Entered(args, row, |args|, t);
      && (EncodeVar(v) !in args ==> r[v] == t[v])
      && (EncodeVar(v) in args ==> r[v] >= 0)
      && (EncodeVar(v) in f.args && t[v] == UNBOUND ==> EncodeVar(v) in args)
  {
    BoundArgsOk(s, f, t);
    var args := s.BoundArgs(f.args, t);
    hide Schema.CondOk;
    EnteredAt(s, args, row, t, v);
    if EncodeVar(v) in f.args && t[v] == UNBOUND {
      var j :| 0 <= j < |f.args| && f.args[j] == EncodeVar(v);
      assert args[j] == EncodeVar(v);
    }
  }

  lemma EnteredCovers(s: Schema, k: nat, row: seq<nat>, t: seq<int>)
    requires s.Ok() && s.IsTable(t) && k < |s.conds| && NoParams(s, [], t) && Covered(s, k, t)
    requires |row| == |s.conds[k].args| && s.CondOk(s.conds[k])
    ensures s.ArgsOk(s.conds[k].args)
    ensures var args := s.BoundArgs(s.conds[k].args, t); var r := s.Entered(args, row, |args|, t);
      NoParams(s, [], r) && Covered(s, k + 1, r)
  {
    hide Schema.CondOk, Schema.BoundArgs, Schema.Entered, Schema.Ok;
    var f := s.conds[k];
    BoundArgsOk(s, f, t);
    var args := s.BoundArgs(f.args, t);
    var r := s.Entered(args, row, |args|, t);
    forall v: nat | v < |t|
      ensures EncodeVar(v) !in args ==> r[v] == t[v]
      ensures EncodeVar(v) in args ==> r[v] >= 0
      ensures EncodeVar(v) in f.args && t[v] == UNBOUND ==> EncodeVar(v) in args
    {
      EnteredCell(s, f, row, t, v);
    }
    forall v: nat | v < |t| && r[v] == UNBOUND
      ensures v in s.params || Mentioned(s, k + 1, v)
    {
      assert EncodeVar(v) !in f.args;
    }
  }

  /** For a table without values, the join gives exactly the well-typed instances whose static
      preconditions are initial facts, each of them once, if the rows that fit agree where a precondition
      repeats a variable. */
  lemma JoinIsFilter(s: Schema, t: seq<int>)
    requires s.Ok() && |t| == |s.types| && (forall v :: 0 <= v < |t| ==> t[v] == UNBOUND) && Covered(s, 0, t) && AllAgree(s)
    ensures forall x :: x in s.Unified(0, t) <==>
      |x| == |s.types| && (forall v :: 0 <= v < |x| ==> s.HasType(x[v], v)) && HoldFrom(s, 0, x)
    ensures Distinct(s.Unified(0, t))
  {
    UnifiedExact(s, 0, t);
  }

  // ---- rows that disagree

  /** What the row contributes to the join over one precondition. */
  ghost function Contribution(s: Schema, args: seq<int>, row: seq<nat>, k: nat, t: seq<int>): seq<seq<int>>
    requires s.Ok() && s.IsTable(t) && k < |s.conds| && |row| == |args| && s.ArgsOk(args)
  {
    if s.RowFits(args, row) then s.Unified(k + 1, s.Entered(args, row, |args|, t)) else []
  }

  lemma {:induction false} ContributionIn(s: Schema, rows: seq<seq<nat>>, args: seq<int>, k: nat, t: seq<int>, i: nat, x: seq<int>)
    requires s.Ok() && s.IsTable(t) && k < |s.conds| && (forall row :: row in rows ==> |row| == |args|) && s.ArgsOk(args)
    requires i < |rows| && x in Contribution(s, args, rows[i], k, t)
    ensures x in s.UnifiedOver(rows, args, k, t)
    decreases |rows|
  {
    hide Schema.Ok, Schema.RowFits, Schema.Entered, Schema.Unified;
    if i > 0 {
      ContributionIn(s, rows[1..], args, k, t, i - 1, x);
    }
  }

  lemma NotDistinctSum<T>(a: seq<T>, b: seq<T>, x: T)
    requires !Distinct(a) || (x in a && x in b)
    ensures !Distinct(a + b)
  {
    if x in a && x in b {
      var i :| 0 <= i < |a| && a[i] == x;
      var j :| 0 <= j < |b| && b[j] == x;
      assert (a + b)[i] == (a + b)[|a| + j];
    } else {
      var i, j :| 0 <= i < j < |a| && a[i] == a[j];
      assert (a + b)[i] == (a + b)[j];
    }
  }

  /** What two rows contribute is there twice. */
  lemma {:induction false} ContributedTwice(s: Schema, rows: seq<seq<nat>>, args: seq<int>, k: nat, t: seq<int>, i: nat, j: nat,
                                            x: seq<int>)
    requires s.Ok() && s.IsTable(t) && k < |s.conds| && (forall row :: row in rows ==> |row| == |args|) && s.ArgsOk(args)
    requires i < j < |rows|
    requires x in Contribution(s, args, rows[i], k, t) && x in Contribution(s, args, rows[j], k, t)
    ensures !Distinct(s.UnifiedOver(rows, args, k, t))
    decreases |rows|
  {
    hide Schema.Ok, Schema.RowFits, Schema.Entered, Schema.Unified, Distinct;
    if i == 0 {
      ContributionIn(s, rows[1..], args, k, t, j - 1, x);
    } else {
      ContributedTwice(s, rows[1..], args, k, t, i - 1, j - 1, x);
    }
    NotDistinctSum(s.UnifiedOver(rows[1..], args, k, t), Contribution(s, args, rows[0], k, t), x);
  }

  /** An unbound table, before the only static precondition. */
  ghost predicate OnlyOne(s: Schema, f: Fact, t: seq<int>) {
    && s.Ok() && s.conds == [f] && s.CondOk(f) && s.ArgsOk(f.args) && s.IsTable(t)
    && (forall v :: 0 <= v < |t| ==> t[v] == UNBOUND) && NoParams(s, [], t) && Covered(s, 0, t)
  }

  lemma OnlyOneIs(s: Schema, f: Fact, t: seq<int>)
    requires s.Ok() && s.conds == [f] && |t| == |s.types| && (forall v :: 0 <= v < |t| ==> t[v] == UNBOUND) && Covered(s, 0, t)
    ensures OnlyOne(s, f, t) && s.BoundArgs(f.args, t) == f.args
  {
    assert s.CondOk(s.conds[0]);
  }

  lemma OneContributes(s: Schema, f: Fact, t: seq<int>, row: seq<nat>, x: seq<int>)
    requires OnlyOne(s, f, t) && |row| == |f.args| && s.RowFits(f.args, row)
    requires Completes(s, s.Entered(f.args, row, |f.args|, t), x) && s.BoundArgs(f.args, t) == f.args
    ensures x in Contribution(s, f.args, row, 0, t)
  {
    hide Schema.CondOk, Schema.BoundArgs, Schema.Entered, Schema.Unified, Schema.Ok, NoParams, Covered, Completes;
    assert s.conds[0] == f;
    EnteredCovers(s, 0, row, t);
    EndsMultiplied(s, s.Entered(f.args, row, |f.args|, t), x);
  }

  /** With one static precondition, a row that fits but has different constants where the precondition
      repeats a variable makes the join wrong: some result is no instance, or is there twice. */
  lemma OneDisagrees(s: Schema, f: Fact, row: seq<nat>, t: seq<int>)
    requires s.Ok() && s.conds == [f] && |t| == |s.types| && (forall v :: 0 <= v < |t| ==> t[v] == UNBOUND) && Covered(s, 0, t)
    requires TypesInhabited(s.dom) && s.CondOk(f) && s.ArgsOk(f.args)
    requires row in s.dom.initial(f.pred) && s.RowFits(f.args, row) && !SameAtRepeats(f.args, row)
    requires forall x :: x in s.Unified(0, t) ==> HoldsIn(s.dom.initial(f.pred), f.args, x)
    ensures !Distinct(s.Unified(0, t))
  {
    OnlyOneIs(s, f, t);
    assert s.conds[0] == f;
    var rows := s.dom.initial(f.pred);
    assert s.Unified(0, t) == s.UnifiedOver(rows, f.args, 0, t);
    hide Schema.BoundArgs, Schema.Entered, Schema.Unified, Schema.UnifiedOver, Schema.Ok, NoParams, Covered, Completes,
      Contribution, Schema.RowFits, Distinct, RowIs, SameAtRepeats;
    EnteredSize(s, f.args, row, |f.args|, t);
    var x := SomeCompletion(s, s.Entered(f.args, row, |f.args|, t));
    OneContributes(s, f, t, row, x);
    var i :| 0 <= i < |rows| && rows[i] == row;
    ContributionIn(s, rows, f.args, 0, t, i, x);
    assert HoldsIn(rows, f.args, x);
    var row' :| row' in rows && RowIs(f.args, x, row');
    var j :| 0 <= j < |rows| && rows[j] == row';
    InstanceRepeats(s, f, row', t, x);
    StartCompletes(s, f.args, row, t, x);
    RowStep(s, f, row', t, x);
    OneContributes(s, f, t, row', x);
    if i < j {
      ContributedTwice(s, rows, f.args, 0, t, i, j, x);
    } else {
      ContributedTwice(s, rows, f.args, 0, t, j, i, x);
    }
  }

  /** Some instance completes a table, types being inhabited. */
  lemma SomeCompletion(s: Schema, t: seq<int>) returns (x: seq<int>)
    requires |t| == |s.types| && TypesInhabited(s.dom)
    ensures Completes(s, t, x)
  {
    x := [];
    for v := 0 to |t|
      invariant |x| == v
      invariant forall u :: 0 <= u < v ==> if t[u] != UNBOUND then x[u] == t[u] else s.HasType(x[u], u)
    {
      if t[v] != UNBOUND {
        x := x + [t[v]];
      } else {
        var c := s.dom.consts(s.types[v])[0];
        assert c in s.dom.consts(s.types[v]);
        x := x + [c];
      }
    }
  }

  /** After the last precondition, exactly the completions are made. */
  lemma EndsMultiplied(s: Schema, r: seq<int>, x: seq<int>)
    requires s.Ok() && s.IsTable(r) && NoParams(s, [], r) && Covered(s, |s.conds|, r)
    ensures x in s.Unified(|s.conds|, r) <==> Completes(s, r, x)
  {
    forall v: nat | v < |r|
      ensures r[v] == UNBOUND <==> v in s.params[0..]
    {
      assert s.params[0..] == s.params;
    }
    MultipliedExact(s, 0, r);
  }

  /** A completion of the table with a row is well-typed. */
  lemma StartCompletes(s: Schema, args: seq<int>, row: seq<nat>, t: seq<int>, x: seq<int>)
    requires s.IsTable(t) && (forall v :: 0 <= v < |t| ==> t[v] == UNBOUND) && s.ArgsOk(args) && |row| == |args|
    requires s.RowFits(args, row) && Completes(s, s.Entered(args, row, |args|, t), x)
    ensures Completes(s, t, x)
  {
    EnteredTyped(s, args, row, t);
    EnteredSize(s, args, row, |args|, t);
  }

  // ---- one operator

  predicate IsStatic(dom: Domain, f: Fact) {
    !dom.isAdded(f.pred) && !dom.isDeleted(f.pred)
  }

  function StaticConds(dom: Domain, preconds: seq<Fact>): seq<Fact> {
    if preconds == [] then []
    else
      var front, last := preconds[..|preconds| - 1], preconds[|preconds| - 1];
      StaticConds(dom, front) + if IsStatic(dom, last) then [last] else []
  }

  lemma {:induction false} StaticCondsElems(dom: Domain, preconds: seq<Fact>)
    ensures forall f :: f in StaticConds(dom, preconds) <==> f in preconds && IsStatic(dom, f)
  {
    if preconds != [] {
      assert preconds == preconds[..|preconds| - 1] + [preconds[|preconds| - 1]];
      StaticCondsElems(dom, preconds[..|preconds| - 1]);
    }
  }

  /** What the source relies on: facts fit their predicates, and lists hold no duplicates. */
  ghost predicate OperatorOk(dom: Domain, types: seq<nat>, preconds: seq<Fact>) {
    && (forall ty :: Distinct(dom.consts(ty)))
    && forall f :: f in preconds && IsStatic(dom, f) ==> Schema(dom, types, [], []).CondOk(f)
  }

  method SelectConds(dom: Domain, preconds: seq<Fact>) returns (conds: seq<Fact>)
    ensures conds == StaticConds(dom, preconds)
  {
    conds := [];
    for j := 0 to |preconds|
      invariant conds == StaticConds(dom, preconds[..j])
    {
      assert preconds[..j + 1][..j] == preconds[..j];
      if IsStatic(dom, preconds[j]) {
        conds := conds + [preconds[j]];
      }
    }
    assert preconds[..|preconds|] == preconds;
  }

  /** Whether some of the preconditions mentions the variable. */
  method IsConstrained(conds: seq<Fact>, v: nat) returns (found: bool)
    ensures found <==> exists i :: 0 <= i < |conds| && EncodeVar(v) in conds[i].args
  {
    for k := 0 to |conds|
      invariant forall i :: 0 <= i < k ==> EncodeVar(v) !in conds[i].args
    {
      for l := 0 to |conds[k].args|
        invariant EncodeVar(v) !in conds[k].args[..l]
      {
        if conds[k].args[l] == EncodeVar(v) {
          return true;
        }
        assert conds[k].args[..l + 1] == conds[k].args[..l] + [conds[k].args[l]];
      }
      assert conds[k].args[..|conds[k].args|] == conds[k].args;
    }
    return false;
  }

  /** The parameters that no static precondition constrains. */
  method SelectParams(n: nat, conds: seq<Fact>) returns (params: seq<nat>)
    ensures Distinct(params) && Below(params, n)
    ensures forall v: nat :: v < n ==> (v in params <==> !exists i :: 0 <= i < |conds| && EncodeVar(v) in conds[i].args)
  {
    params := [];
    for j := 0 to n
      invariant Distinct(params) && Below(params, j)
      invariant forall v: nat :: v < j ==> (v in params <==> !exists i :: 0 <= i < |conds| && EncodeVar(v) in conds[i].args)
    {
      var found := IsConstrained(conds, j);
      if !found {
        params := params + [j];
      }
    }
  }

  /** The well-typed instances whose static preconditions are initial facts. */
  ghost predicate IsTemplate(dom: Domain, types: seq<nat>, preconds: seq<Fact>, x: seq<int>) {
    && |x| == |types| && (forall v :: 0 <= v < |x| ==> x[v] in dom.consts(types[v]))
    && forall f :: f in preconds && IsStatic(dom, f) ==> HoldsIn(dom.initial(f.pred), f.args, x)
  }

  lemma OperatorFilter(s: Schema, preconds: seq<Fact>, t: seq<int>)
    requires s.Ok() && |t| == |s.types| && (forall v :: 0 <= v < |t| ==> t[v] == UNBOUND) && Covered(s, 0, t) && AllAgree(s)
    requires forall f :: f in s.conds <==> f in preconds && IsStatic(s.dom, f)
    ensures forall x :: x in s.Unified(0, t) <==> IsTemplate(s.dom, s.types, preconds, x)
    ensures Distinct(s.Unified(0, t))
  {
    hide HoldsIn, Schema.CondOk, Covered, IsStatic, Schema.Unified;
    JoinIsFilter(s, t);
    forall x
      ensures x in s.Unified(0, t) <==> IsTemplate(s.dom, s.types, preconds, x)
    {
      assert forall i :: 0 <= i < |s.conds| ==> s.conds[i] in s.conds;
    }
  }

  /** The templates are exactly the instances, each of them once. */
  ghost predicate AreTemplates(dom: Domain, types: seq<nat>, preconds: seq<Fact>, templates: seq<seq<int>>) {
    Distinct(templates) && forall x :: x in templates <==> IsTemplate(dom, types, preconds, x)
  }

  /** Where a static precondition repeats a variable, the initial facts that fit it agree. */
  ghost predicate AgreeOnRepeats(dom: Domain, types: seq<nat>, preconds: seq<Fact>)
    requires OperatorOk(dom, types, preconds)
  {
    forall f :: f in preconds && IsStatic(dom, f) ==>
      Schema(dom, types, [], []).ArgsOk(f.args) && Agrees(Schema(dom, types, [], []), f)
  }

  lemma AgreeEverywhere(s: Schema, preconds: seq<Fact>)
    requires s.Ok() && OperatorOk(s.dom, s.types, preconds)
    requires forall f :: f in s.conds <==> f in preconds && IsStatic(s.dom, f)
    ensures AgreeOnRepeats(s.dom, s.types, preconds) <==> AllAgree(s)
  {
    var b := Schema(s.dom, s.types, [], []);
    assert forall k :: 0 <= k < |s.conds| ==> s.conds[k] in s.conds;
    forall f | f in s.conds
      ensures s.ArgsOk(f.args) && b.ArgsOk(f.args) && (Agrees(s, f) <==> Agrees(b, f))
    {
      assert b.CondOk(f);
      assert forall row :: |row| == |f.args| ==> (s.RowFits(f.args, row) <==> b.RowFits(f.args, row));
    }
  }

  lemma OnlyIfAgreed(s: Schema, preconds: seq<Fact>, t: seq<int>)
    requires s.Ok() && |t| == |s.types| && (forall v :: 0 <= v < |t| ==> t[v] == UNBOUND) && Covered(s, 0, t)
    requires forall f :: f in s.conds <==> f in preconds && IsStatic(s.dom, f)
    requires TypesInhabited(s.dom) && |s.conds| == 1 && AreTemplates(s.dom, s.types, preconds, s.Unified(0, t))
    ensures AllAgree(s)
  {
    hide Schema.Unified, Covered, IsStatic, HoldsIn, Schema.CondOk, Distinct;
    if !AllAgree(s) {
      var f := s.conds[0];
      assert f in s.conds;
      OnlyOneIs(s, f, t);
      var row :| row in s.dom.initial(f.pred) && |row| == |f.args| && s.RowFits(f.args, row) && !SameAtRepeats(f.args, row);
      OneDisagrees(s, f, row, t);
    }
  }

  /** The join is right if the initial facts agree; and with a single static precondition, only then. */
  lemma RightIfAgreed(s: Schema, preconds: seq<Fact>, t: seq<int>)
    requires s.Ok() && OperatorOk(s.dom, s.types, preconds)
    requires |t| == |s.types| && (forall v :: 0 <= v < |t| ==> t[v] == UNBOUND) && Covered(s, 0, t)
    requires forall f :: f in s.conds <==> f in preconds && IsStatic(s.dom, f)
    ensures AgreeOnRepeats(s.dom, s.types, preconds) ==> AreTemplates(s.dom, s.types, preconds, s.Unified(0, t))
    ensures TypesInhabited(s.dom) && |s.conds| == 1 && AreTemplates(s.dom, s.types, preconds, s.Unified(0, t)) ==>
      AgreeOnRepeats(s.dom, s.types, preconds)
  {
    AgreeEverywhere(s, preconds);
    hide AgreeOnRepeats, Schema.Unified, Schema.Ok, OperatorOk, Covered, IsStatic, HoldsIn, Schema.CondOk, Distinct;
    if AllAgree(s) {
      OperatorFilter(s, preconds, t);
    } else if TypesInhabited(s.dom) && |s.conds| == 1 && AreTemplates(s.dom, s.types, preconds, s.Unified(0, t)) {
      OnlyIfAgreed(s, preconds, t);
    }
  }

  /** multiply_easy_op_parameters for one operator: its templates are the well-typed instances whose
      static preconditions are initial facts, each of them once, if the initial facts that fit a static
      precondition agree where it repeats a variable; and with a single static precondition only then. */
  method MultiplyOpParameters(dom: Domain, types: seq<nat>, preconds: seq<Fact>) returns (templates: seq<seq<int>>)
    requires OperatorOk(dom, types, preconds)
    ensures AgreeOnRepeats(dom, types, preconds) ==> AreTemplates(dom, types, preconds, templates)
    ensures TypesInhabited(dom) && |StaticConds(dom, preconds)| == 1 ==>
      (AreTemplates(dom, types, preconds, templates) <==> AgreeOnRepeats(dom, types, preconds))
  {
    hide Distinct, IsTemplate, IsStatic, StaticConds, Covered, OperatorOk, AreTemplates, AgreeOnRepeats;
    var conds := SelectConds(dom, preconds);
    var params := SelectParams(|types|, conds);
    var s := Schema(dom, types, conds, params);
    StaticCondsElems(dom, preconds);
    SchemaOk(s, preconds);
    hide Schema.Ok;
    var e := new EasyTemplates(s);
    ghost var t := e.instTable[..];
    e.UnifyInertiaPreconds(0);
    templates := e.templates;
    assert s.Unified(0, t) + [] == s.Unified(0, t);
    RightIfAgreed(s, preconds, t);
  }

  lemma SchemaOk(s: Schema, preconds: seq<Fact>)
    requires OperatorOk(s.dom, s.types, preconds) && Distinct(s.params) && Below(s.params, |s.types|)
    requires forall f :: f in s.conds ==> f in preconds && IsStatic(s.dom, f)
    requires forall v: nat :: v < |s.types| ==>
      (v in s.params <==> !exists i :: 0 <= i < |s.conds| && EncodeVar(v) in s.conds[i].args)
    ensures s.Ok() && forall t :: |t| == |s.types| ==> Covered(s, 0, t)
  {
    forall k | 0 <= k < |s.conds|
      ensures s.CondOk(s.conds[k])
    {
      var f := s.conds[k];
      assert Schema(s.dom, s.types, [], []).CondOk(f);
      forall i | 0 <= i < |f.args| && f.args[i] < 0
        ensures DecodeVar(f.args[i]) !in s.params
      {
        assert EncodeVar(DecodeVar(f.args[i])) in f.args;
      }
    }
  }

  /** Such a wrong join: for p(x, x) and the one initial fact p(0, 1) it makes the template x = 1,
      although p(1, 1) is no initial fact. */
  lemma RepeatedVariable(dom: Domain, s: Schema, t: seq<int>)
    requires s == Schema(dom, [0], [Fact(0, [-1, -1])], []) && dom.initial(0) == [[0, 1]] && t == [UNBOUND]
    requires dom.consts(0) == [0, 1] && forall ty :: Distinct(dom.consts(ty))
    ensures s.Ok() && s.Unified(0, t) == [[1]]
    ensures !HoldsIn(dom.initial(0), s.conds[0].args, [1])
  {
    var f, rows := s.conds[0], dom.initial(0);
    assert forall row :: row in rows ==> row == [0, 1];
    assert s.CondOk(f);
    var args := s.BoundArgs(f.args, t);
    assert args == [-1, -1];
    assert s.RowFits(args, rows[0]);
    assert s.Entered(args, rows[0], 1, t) == [0];
    assert s.Entered(args, rows[0], 2, t) == [1];
    assert rows[1..] == [];
    assert s.Unified(1, [1]) == [[1]];
    assert s.UnifiedOver(rows, args, 0, t) == s.UnifiedOver([], args, 0, t) + s.Unified(1, [1]);
  }
}
