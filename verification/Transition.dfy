/** State transitions and the comparison of states, as search.c computes them with flag arrays that
    outlive the call: every flag is as it was when the call returns, so that a result depends on nothing
    but the arguments. */
module Transition {
  import opened Sequences
  import opened Connectivity

  /** A state as a list: facts of the graph, each once. */
  ghost predicate StateOk(g: Graph, S: seq<nat>) {
    g.IsList(S) && Distinct(S)
  }

  /** same_state of search.c: equal length, and every fact of one list is in the other. */
  method SameState(S1: seq<nat>, S2: seq<nat>) returns (same: bool)
    requires Distinct(S1) && Distinct(S2)
    ensures same <==> Elems(S1) == Elems(S2)
  {
    DistinctSize(S1);
    DistinctSize(S2);
    if |S2| != |S1| {
      return false;
    }
    for i := 0 to |S2|
      invariant forall k :: 0 <= k < i ==> S2[k] in S1
    {
      var j := 0;
      while j < |S1| && S1[j] != S2[i]
        invariant j <= |S1| && forall k :: 0 <= k < j ==> S1[k] != S2[i]
      {
        j := j + 1;
      }
      if j == |S1| {
        assert S2[i] in Elems(S2) && S2[i] !in Elems(S1);
        return false;
      }
    }
    SubsetOfSameSize(Elems(S2), Elems(S1));
    return true;
  }

  /** The sum of the random numbers of the facts. */
  function SumOf(g: Graph, S: seq<nat>): nat
    requires g.IsList(S)
  {
    if S == [] then 0 else SumOf(g, S[..|S| - 1]) + g.fts[S[|S| - 1]].rand
  }

  /** state_sum of search.c. */
  method StateSum(g: Graph, S: seq<nat>) returns (sum: nat)
    requires g.IsList(S)
    ensures sum == SumOf(g, S)
  {
    sum := 0;
    for i := 0 to |S|
      invariant sum == SumOf(g, S[..i])
    {
      assert S[..i + 1][..i] == S[..i];
      sum := sum + g.fts[S[i]].rand;
    }
    assert S[..|S|] == S;
  }

  lemma {:induction false} SumWithout(g: Graph, S: seq<nat>, i: nat)
    requires g.IsList(S) && i < |S|
    ensures SumOf(g, S) == SumOf(g, S[..i] + S[i + 1..]) + g.fts[S[i]].rand
  {
    var T := S[..i] + S[i + 1..];
    if i < |S| - 1 {
      assert T[..|T| - 1] == S[..|S| - 1][..i] + S[..|S| - 1][i + 1..];
      SumWithout(g, S[..|S| - 1], i);
    } else {
      assert T == S[..i];
    }
  }

  /** The sum does not depend on the order of the facts, so it can index a table of states. */
  lemma {:induction false} SumOfEqualStates(g: Graph, S: seq<nat>, T: seq<nat>)
    requires StateOk(g, S) && StateOk(g, T) && Elems(S) == Elems(T)
    ensures SumOf(g, S) == SumOf(g, T)
    decreases |S|
  {
    if S == [] {
      DistinctSize(T);
    } else {
      var last := S[|S| - 1];
      assert last in Elems(S);
      var i :| 0 <= i < |T| && T[i] == last;
      var S', T' := S[..|S| - 1], T[..i] + T[i + 1..];
      SumWithout(g, T, i);
      assert Elems(S') == Elems(S) - {last};
      assert Elems(T') == Elems(T) - {last} by {
        forall x | x in Elems(T) - {last}
          ensures x in T'
        {
          var k :| 0 <= k < |T| && T[k] == x;
          assert T'[if k < i then k else k - 1] == x;
        }
      }
      SumOfEqualStates(g, S', T');
    }
  }

  /** The last global goal in the list, or `r` if there is none. */
  function LastGoal(g: Graph, s: seq<nat>, r: int): int
    requires g.IsList(s)
  {
    if s == [] then r
    else if g.fts[s[|s| - 1]].isGlobalGoal then s[|s| - 1] else LastGoal(g, s[..|s| - 1], r)
  }

  /** The list without some facts. */
  ghost function Without(s: seq<nat>, X: set<nat>): seq<nat> {
    if s == [] then []
    else Without(s[..|s| - 1], X) + if s[|s| - 1] in X then [] else [s[|s| - 1]]
  }

  /** The list with the facts behind it that it does not hold yet. */
  ghost function WithNew(s: seq<nat>, facts: seq<nat>): seq<nat> {
    if facts == [] then s
    else
      var t, f := WithNew(s, facts[..|facts| - 1]), facts[|facts| - 1];
      if f in t then t else t + [f]
  }

  /** The adds of those of the listed effects that take place in `X`. */
  ghost function WithEffects(g: Graph, E: seq<nat>, X: set<nat>, s: seq<nat>): seq<nat> {
    if E == [] then s
    else
      var t, e := WithEffects(g, E[..|E| - 1], X, s), E[|E| - 1];
      if e < |g.efs| && g.Holds(e, X) then WithNew(t, g.efs[e].A) else t
  }

  ghost function KeptList(g: Graph, op: nat, S: seq<nat>): seq<nat>
    requires op < |g.ops|
  {
    Without(S, g.Dels(op, Elems(S)))
  }

  /** The successor of a state as a list: the facts kept in their order, and the new ones behind them in
      the order of the effects. */
  ghost function ResultList(g: Graph, op: nat, S: seq<nat>): seq<nat>
    requires op < |g.ops|
  {
    WithEffects(g, g.ops[op].E, Elems(S), KeptList(g, op, S))
  }

  lemma WithoutStep(s: seq<nat>, X: set<nat>, i: nat)
    requires i < |s|
    ensures Without(s[..i + 1], X) == Without(s[..i], X) + if s[i] in X then [] else [s[i]]
  {
    assert s[..i + 1][..i] == s[..i];
  }

  lemma WithNewStep(s: seq<nat>, facts: seq<nat>, j: nat)
    requires j < |facts|
    ensures WithNew(s, facts[..j + 1]) == var t := WithNew(s, facts[..j]); if facts[j] in t then t else t + [facts[j]]
  {
    assert facts[..j + 1][..j] == facts[..j];
  }

  lemma WithEffectsStep(g: Graph, E: seq<nat>, X: set<nat>, s: seq<nat>, i: nat)
    requires i < |E| && E[i] < |g.efs|
    ensures WithEffects(g, E[..i + 1], X, s) ==
      var t := WithEffects(g, E[..i], X, s); if g.Holds(E[i], X) then WithNew(t, g.efs[E[i]].A) else t
  {
    assert E[..i + 1][..i] == E[..i];
  }

  lemma NothingTaken(g: Graph, X: set<nat>, s: seq<nat>)
    ensures forall l: seq<nat> :: l == [] ==> WithEffects(g, l, X, s) == s && WithNew(s, l) == s && Without(l, X) == []
  {
  }

  lemma {:induction false} LastGoalSplits(g: Graph, s: seq<nat>, t: seq<nat>, r: int)
    requires g.IsList(s) && g.IsList(t)
    ensures LastGoal(g, s + t, r) == LastGoal(g, t, LastGoal(g, s, r))
  {
    if t == [] {
      assert s + t == s;
    } else {
      assert (s + t)[..|s + t| - 1] == s + t[..|t| - 1];
      LastGoalSplits(g, s, t[..|t| - 1], r);
    }
  }

  ghost predicate IsGoalFact(g: Graph, f: int) {
    0 <= f < |g.fts| && g.fts[f].isGlobalGoal
  }

  /** The last place of a global goal in the list. */
  lemma {:induction false} LastGoalAt(g: Graph, s: seq<nat>) returns (i: int)
    requires g.IsList(s)
    ensures -1 <= i < |s| && forall j :: i < j < |s| ==> !IsGoalFact(g, s[j])
    ensures if i == -1 then LastGoal(g, s, -1) == -1 else IsGoalFact(g, s[i]) && LastGoal(g, s, -1) == s[i]
  {
    if s == [] {
      i := -1;
    } else if g.fts[s[|s| - 1]].isGlobalGoal {
      i := |s| - 1;
    } else {
      i := LastGoalAt(g, s[..|s| - 1]);
    }
  }

  /** `r` is the last global goal in the state that was not kept from its father, or -1 if there is none. */
  ghost predicate NewGoalOk(g: Graph, S: seq<nat>, kept: set<nat>, r: int) {
    if r == -1 then forall f :: f in S && f !in kept ==> !IsGoalFact(g, f)
    else exists i :: 0 <= i < |S| && S[i] == r && r !in kept && IsGoalFact(g, r)
           && forall j :: i < j < |S| && S[j] !in kept ==> !IsGoalFact(g, S[j])
  }

  /** Behind the facts that are kept, the last global goal is the one that came in last. */
  lemma LastGoalIsNew(g: Graph, S: seq<nat>, n: nat)
    requires StateOk(g, S) && n <= |S|
    ensures LastGoal(g, S[n..], -1) >= -1 && NewGoalOk(g, S, Elems(S[..n]), LastGoal(g, S[n..], -1))
  {
    hide LastGoal;
    var i := LastGoalAt(g, S[n..]);
    forall k | 0 <= k < |S|
      ensures S[k] in Elems(S[..n]) <==> k < n
    {
      if k < n {
        assert S[..n][k] == S[k];
      }
    }
    assert forall k :: n <= k < |S| ==> S[k] == S[n..][k - n];
    if i >= 0 {
      assert S[n + i] == S[n..][i];
    }
  }

  // ---- the order of the facts

  /** What the listed effects add in `X`, one after the other, repeats included. */
  ghost function AddsOf(g: Graph, E: seq<nat>, X: set<nat>): seq<nat> {
    if E == [] then []
    else
      var e := E[|E| - 1];
      AddsOf(g, E[..|E| - 1], X) + if e < |g.efs| && g.Holds(e, X) then g.efs[e].A else []
  }

  lemma {:induction false} KeptInOrder(s: seq<nat>, X: set<nat>)
    requires Distinct(s)
    ensures InOrderOf(Without(s, X), s) && Elems(Without(s, X)) == Elems(s) - X && Distinct(Without(s, X))
  {
    if s != [] {
      var front, last := s[..|s| - 1], s[|s| - 1];
      assert s == front + [last] && last !in front;
      KeptInOrder(front, X);
      OneMoreInOrder(Without(front, X), front, last, last !in X);
      ElemsAppend(front, last);
      ElemsAppend(Without(front, X), last);
      assert forall x :: x in Without(front, X) <==> x in Elems(Without(front, X));
    }
  }

  lemma {:induction false} NewInOrder(s: seq<nat>, l: seq<nat>, facts: seq<nat>)
    requires FirstSeen(s, l)
    ensures FirstSeen(WithNew(s, facts), l + facts)
  {
    hide FirstSeen;
    if facts == [] {
      assert l + facts == l;
    } else {
      var front, last := facts[..|facts| - 1], facts[|facts| - 1];
      NewInOrder(s, l, front);
      SeeOneMore(WithNew(s, front), l + front, last);
      assert l + front + [last] == l + facts;
    }
  }

  lemma {:induction false} EffectsInOrder(g: Graph, E: seq<nat>, X: set<nat>, s: seq<nat>, l: seq<nat>)
    requires FirstSeen(s, l)
    ensures FirstSeen(WithEffects(g, E, X, s), l + AddsOf(g, E, X))
  {
    hide FirstSeen, Graph.Holds, WithNew;
    if E == [] {
      assert l + AddsOf(g, E, X) == l;
    } else {
      var front, e := E[..|E| - 1], E[|E| - 1];
      EffectsInOrder(g, front, X, s, l);
      if e < |g.efs| && g.Holds(e, X) {
        NewInOrder(WithEffects(g, front, X, s), l + AddsOf(g, front, X), g.efs[e].A);
        assert l + AddsOf(g, front, X) + g.efs[e].A == l + AddsOf(g, E, X);
      } else {
        assert AddsOf(g, E, X) == AddsOf(g, front, X);
      }
    }
  }

  lemma {:induction false} SeenItself(s: seq<nat>)
    requires Distinct(s)
    ensures FirstSeen(s, s)
  {
    if s != [] {
      var front, last := s[..|s| - 1], s[|s| - 1];
      assert s == front + [last] && last !in front;
      SeenItself(front);
      SeeOneMore(front, front, last);
    }
  }

  /** The facts kept stand in the order of the source, and behind them the new ones in the order in which
      the effects that take place add them, each where it is added first. */
  lemma ResultInOrder(g: Graph, op: nat, S: seq<nat>)
    requires op < |g.ops| && StateOk(g, S)
    ensures InOrderOf(KeptList(g, op, S), S) && Elems(KeptList(g, op, S)) == Elems(S) - g.Dels(op, Elems(S))
    ensures FirstSeen(ResultList(g, op, S), KeptList(g, op, S) + AddsOf(g, g.ops[op].E, Elems(S)))
  {
    hide FirstSeen, InOrderOf, Without, WithEffects, AddsOf;
    KeptInOrder(S, g.Dels(op, Elems(S)));
    SeenItself(KeptList(g, op, S));
    EffectsInOrder(g, g.ops[op].E, Elems(S), KeptList(g, op, S), KeptList(g, op, S));
  }

  function Changes(g: Graph, e: nat, adds: bool): seq<nat>
    requires e < |g.efs|
  {
    if adds then g.efs[e].A else g.efs[e].D
  }

  /** What the listed effects add, or delete, in `X`. */
  ghost function Taken(g: Graph, E: seq<nat>, X: set<nat>, adds: bool): set<nat> {
    set e, f | e in E && e < |g.efs| && g.Holds(e, X) && f in Changes(g, e, adds) :: f
  }

  lemma TakenAppend(g: Graph, E: seq<nat>, e: nat, X: set<nat>, adds: bool)
    requires e < |g.efs|
    ensures Taken(g, E + [e], X, adds) ==
      Taken(g, E, X, adds) + if g.Holds(e, X) then Elems(Changes(g, e, adds)) else {}
  {
    assert forall x :: x in E + [e] <==> x in E || x == e;
  }

  lemma TakenNothing(g: Graph, X: set<nat>, adds: bool)
    ensures Taken(g, [], X, adds) == {} && LastGoal(g, [], -1) == -1
  {
  }

  lemma TakenIsAll(g: Graph, op: nat, X: set<nat>)
    requires op < |g.ops|
    ensures Taken(g, g.ops[op].E, X, true) == g.Adds(op, X) && Taken(g, g.ops[op].E, X, false) == g.Dels(op, X)
  {
    var E := g.ops[op].E;
    forall e, f | e in E && e < |g.efs| && g.Holds(e, X)
      ensures f in Changes(g, e, true) ==> f in g.Adds(op, X)
      ensures f in Changes(g, e, false) ==> f in g.Dels(op, X)
    {
      assert g.Fires(op, e, X);
    }
    forall f
      ensures f in g.Adds(op, X) ==> f in Taken(g, E, X, true)
      ensures f in g.Dels(op, X) ==> f in Taken(g, E, X, false)
    {
      if f in g.Adds(op, X) {
        var e :| e in E && g.Fires(op, e, X) && f in g.efs[e].A;
        assert f in Changes(g, e, true);
      }
      if f in g.Dels(op, X) {
        var e :| e in E && g.Fires(op, e, X) && f in g.efs[e].D;
        assert f in Changes(g, e, false);
      }
    }
  }

  lemma NoneLast(g: Graph, dest: seq<nat>, r: int)
    ensures LastGoal(g, dest[|dest|..], r) == r
  {
  }

  lemma OneMoreLast(g: Graph, dest: seq<nat>, k: nat, f: nat, r: int)
    requires k <= |dest| && Below(dest, |g.fts|) && f < |g.fts|
    ensures LastGoal(g, (dest + [f])[k..], r) == if g.fts[f].isGlobalGoal then f else LastGoal(g, dest[k..], r)
  {
    assert (dest + [f])[k..] == dest[k..] + [f];
  }

  class Transitions {
    const g: Graph
    const inSource: array<bool>
    const inDest: array<bool>
    const inDel: array<bool>
    const trueEf: array<bool>

    ghost predicate Valid()
    {
      && g.WellFormed()
      && inSource.Length == inDest.Length == inDel.Length == |g.fts| && trueEf.Length == |g.efs|
      && inSource != inDest && inSource != inDel && inDest != inDel
      && trueEf != inSource && trueEf != inDest && trueEf != inDel
    }

    ghost function Frame(): set<object> {
      {inSource, inDest, inDel, trueEf}
    }

    /** All flags are down. */
    ghost predicate Clean()
      reads Frame()
    {
      && (forall f :: 0 <= f < inSource.Length ==> !inSource[f])
      && (forall f :: 0 <= f < inDest.Length ==> !inDest[f])
      && (forall f :: 0 <= f < inDel.Length ==> !inDel[f])
      && (forall i :: 0 <= i < trueEf.Length ==> !trueEf[i])
    }

    constructor (g: Graph)
      requires g.WellFormed()
      ensures this.g == g && Valid() && Clean() && fresh(Frame())
    {
      this.g := g;
      inSource := new bool[|g.fts|](_ => false);
      inDest := new bool[|g.fts|](_ => false);
      inDel := new bool[|g.fts|](_ => false);
      trueEf := new bool[|g.efs|](_ => false);
    }

    static method Raise(flags: array<bool>, facts: seq<nat>)
      requires Below(facts, flags.Length)
      modifies flags
      ensures forall f :: 0 <= f < flags.Length ==> flags[f] == (old(flags[f]) || f in facts)
    {
      for i := 0 to |facts|
        invariant forall f :: 0 <= f < flags.Length ==> flags[f] == (old(flags[f]) || f in facts[..i])
      {
        assert facts[..i + 1] == facts[..i] + [facts[i]];
        flags[facts[i]] := true;
      }
      assert facts[..|facts|] == facts;
    }

    static method Lower(flags: array<bool>, facts: seq<nat>)
      requires Below(facts, flags.Length)
      modifies flags
      ensures forall f :: 0 <= f < flags.Length ==> flags[f] == (old(flags[f]) && f !in facts)
    {
      for i := 0 to |facts|
        invariant forall f :: 0 <= f < flags.Length ==> flags[f] == (old(flags[f]) && f !in facts[..i])
      {
        assert facts[..i + 1] == facts[..i] + [facts[i]];
        flags[facts[i]] := false;
      }
      assert facts[..|facts|] == facts;
    }

    /** Whether the effect takes place in the source state. */
    method ConditionsHold(e: nat, ghost X: set<nat>) returns (holds: bool)
      requires Valid() && e < |g.efs|
      requires forall f :: 0 <= f < inSource.Length ==> (inSource[f] <==> f in X)
      ensures holds <==> g.Holds(e, X)
    {
      var pc := g.efs[e].PC;
      for j := 0 to |pc|
        invariant forall k :: 0 <= k < j ==> pc[k] in X
      {
        if !inSource[pc[j]] {
          assert pc[j] in Elems(pc);
          return false;
        }
      }
      return true;
    }

    /** The deleted facts of the operator, and which of its effects take place. */
    method CollectDeletes(op: nat, ghost X: set<nat>) returns (del: seq<nat>)
      requires Valid() && op < |g.ops| && |g.ops[op].E| <= trueEf.Length
      requires forall f :: 0 <= f < inSource.Length ==> (inSource[f] <==> f in X)
      requires forall f :: 0 <= f < inDel.Length ==> !inDel[f]
      modifies inDel, trueEf
      ensures Distinct(del) && Below(del, |g.fts|) && Elems(del) == g.Dels(op, X)
      ensures forall f :: 0 <= f < inDel.Length ==> (inDel[f] <==> f in del)
      ensures forall i :: 0 <= i < trueEf.Length ==>
        trueEf[i] == if i < |g.ops[op].E| then old(trueEf[i]) || g.Holds(g.ops[op].E[i], X) else old(trueEf[i])
    {
      hide Taken, Graph.Holds;
      del := [];
      assert g.ops[op].E[..0] == [];
      TakenNothing(g, X, false);
      var E := g.ops[op].E;
      for i := 0 to |E|
        invariant Distinct(del) && Below(del, |g.fts|)
        invariant forall f :: f in del <==> f in Taken(g, E[..i], X, false)
        invariant forall f :: 0 <= f < inDel.Length ==> (inDel[f] <==> f in del)
        invariant forall k :: 0 <= k < trueEf.Length ==>
          trueEf[k] == if k < i then old(trueEf[k]) || g.Holds(E[k], X) else old(trueEf[k])
      {
        assert E[..i + 1] == E[..i] + [E[i]];
        TakenAppend(g, E[..i], E[i], X, false);
        var holds := ConditionsHold(E[i], X);
        if holds {
          trueEf[i] := true;
          del := AddDeletes(g.efs[E[i]].D, del);
        }
      }
      assert E[..|E|] == E;
      TakenIsAll(g, op, X);
    }

    method AddDeletes(dels: seq<nat>, del0: seq<nat>) returns (del: seq<nat>)
      requires Valid() && Below(dels, |g.fts|) && Distinct(del0) && Below(del0, |g.fts|)
      requires forall f :: 0 <= f < inDel.Length ==> (inDel[f] <==> f in del0)
      modifies inDel
      ensures Distinct(del) && Below(del, |g.fts|) && forall f :: f in del <==> f in del0 || f in dels
      ensures forall f :: 0 <= f < inDel.Length ==> (inDel[f] <==> f in del)
    {
      del := del0;
      for j := 0 to |dels|
        invariant Distinct(del) && Below(del, |g.fts|) && forall f :: f in del <==> f in del0 || f in dels[..j]
        invariant forall f :: 0 <= f < inDel.Length ==> (inDel[f] <==> f in del)
      {
        assert dels[..j + 1] == dels[..j] + [dels[j]];
        if inDel[dels[j]] {
          continue;
        }
        inDel[dels[j]] := true;
        DistinctAppend(del, dels[j]);
        del := del + [dels[j]];
      }
      assert dels[..|dels|] == dels;
    }

    /** The facts of the source that are not deleted. */
    method KeepFacts(source: seq<nat>, ghost dels: set<nat>) returns (dest: seq<nat>)
      requires Valid() && StateOk(g, source)
      requires forall f :: 0 <= f < inDel.Length ==> (inDel[f] <==> f in dels)
      requires forall f :: 0 <= f < inDest.Length ==> !inDest[f]
      modifies inDest
      ensures StateOk(g, dest) && forall f :: f in dest <==> f in source && !inDel[f]
      ensures forall f :: 0 <= f < inDest.Length ==> (inDest[f] <==> f in dest)
      ensures dest == Without(source, dels)
    {
      hide Without;
      NothingTaken(g, dels, []);
      dest := [];
      for i := 0 to |source|
        invariant dest == Without(source[..i], dels)
        invariant StateOk(g, dest) && forall f :: f in dest <==> f in source[..i] && f < inDel.Length && !inDel[f]
        invariant forall f :: 0 <= f < inDest.Length ==> (inDest[f] <==> f in dest)
      {
        assert source[..i + 1] == source[..i] + [source[i]];
        assert source[i] !in source[..i];
        WithoutStep(source, dels, i);
        if inDel[source[i]] {
          continue;
        }
        DistinctAppend(dest, source[i]);
        dest := dest + [source[i]];
        inDest[source[i]] := true;
      }
      assert source[..|source|] == source;
    }

    /** The adds of one effect that are not yet in the destination; the last global goal among them. */
    method AddFacts(adds: seq<nat>, dest0: seq<nat>, r0: int) returns (dest: seq<nat>, r: int)
      requires Valid() && Below(adds, |g.fts|) && StateOk(g, dest0)
      requires forall f :: 0 <= f < inDest.Length ==> (inDest[f] <==> f in dest0)
      modifies inDest
      ensures StateOk(g, dest) && forall f :: f in dest <==> f in dest0 || f in adds
      ensures forall f :: 0 <= f < inDest.Length ==> (inDest[f] <==> f in dest)
      ensures dest0 <= dest && r == LastGoal(g, dest[|dest0|..], r0) && dest == WithNew(dest0, adds)
    {
      hide WithNew, LastGoal, Graph.WellFormed;
      NothingTaken(g, {}, dest0);
      NoneLast(g, dest0, r0);
      dest, r := dest0, r0;
      for j := 0 to |adds|
        invariant dest == WithNew(dest0, adds[..j])
        invariant StateOk(g, dest) && forall f :: f in dest <==> f in dest0 || f in adds[..j]
        invariant forall f :: 0 <= f < inDest.Length ==> (inDest[f] <==> f in dest)
        invariant dest0 <= dest && r == LastGoal(g, dest[|dest0|..], r0)
      {
        var f := adds[j];
        assert f in adds && adds[..j + 1] == adds[..j] + [f];
        WithNewStep(dest0, adds, j);
        if inDest[f] {
          continue;
        }
        DistinctAppend(dest, f);
        OneMoreLast(g, dest, |dest0|, f, r0);
        dest := dest + [f];
        inDest[f] := true;
        if g.fts[f].isGlobalGoal {
          r := f;
        }
      }
      assert adds[..|adds|] == adds;
    }

    /** What the effects of the operator that take place add to the kept facts. */
    method AddAll(op: nat, kept: seq<nat>, ghost X: set<nat>) returns (dest: seq<nat>, r: int)
      requires Valid() && op < |g.ops| && |g.ops[op].E| <= trueEf.Length && StateOk(g, kept)
      requires forall f :: 0 <= f < inDest.Length ==> (inDest[f] <==> f in kept)
      requires forall i :: 0 <= i < |g.ops[op].E| ==> (trueEf[i] <==> g.Holds(g.ops[op].E[i], X))
      modifies inDest
      ensures StateOk(g, dest) && forall f :: f in dest <==> f in kept || f in g.Adds(op, X)
      ensures forall f :: 0 <= f < inDest.Length ==> (inDest[f] <==> f in dest)
      ensures kept <= dest && r == LastGoal(g, dest[|kept|..], -1) && dest == WithEffects(g, g.ops[op].E, X, kept)
    {
      hide Taken, Graph.Holds, LastGoal, WithEffects, WithNew;
      NothingTaken(g, X, kept);
      dest, r := kept, -1;
      var E := g.ops[op].E;
      assert E[..0] == [] && kept[|kept|..] == [];
      TakenNothing(g, X, true);
      for i := 0 to |E|
        invariant StateOk(g, dest) && forall f :: f in dest <==> f in kept || f in Taken(g, E[..i], X, true)
        invariant forall f :: 0 <= f < inDest.Length ==> (inDest[f] <==> f in dest)
        invariant kept <= dest && r == LastGoal(g, dest[|kept|..], -1) && dest == WithEffects(g, E[..i], X, kept)
        modifies inDest
      {
        assert E[..i + 1] == E[..i] + [E[i]];
        WithEffectsStep(g, E, X, kept, i);
        TakenAppend(g, E[..i], E[i], X, true);
        if !trueEf[i] {
          continue;
        }
        ghost var dest0 := dest;
        dest, r := AddFacts(g.efs[E[i]].A, dest, r);
        LastGoalSplits(g, dest0[|kept|..], dest[|dest0|..], -1);
        assert dest[|kept|..] == dest0[|kept|..] + dest[|dest0|..];
      }
      assert E[..|E|] == E;
      TakenIsAll(g, op, X);
    }

    /** result_to_dest: the successor state; adds win over deletes, and no flag stays up. */
    method ResultToDest(source: seq<nat>, op: nat) returns (dest: seq<nat>, r: int)
      requires Valid() && Clean() && StateOk(g, source) && op < |g.ops|
      modifies Frame()
      ensures Clean()
      ensures StateOk(g, dest) && Elems(dest) == g.Result(op, Elems(source))
      ensures dest == ResultList(g, op, source) && KeptList(g, op, source) <= dest
      ensures r == LastGoal(g, dest[|KeptList(g, op, source)|..], -1) >= -1
      ensures NewGoalOk(g, dest, Elems(source) - g.Dels(op, Elems(source)), r)
    {
      hide LastGoal, WithEffects, Without, NewGoalOk;
      ghost var X := Elems(source);
      DistinctBelow(g.ops[op].E, |g.efs|);
      Raise(inSource, source);
      var del := CollectDeletes(op, X);
      assert forall f :: f in g.Dels(op, X) <==> f in Elems(del);
      var kept := KeepFacts(source, g.Dels(op, X));
      assert Elems(kept) == X - g.Dels(op, X) by {
        assert forall f :: f in g.Dels(op, X) <==> f in Elems(del);
      }
      dest, r := AddAll(op, kept, X);
      assert Elems(dest) == g.Result(op, X);
      LastGoalIsNew(g, dest, |kept|);
      assert dest[..|kept|] == kept;
      label Before:
      Lower(inSource, source);
      Lower(inDest, dest);
      Lower(inDel, del);
      for i := 0 to |g.ops[op].E|
        invariant forall k :: 0 <= k < trueEf.Length ==> trueEf[k] == (k >= i && old@Before(trueEf[k]))
        modifies trueEf
      {
        trueEf[i] := false;
      }
    }
  }
}
