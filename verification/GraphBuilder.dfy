/** The construction of the connectivity graph in inst_final.c from the final actions. */
module GraphBuilder {
  import opened Sequences
  import opened Grounded
  import opened Connectivity

  // ---- lists without duplicates

  method Contains(s: seq<nat>, x: nat) returns (found: bool)
    ensures found <==> x in s
  {
    for k := 0 to |s|
      invariant x !in s[..k]
    {
      if s[k] == x {
        return true;
      }
      assert s[..k + 1] == s[..k] + [s[k]];
    }
    assert s[..|s|] == s;
    return false;
  }

  /** The elements that are not in `without`. */
  ghost function Outside(xs: seq<nat>, without: seq<nat>): seq<nat> {
    if xs == [] then []
    else Outside(xs[..|xs| - 1], without) + if xs[|xs| - 1] in without then [] else [xs[|xs| - 1]]
  }

  lemma {:induction false} OutsideSum(xs: seq<nat>, ys: seq<nat>, without: seq<nat>)
    ensures Outside(xs + ys, without) == Outside(xs, without) + Outside(ys, without)
  {
    if ys == [] {
      assert xs + ys == xs;
    } else {
      assert (xs + ys)[..|xs + ys| - 1] == xs + ys[..|ys| - 1];
      OutsideSum(xs, ys[..|ys| - 1], without);
    }
  }

  lemma OutsideStep(xs: seq<nat>, without: seq<nat>, j: nat, l: seq<nat>)
    requires j < |xs|
    ensures xs[j] in without ==> l + Outside(xs[..j + 1], without) == l + Outside(xs[..j], without)
    ensures xs[j] !in without ==> l + Outside(xs[..j + 1], without) == l + Outside(xs[..j], without) + [xs[j]]
  {
    assert xs[..j + 1][..j] == xs[..j];
  }

  lemma {:induction false} OutsideNothing(xs: seq<nat>)
    ensures Outside(xs, []) == xs
  {
    if xs != [] {
      OutsideNothing(xs[..|xs| - 1]);
    }
  }

  /** The list with those elements of `xs` that are new and not in `without`, in their order. */
  method Extend(s: seq<nat>, xs: seq<nat>, without: seq<nat>, ghost l: seq<nat>) returns (r: seq<nat>)
    requires Distinct(s) && FirstSeen(s, l)
    ensures Distinct(r) && Elems(r) == Elems(s) + (Elems(xs) - Elems(without))
    ensures FirstSeen(r, l + Outside(xs, without))
  {
    hide FirstSeen, Outside;
    NoClass(Template([], []), without);
    r := s;
    assert l + Outside([], without) == l;
    for j := 0 to |xs|
      invariant Distinct(r) && Elems(r) == Elems(s) + (Elems(xs[..j]) - Elems(without))
      invariant FirstSeen(r, l + Outside(xs[..j], without))
    {
      OutsideStep(xs, without, j, l);
      if xs[j] !in without {
        SeeOneMore(r, l + Outside(xs[..j], without), xs[j]);
      }
      assert xs[..j + 1] == xs[..j] + [xs[j]];
      ElemsAppend(xs[..j], xs[j]);
      var old' := Contains(r, xs[j]);
      var excluded := Contains(without, xs[j]);
      if !old' && !excluded {
        ElemsAppend(r, xs[j]);
        DistinctAppend(r, xs[j]);
        r := r + [xs[j]];
      } else {
        assert xs[j] in Elems(r) || xs[j] in Elems(without);
      }
    }
    assert xs[..|xs|] == xs;
  }

  method Includes(ys: seq<nat>, xs: seq<nat>) returns (all: bool)
    ensures all <==> Elems(xs) <= Elems(ys)
  {
    for k := 0 to |xs|
      invariant Elems(xs[..k]) <= Elems(ys)
    {
      assert xs[..k + 1] == xs[..k] + [xs[k]];
      ElemsAppend(xs[..k], xs[k]);
      var found := Contains(ys, xs[k]);
      if !found {
        assert xs[k] in Elems(xs);
        return false;
      }
    }
    assert xs[..|xs|] == xs;
    return true;
  }

  // ---- one class of effects

  /** The facts that the effects of a class add. */
  ghost function ClassAdds(t: Template, cls: seq<nat>): set<nat> {
    set j, f | j in cls && j < |t.effects| && f in t.effects[j].adds :: f
  }

  ghost function ClassDels(t: Template, cls: seq<nat>): set<nat> {
    set j, f | j in cls && j < |t.effects| && f in t.effects[j].dels :: f
  }

  lemma ClassAppend(t: Template, cls: seq<nat>, j: nat)
    requires j < |t.effects|
    ensures ClassAdds(t, cls + [j]) == ClassAdds(t, cls) + Elems(t.effects[j].adds)
    ensures ClassDels(t, cls + [j]) == ClassDels(t, cls) + Elems(t.effects[j].dels)
  {
    assert forall x :: x in cls + [j] <==> x in cls || x == j;
  }

  /** The adds and the deletes of a class, effect by effect. */
  ghost function AddList(t: Template, cls: seq<nat>): seq<nat>
    requires Below(cls, |t.effects|)
  {
    if cls == [] then [] else AddList(t, cls[..|cls| - 1]) + t.effects[cls[|cls| - 1]].adds
  }

  ghost function DelList(t: Template, cls: seq<nat>): seq<nat>
    requires Below(cls, |t.effects|)
  {
    if cls == [] then [] else DelList(t, cls[..|cls| - 1]) + t.effects[cls[|cls| - 1]].dels
  }

  /** The lists of a merged effect are in the order in which the action gives the facts. */
  ghost predicate MergedInOrder(t: Template, cls: seq<nat>, ef: EfConn)
    requires cls != [] && Below(cls, |t.effects|)
  {
    && FirstSeen(ef.PC, t.preconds + t.effects[cls[0]].conditions)
    && FirstSeen(ef.A, Outside(AddList(t, cls), ef.PC))
    && FirstSeen(ef.D, Outside(DelList(t, cls), AddList(t, cls)))
  }

  /** What a merged effect says about its class. */
  ghost predicate Merges(t: Template, cls: seq<nat>, ef: EfConn) {
    && cls != [] && Below(cls, |t.effects|)
    && (forall j :: j in cls ==> Elems(ef.PC) == Elems(t.preconds) + Elems(t.effects[j].conditions))
    && Elems(ef.A) == ClassAdds(t, cls) - Elems(ef.PC)
    && Elems(ef.D) == ClassDels(t, cls) - ClassAdds(t, cls)
    && Distinct(ef.PC) && Distinct(ef.A) && Distinct(ef.D)
    && MergedInOrder(t, cls, ef)
  }

  /** In a state that meets its conditions, the merged effect does what the adds and deletes of its
      class do together; and its conditions are those of every member. */
  lemma MergedIsFaithful(t: Template, cls: seq<nat>, ef: EfConn, X: set<nat>)
    requires Merges(t, cls, ef)
    ensures Elems(ef.PC) <= X ==> X - Elems(ef.D) + Elems(ef.A) == X - ClassDels(t, cls) + ClassAdds(t, cls)
    ensures forall j :: j in cls ==>
      (Elems(ef.PC) <= X <==> t.Applicable(X) && Elems(t.effects[j].conditions) <= X)
  {
  }

  /** The later effects that are not taken and have the same conditions: as many, and all included. */
  method SameEffects(t: Template, i: nat, had: array<bool>) returns (same: seq<nat>)
    requires had.Length == |t.effects| && i < |t.effects|
    requires forall j :: 0 <= j < |t.effects| ==> Distinct(t.effects[j].conditions)
    ensures Ascending([i] + same)
    ensures Distinct(same) && Below(same, |t.effects|) && forall j: nat :: j in same <==>
      i < j < |t.effects| && !had[j] && Elems(t.effects[j].conditions) == Elems(t.effects[i].conditions)
  {
    same := [];
    var e := t.effects[i];
    for j := i + 1 to |t.effects|
      invariant Ascending([i] + same)
      invariant Distinct(same) && Below(same, j) && forall k: nat :: k in same <==>
        i < k < j && !had[k] && Elems(t.effects[k].conditions) == Elems(e.conditions)
    {
      if !had[j] {
        var e' := t.effects[j];
        var included := Includes(e.conditions, e'.conditions);
        SameSize(e'.conditions, e.conditions);
        if included && |e.conditions| == |e'.conditions| {
          assert [i] + (same + [j]) == [i] + same + [j];
          AscendingAppend([i] + same, j);
          same := same + [j];
        }
      }
    }
  }

  lemma AscendingAppend(s: seq<nat>, x: nat)
    requires Ascending(s) && forall y :: y in s ==> y < x
    ensures Ascending(s + [x])
  {
    assert forall k :: 0 <= k < |s| ==> s[k] in s;
  }

  lemma SameSize(xs: seq<nat>, ys: seq<nat>)
    requires Distinct(xs) && Distinct(ys)
    ensures Elems(xs) <= Elems(ys) && |xs| == |ys| <==> Elems(xs) == Elems(ys)
  {
    DistinctSize(xs);
    DistinctSize(ys);
    if Elems(xs) <= Elems(ys) && |xs| == |ys| {
      SubsetOfSameSize(Elems(xs), Elems(ys));
    }
  }

  method AllAddsOf(t: Template, cls: seq<nat>) returns (adds: seq<nat>)
    requires Below(cls, |t.effects|)
    ensures Elems(adds) == ClassAdds(t, cls) && adds == AddList(t, cls)
  {
    adds := [];
    for j := 0 to |cls|
      invariant Elems(adds) == ClassAdds(t, cls[..j]) && adds == AddList(t, cls[..j])
    {
      assert cls[..j + 1][..j] == cls[..j];
      assert cls[..j + 1] == cls[..j] + [cls[j]];
      ClassAppend(t, cls[..j], cls[j]);
      assert forall x :: x in adds + t.effects[cls[j]].adds <==> x in adds || x in t.effects[cls[j]].adds;
      adds := adds + t.effects[cls[j]].adds;
    }
    assert cls[..|cls|] == cls;
  }

  lemma NoClass(t: Template, without: seq<nat>)
    ensures Outside(AddList(t, []), without) == [] && Outside(DelList(t, []), without) == []
  {
  }

  lemma ListsAppend(t: Template, cls: seq<nat>, j: nat, pc: seq<nat>, adds: seq<nat>)
    requires Below(cls, |t.effects|) && j < |cls|
    ensures Outside(AddList(t, cls[..j + 1]), pc) == Outside(AddList(t, cls[..j]), pc) + Outside(t.effects[cls[j]].adds, pc)
    ensures Outside(DelList(t, cls[..j + 1]), adds) == Outside(DelList(t, cls[..j]), adds) + Outside(t.effects[cls[j]].dels, adds)
  {
    assert cls[..j + 1][..j] == cls[..j];
    OutsideSum(AddList(t, cls[..j]), t.effects[cls[j]].adds, pc);
    OutsideSum(DelList(t, cls[..j]), t.effects[cls[j]].dels, adds);
  }

  /** The effect that stands for a class: already true adds and re-added deletes are left out. */
  method MergeClass(t: Template, op: nat, cls: seq<nat>) returns (ef: EfConn)
    requires cls != [] && Below(cls, |t.effects|)
    requires forall j :: j in cls ==> Elems(t.effects[j].conditions) == Elems(t.effects[cls[0]].conditions)
    ensures Merges(t, cls, ef) && ef.op == op && ef.I == [] && !ef.removed
  {
    hide FirstSeen, Outside, AddList, DelList;
    SeenNothing();
    var PC := Extend([], t.preconds, [], []);
    PC := Extend(PC, t.effects[cls[0]].conditions, [], [] + Outside(t.preconds, []));
    OutsideNothing(t.preconds);
    OutsideNothing(t.effects[cls[0]].conditions);
    assert [] + t.preconds == t.preconds;
    var A, D: seq<nat> := [], [];
    var adds := AllAddsOf(t, cls);
    NoClass(t, PC);
    NoClass(t, adds);
    for j := 0 to |cls|
      invariant FirstSeen(A, Outside(AddList(t, cls[..j]), PC)) && FirstSeen(D, Outside(DelList(t, cls[..j]), adds))
      invariant Distinct(A) && Elems(A) == ClassAdds(t, cls[..j]) - Elems(PC)
      invariant Distinct(D) && Elems(D) == ClassDels(t, cls[..j]) - ClassAdds(t, cls)
    {
      assert cls[..j + 1] == cls[..j] + [cls[j]];
      ClassAppend(t, cls[..j], cls[j]);
      ListsAppend(t, cls, j, PC, adds);
      A := Extend(A, t.effects[cls[j]].adds, PC, Outside(AddList(t, cls[..j]), PC));
      D := Extend(D, t.effects[cls[j]].dels, adds, Outside(DelList(t, cls[..j]), adds));
    }
    assert cls[..|cls|] == cls;
    return EfConn(op, PC, A, D, [], false);
  }

  // ---- the effects of one action

  ghost predicate Taken(classes: seq<seq<nat>>, j: nat) {
    exists c :: 0 <= c < |classes| && j in classes[c]
  }

  /** No effect is in two classes, and the effects marked are those in some class. */
  ghost predicate Divides(classes: seq<seq<nat>>, had: seq<bool>) {
    && (forall c, d, j: nat :: 0 <= c < |classes| && 0 <= d < |classes| && j in classes[c] && j in classes[d] ==> c == d)
    && (forall c, j: nat :: 0 <= c < |classes| && j in classes[c] ==> j < |had|)
    && forall j :: 0 <= j < |had| ==> (had[j] <==> Taken(classes, j))
  }

  ghost predicate SameConditions(t: Template, i: nat, j: nat) {
    i < |t.effects| && j < |t.effects| && Elems(t.effects[i].conditions) == Elems(t.effects[j].conditions)
  }

  /** A class holds exactly the effects with the conditions of any of its members. */
  ghost predicate Complete(t: Template, classes: seq<seq<nat>>) {
    forall c, i, j: nat :: 0 <= c < |classes| && i in classes[c] && j < |t.effects| ==>
      (j in classes[c] <==> SameConditions(t, i, j))
  }

  /** Classes are in the order of their first effects, which come before the others. */
  ghost predicate ClassesInOrder(classes: seq<seq<nat>>) {
    && (forall c :: 0 <= c < |classes| ==> classes[c] != [] && Ascending(classes[c]))
    && forall c, d :: 0 <= c < d < |classes| ==> classes[c] != [] && classes[d] != [] && classes[c][0] < classes[d][0]
  }

  /** The new effects stand for classes that divide the effects of the action by their conditions. */
  ghost predicate Represents(t: Template, classes: seq<seq<nat>>, block: seq<EfConn>) {
    && |classes| == |block|
    && (forall c :: 0 <= c < |block| ==> Merges(t, classes[c], block[c]))
    && Divides(classes, seq(|t.effects|, _ => true)) && Complete(t, classes) && ClassesInOrder(classes)
  }

  lemma CompleteStep(t: Template, classes: seq<seq<nat>>, had: seq<bool>, i: nat, same: seq<nat>)
    requires Complete(t, classes) && Divides(classes, had) && |had| == |t.effects| && i < |had| && !had[i]
    requires forall j: nat :: j < i ==> had[j]
    requires forall j: nat :: j in same <==> i < j < |had| && !had[j] && SameConditions(t, j, i)
    ensures Complete(t, classes + [[i] + same])
  {
    var cls, classes' := [i] + same, classes + [[i] + same];
    assert cls[0] == i && forall j :: j in cls <==> j == i || j in same;
    forall c, k, j: nat | 0 <= c < |classes'| && k in classes'[c] && j < |t.effects|
      ensures j in classes'[c] <==> SameConditions(t, k, j)
    {
      if c == |classes| {
        assert SameConditions(t, k, i);
        assert SameConditions(t, k, j) <==> SameConditions(t, j, i);
      } else {
        assert j in classes[c] <==> SameConditions(t, k, j);
      }
    }
  }

  lemma DivideStep(classes: seq<seq<nat>>, had: seq<bool>, cls: seq<nat>, had': seq<bool>)
    requires Divides(classes, had) && |had'| == |had|
    requires forall j :: j in cls ==> j < |had| && !had[j]
    requires forall j :: 0 <= j < |had| ==> (had'[j] <==> had[j] || j in cls)
    ensures Divides(classes + [cls], had')
  {
    var classes' := classes + [cls];
    forall c, d, j: nat | 0 <= c < |classes'| && 0 <= d < |classes'| && j in classes'[c] && j in classes'[d]
      ensures c == d
    {
      if c < |classes| {
        assert Taken(classes, j);
      }
      if d < |classes| {
        assert Taken(classes, j);
      }
    }
    forall j | 0 <= j < |had'|
      ensures had'[j] <==> Taken(classes', j)
    {
      if Taken(classes, j) {
        var c :| 0 <= c < |classes| && j in classes[c];
        assert j in classes'[c];
      }
      assert classes'[|classes|] == cls;
    }
  }

  ghost predicate StartBelow(classes: seq<seq<nat>>, i: nat) {
    forall c :: 0 <= c < |classes| ==> classes[c] != [] && classes[c][0] < i
  }

  lemma OrderStep(classes: seq<seq<nat>>, cls: seq<nat>, i: nat)
    requires ClassesInOrder(classes) && StartBelow(classes, i) && cls != [] && cls[0] == i && Ascending(cls)
    ensures ClassesInOrder(classes + [cls]) && StartBelow(classes + [cls], i + 1)
  {
    hide Ascending;
  }

  lemma NothingTaken(t: Template)
    ensures Complete(t, []) && ClassesInOrder([]) && StartBelow([], 0)
    ensures forall had: seq<bool> :: (forall j :: 0 <= j < |had| ==> !had[j]) ==> Divides([], had)
  {
  }

  /** The merged effects of one action. */
  method BuildEffects(t: Template, op: nat) returns (block: seq<EfConn>, ghost classes: seq<seq<nat>>)
    requires forall j :: 0 <= j < |t.effects| ==> Distinct(t.effects[j].conditions)
    ensures Represents(t, classes, block)
    ensures forall c :: 0 <= c < |block| ==> block[c].op == op && block[c].I == [] && !block[c].removed
  {
    hide Merges, ClassesInOrder, Complete, Divides;
    NothingTaken(t);
    var had := new bool[|t.effects|](_ => false);
    block, classes := [], [];
    for i := 0 to |t.effects|
      invariant |classes| == |block| && Divides(classes, had[..]) && Complete(t, classes)
      invariant ClassesInOrder(classes) && StartBelow(classes, i)
      invariant forall c :: 0 <= c < |block| ==> Merges(t, classes[c], block[c])
      invariant forall c :: 0 <= c < |block| ==> block[c].op == op && block[c].I == [] && !block[c].removed
      invariant forall j :: 0 <= j < i ==> had[j]
    {
      if !had[i] {
        ghost var before := had[..];
        var same := SameEffects(t, i, had);
        assert ([i] + same)[0] == i && forall j :: j in [i] + same <==> j == i || j in same;
        CompleteStep(t, classes, before, i, same);
        OrderStep(classes, [i] + same, i);
        var ef := MergeClass(t, op, [i] + same);
        had[i] := true;
        MarkSame(had, same);
        DivideStep(classes, before, [i] + same, had[..]);
        block, classes := block + [ef], classes + [[i] + same];
      }
    }
    assert had[..] == seq(|t.effects|, _ => true);
  }

  method MarkSame(had: array<bool>, same: seq<nat>)
    requires Below(same, had.Length)
    modifies had
    ensures forall j :: 0 <= j < had.Length ==> (had[j] <==> old(had[j]) || j in same)
  {
    for j := 0 to |same|
      invariant forall k :: 0 <= k < had.Length ==> (had[k] <==> old(had[k]) || k in same[..j])
    {
      assert same[..j + 1] == same[..j] + [same[j]];
      had[same[j]] := true;
    }
    assert same[..|same|] == same;
  }

  // ---- useless effects and implied effects

  ghost predicate Useless(ef: EfConn) {
    ef.A == [] && ef.D == []
  }

  /** The effects are the same but for the flag and the implied effects. */
  ghost predicate SameBut(efs: seq<EfConn>, efs': seq<EfConn>) {
    |efs'| == |efs| && forall e :: 0 <= e < |efs| ==>
      efs'[e].op == efs[e].op && efs'[e].PC == efs[e].PC && efs'[e].A == efs[e].A && efs'[e].D == efs[e].D
  }

  /** `E` lists the effects from `start` on that are not removed; nothing else has changed. */
  ghost predicate Lists(efs0: seq<EfConn>, efs: seq<EfConn>, start: nat, E: seq<nat>) {
    && SameBut(efs0, efs) && start <= |efs| && efs[..start] == efs0[..start] && Distinct(E) && Below(E, |efs|) && Ascending(E)
    && (forall e :: start <= e < |efs| ==> efs[e].I == efs0[e].I)
    && forall e: nat :: e in E <==> start <= e < |efs| && !efs[e].removed
  }

  /** No effect among the first `i` of `E` is useless, and all removed ones are. */
  ghost predicate UsefulUpTo(efs: seq<EfConn>, start: nat, E: seq<nat>, i: nat) {
    && i <= |E| && Below(E, |efs|)
    && (forall e :: start <= e < |efs| && efs[e].removed ==> Useless(efs[e]))
    && forall k :: 0 <= k < i ==> !Useless(efs[E[k]])
  }

  lemma RemoveOne(efs0: seq<EfConn>, efs: seq<EfConn>, start: nat, E: seq<nat>, i: nat)
    requires Lists(efs0, efs, start, E) && UsefulUpTo(efs, start, E, i) && i < |E| && Useless(efs[E[i]])
    ensures var efs' := efs[E[i] := efs[E[i]].(removed := true)]; var E' := E[..i] + E[i + 1..];
      Lists(efs0, efs', start, E') && UsefulUpTo(efs', start, E', i)
  {
    hide Lists, UsefulUpTo, Useless;
    OneLess(efs0, efs, start, E, i);
    StillUseful(efs0, efs, start, E, i);
  }

  lemma OneLess(efs0: seq<EfConn>, efs: seq<EfConn>, start: nat, E: seq<nat>, i: nat)
    requires Lists(efs0, efs, start, E) && i < |E| && Useless(efs[E[i]])
    ensures Lists(efs0, efs[E[i] := efs[E[i]].(removed := true)], start, E[..i] + E[i + 1..])
  {
    assert E[i] in E;
    RemoveAt(E, i);
  }

  lemma StillUseful(efs0: seq<EfConn>, efs: seq<EfConn>, start: nat, E: seq<nat>, i: nat)
    requires Lists(efs0, efs, start, E) && UsefulUpTo(efs, start, E, i) && i < |E| && Useless(efs[E[i]])
    ensures UsefulUpTo(efs[E[i] := efs[E[i]].(removed := true)], start, E[..i] + E[i + 1..], i)
  {
  }

  /** Entirely empty effects go. */
  method RemoveEmpty(efs0: seq<EfConn>, start: nat) returns (efs: seq<EfConn>, E: seq<nat>)
    requires start <= |efs0| && forall e :: start <= e < |efs0| ==> !efs0[e].removed
    ensures Lists(efs0, efs, start, E) && UsefulUpTo(efs, start, E, |E|)
  {
    hide Lists, UsefulUpTo;
    efs := efs0;
    E := seq(|efs| - start, k requires 0 <= k < |efs| - start => start + k);
    AllOf(efs, start, E);
    var i := 0;
    while i < |E|
      invariant i <= |E| && Lists(efs0, efs, start, E) && UsefulUpTo(efs, start, E, i)
      decreases |E| - i
    {
      ListBelow(efs0, efs, start, E);
      if efs[E[i]].A != [] || efs[E[i]].D != [] {
        NextUseful(efs, start, E, i);
        i := i + 1;
      } else {
        RemoveOne(efs0, efs, start, E, i);
        efs := efs[E[i] := efs[E[i]].(removed := true)];
        E := E[..i] + E[i + 1..];
      }
    }
  }

  lemma ListBelow(efs0: seq<EfConn>, efs: seq<EfConn>, start: nat, E: seq<nat>)
    requires Lists(efs0, efs, start, E)
    ensures Below(E, |efs|)
  {
  }

  lemma NextUseful(efs: seq<EfConn>, start: nat, E: seq<nat>, i: nat)
    requires UsefulUpTo(efs, start, E, i) && i < |E| && !Useless(efs[E[i]])
    ensures UsefulUpTo(efs, start, E, i + 1)
  {
  }

  /** If the effects that are left only delete, they are removed as well. */
  method RemoveDeleters(efs0: seq<EfConn>, efs1: seq<EfConn>, start: nat, E1: seq<nat>)
    returns (efs: seq<EfConn>, E: seq<nat>)
    requires Lists(efs0, efs1, start, E1)
    ensures Lists(efs0, efs, start, E)
    ensures if forall k :: 0 <= k < |E1| ==> efs1[E1[k]].A == [] then E == [] else efs == efs1 && E == E1
  {
    efs, E := efs1, E1;
    var only := OnlyDeleters(efs, E);
    if only {
      for k := 0 to |E1|
        invariant Lists(efs0, efs, start, E1[k..])
      {
        assert E1[k..] == [E1[k]] + E1[k + 1..];
        assert E1[k] in E1[k..];
        LaterNot(E1, k);
        efs := efs[E1[k] := efs[E1[k]].(removed := true)];
      }
      E := [];
    }
  }

  /** Entirely empty effects go; if the others only delete, they go as well. */
  method RemoveUseless(efs0: seq<EfConn>, start: nat) returns (efs: seq<EfConn>, E: seq<nat>)
    requires start <= |efs0| && forall e :: start <= e < |efs0| ==> !efs0[e].removed
    ensures Lists(efs0, efs, start, E)
    ensures forall e :: start <= e < |efs| ==>
      (efs[e].removed <==> Useless(efs[e]) || forall d :: start <= d < |efs| ==> efs[d].A == [])
  {
    var efs1, E1 := RemoveEmpty(efs0, start);
    efs, E := RemoveDeleters(efs0, efs1, start, E1);
    WhatIsRemoved(efs0, efs1, efs, start, E1, E);
  }

  lemma WhatIsRemoved(efs0: seq<EfConn>, efs1: seq<EfConn>, efs: seq<EfConn>, start: nat, E1: seq<nat>, E: seq<nat>)
    requires Lists(efs0, efs1, start, E1) && UsefulUpTo(efs1, start, E1, |E1|) && Lists(efs0, efs, start, E)
    requires if forall k :: 0 <= k < |E1| ==> efs1[E1[k]].A == [] then E == [] else efs == efs1 && E == E1
    ensures forall e :: start <= e < |efs| ==>
      (efs[e].removed <==> Useless(efs[e]) || forall d :: start <= d < |efs| ==> efs[d].A == [])
  {
    assert forall e: nat :: start <= e < |efs| ==> efs[e].A == efs0[e].A == efs1[e].A && efs[e].D == efs1[e].D;
    if forall k :: 0 <= k < |E1| ==> efs1[E1[k]].A == [] {
      forall e: nat | start <= e < |efs|
        ensures efs[e].A == [] && efs[e].removed
      {
        assert efs1[e].removed || e in E1;
        assert e !in E;
      }
    } else {
      var k :| 0 <= k < |E1| && efs1[E1[k]].A != [];
      assert E1[k] in E1;
      forall e: nat | start <= e < |efs|
        ensures efs[e].removed <==> Useless(efs[e])
      {
        if !efs1[e].removed {
          assert e in E1;
          var x :| 0 <= x < |E1| && E1[x] == e;
          assert !Useless(efs1[E1[x]]);
        }
      }
    }
  }

  lemma LaterNot(s: seq<nat>, k: nat)
    requires Distinct(s) && k < |s|
    ensures s[k] !in s[k + 1..]
  {
  }

  lemma AllOf(efs: seq<EfConn>, start: nat, E: seq<nat>)
    requires start <= |efs| && (forall e :: start <= e < |efs| ==> !efs[e].removed)
    requires |E| == |efs| - start && forall k :: 0 <= k < |E| ==> E[k] == start + k
    ensures Lists(efs, efs, start, E) && UsefulUpTo(efs, start, E, 0)
  {
    forall e: nat | start <= e < |efs|
      ensures e in E
    {
      assert E[e - start] == e;
    }
  }

  lemma RemoveAt(s: seq<nat>, i: nat)
    requires Distinct(s) && i < |s|
    ensures var r := s[..i] + s[i + 1..]; Distinct(r) && forall x :: x in r <==> x in s && x != s[i]
  {
    var r := s[..i] + s[i + 1..];
    assert forall k :: 0 <= k < |r| ==> r[k] == s[if k < i then k else k + 1];
    forall x | x in s && x != s[i]
      ensures x in r
    {
      var k :| 0 <= k < |s| && s[k] == x;
      assert r[if k < i then k else k - 1] == x;
    }
  }

  /** Whether none of the effects adds anything: the count of those that do not is the whole list. */
  method OnlyDeleters(efs: seq<EfConn>, E: seq<nat>) returns (only: bool)
    requires Below(E, |efs|)
    ensures only <==> forall k :: 0 <= k < |E| ==> efs[E[k]].A == []
  {
    var m := 0;
    for i := 0 to |E|
      invariant m <= i && (m == i <==> forall k :: 0 <= k < i ==> efs[E[k]].A == [])
    {
      if efs[E[i]].A == [] {
        m := m + 1;
      }
    }
    only := m == |E|;
  }

  // ---- implied effects

  /** The pair of places is among those compared: first places below `i`, and `i` with places below `j`. */
  predicate Compared(x: nat, y: nat, i: nat, j: nat) {
    x != y && (x < i || y < i || (x == i && y < j) || (y == i && x < j))
  }

  /** The lists of one place after places `i` and `j` are compared. */
  ghost predicate ImpliedAt(efs: seq<EfConn>, E: seq<nat>, x: nat, i: nat, j: nat)
    requires Below(E, |efs|) && x < |E|
  {
    && Distinct(efs[E[x]].I) && (forall e :: e in efs[E[x]].I ==> e in E)
    && forall y :: 0 <= y < |E| ==>
      (E[y] in efs[E[x]].I <==> Compared(x, y, i, j) && Elems(efs[E[y]].PC) <= Elems(efs[E[x]].PC))
  }

  /** `I` holds the other effects of `E` whose conditions are included, among those compared. */
  ghost predicate ImpliedSoFar(efs: seq<EfConn>, E: seq<nat>, i: nat, j: nat) {
    Below(E, |efs|) && Distinct(E) && forall x: nat :: x < |E| ==> ImpliedAt(efs, E, x, i, j)
  }

  function Imply(efs: seq<EfConn>, e: nat, d: nat): seq<EfConn>
    requires e < |efs|
  {
    efs[e := efs[e].(I := efs[e].I + [d])]
  }

  /** One of the two places that were compared. */
  lemma ImplyOne(efs: seq<EfConn>, efs': seq<EfConn>, E: seq<nat>, x: nat, z: nat, i: nat, j: nat)
    requires Below(E, |efs|) && Distinct(E) && |efs'| == |efs| && i < j < |E|
    requires (x == i && z == j) || (x == j && z == i)
    requires ImpliedAt(efs, E, x, i, j) && forall e :: 0 <= e < |efs| ==> efs'[e].PC == efs[e].PC
    requires efs'[E[x]].I == if Elems(efs[E[z]].PC) <= Elems(efs[E[x]].PC) then efs[E[x]].I + [E[z]] else efs[E[x]].I
    ensures ImpliedAt(efs', E, x, i, j + 1)
  {
    assert E[z] in E && E[z] !in efs[E[x]].I;
    forall y | 0 <= y < |E|
      ensures E[y] in efs'[E[x]].I <==> Compared(x, y, i, j + 1) && Elems(efs[E[y]].PC) <= Elems(efs[E[x]].PC)
    {
      assert E[y] in efs'[E[x]].I <==> E[y] in efs[E[x]].I || (y == z && Elems(efs[E[z]].PC) <= Elems(efs[E[x]].PC));
    }
  }

  lemma ImplyPair(efs: seq<EfConn>, E: seq<nat>, i: nat, j: nat)
    requires ImpliedSoFar(efs, E, i, j) && i < j < |E|
    ensures var ef, ef' := E[i], E[j];
      var efs1 := if Elems(efs[ef'].PC) <= Elems(efs[ef].PC) then Imply(efs, ef, ef') else efs;
      var efs2 := if Elems(efs[ef].PC) <= Elems(efs[ef'].PC) then Imply(efs1, ef', ef) else efs1;
      ImpliedSoFar(efs2, E, i, j + 1)
  {
    hide Elems;
    var ef, ef' := E[i], E[j];
    var efs1 := if Elems(efs[ef'].PC) <= Elems(efs[ef].PC) then Imply(efs, ef, ef') else efs;
    var efs2 := if Elems(efs[ef].PC) <= Elems(efs[ef'].PC) then Imply(efs1, ef', ef) else efs1;
    var j': nat := j + 1;
    forall x: nat | x < |E|
      ensures ImpliedAt(efs2, E, x, i, j')
    {
      assert ImpliedAt(efs, E, x, i, j);
      if x == i {
        ImplyOne(efs, efs2, E, i, j, i, j);
      } else if x == j {
        ImplyOne(efs, efs2, E, j, i, i, j);
      } else {
        assert E[x] != ef && E[x] != ef' && efs2[E[x]] == efs[E[x]];
      }
    }
  }

  /** The effects are the same but for the implied effects of those in `E`. */
  ghost predicate OnlyImplied(efs0: seq<EfConn>, efs: seq<EfConn>, E: seq<nat>) {
    && |efs| == |efs0|
    && (forall e :: 0 <= e < |efs| ==> efs[e] == efs0[e].(I := efs[e].I))
    && forall e :: 0 <= e < |efs| && e !in E ==> efs[e] == efs0[e]
  }

  /** The set-up of the implied effects: every pair of effects is compared both ways. */
  method SetImplied(efs0: seq<EfConn>, E: seq<nat>) returns (efs: seq<EfConn>)
    requires ImpliedSoFar(efs0, E, 0, 0)
    ensures OnlyImplied(efs0, efs, E) && ImpliedSoFar(efs, E, |E|, 0)
  {
    hide ImpliedSoFar;
    efs := efs0;
    ImpliedBelow(efs, E, 0, 0);
    for i := 0 to |E|
      invariant OnlyImplied(efs0, efs, E) && ImpliedSoFar(efs, E, i, 0)
    {
      ImpliedRow(efs, E, i);
      for j := i + 1 to |E|
        invariant OnlyImplied(efs0, efs, E) && ImpliedSoFar(efs, E, i, j)
      {
        var forward := Includes(efs[E[i]].PC, efs[E[j]].PC);
        var backward := Includes(efs[E[j]].PC, efs[E[i]].PC);
        ImplyPair(efs, E, i, j);
        if forward {
          efs := Imply(efs, E[i], E[j]);
        }
        if backward {
          efs := Imply(efs, E[j], E[i]);
        }
      }
      ImpliedNext(efs, E, i);
    }
  }

  lemma ImpliedBelow(efs: seq<EfConn>, E: seq<nat>, i: nat, j: nat)
    requires ImpliedSoFar(efs, E, i, j)
    ensures Below(E, |efs|)
  {
  }

  lemma ImpliedRow(efs: seq<EfConn>, E: seq<nat>, i: nat)
    requires ImpliedSoFar(efs, E, i, 0)
    ensures ImpliedSoFar(efs, E, i, i + 1)
  {
    var j: nat := i + 1;
    forall x: nat | x < |E|
      ensures ImpliedAt(efs, E, x, i, j)
    {
      assert ImpliedAt(efs, E, x, i, 0);
    }
  }

  lemma ImpliedNext(efs: seq<EfConn>, E: seq<nat>, i: nat)
    requires ImpliedSoFar(efs, E, i, |E|) && i < |E|
    ensures ImpliedSoFar(efs, E, i + 1, 0)
  {
    var i': nat := i + 1;
    forall x: nat | x < |E|
      ensures ImpliedAt(efs, E, x, i', 0)
    {
      assert ImpliedAt(efs, E, x, i, |E|);
    }
  }

  // ---- one operator after the other

  function Blank(n: nat): seq<FtConn> {
    seq(n, _ => FtConn([], [], [], 0, false))
  }

  /** The operators and effects built so far are well-formed. */
  ghost predicate Partial(ops: seq<OpConn>, efs: seq<EfConn>, n: nat) {
    var g := Graph(ops, efs, Blank(n));
    g.EffectsOk() && g.OpsOk() && g.ImpliedOk()
  }

  /** The effects from `start` on are those of operator `op`. */
  ghost predicate NewBlock(efs: seq<EfConn>, start: nat, op: nat, n: nat, E: seq<nat>) {
    && start <= |efs| && Distinct(E) && Below(E, |efs|)
    && (forall e: nat :: e in E <==> start <= e < |efs| && !efs[e].removed)
    && forall e :: start <= e < |efs| ==>
      && efs[e].op == op && (efs[e].removed ==> efs[e].A == [])
      && Below(efs[e].PC, n) && Distinct(efs[e].PC) && Below(efs[e].A, n) && Distinct(efs[e].A)
      && Below(efs[e].D, n) && Distinct(efs[e].D)
  }

  lemma NewEffectsOk(ops: seq<OpConn>, efs0: seq<EfConn>, efs: seq<EfConn>, n: nat, E: seq<nat>)
    requires Partial(ops, efs0, n) && |efs0| <= |efs| && efs[..|efs0|] == efs0
    requires NewBlock(efs, |efs0|, |ops|, n, E)
    ensures Graph(ops + [OpConn(E)], efs, Blank(n)).EffectsOk()
  {
    forall e | 0 <= e < |efs0|
      ensures efs[e] == efs0[e]
    {
      assert efs[..|efs0|][e] == efs0[e];
    }
  }

  lemma NewOpsOk(ops: seq<OpConn>, efs0: seq<EfConn>, efs: seq<EfConn>, n: nat, E: seq<nat>)
    requires Partial(ops, efs0, n) && |efs0| <= |efs| && efs[..|efs0|] == efs0
    requires NewBlock(efs, |efs0|, |ops|, n, E)
    ensures Graph(ops + [OpConn(E)], efs, Blank(n)).OpsOk()
  {
    var ops' := ops + [OpConn(E)];
    forall o, e | 0 <= o < |ops'| && 0 <= e < |efs|
      ensures e in ops'[o].E <==> efs[e].op == o && !efs[e].removed
    {
      if e < |efs0| {
        assert efs[..|efs0|][e] == efs0[e];
        assert efs0[e].op < |ops|;
      }
    }
    forall o | 0 <= o < |ops'|
      ensures Below(ops'[o].E, |efs|) && Distinct(ops'[o].E)
    {
      assert o < |ops| ==> ops'[o] == ops[o];
    }
  }

  lemma NewImpliedOk(ops: seq<OpConn>, efs0: seq<EfConn>, efs: seq<EfConn>, n: nat, E: seq<nat>)
    requires Partial(ops, efs0, n) && |efs0| <= |efs| && efs[..|efs0|] == efs0
    requires NewBlock(efs, |efs0|, |ops|, n, E) && ImpliedSoFar(efs, E, |E|, 0)
    ensures Graph(ops + [OpConn(E)], efs, Blank(n)).ImpliedOk()
  {
    forall e: nat | e < |efs| && !efs[e].removed
      ensures Below(efs[e].I, |efs|) && Distinct(efs[e].I)
      ensures forall i :: 0 <= i < |efs| ==>
        (i in efs[e].I <==> i != e && !efs[i].removed && efs[i].op == efs[e].op && Elems(efs[i].PC) <= Elems(efs[e].PC))
    {
      if e < |efs0| {
        OldImplied(ops, efs0, efs, n, E, e);
      } else {
        NewImplied(efs, |efs0|, |ops|, n, E, e, efs0, ops);
      }
    }
  }

  lemma OldImplied(ops: seq<OpConn>, efs0: seq<EfConn>, efs: seq<EfConn>, n: nat, E: seq<nat>, e: nat)
    requires Partial(ops, efs0, n) && |efs0| <= |efs| && efs[..|efs0|] == efs0
    requires NewBlock(efs, |efs0|, |ops|, n, E) && e < |efs0| && !efs[e].removed
    ensures Below(efs[e].I, |efs|) && Distinct(efs[e].I)
    ensures forall i :: 0 <= i < |efs| ==>
      (i in efs[e].I <==> i != e && !efs[i].removed && efs[i].op == efs[e].op && Elems(efs[i].PC) <= Elems(efs[e].PC))
  {
    assert forall i :: 0 <= i < |efs0| ==> efs[i] == efs[..|efs0|][i] == efs0[i];
    assert efs0[e].op < |ops|;
  }

  lemma NewImplied(efs: seq<EfConn>, start: nat, op: nat, n: nat, E: seq<nat>, e: nat, efs0: seq<EfConn>, ops: seq<OpConn>)
    requires NewBlock(efs, start, op, n, E) && ImpliedSoFar(efs, E, |E|, 0) && start <= e < |efs| && !efs[e].removed
    requires Partial(ops, efs0, n) && |efs0| == start && efs[..start] == efs0 && op == |ops|
    ensures Below(efs[e].I, |efs|) && Distinct(efs[e].I)
    ensures forall i :: 0 <= i < |efs| ==>
      (i in efs[e].I <==> i != e && !efs[i].removed && efs[i].op == efs[e].op && Elems(efs[i].PC) <= Elems(efs[e].PC))
  {
    assert e in E;
    var x: nat :| x < |E| && E[x] == e;
    assert ImpliedAt(efs, E, x, |E|, 0);
    forall i: nat | i < |efs|
      ensures i in efs[e].I <==> i != e && !efs[i].removed && efs[i].op == efs[e].op && Elems(efs[i].PC) <= Elems(efs[e].PC)
    {
      if i < start {
        assert efs[..start][i] == efs0[i] && efs0[i].op < |ops|;
      } else if !efs[i].removed {
        assert i in E;
        var y :| 0 <= y < |E| && E[y] == i;
      }
    }
    assert forall k :: 0 <= k < |efs[e].I| ==> efs[e].I[k] in efs[e].I;
  }

  /** What became of one action: its effects stand for classes, and those are removed that are useless
      or, when none of them adds anything, all. */
  ghost predicate Accounts(t: Template, classes: seq<seq<nat>>, block: seq<EfConn>) {
    && Represents(t, classes, block)
    && forall e :: 0 <= e < |block| ==>
      (block[e].removed <==> Useless(block[e]) || forall d :: 0 <= d < |block| ==> block[d].A == [])
  }

  lemma WithinLists(t: Template, n: nat, cls: seq<nat>, ef: EfConn)
    requires t.Within(n) && Merges(t, cls, ef)
    ensures Below(ef.PC, n) && Below(ef.A, n) && Below(ef.D, n)
  {
    assert cls[0] in cls;
    var e := t.effects[cls[0]];
    forall k | 0 <= k < |ef.PC|
      ensures ef.PC[k] < n
    {
      assert ef.PC[k] in Elems(ef.PC);
    }
    forall k | 0 <= k < |ef.A|
      ensures ef.A[k] < n
    {
      assert ef.A[k] in Elems(ef.A);
    }
    forall k | 0 <= k < |ef.D|
      ensures ef.D[k] < n
    {
      assert ef.D[k] in Elems(ef.D);
    }
  }

  /** The loop body of build_connectivity_graph for one action. */
  method BuildOp(t: Template, ops0: seq<OpConn>, efs0: seq<EfConn>, n: nat)
    returns (ops: seq<OpConn>, efs: seq<EfConn>, ghost classes: seq<seq<nat>>)
    requires Partial(ops0, efs0, n) && t.Within(n)
    requires forall j :: 0 <= j < |t.effects| ==> Distinct(t.effects[j].conditions)
    ensures Partial(ops, efs, n) && |ops| == |ops0| + 1 && ops[..|ops0|] == ops0
    ensures |efs0| <= |efs| && efs[..|efs0|] == efs0 && Accounts(t, classes, efs[|efs0|..])
    ensures Distinct(ops[|ops0|].E) && Below(ops[|ops0|].E, |efs|) && Ascending(ops[|ops0|].E)
    ensures forall e: nat :: e in ops[|ops0|].E <==> |efs0| <= e < |efs| && !efs[e].removed
    ensures forall e :: |efs0| <= e < |efs| ==> efs[e].op == |ops0|
    ensures forall e :: 0 <= e < |efs0| ==> efs0[e].op < |ops0|
  {
    hide Partial, Represents, Lists, ImpliedSoFar, NewBlock;
    var block;
    block, classes := BuildEffects(t, |ops0|);
    var efs1 := efs0 + block;
    var efs2, E := RemoveUseless(efs1, |efs0|);
    StartImplied(efs1, efs2, |efs0|, E);
    efs := SetImplied(efs2, E);
    FinishedBlock(t, classes, block, efs0, efs2, efs, E, |ops0|, n);
    NewEffectsOk(ops0, efs0, efs, n, E);
    NewOpsOk(ops0, efs0, efs, n, E);
    NewImpliedOk(ops0, efs0, efs, n, E);
    BlockEffects(efs, |efs0|, |ops0|, n, E);
    PartialOps(ops0, efs0, n);
    ops := ops0 + [OpConn(E)];
    assert Partial(ops, efs, n) by {
      NowPartial(ops, efs, n);
    }
  }

  lemma BlockEffects(efs: seq<EfConn>, start: nat, op: nat, n: nat, E: seq<nat>)
    requires NewBlock(efs, start, op, n, E)
    ensures Distinct(E) && Below(E, |efs|) && forall e: nat :: e in E <==> start <= e < |efs| && !efs[e].removed
    ensures forall e :: start <= e < |efs| ==> efs[e].op == op
  {
  }

  lemma PartialOps(ops: seq<OpConn>, efs: seq<EfConn>, n: nat)
    requires Partial(ops, efs, n)
    ensures forall e :: 0 <= e < |efs| ==> efs[e].op < |ops|
  {
  }

  lemma NowPartial(ops: seq<OpConn>, efs: seq<EfConn>, n: nat)
    requires var g := Graph(ops, efs, Blank(n)); g.EffectsOk() && g.OpsOk() && g.ImpliedOk()
    ensures Partial(ops, efs, n)
  {
  }

  lemma StartImplied(efs0: seq<EfConn>, efs: seq<EfConn>, start: nat, E: seq<nat>)
    requires Lists(efs0, efs, start, E) && forall e :: start <= e < |efs0| ==> efs0[e].I == []
    ensures ImpliedSoFar(efs, E, 0, 0)
  {
    assert forall x :: 0 <= x < |E| ==> E[x] in E;
  }

  /** Removing and implying leave the facts of the new effects and everything of the old ones. */
  lemma BlockKept(efs0: seq<EfConn>, block: seq<EfConn>, efs2: seq<EfConn>, efs: seq<EfConn>, E: seq<nat>)
    requires Lists(efs0 + block, efs2, |efs0|, E) && OnlyImplied(efs2, efs, E)
    ensures |efs| == |efs0| + |block| && efs[..|efs0|] == efs0
    ensures forall e :: |efs0| <= e < |efs| ==> SameFacts(block[e - |efs0|], efs[e]) && efs[e].removed == efs2[e].removed
    ensures Distinct(E) && Below(E, |efs|) && forall e: nat :: e in E <==> |efs0| <= e < |efs| && !efs[e].removed
  {
    var start, efs1 := |efs0|, efs0 + block;
    forall e | 0 <= e < start
      ensures efs[e] == efs0[e]
    {
      assert e !in E && efs2[..start][e] == efs1[..start][e];
    }
    forall e | start <= e < |efs|
      ensures efs1[e] == block[e - start]
    {
    }
  }

  lemma BlockMerges(t: Template, classes: seq<seq<nat>>, block: seq<EfConn>, block': seq<EfConn>, n: nat)
    requires t.Within(n) && Represents(t, classes, block) && |block'| == |block|
    requires forall c :: 0 <= c < |block| ==> SameFacts(block[c], block'[c])
    ensures Represents(t, classes, block')
    ensures forall c :: 0 <= c < |block'| ==>
      && Below(block'[c].PC, n) && Distinct(block'[c].PC) && Below(block'[c].A, n) && Distinct(block'[c].A)
      && Below(block'[c].D, n) && Distinct(block'[c].D)
  {
    hide Divides;
    forall c: nat | c < |block|
      ensures Merges(t, classes[c], block'[c]) && Below(block'[c].PC, n) && Below(block'[c].A, n) && Below(block'[c].D, n)
    {
      SameMerges(t, classes[c], block[c], block'[c]);
      WithinLists(t, n, classes[c], block'[c]);
    }
  }

  lemma FinishedBlock(t: Template, classes: seq<seq<nat>>, block: seq<EfConn>, efs0: seq<EfConn>, efs2: seq<EfConn>,
                      efs: seq<EfConn>, E: seq<nat>, op: nat, n: nat)
    requires t.Within(n) && Represents(t, classes, block) && forall c :: 0 <= c < |block| ==> block[c].op == op
    requires Lists(efs0 + block, efs2, |efs0|, E) && OnlyImplied(efs2, efs, E)
    requires forall e :: |efs0| <= e < |efs2| ==>
      (efs2[e].removed <==> Useless(efs2[e]) || forall d :: |efs0| <= d < |efs2| ==> efs2[d].A == [])
    ensures |efs0| <= |efs| && efs[..|efs0|] == efs0
    ensures NewBlock(efs, |efs0|, op, n, E) && Accounts(t, classes, efs[|efs0|..])
  {
    hide Represents, Lists, OnlyImplied, Merges;
    BlockKept(efs0, block, efs2, efs, E);
    var start, block' := |efs0|, efs[|efs0|..];
    BlockMerges(t, classes, block, block', n);
    SameAsBefore(efs0, block, efs2, efs, E);
    AccountsMoved(t, classes, efs2, efs, start);
    forall e | start <= e < |efs|
      ensures efs[e] == block'[e - start] && efs[e].op == op && (efs[e].removed ==> efs[e].A == [])
    {
      assert SameFacts(block[e - start], efs[e]);
    }
  }

  lemma SameAsBefore(efs0: seq<EfConn>, block: seq<EfConn>, efs2: seq<EfConn>, efs: seq<EfConn>, E: seq<nat>)
    requires Lists(efs0 + block, efs2, |efs0|, E) && OnlyImplied(efs2, efs, E)
    ensures |efs| == |efs2| && forall e :: |efs0| <= e < |efs| ==> SameFacts(efs2[e], efs[e]) && efs[e].removed == efs2[e].removed
  {
  }

  ghost predicate SameFacts(a: EfConn, b: EfConn) {
    a.op == b.op && a.PC == b.PC && a.A == b.A && a.D == b.D
  }

  lemma SameMerges(t: Template, cls: seq<nat>, a: EfConn, b: EfConn)
    requires Merges(t, cls, a) && SameFacts(a, b)
    ensures Merges(t, cls, b)
  {
  }

  lemma AccountsMoved(t: Template, classes: seq<seq<nat>>, efs2: seq<EfConn>, efs: seq<EfConn>, start: nat)
    requires start <= |efs| == |efs2| && Represents(t, classes, efs[start..])
    requires forall e :: start <= e < |efs| ==> SameFacts(efs2[e], efs[e]) && efs[e].removed == efs2[e].removed
    requires forall e :: start <= e < |efs2| ==>
      (efs2[e].removed <==> Useless(efs2[e]) || forall d :: start <= d < |efs2| ==> efs2[d].A == [])
    ensures Accounts(t, classes, efs[start..])
  {
    hide Represents;
    var block := efs[start..];
    assert (forall d :: 0 <= d < |block| ==> block[d].A == []) <==> forall d :: start <= d < |efs2| ==> efs2[d].A == [] by {
      forall d | start <= d < |efs2|
        ensures efs2[d].A == block[d - start].A
      {
      }
    }
    forall e | 0 <= e < |block|
      ensures block[e] == efs[start + e] && SameFacts(efs2[start + e], block[e])
    {
    }
  }

  // ---- the fact arrays

  /** The three lists of an effect that the fact arrays invert. */
  datatype Kind = Conditions | Adds | Deletes

  function ListOf(ef: EfConn, kind: Kind): seq<nat> {
    match kind case Conditions => ef.PC case Adds => ef.A case Deletes => ef.D
  }

  predicate Names(efs: seq<EfConn>, kind: Kind, e: nat, f: nat)
    requires e < |efs|
  {
    !efs[e].removed && f in ListOf(efs[e], kind)
  }

  /** The effects below `m` that name the fact, in order. */
  function Inverse(efs: seq<EfConn>, kind: Kind, m: nat, f: nat): seq<nat>
    requires m <= |efs|
  {
    if m == 0 then [] else Inverse(efs, kind, m - 1, f) + if Names(efs, kind, m - 1, f) then [m - 1] else []
  }

  lemma {:induction false} InverseElems(efs: seq<EfConn>, kind: Kind, m: nat, f: nat)
    requires m <= |efs|
    ensures Distinct(Inverse(efs, kind, m, f)) && Below(Inverse(efs, kind, m, f), m)
    ensures forall e: nat :: e in Inverse(efs, kind, m, f) <==> e < m && Names(efs, kind, e, f)
  {
    if m > 0 {
      InverseElems(efs, kind, m - 1, f);
    }
  }

  lemma {:induction false} InverseInOrder(efs: seq<EfConn>, kind: Kind, m: nat, f: nat)
    requires m <= |efs|
    ensures Ascending(Inverse(efs, kind, m, f)) && forall e :: e in Inverse(efs, kind, m, f) ==> e < m
  {
    if m > 0 {
      InverseInOrder(efs, kind, m - 1, f);
      AscendingAppend(Inverse(efs, kind, m - 1, f), m - 1);
    }
  }

  /** Later effects do not matter. */
  lemma {:induction false} InversePrefix(efs: seq<EfConn>, efs': seq<EfConn>, kind: Kind, m: nat, f: nat)
    requires m <= |efs| && m <= |efs'| && forall e :: 0 <= e < m ==> efs[e] == efs'[e]
    ensures Inverse(efs, kind, m, f) == Inverse(efs', kind, m, f)
  {
    if m > 0 {
      InversePrefix(efs, efs', kind, m - 1, f);
    }
  }

  /** How many of the listed effects name the fact. */
  function Mentions(efs: seq<EfConn>, kind: Kind, E: seq<nat>, f: nat): nat
    requires Below(E, |efs|)
  {
    if E == [] then 0
    else Mentions(efs, kind, E[..|E| - 1], f) + if f in ListOf(efs[E[|E| - 1]], kind) then 1 else 0
  }

  ghost function Naming(efs: seq<EfConn>, kind: Kind, E: seq<nat>, f: nat): set<nat>
    requires Below(E, |efs|)
  {
    set e | e in E && f in ListOf(efs[e], kind)
  }

  lemma NamingAppend(efs: seq<EfConn>, kind: Kind, E: seq<nat>, e: nat, f: nat)
    requires Below(E, |efs|) && e < |efs| && e !in E
    ensures |Naming(efs, kind, E + [e], f)| == |Naming(efs, kind, E, f)| + if f in ListOf(efs[e], kind) then 1 else 0
  {
    hide ListOf;
    assert forall x :: x in E + [e] <==> x in E || x == e;
    if f in ListOf(efs[e], kind) {
      assert Naming(efs, kind, E + [e], f) == Naming(efs, kind, E, f) + {e};
    } else {
      assert Naming(efs, kind, E + [e], f) == Naming(efs, kind, E, f);
    }
  }

  lemma {:induction false} MentionsSize(efs: seq<EfConn>, kind: Kind, E: seq<nat>, f: nat)
    requires Below(E, |efs|) && Distinct(E)
    ensures Mentions(efs, kind, E, f) == |Naming(efs, kind, E, f)|
  {
    hide ListOf, Naming;
    if E == [] {
      NamingNothing(efs, kind, f);
    } else {
      var front, last := E[..|E| - 1], E[|E| - 1];
      assert E == front + [last];
      MentionsSize(efs, kind, front, f);
      NamingAppend(efs, kind, front, last, f);
    }
  }

  lemma NamingNothing(efs: seq<EfConn>, kind: Kind, f: nat)
    ensures Naming(efs, kind, [], f) == {}
  {
  }

  /** What the sweep over the effects of a new operator adds to the count of a fact is what the second
      pass will add to its array. */
  lemma SweepCounts(efs: seq<EfConn>, kind: Kind, start: nat, E: seq<nat>, f: nat)
    requires start <= |efs| && Distinct(E) && Below(E, |efs|)
    requires forall e: nat :: e in E <==> start <= e < |efs| && !efs[e].removed
    ensures |Inverse(efs, kind, start, f)| + Mentions(efs, kind, E, f) == |Inverse(efs, kind, |efs|, f)|
  {
    hide Inverse, Mentions, ListOf, Distinct, Below;
    var old', all := Inverse(efs, kind, start, f), Inverse(efs, kind, |efs|, f);
    InverseElems(efs, kind, start, f);
    InverseElems(efs, kind, |efs|, f);
    MentionsSize(efs, kind, E, f);
    DistinctSize(old');
    DistinctSize(all);
    assert Elems(all) == Elems(old') + Naming(efs, kind, E, f);
    assert Elems(old') * Naming(efs, kind, E, f) == {};
  }

  /** First sweep: count what each fact array will hold. */
  method Sweep(efs: seq<EfConn>, E: seq<nat>, kind: Kind, count: array<nat>)
    requires Below(E, |efs|)
    requires forall k :: 0 <= k < |E| ==> Below(ListOf(efs[E[k]], kind), count.Length) && Distinct(ListOf(efs[E[k]], kind))
    modifies count
    ensures forall f :: 0 <= f < count.Length ==> count[f] == old(count[f]) + Mentions(efs, kind, E, f)
  {
    for i := 0 to |E|
      invariant forall f :: 0 <= f < count.Length ==> count[f] == old(count[f]) + Mentions(efs, kind, E[..i], f)
    {
      assert E[..i + 1][..i] == E[..i];
      CountList(ListOf(efs[E[i]], kind), count);
    }
    assert E[..|E|] == E;
  }

  method CountList(list: seq<nat>, count: array<nat>)
    requires Below(list, count.Length) && Distinct(list)
    modifies count
    ensures forall f :: 0 <= f < count.Length ==> count[f] == old(count[f]) + if f in list then 1 else 0
  {
    for j := 0 to |list|
      invariant forall f :: 0 <= f < count.Length ==> count[f] == old(count[f]) + if f in list[..j] then 1 else 0
    {
      assert list[..j + 1] == list[..j] + [list[j]];
      assert list[j] !in list[..j];
      count[list[j]] := count[list[j]] + 1;
    }
    assert list[..|list|] == list;
  }

  /** Second pass: enter the effect in the arrays of the facts in its list. */
  method EnterList(list: seq<nat>, table: array<seq<nat>>, e: nat)
    requires Below(list, table.Length) && Distinct(list)
    modifies table
    ensures forall f :: 0 <= f < table.Length ==> table[f] == old(table[f]) + if f in list then [e] else []
  {
    for j := 0 to |list|
      invariant forall f :: 0 <= f < table.Length ==> table[f] == old(table[f]) + if f in list[..j] then [e] else []
    {
      assert list[..j + 1] == list[..j] + [list[j]];
      assert list[j] !in list[..j];
      table[list[j]] := table[list[j]] + [e];
    }
    assert list[..|list|] == list;
  }

  ghost predicate ListsBelow(efs: seq<EfConn>, kind: Kind, n: nat) {
    forall e :: 0 <= e < |efs| ==> Below(ListOf(efs[e], kind), n) && Distinct(ListOf(efs[e], kind))
  }

  /** One of the three arrays of every fact. */
  method InvertLists(efs: seq<EfConn>, kind: Kind, n: nat) returns (table: array<seq<nat>>)
    requires ListsBelow(efs, kind, n)
    ensures fresh(table) && table.Length == n
    ensures forall f :: 0 <= f < n ==> table[f] == Inverse(efs, kind, |efs|, f)
  {
    table := new seq<nat>[n](_ => []);
    for i := 0 to |efs|
      invariant forall f :: 0 <= f < n ==> table[f] == Inverse(efs, kind, i, f)
    {
      if !efs[i].removed {
        EnterList(ListOf(efs[i], kind), table, i);
      }
    }
  }

  // ---- the whole graph

  /** The effects of operator `o` begin at `starts[o]` and stand for the classes of its action. */
  ghost predicate FaithfulAt(actions: seq<Template>, efs: seq<EfConn>, starts: seq<nat>, classes: seq<seq<seq<nat>>>, o: nat) {
    && o < |actions| && o + 1 < |starts| && o < |classes|
    && starts[o] <= starts[o + 1] <= |efs| && Accounts(actions[o], classes[o], efs[starts[o]..starts[o + 1]])
    && forall e :: 0 <= e < |efs| ==> (efs[e].op == o <==> starts[o] <= e < starts[o + 1])
  }

  ghost predicate Faithful(actions: seq<Template>, efs: seq<EfConn>, starts: seq<nat>, classes: seq<seq<seq<nat>>>) {
    && |starts| == |actions| + 1 && |classes| == |actions| && starts[|actions|] == |efs|
    && forall o: nat :: o < |actions| ==> FaithfulAt(actions, efs, starts, classes, o)
  }

  lemma FaithfulStep(actions: seq<Template>, t: Template, efs0: seq<EfConn>, efs: seq<EfConn>, starts: seq<nat>,
                     classes: seq<seq<seq<nat>>>, new': seq<seq<nat>>)
    requires Faithful(actions, efs0, starts, classes)
    requires |efs0| <= |efs| && efs[..|efs0|] == efs0 && Accounts(t, new', efs[|efs0|..])
    requires forall e :: 0 <= e < |efs0| ==> efs0[e].op < |actions|
    requires forall e :: |efs0| <= e < |efs| ==> efs[e].op == |actions|
    ensures Faithful(actions + [t], efs, starts + [|efs|], classes + [new'])
  {
    hide Accounts;
    var end: nat := |efs|;
    var starts', classes', actions' := starts + [end], classes + [new'], actions + [t];
    assert forall e :: 0 <= e < |efs0| ==> efs[e] == efs[..|efs0|][e] == efs0[e];
    forall o: nat | o < |actions'|
      ensures FaithfulAt(actions', efs, starts', classes', o)
    {
      if o < |actions| {
        assert FaithfulAt(actions, efs0, starts, classes, o);
        assert efs[..|efs0|][starts[o]..starts[o + 1]] == efs[starts[o]..starts[o + 1]];
      } else {
        assert efs[|efs0|..|efs|] == efs[|efs0|..];
      }
    }
  }

  /** The counts of the first sweep. */
  ghost predicate Counted(efs: seq<EfConn>, kind: Kind, count: seq<nat>) {
    forall f :: 0 <= f < |count| ==> count[f] == |Inverse(efs, kind, |efs|, f)|
  }

  lemma SweptOp(efs0: seq<EfConn>, efs: seq<EfConn>, kind: Kind, E: seq<nat>, count0: seq<nat>, count: seq<nat>)
    requires Counted(efs0, kind, count0) && |count0| == |count| && |efs0| <= |efs| && efs[..|efs0|] == efs0
    requires Distinct(E) && Below(E, |efs|) && forall e: nat :: e in E <==> |efs0| <= e < |efs| && !efs[e].removed
    requires forall f :: 0 <= f < |count| ==> count[f] == count0[f] + Mentions(efs, kind, E, f)
    ensures Counted(efs, kind, count)
  {
    assert forall e :: 0 <= e < |efs0| ==> efs[e] == efs[..|efs0|][e] == efs0[e];
    forall f: nat | f < |count|
      ensures count[f] == |Inverse(efs, kind, |efs|, f)|
    {
      SweepCounts(efs, kind, |efs0|, E, f);
      InversePrefix(efs, efs0, kind, |efs0|, f);
    }
  }

  /** build_connectivity_graph. */
  method BuildConnectivityGraph(actions: seq<Template>, n: nat, goals: seq<nat>, rand: nat -> nat)
    returns (g: Graph, ghost starts: seq<nat>, ghost classes: seq<seq<seq<nat>>>)
    requires forall i :: 0 <= i < |actions| ==> actions[i].Within(n)
    requires forall i, j :: 0 <= i < |actions| && 0 <= j < |actions[i].effects| ==> Distinct(actions[i].effects[j].conditions)
    ensures g.WellFormed() && |g.ops| == |actions| && |g.fts| == n
    ensures Faithful(actions, g.efs, starts, classes)
    ensures forall f :: 0 <= f < n ==> g.fts[f].rand == rand(f) && (g.fts[f].isGlobalGoal <==> f in goals)
    ensures forall o :: 0 <= o < |g.ops| ==> Ascending(g.ops[o].E)
    ensures forall f :: 0 <= f < n ==> Ascending(g.fts[f].PC) && Ascending(g.fts[f].A) && Ascending(g.fts[f].D)
  {
    hide Ascending, Partial, Counted, Faithful, Template.Within, Distinct;
    var ops, efs: seq<EfConn> := [], [];
    starts, classes := [0], [];
    var pc, a, d := new nat[n](_ => 0), new nat[n](_ => 0), new nat[n](_ => 0);
    NothingBuilt(n, pc[..], a[..], d[..]);
    for i := 0 to |actions|
      invariant Partial(ops, efs, n) && |ops| == i && Faithful(actions[..i], efs, starts, classes)
      invariant forall o :: 0 <= o < i ==> Ascending(ops[o].E)
      invariant Counted(efs, Conditions, pc[..]) && Counted(efs, Adds, a[..]) && Counted(efs, Deletes, d[..])
    {
      ghost var ops0, efs0 := ops, efs;
      ghost var new';
      ops, efs, new' := BuildOp(actions[i], ops, efs, n);
      FaithfulStep(actions[..i], actions[i], efs0, efs, starts, classes, new');
      assert actions[..i + 1] == actions[..i] + [actions[i]];
      assert forall o :: 0 <= o < i ==> ops[o] == ops[..i][o];
      starts, classes := starts + [|efs|], classes + [new'];
      SweepOp(efs, ops[i].E, Conditions, pc, n, efs0, ops);
      SweepOp(efs, ops[i].E, Adds, a, n, efs0, ops);
      SweepOp(efs, ops[i].E, Deletes, d, n, efs0, ops);
    }
    assert actions[..|actions|] == actions;
    var fts := BuildFacts(ops, efs, n, goals, rand, pc, a, d);
    g := Graph(ops, efs, fts);
    WholeGraph(ops, efs, fts, n);
    ArraysInOrder(efs, fts, n);
  }

  lemma NothingBuilt(n: nat, pc: seq<nat>, a: seq<nat>, d: seq<nat>)
    requires |pc| == |a| == |d| == n && forall f :: 0 <= f < n ==> pc[f] == a[f] == d[f] == 0
    ensures Partial([], [], n) && Faithful([], [], [0], [])
    ensures Counted([], Conditions, pc) && Counted([], Adds, a) && Counted([], Deletes, d)
  {
  }

  /** The sweep over the effects of the operator just built. */
  method SweepOp(efs: seq<EfConn>, E: seq<nat>, kind: Kind, count: array<nat>, ghost n: nat, ghost efs0: seq<EfConn>,
                 ghost ops: seq<OpConn>)
    requires Partial(ops, efs, n) && count.Length == n && Counted(efs0, kind, count[..])
    requires Distinct(E) && Below(E, |efs|) && |efs0| <= |efs| && efs[..|efs0|] == efs0
    requires forall e: nat :: e in E <==> |efs0| <= e < |efs| && !efs[e].removed
    modifies count
    ensures Counted(efs, kind, count[..])
  {
    hide Partial, Mentions;
    ghost var before := count[..];
    PartialLists(ops, efs, n, kind);
    Sweep(efs, E, kind, count);
    SweptOp(efs0, efs, kind, E, before, count[..]);
  }

  lemma PartialLists(ops: seq<OpConn>, efs: seq<EfConn>, n: nat, kind: Kind)
    requires Partial(ops, efs, n)
    ensures ListsBelow(efs, kind, n)
  {
  }

  /** The second pass. Every array holds exactly as many effects as were counted for it. */
  method BuildFacts(ghost ops: seq<OpConn>, efs: seq<EfConn>, n: nat, goals: seq<nat>, rand: nat -> nat,
                    pc: array<nat>, a: array<nat>, d: array<nat>) returns (fts: seq<FtConn>)
    requires Partial(ops, efs, n) && pc.Length == a.Length == d.Length == n
    requires Counted(efs, Conditions, pc[..]) && Counted(efs, Adds, a[..]) && Counted(efs, Deletes, d[..])
    ensures |fts| == n && forall f :: 0 <= f < n ==>
      && fts[f].PC == Inverse(efs, Conditions, |efs|, f) && |fts[f].PC| == pc[f]
      && fts[f].A == Inverse(efs, Adds, |efs|, f) && |fts[f].A| == a[f]
      && fts[f].D == Inverse(efs, Deletes, |efs|, f) && |fts[f].D| == d[f]
      && fts[f].rand == rand(f) && (fts[f].isGlobalGoal <==> f in goals)
  {
    hide Partial, Inverse;
    PartialLists(ops, efs, n, Conditions);
    PartialLists(ops, efs, n, Adds);
    PartialLists(ops, efs, n, Deletes);
    var pcs := InvertLists(efs, Conditions, n);
    var as' := InvertLists(efs, Adds, n);
    var ds := InvertLists(efs, Deletes, n);
    fts := [];
    for f := 0 to n
      invariant |fts| == f && forall k :: 0 <= k < f ==>
        fts[k] == FtConn(pcs[k], as'[k], ds[k], rand(k), k in goals)
    {
      fts := fts + [FtConn(pcs[f], as'[f], ds[f], rand(f), f in goals)];
    }
    assert forall f :: 0 <= f < n ==> pc[..][f] == pc[f] && a[..][f] == a[f] && d[..][f] == d[f];
  }

  lemma ArraysInOrder(efs: seq<EfConn>, fts: seq<FtConn>, n: nat)
    requires |fts| == n
    requires forall f :: 0 <= f < n ==> fts[f].PC == Inverse(efs, Conditions, |efs|, f)
    requires forall f :: 0 <= f < n ==> fts[f].A == Inverse(efs, Adds, |efs|, f)
    requires forall f :: 0 <= f < n ==> fts[f].D == Inverse(efs, Deletes, |efs|, f)
    ensures forall f :: 0 <= f < n ==> Ascending(fts[f].PC) && Ascending(fts[f].A) && Ascending(fts[f].D)
  {
    hide Ascending, Inverse;
    forall f: nat | f < n
      ensures Ascending(fts[f].PC) && Ascending(fts[f].A) && Ascending(fts[f].D)
    {
      InverseInOrder(efs, Conditions, |efs|, f);
      InverseInOrder(efs, Adds, |efs|, f);
      InverseInOrder(efs, Deletes, |efs|, f);
    }
  }

  lemma WholeGraph(ops: seq<OpConn>, efs: seq<EfConn>, fts: seq<FtConn>, n: nat)
    requires Partial(ops, efs, n) && |fts| == n
    requires forall f :: 0 <= f < n ==> fts[f].PC == Inverse(efs, Conditions, |efs|, f)
    requires forall f :: 0 <= f < n ==> fts[f].A == Inverse(efs, Adds, |efs|, f)
    requires forall f :: 0 <= f < n ==> fts[f].D == Inverse(efs, Deletes, |efs|, f)
    ensures Graph(ops, efs, fts).WellFormed()
  {
    forall f: nat | f < n
      ensures Distinct(fts[f].PC) && Below(fts[f].PC, |efs|) && Distinct(fts[f].A) && Below(fts[f].A, |efs|)
      ensures Distinct(fts[f].D) && Below(fts[f].D, |efs|)
      ensures forall e :: 0 <= e < |efs| ==>
        && (e in fts[f].PC <==> !efs[e].removed && f in efs[e].PC)
        && (e in fts[f].A <==> !efs[e].removed && f in efs[e].A)
        && (e in fts[f].D <==> !efs[e].removed && f in efs[e].D)
    {
      InverseElems(efs, Conditions, |efs|, f);
      InverseElems(efs, Adds, |efs|, f);
      InverseElems(efs, Deletes, |efs|, f);
    }
  }

  // ---- whole actions

  /** Some effect with the conditions of `d` adds the fact. */
  ghost predicate AddedAlongside(t: Template, d: Effect, f: nat) {
    exists e :: e in t.effects && Elems(e.conditions) == Elems(d.conditions) && f in e.adds
  }

  /** In state `X`, the action adds the fact, but only by effects that need it anyway, so that the merged
      effects leave it out; and an effect with other conditions deletes it. */
  ghost predicate Loses(t: Template, X: set<nat>, f: nat) {
    && f in t.Added(X)
    && (forall e :: e in t.effects && Elems(e.conditions) <= X && f in e.adds ==> f in Elems(t.preconds) + Elems(e.conditions))
    && exists d :: d in t.effects && Elems(d.conditions) <= X && f in d.dels && !AddedAlongside(t, d, f)
  }

  ghost predicate LosesSome(t: Template, X: set<nat>) {
    exists f :: Loses(t, X, f)
  }

  ghost function BlockAdds(block: seq<EfConn>, X: set<nat>): set<nat> {
    set c, f | 0 <= c < |block| && Elems(block[c].PC) <= X && f in block[c].A :: f
  }

  ghost function BlockDels(block: seq<EfConn>, X: set<nat>): set<nat> {
    set c, f | 0 <= c < |block| && Elems(block[c].PC) <= X && f in block[c].D :: f
  }

  /** What the template adds and deletes, class by class. */
  lemma ClassesCover(t: Template, classes: seq<seq<nat>>, block: seq<EfConn>, X: set<nat>, f: nat)
    requires Represents(t, classes, block) && t.Applicable(X)
    ensures f in t.Added(X) <==> exists c :: 0 <= c < |block| && Elems(block[c].PC) <= X && f in ClassAdds(t, classes[c])
    ensures f in t.Deleted(X) <==> exists c :: 0 <= c < |block| && Elems(block[c].PC) <= X && f in ClassDels(t, classes[c])
  {
    forall e | e in t.effects && Elems(e.conditions) <= X
      ensures exists c, j: nat :: 0 <= c < |block| && Elems(block[c].PC) <= X && j in classes[c] && t.effects[j] == e
    {
      var j: nat :| j < |t.effects| && t.effects[j] == e;
      assert seq(|t.effects|, _ => true)[j];
      assert Taken(classes, j);
      var c :| 0 <= c < |classes| && j in classes[c];
      assert Merges(t, classes[c], block[c]);
    }
    forall c, j: nat | 0 <= c < |block| && Elems(block[c].PC) <= X && j in classes[c]
      ensures j < |t.effects| && t.effects[j] in t.effects && Elems(t.effects[j].conditions) <= X
    {
      assert Merges(t, classes[c], block[c]);
    }
  }

  ghost predicate InClass(t: Template, cls: seq<nat>, e: Effect) {
    exists j: nat :: j < |t.effects| && j in cls && t.effects[j] == e
  }

  /** Every effect of the template has a class, that of its conditions. */
  lemma HasClass(t: Template, classes: seq<seq<nat>>, block: seq<EfConn>, e: Effect) returns (c: nat)
    requires Represents(t, classes, block) && e in t.effects
    ensures c < |block| && InClass(t, classes[c], e)
  {
    var j: nat :| j < |t.effects| && t.effects[j] == e;
    assert seq(|t.effects|, _ => true)[j];
    assert Taken(classes, j);
    c :| 0 <= c < |classes| && j in classes[c];
  }

  /** The members of a class have the same conditions, and no other effect has them. */
  lemma ClassIsConditions(t: Template, classes: seq<seq<nat>>, block: seq<EfConn>, c: nat, d: Effect, e: Effect)
    requires Represents(t, classes, block) && c < |block| && InClass(t, classes[c], d) && e in t.effects
    ensures Elems(e.conditions) == Elems(d.conditions) <==> InClass(t, classes[c], e)
    ensures Elems(block[c].PC) == Elems(t.preconds) + Elems(d.conditions)
  {
    hide MergedInOrder, ClassesInOrder, Divides;
    assert Merges(t, classes[c], block[c]);
    var j: nat :| j < |t.effects| && j in classes[c] && t.effects[j] == d;
    var i: nat :| i < |t.effects| && t.effects[i] == e;
    assert i in classes[c] <==> SameConditions(t, j, i);
    if InClass(t, classes[c], e) {
      var k: nat :| k < |t.effects| && k in classes[c] && t.effects[k] == e;
      assert SameConditions(t, j, k);
    }
  }

  lemma ClassSets(t: Template, cls: seq<nat>, f: nat)
    requires Below(cls, |t.effects|)
    ensures f in ClassAdds(t, cls) <==> exists e :: e in t.effects && InClass(t, cls, e) && f in e.adds
    ensures f in ClassDels(t, cls) <==> exists e :: e in t.effects && InClass(t, cls, e) && f in e.dels
  {
    if f in ClassAdds(t, cls) {
      var j :| j in cls && j < |t.effects| && f in t.effects[j].adds;
      assert t.effects[j] in t.effects && InClass(t, cls, t.effects[j]);
    }
    if f in ClassDels(t, cls) {
      var j :| j in cls && j < |t.effects| && f in t.effects[j].dels;
      assert t.effects[j] in t.effects && InClass(t, cls, t.effects[j]);
    }
  }

  /** The same said by the merged effects: the fact is added by a class, left out by all of them, and
      deleted by one. */
  ghost predicate Conflict(t: Template, classes: seq<seq<nat>>, block: seq<EfConn>, X: set<nat>, f: nat)
    requires |classes| == |block|
  {
    && (exists c :: 0 <= c < |block| && Elems(block[c].PC) <= X && f in ClassAdds(t, classes[c]))
    && (forall c :: 0 <= c < |block| && Elems(block[c].PC) <= X ==> f !in block[c].A)
    && exists c :: 0 <= c < |block| && Elems(block[c].PC) <= X && f in block[c].D
  }

  lemma ConflictIsLoss(t: Template, classes: seq<seq<nat>>, block: seq<EfConn>, X: set<nat>, f: nat)
    requires Represents(t, classes, block) && t.Applicable(X)
    ensures Conflict(t, classes, block, X, f) <==> Loses(t, X, f)
  {
    ClassesCover(t, classes, block, X, f);
    LeftOut(t, classes, block, X, f);
    DeletedAlone(t, classes, block, X, f);
  }

  /** No class adds the fact exactly if all effects that do need it. */
  lemma LeftOut(t: Template, classes: seq<seq<nat>>, block: seq<EfConn>, X: set<nat>, f: nat)
    requires Represents(t, classes, block) && t.Applicable(X)
    ensures (forall c :: 0 <= c < |block| && Elems(block[c].PC) <= X ==> f !in block[c].A) <==>
      forall e :: e in t.effects && Elems(e.conditions) <= X && f in e.adds ==> f in Elems(t.preconds) + Elems(e.conditions)
  {
    hide InClass, ClassAdds, Complete, Divides;
    if forall c :: 0 <= c < |block| && Elems(block[c].PC) <= X ==> f !in block[c].A {
      forall e | e in t.effects && Elems(e.conditions) <= X && f in e.adds
        ensures f in Elems(t.preconds) + Elems(e.conditions)
      {
        var c := HasClass(t, classes, block, e);
        assert Merges(t, classes[c], block[c]);
        ClassIsConditions(t, classes, block, c, e, e);
        ClassSets(t, classes[c], f);
        assert f in Elems(block[c].A) + Elems(block[c].PC);
      }
    } else {
      var c :| 0 <= c < |block| && Elems(block[c].PC) <= X && f in block[c].A;
      assert Merges(t, classes[c], block[c]);
      assert f in Elems(block[c].A);
      ClassSets(t, classes[c], f);
      var e :| e in t.effects && InClass(t, classes[c], e) && f in e.adds;
      ClassIsConditions(t, classes, block, c, e, e);
    }
  }

  /** Some class deletes the fact exactly if some effect does and none with the same conditions adds it. */
  lemma DeletedAlone(t: Template, classes: seq<seq<nat>>, block: seq<EfConn>, X: set<nat>, f: nat)
    requires Represents(t, classes, block) && t.Applicable(X)
    ensures (exists c :: 0 <= c < |block| && Elems(block[c].PC) <= X && f in block[c].D) <==>
      exists d :: d in t.effects && Elems(d.conditions) <= X && f in d.dels && !AddedAlongside(t, d, f)
  {
    hide InClass, ClassAdds, ClassDels, Complete, Divides;
    if c :| 0 <= c < |block| && Elems(block[c].PC) <= X && f in block[c].D {
      assert Merges(t, classes[c], block[c]);
      assert f in Elems(block[c].D);
      ClassSets(t, classes[c], f);
      var d :| d in t.effects && InClass(t, classes[c], d) && f in d.dels;
      forall e | e in t.effects
        ensures Elems(e.conditions) == Elems(d.conditions) <==> InClass(t, classes[c], e)
      {
        ClassIsConditions(t, classes, block, c, d, e);
      }
      ClassIsConditions(t, classes, block, c, d, d);
      assert !AddedAlongside(t, d, f);
    }
    if d :| d in t.effects && Elems(d.conditions) <= X && f in d.dels && !AddedAlongside(t, d, f) {
      var c := HasClass(t, classes, block, d);
      assert Merges(t, classes[c], block[c]);
      ClassSets(t, classes[c], f);
      forall e | e in t.effects
        ensures Elems(e.conditions) == Elems(d.conditions) <==> InClass(t, classes[c], e)
      {
        ClassIsConditions(t, classes, block, c, d, e);
      }
      ClassIsConditions(t, classes, block, c, d, d);
      assert f in Elems(block[c].D);
    }
  }

  /** Taken together, the merged effects do what the action does unless there is a conflict. */
  lemma WholeAction(t: Template, classes: seq<seq<nat>>, block: seq<EfConn>, X: set<nat>)
    requires Represents(t, classes, block) && t.Applicable(X)
    ensures X - BlockDels(block, X) + BlockAdds(block, X) == t.Successor(X) <==> !LosesSome(t, X)
  {
    hide Loses, Represents, Template.Successor, BlockAdds, BlockDels;
    var Y := X - BlockDels(block, X) + BlockAdds(block, X);
    forall f: nat
      ensures (f in Y) == (f in t.Successor(X)) <==> !Loses(t, X, f)
    {
      OneFact(t, classes, block, X, f);
      ConflictIsLoss(t, classes, block, X, f);
    }
    if Y == t.Successor(X) {
      forall f: nat
        ensures !Loses(t, X, f)
      {
      }
    } else if forall f: nat :: !Loses(t, X, f) {
      assert forall f: nat :: f in Y <==> f in t.Successor(X);
    }
  }

  lemma OneFact(t: Template, classes: seq<seq<nat>>, block: seq<EfConn>, X: set<nat>, f: nat)
    requires Represents(t, classes, block) && t.Applicable(X)
    ensures (f in X - BlockDels(block, X) + BlockAdds(block, X)) == (f in t.Successor(X))
      <==> !Conflict(t, classes, block, X, f)
  {
    ClassesCover(t, classes, block, X, f);
    hide Template.Added, Template.Deleted, Divides;
    forall c | 0 <= c < |block| && Elems(block[c].PC) <= X
      ensures f in block[c].A <==> f in ClassAdds(t, classes[c]) && f !in Elems(block[c].PC)
      ensures f in block[c].D <==> f in ClassDels(t, classes[c]) && f !in ClassAdds(t, classes[c])
    {
      assert Merges(t, classes[c], block[c]);
      assert f in block[c].A <==> f in Elems(block[c].A);
      assert f in block[c].D <==> f in Elems(block[c].D);
    }
  }

  /** The effects that the graph keeps for an operator do what all its merged effects do. */
  lemma KeptEffects(g: Graph, actions: seq<Template>, starts: seq<nat>, classes: seq<seq<seq<nat>>>, o: nat, X: set<nat>)
    requires g.WellFormed() && |g.ops| == |actions| && Faithful(actions, g.efs, starts, classes)
    requires o < |actions| && g.ops[o].E != []
    ensures FaithfulAt(actions, g.efs, starts, classes, o)
    ensures var block := g.efs[starts[o]..starts[o + 1]];
      g.Adds(o, X) == BlockAdds(block, X) && g.Dels(o, X) == BlockDels(block, X)
  {
    assert FaithfulAt(actions, g.efs, starts, classes, o);
    hide Faithful, Accounts, Graph.Adds, Graph.Dels, Graph.ImpliedOk, Graph.FactsOk, Graph.EffectsOk, Graph.OpsOk,
      BlockAdds, BlockDels;
    KeptBlock(g, o, starts[o], starts[o + 1], actions[o], classes[o], X);
  }

  lemma KeptBlock(g: Graph, o: nat, start: nat, end: nat, t: Template, classes: seq<seq<nat>>, X: set<nat>)
    requires g.OpsOk() && o < |g.ops| && start <= end <= |g.efs| && g.ops[o].E != []
    requires Accounts(t, classes, g.efs[start..end])
    requires forall e :: 0 <= e < |g.efs| ==> (g.efs[e].op == o <==> start <= e < end)
    ensures g.Adds(o, X) == BlockAdds(g.efs[start..end], X) && g.Dels(o, X) == BlockDels(g.efs[start..end], X)
  {
    hide Graph.Adds, Graph.Dels, BlockAdds, BlockDels, Accounts;
    OperatorBlock(g, o, start, end);
    hide Graph.OpsOk;
    KeptOrUseless(g.efs, o, start, end, t, classes, g.ops[o].E);
    SameSets(g, o, X, start, g.efs[start..end]);
  }

  lemma OperatorBlock(g: Graph, o: nat, start: nat, end: nat)
    requires g.OpsOk() && o < |g.ops| && start <= end <= |g.efs|
    requires forall e :: 0 <= e < |g.efs| ==> (g.efs[e].op == o <==> start <= e < end)
    ensures forall e: nat :: e in g.ops[o].E <==> start <= e < end && !g.efs[e].removed
  {
    forall e: nat
      ensures e in g.ops[o].E <==> start <= e < end && !g.efs[e].removed
    {
      if e in g.ops[o].E {
        var k :| 0 <= k < |g.ops[o].E| && g.ops[o].E[k] == e;
      }
      assert e < |g.efs| ==> (e in g.ops[o].E <==> g.efs[e].op == o && !g.efs[e].removed);
    }
  }

  lemma KeptOrUseless(efs: seq<EfConn>, o: nat, start: nat, end: nat, t: Template, classes: seq<seq<nat>>, E: seq<nat>)
    requires start <= end <= |efs| && Accounts(t, classes, efs[start..end]) && E != []
    requires forall e: nat :: e in E <==> start <= e < end && !efs[e].removed
    ensures var block := efs[start..end];
      && (forall c: nat :: c < |block| ==> block[c] == efs[start + c] && (start + c in E || Useless(block[c])))
      && forall e: nat :: e in E ==> start <= e < start + |block| && block[e - start] == efs[e]
  {
    hide Represents;
    var block := efs[start..end];
    assert E[0] in E;
    assert block[E[0] - start] == efs[E[0]];
    forall c: nat | c < |block|
      ensures block[c] == efs[start + c] && (start + c in E || Useless(block[c]))
    {
    }
  }

  lemma SameSets(g: Graph, o: nat, X: set<nat>, start: nat, block: seq<EfConn>)
    requires o < |g.ops| && start + |block| <= |g.efs|
    requires forall c: nat :: c < |block| ==> block[c] == g.efs[start + c] && (start + c in g.ops[o].E || Useless(block[c]))
    requires forall e: nat :: e in g.ops[o].E ==> start <= e < start + |block| && block[e - start] == g.efs[e]
    ensures g.Adds(o, X) == BlockAdds(block, X) && g.Dels(o, X) == BlockDels(block, X)
  {
    forall f: nat
      ensures f in g.Adds(o, X) <==> f in BlockAdds(block, X)
      ensures f in g.Dels(o, X) <==> f in BlockDels(block, X)
    {
      if f in BlockAdds(block, X) {
        var c :| 0 <= c < |block| && Elems(block[c].PC) <= X && f in block[c].A;
        assert g.Fires(o, start + c, X);
      }
      if f in BlockDels(block, X) {
        var c :| 0 <= c < |block| && Elems(block[c].PC) <= X && f in block[c].D;
        assert g.Fires(o, start + c, X);
      }
      if f in g.Adds(o, X) {
        var e :| e in g.ops[o].E && g.Fires(o, e, X) && f in g.efs[e].A;
        assert block[e - start] == g.efs[e];
      }
      if f in g.Dels(o, X) {
        var e :| e in g.ops[o].E && g.Fires(o, e, X) && f in g.efs[e].D;
        assert block[e - start] == g.efs[e];
      }
    }
  }

  /** An operator that the graph keeps leads where its action leads, exactly unless this loses a fact in
      that state. */
  lemma OperatorDoesAction(g: Graph, actions: seq<Template>, starts: seq<nat>, classes: seq<seq<seq<nat>>>, o: nat, X: set<nat>)
    requires g.WellFormed() && |g.ops| == |actions| && Faithful(actions, g.efs, starts, classes)
    requires o < |actions| && g.ops[o].E != [] && actions[o].Applicable(X)
    ensures g.Result(o, X) == actions[o].Successor(X) <==> !LosesSome(actions[o], X)
  {
    KeptEffects(g, actions, starts, classes, o, X);
    hide Graph.Adds, Graph.Dels, Graph.WellFormed;
    WholeAction(actions[o], classes[o], g.efs[starts[o]..starts[o + 1]], X);
  }
}
