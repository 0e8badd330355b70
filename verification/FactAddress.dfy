/** The table addresses of ground facts in inst_final.c: arguments are weighed in the order of their
    type sizes, smallest first, and every well-typed fact of a predicate gets a place of its own in a
    table with as many places as there are such facts. */
module FactAddress {
  import opened Sequences

  /** The product of the sizes at the given positions. */
  function Product(sizes: seq<nat>, order: seq<nat>): nat
    requires Below(order, |sizes|)
  {
    if order == [] then 1 else sizes[order[0]] * Product(sizes, order[1..])
  }

  /** The number whose digits, the lowest first, are the arguments at the given positions. */
  function Weighed(sizes: seq<nat>, numbers: seq<nat>, order: seq<nat>): nat
    requires |numbers| == |sizes| && Below(order, |sizes|)
  {
    if order == [] then 0 else numbers[order[0]] + sizes[order[0]] * Weighed(sizes, numbers, order[1..])
  }

  ghost predicate WellTyped(sizes: seq<nat>, numbers: seq<nat>) {
    |numbers| == |sizes| && forall j :: 0 <= j < |sizes| ==> numbers[j] < sizes[j]
  }

  /** The positions in the order in which they are visited: the first smallest of those left. */
  ghost predicate IsVisit(sizes: seq<nat>, order: seq<nat>) {
    && Distinct(order) && Below(order, |sizes|)
    && forall k, j {:trigger order[k], sizes[j]} :: 0 <= k < |order| && 0 <= j < |sizes| && j !in order[..k] ==>
      sizes[order[k]] < sizes[j] || (sizes[order[k]] == sizes[j] && order[k] <= j)
  }

  /** There is only one such order, so the address depends on nothing but the arguments. */
  lemma {:induction false} OneVisit(sizes: seq<nat>, o: seq<nat>, o': seq<nat>)
    requires IsVisit(sizes, o) && IsVisit(sizes, o') && |o| == |o'|
    ensures o == o'
    decreases |o|
  {
    hide IsVisit;
    if o != [] {
      var n: nat := |o| - 1;
      VisitPrefix(sizes, o, n);
      VisitPrefix(sizes, o', n);
      OneVisit(sizes, o[..n], o'[..n]);
      NotVisited(sizes, o, n);
      NotVisited(sizes, o', n);
      FirstSmallest(sizes, o, n, o'[n]);
      FirstSmallest(sizes, o', n, o[n]);
      assert o == o[..n] + [o[n]] && o' == o'[..n] + [o'[n]];
    }
  }

  lemma FirstSmallest(sizes: seq<nat>, o: seq<nat>, k: nat, j: nat)
    requires IsVisit(sizes, o) && k < |o| && j < |sizes| && j !in o[..k]
    ensures o[k] < |sizes| && (sizes[o[k]] < sizes[j] || (sizes[o[k]] == sizes[j] && o[k] <= j))
  {
  }

  lemma VisitPrefix(sizes: seq<nat>, o: seq<nat>, n: nat)
    requires IsVisit(sizes, o) && n <= |o|
    ensures IsVisit(sizes, o[..n])
  {
    forall k, j | 0 <= k < n && 0 <= j < |sizes| && j !in o[..n][..k]
      ensures sizes[o[k]] < sizes[j] || (sizes[o[k]] == sizes[j] && o[k] <= j)
    {
      assert o[..n][..k] == o[..k];
      assert sizes[j] == sizes[j];
    }
  }

  lemma NotVisited(sizes: seq<nat>, o: seq<nat>, n: nat)
    requires IsVisit(sizes, o) && n < |o|
    ensures o[n] < |sizes| && o[n] !in o[..n]
  {
  }

  lemma {:induction false} WeighedBelow(sizes: seq<nat>, numbers: seq<nat>, order: seq<nat>)
    requires WellTyped(sizes, numbers) && Below(order, |sizes|)
    ensures Weighed(sizes, numbers, order) < Product(sizes, order)
  {
    if order != [] {
      WeighedBelow(sizes, numbers, order[1..]);
      DigitBelow(sizes[order[0]], numbers[order[0]], Weighed(sizes, numbers, order[1..]), Product(sizes, order[1..]));
    }
  }

  lemma DigitBelow(s: nat, x: nat, v: nat, p: nat)
    requires x < s && v < p
    ensures x + s * v < s * p
  {
    Distribute(s, v, 1, 1);
    MultiplyLess(s, v + 1, p);
  }

  lemma MultiplyLess(s: nat, a: nat, b: nat)
    requires a <= b
    ensures s * a <= s * b
  {
  }

  lemma DigitsDiffer(s: nat, x: nat, v: nat, y: nat, w: nat)
    requires x < s && y < s && x + s * v == y + s * w
    ensures x == y && v == w
  {
    if v < w {
      DigitBelow(s, x, v, w);
    } else if w < v {
      DigitBelow(s, y, w, v);
    }
  }

  /** Tuples of well-typed arguments with the same address agree at all positions visited. */
  lemma {:induction false} WeighedInjective(sizes: seq<nat>, a: seq<nat>, b: seq<nat>, order: seq<nat>)
    requires WellTyped(sizes, a) && WellTyped(sizes, b) && Below(order, |sizes|)
    requires Weighed(sizes, a, order) == Weighed(sizes, b, order)
    ensures forall k :: 0 <= k < |order| ==> a[order[k]] == b[order[k]]
  {
    if order != [] {
      DigitsDiffer(sizes[order[0]], a[order[0]], Weighed(sizes, a, order[1..]),
                   b[order[0]], Weighed(sizes, b, order[1..]));
      WeighedInjective(sizes, a, b, order[1..]);
    }
  }

  /** The size of the tables for one predicate. */
  function TableSize(sizes: seq<nat>): nat {
    if sizes == [] then 1 else sizes[|sizes| - 1] * TableSize(sizes[..|sizes| - 1])
  }

  lemma {:induction false} ProductRemove(sizes: seq<nat>, order: seq<nat>, k: nat)
    requires Below(order, |sizes|) && k < |order|
    ensures Below(order[..k] + order[k + 1..], |sizes|)
    ensures Product(sizes, order) == sizes[order[k]] * Product(sizes, order[..k] + order[k + 1..])
  {
    var rest := order[..k] + order[k + 1..];
    if k > 0 {
      ProductRemove(sizes, order[1..], k - 1);
      assert rest == [order[0]] + (order[1..][..k - 1] + order[1..][k..]);
      var p := Product(sizes, order[1..][..k - 1] + order[1..][k..]);
      assert sizes[order[0]] * (sizes[order[k]] * p) == sizes[order[k]] * (sizes[order[0]] * p);
    } else {
      assert rest == order[1..];
    }
  }

  /** Visiting all positions, in whatever order, multiplies up to the size of the table. */
  lemma {:induction false} FullProduct(sizes: seq<nat>, order: seq<nat>)
    requires Below(order, |sizes|) && Distinct(order) && |order| == |sizes|
    ensures Product(sizes, order) == TableSize(sizes)
    decreases |sizes|
  {
    hide Product;
    if sizes == [] {
      NoProduct(sizes, order);
    } else {
      var last: nat := |sizes| - 1;
      DistinctIsAll(order, |sizes|, last);
      var k :| 0 <= k < |order| && order[k] == last;
      var rest := order[..k] + order[k + 1..];
      WithoutOne(order, k);
      ProductRemove(sizes, order, k);
      FullProduct(sizes[..last], rest);
      ProductOfPrefix(sizes, rest, last);
    }
  }

  lemma NoProduct(sizes: seq<nat>, order: seq<nat>)
    requires order == []
    ensures Product(sizes, order) == 1
  {
  }

  /** Taking the largest number out of distinct numbers leaves distinct smaller ones. */
  lemma WithoutOne(order: seq<nat>, k: nat)
    requires Distinct(order) && k < |order| && Below(order, order[k] + 1)
    ensures var rest := order[..k] + order[k + 1..]; Distinct(rest) && Below(rest, order[k])
  {
  }

  lemma {:induction false} ProductOfPrefix(sizes: seq<nat>, order: seq<nat>, n: nat)
    requires n <= |sizes| && Below(order, n)
    ensures Product(sizes[..n], order) == Product(sizes, order)
  {
    if order != [] {
      ProductOfPrefix(sizes, order[1..], n);
    }
  }

  ghost function Address(sizes: seq<nat>, numbers: seq<nat>, order: seq<nat>): nat
    requires |numbers| == |sizes| && IsVisit(sizes, order)
  {
    Weighed(sizes, numbers, order)
  }

  /** The address of a fact lies in the table, and no other well-typed fact of the predicate has it. */
  lemma AddressesAreUnique(sizes: seq<nat>, a: seq<nat>, b: seq<nat>, order: seq<nat>)
    requires WellTyped(sizes, a) && WellTyped(sizes, b) && IsVisit(sizes, order) && |order| == |sizes|
    ensures Address(sizes, a, order) < TableSize(sizes)
    ensures Address(sizes, a, order) == Address(sizes, b, order) <==> a == b
  {
    WeighedBelow(sizes, a, order);
    FullProduct(sizes, order);
    if Address(sizes, a, order) == Address(sizes, b, order) {
      WeighedInjective(sizes, a, b, order);
      forall j: nat | j < |sizes|
        ensures a[j] == b[j]
      {
        DistinctIsAll(order, |sizes|, j);
        var k :| 0 <= k < |order| && order[k] == j;
      }
    }
  }

  /** The first smallest type among the arguments that are not done. */
  method FindMin(sizes: seq<nat>, done: array<bool>) returns (minj: nat)
    requires done.Length == |sizes| && exists j :: 0 <= j < |sizes| && !done[j]
    ensures minj < |sizes| && !done[minj]
    ensures forall j :: 0 <= j < |sizes| && !done[j] ==>
      sizes[minj] < sizes[j] || (sizes[minj] == sizes[j] && minj <= j)
  {
    var min, mj := -1, -1;
    for j := 0 to |sizes|
      invariant mj == -1 ==> min == -1 && forall k :: 0 <= k < j ==> done[k]
      invariant mj != -1 ==> 0 <= mj < j && !done[mj] && min == sizes[mj]
      invariant mj != -1 ==> forall k :: 0 <= k < j && !done[k] ==> min < sizes[k] || (min == sizes[k] && mj <= k)
    {
      if !done[j] {
        if min == -1 || sizes[j] < min {
          min, mj := sizes[j], j;
        }
      }
    }
    return mj;
  }

  lemma SomeLeft(order: seq<nat>, done: seq<bool>)
    requires Distinct(order) && |order| < |done| && forall j :: 0 <= j < |done| ==> (done[j] <==> j in order)
    ensures exists j :: 0 <= j < |done| && !done[j]
  {
    if forall j :: 0 <= j < |done| ==> done[j] {
      var all: set<nat> := Elems(order);
      AllBelow(all, |done|);
      DistinctSize(order);
    }
  }

  lemma VisitStep(sizes: seq<nat>, order: seq<nat>, done: seq<bool>, m: nat)
    requires IsVisit(sizes, order) && |done| == |sizes| && m < |sizes| && !done[m]
    requires forall j :: 0 <= j < |done| ==> (done[j] <==> j in order)
    requires forall j :: 0 <= j < |sizes| && !done[j] ==> sizes[m] < sizes[j] || (sizes[m] == sizes[j] && m <= j)
    ensures IsVisit(sizes, order + [m]) && Below(order + [m], |sizes|)
  {
    var o := order + [m];
    forall k, j | 0 <= k < |o| && 0 <= j < |sizes| && j !in o[..k]
      ensures sizes[o[k]] < sizes[j] || (sizes[o[k]] == sizes[j] && o[k] <= j)
    {
      assert o[..k] == order[..k];
      if k < |order| {
        assert o[k] == order[k] && sizes[j] == sizes[j];
      } else {
        assert order[..k] == order;
      }
    }
  }

  lemma {:induction false} WeighedAppend(sizes: seq<nat>, numbers: seq<nat>, order: seq<nat>, m: nat)
    requires |numbers| == |sizes| && Below(order, |sizes|) && m < |sizes|
    ensures Weighed(sizes, numbers, order + [m]) == Weighed(sizes, numbers, order) + Product(sizes, order) * numbers[m]
    ensures Product(sizes, order + [m]) == Product(sizes, order) * sizes[m]
  {
    if order == [] {
      assert [m][1..] == [];
    } else {
      var o := order + [m];
      assert o[1..] == order[1..] + [m] && o[0] == order[0];
      WeighedAppend(sizes, numbers, order[1..], m);
      var s, p, v := sizes[order[0]], Product(sizes, order[1..]), Weighed(sizes, numbers, order[1..]);
      Distribute(s, v, p, numbers[m]);
      Associate(s, p, sizes[m]);
      Associate(s, p, numbers[m]);
    }
  }

  lemma Distribute(s: nat, v: nat, p: nat, x: nat)
    ensures s * (v + p * x) == s * v + s * (p * x)
  {
  }

  lemma Associate(a: nat, b: nat, c: nat)
    ensures a * (b * c) == (a * b) * c
  {
  }

  /** fact_adress, for the type sizes of the predicate's arguments and the numbers of the arguments
      within their types. */
  method FactAdress(sizes: seq<nat>, numbers: seq<nat>) returns (r: nat, ghost order: seq<nat>)
    requires |numbers| == |sizes|
    ensures IsVisit(sizes, order) && |order| == |sizes| && r == Address(sizes, numbers, order)
    ensures WellTyped(sizes, numbers) ==> r < TableSize(sizes)
  {
    hide Distinct, IsVisit, Weighed, Product, Below;
    r, order := 0, [];
    var b: nat := 1;
    var done := new bool[|sizes|](_ => false);
    VisitNothing(sizes);
    for i := 0 to |sizes|
      invariant IsVisit(sizes, order) && Below(order, |sizes|) && |order| == i
      invariant forall j :: 0 <= j < |sizes| ==> (done[j] <==> j in order)
      invariant r == Weighed(sizes, numbers, order) && b == Product(sizes, order)
    {
      VisitDistinct(sizes, order);
      SomeLeft(order, done[..]);
      var minj := FindMin(sizes, done);
      VisitStep(sizes, order, done[..], minj);
      WeighedAppend(sizes, numbers, order, minj);
      r := r + b * numbers[minj];
      b := b * sizes[minj];
      done[minj] := true;
      order := order + [minj];
    }
    if WellTyped(sizes, numbers) {
      AddressesAreUnique(sizes, numbers, numbers, order);
    }
  }

  lemma VisitNothing(sizes: seq<nat>)
    ensures IsVisit(sizes, []) && Below([], |sizes|) && Product(sizes, []) == 1
    ensures forall numbers :: |numbers| == |sizes| ==> Weighed(sizes, numbers, []) == 0
  {
  }

  lemma VisitDistinct(sizes: seq<nat>, order: seq<nat>)
    requires IsVisit(sizes, order)
    ensures Distinct(order) && Below(order, |sizes|)
  {
  }
}
