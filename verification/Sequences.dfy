/** Lists of numbers as the planner stores them, read as sets: what it means that a list holds no
    duplicates and only numbers below a bound, how long such lists can be, and how many of their elements
    lie in a set. */
module Sequences {

  ghost function Elems<T>(s: seq<T>): set<T> {
    set x | x in s
  }

  predicate Distinct<T(==)>(s: seq<T>) {
    forall i, j :: 0 <= i < j < |s| ==> s[i] != s[j]
  }

  predicate Below(s: seq<nat>, n: nat) {
    forall i :: 0 <= i < |s| ==> s[i] < n
  }

  lemma ElemsAppend<T>(s: seq<T>, x: T)
    ensures Elems(s + [x]) == Elems(s) + {x}
  {
    forall y | y in Elems(s) + {x}
      ensures y in s + [x]
    {
      if y in s {
        var i :| 0 <= i < |s| && s[i] == y;
        assert (s + [x])[i] == y;
      } else {
        assert (s + [x])[|s|] == y;
      }
    }
  }

  lemma DistinctAppend<T>(s: seq<T>, x: T)
    requires Distinct(s) && x !in s
    ensures Distinct(s + [x])
  {
  }

  /** A list without duplicates is as long as its set of elements is large. */
  lemma {:induction false} DistinctSize<T>(s: seq<T>)
    ensures Distinct(s) ==> |Elems(s)| == |s|
    ensures |Elems(s)| <= |s|
    ensures |Elems(s)| == |s| ==> Distinct(s)
  {
    if s != [] {
      var front, last := s[..|s| - 1], s[|s| - 1];
      assert s == front + [last];
      DistinctSize(front);
      ElemsAppend(front, last);
      if last in front {
        assert Elems(front) + {last} == Elems(front);
        var i :| 0 <= i < |front| && front[i] == last;
        assert s[i] == s[|s| - 1];
      }
    }
  }

  /** How many entries of `s` lie in `A`. */
  function CountIn(s: seq<nat>, A: set<nat>): (n: nat)
    ensures n <= |s|
  {
    if s == [] then 0 else CountIn(s[..|s| - 1], A) + if s[|s| - 1] in A then 1 else 0
  }

  /** A counter that reaches the length of the list says that every entry is in. */
  lemma {:induction false} CountInFull(s: seq<nat>, A: set<nat>)
    ensures CountIn(s, A) == |s| <==> Elems(s) <= A
  {
    if s != [] {
      var front, last := s[..|s| - 1], s[|s| - 1];
      assert s == front + [last];
      CountInFull(front, A);
      ElemsAppend(front, last);
    }
  }

  /** One more fact moves the counter by one exactly when the list holds that fact. */
  lemma {:induction false} CountInAdd(s: seq<nat>, A: set<nat>, x: nat)
    requires Distinct(s) && x !in A
    ensures CountIn(s, A + {x}) == CountIn(s, A) + if x in s then 1 else 0
  {
    if s != [] {
      var front, last := s[..|s| - 1], s[|s| - 1];
      assert s == front + [last];
      CountInAdd(front, A, x);
    }
  }

  lemma {:induction false} CountInNone(s: seq<nat>)
    ensures CountIn(s, {}) == 0
  {
    if s != [] {
      CountInNone(s[..|s| - 1]);
    }
  }

  /** A list of distinct numbers below `n` is no longer than `n`. */
  lemma {:induction false} DistinctBelow(s: seq<nat>, n: nat)
    requires Distinct(s) && Below(s, n)
    ensures |s| <= n
  {
    if s != [] {
      assert s[0] < n;
      if n - 1 in s {
        var i :| 0 <= i < |s| && s[i] == n - 1;
        DistinctBelow(s[..i] + s[i + 1..], n - 1);
      } else {
        DistinctBelow(s, n - 1);
      }
    }
  }

  /** Inserting a new element at position `j`. */
  lemma InsertAt<T>(s: seq<T>, j: nat, x: T)
    requires Distinct(s) && j <= |s| && x !in s
    ensures Distinct(s[..j] + [x] + s[j..]) && Elems(s[..j] + [x] + s[j..]) == Elems(s) + {x}
  {
    var t := s[..j] + [x] + s[j..];
    forall i, k | 0 <= i < k < |t|
      ensures t[i] != t[k]
    {
      assert i != j ==> t[i] == s[if i < j then i else i - 1];
      assert k != j ==> t[k] == s[if k < j then k else k - 1];
    }
    forall y | y in Elems(s) + {x}
      ensures y in t
    {
      if y in s {
        var i :| 0 <= i < |s| && s[i] == y;
        assert t[if i < j then i else i + 1] == y;
      } else {
        assert t[j] == y;
      }
    }
  }

  // ---- orders

  /** `r` has the elements of `l` without repeats, in the order in which they are first seen. */
  ghost predicate FirstSeen<T>(r: seq<T>, l: seq<T>) {
    && Distinct(r) && Elems(r) == Elems(l)
    && forall i, j :: 0 <= i < j < |r| ==> SeenBefore(l, r[i], r[j])
  }

  ghost predicate SeenBefore<T>(l: seq<T>, x: T, y: T) {
    exists k :: 0 <= k <= |l| && x in l[..k] && y !in l[..k]
  }

  lemma SeenNothing()
    ensures FirstSeen<nat>([], [])
  {
  }

  lemma SeenStays<T>(l: seq<T>, m: seq<T>, x: T, y: T)
    requires SeenBefore(l, x, y)
    ensures SeenBefore(l + m, x, y)
  {
    var k :| 0 <= k <= |l| && x in l[..k] && y !in l[..k];
    assert (l + m)[..k] == l[..k];
  }

  lemma SeeOneMore<T>(r: seq<T>, l: seq<T>, x: T)
    requires FirstSeen(r, l)
    ensures FirstSeen(if x in r then r else r + [x], l + [x])
  {
    ElemsAppend(l, x);
    ElemsAppend(r, x);
    assert (forall y :: y in r <==> y in Elems(r)) && forall y :: y in l <==> y in Elems(l);
    var r' := if x in r then r else r + [x];
    forall i, j | 0 <= i < j < |r'|
      ensures SeenBefore(l + [x], r'[i], r'[j])
    {
      if j < |r| {
        SeenStays(l, [x], r[i], r[j]);
      } else {
        assert (l + [x])[..|l|] == l;
      }
    }
    if x in r {
      assert Elems(l) + {x} == Elems(l);
    }
  }

  lemma SeenAt<T>(l: seq<T>, n: nat, x: T)
    requires n < |l| && Distinct(l) && x in l[..n]
    ensures SeenBefore(l, x, l[n])
  {
  }

  /** `r` has some elements of `l`, in the order of `l`. */
  ghost predicate InOrderOf<T>(r: seq<T>, l: seq<T>) {
    forall i, j :: 0 <= i < j < |r| ==> SeenBefore(l, r[i], r[j])
  }

  lemma OneMoreInOrder<T>(r: seq<T>, l: seq<T>, x: T, take: bool)
    requires InOrderOf(r, l) && Elems(r) <= Elems(l) && x !in l
    ensures InOrderOf(if take then r + [x] else r, l + [x]) && Elems(if take then r + [x] else r) <= Elems(l + [x])
  {
    ElemsAppend(l, x);
    ElemsAppend(r, x);
    assert (forall y :: y in r <==> y in Elems(r)) && forall y :: y in l <==> y in Elems(l);
    var r' := if take then r + [x] else r;
    forall i, j | 0 <= i < j < |r'|
      ensures SeenBefore(l + [x], r'[i], r'[j])
    {
      if j < |r| {
        SeenStays(l, [x], r[i], r[j]);
      } else {
        assert (l + [x])[..|l|] == l;
      }
    }
  }

  /** What an order of first sight says of two elements of a prefix shows in the prefix. */
  lemma SeenInPrefix<T>(p: seq<T>, l: seq<T>, x: T, y: T)
    requires p <= l && y in p && SeenBefore(l, x, y)
    ensures SeenBefore(p, x, y)
  {
    var k :| 0 <= k <= |l| && x in l[..k] && y !in l[..k];
    assert l[..|p|] == p;
    PrefixesNest(l, |p|, k);
    if k <= |p| {
      assert p[..k] == l[..k];
    }
  }

  lemma PrefixesNest<T>(l: seq<T>, n: nat, k: nat)
    requires n <= |l| && k <= |l|
    ensures n <= k ==> forall x :: x in l[..n] ==> x in l[..k]
  {
    if n <= k {
      assert l[..n] == l[..k][..n];
    }
  }

  lemma SeenOneWay<T>(l: seq<T>, x: T, y: T)
    requires SeenBefore(l, x, y)
    ensures !SeenBefore(l, y, x)
  {
    var k :| 0 <= k <= |l| && x in l[..k] && y !in l[..k];
    forall n | 0 <= n <= |l| && y in l[..n]
      ensures x in l[..n]
    {
      PrefixesNest(l, n, k);
      PrefixesNest(l, k, n);
    }
  }

  lemma EmptyOrNot<T>(s: seq<T>)
    ensures |s| == 0 || s[0] in s
  {
  }

  /** There is only one list of some elements in that order. */
  lemma {:induction false} OneOrder<T>(r: seq<T>, r': seq<T>, l: seq<T>)
    requires InOrderOf(r, l) && InOrderOf(r', l) && forall x :: x in r <==> x in r'
    ensures r == r'
  {
    hide SeenBefore;
    if r == [] {
      EmptyOrNot(r');
    } else {
      var front, x := r[..|r| - 1], r[|r| - 1];
      assert x in r' && r == front + [x];
      var front', y := r'[..|r'| - 1], r'[|r'| - 1];
      assert r' == front' + [y] && y in r;
      SameLast(r, r', l);
      NotTwice(r, l);
      NotTwice(r', l);
      assert forall z :: z in front <==> z in r && z != x;
      assert forall z :: z in front' <==> z in r' && z != x;
      OneOrder(front, front', l);
    }
  }

  lemma NotTwice<T>(r: seq<T>, l: seq<T>)
    requires InOrderOf(r, l)
    ensures Distinct(r)
  {
    hide SeenBefore;
    forall i, j | 0 <= i < j < |r|
      ensures r[i] != r[j]
    {
      SeenOneWay(l, r[i], r[j]);
    }
  }

  lemma SameLast<T>(r: seq<T>, r': seq<T>, l: seq<T>)
    requires InOrderOf(r, l) && InOrderOf(r', l) && |r| > 0 && |r'| > 0 && forall x :: x in r <==> x in r'
    ensures r[|r| - 1] == r'[|r'| - 1]
  {
    hide SeenBefore;
    var x, y := r[|r| - 1], r'[|r'| - 1];
    assert x in r && y in r';
    var i :| 0 <= i < |r| && r[i] == y;
    var j :| 0 <= j < |r'| && r'[j] == x;
    if i < |r| - 1 && j < |r'| - 1 {
      SeenOneWay(l, y, x);
    }
  }

  predicate Ascending(s: seq<nat>) {
    forall i, j :: 0 <= i < j < |s| ==> s[i] < s[j]
  }

  // ---- sizes of sets

  /** As many pairs as numbers below `n`. */
  lemma {:induction false} ColumnSize(i: nat, n: nat)
    ensures |set l: nat | l < n :: (i, l)| == n
    decreases n
  {
    var C := set l: nat | l < n :: (i, l);
    if n > 0 {
      var last: nat := n - 1;
      ColumnSize(i, last);
      assert C == (set l: nat | l < last :: (i, l)) + {(i, last)};
    }
  }

  ghost function Tagged<T, U>(t: T, A: set<U>): set<(T, U)> {
    set x | x in A :: (t, x)
  }

  /** As many pairs as members of the set. */
  lemma {:induction false} TaggedSize<T, U>(t: T, A: set<U>)
    ensures |Tagged(t, A)| == |A|
    decreases A
  {
    if A != {} {
      var x :| x in A;
      TaggedSize(t, A - {x});
      assert Tagged(t, A) == Tagged(t, A - {x}) + {(t, x)};
    } else {
      assert Tagged<T, U>(t, A) == {};
    }
  }

  lemma DisjointSize<T>(A: set<T>, B: set<T>)
    requires A !! B
    ensures |A + B| == |A| + |B|
  {
  }

  lemma {:induction false} SubsetSize<T>(A: set<T>, B: set<T>)
    requires A <= B
    ensures |A| <= |B|
  {
    if A != {} {
      var x :| x in A;
      SubsetSize(A - {x}, B - {x});
    }
  }

  /** A set with all numbers below `n` has at least `n` elements. */
  lemma {:induction false} AllBelow(A: set<nat>, n: nat)
    requires forall j: nat :: j < n ==> j in A
    ensures |A| >= n
  {
    if n > 0 {
      var last: nat := n - 1;
      AllBelow(A - {last}, last);
    }
  }

  lemma SubsetOfSameSize<T>(A: set<T>, B: set<T>)
    requires A <= B && |A| == |B|
    ensures A == B
  {
    assert |B - A| == |B| - |A|;
  }

  /** `n` distinct numbers below `n` are all the numbers below `n`. */
  lemma DistinctIsAll(s: seq<nat>, n: nat, x: nat)
    requires Distinct(s) && Below(s, n) && |s| == n && x < n
    ensures x in s
  {
    if x !in s {
      DistinctAppend(s, x);
      DistinctBelow(s + [x], n);
    }
  }
}
