/** The goal agenda of orderings.c: closure, degrees, sort and split into entries. */
module Agenda {
  import opened Sequences

  // ---- what the closure means

  /** A walk from `i` to `k` along the orderings of `m`. */
  ghost predicate IsWalk(m: seq<seq<bool>>, n: nat, w: seq<nat>, i: nat, k: nat) {
    && |m| == n && (forall a :: 0 <= a < n ==> |m[a]| == n)
    && |w| >= 1 && Below(w, n) && w[0] == i && w[|w| - 1] == k
    && forall a :: 0 <= a < |w| - 1 ==> m[w[a]][w[a + 1]]
  }

  ghost predicate Reaches(m: seq<seq<bool>>, n: nat, i: nat, k: nat) {
    exists w :: IsWalk(m, n, w, i, k)
  }

  ghost predicate Square(m: seq<seq<bool>>, n: nat) {
    |m| == n && forall a :: 0 <= a < n ==> |m[a]| == n
  }

  lemma StepReaches(m: seq<seq<bool>>, n: nat, i: nat, k: nat)
    requires Square(m, n) && i < n && k < n && m[i][k]
    ensures Reaches(m, n, i, k)
  {
    var w: seq<nat> := [i, k];
    assert IsWalk(m, n, w, i, k);
  }

  lemma ReachesTransitive(m: seq<seq<bool>>, n: nat, i: nat, j: nat, k: nat)
    requires Reaches(m, n, i, j) && Reaches(m, n, j, k)
    ensures Reaches(m, n, i, k)
  {
    var v :| IsWalk(m, n, v, i, j);
    var w :| IsWalk(m, n, w, j, k);
    var u := v + w[1..];
    forall a | 0 <= a < |u| - 1
      ensures m[u[a]][u[a + 1]]
    {
      if a == |v| - 1 {
        assert u[a] == w[0] && u[a + 1] == w[1];
      } else if a >= |v| {
        assert u[a] == w[a - |v| + 1] && u[a + 1] == w[a - |v| + 2];
      }
    }
    assert IsWalk(m, n, u, i, k);
  }

  /** A transitive and reflexive relation that contains `m` contains everything `m` reaches. */
  lemma {:induction false} ReachesWithin(m: seq<seq<bool>>, c: seq<seq<bool>>, n: nat, w: seq<nat>, i: nat, k: nat)
    requires Square(c, n) && IsWalk(m, n, w, i, k)
    requires forall a, b :: 0 <= a < n && 0 <= b < n && m[a][b] ==> c[a][b]
    requires forall a :: 0 <= a < n ==> c[a][a]
    requires forall a, b, d :: 0 <= a < n && 0 <= b < n && 0 <= d < n && c[a][b] && c[b][d] ==> c[a][d]
    ensures i < n && k < n && c[i][k]
    decreases |w|
  {
    if |w| > 1 {
      var v := w[..|w| - 1];
      ReachesWithin(m, c, n, v, i, v[|v| - 1]);
      assert m[w[|w| - 2]][w[|w| - 1]];
    }
  }

  // ---- the closure in place

  ghost function Rows(lm: array2<bool>): (m: seq<seq<bool>>)
    reads lm
    ensures |m| == lm.Length0 && forall a :: 0 <= a < |m| ==> |m[a]| == lm.Length1
    ensures forall a, b :: 0 <= a < lm.Length0 && 0 <= b < lm.Length1 ==> m[a][b] == lm[a, b]
  {
    seq(lm.Length0, a requires 0 <= a < lm.Length0 reads lm =>
      seq(lm.Length1, b requires 0 <= a < lm.Length0 && 0 <= b < lm.Length1 reads lm => lm[a, b]))
  }

  /** The relation may pass through the numbers below `j`. */
  ghost predicate PassesBelow(m: seq<seq<bool>>, n: nat, j: nat) {
    && Square(m, n)
    && forall a, v, b :: 0 <= a < n && 0 <= v < j && v < n && 0 <= b < n && m[a][v] && m[v][b] ==> m[a][b]
  }

  /** `m` lies between the orderings and what they reach. */
  ghost predicate Between(o: seq<seq<bool>>, m: seq<seq<bool>>, n: nat) {
    && Square(o, n) && Square(m, n)
    && forall a, b :: 0 <= a < n && 0 <= b < n ==> (o[a][b] ==> m[a][b]) && (m[a][b] ==> Reaches(o, n, a, b))
  }

  /** One round of the closure: `m'` adds what `m` reaches through `j`. */
  ghost predicate Round(m: seq<seq<bool>>, m': seq<seq<bool>>, n: nat, j: nat) {
    && Square(m, n) && Square(m', n) && j < n
    && forall a, b {:trigger m'[a][b]} :: 0 <= a < n && 0 <= b < n ==> m'[a][b] == (m[a][b] || (m[a][j] && m[j][b]))
  }

  lemma RoundOk(o: seq<seq<bool>>, m: seq<seq<bool>>, m': seq<seq<bool>>, n: nat, j: nat)
    requires Round(m, m', n, j) && PassesBelow(m, n, j) && Between(o, m, n)
    ensures PassesBelow(m', n, j + 1) && Between(o, m', n)
  {
    forall a, b | 0 <= a < n && 0 <= b < n
      ensures (o[a][b] ==> m'[a][b]) && (m'[a][b] ==> Reaches(o, n, a, b))
    {
      RoundAt(m, m', n, j, a, b);
      if m'[a][b] && !m[a][b] {
        ReachesTransitive(o, n, a, j, b);
      }
    }
    forall a, v, b | 0 <= a < n && 0 <= v < j + 1 && v < n && 0 <= b < n && m'[a][v] && m'[v][b]
      ensures m'[a][b]
    {
      RoundAt(m, m', n, j, a, v);
      RoundAt(m, m', n, j, v, b);
      RoundAt(m, m', n, j, a, b);
    }
  }

  lemma RoundAt(m: seq<seq<bool>>, m': seq<seq<bool>>, n: nat, j: nat, a: nat, b: nat)
    requires Round(m, m', n, j) && a < n && b < n
    ensures m'[a][b] == (m[a][b] || (m[a][j] && m[j][b]))
  {
  }

  /** The closure contains exactly what the orderings reach. */
  lemma ClosureIsExact(o: seq<seq<bool>>, m: seq<seq<bool>>, n: nat, i: nat, k: nat)
    requires Between(o, m, n) && PassesBelow(m, n, n) && i < n && k < n
    requires forall a :: 0 <= a < n ==> o[a][a]
    ensures m[i][k] <==> Reaches(o, n, i, k)
  {
    if Reaches(o, n, i, k) {
      var w :| IsWalk(o, n, w, i, k);
      ReachesWithin(o, m, n, w, i, k);
    }
  }

  /** The first loop nest of build_goal_agenda. */
  method CloseOrderings(lm: array2<bool>)
    requires lm.Length0 == lm.Length1 && forall a :: 0 <= a < lm.Length0 ==> lm[a, a]
    modifies lm
    ensures forall i, k :: 0 <= i < lm.Length0 && 0 <= k < lm.Length0 ==>
      (lm[i, k] <==> Reaches(old(Rows(lm)), lm.Length0, i, k))
  {
    var n := lm.Length0;
    ghost var o := Rows(lm);
    InitialBetween(o, n);
    for j := 0 to n
      invariant Between(o, Rows(lm), n) && PassesBelow(Rows(lm), n, j)
    {
      ghost var m := Rows(lm);
      for i := 0 to n
        invariant forall a, b :: 0 <= a < i && 0 <= b < n ==> lm[a, b] == (m[a][b] || (m[a][j] && m[j][b]))
        invariant forall a, b :: i <= a < n && 0 <= b < n ==> lm[a, b] == m[a][b]
      {
        if lm[i, j] {
          for k := 0 to n
            invariant forall a, b :: 0 <= a < n && 0 <= b < n && a != i ==>
              lm[a, b] == if a < i then m[a][b] || (m[a][j] && m[j][b]) else m[a][b]
            invariant forall b :: 0 <= b < n ==> lm[i, b] == if b < k then m[i][b] || m[j][b] else m[i][b]
          {
            if lm[j, k] {
              lm[i, k] := true;
            }
          }
        }
      }
      assert Round(m, Rows(lm), n, j);
      RoundOk(o, m, Rows(lm), n, j);
    }
    forall i, k | 0 <= i < n && 0 <= k < n
      ensures lm[i, k] <==> Reaches(o, n, i, k)
    {
      ClosureIsExact(o, Rows(lm), n, i, k);
    }
  }

  lemma InitialBetween(o: seq<seq<bool>>, n: nat)
    requires Square(o, n)
    ensures Between(o, o, n)
  {
    forall a, b | 0 <= a < n && 0 <= b < n && o[a][b]
      ensures Reaches(o, n, a, b)
    {
      StepReaches(o, n, a, b);
    }
  }

  // ---- degrees

  /** The goals below `bound` that `x` is ordered before. */
  ghost function Later(c: seq<seq<bool>>, n: nat, x: nat, bound: nat): set<nat>
    requires Square(c, n) && x < n
  {
    set b: nat | b < bound && b < n && b != x && c[x][b]
  }

  /** The goals below `bound` that are ordered before `x`. */
  ghost function Earlier(c: seq<seq<bool>>, n: nat, x: nat, bound: nat): set<nat>
    requires Square(c, n) && x < n
  {
    set a: nat | a < bound && a < n && a != x && c[a][x]
  }

  ghost function Degree(c: seq<seq<bool>>, n: nat, x: nat): int
    requires Square(c, n) && x < n
  {
    |Earlier(c, n, x, n)| - |Later(c, n, x, n)|
  }

  ghost function Hits(c: seq<seq<bool>>, n: nat, x: nat): nat
    requires Square(c, n) && x < n
  {
    |Earlier(c, n, x, n)| + |Later(c, n, x, n)|
  }

  ghost predicate Preorder(c: seq<seq<bool>>, n: nat) {
    PassesBelow(c, n, n) && forall a :: 0 <= a < n ==> c[a][a]
  }

  lemma LaterStep(c: seq<seq<bool>>, n: nat, x: nat, b: nat)
    requires Square(c, n) && x < n && b < n
    ensures |Later(c, n, x, b + 1)| == |Later(c, n, x, b)| + if b != x && c[x][b] then 1 else 0
  {
    var s, t := Later(c, n, x, b), Later(c, n, x, b + 1);
    if b != x && c[x][b] {
      assert t == s + {b};
    } else {
      assert t == s;
    }
  }

  lemma EarlierStep(c: seq<seq<bool>>, n: nat, x: nat, b: nat)
    requires Square(c, n) && x < n && b < n
    ensures |Earlier(c, n, x, b + 1)| == |Earlier(c, n, x, b)| + if b != x && c[b][x] then 1 else 0
  {
    var s, t := Earlier(c, n, x, b), Earlier(c, n, x, b + 1);
    if b != x && c[b][x] {
      assert t == s + {b};
    } else {
      assert t == s;
    }
  }

  lemma BoundZero(c: seq<seq<bool>>, n: nat, x: nat)
    requires Square(c, n) && x < n
    ensures Later(c, n, x, 0) == {} && Earlier(c, n, x, 0) == {}
  {
  }

  /** A goal strictly before another has the smaller degree. */
  lemma StrictDegree(c: seq<seq<bool>>, n: nat, i: nat, k: nat)
    requires Preorder(c, n) && i < n && k < n && c[i][k] && !c[k][i]
    ensures Degree(c, n, i) < Degree(c, n, k) && Hits(c, n, i) > 0 && Hits(c, n, k) > 0
  {
    assert i in Earlier(c, n, k, n) && k in Later(c, n, i, n);
    SmallerSet(Earlier(c, n, i, n), Earlier(c, n, k, n), i);
    SmallerSet(Later(c, n, k, n), Later(c, n, i, n), k);
  }

  lemma SmallerSet<T>(A: set<T>, B: set<T>, x: T)
    requires A <= B && x in B && x !in A
    ensures |A| < |B|
  {
    SubsetSize(A, B - {x});
  }

  /** Goals ordered before each other have the same degree. */
  lemma MutualDegree(c: seq<seq<bool>>, n: nat, i: nat, k: nat)
    requires Preorder(c, n) && i < n && k < n && i != k && c[i][k] && c[k][i]
    ensures Degree(c, n, i) == Degree(c, n, k) && Hits(c, n, i) > 0 && Hits(c, n, k) > 0
  {
    assert i in Earlier(c, n, k, n) && k in Earlier(c, n, i, n);
    assert i in Later(c, n, k, n) && k in Later(c, n, i, n);
    assert Earlier(c, n, i, n) - {k} == Earlier(c, n, k, n) - {i};
    assert Later(c, n, i, n) - {k} == Later(c, n, k, n) - {i};
    assert |Earlier(c, n, i, n) - {k}| == |Earlier(c, n, i, n)| - 1;
    assert |Later(c, n, i, n) - {k}| == |Later(c, n, i, n)| - 1;
  }

  /** The counters after the edges out of the goals below `i` and the first `j` edges out of `i`. */
  ghost predicate Counted(c: seq<seq<bool>>, n: nat, degree: seq<int>, hits: seq<nat>, i: nat, j: nat) {
    && Square(c, n) && |degree| == |hits| == n
    && forall x :: 0 <= x < n ==>
      var before := |Earlier(c, n, x, if x < j then i + 1 else i)|;
      var after := |Later(c, n, x, if x < i then n else if x == i then j else 0)|;
      degree[x] == before - after && hits[x] == before + after
  }

  /** One entry of the matrix. */
  lemma CountEdge(c: seq<seq<bool>>, n: nat, degree: seq<int>, hits: seq<nat>, degree': seq<int>, hits': seq<nat>,
                  i: nat, j: nat)
    requires Counted(c, n, degree, hits, i, j) && i < n && j < n
    requires if i != j && c[i][j] then
               && degree' == degree[i := degree[i] - 1][j := degree[j] + 1]
               && hits' == hits[i := hits[i] + 1][j := hits[j] + 1]
             else degree' == degree && hits' == hits
    ensures Counted(c, n, degree', hits', i, j + 1)
  {
    hide Later, Earlier;
    LaterStep(c, n, i, j);
    EarlierStep(c, n, j, i);
  }

  lemma CountStart(c: seq<seq<bool>>, n: nat, degree: seq<int>, hits: seq<nat>)
    requires Square(c, n) && |degree| == |hits| == n
    requires forall x :: 0 <= x < n ==> degree[x] == 0 && hits[x] == 0
    ensures Counted(c, n, degree, hits, 0, 0)
  {
    forall x: nat | x < n
      ensures Later(c, n, x, 0) == {} && Earlier(c, n, x, 0) == {}
    {
      BoundZero(c, n, x);
    }
  }

  method CountOne(degree: array<int>, hits: array<nat>, i: nat, j: nat)
    requires degree.Length == hits.Length && i < degree.Length && j < degree.Length && i != j
    modifies degree, hits
    ensures degree[..] == old(degree[..])[i := old(degree[i]) - 1][j := old(degree[j]) + 1]
    ensures hits[..] == old(hits[..])[i := old(hits[i]) + 1][j := old(hits[j]) + 1]
  {
    degree[i] := degree[i] - 1;
    degree[j] := degree[j] + 1;
    hits[i] := hits[i] + 1;
    hits[j] := hits[j] + 1;
  }

  /** The edges out of goal `i`. */
  method CountRow(lm: array2<bool>, degree: array<int>, hits: array<nat>, i: nat)
    requires lm.Length0 == lm.Length1 == degree.Length == hits.Length && i < lm.Length0
    requires Counted(Rows(lm), lm.Length0, degree[..], hits[..], i, 0)
    modifies degree, hits
    ensures Counted(Rows(lm), lm.Length0, degree[..], hits[..], i + 1, 0)
  {
    hide Counted, Later, Earlier;
    var n := lm.Length0;
    ghost var c := Rows(lm);
    for j := 0 to n
      invariant Counted(c, n, degree[..], hits[..], i, j)
    {
      ghost var degree0, hits0 := degree[..], hits[..];
      if i != j && lm[i, j] {
        CountOne(degree, hits, i, j);
      }
      CountEdge(c, n, degree0, hits0, degree[..], hits[..], i, j);
    }
    NextRow(c, n, degree[..], hits[..], i);
  }

  lemma NextRow(c: seq<seq<bool>>, n: nat, degree: seq<int>, hits: seq<nat>, i: nat)
    requires i < n && Counted(c, n, degree, hits, i, n)
    ensures Counted(c, n, degree, hits, i + 1, 0)
  {
    hide Earlier, Later;
    forall x: nat | x < n
      ensures Later(c, n, x, 0) == {}
    {
      BoundZero(c, n, x);
    }
  }

  lemma CountEnd(c: seq<seq<bool>>, n: nat, degree: seq<int>, hits: seq<nat>)
    requires Counted(c, n, degree, hits, n, 0)
    ensures AreDegrees(c, n, degree, hits)
  {
    hide Earlier, Later;
  }

  ghost predicate AreDegrees(c: seq<seq<bool>>, n: nat, degree: seq<int>, hits: seq<nat>) {
    && Square(c, n) && |degree| == |hits| == n
    && forall x :: 0 <= x < n ==> degree[x] == Degree(c, n, x) && hits[x] == Hits(c, n, x)
  }

  /** The loop nest that counts in- and outgoing edges. */
  method CountDegrees(lm: array2<bool>) returns (degree: array<int>, hits: array<nat>)
    requires lm.Length0 == lm.Length1
    ensures fresh(degree) && fresh(hits) && degree.Length == hits.Length == lm.Length0
    ensures AreDegrees(Rows(lm), lm.Length0, degree[..], hits[..])
  {
    hide Counted, AreDegrees;
    var n := lm.Length0;
    ghost var c := Rows(lm);
    degree := new int[n](_ => 0);
    hits := new nat[n](_ => 0);
    CountStart(c, n, degree[..], hits[..]);
    for i := 0 to n
      invariant Counted(c, n, degree[..], hits[..], i, 0)
    {
      CountRow(lm, degree, hits, i);
    }
    CountEnd(c, n, degree[..], hits[..]);
  }

  // ---- the sort

  /** Connected goals by degree, unconnected goals behind all of them. */
  predicate NotBehind(degree: seq<int>, hits: seq<nat>, a: nat, b: nat)
    requires |degree| == |hits| && a < |degree| && b < |degree|
  {
    if hits[a] == 0 then hits[b] == 0 else hits[b] == 0 || degree[a] <= degree[b]
  }

  /** The order of the slots; goals of the same rank keep their order. */
  predicate InOrder(degree: seq<int>, hits: seq<nat>, a: nat, b: nat)
    requires |degree| == |hits| && a < |degree| && b < |degree|
  {
    NotBehind(degree, hits, a, b) && (NotBehind(degree, hits, b, a) ==> a < b)
  }

  ghost predicate Sorted(degree: seq<int>, hits: seq<nat>, s: seq<nat>) {
    && |degree| == |hits| && Below(s, |degree|)
    && forall x, y :: 0 <= x < y < |s| ==> InOrder(degree, hits, s[x], s[y])
  }

  /** Inserting goal `i` in front of the first goal it may not stand behind. */
  lemma InsertInOrder(degree: seq<int>, hits: seq<nat>, s: seq<nat>, i: nat, j: nat)
    requires Sorted(degree, hits, s) && |s| == i < |degree| && j <= i && Below(s, i)
    requires hits[i] != 0 && forall x :: 0 <= x < j ==> degree[i] >= degree[s[x]] && hits[s[x]] != 0
    requires j < i ==> degree[i] < degree[s[j]] || hits[s[j]] == 0
    ensures Sorted(degree, hits, s[..j] + [i] + s[j..])
  {
    var t := s[..j] + [i] + s[j..];
    forall x, y | 0 <= x < y < |t|
      ensures InOrder(degree, hits, t[x], t[y])
    {
      var x', y' := if x < j then x else x - 1, if y < j then y else y - 1;
      assert (x != j ==> t[x] == s[x']) && (y != j ==> t[y] == s[y']);
      if x != j && y != j {
        assert InOrder(degree, hits, s[x'], s[y']);
      } else if x == j && y' > j {
        assert InOrder(degree, hits, s[j], s[y']);
      }
    }
  }

  /** The place of goal `i` among the goals sorted so far. */
  method FindSlot(degree: array<int>, hits: array<nat>, slot: array<nat>, i: nat) returns (j: nat)
    requires degree.Length == hits.Length == slot.Length && i < slot.Length && Below(slot[..i], i)
    ensures j <= i && forall x :: 0 <= x < j ==> degree[i] >= degree[slot[x]] && hits[slot[x]] != 0
    ensures j < i ==> degree[i] < degree[slot[j]] || hits[slot[j]] == 0
  {
    j := 0;
    while j < i && !(degree[i] < degree[slot[j]] || hits[slot[j]] == 0)
      invariant j <= i && forall x :: 0 <= x < j ==> degree[i] >= degree[slot[x]] && hits[slot[x]] != 0
    {
      j := j + 1;
    }
  }

  /** Shift the slots from `j` on by one and put goal `i` in front of them. */
  method InsertSlot(slot: array<nat>, i: nat, j: nat)
    requires j <= i < slot.Length
    modifies slot
    ensures slot[..i + 1] == old(slot[..j]) + [i] + old(slot[j..i])
  {
    ghost var s := slot[..i];
    for k := i downto j
      invariant forall x :: 0 <= x < k ==> slot[x] == s[x]
      invariant forall x :: k < x <= i ==> slot[x] == s[x - 1]
    {
      slot[k + 1] := slot[k];
    }
    slot[j] := i;
    forall x | 0 <= x <= i
      ensures slot[x] == (s[..j] + [i] + s[j..])[x]
    {
    }
    assert slot[..i + 1] == s[..j] + [i] + s[j..];
  }

  ghost predicate SortedBelow(degree: seq<int>, hits: seq<nat>, s: seq<nat>) {
    Sorted(degree, hits, s) && Distinct(s) && Below(s, |s|)
  }

  /** The insertion sort of build_goal_agenda. */
  method SortSlots(degree: array<int>, hits: array<nat>) returns (slot: array<nat>)
    requires degree.Length == hits.Length
    ensures fresh(slot) && slot.Length == degree.Length
    ensures SortedBelow(degree[..], hits[..], slot[..])
  {
    hide Sorted, Distinct;
    var n := degree.Length;
    slot := new nat[n](_ => 0);
    SortStart(degree[..], hits[..], slot[..0]);
    for i := 0 to n
      invariant SortedBelow(degree[..], hits[..], slot[..i])
      modifies slot
    {
      ghost var s := slot[..i];
      if hits[i] == 0 {
        slot[i] := i;
        assert slot[..i + 1] == s + [i];
        AppendSorted(degree[..], hits[..], s);
      } else {
        var j := FindSlot(degree, hits, slot, i);
        assert slot[..j] == s[..j] && slot[j..i] == s[j..];
        InsertSlot(slot, i, j);
        InsertSorted(degree[..], hits[..], s, j);
      }
    }
    assert slot[..n] == slot[..];
  }

  lemma SortStart(degree: seq<int>, hits: seq<nat>, s: seq<nat>)
    requires |degree| == |hits| && s == []
    ensures SortedBelow(degree, hits, s)
  {
  }

  lemma AppendSorted(degree: seq<int>, hits: seq<nat>, s: seq<nat>)
    requires SortedBelow(degree, hits, s) && |s| < |degree| && hits[|s|] == 0
    ensures SortedBelow(degree, hits, s + [|s|])
  {
  }

  lemma InsertSorted(degree: seq<int>, hits: seq<nat>, s: seq<nat>, j: nat)
    requires SortedBelow(degree, hits, s) && j <= |s| < |degree| && hits[|s|] != 0
    requires forall x :: 0 <= x < j ==> degree[|s|] >= degree[s[x]] && hits[s[x]] != 0
    requires j < |s| ==> degree[|s|] < degree[s[j]] || hits[s[j]] == 0
    ensures SortedBelow(degree, hits, s[..j] + [|s|] + s[j..])
  {
    hide Sorted, Distinct;
    var i: nat := |s|;
    InsertAt(s, j, i);
    InsertInOrder(degree, hits, s, i, j);
  }

  // ---- the sweep

  /** A new entry starts at slot `p`. */
  predicate Boundary(degree: seq<int>, hits: seq<nat>, s: seq<nat>, p: nat)
    requires |degree| == |hits| && Below(s, |degree|) && 0 < p < |s|
  {
    degree[s[p]] != degree[s[p - 1]] || (hits[s[p]] == 0 && hits[s[p - 1]] != 0)
  }

  /** The number of the entry that slot `p` falls into. */
  ghost function EntryOf(degree: seq<int>, hits: seq<nat>, s: seq<nat>, p: nat): nat
    requires |degree| == |hits| && Below(s, |degree|) && p < |s|
  {
    if p == 0 then 0 else EntryOf(degree, hits, s, p - 1) + if Boundary(degree, hits, s, p) then 1 else 0
  }

  /** Entries follow the order of the slots: the entry of a later slot is the same exactly if the
      two goals rank the same. */
  lemma {:induction false} EntriesFollowSlots(degree: seq<int>, hits: seq<nat>, s: seq<nat>, p: nat, q: nat)
    requires Sorted(degree, hits, s) && p <= q < |s|
    requires forall x :: 0 <= x < |hits| && hits[x] == 0 ==> degree[x] == 0
    ensures EntryOf(degree, hits, s, p) <= EntryOf(degree, hits, s, q)
    ensures EntryOf(degree, hits, s, p) == EntryOf(degree, hits, s, q) <==> NotBehind(degree, hits, s[q], s[p])
    decreases q
  {
    if p < q {
      EntriesFollowSlots(degree, hits, s, p, q - 1);
      assert InOrder(degree, hits, s[q - 1], s[q]) && InOrder(degree, hits, s[p], s[q]);
      assert p < q - 1 ==> InOrder(degree, hits, s[p], s[q - 1]);
    }
  }

  /** The goals at the given slots. */
  ghost function GoalsAt(goals: seq<nat>, s: seq<nat>): (t: seq<nat>)
    requires Below(s, |goals|)
    ensures |t| == |s| && forall x :: 0 <= x < |s| ==> t[x] == goals[s[x]]
  {
    seq(|s|, x requires 0 <= x < |s| => goals[s[x]])
  }

  method CollectEntry(goals: seq<nat>, slot: array<nat>, start: nat, end: nat) returns (entry: seq<nat>)
    requires start <= end <= slot.Length && Below(slot[..], |goals|)
    ensures entry == GoalsAt(goals, slot[start..end])
  {
    entry := [];
    for j := start to end
      invariant entry == GoalsAt(goals, slot[start..j])
    {
      entry := entry + [goals[slot[j]]];
    }
  }

  /** The entries built so far take the slots below `from[|agenda|]`, each entry the slots of its number. */
  ghost predicate Swept(degree: seq<int>, hits: seq<nat>, s: seq<nat>, goals: seq<nat>,
                        agenda: seq<seq<nat>>, from: seq<nat>) {
    && |degree| == |hits| == |goals| && Below(s, |goals|)
    && |from| == |agenda| + 1 && from[0] == 0 && Below(from, |s| + 1)
    && forall e {:trigger agenda[e]} :: 0 <= e < |agenda| ==>
      && from[e] < from[e + 1] && agenda[e] == GoalsAt(goals, s[from[e]..from[e + 1]])
      && forall p :: from[e] <= p < from[e + 1] ==> EntryOf(degree, hits, s, p) == e
  }

  lemma SweptStep(degree: seq<int>, hits: seq<nat>, s: seq<nat>, goals: seq<nat>,
                  agenda: seq<seq<nat>>, from: seq<nat>, end: nat)
    requires Swept(degree, hits, s, goals, agenda, from) && from[|agenda|] < end <= |s|
    requires forall p :: from[|agenda|] <= p < end ==> EntryOf(degree, hits, s, p) == |agenda|
    ensures Swept(degree, hits, s, goals, agenda + [GoalsAt(goals, s[from[|agenda|]..end])], from + [end])
  {
    hide EntryOf, GoalsAt;
    var agenda' := agenda + [GoalsAt(goals, s[from[|agenda|]..end])];
    var from' := from + [end];
    forall e | 0 <= e < |agenda'|
      ensures from'[e] < from'[e + 1] && agenda'[e] == GoalsAt(goals, s[from'[e]..from'[e + 1]])
      ensures forall p :: from'[e] <= p < from'[e + 1] ==> EntryOf(degree, hits, s, p) == e
    {
      assert e < |agenda| ==> agenda'[e] == agenda[e];
    }
  }

  /** The sweep over the slots that collects the entries. */
  method Sweep(degree: array<int>, hits: array<nat>, slot: array<nat>, goals: seq<nat>)
    returns (agenda: seq<seq<nat>>, ghost from: seq<nat>)
    requires degree.Length == hits.Length == slot.Length == |goals| > 0 && Below(slot[..], |goals|)
    ensures Swept(degree[..], hits[..], slot[..], goals, agenda, from) && agenda != []
    ensures from[|agenda|] == |goals|
  {
    hide Swept;
    var n := slot.Length;
    agenda, from := [], [0];
    var start: nat := 0;
    SweptStart(degree[..], hits[..], slot[..], goals);
    for i := 1 to n
      invariant Swept(degree[..], hits[..], slot[..], goals, agenda, from)
      invariant |from| == |agenda| + 1 && start == from[|agenda|] < i
      invariant forall p :: start <= p < i ==> EntryOf(degree[..], hits[..], slot[..], p) == |agenda|
    {
      if degree[slot[i]] != degree[slot[i - 1]] || (hits[slot[i]] == 0 && hits[slot[i - 1]] != 0) {
        var entry := CollectEntry(goals, slot, start, i);
        SweptStep(degree[..], hits[..], slot[..], goals, agenda, from, i);
        assert slot[start..i] == slot[..][start..i];
        agenda, from := agenda + [entry], from + [i];
        start := i;
      }
      assert i < n ==> Boundary(degree[..], hits[..], slot[..], i) == (start == i);
    }
    var entry := CollectEntry(goals, slot, start, n);
    SweptStep(degree[..], hits[..], slot[..], goals, agenda, from, n);
    assert slot[start..n] == slot[..][start..n];
    agenda, from := agenda + [entry], from + [n];
  }

  lemma SweptStart(degree: seq<int>, hits: seq<nat>, s: seq<nat>, goals: seq<nat>)
    requires |degree| == |hits| == |goals| && Below(s, |goals|)
    ensures Swept(degree, hits, s, goals, [], [0])
  {
  }

  // ---- the agenda

  /** The goals of the agenda entries up to the `n`-th, in the order in which they are collected. */
  function GoalsUpTo(agenda: seq<seq<nat>>, n: nat): seq<nat>
    requires n <= |agenda|
  {
    if n == 0 then [] else GoalsUpTo(agenda, n - 1) + agenda[n - 1]
  }

  ghost predicate InEntry(goals: seq<nat>, agenda: seq<seq<nat>>, i: nat, e: nat) {
    i < |goals| && e < |agenda| && goals[i] in agenda[e]
  }

  /** Goal `i` is ordered with some other goal. */
  ghost predicate Connected(o: seq<seq<bool>>, n: nat, i: nat) {
    exists k :: 0 <= k < n && k != i && (Reaches(o, n, i, k) || Reaches(o, n, k, i))
  }

  /** What the entries `e` of goal `i` and `d` of goal `k` have to do with the orderings `o`. */
  ghost predicate Respects(o: seq<seq<bool>>, n: nat, last: nat, i: nat, e: nat, k: nat, d: nat) {
    && (Reaches(o, n, i, k) && !Reaches(o, n, k, i) ==> e < d)
    && (Reaches(o, n, i, k) && Reaches(o, n, k, i) ==> e == d)
    && (Connected(o, n, i) && !Connected(o, n, k) ==> e < d)
    && (!Connected(o, n, k) ==> d == last)
  }

  /** The agenda splits the goals into entries that respect the orderings. */
  ghost predicate IsAgenda(o: seq<seq<bool>>, goals: seq<nat>, agenda: seq<seq<nat>>) {
    && agenda != [] && (forall e :: 0 <= e < |agenda| ==> agenda[e] != [])
    && Distinct(GoalsUpTo(agenda, |agenda|)) && Elems(GoalsUpTo(agenda, |agenda|)) == Elems(goals)
    && forall i, e, k, d :: InEntry(goals, agenda, i, e) && InEntry(goals, agenda, k, d) ==>
      Respects(o, |goals|, |agenda| - 1, i, e, k, d)
  }

  lemma EntryAt(degree: seq<int>, hits: seq<nat>, s: seq<nat>, goals: seq<nat>,
                agenda: seq<seq<nat>>, from: seq<nat>, e: nat)
    requires Swept(degree, hits, s, goals, agenda, from) && e < |agenda|
    ensures from[e] < from[e + 1] <= |s| && Below(s[from[e]..from[e + 1]], |goals|)
    ensures agenda[e] == GoalsAt(goals, s[from[e]..from[e + 1]])
  {
    hide EntryOf;
    var entry := agenda[e];
  }

  lemma {:induction false} CollectedSlots(degree: seq<int>, hits: seq<nat>, s: seq<nat>, goals: seq<nat>,
                                          agenda: seq<seq<nat>>, from: seq<nat>, e: nat)
    requires Swept(degree, hits, s, goals, agenda, from) && e <= |agenda|
    ensures GoalsUpTo(agenda, e) == GoalsAt(goals, s[..from[e]])
  {
    hide EntryOf;
    if e > 0 {
      CollectedSlots(degree, hits, s, goals, agenda, from, e - 1);
      EntryAt(degree, hits, s, goals, agenda, from, e - 1);
    }
  }

  /** The slots hold every number once, so the goals at the slots are the goals. */
  lemma SlotsHoldAll(goals: seq<nat>, s: seq<nat>)
    requires Distinct(goals) && Distinct(s) && Below(s, |goals|) && |s| == |goals|
    ensures Distinct(GoalsAt(goals, s)) && Elems(GoalsAt(goals, s)) == Elems(goals)
  {
    var t := GoalsAt(goals, s);
    forall f | f in goals
      ensures f in t
    {
      var i: nat :| i < |goals| && goals[i] == f;
      DistinctIsAll(s, |goals|, i);
      var p :| 0 <= p < |s| && s[p] == i;
      assert t[p] == f;
    }
  }

  /** The slot of a goal in an entry. */
  lemma SlotOf(degree: seq<int>, hits: seq<nat>, s: seq<nat>, goals: seq<nat>,
               agenda: seq<seq<nat>>, from: seq<nat>, i: nat, e: nat) returns (p: nat)
    requires Swept(degree, hits, s, goals, agenda, from) && Distinct(goals) && InEntry(goals, agenda, i, e)
    ensures p < |s| && s[p] == i && EntryOf(degree, hits, s, p) == e
  {
    hide EntryOf;
    var x :| 0 <= x < |agenda[e]| && agenda[e][x] == goals[i];
    p := from[e] + x;
    assert agenda[e] == GoalsAt(goals, s[from[e]..from[e + 1]]);
  }

  /** The entries rank the goals as the degrees do. */
  lemma EntriesRank(degree: seq<int>, hits: seq<nat>, s: seq<nat>, goals: seq<nat>,
                    agenda: seq<seq<nat>>, from: seq<nat>, i: nat, e: nat, k: nat, d: nat)
    requires Swept(degree, hits, s, goals, agenda, from) && Distinct(goals) && Sorted(degree, hits, s)
    requires forall x :: 0 <= x < |hits| && hits[x] == 0 ==> degree[x] == 0
    requires InEntry(goals, agenda, i, e) && InEntry(goals, agenda, k, d)
    ensures e <= d <==> NotBehind(degree, hits, i, k)
  {
    var p := SlotOf(degree, hits, s, goals, agenda, from, i, e);
    var q := SlotOf(degree, hits, s, goals, agenda, from, k, d);
    hide Swept, EntryOf, Distinct;
    if p <= q {
      EntriesFollowSlots(degree, hits, s, p, q);
      assert p < q ==> InOrder(degree, hits, s[p], s[q]);
    } else {
      EntriesFollowSlots(degree, hits, s, q, p);
    }
  }

  /** The counter says whether a goal is connected. */
  lemma HitsSayConnected(o: seq<seq<bool>>, c: seq<seq<bool>>, n: nat, i: nat)
    requires Square(c, n) && i < n
    requires forall a, b :: 0 <= a < n && 0 <= b < n ==> (c[a][b] <==> Reaches(o, n, a, b))
    ensures Hits(c, n, i) > 0 <==> Connected(o, n, i)
    ensures Hits(c, n, i) == 0 ==> Degree(c, n, i) == 0
  {
    hide Reaches;
    var later, earlier := Later(c, n, i, n), Earlier(c, n, i, n);
    if Hits(c, n, i) > 0 {
      if later != {} {
        var k :| k in later;
        assert Reaches(o, n, i, k);
      } else {
        var k :| k in earlier;
        assert Reaches(o, n, k, i);
      }
    }
    if Connected(o, n, i) {
      var k :| 0 <= k < n && k != i && (Reaches(o, n, i, k) || Reaches(o, n, k, i));
      assert k in later || k in earlier;
    }
  }

  lemma RespectsAt(o: seq<seq<bool>>, c: seq<seq<bool>>, degree: seq<int>, hits: seq<nat>, s: seq<nat>,
                   goals: seq<nat>, agenda: seq<seq<nat>>, from: seq<nat>, i: nat, e: nat, k: nat, d: nat)
    requires Swept(degree, hits, s, goals, agenda, from) && Distinct(goals) && SortedBelow(degree, hits, s)
    requires from[|agenda|] == |s| == |goals|
    requires AreDegrees(c, |goals|, degree, hits) && Preorder(c, |goals|)
    requires forall a, b :: 0 <= a < |goals| && 0 <= b < |goals| ==> (c[a][b] <==> Reaches(o, |goals|, a, b))
    requires InEntry(goals, agenda, i, e) && InEntry(goals, agenda, k, d) && agenda != []
    ensures Respects(o, |goals|, |agenda| - 1, i, e, k, d)
  {
    hide Swept, Sorted, Distinct, Reaches, Connected, Degree, Hits, InEntry;
    var n := |goals|;
    assert i < n && k < n by {
      InEntryInRange(goals, agenda, i, e);
      InEntryInRange(goals, agenda, k, d);
    }
    forall x | 0 <= x < n
      ensures hits[x] > 0 <==> Connected(o, n, x)
      ensures hits[x] == 0 ==> degree[x] == 0
    {
      HitsSayConnected(o, c, n, x);
    }
    EntriesRank(degree, hits, s, goals, agenda, from, i, e, k, d);
    EntriesRank(degree, hits, s, goals, agenda, from, k, d, i, e);
    if c[i][k] && !c[k][i] {
      StrictDegree(c, n, i, k);
    } else if c[i][k] && i != k {
      MutualDegree(c, n, i, k);
    }
    if hits[k] == 0 {
      var m := LastGoal(degree, hits, s, goals, agenda, from);
      EntriesRank(degree, hits, s, goals, agenda, from, m, |agenda| - 1, k, d);
      InEntryInRange(goals, agenda, k, d);
    }
  }

  lemma InEntryInRange(goals: seq<nat>, agenda: seq<seq<nat>>, i: nat, e: nat)
    requires InEntry(goals, agenda, i, e)
    ensures i < |goals| && e < |agenda|
  {
  }

  /** Some goal is in the last entry. */
  lemma LastGoal(degree: seq<int>, hits: seq<nat>, s: seq<nat>, goals: seq<nat>,
                 agenda: seq<seq<nat>>, from: seq<nat>) returns (m: nat)
    requires Swept(degree, hits, s, goals, agenda, from) && agenda != []
    ensures InEntry(goals, agenda, m, |agenda| - 1)
  {
    hide EntryOf;
    var e := |agenda| - 1;
    EntryAt(degree, hits, s, goals, agenda, from, e);
    m := s[from[e]];
    assert agenda[e][0] == goals[m];
  }

  lemma AgendaOk(o: seq<seq<bool>>, c: seq<seq<bool>>, degree: seq<int>, hits: seq<nat>, s: seq<nat>,
                 goals: seq<nat>, agenda: seq<seq<nat>>, from: seq<nat>)
    requires Swept(degree, hits, s, goals, agenda, from) && Distinct(goals) && SortedBelow(degree, hits, s)
    requires from[|agenda|] == |s| == |goals| && agenda != []
    requires AreDegrees(c, |goals|, degree, hits) && Preorder(c, |goals|)
    requires forall a, b :: 0 <= a < |goals| && 0 <= b < |goals| ==> (c[a][b] <==> Reaches(o, |goals|, a, b))
    ensures IsAgenda(o, goals, agenda)
  {
    hide Swept, Sorted, Reaches, InEntry, Respects, AreDegrees, Preorder;
    CollectedSlots(degree, hits, s, goals, agenda, from, |agenda|);
    assert s[..|s|] == s;
    SlotsHoldAll(goals, s);
    EntriesNotEmpty(degree, hits, s, goals, agenda, from);
    forall i, e, k, d | InEntry(goals, agenda, i, e) && InEntry(goals, agenda, k, d)
      ensures Respects(o, |goals|, |agenda| - 1, i, e, k, d)
    {
      RespectsAt(o, c, degree, hits, s, goals, agenda, from, i, e, k, d);
    }
  }

  lemma EntriesNotEmpty(degree: seq<int>, hits: seq<nat>, s: seq<nat>, goals: seq<nat>,
                        agenda: seq<seq<nat>>, from: seq<nat>)
    requires Swept(degree, hits, s, goals, agenda, from)
    ensures forall e :: 0 <= e < |agenda| ==> agenda[e] != []
  {
    hide EntryOf;
  }

  lemma ClosureIsPreorder(o: seq<seq<bool>>, c: seq<seq<bool>>, n: nat)
    requires Square(o, n) && Square(c, n) && forall a :: 0 <= a < n ==> o[a][a]
    requires forall a, b :: 0 <= a < n && 0 <= b < n ==> (c[a][b] <==> Reaches(o, n, a, b))
    ensures Preorder(c, n)
  {
    hide Reaches;
    forall a | 0 <= a < n
      ensures c[a][a]
    {
      StepReaches(o, n, a, a);
    }
    forall a, v, b | 0 <= a < n && 0 <= v < n && 0 <= b < n && c[a][v] && c[v][b]
      ensures c[a][b]
    {
      ReachesTransitive(o, n, a, v, b);
    }
  }

  /** Nothing splits the goals: every ordering they reach goes both ways, and either all of them are ordered
      with some other goal or none is. */
  ghost predicate Unsplit(o: seq<seq<bool>>, n: nat) {
    forall i, k :: 0 <= i < n && 0 <= k < n ==>
      (Reaches(o, n, i, k) <==> Reaches(o, n, k, i)) && (Connected(o, n, i) <==> Connected(o, n, k))
  }

  /** Without orderings between different goals nothing splits them. */
  lemma NoOrderings(o: seq<seq<bool>>, n: nat)
    requires Square(o, n) && forall i, k :: 0 <= i < n && 0 <= k < n && i != k ==> !o[i][k]
    ensures Unsplit(o, n)
  {
    forall i, k | 0 <= i < n && 0 <= k < n && Reaches(o, n, i, k)
      ensures i == k
    {
      var w :| IsWalk(o, n, w, i, k);
      WalkStays(o, n, w, i, k);
    }
  }

  lemma {:induction false} WalkStays(o: seq<seq<bool>>, n: nat, w: seq<nat>, i: nat, k: nat)
    requires IsWalk(o, n, w, i, k) && forall a, b :: 0 <= a < n && 0 <= b < n && a != b ==> !o[a][b]
    ensures i == k
    decreases |w|
  {
    if |w| > 1 {
      assert o[w[0]][w[1]];
      assert IsWalk(o, n, w[1..], w[1], k);
      WalkStays(o, n, w[1..], w[1], k);
    }
  }

  /** Without orderings that go one way only, all degrees are zero. */
  lemma NoDegree(c: seq<seq<bool>>, n: nat, i: nat)
    requires Square(c, n) && i < n && forall k :: 0 <= k < n ==> c[i][k] == c[k][i]
    ensures Degree(c, n, i) == 0
  {
    assert Earlier(c, n, i, n) == Later(c, n, i, n);
  }

  /** Every goal is in some entry. */
  lemma {:induction false} EntryOfGoal(agenda: seq<seq<nat>>, n: nat, f: nat) returns (e: nat)
    requires n <= |agenda| && f in GoalsUpTo(agenda, n)
    ensures e < n && f in agenda[e]
  {
    if f in agenda[n - 1] {
      e := n - 1;
    } else {
      e := EntryOfGoal(agenda, n - 1, f);
    }
  }

  lemma InTheEntry(o: seq<seq<bool>>, goals: seq<nat>, agenda: seq<seq<nat>>, i: nat)
    requires IsAgenda(o, goals, agenda) && |agenda| == 1 && i < |goals|
    ensures InEntry(goals, agenda, i, 0)
  {
    assert goals[i] in Elems(GoalsUpTo(agenda, 1));
    var e := EntryOfGoal(agenda, 1, goals[i]);
  }

  lemma OneEntryUnsplit(o: seq<seq<bool>>, goals: seq<nat>, agenda: seq<seq<nat>>)
    requires IsAgenda(o, goals, agenda) && |agenda| == 1
    ensures Unsplit(o, |goals|)
  {
    hide Reaches, Connected, InEntry;
    forall i, k | 0 <= i < |goals| && 0 <= k < |goals|
      ensures Reaches(o, |goals|, i, k) ==> Reaches(o, |goals|, k, i)
      ensures Connected(o, |goals|, i) ==> Connected(o, |goals|, k)
    {
      InTheEntry(o, goals, agenda, i);
      InTheEntry(o, goals, agenda, k);
      assert Respects(o, |goals|, 0, i, 0, k, 0);
    }
  }

  /** The agenda has one entry exactly if nothing splits the goals. */
  lemma OneEntry(o: seq<seq<bool>>, c: seq<seq<bool>>, degree: seq<int>, hits: seq<nat>, s: seq<nat>,
                 goals: seq<nat>, agenda: seq<seq<nat>>, from: seq<nat>)
    requires Swept(degree, hits, s, goals, agenda, from) && Distinct(goals) && SortedBelow(degree, hits, s)
    requires from[|agenda|] == |s| == |goals| && agenda != [] && IsAgenda(o, goals, agenda)
    requires AreDegrees(c, |goals|, degree, hits)
    requires forall a, b :: 0 <= a < |goals| && 0 <= b < |goals| ==> (c[a][b] <==> Reaches(o, |goals|, a, b))
    ensures |agenda| == 1 <==> Unsplit(o, |goals|)
  {
    hide Swept, Sorted, Distinct, Reaches, Connected, Degree, Hits, InEntry, IsAgenda;
    if |agenda| == 1 {
      OneEntryUnsplit(o, goals, agenda);
    }
    if Unsplit(o, |goals|) {
      var first := FirstGoal(degree, hits, s, goals, agenda, from);
      var last := LastGoal(degree, hits, s, goals, agenda, from);
      InEntryInRange(goals, agenda, first, 0);
      InEntryInRange(goals, agenda, last, |agenda| - 1);
      forall x | 0 <= x < |goals|
        ensures degree[x] == 0 && (hits[x] > 0 <==> Connected(o, |goals|, x))
      {
        NoDegree(c, |goals|, x);
        HitsSayConnected(o, c, |goals|, x);
      }
      EntriesRank(degree, hits, s, goals, agenda, from, last, |agenda| - 1, first, 0);
    }
  }

  lemma FirstGoal(degree: seq<int>, hits: seq<nat>, s: seq<nat>, goals: seq<nat>,
                  agenda: seq<seq<nat>>, from: seq<nat>) returns (m: nat)
    requires Swept(degree, hits, s, goals, agenda, from) && agenda != []
    ensures InEntry(goals, agenda, m, 0)
  {
    hide EntryOf;
    EntryAt(degree, hits, s, goals, agenda, from, 0);
    m := s[from[0]];
    assert agenda[0][0] == goals[m];
  }

  // ---- which entry, and where in it

  /** The goals that are ordered before `x`, and those that `x` is ordered before. */
  ghost function Befores(o: seq<seq<bool>>, n: nat, x: nat): set<nat> {
    set a: nat | a < n && a != x && Reaches(o, n, a, x)
  }

  ghost function Afters(o: seq<seq<bool>>, n: nat, x: nat): set<nat> {
    set b: nat | b < n && b != x && Reaches(o, n, x, b)
  }

  /** Goals are ranked by how many goals come before them less how many come after; unconnected ones last. */
  ghost predicate RanksUpTo(o: seq<seq<bool>>, n: nat, i: nat, k: nat) {
    if Befores(o, n, i) + Afters(o, n, i) == {} then Befores(o, n, k) + Afters(o, n, k) == {}
    else
      || Befores(o, n, k) + Afters(o, n, k) == {}
      || |Befores(o, n, i)| - |Afters(o, n, i)| <= |Befores(o, n, k)| - |Afters(o, n, k)|
  }

  lemma DegreesAreRanks(o: seq<seq<bool>>, c: seq<seq<bool>>, n: nat, degree: seq<int>, hits: seq<nat>, x: nat)
    requires AreDegrees(c, n, degree, hits) && x < n
    requires forall a, b :: 0 <= a < n && 0 <= b < n ==> (c[a][b] <==> Reaches(o, n, a, b))
    ensures degree[x] == |Befores(o, n, x)| - |Afters(o, n, x)|
    ensures hits[x] == 0 <==> Befores(o, n, x) + Afters(o, n, x) == {}
  {
    hide Reaches;
    assert Earlier(c, n, x, n) == Befores(o, n, x) && Later(c, n, x, n) == Afters(o, n, x);
  }

  lemma EntriesAreRanks(o: seq<seq<bool>>, c: seq<seq<bool>>, degree: seq<int>, hits: seq<nat>, s: seq<nat>,
                        goals: seq<nat>, agenda: seq<seq<nat>>, from: seq<nat>, i: nat, e: nat, k: nat, d: nat)
    requires Swept(degree, hits, s, goals, agenda, from) && Distinct(goals) && SortedBelow(degree, hits, s)
    requires AreDegrees(c, |goals|, degree, hits)
    requires forall a, b :: 0 <= a < |goals| && 0 <= b < |goals| ==> (c[a][b] <==> Reaches(o, |goals|, a, b))
    requires InEntry(goals, agenda, i, e) && InEntry(goals, agenda, k, d)
    ensures e <= d <==> RanksUpTo(o, |goals|, i, k)
  {
    hide Swept, Sorted, Distinct, Reaches, InEntry, Befores, Afters, AreDegrees;
    InEntryInRange(goals, agenda, i, e);
    InEntryInRange(goals, agenda, k, d);
    SomeDegrees(c, |goals|, degree, hits);
    forall x | 0 <= x < |goals|
      ensures hits[x] == 0 ==> degree[x] == 0
    {
      DegreesAreRanks(o, c, |goals|, degree, hits, x);
    }
    DegreesAreRanks(o, c, |goals|, degree, hits, i);
    DegreesAreRanks(o, c, |goals|, degree, hits, k);
    EntriesRank(degree, hits, s, goals, agenda, from, i, e, k, d);
  }

  lemma SomeDegrees(c: seq<seq<bool>>, n: nat, degree: seq<int>, hits: seq<nat>)
    requires AreDegrees(c, n, degree, hits)
    ensures |degree| == |hits| == n
  {
  }

  /** Within an entry the goals keep their order. */
  lemma EntryInOrder(degree: seq<int>, hits: seq<nat>, s: seq<nat>, goals: seq<nat>,
                     agenda: seq<seq<nat>>, from: seq<nat>, e: nat)
    requires Swept(degree, hits, s, goals, agenda, from) && Distinct(goals) && Sorted(degree, hits, s) && e < |agenda|
    requires forall x :: 0 <= x < |hits| && hits[x] == 0 ==> degree[x] == 0
    ensures InOrderOf(agenda[e], goals)
  {
    EntryAt(degree, hits, s, goals, agenda, from, e);
    forall x, y | 0 <= x < y < |agenda[e]|
      ensures SeenBefore(goals, agenda[e][x], agenda[e][y])
    {
      var p, q := from[e] + x, from[e] + y;
      SameEntry(degree, hits, s, goals, agenda, from, e, p, q);
      hide Swept, Sorted, EntryOf;
      EntriesFollowSlots(degree, hits, s, p, q);
      SlotsInOrder(degree, hits, s, p, q);
      assert agenda[e][x] == goals[s[p]] && agenda[e][y] == goals[s[q]] && s[p] < s[q];
      assert goals[s[p]] in goals[..s[p] + 1] && goals[s[q]] !in goals[..s[p] + 1];
    }
  }

  lemma SameEntry(degree: seq<int>, hits: seq<nat>, s: seq<nat>, goals: seq<nat>,
                  agenda: seq<seq<nat>>, from: seq<nat>, e: nat, p: nat, q: nat)
    requires Swept(degree, hits, s, goals, agenda, from) && e < |agenda| && from[e] <= p < from[e + 1] && from[e] <= q < from[e + 1]
    ensures p < |s| && q < |s| && EntryOf(degree, hits, s, p) == EntryOf(degree, hits, s, q)
  {
    hide EntryOf;
    assert agenda[e] == agenda[e];
  }

  lemma SlotsInOrder(degree: seq<int>, hits: seq<nat>, s: seq<nat>, p: nat, q: nat)
    requires Sorted(degree, hits, s) && p < q < |s| && NotBehind(degree, hits, s[q], s[p])
    ensures s[p] < s[q]
  {
    assert InOrder(degree, hits, s[p], s[q]);
  }

  /** The entries rank the goals exactly, and keep their order. */
  ghost predicate IsRanked(o: seq<seq<bool>>, goals: seq<nat>, agenda: seq<seq<nat>>) {
    && (forall i, e, k, d :: InEntry(goals, agenda, i, e) && InEntry(goals, agenda, k, d) ==>
          (e <= d <==> RanksUpTo(o, |goals|, i, k)))
    && forall e :: 0 <= e < |agenda| ==> InOrderOf(agenda[e], goals)
  }

  lemma AgendaIsRanked(o: seq<seq<bool>>, c: seq<seq<bool>>, degree: seq<int>, hits: seq<nat>, s: seq<nat>,
                       goals: seq<nat>, agenda: seq<seq<nat>>, from: seq<nat>)
    requires Swept(degree, hits, s, goals, agenda, from) && Distinct(goals) && SortedBelow(degree, hits, s)
    requires AreDegrees(c, |goals|, degree, hits)
    requires forall a, b :: 0 <= a < |goals| && 0 <= b < |goals| ==> (c[a][b] <==> Reaches(o, |goals|, a, b))
    ensures IsRanked(o, goals, agenda)
  {
    hide Swept, Distinct, Reaches, InEntry, RanksUpTo, AreDegrees, InOrderOf, Befores, Afters;
    SomeDegrees(c, |goals|, degree, hits);
    forall x | 0 <= x < |goals|
      ensures hits[x] == 0 ==> degree[x] == 0
    {
      DegreesAreRanks(o, c, |goals|, degree, hits, x);
    }
    forall i, e, k, d | InEntry(goals, agenda, i, e) && InEntry(goals, agenda, k, d)
      ensures e <= d <==> RanksUpTo(o, |goals|, i, k)
    {
      EntriesAreRanks(o, c, degree, hits, s, goals, agenda, from, i, e, k, d);
    }
    forall e | 0 <= e < |agenda|
      ensures InOrderOf(agenda[e], goals)
    {
      EntryInOrder(degree, hits, s, goals, agenda, from, e);
    }
  }

  /** The agenda is the one of these orderings. */
  ghost predicate Follows(o: seq<seq<bool>>, goals: seq<nat>, agenda: seq<seq<nat>>) {
    IsAgenda(o, goals, agenda) && IsRanked(o, goals, agenda)
  }

  /** Build the goal agenda from the matrix of the goal orderings, which has TRUE on its diagonal. */
  method BuildGoalAgenda(lm: array2<bool>, goals: seq<nat>) returns (agenda: seq<seq<nat>>)
    requires lm.Length0 == lm.Length1 == |goals| > 0 && Distinct(goals)
    requires forall a :: 0 <= a < lm.Length0 ==> lm[a, a]
    modifies lm
    ensures IsAgenda(old(Rows(lm)), goals, agenda)
    ensures IsRanked(old(Rows(lm)), goals, agenda)
    ensures |agenda| == 1 <==> Unsplit(old(Rows(lm)), |goals|)
  {
    hide IsRanked, Unsplit, Reaches, AreDegrees, Sorted, Swept, Distinct, IsAgenda, Preorder;
    ghost var o := Rows(lm);
    CloseOrderings(lm);
    ghost var c := Rows(lm);
    ClosureIsPreorder(o, c, |goals|);
    var degree, hits := CountDegrees(lm);
    var slot := SortSlots(degree, hits);
    ghost var from;
    agenda, from := Sweep(degree, hits, slot, goals);
    AgendaOk(o, c, degree[..], hits[..], slot[..], goals, agenda, from);
    OneEntry(o, c, degree[..], hits[..], slot[..], goals, agenda, from);
    AgendaIsRanked(o, c, degree[..], hits[..], slot[..], goals, agenda, from);
  }
}
