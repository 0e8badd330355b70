/** The states of the current plan, hashed, with links from each to the next one. */
module PlanTable {
  import opened Sequences
  import opened Connectivity
  import opened Transition
  import opened Plans

  // An entry that is taken out of the plan keeps its link, and so does one that is taken in again as the
  // last state of the plan.

  const PLAN_HASH_SIZE := 1024

  /** NULL of the links. */
  const NULL := -1

  /** `step` is the number of the operator executed in the state, -1 out of the plan. */
  datatype PlanEntry = PlanEntry(sum: nat, S: seq<nat>, step: int, next: int)

  // ---- following the links

  ghost predicate LinksOk(es: seq<PlanEntry>) {
    forall i :: 0 <= i < |es| ==> -1 <= es[i].next < |es|
  }

  /** The entry `n` links behind `id`; NULL behind the end. */
  ghost function Walk(es: seq<PlanEntry>, id: int, n: nat): (r: int)
    requires LinksOk(es) && -1 <= id < |es|
    ensures -1 <= r < |es|
    decreases n
  {
    if n == 0 || id == NULL then id else Walk(es, es[id].next, n - 1)
  }

  /** The links from `id` come to an end. */
  ghost predicate Ends(es: seq<PlanEntry>, id: int)
    requires LinksOk(es) && -1 <= id < |es|
  {
    exists n: nat :: Walk(es, id, n) == NULL
  }

  lemma {:induction false} WalkAdd(es: seq<PlanEntry>, id: int, m: nat, n: nat)
    requires LinksOk(es) && -1 <= id < |es|
    ensures Walk(es, id, m + n) == Walk(es, Walk(es, id, m), n)
    decreases m
  {
    if m > 0 && id != NULL {
      WalkAdd(es, es[id].next, m - 1, n);
    } else if id == NULL {
      WalkNull(es, m + n);
      WalkNull(es, m);
      WalkNull(es, n);
    }
  }

  lemma WalkNull(es: seq<PlanEntry>, n: nat)
    requires LinksOk(es)
    ensures Walk(es, NULL, n) == NULL
  {
  }

  /** A walk that comes back to where it was never ends. */
  lemma {:induction false} CycleNeverEnds(es: seq<PlanEntry>, id: int, p: nat, n: nat)
    requires LinksOk(es) && 0 <= id < |es| && p > 0 && Walk(es, id, p) == id
    ensures Walk(es, id, n) != NULL
    decreases n
  {
    if n >= p {
      WalkAdd(es, id, p, n - p);
      CycleNeverEnds(es, id, p, n - p);
    } else {
      WalkAdd(es, id, n, p - n);
      WalkNull(es, p - n);
    }
  }

  /** The shortest walk to the end. */
  lemma {:induction false} FirstNull(es: seq<PlanEntry>, id: int, k: nat) returns (n: nat)
    requires LinksOk(es) && -1 <= id < |es| && Walk(es, id, k) == NULL
    ensures n <= k && Walk(es, id, n) == NULL && forall m :: 0 <= m < n ==> Walk(es, id, m) != NULL
    decreases k
  {
    n := k;
    if m :| 0 <= m < k && Walk(es, id, m) == NULL {
      n := FirstNull(es, id, m);
    }
  }

  /** The shortest walk to the end visits no entry twice. */
  lemma WalkIsDistinct(es: seq<PlanEntry>, id: int, n: nat, a: nat, b: nat)
    requires LinksOk(es) && -1 <= id < |es| && Walk(es, id, n) == NULL
    requires forall m :: 0 <= m < n ==> Walk(es, id, m) != NULL
    requires a < b < n
    ensures Walk(es, id, a) != Walk(es, id, b)
  {
    WalkAdd(es, id, a, n - b);
    WalkAdd(es, id, b, n - b);
    assert Walk(es, id, a + (n - b)) != NULL;
  }

  /** A walk that ends does so within as many links as there are entries. */
  lemma EndsSoon(es: seq<PlanEntry>, id: int)
    requires LinksOk(es) && -1 <= id < |es| && Ends(es, id)
    ensures Walk(es, id, |es|) == NULL
  {
    var k: nat :| Walk(es, id, k) == NULL;
    var n := FirstNull(es, id, k);
    var s: seq<nat> := seq(n, i requires 0 <= i < n => Walk(es, id, i));
    forall a, b | 0 <= a < b < n
      ensures s[a] != s[b]
    {
      WalkIsDistinct(es, id, n, a, b);
    }
    DistinctBelow(s, |es|);
    WalkAdd(es, id, n, |es| - n);
    WalkNull(es, |es| - n);
  }

  lemma LongWalkNeverEnds(es: seq<PlanEntry>, id: int)
    requires LinksOk(es) && -1 <= id < |es| && Walk(es, id, |es|) != NULL
    ensures !Ends(es, id)
  {
    if Ends(es, id) {
      EndsSoon(es, id);
    }
  }

  lemma AfterEnd(es: seq<PlanEntry>, id: int, m: nat, n: nat)
    requires LinksOk(es) && -1 <= id < |es| && Walk(es, id, m) == NULL && m <= n
    ensures Walk(es, id, n) == NULL
  {
    WalkAdd(es, id, m, n - m);
    WalkNull(es, n - m);
  }

  // ---- the plan and its entries

  ghost predicate EntriesOk(g: Graph, es: seq<PlanEntry>) {
    && LinksOk(es)
    && (forall i :: 0 <= i < |es| ==> StateOk(g, es[i].S) && es[i].sum == SumOf(g, es[i].S) && es[i].step >= -1)
    && (forall i, j :: 0 <= i < j < |es| ==> Elems(es[i].S) != Elems(es[j].S))
  }

  /** `live` lists the entries of the plan: they carry their step and are linked in order; all
      other entries are out of the plan. */
  ghost predicate LiveOk(es: seq<PlanEntry>, live: seq<nat>) {
    && live != [] && Below(live, |es|) && LinksOk(es)
    && (forall i :: 0 <= i < |live| ==> es[live[i]].step == i)
    && (forall i :: 0 <= i < |live| - 1 ==> es[live[i]].next == live[i + 1])
    && (forall id :: 0 <= id < |es| && id !in live ==> es[id].step == -1)
  }

  /** The links from `id` lead back into the plan. */
  ghost predicate LeadsBack(es: seq<PlanEntry>, live: seq<nat>, id: int)
    requires LinksOk(es) && -1 <= id < |es|
  {
    exists n: nat :: Walk(es, id, n) in live
  }

  /** From every entry the links come to an end or lead into the plan. */
  ghost predicate Grounded(es: seq<PlanEntry>, live: seq<nat>)
    requires LinksOk(es)
  {
    forall id :: -1 <= id < |es| ==> Ends(es, id) || LeadsBack(es, live, id)
  }

  lemma {:induction false} WalkLive(es: seq<PlanEntry>, live: seq<nat>, i: nat, j: nat)
    requires LiveOk(es, live) && i <= j < |live|
    ensures Walk(es, live[i], j - i) == live[j]
    decreases j - i
  {
    if i < j {
      WalkLive(es, live, i + 1, j);
    }
  }

  /** What follows the plan state `live[k]`: the later plan states, then the link of the last one. */
  lemma WalkToTail(es: seq<PlanEntry>, live: seq<nat>, k: nat)
    requires LiveOk(es, live) && k < |live|
    ensures Walk(es, es[live[k]].next, |live| - 1 - k) == es[live[|live| - 1]].next
  {
    WalkLive(es, live, k, |live| - 1);
    WalkAdd(es, live[k], |live| - 1 - k, 1);
    WalkAdd(es, live[k], 1, |live| - 1 - k);
  }

  /** If the links behind a plan state come back to that state or an earlier one, they never end. */
  lemma BackIsEndless(es: seq<PlanEntry>, live: seq<nat>, k: nat, n: nat, j: nat)
    requires LiveOk(es, live) && j <= k < |live| && Walk(es, es[live[k]].next, n) == live[j]
    ensures !Ends(es, es[live[k]].next)
  {
    var c := es[live[k]].next;
    WalkAdd(es, c, n, k - j);
    WalkLive(es, live, j, k);
    WalkAdd(es, c, n + (k - j), 1);
    WalkNull(es, n);
    assert Walk(es, live[k], 1) == c;
    forall m: nat
      ensures Walk(es, c, m) != NULL
    {
      CycleNeverEnds(es, c, n + (k - j) + 1, m);
    }
  }

  /** Exactly when the link of the last plan state leads back into the plan, the removal loop
      of extract_plan_fragment runs forever, wherever the plan is cut. */
  lemma CutIsEndless(es: seq<PlanEntry>, live: seq<nat>, k: nat)
    requires LiveOk(es, live) && Grounded(es, live) && k < |live|
    ensures !Ends(es, es[live[k]].next) <==> LeadsBack(es, live, es[live[|live| - 1]].next)
  {
    var c, last, tail := es[live[k]].next, |live| - 1, es[live[|live| - 1]].next;
    WalkToTail(es, live, k);
    if LeadsBack(es, live, tail) {
      var n: nat :| Walk(es, tail, n) in live;
      var j :| 0 <= j < |live| && live[j] == Walk(es, tail, n);
      BackIsEndless(es, live, last, n, j);
      EndsShift(es, c, |live| - 1 - k);
    } else {
      assert Ends(es, tail);
      EndsShift(es, c, |live| - 1 - k);
    }
  }

  /** A walk ends exactly when the rest of it does. */
  lemma EndsShift(es: seq<PlanEntry>, id: int, m: nat)
    requires LinksOk(es) && -1 <= id < |es|
    ensures Ends(es, id) <==> Ends(es, Walk(es, id, m))
  {
    var r := Walk(es, id, m);
    if Ends(es, r) {
      var n: nat :| Walk(es, r, n) == NULL;
      WalkAdd(es, id, m, n);
    }
    if Ends(es, id) {
      var n: nat :| Walk(es, id, n) == NULL;
      WalkAdd(es, id, m, n);
      WalkAdd(es, id, n, m);
      WalkNull(es, m);
    }
  }

  // ---- cutting the plan

  ghost predicate Visited(es: seq<PlanEntry>, c: int, id: int)
    requires LinksOk(es) && -1 <= c < |es|
  {
    exists n: nat :: Walk(es, c, n) == id
  }

  ghost predicate SameLinks(es: seq<PlanEntry>, es': seq<PlanEntry>) {
    |es'| == |es| && forall id :: 0 <= id < |es| ==> es'[id].(step := es[id].step) == es[id]
  }

  /** Every entry on the walk from `c` is taken out of the plan. */
  ghost predicate IsCut(es: seq<PlanEntry>, es': seq<PlanEntry>, c: int)
    requires LinksOk(es) && -1 <= c < |es|
  {
    && SameLinks(es, es')
    && forall id :: 0 <= id < |es| ==> es'[id].step == if Visited(es, c, id) then -1 else es[id].step
  }

  lemma {:induction false} WalkSame(es: seq<PlanEntry>, es': seq<PlanEntry>, id: int, n: nat)
    requires LinksOk(es) && SameLinks(es, es') && -1 <= id < |es|
    ensures LinksOk(es') && Walk(es', id, n) == Walk(es, id, n)
    decreases n
  {
    if n > 0 && id != NULL {
      assert es'[id].(step := es[id].step) == es[id];
      WalkSame(es, es', es[id].next, n - 1);
    }
  }

  /** A cut whose walk ends leaves exactly the first part of the plan. */
  lemma CutOk(es: seq<PlanEntry>, es': seq<PlanEntry>, live: seq<nat>, k: nat)
    requires LiveOk(es, live) && Grounded(es, live) && k < |live|
    requires Ends(es, es[live[k]].next) && IsCut(es, es', es[live[k]].next)
    ensures LiveOk(es', live[..k + 1]) && Grounded(es', live[..k + 1])
  {
    var c := es[live[k]].next;
    forall i | 0 <= i < |live|
      ensures Visited(es, c, live[i]) <==> i > k
    {
      LiveVisited(es, live, k, i);
    }
    assert LinksOk(es');
    assert forall i :: 0 <= i < |live| ==> es'[live[i]].(step := es[live[i]].step) == es[live[i]];
    CutGrounded(es, es', live, k);
  }

  lemma LiveVisited(es: seq<PlanEntry>, live: seq<nat>, k: nat, i: nat)
    requires LiveOk(es, live) && k < |live| && i < |live| && Ends(es, es[live[k]].next)
    ensures Visited(es, es[live[k]].next, live[i]) <==> i > k
  {
    var c := es[live[k]].next;
    if i > k {
      WalkLive(es, live, k + 1, i);
    } else if n: nat :| Walk(es, c, n) == live[i] {
      BackIsEndless(es, live, k, n, i);
    }
  }

  lemma CutGrounded(es: seq<PlanEntry>, es': seq<PlanEntry>, live: seq<nat>, k: nat)
    requires LiveOk(es, live) && Grounded(es, live) && k < |live|
    requires Ends(es, es[live[k]].next) && IsCut(es, es', es[live[k]].next)
    ensures LinksOk(es') && Grounded(es', live[..k + 1])
  {
    forall id | -1 <= id < |es|
      ensures LinksOk(es') && (Ends(es', id) || LeadsBack(es', live[..k + 1], id))
    {
      WalkSame(es, es', id, 0);
      if Ends(es, id) {
        var n: nat :| Walk(es, id, n) == NULL;
        WalkSame(es, es', id, n);
      } else {
        var n: nat :| Walk(es, id, n) in live;
        var j :| 0 <= j < |live| && live[j] == Walk(es, id, n);
        WalkSame(es, es', id, n);
        if j > k {
          WalkLive(es, live, k + 1, j);
          EndsShift(es, es[live[k]].next, j - (k + 1));
          EndsShift(es, id, n);
        } else {
          assert live[..k + 1][j] == live[j];
        }
      }
    }
  }

  // ---- lengthening the plan

  /** `id` becomes the last state of the plan: a new entry, or one that had been taken out and
      keeps its old link. */
  ghost predicate IsAppend(es: seq<PlanEntry>, es': seq<PlanEntry>, last: nat, id: nat, step: nat) {
    && |es| <= |es'| <= |es| + 1 && last < |es| && id < |es'| && id != last
    && (|es'| > |es| ==> id == |es| && es'[id].next == NULL)
    && (id < |es| ==> es[id].step == -1 && es'[id] == es[id].(step := step))
    && es'[id].step == step
    && es'[last] == es[last].(next := id)
    && forall i :: 0 <= i < |es| && i != id && i != last ==> es'[i] == es[i]
  }

  lemma {:induction false} WalkUntil(es: seq<PlanEntry>, es': seq<PlanEntry>, last: nat, id: int, n: nat)
    requires LinksOk(es) && LinksOk(es') && |es| <= |es'| && last < |es| && -1 <= id < |es|
    requires forall i :: 0 <= i < |es| && i != last ==> es'[i].next == es[i].next
    ensures Walk(es', id, n) == Walk(es, id, n) || Visited(es', id, last)
    decreases n
  {
    if id == last {
      assert Walk(es', id, 0) == last;
    } else if n > 0 && id != NULL {
      WalkUntil(es, es', last, es[id].next, n - 1);
      if Visited(es', es[id].next, last) {
        var m: nat :| Walk(es', es[id].next, m) == last;
        assert Walk(es', id, m + 1) == last;
      }
    }
  }

  lemma AppendOk(es: seq<PlanEntry>, es': seq<PlanEntry>, live: seq<nat>, id: nat)
    requires LiveOk(es, live) && Grounded(es, live) && IsAppend(es, es', live[|live| - 1], id, |live|)
    ensures LiveOk(es', live + [id]) && Grounded(es', live + [id])
  {
    var last, live' := live[|live| - 1], live + [id];
    assert id < |es| ==> id !in live;
    assert LinksOk(es');
    forall x | -1 <= x < |es'|
      ensures Ends(es', x) || LeadsBack(es', live', x)
    {
      assert live'[|live|] == id && live'[|live| - 1] == last;
      if x == |es| {
        assert Walk(es', x, 0) == id;
      } else if Visited(es', x, last) {
        var n: nat :| Walk(es', x, n) == last;
        assert Walk(es', x, n) in live';
      } else if Ends(es, x) {
        var n: nat :| Walk(es, x, n) == NULL;
        WalkUntil(es, es', last, x, n);
      } else {
        var n: nat :| Walk(es, x, n) in live;
        WalkUntil(es, es', last, x, n);
        assert Walk(es', x, n) in live';
      }
    }
    assert forall i :: 0 <= i < |live| ==> live'[i] == live[i];
  }

  // ---- the current plan

  /** The numbers of all entries, chained by the sums of their states. */
  ghost predicate HeadsOk(es: seq<PlanEntry>, heads: seq<seq<nat>>) {
    && |heads| > 0
    && (forall b :: 0 <= b < |heads| ==> Below(heads[b], |es|))
    && (forall id :: 0 <= id < |es| ==> id in heads[es[id].sum % |heads|])
  }

  lemma EntriesKept(g: Graph, es: seq<PlanEntry>, es': seq<PlanEntry>, heads: seq<seq<nat>>)
    requires EntriesOk(g, es) && HeadsOk(es, heads) && SameLinks(es, es')
    requires forall id :: 0 <= id < |es'| ==> es'[id].step >= -1
    ensures EntriesOk(g, es') && HeadsOk(es', heads)
    ensures forall id :: 0 <= id < |es| ==> es'[id].S == es[id].S
  {
    assert forall id :: 0 <= id < |es| ==> es'[id].(step := es[id].step) == es[id];
  }

  lemma StepsPrefix(g: Graph, ops: seq<nat>, states: seq<seq<nat>>, k: nat)
    requires Steps(g, ops, states) && NoRepeats(states) && k < |states|
    ensures |states| == |ops| + 1
    ensures Steps(g, ops[..k], states[..k + 1]) && NoRepeats(states[..k + 1])
  {
    hide Graph.Applicable, Graph.Result;
  }

  lemma NewEntryOk(g: Graph, es: seq<PlanEntry>, heads: seq<seq<nat>>, e: PlanEntry, id: nat)
    requires EntriesOk(g, es) && HeadsOk(es, heads) && id == |es|
    requires StateOk(g, e.S) && e.sum == SumOf(g, e.S) && e.step >= -1 && e.next == NULL
    requires forall i :: 0 <= i < |es| ==> Elems(es[i].S) != Elems(e.S)
    ensures EntriesOk(g, es + [e])
    ensures HeadsOk(es + [e], heads[e.sum % |heads| := heads[e.sum % |heads|] + [id]])
  {
    var b := e.sum % |heads|;
    assert id in heads[b] + [id] && forall i :: i in heads[b] ==> i in heads[b] + [id];
  }

  lemma LinkKept(g: Graph, es: seq<PlanEntry>, heads: seq<seq<nat>>, start: nat, id: nat)
    requires EntriesOk(g, es) && HeadsOk(es, heads) && start < |es| && id < |es|
    ensures EntriesOk(g, es[start := es[start].(next := id)]) && HeadsOk(es[start := es[start].(next := id)], heads)
  {
  }

  /** The entries of the plan have the states of the plan. */
  ghost predicate Matches(g: Graph, es: seq<PlanEntry>, live: seq<nat>, states: seq<seq<nat>>) {
    && |live| == |states| && Below(live, |es|)
    && forall i :: 0 <= i < |live| ==> StateOk(g, states[i]) && Elems(es[live[i]].S) == Elems(states[i])
  }

  lemma MatchesAppend(g: Graph, es: seq<PlanEntry>, es': seq<PlanEntry>, live: seq<nat>, states: seq<seq<nat>>,
                      id: nat, S: seq<nat>)
    requires Matches(g, es, live, states) && |es| <= |es'| && id < |es'|
    requires forall i :: 0 <= i < |es| ==> es'[i].S == es[i].S
    requires StateOk(g, S) && Elems(es'[id].S) == Elems(S)
    ensures Matches(g, es', live + [id], states + [S])
  {
    hide Elems;
  }

  lemma StepsAppend(g: Graph, ops: seq<nat>, states: seq<seq<nat>>, op: nat, S: seq<nat>)
    requires Steps(g, ops, states) && NoRepeats(states)
    requires forall i :: 0 <= i < |states| ==> Elems(states[i]) != Elems(S)
    requires g.Applicable(op, Elems(states[|ops|])) && Elems(S) == g.Result(op, Elems(states[|ops|]))
    ensures Steps(g, ops + [op], states + [S]) && NoRepeats(states + [S])
  {
    hide Graph.Result, Elems;
    forall i | 0 <= i < |ops| + 1
      ensures g.Applicable((ops + [op])[i], Elems((states + [S])[i]))
      ensures Elems((states + [S])[i + 1]) == g.Result((ops + [op])[i], Elems((states + [S])[i]))
    {
      assert i < |ops| ==> g.Applicable(ops[i], Elems(states[i]));
    }
  }

  /** The plan leads step by step through its states, none of them twice, and the table knows exactly
      these states as part of the plan. */
  ghost predicate PlanOk(g: Graph, es: seq<PlanEntry>, heads: seq<seq<nat>>, live: seq<nat>, ops: seq<nat>,
                         states: seq<seq<nat>>)
  {
    && EntriesOk(g, es) && HeadsOk(es, heads)
    && LiveOk(es, live) && Grounded(es, live)
    && Steps(g, ops, states) && NoRepeats(states)
    && Matches(g, es, live, states)
  }

  lemma PlanParts(g: Graph, es: seq<PlanEntry>, heads: seq<seq<nat>>, live: seq<nat>, ops: seq<nat>, states: seq<seq<nat>>)
    requires PlanOk(g, es, heads, live, ops, states)
    ensures LiveOk(es, live) && Grounded(es, live) && LinksOk(es) && |states| == |ops| + 1 == |live|
    ensures Below(live, |es|) && live != []
  {
  }

  lemma CutKeeps(g: Graph, es: seq<PlanEntry>, es': seq<PlanEntry>, heads: seq<seq<nat>>, live: seq<nat>, ops: seq<nat>,
                 states: seq<seq<nat>>, k: nat)
    requires PlanOk(g, es, heads, live, ops, states) && LinksOk(es) && Below(live, |es|) && |states| == |ops| + 1 == |live|
    requires k < |live| && Ends(es, es[live[k]].next) && IsCut(es, es', es[live[k]].next)
    ensures PlanOk(g, es', heads, live[..k + 1], ops[..k], states[..k + 1])
  {
    CutOk(es, es', live, k);
    CutSteps(es, es', es[live[k]].next, g);
    EntriesKept(g, es, es', heads);
    StepsPrefix(g, ops, states, k);
    MatchesPrefix(g, es, es', live, states, k);
  }

  lemma CutSteps(es: seq<PlanEntry>, es': seq<PlanEntry>, c: int, g: Graph)
    requires EntriesOk(g, es) && LinksOk(es) && -1 <= c < |es| && IsCut(es, es', c)
    ensures forall id :: 0 <= id < |es'| ==> es'[id].step >= -1
  {
    hide Visited;
  }

  lemma MatchesPrefix(g: Graph, es: seq<PlanEntry>, es': seq<PlanEntry>, live: seq<nat>, states: seq<seq<nat>>, k: nat)
    requires Matches(g, es, live, states) && k < |live| && |es'| == |es| && forall id :: 0 <= id < |es| ==> es'[id].S == es[id].S
    ensures Matches(g, es', live[..k + 1], states[..k + 1])
  {
    hide Elems;
  }

  lemma AppendKeeps(g: Graph, es: seq<PlanEntry>, es': seq<PlanEntry>, heads: seq<seq<nat>>, heads': seq<seq<nat>>,
                    live: seq<nat>, ops: seq<nat>, states: seq<seq<nat>>, id: nat, S: seq<nat>, op: nat)
    requires PlanOk(g, es, heads, live, ops, states) && |states| == |ops| + 1 == |live| && live != []
    requires EntriesOk(g, es') && HeadsOk(es', heads') && IsAppend(es, es', live[|live| - 1], id, |live|)
    requires StateOk(g, S) && Elems(es'[id].S) == Elems(S)
    requires forall i :: 0 <= i < |states| ==> Elems(states[i]) != Elems(S)
    requires g.Applicable(op, Elems(states[|ops|])) && Elems(S) == g.Result(op, Elems(states[|ops|]))
    ensures PlanOk(g, es', heads', live + [id], ops + [op], states + [S])
  {
    hide EntriesOk, HeadsOk, Grounded, Steps, NoRepeats, Graph.Applicable, Graph.Result, Elems;
    StepsAppend(g, ops, states, op, S);
    AppendOk(es, es', live, id);
    MatchesAppend(g, es, es', live, states, id, S);
  }

  class CurrentPlan {
    const g: Graph
    const heads: array<seq<nat>>
    var entries: seq<PlanEntry>
    var gplanOps: seq<nat>
    var gplanStates: seq<seq<nat>>
    ghost var live: seq<nat>

    ghost predicate Valid()
      reads this, heads
    {
      PlanOk(g, entries, heads[..], live, gplanOps, gplanStates)
    }

    constructor (g: Graph, start: seq<nat>)
      requires StateOk(g, start)
      ensures Valid() && this.g == g && fresh(heads) && gplanOps == [] && gplanStates == [start]
      ensures |entries| == 1 && entries[0].S == start && entries[0].next == NULL && live == [0]
    {
      this.g := g;
      var sum := StateSum(g, start);
      heads := new seq<nat>[PLAN_HASH_SIZE](i => if i == sum % PLAN_HASH_SIZE then [0] else []);
      entries := [PlanEntry(sum, start, 0, NULL)];
      gplanOps, gplanStates := [], [start];
      live := [0];
      new;
      assert Walk(entries, NULL, 0) == NULL && Walk(entries, 0, 0) == 0;
    }

    /** The entry of a state, in the plan or not. */
    method Find(S: seq<nat>) returns (id: int)
      requires Valid() && StateOk(g, S)
      ensures -1 <= id < |entries|
      ensures id == NULL ==> forall i :: 0 <= i < |entries| ==> Elems(entries[i].S) != Elems(S)
      ensures id != NULL ==> Elems(entries[id].S) == Elems(S)
    {
      hide Grounded, LiveOk, Steps, NoRepeats, LinksOk;
      var sum := StateSum(g, S);
      var chain := heads[sum % heads.Length];
      for k := 0 to |chain|
        invariant forall i :: 0 <= i < k ==> Elems(entries[chain[i]].S) != Elems(S)
      {
        if entries[chain[k]].sum != sum {
          if Elems(entries[chain[k]].S) == Elems(S) {
            SumOfEqualStates(g, entries[chain[k]].S, S);
          }
          continue;
        }
        var same := SameState(S, entries[chain[k]].S);
        if same {
          return chain[k];
        }
      }
      forall i | 0 <= i < |entries| && Elems(entries[i].S) == Elems(S)
        ensures i in chain
      {
        SumOfEqualStates(g, entries[i].S, S);
      }
      return NULL;
    }

    /** plan_state_hashed: the entry of a state that is part of the plan. */
    method PlanStateHashed(S: seq<nat>) returns (id: int)
      requires Valid() && StateOk(g, S)
      ensures id == NULL ==> forall i :: 0 <= i < |gplanStates| ==> Elems(gplanStates[i]) != Elems(S)
      ensures id != NULL ==>
        && 0 <= id < |entries| && 0 <= entries[id].step < |live| && live[entries[id].step] == id
        && Elems(gplanStates[entries[id].step]) == Elems(S)
    {
      hide Grounded, Steps, HeadsOk, LinksOk;
      id := Find(S);
      if id == NULL || entries[id].step == -1 {
        return NULL;
      }
      assert id in live;
      return id;
    }

    /** The loop of extract_plan_fragment that takes the states behind `start` out of the plan.
        The program follows the links without a bound; one step more than there are entries means
        that it never stops, and then `ends` is false. */
    method RemoveBehind(start: nat) returns (ends: bool)
      requires LinksOk(entries) && start < |entries|
      modifies this`entries
      ensures ends <==> Ends(old(entries), old(entries)[start].next)
      ensures ends ==> IsCut(old(entries), entries, old(entries)[start].next)
    {
      ghost var es, c := entries, entries[start].next;
      var i := entries[start].next;
      var count := 0;
      while i != NULL && count < |entries|
        invariant SameLinks(es, entries) && LinksOk(entries)
        invariant i == Walk(es, c, count) && count <= |es|
        invariant forall n: nat :: n < count ==> Walk(es, c, n) != NULL
        invariant forall id :: 0 <= id < |es| ==>
          entries[id].step == if exists n: nat :: n < count && Walk(es, c, n) == id then -1 else es[id].step
        decreases |es| - count
      {
        WalkAdd(es, c, count, 1);
        entries := entries[i := entries[i].(step := -1)];
        i := entries[i].next;
        count := count + 1;
      }
      ends := i == NULL;
      if ends {
        forall n: nat | n >= count
          ensures Walk(es, c, n) == NULL
        {
          AfterEnd(es, c, count, n);
        }
      } else {
        LongWalkNeverEnds(es, c);
      }
    }

    /** The link of the last plan state leads back into the plan. */
    ghost predicate LinksBack()
      reads this
    {
      && LinksOk(entries) && live != [] && live[|live| - 1] < |entries|
      && LeadsBack(entries, live, entries[live[|live| - 1]].next)
    }

    /** Cut the plan back to the state of entry `start`. If the removal does not end, the table is given
        back as it was. */
    method CutBack(start: nat) returns (ends: bool)
      requires Valid() && start < |entries| && 0 <= entries[start].step < |live| && live[entries[start].step] == start
      modifies this`entries, this`gplanOps, this`gplanStates, this`live
      ensures Valid() && (ends <==> !old(LinksBack()))
      ensures !ends ==> entries == old(entries) && live == old(live) && gplanOps == old(gplanOps) && gplanStates == old(gplanStates)
      ensures ends ==> var k := old(entries)[start].step;
        gplanOps == old(gplanOps)[..k] && gplanStates == old(gplanStates)[..k + 1] && live == old(live)[..k + 1]
      ensures ends ==> IsCut(old(entries), entries, old(entries)[start].next)
    {
      hide PlanOk, Grounded, LeadsBack, Ends, IsCut;
      PlanParts(g, entries, heads[..], live, gplanOps, gplanStates);
      var k := entries[start].step;
      CutIsEndless(entries, live, k);
      var es := entries;
      ghost var lv := live;
      ends := RemoveBehind(start);
      if !ends {
        entries := es;
      } else {
        CutKeeps(g, es, entries, heads[..], lv, gplanOps, gplanStates, k);
        gplanOps := gplanOps[..k];
        gplanStates := gplanStates[..k + 1];
        live := live[..k + 1];
      }
    }

    /** hash_plan_state: make the state part of the plan, reusing its entry if there is one. */
    method HashPlanState(S: seq<nat>, step: nat) returns (id: nat)
      requires Valid() && StateOk(g, S)
      requires forall i :: 0 <= i < |gplanStates| ==> Elems(gplanStates[i]) != Elems(S)
      modifies this`entries, heads
      ensures id < |entries| && EntriesOk(g, entries) && HeadsOk(entries, heads[..])
      ensures entries[id].step == step && Elems(entries[id].S) == Elems(S)
      ensures id !in live && |old(entries)| <= |entries| <= |old(entries)| + 1
      ensures id < |old(entries)| ==>
        |entries| == |old(entries)| && old(entries)[id].step == -1 && entries[id] == old(entries)[id].(step := step)
      ensures id == |old(entries)| ==> |entries| == id + 1 && entries[id].next == NULL
      ensures forall i :: 0 <= i < |old(entries)| && i != id ==> entries[i] == old(entries)[i]
    {
      hide Grounded, Steps, NoRepeats, Graph.Applicable, Graph.Result;
      var sum := StateSum(g, S);
      var found := Find(S);
      if found != NULL {
        assert entries[found].step == -1;
        id := found;
        entries := entries[id := entries[id].(step := step)];
        EntriesKept(g, old(entries), entries, heads[..]);
        return;
      }
      id := |entries|;
      NewEntryOk(g, entries, heads[..], PlanEntry(sum, S, step, NULL), id);
      heads[sum % heads.Length] := heads[sum % heads.Length] + [id];
      entries := entries + [PlanEntry(sum, S, step, NULL)];
    }

    /** Lengthen the plan by one step into a state it does not contain. */
    method Append(start: nat, S: seq<nat>, op: nat) returns (next: nat)
      requires Valid() && StateOk(g, S) && start == live[|live| - 1]
      requires forall i :: 0 <= i < |gplanStates| ==> Elems(gplanStates[i]) != Elems(S)
      requires g.Applicable(op, Elems(gplanStates[|gplanOps|]))
      requires Elems(S) == g.Result(op, Elems(gplanStates[|gplanOps|]))
      modifies this, heads
      ensures Valid() && gplanOps == old(gplanOps) + [op] && gplanStates == old(gplanStates) + [S]
      ensures live == old(live) + [next]
      ensures IsAppend(old(entries), entries, start, next, |old(gplanOps)| + 1) && Elems(entries[next].S) == Elems(S)
    {
      hide PlanOk, Grounded, HeadsOk, EntriesOk, Graph.Applicable, Graph.Result;
      ghost var es, hs := entries, heads[..];
      PlanParts(g, entries, heads[..], live, gplanOps, gplanStates);
      var id := HashPlanState(S, |gplanOps| + 1);
      LinkKept(g, entries, heads[..], start, id);
      entries := entries[start := entries[start].(next := id)];
      AppendKeeps(g, es, entries, hs, heads[..], live, gplanOps, gplanStates, id, S, op);
      gplanStates := gplanStates + [S];
      gplanOps := gplanOps + [op];
      live := live + [id];
      next := id;
    }
  }

  // ---- a plan whose links lead back

  /** Two operators that exchange two facts. */
  const EXCHANGE := Graph([OpConn([0]), OpConn([1])],
                          [EfConn(0, [], [0], [1], [], false), EfConn(1, [], [1], [0], [], false)],
                          [FtConn([], [0], [1], 0, false), FtConn([], [1], [0], 0, false)])

  lemma ExchangeStep(o: nat, X: set<nat>)
    requires o < 2
    ensures EXCHANGE.Applicable(o, X) && EXCHANGE.Result(o, X) == X - {1 - o} + {o}
  {
    assert o in EXCHANGE.ops[o].E && EXCHANGE.Fires(o, o, X);
    assert forall e :: EXCHANGE.Fires(o, e, X) <==> e == o;
    assert o in EXCHANGE.efs[o].A && 1 - o in EXCHANGE.efs[o].D;
    assert EXCHANGE.Adds(o, X) == {o};
    assert EXCHANGE.Dels(o, X) == {1 - o};
  }

  lemma ExchangeEffects()
    ensures EXCHANGE.EffectsOk()
  {
    forall e | 0 <= e < 2
      ensures EXCHANGE.efs[e] == EfConn(e, [], [e], [1 - e], [], false)
    {
    }
  }

  lemma ExchangeOps()
    ensures EXCHANGE.OpsOk()
  {
    forall o | 0 <= o < 2
      ensures EXCHANGE.ops[o] == OpConn([o]) && EXCHANGE.efs[o].op == o && !EXCHANGE.efs[o].removed
    {
    }
  }

  lemma ExchangeImplied()
    ensures EXCHANGE.ImpliedOk()
  {
    forall e | 0 <= e < 2
      ensures EXCHANGE.efs[e].I == [] && EXCHANGE.efs[e].op == e
    {
    }
  }

  lemma ExchangeFacts()
    ensures EXCHANGE.FactsOk()
  {
    forall f | 0 <= f < 2
      ensures EXCHANGE.fts[f] == FtConn([], [f], [1 - f], 0, false)
      ensures EXCHANGE.efs[f] == EfConn(f, [], [f], [1 - f], [], false)
    {
    }
  }

  lemma ExchangeIsGraph()
    ensures EXCHANGE.WellFormed()
  {
    hide Graph.EffectsOk, Graph.OpsOk, Graph.ImpliedOk, Graph.FactsOk;
    ExchangeEffects();
    ExchangeOps();
    ExchangeImplied();
    ExchangeFacts();
  }

  lemma NoLinkNoWay(es: seq<PlanEntry>, live: seq<nat>)
    requires LinksOk(es) && live != [] && Below(live, |es|) && es[live[|live| - 1]].next == NULL
    ensures !LeadsBack(es, live, NULL)
  {
    forall n: nat
      ensures Walk(es, NULL, n) == NULL
    {
      WalkNull(es, n);
    }
  }

  /** The entry of a state that was taken out before is taken again. */
  lemma AppendAgain(g: Graph, es: seq<PlanEntry>, es': seq<PlanEntry>, last: nat, id: nat, step: nat, known: nat)
    requires EntriesOk(g, es') && IsAppend(es, es', last, id, step) && known < |es| && Elems(es'[id].S) == Elems(es[known].S)
    ensures id == known && |es'| == |es|
  {
    hide Elems;
    assert Elems(es'[known].S) == Elems(es[known].S);
  }

  lemma ElemsOfOne()
    ensures Elems<nat>([]) == {} && Elems<nat>([0]) == {0} && Elems<nat>([1]) == {1}
  {
  }

  lemma CutAll(es: seq<PlanEntry>, es': seq<PlanEntry>)
    requires |es| == 3 && LinksOk(es) && es[1].next == 2 && es[2].next == NULL && IsCut(es, es', 1)
    ensures |es'| == 3 && es'[1] == es[1].(step := -1) && es'[2] == es[2].(step := -1) && es'[0].next == es[0].next
  {
    assert Walk(es, 1, 0) == 1 && Walk(es, 1, 1) == 2;
    assert Visited(es, 1, 1) && Visited(es, 1, 2);
    assert es'[0].(step := es[0].step) == es[0];
  }

  lemma BackAtOnce(es: seq<PlanEntry>, live: seq<nat>, id: nat)
    requires LinksOk(es) && id < |es| && id in live
    ensures LeadsBack(es, live, id)
  {
    assert Walk(es, id, 0) == id;
  }

  lemma PlanEntries(g: Graph, es: seq<PlanEntry>, heads: seq<seq<nat>>, live: seq<nat>, ops: seq<nat>, states: seq<seq<nat>>)
    requires PlanOk(g, es, heads, live, ops, states)
    ensures EntriesOk(g, es) && LinksOk(es)
  {
  }

  /** First both operators, one after the other. */
  method TwoSteps() returns (p: CurrentPlan)
    ensures fresh(p) && fresh(p.heads) && p.g == EXCHANGE && p.Valid() && |p.entries| == 3 && p.live == [0, 1, 2]
    ensures |p.gplanOps| == 2 && p.gplanStates == [[], [0], [1]]
    ensures LinksOk(p.entries) && p.entries[0].next == 1 && p.entries[1].next == 2 && p.entries[2].next == NULL
    ensures p.entries[0].step == 0 && Elems(p.entries[1].S) == {0} && Elems(p.entries[2].S) == {1}
  {
    hide Elems, Graph.Applicable, Graph.Result, PlanOk, Graph.WellFormed, EntriesOk;
    ElemsOfOne();
    p := new CurrentPlan(EXCHANGE, []);
    ExchangeStep(0, {});
    var e1 := p.Append(0, [0], 0);
    assert e1 == 1 && p.live == [0, 1];
    ExchangeStep(1, {0});
    var e2 := p.Append(e1, [1], 1);
    assert e2 == 2 && p.live == [0, 1, 2];
    PlanParts(p.g, p.entries, p.heads[..], p.live, p.gplanOps, p.gplanStates);
    assert p.entries[p.live[0]].step == 0;
  }

  /** The removal of plan states can run forever: append two states, cut them off, append them in the other
      order. The one that is now last still links to the one before it. */
  method LinksCanLeadBack() returns (p: CurrentPlan)
    ensures fresh(p) && p.g == EXCHANGE && EXCHANGE.WellFormed() && p.Valid() && p.LinksBack()
  {
    hide Elems, Graph.Applicable, Graph.Result, PlanOk, IsCut, LeadsBack, Graph.WellFormed, EntriesOk;
    ExchangeIsGraph();
    ElemsOfOne();
    p := TwoSteps();
    ghost var es := p.entries;
    NoLinkNoWay(es, p.live);
    var ends := p.CutBack(0);
    CutAll(es, p.entries);
    assert p.live == [0] && p.gplanOps == [] && p.gplanStates == [[]];
    ghost var cut := p.entries;
    ExchangeStep(1, {});
    var e2 := p.Append(0, [1], 1);
    PlanEntries(p.g, p.entries, p.heads[..], p.live, p.gplanOps, p.gplanStates);
    AppendAgain(p.g, cut, p.entries, 0, e2, 1, 2);
    ghost var es2 := p.entries;
    ExchangeStep(0, {1});
    var e1 := p.Append(e2, [0], 0);
    PlanEntries(p.g, p.entries, p.heads[..], p.live, p.gplanOps, p.gplanStates);
    AppendAgain(p.g, es2, p.entries, 2, e1, 2, 1);
    assert p.live == [0, 2, 1] && p.entries[1].next == 2;
    BackAtOnce(p.entries, p.live, 2);
  }
}
