/** Best first search of search.c: the open list in the order of the heuristic value, the table of known
    states, and the plan read off the fathers. The nodes are a sequence in the order in which they were
    made, so that the position of a node is its address, and the open list is a sequence of such
    addresses. The search stops because every set of facts enters the table of states at most once. */
module BestFirst {
  import opened Sequences
  import opened Connectivity
  import opened Layers
  import opened Fixpoint
  import opened Extraction
  import opened Transition
  import opened Plans
  import opened Relax
  import opened Selection
  import opened StateTable

  /** A node of the search space; `op` and `father` are -1 at the root. */
  datatype BfsNode = BfsNode(S: seq<nat>, op: int, h: nat, father: int)

  /** A node comes from an earlier one by an operator that can be applied there. */
  ghost predicate NodeOk(g: Graph, init: set<nat>, goals: seq<nat>, nodes: seq<BfsNode>, i: nat)
    requires i < |nodes|
  {
    var n := nodes[i];
    && StateOk(g, n.S) && Trustworthy(g, Elems(n.S), Elems(goals), n.h) && n.h == Value(g, Elems(n.S), goals)
    && if n.op == -1 then Elems(n.S) == init
       else
         && 0 <= n.op < |g.ops| && 0 <= n.father < i && g.Applicable(n.op, Elems(nodes[n.father].S))
         && Elems(n.S) == g.Result(n.op, Elems(nodes[n.father].S))
  }

  lemma NodeState(g: Graph, init: set<nat>, goals: seq<nat>, nodes: seq<BfsNode>, i: nat)
    requires i < |nodes| && NodeOk(g, init, goals, nodes, i)
    ensures StateOk(g, nodes[i].S)
  {
  }

  ghost predicate SpaceOk(g: Graph, init: set<nat>, goals: seq<nat>, nodes: seq<BfsNode>, members: set<set<nat>>) {
    && (forall i :: 0 <= i < |nodes| ==> NodeOk(g, init, goals, nodes, i) && Elems(nodes[i].S) in members)
    && (forall i, j :: 0 <= i < j < |nodes| ==> Elems(nodes[i].S) != Elems(nodes[j].S))
    && (forall X :: X in members ==> exists i :: 0 <= i < |nodes| && Elems(nodes[i].S) == X)
  }

  /** The open list: nodes in the order of their heuristic value, and of their age if that is equal. */
  ghost predicate OpenOk(nodes: seq<BfsNode>, open: seq<nat>) {
    && Below(open, |nodes|) && Distinct(open)
    && forall a, b :: 0 <= a < b < |open| ==> InFront(nodes, open[a], open[b])
  }

  ghost predicate InFront(nodes: seq<BfsNode>, i: nat, j: nat)
    requires i < |nodes| && j < |nodes|
  {
    nodes[i].h < nodes[j].h || (nodes[i].h == nodes[j].h && i < j)
  }

  /** Every known state but the `current` one is still open, or all its successors are covered
      and it lacks a goal. */
  ghost predicate SearchOk(g: Graph, goals: set<nat>, nodes: seq<BfsNode>, open: seq<nat>, current: int,
                           members: set<set<nat>>)
  {
    forall i :: 0 <= i < |nodes| && i !in open && i != current ==>
      Expanded(g, members, goals, Elems(nodes[i].S)) && !(goals <= Elems(nodes[i].S))
  }

  lemma CoveredGrows(g: Graph, members: set<set<nat>>, members': set<set<nat>>, goals: set<nat>)
    requires members <= members'
    ensures forall X :: Covered(g, members, goals, X) ==> Covered(g, members', goals, X)
    ensures forall X :: Expanded(g, members, goals, X) ==> Expanded(g, members', goals, X)
  {
  }

  lemma NodeKept(g: Graph, init: set<nat>, goals: seq<nat>, nodes: seq<BfsNode>, n: BfsNode, i: nat)
    requires i < |nodes| && NodeOk(g, init, goals, nodes, i)
    ensures NodeOk(g, init, goals, nodes + [n], i)
  {
    hide Trustworthy, Graph.Applicable, Graph.Result, Elems;
  }

  /** A new node, with a state not yet known, keeps the space in order. */
  lemma NewNode(g: Graph, init: set<nat>, goals: seq<nat>, nodes: seq<BfsNode>, members: set<set<nat>>, n: BfsNode)
    requires SpaceOk(g, init, goals, nodes, members) && Elems(n.S) !in members
    requires NodeOk(g, init, goals, nodes + [n], |nodes|)
    ensures SpaceOk(g, init, goals, nodes + [n], members + {Elems(n.S)})
  {
    hide NodeOk, Elems;
    var nodes' := nodes + [n];
    forall i: nat | i < |nodes|
      ensures NodeOk(g, init, goals, nodes', i)
    {
      NodeKept(g, init, goals, nodes, n, i);
    }
    forall X | X in members
      ensures exists i :: 0 <= i < |nodes'| && Elems(nodes'[i].S) == X
    {
      var i :| 0 <= i < |nodes| && Elems(nodes[i].S) == X;
      assert nodes'[i] == nodes[i];
    }
    assert nodes'[|nodes|] == n;
  }

  /** Putting node `n` into the open list in front of the first node with a larger value. */
  lemma InsertOpen(nodes: seq<BfsNode>, open: seq<nat>, j: nat, n: BfsNode, id: nat)
    requires OpenOk(nodes, open) && j <= |open| && id == |nodes|
    requires forall k :: 0 <= k < j ==> nodes[open[k]].h <= n.h
    requires j < |open| ==> nodes[open[j]].h > n.h
    ensures OpenOk(nodes + [n], open[..j] + [id] + open[j..])
    ensures forall i :: i in open[..j] + [id] + open[j..] <==> i in open || i == id
  {
    var open', nodes' := open[..j] + [id] + open[j..], nodes + [n];
    InsertAt(open, j, id);
    assert forall i :: (i in open' <==> i in Elems(open')) && (i in open <==> i in Elems(open));
    forall a, b | 0 <= a < b < |open'|
      ensures InFront(nodes', open'[a], open'[b])
    {
      var a', b' := if a < j then a else a - 1, if b < j then b else b - 1;
      assert (a != j ==> open'[a] == open[a']) && (b != j ==> open'[b] == open[b']);
      if a != j && b != j {
        assert InFront(nodes, open[a'], open[b']);
      } else if a == j && b' > j {
        assert InFront(nodes, open[j], open[b']);
      }
    }
  }

  /** The new node is open and every other node is treated as before. */
  lemma SearchStep(g: Graph, goals: set<nat>, nodes: seq<BfsNode>, open: seq<nat>, open': seq<nat>, current: int,
                   members: set<set<nat>>, members': set<set<nat>>, n: BfsNode)
    requires SearchOk(g, goals, nodes, open, current, members) && members <= members'
    requires forall i :: i in open' <==> i in open || i == |nodes|
    ensures SearchOk(g, goals, nodes + [n], open', current, members')
  {
    CoveredGrows(g, members, members', goals);
  }

  /** A successor that is not yet known differs from its father, so an effect took place. */
  lemma NodeOfNewState(g: Graph, init: set<nat>, goals: seq<nat>, nodes: seq<BfsNode>, members: set<set<nat>>, n: BfsNode)
    requires g.OpsOk() && SpaceOk(g, init, goals, nodes, members)
    requires StateOk(g, n.S) && Trustworthy(g, Elems(n.S), Elems(goals), n.h) && n.h == Value(g, Elems(n.S), goals) && Elems(n.S) !in members
    requires 0 <= n.op < |g.ops| && 0 <= n.father < |nodes| && Elems(n.S) == g.Result(n.op, Elems(nodes[n.father].S))
    ensures NodeOk(g, init, goals, nodes + [n], |nodes|)
  {
    ChangeIsApplicable(g, n.op, Elems(nodes[n.father].S));
  }

  lemma NothingSearched(g: Graph, goals: set<nat>)
    ensures SearchOk(g, goals, [], [], -1, {})
  {
  }

  /** Taking the first node out of the open list for expansion. */
  lemma RemoveFirst(g: Graph, goals: set<nat>, nodes: seq<BfsNode>, open: seq<nat>, members: set<set<nat>>)
    requires OpenOk(nodes, open) && open != [] && SearchOk(g, goals, nodes, open, -1, members)
    ensures OpenOk(nodes, open[1..]) && open[0] !in open[1..]
    ensures SearchOk(g, goals, nodes, open[1..], open[0], members)
  {
    hide Expanded;
    assert forall i :: i in open <==> i == open[0] || i in open[1..];
  }

  /** The value of no open state is less than that of the first one. */
  ghost predicate IsLeast(g: Graph, goals: seq<nat>, nodes: seq<BfsNode>, open: seq<nat>, i: nat)
    requires i < |nodes| && Below(open, |nodes|)
  {
    forall j :: j in open ==> Value(g, Elems(nodes[i].S), goals) <= Value(g, Elems(nodes[j].S), goals)
  }

  lemma FirstIsLeast(g: Graph, init: set<nat>, goals: seq<nat>, nodes: seq<BfsNode>, open: seq<nat>, members: set<set<nat>>)
    requires SpaceOk(g, init, goals, nodes, members) && OpenOk(nodes, open) && open != []
    ensures IsLeast(g, goals, nodes, open, open[0])
  {
    hide Value, Elems, Trustworthy, Graph.Applicable, Graph.Result;
    forall j | j in open
      ensures Value(g, Elems(nodes[open[0]].S), goals) <= Value(g, Elems(nodes[j].S), goals)
    {
      var b :| 0 <= b < |open| && open[b] == j;
      assert NodeOk(g, init, goals, nodes, open[0]) && NodeOk(g, init, goals, nodes, j);
      assert b > 0 ==> InFront(nodes, open[0], open[b]);
    }
  }

  /** An empty open list proves the problem unsolvable. */
  lemma SpaceExhausted(g: Graph, init: set<nat>, goals: seq<nat>, nodes: seq<BfsNode>, members: set<set<nat>>)
    requires g.OpsOk() && SpaceOk(g, init, goals, nodes, members) && SearchOk(g, Elems(goals), nodes, [], -1, members)
    requires Covered(g, members, Elems(goals), init)
    ensures g.Unsolvable(init, Elems(goals))
  {
    hide Expanded, Graph.Unsolvable;
    forall Y | Y in members
      ensures Expanded(g, members, Elems(goals), Y) && !(Elems(goals) <= Y)
    {
      var i :| 0 <= i < |nodes| && Elems(nodes[i].S) == Y;
    }
    ExhaustedIsUnsolvable(g, members, Elems(goals), init);
  }

  lemma MembersAreSubsets(g: Graph, init: set<nat>, goals: seq<nat>, nodes: seq<BfsNode>, members: set<set<nat>>)
    requires SpaceOk(g, init, goals, nodes, members)
    ensures members <= Subsets(|g.fts|)
  {
    hide Trustworthy;
    forall X | X in members
      ensures X in Subsets(|g.fts|)
    {
      var i :| 0 <= i < |nodes| && Elems(nodes[i].S) == X;
      assert NodeOk(g, init, goals, nodes, i);
      StatesAreSubsets(X, |g.fts|);
    }
  }

  /** The trace from a node back along the fathers: node numbers fall, so no state repeats. */
  ghost predicate TraceOk(g: Graph, nodes: seq<BfsNode>, trace: seq<nat>, ops: seq<nat>, states: seq<seq<nat>>) {
    && |trace| == |states| == |ops| + 1 && Below(trace, |nodes|)
    && (forall k :: 0 <= k < |states| ==> states[k] == nodes[trace[k]].S)
    && (forall a, b :: 0 <= a < b < |trace| ==> trace[a] < trace[b])
    && Steps(g, ops, states)
  }

  lemma TraceStarts(g: Graph, nodes: seq<BfsNode>, last: nat)
    requires last < |nodes|
    ensures TraceOk(g, nodes, [last], [], [nodes[last].S])
  {
  }

  lemma TraceStep(g: Graph, init: set<nat>, goals: seq<nat>, nodes: seq<BfsNode>,
                  trace: seq<nat>, ops: seq<nat>, states: seq<seq<nat>>, op: nat, father: nat)
    requires TraceOk(g, nodes, trace, ops, states) && NodeOk(g, init, goals, nodes, trace[0])
    requires nodes[trace[0]].op == op && nodes[trace[0]].father == father < trace[0]
    ensures TraceOk(g, nodes, [father] + trace, [op] + ops, [nodes[father].S] + states)
  {
    hide Trustworthy, Value, Elems, Graph.Applicable, Graph.Result, Steps;
    StepsPrepend(g, ops, states, op, nodes[father].S);
  }

  lemma TraceIsPlan(g: Graph, init: set<nat>, goals: seq<nat>, nodes: seq<BfsNode>, members: set<set<nat>>,
                    trace: seq<nat>, ops: seq<nat>, states: seq<seq<nat>>)
    requires SpaceOk(g, init, goals, nodes, members) && TraceOk(g, nodes, trace, ops, states)
    requires nodes[trace[0]].op == -1 && Elems(goals) <= Elems(nodes[trace[|trace| - 1]].S)
    ensures IsPlan(g, init, Elems(goals), ops, states)
  {
    hide Trustworthy, Graph.Applicable, Graph.Result, Steps;
    assert NodeOk(g, init, goals, nodes, trace[0]);
    assert TraceOk(g, nodes, trace, ops, states) ==> |states| == |trace|;
  }

  /** The heuristic value of a known state is zero exactly at the goals. */
  lemma ZeroIsGoal(g: Graph, init: set<nat>, goals: seq<nat>, nodes: seq<BfsNode>, members: set<set<nat>>, i: nat)
    requires SpaceOk(g, init, goals, nodes, members) && i < |nodes|
    ensures nodes[i].h == 0 <==> Elems(goals) <= Elems(nodes[i].S)
  {
    assert NodeOk(g, init, goals, nodes, i);
  }

  lemma NodeIsKnown(g: Graph, init: set<nat>, goals: seq<nat>, nodes: seq<BfsNode>, members: set<set<nat>>, i: nat)
    requires SpaceOk(g, init, goals, nodes, members) && i < |nodes|
    ensures StateOk(g, nodes[i].S) && Elems(nodes[i].S) in members
  {
    assert NodeOk(g, init, goals, nodes, i);
  }

  /** The operators of the effects that `X` enables. */
  ghost predicate IsCollected(g: Graph, X: set<nat>, A: seq<nat>) {
    forall o :: o in A <==> exists e: nat :: e < |g.efs| && g.efs[e].op == o && Enabled(g, e, X, true)
  }

  /** In the order in which the facts of `S` enable their effects. */
  ghost predicate InEnablingOrder(g: Graph, S: seq<nat>, A: seq<nat>) {
    IsCollected(g, Elems(S), A) && exists L :: IsEnablingOrder(g, S, L) && FirstSeen(A, OpsIn(g, L))
  }

  lemma ThoseCollected(g: Graph, S: seq<nat>, A: seq<nat>)
    requires forall o :: o in A <==> exists e: nat :: e < |g.efs| && g.efs[e].op == o && Enabled(g, e, Elems(S), true)
    requires exists L :: IsEnablingOrder(g, S, L) && FirstSeen(A, OpsIn(g, L))
    ensures InEnablingOrder(g, S, A) && IsCollected(g, Elems(S), A)
  {
    hide IsEnablingOrder, FirstSeen, Enabled;
  }

  lemma CollectedIsOp(g: Graph, X: set<nat>, o: nat, A: seq<nat>)
    requires g.EffectsOk() && IsCollected(g, X, A) && o in A
    ensures o < |g.ops|
  {
    var e: nat :| e < |g.efs| && g.efs[e].op == o && Enabled(g, e, X, true);
  }

  /** The successors by the first `n` collected operators are covered. */
  ghost predicate CoveredBy(g: Graph, members: set<set<nat>>, goals: set<nat>, X: set<nat>, A: seq<nat>, n: nat) {
    forall k :: 0 <= k < n && k < |A| ==> A[k] < |g.ops| && Covered(g, members, goals, g.Result(A[k], X))
  }

  lemma CoveredByStep(g: Graph, members: set<set<nat>>, members': set<set<nat>>, goals: set<nat>, X: set<nat>,
                      A: seq<nat>, n: nat)
    requires CoveredBy(g, members, goals, X, A, n) && members <= members' && n < |A| && A[n] < |g.ops|
    requires Covered(g, members', goals, g.Result(A[n], X))
    ensures CoveredBy(g, members', goals, X, A, n + 1)
  {
    hide RelaxedUnreachable, Graph.Result;
  }

  /** The expanded node joins those whose successors are covered. */
  lemma CloseNode(g: Graph, goals: set<nat>, nodes: seq<BfsNode>, open: seq<nat>, current: nat, members: set<set<nat>>)
    requires SearchOk(g, goals, nodes, open, current, members) && current < |nodes|
    requires Expanded(g, members, goals, Elems(nodes[current].S)) && !(goals <= Elems(nodes[current].S))
    ensures SearchOk(g, goals, nodes, open, -1, members)
  {
    hide Expanded;
  }

  /** An operator that was not collected changes nothing. */
  lemma AllCovered(g: Graph, members: set<set<nat>>, goals: set<nat>, X: set<nat>, A: seq<nat>)
    requires g.WellFormed() && IsCollected(g, X, A) && X in members && CoveredBy(g, members, goals, X, A, |A|)
    ensures Expanded(g, members, goals, X)
  {
    forall o: nat | o < |g.ops|
      ensures Covered(g, members, goals, g.Result(o, X))
    {
      if g.Applicable(o, X) {
        ApplicableIsCollected(g, X, o, A);
        var k :| 0 <= k < |A| && A[k] == o;
      } else {
        ChangeIsApplicable(g, o, X);
      }
    }
  }

  lemma ApplicableIsCollected(g: Graph, X: set<nat>, o: nat, A: seq<nat>)
    requires g.WellFormed() && IsCollected(g, X, A) && g.Applicable(o, X)
    ensures o in A
  {
    var e :| g.Fires(o, e, X);
    assert Enabled(g, e, X, true);
  }

  /** The nodes from `from` on are sons of `father` by some of the first `n` operators of `A`, in the order of `A`. */
  ghost predicate SonsInOrder(nodes: seq<BfsNode>, from: nat, father: nat, A: seq<nat>, n: nat) {
    && n <= |A|
    && (forall j :: from <= j < |nodes| ==> nodes[j].father == father && nodes[j].op >= 0 && nodes[j].op in A[..n])
    && forall k, j :: from <= k < j < |nodes| ==> nodes[k].op >= 0 && nodes[j].op >= 0 && SeenBefore(A, nodes[k].op, nodes[j].op)
  }

  lemma NoSons(nodes: seq<BfsNode>, father: nat, A: seq<nat>)
    ensures SonsInOrder(nodes, |nodes|, father, A, 0)
  {
  }

  lemma SonsStep(nodes: seq<BfsNode>, nodes': seq<BfsNode>, from: nat, father: nat, A: seq<nat>, n: nat)
    requires from <= |nodes| <= |nodes'| <= |nodes| + 1 && nodes <= nodes'
    requires n < |A| && Distinct(A) && SonsInOrder(nodes, from, father, A, n)
    requires forall j :: |nodes| <= j < |nodes'| ==> nodes'[j].father == father && nodes'[j].op == A[n]
    ensures SonsInOrder(nodes', from, father, A, n + 1)
  {
    hide SeenBefore;
    assert A[..n + 1] == A[..n] + [A[n]];
    forall k, j | from <= k < j < |nodes'|
      ensures nodes'[k].op >= 0 && nodes'[j].op >= 0 && SeenBefore(A, nodes'[k].op, nodes'[j].op)
    {
      if j == |nodes| {
        SeenAt(A, n, nodes[k].op);
      }
    }
  }

  /** A new node in its place of the open list keeps the search in order. */
  lemma Inserted(g: Graph, init: set<nat>, goals: seq<nat>, nodes: seq<BfsNode>, open: seq<nat>, members: set<set<nat>>,
                 current: int, n: BfsNode, i: nat)
    requires SpaceOk(g, init, goals, nodes, members) && OpenOk(nodes, open) && i <= |open|
    requires SearchOk(g, Elems(goals), nodes, open, current, members) && current < |nodes|
    requires Elems(n.S) !in members && NodeOk(g, init, goals, nodes + [n], |nodes|)
    requires forall k :: 0 <= k < i ==> nodes[open[k]].h <= n.h
    requires i < |open| ==> nodes[open[i]].h > n.h
    ensures var id: nat := |nodes|; var open' := open[..i] + [id] + open[i..];
      var nodes' := nodes + [n]; var members' := members + {Elems(n.S)};
      && SpaceOk(g, init, goals, nodes', members') && OpenOk(nodes', open') && StateOk(g, n.S)
      && SearchOk(g, Elems(goals), nodes', open', current, members') && (current !in open ==> current !in open')
  {
    hide SpaceOk, SearchOk, Expanded;
    var id: nat := |nodes|;
    NodeState(g, init, goals, nodes + [n], id);
    NewNode(g, init, goals, nodes, members, n);
    InsertOpen(nodes, open, i, n, id);
    SearchStep(g, Elems(goals), nodes, open, open[..i] + [id] + open[i..], current, members, members + {Elems(n.S)}, n);
  }

  class BestFirstSearch {
    const g: Graph
    const rx: Relaxation
    const tr: Transitions
    const table: Table
    const init: seq<nat>
    const goals: seq<nat>
    var nodes: seq<BfsNode>
    var open: seq<nat>

    /** The evaluation, the transitions and the table are ready for the next call. */
    ghost predicate PartsOk()
      reads rx, rx.ft, rx.ef, rx.fp, rx.inPlan, rx.om, tr.Frame(), table, table.heads
    {
      && rx.g == g && tr.g == g && table.g == g
      && rx.inPlan !in tr.Frame()
      && rx.Valid() && rx.PlanValid() && rx.Clean()
      && tr.Valid() && tr.Clean() && table.Valid()
    }

    ghost predicate Valid()
      reads this, rx, rx.ft, rx.ef, rx.fp, rx.inPlan, rx.om, tr.Frame(), table, table.heads
    {
      && PartsOk() && g.WellFormed() && StateOk(g, init) && g.IsList(goals)
      && SpaceOk(g, Elems(init), goals, nodes, table.members)
      && OpenOk(nodes, open)
    }

    constructor (g: Graph, init: seq<nat>, goals: seq<nat>)
      requires g.WellFormed() && StateOk(g, init) && g.IsList(goals)
      ensures Valid() && this.g == g && this.init == init && this.goals == goals && nodes == [] && open == []
      ensures fresh(rx) && fresh(rx.ft) && fresh(rx.ef) && fresh(rx.fp) && fresh(rx.inPlan) && fresh(rx.om)
      ensures fresh(tr.Frame()) && fresh(table) && fresh(table.heads)
    {
      this.g := g;
      this.init := init;
      this.goals := goals;
      var r := new Relaxation(g);
      var t := new Transitions(g);
      var b := new Table(g);
      rx := r;
      tr := t;
      table := b;
      nodes := [];
      open := [];
    }

    /** The first open node, which has the least value of all, leaves the open list. */
    method TakeFirst() returns (first: nat)
      requires Valid() && open != [] && SearchOk(g, Elems(goals), nodes, open, -1, table.members)
      modifies this`open
      ensures Valid() && first < |nodes| && first !in open && open == old(open)[1..]
      ensures first in old(open) && IsLeast(g, goals, nodes, old(open), first)
      ensures SearchOk(g, Elems(goals), nodes, open, first, table.members)
    {
      hide Graph.WellFormed, Relaxation.Clean, Relaxation.PlanValid, Relaxation.Valid, Transitions.Clean,
        Transitions.Valid, Table.Valid, SpaceOk, SearchOk, IsLeast;
      FirstIsLeast(g, Elems(init), goals, nodes, open, table.members);
      RemoveFirst(g, Elems(goals), nodes, open, table.members);
      first := open[0];
      open := open[1..];
    }

    /** The place in the open list behind all nodes with no larger value. */
    method FindPlace(h: int) returns (i: nat)
      requires OpenOk(nodes, open)
      ensures i <= |open| && forall k :: 0 <= k < i ==> nodes[open[k]].h <= h
      ensures i < |open| ==> nodes[open[i]].h > h
    {
      i := 0;
      while i < |open| && nodes[open[i]].h <= h
        invariant i <= |open| && forall k :: 0 <= k < i ==> nodes[open[k]].h <= h
      {
        i := i + 1;
      }
    }

    /** Put a new node into the open list, behind all nodes with no larger value, and into the table. */
    method InsertNode(n: BfsNode, ghost current: int)
      requires Valid() && Elems(n.S) !in table.members
      requires NodeOk(g, Elems(init), goals, nodes + [n], |nodes|)
      requires SearchOk(g, Elems(goals), nodes, open, current, table.members) && current < |nodes|
      modifies this, table, table.heads
      ensures Valid() && nodes == old(nodes) + [n]
      ensures table.members == old(table.members) + {Elems(n.S)}
      ensures SearchOk(g, Elems(goals), nodes, open, current, table.members)
      ensures current !in old(open) ==> current !in open
    {
      hide Graph.WellFormed, SearchOk, Relaxation.Clean, Relaxation.PlanValid, Relaxation.Valid, Transitions.Clean,
        Transitions.Valid, OpenOk, SpaceOk, NodeOk;
      var i := FindPlace(n.h);
      var id: nat := |nodes|;
      Inserted(g, Elems(init), goals, nodes, open, table.members, current, n, i);
      open := open[..i] + [id] + open[i..];
      nodes := nodes + [n];
      table.Insert(n.S);
    }

    /** Evaluate the state and put it into the open list, unless it is known or a dead end. */
    method AddToBfsSpace(S: seq<nat>, op: int, father: int, ghost current: int)
      requires Valid() && StateOk(g, S)
      requires if op == -1 then Elems(S) == Elems(init)
               else 0 <= op < |g.ops| && 0 <= father < |nodes| && Elems(S) == g.Result(op, Elems(nodes[father].S))
      requires SearchOk(g, Elems(goals), nodes, open, current, table.members) && current < |nodes|
      modifies this, rx, rx.ft, rx.ef, rx.fp, rx.inPlan, rx.om, table, table.heads
      ensures Valid() && old(nodes) <= nodes && rx.gA == old(rx.gA)
      ensures |nodes| <= old(|nodes|) + 1 && forall i :: old(|nodes|) <= i < |nodes| ==> nodes[i].op == op && nodes[i].father == father
      ensures SearchOk(g, Elems(goals), nodes, open, current, table.members)
      ensures old(table.members) <= table.members
      ensures table.members == old(table.members) ==> open == old(open)
      ensures Covered(g, table.members, Elems(goals), Elems(S))
      ensures current !in old(open) ==> current !in open
    {
      hide Graph.EffectsOk, Graph.ImpliedOk, Graph.FactsOk, Expanded, Extracted, Built, RelaxedUnreachable,
        Relaxation.Clean, Relaxation.PlanValid, Transitions.Clean, Transitions.Valid, Table.Valid, SpaceOk, OpenOk, SearchOk,
        Value, RelaxedPlan, Graph.Result, Graph.Applicable;
      var known := table.Hashed(S);
      if known {
        return;
      }
      ghost var levels, marks, time;
      var h;
      h, levels, marks, time := rx.Get1P(S, goals, false);
      if h == INFINITY {
        return;
      }
      var n := BfsNode(S, op, h, father);
      if op != -1 {
        NodeOfNewState(g, Elems(init), goals, nodes, table.members, n);
      }
      InsertNode(n, current);
    }

    /** The state an operator leads to from a node. */
    method ApplyTo(current: nat, o: nat) returns (dest: seq<nat>)
      requires Valid() && current < |nodes| && o < |g.ops|
      modifies tr.Frame()
      ensures Valid() && StateOk(g, dest) && Elems(dest) == g.Result(o, Elems(nodes[current].S))
      ensures nodes == old(nodes) && open == old(open) && table.members == old(table.members) && rx.gA == old(rx.gA)
    {
      hide Graph.EffectsOk, Graph.OpsOk, Graph.ImpliedOk, Graph.FactsOk, Relaxation.Valid, Relaxation.Clean,
        Relaxation.PlanValid, Transitions.Clean, OpenOk, SpaceOk, Table.Valid, Graph.Result, ResultList, KeptList, LastGoal;
      NodeIsKnown(g, Elems(init), goals, nodes, table.members, current);
      var newGoal;
      dest, newGoal := tr.ResultToDest(nodes[current].S, o);
    }

    /** Add the successor of a node by one operator. */
    method AddSuccessor(current: nat, o: nat)
      requires Valid() && current < |nodes| && current !in open && o < |g.ops|
      requires SearchOk(g, Elems(goals), nodes, open, current, table.members)
      modifies this, rx, rx.ft, rx.ef, rx.fp, rx.inPlan, rx.om, tr.Frame(), table, table.heads
      ensures Valid() && old(nodes) <= nodes && rx.gA == old(rx.gA) && current !in open
      ensures |nodes| <= old(|nodes|) + 1 && forall i :: old(|nodes|) <= i < |nodes| ==> nodes[i].op == o && nodes[i].father == current
      ensures SearchOk(g, Elems(goals), nodes, open, current, table.members)
      ensures old(table.members) <= table.members
      ensures table.members == old(table.members) ==> open == old(open)
      ensures Covered(g, table.members, Elems(goals), g.Result(o, Elems(nodes[current].S)))
    {
      hide BestFirstSearch.Valid, Graph.WellFormed, SearchOk, Covered, Graph.Result;
      var dest := ApplyTo(current, o);
      AddToBfsSpace(dest, o, current, current);
    }

    lemma CollectedAreDistinct()
      requires PartsOk()
      ensures Distinct(rx.gA)
    {
    }

    /** Add all successors of a node by the operators that can be applied. */
    method Expand(current: nat)
      requires Valid() && current < |nodes| && current !in open && !(Elems(goals) <= Elems(nodes[current].S))
      requires IsLeast(g, goals, nodes, open, current)
      requires SearchOk(g, Elems(goals), nodes, open, current, table.members)
      modifies this, rx, rx.ft, rx.ef, rx.fp, rx.inPlan, rx.om, tr.Frame(), table, table.heads
      ensures Valid() && old(nodes) <= nodes && SonsInOrder(nodes, old(|nodes|), current, rx.gA, |rx.gA|)
      ensures InEnablingOrder(g, old(nodes)[current].S, rx.gA)
      ensures SearchOk(g, Elems(goals), nodes, open, -1, table.members)
      ensures old(table.members) <= table.members
      ensures table.members == old(table.members) ==> open == old(open)
    {
      hide Graph.EffectsOk, Graph.OpsOk, Graph.ImpliedOk, Graph.FactsOk, RelaxedUnreachable, Expanded,
        Relaxation.Clean, Relaxation.PlanValid, Transitions.Clean, Transitions.Valid, OpenOk, Table.Valid, Trustworthy,
        Enabled, Graph.Result, SearchOk, Covered, IsCollected, InEnablingOrder,
        IsEnablingOrder, FirstSeen, SpaceOk, SonsInOrder;
      var S := nodes[current].S;
      NodeIsKnown(g, Elems(init), goals, nodes, table.members, current);
      ghost var X := Elems(S);
      rx.GetA(S);
      ghost var A := rx.gA;
      ThoseCollected(g, S, A);
      CollectedAreDistinct();
      NoSons(nodes, current, A);
      for i := 0 to |rx.gA|
        invariant Valid() && rx.gA == A && old(nodes) <= nodes && current !in open
        invariant SearchOk(g, Elems(goals), nodes, open, current, table.members)
        invariant old(table.members) <= table.members
        invariant table.members == old(table.members) ==> open == old(open)
        invariant CoveredBy(g, table.members, Elems(goals), X, A, i)
        invariant SonsInOrder(nodes, old(|nodes|), current, A, i)
      {
        CollectedIsOp(g, X, rx.gA[i], A);
        ghost var before, nodes0 := table.members, nodes;
        AddSuccessor(current, rx.gA[i]);
        SonsStep(nodes0, nodes, old(|nodes|), current, A, i);
        CoveredByStep(g, before, table.members, Elems(goals), X, A, i);
      }
      assert nodes[current] == old(nodes)[current];
      AllCovered(g, table.members, Elems(goals), X, A);
      CloseNode(g, Elems(goals), nodes, open, current, table.members);
    }

    /** do_best_first_search: a plan, or the proof that there is none. */
    method DoBestFirstSearch() returns (found: bool, ops: seq<nat>, states: seq<seq<nat>>)
      requires Valid() && nodes == [] && open == [] && table.members == {}
      modifies this, rx, rx.ft, rx.ef, rx.fp, rx.inPlan, rx.om, tr.Frame(), table, table.heads
      ensures found ==> IsPlan(g, Elems(init), Elems(goals), ops, states)
      ensures !found ==> g.Unsolvable(Elems(init), Elems(goals))
    {
      hide Graph.EffectsOk, Graph.OpsOk, Graph.ImpliedOk, Graph.FactsOk, RelaxedUnreachable, Expanded,
        BestFirstSearch.PartsOk, Enabled, Graph.Result, SpaceOk, SearchOk, IsPlan, Graph.Unsolvable;
      ops, states := [], [];
      NothingSearched(g, Elems(goals));
      AddToBfsSpace(init, -1, -1, -1);
      while true
        invariant Valid() && SearchOk(g, Elems(goals), nodes, open, -1, table.members)
        invariant Covered(g, table.members, Elems(goals), Elems(init))
        decreases Subsets(|g.fts|) - table.members, |open|
      {
        if |open| == 0 {
          SpaceExhausted(g, Elems(init), goals, nodes, table.members);
          return false, [], [];
        }
        ghost var before := table.members;
        var first := TakeFirst();
        ZeroIsGoal(g, Elems(init), goals, nodes, table.members, first);
        if nodes[first].h == 0 {
          ops, states := ExtractPlan(first);
          return true, ops, states;
        }
        Expand(first);
        CoveredGrows(g, before, table.members, Elems(goals));
        MembersAreSubsets(g, Elems(init), goals, nodes, table.members);
      }
    }

    /** extract_plan: follow the fathers to the root, then read the operators forwards. */
    method ExtractPlan(last: nat) returns (ops: seq<nat>, states: seq<seq<nat>>)
      requires Valid() && last < |nodes| && Elems(goals) <= Elems(nodes[last].S)
      ensures IsPlan(g, Elems(init), Elems(goals), ops, states)
    {
      hide Graph.EffectsOk, Graph.OpsOk, Graph.ImpliedOk, Graph.FactsOk, BestFirstSearch.PartsOk, Trustworthy,
        Graph.Result, Graph.Applicable, OpenOk, Steps;
      var i: nat := last;
      ghost var trace: seq<nat> := [last];
      ops, states := [], [nodes[last].S];
      TraceStarts(g, nodes, last);
      while nodes[i].op != -1
        invariant i < |nodes| && TraceOk(g, nodes, trace, ops, states)
        invariant trace[0] == i && trace[|trace| - 1] == last
        decreases i
        modifies {}
      {
        assert NodeOk(g, Elems(init), goals, nodes, i);
        var o: nat := nodes[i].op;
        TraceStep(g, Elems(init), goals, nodes, trace, ops, states, o, nodes[i].father);
        ops := [o] + ops;
        i := nodes[i].father;
        states := [nodes[i].S] + states;
        trace := [i] + trace;
      }
      TraceIsPlan(g, Elems(init), goals, nodes, table.members, trace, ops, states);
    }
  }
}
