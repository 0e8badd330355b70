/** Enforced hill-climbing of search.c: from the end of the current plan, a breadth first search over
    helpful operators for a state with a smaller heuristic value, whose path is then built into the plan.
    The nodes of one search are a sequence in the order in which they were added, so that the position of
    a node is its address; the plan is the table of PlanTable, and the states seen by one search are the
    recycled table of EhcTable. */
module HillClimbing {
  import opened Sequences
  import opened Connectivity
  import opened Layers
  import opened Fixpoint
  import opened Extraction
  import opened Transition
  import opened Plans
  import opened Relax
  import opened Selection
  import opened EhcTable
  import opened PlanTable

  /** A node of the breadth first search; `father` is -1 below the start state and `newGoal`
      is -1 if no global goal came in. */
  datatype EhcNode = EhcNode(S: seq<nat>, op: nat, depth: nat, father: int, newGoal: int)

  /** Endless stands for a run that does not return: the removal of plan states follows stale
      links forever. */
  datatype Outcome = Success | Failure | Endless

  ghost function ParentState(root: set<nat>, space: seq<EhcNode>, father: int): set<nat>
    requires -1 <= father < |space|
  {
    if father == -1 then root else Elems(space[father].S)
  }

  function ParentDepth(space: seq<EhcNode>, father: int): nat
    requires -1 <= father < |space|
  {
    if father == -1 then 0 else space[father].depth
  }

  /** What an operator leaves of a state. */
  ghost function KeptFrom(g: Graph, op: nat, X: set<nat>): set<nat>
    requires op < |g.ops|
  {
    X - g.Dels(op, X)
  }

  ghost predicate EhcNodeOk(g: Graph, root: set<nat>, space: seq<EhcNode>, i: nat)
    requires i < |space|
  {
    var n := space[i];
    && StateOk(g, n.S) && -1 <= n.father < i && n.newGoal >= -1
    && n.depth == ParentDepth(space, n.father) + 1
    && g.Applicable(n.op, ParentState(root, space, n.father))
    && Elems(n.S) == g.Result(n.op, ParentState(root, space, n.father))
    && NewGoalOk(g, n.S, KeptFrom(g, n.op, ParentState(root, space, n.father)), n.newGoal)
  }

  /** The first `n` nodes of the recycled list are the current search space: each comes from its
      father, and their states and the start state are all different. */
  ghost predicate NodesOk(g: Graph, root: set<nat>, space: seq<EhcNode>, n: nat) {
    && n <= |space|
    && (forall i :: 0 <= i < n ==> EhcNodeOk(g, root, space, i) && Elems(space[i].S) != root)
    && (forall i, j :: 0 <= i < j < n ==> Elems(space[i].S) != Elems(space[j].S))
  }

  /** The table holds these states. */
  ghost predicate EhcSpaceOk(g: Graph, root: set<nat>, space: seq<EhcNode>, n: nat, members: set<set<nat>>) {
    && NodesOk(g, root, space, n) && root in members
    && (forall i :: 0 <= i < n ==> Elems(space[i].S) in members)
    && (forall X :: X in members ==> g.IsState(X) && (X == root || HasState(space, n, X)))
  }

  ghost predicate HasState(space: seq<EhcNode>, n: nat, X: set<nat>)
    requires n <= |space|
  {
    exists i :: 0 <= i < n && Elems(space[i].S) == X
  }

  lemma EhcNodeKept(g: Graph, root: set<nat>, space: seq<EhcNode>, space': seq<EhcNode>, n: nat, i: nat)
    requires i < n <= |space| && n <= |space'| && space'[..n] == space[..n] && EhcNodeOk(g, root, space, i)
    ensures space'[i] == space[i] && EhcNodeOk(g, root, space', i)
  {
    hide Graph.Applicable, Graph.Result, NewGoalOk, KeptFrom;
    assert space'[i] == space'[..n][i] && space[i] == space[..n][i];
    if space[i].father >= 0 {
      assert space'[..n][space[i].father] == space[..n][space[i].father];
    }
  }

  lemma EhcStep(g: Graph, root: set<nat>, space: seq<EhcNode>, space': seq<EhcNode>, n: nat, members: set<set<nat>>)
    requires EhcSpaceOk(g, root, space, n, members) && n < |space'| && space'[..n] == space[..n]
    requires EhcNodeOk(g, root, space', n) && Elems(space'[n].S) !in members
    ensures EhcSpaceOk(g, root, space', n + 1, members + {Elems(space'[n].S)})
  {
    hide EhcNodeOk;
    forall i | 0 <= i < n
      ensures space'[i] == space[i] && EhcNodeOk(g, root, space', i)
    {
      EhcNodeKept(g, root, space, space', n, i);
    }
    NodeIsState(g, root, space', n);
    forall X | X in members && X != root
      ensures HasState(space', n + 1, X)
    {
      var i :| 0 <= i < n && Elems(space[i].S) == X;
      assert Elems(space'[i].S) == X;
    }
  }

  lemma NodeIsState(g: Graph, root: set<nat>, space: seq<EhcNode>, i: nat)
    requires i < |space| && EhcNodeOk(g, root, space, i)
    ensures StateOk(g, space[i].S) && g.IsState(Elems(space[i].S))
  {
  }

  lemma ParentKept(root: set<nat>, space: seq<EhcNode>, space': seq<EhcNode>, n: nat, father: int)
    requires n <= |space| && n <= |space'| && space'[..n] == space[..n] && -1 <= father < n
    ensures ParentState(root, space', father) == ParentState(root, space, father)
  {
    if father >= 0 {
      assert space'[..n][father] == space[..n][father];
    }
  }

  lemma NodeOfSpace(g: Graph, root: set<nat>, space: seq<EhcNode>, n: nat, members: set<set<nat>>, i: nat)
    requires EhcSpaceOk(g, root, space, n, members) && i < n
    ensures StateOk(g, space[i].S)
  {
    assert EhcNodeOk(g, root, space, i);
  }

  lemma AllUseful(g: Graph, X: set<nat>, H: seq<nat>)
    requires forall o :: o in H ==> Useful(g, X, o)
    ensures forall o :: o in H ==> g.Applicable(o, X)
  {
  }

  // ---- the path from a node back to the plan

  /** `path` follows the fathers from its first node; `stop` is the father of the last one. */
  ghost predicate PathOk(space: seq<EhcNode>, path: seq<nat>, stop: int) {
    && Below(path, |space|)
    && forall t: nat :: t < |path| ==> space[path[t]].father == NodeAfter(path, t, stop)
  }

  function NodeAfter(path: seq<nat>, t: nat, stop: int): int {
    if t + 1 < |path| then path[t + 1] else stop
  }

  lemma PathEmpty(space: seq<EhcNode>, stop: int, states: seq<seq<nat>>)
    ensures PathOk(space, [], stop) && Fresh(space, [], states)
  {
  }

  lemma PathExtend(space: seq<EhcNode>, path: seq<nat>, i: nat)
    requires PathOk(space, path, i) && i < |space|
    ensures PathOk(space, path + [i], space[i].father)
  {
    var path' := path + [i];
    forall t: nat | t < |path'|
      ensures path'[t] < |space| && space[path'[t]].father == NodeAfter(path', t, space[i].father)
    {
      if t < |path| {
        assert path'[t] == path[t] && space[path[t]].father == NodeAfter(path, t, i);
      }
    }
  }

  /** No node of the path has a state of `states`. */
  ghost predicate Fresh(space: seq<EhcNode>, path: seq<nat>, states: seq<seq<nat>>)
    requires Below(path, |space|)
  {
    forall t, i :: 0 <= t < |path| && 0 <= i < |states| ==> Elems(states[i]) != Elems(space[path[t]].S)
  }

  lemma FreshExtend(space: seq<EhcNode>, path: seq<nat>, states: seq<seq<nat>>, i: nat)
    requires Below(path, |space|) && i < |space| && Fresh(space, path, states)
    requires forall k :: 0 <= k < |states| ==> Elems(states[k]) != Elems(space[i].S)
    ensures Below(path + [i], |space|) && Fresh(space, path + [i], states)
  {
    hide Elems;
  }

  lemma FreshPrefix(space: seq<EhcNode>, path: seq<nat>, states: seq<seq<nat>>, k: nat)
    requires Below(path, |space|) && Fresh(space, path, states) && k <= |states|
    ensures Fresh(space, path, states[..k])
  {
    hide Elems;
  }

  lemma NodeAbove(g: Graph, root: set<nat>, space: seq<EhcNode>, n: nat, path: seq<nat>, stop: int, t: nat)
    requires NodesOk(g, root, space, n) && PathOk(space, path, stop) && Below(path, n) && t + 1 < |path|
    ensures path[t + 1] < path[t]
  {
    hide NodeAfter, Graph.Applicable, Graph.Result;
    assert space[path[t]].father == NodeAfter(path, t, stop);
    NodeAfterIs(path, t, stop);
    assert EhcNodeOk(g, root, space, path[t]);
  }

  lemma NodeAfterIs(path: seq<nat>, t: nat, stop: int)
    ensures NodeAfter(path, t, stop) == if t + 1 < |path| then path[t + 1] else stop
  {
  }

  /** Along a path the node numbers fall. */
  lemma {:induction false} PathFalls(g: Graph, root: set<nat>, space: seq<EhcNode>, n: nat, path: seq<nat>, stop: int,
                                     a: nat, b: nat)
    requires NodesOk(g, root, space, n) && PathOk(space, path, stop) && Below(path, n) && a < b < |path|
    ensures path[b] < path[a]
    decreases b
  {
    hide PathOk, NodesOk;
    NodeAbove(g, root, space, n, path, stop, b - 1);
    if a < b - 1 {
      PathFalls(g, root, space, n, path, stop, a, b - 1);
    }
  }

  /** After the node `path[j]` has joined the plan, the earlier nodes of the path are still new to it. */
  lemma FreshStep(g: Graph, root: set<nat>, space: seq<EhcNode>, n: nat, path: seq<nat>, stop: int,
                  states: seq<seq<nat>>, j: nat)
    requires NodesOk(g, root, space, n) && PathOk(space, path, stop) && Below(path, n) && j < |path|
    requires Fresh(space, path[..j + 1], states)
    ensures Fresh(space, path[..j], states + [space[path[j]].S])
  {
    hide EhcNodeOk, Elems;
    forall t, i | 0 <= t < j && 0 <= i < |states + [space[path[j]].S]|
      ensures Elems((states + [space[path[j]].S])[i]) != Elems(space[path[..j][t]].S)
    {
      assert path[..j][t] == path[..j + 1][t];
      if i == |states| {
        PathFalls(g, root, space, n, path, stop, t, j);
      }
    }
  }

  lemma AppendFacts(g: Graph, root: set<nat>, space: seq<EhcNode>, n: nat, path: seq<nat>, stop: int,
                    states: seq<seq<nat>>, j: nat)
    requires NodesOk(g, root, space, n) && PathOk(space, path, stop) && Below(path, n) && j < |path| && -1 <= stop < n
    requires Fresh(space, path[..j + 1], states)
    ensures StateOk(g, space[path[j]].S)
    ensures forall i :: 0 <= i < |states| ==> Elems(states[i]) != Elems(space[path[j]].S)
    ensures var X := if j + 1 == |path| then ParentState(root, space, stop) else Elems(space[path[j + 1]].S);
      g.Applicable(space[path[j]].op, X) && Elems(space[path[j]].S) == g.Result(space[path[j]].op, X)
  {
    hide Graph.Applicable, Graph.Result;
    assert EhcNodeOk(g, root, space, path[j]);
    assert path[..j + 1][j] == path[j];
  }

  lemma MembersAreStates(g: Graph, root: set<nat>, space: seq<EhcNode>, n: nat, members: set<set<nat>>)
    requires EhcSpaceOk(g, root, space, n, members)
    ensures members <= Subsets(|g.fts|)
  {
    forall X | X in members
      ensures X in Subsets(|g.fts|)
    {
      StatesAreSubsets(X, |g.fts|);
    }
  }

  lemma NodeOfNodes(g: Graph, root: set<nat>, space: seq<EhcNode>, n: nat, i: nat)
    requires NodesOk(g, root, space, n) && i < n
    ensures StateOk(g, space[i].S)
  {
    assert EhcNodeOk(g, root, space, i);
  }

  lemma ValueIsNatural(g: Graph, X: set<nat>, goals: set<nat>, h: int)
    requires Trustworthy(g, X, goals, h) && h != INFINITY
    ensures h >= 0
  {
  }

  /** A node that is left behind: no plan even without deletes, or its relaxed plan deletes the goal that
      came in, or its value is not below `h` and all that its helpful operators lead to is in `M`. */
  ghost predicate Dismissed(g: Graph, M: set<set<nat>>, goals: seq<nat>, n: EhcNode, h: int) {
    var X := Elems(n.S);
    || RelaxedUnreachable(g, X, Elems(goals))
    || (n.newGoal != -1 && exists e :: e in RelaxedPlan(g, X, goals) && e < |g.efs| && n.newGoal in g.efs[e].D)
    || (!Less(Value(g, X, goals), h) && forall o :: o in HelpfulOps(g, X, goals) && o < |g.ops| ==> g.Result(o, X) in M)
  }

  /** The relaxed plan of the node's state does not delete the goal that came in with it. */
  ghost predicate KeepsNewGoal(g: Graph, goals: seq<nat>, n: EhcNode) {
    n.newGoal != -1 ==> forall e :: e in RelaxedPlan(g, Elems(n.S), goals) && e < |g.efs| ==> n.newGoal !in g.efs[e].D
  }

  ghost predicate AllDismissed(g: Graph, M: set<set<nat>>, goals: seq<nat>, space: seq<EhcNode>, k: nat, h: int)
    requires k <= |space|
  {
    forall i :: 0 <= i < k ==> Dismissed(g, M, goals, space[i], h)
  }

  /** Only nodes whose value is not below `h` have sons. */
  ghost predicate FathersAbove(g: Graph, space: seq<EhcNode>, n: nat, goals: seq<nat>, h: int)
    requires n <= |space|
  {
    forall i :: 0 <= i < n && 0 <= space[i].father < i ==> !Less(Value(g, Elems(space[space[i].father].S), goals), h)
  }

  /** The states of a search. */
  ghost function Reached(root: set<nat>, space: seq<EhcNode>, n: nat): set<set<nat>>
    requires n <= |space|
  {
    {root} + set i | 0 <= i < n :: Elems(space[i].S)
  }

  /** A search that found nothing: whatever the helpful operators of the start lead to was reached, and every
      node reached was dismissed. */
  ghost predicate InVain(g: Graph, root: set<nat>, space: seq<EhcNode>, n: nat, goals: seq<nat>, h: int) {
    && NodesOk(g, root, space, n) && Value(g, root, goals) == h
    && (forall o :: o in HelpfulOps(g, root, goals) && o < |g.ops| ==> g.Result(o, root) in Reached(root, space, n))
    && AllDismissed(g, Reached(root, space, n), goals, space, n, h)
  }

  lemma MembersAreReached(g: Graph, root: set<nat>, space: seq<EhcNode>, n: nat, members: set<set<nat>>)
    requires EhcSpaceOk(g, root, space, n, members)
    ensures members <= Reached(root, space, n)
  {
    forall X | X in members
      ensures X in Reached(root, space, n)
    {
      if X != root {
        var i :| 0 <= i < n && Elems(space[i].S) == X;
      }
    }
  }

  lemma DismissedKept(g: Graph, M: set<set<nat>>, M': set<set<nat>>, goals: seq<nat>, space: seq<EhcNode>,
                      space': seq<EhcNode>, k: nat, h: int)
    requires k <= |space| && k <= |space'| && space'[..k] == space[..k] && M <= M'
    requires AllDismissed(g, M, goals, space, k, h)
    ensures AllDismissed(g, M', goals, space', k, h)
  {
    hide RelaxedUnreachable, Value, RelaxedPlan, HelpfulOps, Graph.Result, Elems;
    forall i | 0 <= i < k
      ensures Dismissed(g, M', goals, space'[i], h)
    {
      assert space'[i] == space'[..k][i] && space[i] == space[..k][i];
      assert Dismissed(g, M, goals, space[i], h);
    }
  }

  lemma FathersKept(g: Graph, space: seq<EhcNode>, space': seq<EhcNode>, n: nat, n': nat, father: int, goals: seq<nat>, h: int)
    requires n <= n' <= |space'| && n <= |space| && space'[..n] == space[..n] && FathersAbove(g, space, n, goals, h)
    requires -1 <= father < n && forall i :: n <= i < n' ==> space'[i].father == father
    requires father >= 0 ==> !Less(Value(g, Elems(space[father].S), goals), h)
    ensures FathersAbove(g, space', n', goals, h)
  {
    hide Value, Elems, Less;
    forall i | 0 <= i < n' && 0 <= space'[i].father < i
      ensures !Less(Value(g, Elems(space'[space'[i].father].S), goals), h)
    {
      if i < n {
        assert space'[i] == space'[..n][i] && space[i] == space[..n][i];
        assert space'[..n][space[i].father] == space[..n][space[i].father];
      } else {
        assert space'[..n][father] == space[..n][father];
      }
    }
  }

  // ---- values along the plan

  /** No state that was ever part of the plan has a value below `h`. */
  ghost predicate Above(g: Graph, es: seq<PlanEntry>, goals: seq<nat>, h: int) {
    forall i :: 0 <= i < |es| ==> !Less(Value(g, Elems(es[i].S), goals), h)
  }

  /** The last plan state has no link. */
  ghost predicate Untied(es: seq<PlanEntry>, live: seq<nat>) {
    live != [] && live[|live| - 1] < |es| && es[live[|live| - 1]].next == NULL
  }

  /** The values of the plan states have been falling to `h`, so that each end of the plan was new. */
  ghost predicate Falling(g: Graph, es: seq<PlanEntry>, live: seq<nat>, goals: seq<nat>, h: int) {
    Above(g, es, goals, h) && Untied(es, live)
  }

  ghost predicate SameStates(es: seq<PlanEntry>, es': seq<PlanEntry>) {
    |es'| == |es| && forall i :: 0 <= i < |es| ==> es'[i].S == es[i].S
  }

  lemma CutStates(es: seq<PlanEntry>, es': seq<PlanEntry>, c: int)
    requires LinksOk(es) && -1 <= c < |es| && IsCut(es, es', c)
    ensures SameStates(es, es')
  {
    hide Visited;
    assert forall i :: 0 <= i < |es| ==> es'[i].(step := es[i].step) == es[i];
  }

  lemma AboveAppend(g: Graph, es: seq<PlanEntry>, es': seq<PlanEntry>, last: nat, id: nat, step: nat, X: set<nat>,
                    goals: seq<nat>, h: int)
    requires IsAppend(es, es', last, id, step) && Elems(es'[id].S) == X && Above(g, es, goals, h)
    ensures !Less(Value(g, X, goals), h) ==> Above(g, es', goals, h)
    ensures Less(Value(g, X, goals), h) ==> es'[id].next == NULL && Above(g, es', goals, Value(g, X, goals))
  {
    hide Value, Elems;
    forall i | 0 <= i < |es'| && i != id
      ensures i < |es| && es'[i].S == es[i].S
    {
    }
    assert id < |es| ==> es'[id].S == es[id].S;
  }

  /** The nodes of a path but the first one are fathers. */
  lemma PathAbove(g: Graph, root: set<nat>, space: seq<EhcNode>, n: nat, path: seq<nat>, stop: int, goals: seq<nat>, h: int)
    requires NodesOk(g, root, space, n) && Below(path, n) && PathOk(space, path, stop) && FathersAbove(g, space, n, goals, h)
    ensures forall j :: 1 <= j < |path| ==> !Less(Value(g, Elems(space[path[j]].S), goals), h)
  {
    hide NodesOk, Value, Elems;
    forall j | 1 <= j < |path|
      ensures !Less(Value(g, Elems(space[path[j]].S), goals), h)
    {
      NodeAbove(g, root, space, n, path, stop, j - 1);
      NodeAfterIs(path, j - 1, stop);
      assert space[path[j - 1]].father == NodeAfter(path, j - 1, stop);
    }
  }

  lemma AboveKept(g: Graph, es: seq<PlanEntry>, es': seq<PlanEntry>, goals: seq<nat>, h: int)
    requires SameStates(es, es') && Above(g, es, goals, h)
    ensures Above(g, es', goals, h)
  {
    hide Value, Elems;
  }

  lemma LastEntry(g: Graph, es: seq<PlanEntry>, live: seq<nat>, states: seq<seq<nat>>, goals: seq<nat>, h: int)
    requires Matches(g, es, live, states) && live != [] && Above(g, es, goals, h)
    ensures !Less(Value(g, Elems(states[|states| - 1]), goals), h)
  {
    hide Value;
    assert Elems(es[live[|live| - 1]].S) == Elems(states[|states| - 1]);
  }

  lemma StartFalls(g: Graph, es: seq<PlanEntry>, live: seq<nat>, init: seq<nat>)
    requires |es| == 1 && es[0].S == init && es[0].next == NULL && live == [0]
    ensures forall goals :: Falling(g, es, live, goals, Value(g, Elems(init), goals))
  {
    hide Value, Elems;
  }

  lemma NothingDismissed(g: Graph, M: set<set<nat>>, goals: seq<nat>, space: seq<EhcNode>, h: int)
    ensures AllDismissed(g, M, goals, space, 0, h)
  {
  }

  lemma OneMoreDismissed(g: Graph, M: set<set<nat>>, goals: seq<nat>, space: seq<EhcNode>, k: nat, h: int)
    requires k < |space| && AllDismissed(g, M, goals, space, k, h) && Dismissed(g, M, goals, space[k], h)
    ensures AllDismissed(g, M, goals, space, k + 1, h)
  {
    hide Dismissed;
  }

  lemma ExpandedIsDismissed(g: Graph, M: set<set<nat>>, goals: seq<nat>, n: EhcNode, h: int, H: seq<nat>)
    requires !Less(Value(g, Elems(n.S), goals), h) && H == HelpfulOps(g, Elems(n.S), goals)
    requires forall o :: o in H ==> o < |g.ops| && g.Result(o, Elems(n.S)) in M
    ensures Dismissed(g, M, goals, n, h)
  {
    hide Value, RelaxedPlan, HelpfulOps, Graph.Result;
  }

  /** The nodes from `from` to `to` are sons of `father` by some of the first `n` operators of `H`, in the order of `H`. */
  ghost predicate SonsInOrder(space: seq<EhcNode>, from: nat, to: nat, father: int, H: seq<nat>, n: nat)
    requires to <= |space|
  {
    && n <= |H| && (forall j :: from <= j < to ==> space[j].father == father && space[j].op in H[..n])
    && forall k, j :: from <= k < j < to ==> SeenBefore(H, space[k].op, space[j].op)
  }

  lemma NoSons(space: seq<EhcNode>, n: nat, father: int, H: seq<nat>)
    requires n <= |space|
    ensures SonsInOrder(space, n, n, father, H, 0)
  {
  }

  lemma SonsStep(space: seq<EhcNode>, space': seq<EhcNode>, from: nat, to: nat, to': nat, father: int, H: seq<nat>, n: nat)
    requires from <= to <= |space| && to <= to' <= |space'| && to' <= to + 1 && space'[..to] == space[..to]
    requires n < |H| && Distinct(H) && SonsInOrder(space, from, to, father, H, n)
    requires forall j :: to <= j < to' ==> space'[j].father == father && space'[j].op == H[n]
    ensures SonsInOrder(space', from, to', father, H, n + 1)
  {
    hide SeenBefore;
    assert H[..n + 1] == H[..n] + [H[n]];
    assert forall j :: 0 <= j < to ==> space'[..to][j] == space'[j] && space[..to][j] == space[j];
    forall k, j | from <= k < j < to'
      ensures SeenBefore(H, space'[k].op, space'[j].op)
    {
      if j == to {
        SeenAt(H, n, space[k].op);
      }
    }
  }

  lemma SamePrefixes(a: seq<EhcNode>, b: seq<EhcNode>, c: seq<EhcNode>, m: nat, n: nat)
    requires m <= n && m <= |a| && n <= |b| && n <= |c| && b[..m] == a[..m] && c[..n] == b[..n]
    ensures c[..m] == a[..m]
  {
    assert c[..m] == c[..n][..m] && b[..m] == b[..n][..m];
  }

  lemma SamePrefix(space: seq<EhcNode>, space': seq<EhcNode>, n: nat, k: nat)
    requires k < n <= |space| && n <= |space'| && space'[..n] == space[..n]
    ensures space'[..k] == space[..k] && space'[k] == space[k]
  {
    assert space'[k] == space'[..n][k] && space[k] == space[..n][k];
    assert space'[..k] == space'[..n][..k] && space[..k] == space[..n][..k];
  }

  class Climber {
    const g: Graph
    const rx: Relaxation
    const tr: Transitions
    const table: RecycledTable
    const plan: CurrentPlan
    var space: seq<EhcNode>
    var curStart: nat
    var curEnd: nat
    var gmaxSearchDepth: nat

    /** The evaluation and the transitions are ready for the next call. */
    ghost predicate PartsOk()
      reads rx, rx.ft, rx.ef, rx.fp, rx.inPlan, rx.om, tr.Frame(), table.Frame()
    {
      && rx.g == g && tr.g == g && table.g == g && plan.g == g
      && rx.inPlan !in tr.Frame() && table.isChanged !in tr.Frame() && table.isChanged != rx.inPlan
      && rx.Valid() && rx.PlanValid() && rx.Clean()
      && tr.Valid() && tr.Clean() && table.Valid()
    }

    /** The search below the state with the facts `root` is in order. */
    ghost predicate Searching(root: set<nat>)
      reads this, rx, rx.ft, rx.ef, rx.fp, rx.inPlan, rx.om, tr.Frame(), table.Frame()
    {
      && PartsOk() && g.WellFormed()
      && curStart <= curEnd <= |space| && EhcSpaceOk(g, root, space, curEnd, table.members)
    }

    constructor (g: Graph, init: seq<nat>)
      requires g.WellFormed() && StateOk(g, init)
      ensures this.g == g && PartsOk() && plan.Valid() && table.members == {}
      ensures plan.gplanOps == [] && plan.gplanStates == [init]
      ensures forall goals :: Falling(g, plan.entries, plan.live, goals, Value(g, Elems(init), goals))
      ensures fresh(rx) && fresh(rx.ft) && fresh(rx.ef) && fresh(rx.fp) && fresh(rx.inPlan) && fresh(rx.om)
      ensures fresh(tr.Frame()) && fresh(table.Frame()) && fresh(plan) && fresh(plan.heads)
    {
      hide Graph.WellFormed, Relaxation.Valid, Relaxation.PlanValid, Relaxation.Clean, Transitions.Valid,
        Transitions.Clean, RecycledTable.Valid, PlanOk, Value, Elems;
      this.g := g;
      var p := new CurrentPlan(g, init);
      StartFalls(g, p.entries, p.live, init);
      var b := new RecycledTable(g);
      var t := new Transitions(g);
      var r := new Relaxation(g);
      rx := r;
      tr := t;
      table := b;
      plan := p;
      space := [];
      curStart, curEnd, gmaxSearchDepth := 0, 0, 0;
    }

    /** add_to_ehc_space: a state that is new to this search takes the next node of the list. */
    method AddToEhcSpace(S: seq<nat>, op: nat, father: int, newGoal: int, ghost root: set<nat>)
      requires Searching(root) && StateOk(g, S) && -1 <= father < curEnd && newGoal >= -1
      requires g.Applicable(op, ParentState(root, space, father))
      requires Elems(S) == g.Result(op, ParentState(root, space, father))
      requires NewGoalOk(g, S, KeptFrom(g, op, ParentState(root, space, father)), newGoal)
      modifies this`space, this`curEnd, table.Frame()
      ensures Searching(root) && old(curEnd) <= curEnd && space[..old(curEnd)] == old(space[..curEnd])
      ensures old(table.members) <= table.members && Elems(S) in table.members
      ensures table.members == old(table.members) ==> curEnd == old(curEnd)
      ensures curEnd <= old(curEnd) + 1 && forall i :: old(curEnd) <= i < curEnd ==> space[i].father == father && space[i].op == op
    {
      hide Graph.EffectsOk, Graph.OpsOk, Graph.ImpliedOk, Graph.FactsOk, Relaxation.Valid, Relaxation.PlanValid,
        Relaxation.Clean, Transitions.Valid, Transitions.Clean, RecycledTable.Valid, Graph.Applicable, Graph.Result, EhcSpaceOk, NewGoalOk, KeptFrom;
      var known := table.Hashed(S);
      if known {
        return;
      }
      var depth := ParentDepth(space, father) + 1;
      var n := EhcNode(S, op, depth, father, newGoal);
      var next := if curEnd == |space| then space + [n] else space[curEnd := n];
      EhcStep(g, root, space, next, curEnd, table.members);
      assert next[..curEnd] == space[..curEnd];
      space := next;
      curEnd := curEnd + 1;
      table.Insert(S);
    }

    /** new_goal_gets_deleted: some effect of the relaxed plan deletes the goal that came in. */
    method NewGoalGetsDeleted(newGoal: int) returns (deleted: bool)
      requires PartsOk() && g.WellFormed()
      ensures deleted <==> exists e :: e in rx.ginPlanE && e < |g.efs| && newGoal in g.efs[e].D
    {
      for i := 0 to |rx.ginPlanE|
        invariant forall k :: 0 <= k < i ==> newGoal !in g.efs[rx.ginPlanE[k]].D
      {
        var dels := g.efs[rx.ginPlanE[i]].D;
        for j := 0 to |dels|
          invariant newGoal !in dels[..j]
        {
          assert dels[..j + 1] == dels[..j] + [dels[j]];
          if dels[j] == newGoal {
            return true;
          }
        }
        assert dels[..|dels|] == dels;
      }
      return false;
    }

    /** Apply one operator and add the state it leads to. */
    method AddSuccessor(S: seq<nat>, o: nat, father: int, ghost root: set<nat>)
      requires Searching(root) && StateOk(g, S) && -1 <= father < curEnd && Elems(S) == ParentState(root, space, father)
      requires g.Applicable(o, Elems(S))
      modifies this`space, this`curEnd, table.Frame(), tr.Frame()
      ensures Searching(root) && old(curEnd) <= curEnd && space[..old(curEnd)] == old(space[..curEnd])
      ensures old(table.members) <= table.members && o < |g.ops| && g.Result(o, Elems(S)) in table.members
      ensures table.members == old(table.members) ==> curEnd == old(curEnd)
      ensures curEnd <= old(curEnd) + 1 && forall i :: old(curEnd) <= i < curEnd ==> space[i].father == father && space[i].op == o
    {
      hide Graph.EffectsOk, Graph.OpsOk, Graph.ImpliedOk, Graph.FactsOk, Relaxation.Valid, Relaxation.PlanValid,
        Relaxation.Clean, Transitions.Clean, RecycledTable.Valid, Graph.Result, EhcSpaceOk, ResultList, KeptList, LastGoal, Graph.Fires, NewGoalOk;
      var dest, newGoal := tr.ResultToDest(S, o);
      AddToEhcSpace(dest, o, father, newGoal, root);
    }

    lemma HelpfulAreDistinct()
      requires PartsOk()
      ensures Distinct(rx.gH)
    {
    }

    /** Apply the helpful operators of the last evaluation and add what they lead to. */
    method AddHelpful(S: seq<nat>, father: int, ghost root: set<nat>)
      requires Searching(root) && StateOk(g, S) && -1 <= father < curEnd && Elems(S) == ParentState(root, space, father)
      requires forall o :: o in rx.gH ==> g.Applicable(o, Elems(S))
      modifies this`space, this`curEnd, table.Frame(), tr.Frame()
      ensures Searching(root) && old(curEnd) <= curEnd && space[..old(curEnd)] == old(space[..curEnd])
      ensures old(table.members) <= table.members
      ensures forall o :: o in rx.gH ==> o < |g.ops| && g.Result(o, Elems(S)) in table.members
      ensures table.members == old(table.members) ==> curEnd == old(curEnd)
      ensures curEnd <= |space| && SonsInOrder(space, old(curEnd), curEnd, father, rx.gH, |rx.gH|)
    {
      hide Climber.PartsOk, Graph.WellFormed, EhcSpaceOk, Graph.Applicable, Graph.Result, ParentState, SonsInOrder;
      HelpfulAreDistinct();
      NoSons(space, curEnd, father, rx.gH);
      for i := 0 to |rx.gH|
        invariant Searching(root) && old(curEnd) <= curEnd && space[..old(curEnd)] == old(space[..curEnd])
        invariant old(table.members) <= table.members
        invariant forall k :: 0 <= k < i ==> rx.gH[k] < |g.ops| && g.Result(rx.gH[k], Elems(S)) in table.members
        invariant table.members == old(table.members) ==> curEnd == old(curEnd)
        invariant curEnd <= |space| && SonsInOrder(space, old(curEnd), curEnd, father, rx.gH, i)
        modifies this`space, this`curEnd, table.Frame(), tr.Frame()
      {
        ghost var space0, end0 := space, curEnd;
        ParentKept(root, old(space), space, old(curEnd), father);
        AddSuccessor(S, rx.gH[i], father, root);
        SonsStep(space0, space, old(curEnd), end0, curEnd, father, rx.gH, i);
        SamePrefixes(old(space), space0, space, old(curEnd), end0);
      }
    }

    /** get_1P_and_H of a state. */
    method Evaluate(S: seq<nat>, goals: seq<nat>) returns (h: int)
      requires PartsOk() && g.WellFormed() && g.IsList(S) && g.IsList(goals)
      modifies rx, rx.ft, rx.ef, rx.fp, rx.inPlan, rx.om
      ensures PartsOk() && Trustworthy(g, Elems(S), Elems(goals), h) && h >= -1
      ensures h != INFINITY ==> forall o :: o in rx.gH ==> g.Applicable(o, Elems(S))
      ensures h == Value(g, Elems(S), goals)
      ensures h != INFINITY ==> rx.ginPlanE == RelaxedPlan(g, Elems(S), goals) && rx.gH == HelpfulOps(g, Elems(S), goals)
    {
      hide Graph.EffectsOk, Graph.OpsOk, Graph.ImpliedOk, Graph.FactsOk, Relaxation.PlanValid, Relaxation.Clean,
        Transitions.Clean, Transitions.Valid, RecycledTable.Valid, Graph.Applicable, Extracted, Built,
        HelpfulOk, RelaxedUnreachable, Useful, Value, RelaxedPlan, HelpfulOps, FinalWork, Marks;
      ghost var levels, marks, time;
      h, levels, marks, time := rx.Get1P(S, goals, true);
      if h != INFINITY {
        AllUseful(g, Elems(S), rx.gH);
      }
    }

    /** The value of the first node of the search space. */
    method EvaluateFirst(goals: seq<nat>, ghost root: set<nat>) returns (h: int)
      requires Searching(root) && curStart < curEnd && g.IsList(goals)
      modifies rx, rx.ft, rx.ef, rx.fp, rx.inPlan, rx.om
      ensures Searching(root) && table.members == old(table.members)
      ensures Trustworthy(g, Elems(space[curStart].S), Elems(goals), h)
      ensures h != INFINITY ==> forall o :: o in rx.gH ==> g.Applicable(o, Elems(space[curStart].S))
      ensures h == Value(g, Elems(space[curStart].S), goals)
      ensures h != INFINITY ==>
        rx.ginPlanE == RelaxedPlan(g, Elems(space[curStart].S), goals) && rx.gH == HelpfulOps(g, Elems(space[curStart].S), goals)
      ensures StateOk(g, space[curStart].S) && PartsOk() && g.WellFormed() && curEnd <= |space|
    {
      hide Graph.WellFormed, Relaxation.Valid, Relaxation.PlanValid, Relaxation.Clean, Transitions.Clean, Transitions.Valid,
        RecycledTable.Valid, Graph.Applicable, EhcSpaceOk, Trustworthy, Value, RelaxedPlan, HelpfulOps;
      NodeOfSpace(g, root, space, curEnd, table.members, curStart);
      h := Evaluate(space[curStart].S, goals);
    }

    /** The first node is left behind. */
    method LeaveFirst(ghost root: set<nat>)
      requires Searching(root) && curStart < curEnd
      modifies this`curStart
      ensures Searching(root) && curStart == old(curStart) + 1
    {
      hide Graph.WellFormed, Relaxation.Valid, Relaxation.PlanValid, Relaxation.Clean, Transitions.Valid,
        Transitions.Clean, RecycledTable.Valid, EhcSpaceOk;
      curStart := curStart + 1;
    }

    /** Whether the node is left behind without successors: as a dead end, or because its relaxed plan
        deletes the goal that came in. */
    method IsDropped(n: EhcNode, h: int, ghost goals: seq<nat>) returns (drop: bool)
      requires PartsOk() && g.WellFormed() && Trustworthy(g, Elems(n.S), Elems(goals), h)
      requires h != INFINITY ==> rx.ginPlanE == RelaxedPlan(g, Elems(n.S), goals)
      ensures drop ==> forall M, b :: Dismissed(g, M, goals, n, b)
      ensures !drop ==> h != INFINITY
      ensures !drop ==> KeepsNewGoal(g, goals, n)
    {
      hide Value, RelaxedPlan, HelpfulOps;
      drop := h == INFINITY;
      if !drop && n.newGoal != -1 {
        drop := NewGoalGetsDeleted(n.newGoal);
      }
    }

    /** The first node is left behind with its successors by helpful operators. */
    method TryHelpful(ghost h: nat, ghost goals: seq<nat>, ghost root: set<nat>)
      requires Searching(root) && curStart < curEnd <= |space| && StateOk(g, space[curStart].S)
      requires AllDismissed(g, table.members, goals, space, curStart, h) && FathersAbove(g, space, curEnd, goals, h)
      requires !Less(Value(g, Elems(space[curStart].S), goals), h) && rx.gH == HelpfulOps(g, Elems(space[curStart].S), goals)
      requires forall o :: o in rx.gH ==> g.Applicable(o, Elems(space[curStart].S))
      modifies this`space, this`curStart, this`curEnd, table.Frame(), tr.Frame()
      ensures Searching(root) && old(table.members) <= table.members && curStart == old(curStart) + 1 <= curEnd <= |space|
      ensures table.members == old(table.members) ==> curEnd == old(curEnd)
      ensures AllDismissed(g, table.members, goals, space, curStart, h) && FathersAbove(g, space, curEnd, goals, h)
    {
      hide Climber.Searching, Climber.PartsOk, Graph.WellFormed, Graph.Applicable, Graph.Result, Dismissed, AllDismissed,
        FathersAbove, Value, HelpfulOps;
      var n := space[curStart];
      ghost var space0, end0, members0 := space, curEnd, table.members;
      AddHelpful(n.S, curStart, root);
      ExpandedIsDismissed(g, table.members, goals, n, h, rx.gH);
      FathersKept(g, space0, space, end0, curEnd, curStart, goals, h);
      SamePrefix(space0, space, end0, curStart);
      DismissedKept(g, members0, table.members, goals, space0, space, curStart, h);
      OneMoreDismissed(g, table.members, goals, space, curStart, h);
      LeaveFirst(root);
    }

    /** expand_first_node: the value of the first node if it is better than `h`; else the node is
        left behind, with its successors added unless it is a dead end or its relaxed plan deletes
        the goal that came in. */
    method ExpandFirstNode(h: nat, goals: seq<nat>, ghost root: set<nat>) returns (h': int)
      requires Searching(root) && curStart < curEnd <= |space| && g.IsList(goals)
      requires AllDismissed(g, table.members, goals, space, curStart, h) && FathersAbove(g, space, curEnd, goals, h)
      modifies this`space, this`curStart, this`curEnd, rx, rx.ft, rx.ef, rx.fp, rx.inPlan, rx.om, table.Frame(), tr.Frame()
      ensures Searching(root) && old(table.members) <= table.members
      ensures if Less(h', h) then
                && curStart == old(curStart) && curEnd == old(curEnd) && space == old(space)
                && Trustworthy(g, Elems(space[curStart].S), Elems(goals), h')
                && h' == Value(g, Elems(space[curStart].S), goals) && rx.gH == HelpfulOps(g, Elems(space[curStart].S), goals)
                && KeepsNewGoal(g, goals, space[curStart])
                && forall o :: o in rx.gH ==> g.Applicable(o, Elems(space[curStart].S))
              else
                && curStart == old(curStart) + 1
                && (table.members == old(table.members) ==> curEnd == old(curEnd))
      ensures curStart <= curEnd <= |space|
      ensures AllDismissed(g, table.members, goals, space, curStart, h) && FathersAbove(g, space, curEnd, goals, h)
    {
      hide Climber.Searching, Climber.PartsOk, Graph.WellFormed, Graph.Applicable, Graph.Result, Trustworthy, Dismissed,
        AllDismissed, FathersAbove, Value, RelaxedPlan, HelpfulOps, KeepsNewGoal;
      h' := EvaluateFirst(goals, root);
      var n := space[curStart];
      var drop := IsDropped(n, h', goals);
      if drop {
        OneMoreDismissed(g, table.members, goals, space, curStart, h);
        LeaveFirst(root);
        return INFINITY;
      }
      if h' < h {
        return;
      }
      TryHelpful(h, goals, root);
    }

    /** The search space of the state `S` alone, with its helpful successors. */
    method StartSearch(S: seq<nat>)
      requires PartsOk() && g.WellFormed() && StateOk(g, S) && table.members == {}
      requires forall o :: o in rx.gH ==> g.Applicable(o, Elems(S))
      modifies this`space, this`curStart, this`curEnd, table.Frame(), tr.Frame()
      ensures Searching(Elems(S)) && curStart == 0 && curEnd <= |space| && forall i :: 0 <= i < curEnd ==> space[i].father == -1
      ensures forall o :: o in rx.gH ==> o < |g.ops| && g.Result(o, Elems(S)) in table.members
    {
      hide Graph.EffectsOk, Graph.OpsOk, Graph.ImpliedOk, Graph.FactsOk, Relaxation.Valid, Relaxation.PlanValid,
        Relaxation.Clean, Transitions.Clean, Transitions.Valid, RecycledTable.Valid, Graph.Applicable;
      table.Insert(S);
      curStart, curEnd := 0, 0;
      AddHelpful(S, -1, Elems(S));
      curStart := 0;
    }

    /** Walk back along the fathers to the first state that is part of the plan, if there is one. */
    method WalkBack(ghost root: set<nat>) returns (path: seq<nat>, id: int, ghost join: int)
      requires plan.Valid() && plan.g == g && NodesOk(g, root, space, curEnd) && curStart < curEnd
      ensures Below(path, curEnd) && PathOk(space, path, join) && -1 <= join < curEnd
      ensures if path == [] then join == curStart else path[0] == curStart
      ensures Fresh(space, path, plan.gplanStates)
      ensures id == NULL ==> join == -1
      ensures id != NULL ==>
        && join >= 0 && 0 <= id < |plan.entries| && 0 <= plan.entries[id].step < |plan.live|
        && plan.live[plan.entries[id].step] == id
        && Elems(plan.gplanStates[plan.entries[id].step]) == Elems(space[join].S)
    {
      hide Graph.Applicable, Graph.Result, EntriesOk, HeadsOk, Grounded, LinksOk, PathOk, Fresh;
      path, id := [], NULL;
      PathEmpty(space, curStart, plan.gplanStates);
      var i: int := curStart;
      while i != -1
        invariant id == NULL && -1 <= i < curEnd && Below(path, curEnd) && PathOk(space, path, i)
        invariant if path == [] then i == curStart else path[0] == curStart
        invariant Fresh(space, path, plan.gplanStates)
        decreases i
        modifies {}
      {
        assert EhcNodeOk(g, root, space, i);
        id := plan.PlanStateHashed(space[i].S);
        if id != NULL {
          join := i;
          return;
        }
        PathExtend(space, path, i);
        FreshExtend(space, path, plan.gplanStates, i);
        path := path + [i];
        i := space[i].father;
      }
      join := -1;
    }

    /** The entry of the state the plan ends in. */
    method FindLast(S: seq<nat>) returns (start: nat)
      requires plan.Valid() && plan.g == g && StateOk(g, S)
      requires |plan.gplanStates| == |plan.gplanOps| + 1 && Elems(S) == Elems(plan.gplanStates[|plan.gplanOps|])
      ensures plan.live != [] && start == plan.live[|plan.live| - 1]
    {
      hide Graph.Applicable, Graph.Result, EntriesOk, HeadsOk, Grounded;
      var last := plan.PlanStateHashed(S);
      assert last != NULL;
      return last;
    }

    lemma UntiedEnds()
      requires plan.Valid()
      ensures LinksOk(plan.entries) && (Untied(plan.entries, plan.live) ==> !plan.LinksBack())
    {
      if Untied(plan.entries, plan.live) {
        NoLinkNoWay(plan.entries, plan.live);
      }
    }

    lemma PlanSizes()
      requires plan.Valid()
      ensures |plan.gplanStates| == |plan.gplanOps| + 1 == |plan.live|
      ensures forall k :: 0 <= k < |plan.live| ==> plan.live[k] < |plan.entries|
    {
    }

    /** The first part of extract_plan_fragment: cut the plan at the state found on the way back,
        or else join it at its end. `start` is the entry of its last state then. */
    method FindJoin(S: seq<nat>) returns (ends: bool, path: seq<nat>, start: nat, ghost join: int)
      requires plan.Valid() && plan.g == g && StateOk(g, S) && Elems(S) == Elems(plan.gplanStates[|plan.gplanOps|])
      requires NodesOk(g, Elems(S), space, curEnd) && curStart < curEnd
      modifies plan`entries, plan`gplanOps, plan`gplanStates, plan`live
      ensures Below(path, curEnd) && PathOk(space, path, join) && -1 <= join < curEnd
      ensures if path == [] then join == curStart else path[0] == curStart
      ensures plan.Valid() && (!ends ==> plan.LinksBack()) && plan.gplanStates[0] == old(plan.gplanStates)[0]
      ensures SameStates(old(plan.entries), plan.entries) && (old(Untied(plan.entries, plan.live)) ==> ends)
      ensures !ends ==> plan.gplanStates == old(plan.gplanStates)
      ensures ends ==>
        && start == plan.live[|plan.live| - 1]
        && Elems(plan.gplanStates[|plan.gplanOps|]) == ParentState(Elems(S), space, join)
        && Fresh(space, path, plan.gplanStates)
    {
      hide CurrentPlan.Valid, LeadsBack, PathOk, Fresh, EhcNodeOk, Graph.Applicable, Graph.Result, IsCut;
      var id;
      PlanSizes();
      UntiedEnds();
      ghost var es := plan.entries;
      path, id, join := WalkBack(Elems(S));
      ends := true;
      if id != NULL {
        start := id;
        FreshPrefix(space, path, plan.gplanStates, plan.entries[id].step + 1);
        ends := plan.CutBack(id);
        if ends {
          CutStates(es, plan.entries, es[id].next);
        }
      } else {
        start := FindLast(S);
      }
    }

    /** The facts of the last plan state while the nodes of the path from the `j`-th on are in the plan. */
    ghost function JoinState(path: seq<nat>, j: nat, join: int, root: set<nat>): set<nat>
      requires Below(path, |space|) && j <= |path| && -1 <= join < |space|
      reads this`space
    {
      if j == |path| then ParentState(root, space, join) else Elems(space[path[j]].S)
    }

    method AppendNode(path: seq<nat>, j: nat, start: nat, ghost join: int, ghost root: set<nat>) returns (next: nat)
      requires plan.Valid() && plan.g == g && start == plan.live[|plan.live| - 1] && j < |path|
      requires NodesOk(g, root, space, curEnd) && Below(path, curEnd) && PathOk(space, path, join) && -1 <= join < curEnd
      requires Elems(plan.gplanStates[|plan.gplanOps|]) == JoinState(path, j + 1, join, root)
      requires Fresh(space, path[..j + 1], plan.gplanStates)
      modifies plan, plan.heads
      ensures plan.Valid() && plan.live == old(plan.live) + [next] && plan.gplanStates[0] == old(plan.gplanStates)[0]
      ensures Elems(plan.gplanStates[|plan.gplanOps|]) == JoinState(path, j, join, root)
      ensures Fresh(space, path[..j], plan.gplanStates)
      ensures IsAppend(old(plan.entries), plan.entries, start, next, |old(plan.gplanOps)| + 1)
      ensures Elems(plan.entries[next].S) == Elems(space[path[j]].S)
    {
      hide Graph.Applicable, Graph.Result, EntriesOk, HeadsOk, Grounded, LinksOk, Fresh, NoRepeats, Matches, IsAppend;
      var n := space[path[j]];
      AppendFacts(g, root, space, curEnd, path, join, plan.gplanStates, j);
      FreshStep(g, root, space, curEnd, path, join, plan.gplanStates, j);
      next := plan.Append(start, n.S, n.op);
    }

    /** The path ends in the first node below `h`, above which everything else has been. */
    ghost predicate EndsBelow(path: seq<nat>, goals: seq<nat>, h: int)
      requires Below(path, |space|)
      reads this`space, plan`entries
    {
      && path != [] && Above(g, plan.entries, goals, h) && Less(Value(g, Elems(space[path[0]].S), goals), h)
      && forall j :: 1 <= j < |path| ==> !Less(Value(g, Elems(space[path[j]].S), goals), h)
    }

    lemma SpaceSize(root: set<nat>)
      requires NodesOk(g, root, space, curEnd)
      ensures curEnd <= |space|
    {
    }

    lemma LastIsBelow()
      requires plan.Valid()
      ensures plan.live != [] && plan.live[|plan.live| - 1] < |plan.entries|
    {
    }

    /** The second part of extract_plan_fragment: build the path into the plan, forwards. */
    method AppendPath(path: seq<nat>, first: nat, ghost join: int, ghost root: set<nat>, ghost goals: seq<nat>, ghost h: int)
      requires plan.Valid() && plan.g == g && first == plan.live[|plan.live| - 1]
      requires NodesOk(g, root, space, curEnd) && Below(path, curEnd) && PathOk(space, path, join) && -1 <= join < curEnd
      requires Elems(plan.gplanStates[|plan.gplanOps|]) == ParentState(root, space, join)
      requires Fresh(space, path, plan.gplanStates)
      modifies plan, plan.heads
      ensures plan.Valid() && plan.gplanStates[0] == old(plan.gplanStates)[0]
      ensures Elems(plan.gplanStates[|plan.gplanOps|]) ==
              if path == [] then ParentState(root, space, join) else Elems(space[path[0]].S)
      ensures old(EndsBelow(path, goals, h)) ==>
        Falling(g, plan.entries, plan.live, goals, Value(g, Elems(space[path[0]].S), goals))
    {
      hide Graph.Applicable, Graph.Result, EntriesOk, HeadsOk, Grounded, Fresh, NoRepeats, Matches, EhcNodeOk, IsAppend, Value,
        PlanOk, Elems, NodesOk, PathOk, Above;
      var start := first;
      PlanSizes();
      SpaceSize(root);
      assert path[..|path|] == path;
      ghost var falls := EndsBelow(path, goals, h);
      for j := |path| downto 0
        invariant plan.Valid() && plan.live != [] && start == plan.live[|plan.live| - 1]
        invariant |plan.gplanStates| == |plan.gplanOps| + 1
        invariant plan.gplanStates[0] == old(plan.gplanStates)[0]
        invariant falls && j > 0 ==> Above(g, plan.entries, goals, h)
        invariant falls && j == 0 ==> Falling(g, plan.entries, plan.live, goals, Value(g, Elems(space[path[0]].S), goals))
        invariant Elems(plan.gplanStates[|plan.gplanOps|]) == JoinState(path, j, join, root)
        invariant Fresh(space, path[..j], plan.gplanStates)
        modifies plan, plan.heads
      {
        ghost var es, last, step := plan.entries, start, |plan.gplanOps| + 1;
        start := AppendNode(path, j, start, join, root);
        if falls {
          AboveAppend(g, es, plan.entries, last, start, step, Elems(space[path[j]].S), goals, h);
        }
        PlanSizes();
        LastIsBelow();
      }
    }

    /** extract_plan_fragment: the plan now ends in the state of the first node, reached from the
        state where the way back met the plan. */
    method ExtractPlanFragment(S: seq<nat>, ghost goals: seq<nat>, ghost h: int) returns (ends: bool)
      requires plan.Valid() && plan.g == g && StateOk(g, S) && Elems(S) == Elems(plan.gplanStates[|plan.gplanOps|])
      requires NodesOk(g, Elems(S), space, curEnd) && curStart < curEnd
      requires FathersAbove(g, space, curEnd, goals, h) && Less(Value(g, Elems(space[curStart].S), goals), h)
      modifies plan, plan.heads
      ensures plan.Valid() && plan.gplanStates[0] == old(plan.gplanStates)[0]
      ensures ends ==> Elems(plan.gplanStates[|plan.gplanOps|]) == Elems(space[curStart].S)
      ensures !ends ==> plan.LinksBack()
      ensures old(Falling(g, plan.entries, plan.live, goals, h)) ==>
        ends && Falling(g, plan.entries, plan.live, goals, Value(g, Elems(space[curStart].S), goals))
    {
      hide Graph.Applicable, Graph.Result, EntriesOk, HeadsOk, Grounded, CurrentPlan.LinksBack, Fresh, PathOk, Value, PlanOk,
        Elems, NodesOk, FathersAbove, Untied, IsAppend;
      ghost var es := plan.entries;
      var path, start;
      ghost var join;
      ends, path, start, join := FindJoin(S);
      if ends {
        ghost var root := Elems(S);
        PlanSizes();
        SpaceSize(root);
        if Above(g, es, goals, h) {
          AboveKept(g, es, plan.entries, goals, h);
          PathIsThere(path, join, root, goals, h);
          PathAbove(g, root, space, curEnd, path, join, goals, h);
        }
        AppendPath(path, start, join, root, goals, h);
      }
    }

    /** A state below all plan states is not in the plan. */
    lemma PathIsThere(path: seq<nat>, join: int, root: set<nat>, goals: seq<nat>, h: int)
      requires plan.Valid() && plan.g == g && curStart < |space| && -1 <= join < |space| && (path == [] ==> join == curStart)
      requires |plan.gplanStates| == |plan.gplanOps| + 1
      requires Elems(plan.gplanStates[|plan.gplanOps|]) == ParentState(root, space, join)
      requires Above(g, plan.entries, goals, h) && Less(Value(g, Elems(space[curStart].S), goals), h)
      ensures path != []
    {
      LastEntry(g, plan.entries, plan.live, plan.gplanStates, goals, h);
    }

    /** The plan ends in the state `S`. */
    ghost predicate PlanEndsIn(S: seq<nat>)
      reads plan, plan.heads
    {
      plan.Valid() && plan.g == g && StateOk(g, S) && Elems(S) == Elems(plan.gplanStates[|plan.gplanOps|])
    }

    lemma EndOfPlan()
      requires PartsOk() && plan.Valid()
      ensures |plan.gplanStates| == |plan.gplanOps| + 1 && PlanEndsIn(plan.gplanStates[|plan.gplanOps|])
    {
    }

    lemma PlanIsPlan(goals: set<nat>)
      requires PartsOk() && plan.Valid()
      requires |plan.gplanStates| == |plan.gplanOps| + 1 && goals <= Elems(plan.gplanStates[|plan.gplanOps|])
      ensures IsPlan(g, Elems(plan.gplanStates[0]), goals, plan.gplanOps, plan.gplanStates)
    {
    }

    /** Ready for the next search: the helpful operators can be applied in `S`. */
    ghost predicate Ready(S: seq<nat>, goals: seq<nat>, h: int)
      reads rx, rx.ft, rx.ef, rx.fp, rx.inPlan, rx.om, tr.Frame(), table.Frame()
    {
      && PartsOk() && g.WellFormed() && table.members == {} && g.IsList(goals)
      && Trustworthy(g, Elems(S), Elems(goals), h) && h >= 0
      && h == Value(g, Elems(S), goals) && rx.gH == HelpfulOps(g, Elems(S), goals)
      && forall o :: o in rx.gH ==> g.Applicable(o, Elems(S))
    }

    /** The breadth first search below the current start: a node whose value is smaller than `h`,
        or no more nodes. */
    method FindBetter(h: nat, goals: seq<nat>, ghost root: set<nat>) returns (h': int)
      requires Searching(root) && g.IsList(goals) && curStart <= curEnd <= |space|
      requires AllDismissed(g, table.members, goals, space, curStart, h) && FathersAbove(g, space, curEnd, goals, h)
      modifies this, rx, rx.ft, rx.ef, rx.fp, rx.inPlan, rx.om, table.Frame(), tr.Frame()
      ensures Searching(root) && old(table.members) <= table.members && curStart <= curEnd <= |space|
      ensures AllDismissed(g, table.members, goals, space, curStart, h) && FathersAbove(g, space, curEnd, goals, h)
      ensures !Less(h', h) ==> curStart == curEnd
      ensures Less(h', h) ==>
        && curStart < curEnd && Trustworthy(g, Elems(space[curStart].S), Elems(goals), h')
        && h' == Value(g, Elems(space[curStart].S), goals) && rx.gH == HelpfulOps(g, Elems(space[curStart].S), goals)
        && KeepsNewGoal(g, goals, space[curStart])
        && forall o :: o in rx.gH ==> g.Applicable(o, Elems(space[curStart].S))
    {
      hide Climber.Searching, Graph.WellFormed, Trustworthy, Graph.Applicable, Value, HelpfulOps, AllDismissed, FathersAbove;
      var depth := 0;
      while true
        invariant Searching(root) && old(table.members) <= table.members && curStart <= curEnd <= |space|
        invariant AllDismissed(g, table.members, goals, space, curStart, h) && FathersAbove(g, space, curEnd, goals, h)
        decreases Subsets(|g.fts|) - table.members, curEnd - curStart
        modifies this, rx, rx.ft, rx.ef, rx.fp, rx.inPlan, rx.om, table.Frame(), tr.Frame()
      {
        if curStart == curEnd {
          return INFINITY;
        }
        if space[curStart].depth > depth {
          depth := space[curStart].depth;
          NoteDepth(depth, root);
        }
        SearchedStates(root);
        h' := ExpandFirstNode(h, goals, root);
        SearchedStates(root);
        if Less(h', h) {
          return;
        }
      }
    }

    /** The search has come to nodes of this depth. */
    method NoteDepth(depth: nat, ghost root: set<nat>)
      requires Searching(root)
      modifies this`gmaxSearchDepth
      ensures Searching(root)
    {
      hide Graph.WellFormed, Relaxation.Valid, Relaxation.PlanValid, Relaxation.Clean, Transitions.Valid, Transitions.Clean,
        RecycledTable.Valid, EhcSpaceOk;
      if depth > gmaxSearchDepth {
        gmaxSearchDepth := depth;
      }
    }

    lemma SearchedStates(root: set<nat>)
      requires Searching(root)
      ensures table.members <= Subsets(|g.fts|)
    {
      MembersAreStates(g, root, space, curEnd, table.members);
    }

    lemma SpaceNodes(root: set<nat>)
      requires Searching(root)
      ensures NodesOk(g, root, space, curEnd)
    {
    }

    /** The end of a search: the table forgets its states. */
    method ForgetStates()
      requires PartsOk()
      modifies table.Frame()
      ensures PartsOk() && table.members == {}
    {
      hide Graph.WellFormed, Relaxation.Valid, Relaxation.PlanValid, Relaxation.Clean, Transitions.Valid,
        Transitions.Clean, RecycledTable.Valid;
      table.Reset();
    }

    /** One whole breadth first search from `S`; the table is empty again afterwards. */
    method BreadthFirst(S: seq<nat>, h: nat, goals: seq<nat>) returns (h': int)
      requires StateOk(g, S) && Ready(S, goals, h)
      modifies this, rx, rx.ft, rx.ef, rx.fp, rx.inPlan, rx.om, table.Frame(), tr.Frame()
      ensures PartsOk() && table.members == {}
      ensures !Less(h', h) ==> InVain(g, Elems(S), space, curEnd, goals, h)
      ensures Less(h', h) ==>
        && NodesOk(g, Elems(S), space, curEnd) && curStart < curEnd <= |space| && FathersAbove(g, space, curEnd, goals, h)
        && Ready(space[curStart].S, goals, h') && KeepsNewGoal(g, goals, space[curStart])
    {
      hide Graph.WellFormed, NodesOk, Trustworthy, Graph.Applicable, Climber.PartsOk, EhcSpaceOk, Value, HelpfulOps,
        AllDismissed, Graph.Result, Elems;
      ghost var root := Elems(S);
      StartSearch(S);
      ghost var M := table.members;
      NothingDismissed(g, M, goals, space, h);
      h' := FindBetter(h, goals, root);
      SpaceNodes(root);
      if Less(h', h) {
        ValueIsNatural(g, Elems(space[curStart].S), Elems(goals), h');
      } else {
        SearchedInVain(root, goals, h);
      }
      ForgetStates();
    }

    /** The search has used up its nodes. */
    lemma SearchedInVain(root: set<nat>, goals: seq<nat>, h: int)
      requires Searching(root) && curStart == curEnd && curEnd <= |space| && Value(g, root, goals) == h
      requires AllDismissed(g, table.members, goals, space, curEnd, h)
      requires forall o :: o in HelpfulOps(g, root, goals) && o < |g.ops| ==> g.Result(o, root) in table.members
      ensures InVain(g, root, space, curEnd, goals, h)
    {
      hide Climber.PartsOk, Value, HelpfulOps, Graph.Result, Elems, AllDismissed, Reached, Graph.WellFormed;
      MembersAreReached(g, root, space, curEnd, table.members);
      DismissedKept(g, table.members, Reached(root, space, curEnd), goals, space, space, curEnd, h);
    }

    /** search_for_better_state: extend or rebuild the plan so that it ends in a better state. */
    method SearchForBetterState(S: seq<nat>, h: nat, goals: seq<nat>) returns (outcome: Outcome, S': seq<nat>, h': int)
      requires PlanEndsIn(S) && Ready(S, goals, h)
      modifies this, rx, rx.ft, rx.ef, rx.fp, rx.inPlan, rx.om, table.Frame(), tr.Frame(), plan, plan.heads
      ensures plan.Valid() && plan.gplanStates[0] == old(plan.gplanStates)[0] && PartsOk() && table.members == {}
      ensures outcome == Endless ==> plan.LinksBack()
      ensures outcome == Failure ==>
        && InVain(g, Elems(S), space, curEnd, goals, h)
        && plan.gplanStates == old(plan.gplanStates) && plan.gplanOps == old(plan.gplanOps)
      ensures outcome == Success ==> PlanEndsIn(S') && Ready(S', goals, h') && h' < h
      ensures outcome == Success ==>
        && NodesOk(g, Elems(S), space, curEnd) && curStart < curEnd <= |space|
        && space[curStart].S == S' && KeepsNewGoal(g, goals, space[curStart])
      ensures old(Falling(g, plan.entries, plan.live, goals, h)) ==>
        outcome != Endless && (outcome == Success ==> Falling(g, plan.entries, plan.live, goals, h'))
    {
      hide Graph.WellFormed, NodesOk, Trustworthy, Graph.Applicable, Relaxation.Valid, Relaxation.PlanValid,
        Relaxation.Clean, Transitions.Valid, Transitions.Clean, RecycledTable.Valid, PlanOk, CurrentPlan.LinksBack,
        Value, HelpfulOps, InVain, FathersAbove, Falling;
      h' := BreadthFirst(S, h, goals);
      S' := S;
      if !Less(h', h) {
        return Failure, S, h';
      }
      NodeOfNodes(g, Elems(S), space, curEnd, curStart);
      S' := space[curStart].S;
      var ends := ExtractPlanFragment(S, goals, h);
      outcome := if ends then Success else Endless;
    }

    /** do_enforced_hill_climbing: improve step by step until the value is zero. As long as no state that
        was ever part of the plan has a value below that of the start, and the plan ends in an entry that
        is new, the removal of plan states always ends. */
    method DoEnforcedHillClimbing(start: seq<nat>, end: seq<nat>) returns (outcome: Outcome)
      requires PlanEndsIn(start) && PartsOk() && g.WellFormed() && g.IsList(end) && table.members == {}
      modifies this, rx, rx.ft, rx.ef, rx.fp, rx.inPlan, rx.om, table.Frame(), tr.Frame(), plan, plan.heads
      ensures plan.Valid() && plan.gplanStates[0] == old(plan.gplanStates)[0] && PartsOk() && table.members == {}
      ensures outcome == Success ==> Elems(end) <= Elems(plan.gplanStates[|plan.gplanOps|])
      ensures outcome == Failure ==> !(Elems(end) <= Elems(plan.gplanStates[|plan.gplanOps|]))
      ensures outcome == Failure ==> var X := Elems(plan.gplanStates[|plan.gplanOps|]);
        RelaxedUnreachable(g, X, Elems(end)) || InVain(g, X, space, curEnd, end, Value(g, X, end))
      ensures outcome == Endless ==> plan.LinksBack()
      ensures old(Falling(g, plan.entries, plan.live, end, Value(g, Elems(start), end))) ==> outcome != Endless
    {
      hide Graph.WellFormed, Graph.Applicable, Relaxation.Valid, Relaxation.PlanValid,
        Relaxation.Clean, Transitions.Valid, Transitions.Clean, RecycledTable.Valid, PlanOk, RelaxedUnreachable,
        CurrentPlan.LinksBack, Value, HelpfulOps, InVain, Falling;
      ghost var falls := Falling(g, plan.entries, plan.live, end, Value(g, Elems(start), end));
      var S := start;
      PlanSizes();
      var h := Evaluate(S, end);
      if h == INFINITY {
        return Failure;
      }
      while h != 0
        invariant PlanEndsIn(S) && Ready(S, end, h) && |plan.gplanStates| == |plan.gplanOps| + 1
        invariant plan.gplanStates[0] == old(plan.gplanStates)[0]
        invariant falls ==> Falling(g, plan.entries, plan.live, end, h)
        decreases h
      {
        var S', h';
        outcome, S', h' := SearchForBetterState(S, h, end);
        PlanSizes();
        if outcome != Success {
          return;
        }
        S, h := S', h';
      }
      return Success;
    }
  }
}
