/** The hash table for states that are members of the best first search space. A chain holds the entries
    whose sums have the same remainder, and states with different sums are never compared fact by fact. */
module StateTable {
  import opened Sequences
  import opened Connectivity
  import opened Transition

  const BFS_HASH_SIZE := 65536

  datatype Entry = Entry(sum: nat, S: seq<nat>)

  ghost predicate EntryOk(g: Graph, size: nat, b: nat, e: Entry) {
    size > 0 && StateOk(g, e.S) && e.sum == SumOf(g, e.S) && b == e.sum % size
  }

  ghost predicate Occurs(chain: seq<Entry>, X: set<nat>) {
    exists k :: 0 <= k < |chain| && Elems(chain[k].S) == X
  }

  /** The chains hold exactly the states of `members`, each under the index of its sum. */
  ghost predicate ChainsOk(g: Graph, chains: seq<seq<Entry>>, members: set<set<nat>>) {
    && (forall b, k :: 0 <= b < |chains| && 0 <= k < |chains[b]| ==>
         EntryOk(g, |chains|, b, chains[b][k]) && Elems(chains[b][k].S) in members)
    && (forall X :: X in members ==> exists b :: 0 <= b < |chains| && Occurs(chains[b], X))
  }

  /** One more entry at the end of its chain. */
  lemma ChainsStep(g: Graph, chains: seq<seq<Entry>>, members: set<set<nat>>, index: nat, e: Entry)
    requires ChainsOk(g, chains, members) && index < |chains| && EntryOk(g, |chains|, index, e)
    ensures ChainsOk(g, chains[index := chains[index] + [e]], members + {Elems(e.S)})
  {
    hide EntryOk;
    var chain := chains[index] + [e];
    var chains' := chains[index := chain];
    assert chain[|chains[index]|] == e && Occurs(chain, Elems(e.S));
    forall X | X in members + {Elems(e.S)}
      ensures exists b :: 0 <= b < |chains'| && Occurs(chains'[b], X)
    {
      if X in members {
        var b :| 0 <= b < |chains| && Occurs(chains[b], X);
        var k :| 0 <= k < |chains[b]| && Elems(chains[b][k].S) == X;
        assert chains'[b][k] == chains[b][k];
        assert Occurs(chains'[b], X);
      } else {
        assert Occurs(chains'[index], X);
      }
    }
  }

  /** Looking for a state in the chain of its sum is enough. */
  lemma OnlyOneChain(g: Graph, chains: seq<seq<Entry>>, members: set<set<nat>>, S: seq<nat>)
    requires ChainsOk(g, chains, members) && StateOk(g, S) && |chains| > 0
    ensures Elems(S) in members <==> Occurs(chains[SumOf(g, S) % |chains|], Elems(S))
  {
    if Elems(S) in members {
      var b :| 0 <= b < |chains| && Occurs(chains[b], Elems(S));
      var k :| 0 <= k < |chains[b]| && Elems(chains[b][k].S) == Elems(S);
      assert EntryOk(g, |chains|, b, chains[b][k]);
      SumOfEqualStates(g, chains[b][k].S, S);
    }
  }

  /** The comparison of the first `n` entries of a chain: sums first, then states. */
  method Search(g: Graph, size: nat, index: nat, chain: seq<Entry>, n: nat, sum: nat, S: seq<nat>) returns (found: bool)
    requires StateOk(g, S) && sum == SumOf(g, S) && n <= |chain|
    requires forall k :: 0 <= k < n ==> EntryOk(g, size, index, chain[k])
    ensures found <==> Occurs(chain[..n], Elems(S))
  {
    for k := 0 to n
      invariant forall i :: 0 <= i < k ==> Elems(chain[i].S) != Elems(S)
    {
      if chain[k].sum != sum {
        if Elems(chain[k].S) == Elems(S) {
          SumOfEqualStates(g, chain[k].S, S);
        }
        continue;
      }
      var same := SameState(chain[k].S, S);
      if same {
        assert chain[..n][k] == chain[k];
        return true;
      }
    }
    return false;
  }

  class Table {
    const g: Graph
    const heads: array<seq<Entry>>
    ghost var members: set<set<nat>>

    ghost predicate Valid()
      reads this, heads
    {
      heads.Length > 0 && ChainsOk(g, heads[..], members)
    }

    constructor (g: Graph)
      ensures Valid() && this.g == g && members == {} && fresh(heads)
    {
      this.g := g;
      heads := new seq<Entry>[BFS_HASH_SIZE](_ => []);
      members := {};
    }

    /** bfs_state_hashed: exactly the states that were put in are found, in whatever order their
        facts are listed. */
    method Hashed(S: seq<nat>) returns (found: bool)
      requires Valid() && StateOk(g, S)
      ensures found <==> Elems(S) in members
    {
      hide EntryOk, Occurs;
      var sum := StateSum(g, S);
      var index := sum % heads.Length;
      OnlyOneChain(g, heads[..], members, S);
      found := Search(g, heads.Length, index, heads[index], |heads[index]|, sum, S);
      assert heads[..][index] == heads[index] == heads[index][..|heads[index]|];
    }

    /** hash_bfs_node: append to the chain. */
    method Insert(S: seq<nat>)
      requires Valid() && StateOk(g, S)
      modifies this`members, heads
      ensures Valid() && members == old(members) + {Elems(S)}
    {
      hide Occurs;
      var sum := StateSum(g, S);
      var index := sum % heads.Length;
      ChainsStep(g, heads[..], members, index, Entry(sum, S));
      heads[index] := heads[index] + [Entry(sum, S)];
      members := members + {Elems(S)};
    }
  }
}
