/** The hash table of the breadth first search inside hill-climbing: the chains are kept between
    searches, and only a count says how much of each is in use. It answers like a set of states that is
    emptied at each reset. */
module EhcTable {
  import opened Sequences
  import opened Connectivity
  import opened Transition
  import opened StateTable

  const EHC_HASH_SIZE := 8192

  class RecycledTable {
    const g: Graph
    const heads: array<seq<Entry>>
    const num: array<nat>
    const isChanged: array<bool>
    var changed: seq<nat>
    ghost var members: set<set<nat>>

    /** The part of each chain that is in use. */
    ghost function InUse(): (chains: seq<seq<Entry>>)
      requires heads.Length == num.Length && forall b :: 0 <= b < num.Length ==> num[b] <= |heads[b]|
      reads heads, num
      ensures |chains| == heads.Length && forall b :: 0 <= b < |chains| ==> chains[b] == heads[b][..num[b]]
    {
      seq(heads.Length, b requires 0 <= b < heads.Length == num.Length && num[b] <= |heads[b]| reads heads, num =>
        heads[b][..num[b]])
    }

    ghost predicate Valid()
      reads this, heads, num, isChanged
    {
      && heads.Length == num.Length == isChanged.Length > 0
      && Below(changed, num.Length)
      && (forall b :: 0 <= b < num.Length ==> num[b] <= |heads[b]|)
      && (forall b :: 0 <= b < num.Length ==> (isChanged[b] <==> b in changed) && (num[b] > 0 ==> b in changed))
      && ChainsOk(g, InUse(), members)
    }

    ghost function Frame(): set<object> {
      {this, heads, num, isChanged}
    }

    constructor (g: Graph)
      ensures Valid() && this.g == g && members == {} && fresh(Frame())
    {
      this.g := g;
      heads := new seq<Entry>[EHC_HASH_SIZE](_ => []);
      num := new nat[EHC_HASH_SIZE](_ => 0);
      isChanged := new bool[EHC_HASH_SIZE](_ => false);
      changed := [];
      members := {};
    }

    /** ehc_state_hashed: only the counted part of the chain is looked at. */
    method Hashed(S: seq<nat>) returns (found: bool)
      requires Valid() && StateOk(g, S)
      ensures found <==> Elems(S) in members
    {
      hide EntryOk, Occurs;
      var sum := StateSum(g, S);
      var index := sum % heads.Length;
      OnlyOneChain(g, InUse(), members, S);
      assert forall k :: 0 <= k < num[index] ==> heads[index][k] == InUse()[index][k];
      found := Search(g, heads.Length, index, heads[index], num[index], sum, S);
    }

    /** hash_ehc_node: reuse the first entry that is out of use, else lengthen the chain. */
    method Insert(S: seq<nat>)
      requires Valid() && StateOk(g, S)
      modifies this`changed, this`members, heads, num, isChanged
      ensures Valid() && members == old(members) + {Elems(S)}
    {
      hide Occurs, ChainsOk;
      var sum := StateSum(g, S);
      var index := sum % heads.Length;
      var n := num[index];
      var entry := Entry(sum, S);
      ChainsStep(g, InUse(), members, index, entry);
      if n < |heads[index]| {
        heads[index] := heads[index][n := entry];
      } else {
        heads[index] := heads[index] + [entry];
      }
      num[index] := n + 1;
      if !isChanged[index] {
        changed := changed + [index];
        isChanged[index] := true;
      }
      members := members + {Elems(S)};
      assert heads[index][..n + 1] == old(heads[index][..n]) + [entry];
      assert InUse() == old(InUse())[index := old(InUse())[index] + [entry]];
    }

    /** reset_ehc_hash_entrys: put every changed chain out of use. */
    method Reset()
      requires Valid()
      modifies this`changed, this`members, num, isChanged
      ensures Valid() && members == {}
    {
      for i := 0 to |changed|
        invariant forall b :: 0 <= b < num.Length ==> num[b] == if b in changed[..i] then 0 else old(num[b])
        invariant forall b :: 0 <= b < num.Length ==> isChanged[b] == (old(isChanged[b]) && b !in changed[..i])
        modifies num, isChanged
      {
        assert changed[..i + 1] == changed[..i] + [changed[i]];
        num[changed[i]] := 0;
        isChanged[changed[i]] := false;
      }
      assert changed[..|changed|] == changed;
      changed := [];
      members := {};
    }
  }
}
