/** The reachability analysis of inst_final.c and the numbering of the relevant facts. */
module Reachability {
  import opened Sequences
  import opened Grounded

  /** What the tables say when the facts in `D` are marked as deleted: a fact is possibly false unless
      it is initial and not in `D`, and the facts both possibly true and possibly false are numbered. */
  ghost predicate Marked(n: nat, I: set<nat>, D: set<nat>, lpos: seq<bool>, lneg: seq<bool>, luse: seq<bool>,
                         lindex: seq<int>, relevant: seq<nat>) {
    && |lpos| == |lneg| == |luse| == |lindex| == n && Distinct(relevant) && Below(relevant, n)
    && (forall f :: 0 <= f < n && f in I ==> lpos[f])
    && (forall f :: 0 <= f < n ==> (lneg[f] <==> f !in I || f in D))
    && (forall f :: 0 <= f < n ==> (luse[f] <==> lpos[f] && lneg[f]))
    && (forall f :: 0 <= f < n ==> (luse[f] <==> f in relevant))
    && (forall f :: 0 <= f < n && !luse[f] ==> lindex[f] == -1)
    && (forall i :: 0 <= i < |relevant| ==> lindex[relevant[i]] == i)
  }

  /** A fact becomes relevant. */
  lemma MarkOne(n: nat, I: set<nat>, D: set<nat>, D': set<nat>, f: nat, lpos: seq<bool>, lneg: seq<bool>, luse: seq<bool>,
                lindex: seq<int>, relevant: seq<nat>)
    requires Marked(n, I, D, lpos, lneg, luse, lindex, relevant) && f < n && !luse[f]
    requires D' == D || D' == D + {f}
    requires f in I ==> f in D'
    ensures Marked(n, I, D', lpos[f := true], lneg[f := true], luse[f := true], lindex[f := |relevant|], relevant + [f])
  {
    var relevant' := relevant + [f];
    assert f !in relevant;
    forall i | 0 <= i < |relevant'|
      ensures lindex[f := |relevant|][relevant'[i]] == i
    {
      assert i < |relevant| ==> relevant[i] != f;
    }
    assert forall g :: g in relevant' <==> g in relevant || g == f;
  }

  /** The ids that were made actions and those still pending. */
  ghost predicate Accounted(n: nat, nEasy: nat, actions: seq<nat>, easy: seq<nat>, had: seq<bool>) {
    && nEasy + |had| == n && Distinct(actions) && Below(actions, n) && Distinct(easy) && Below(easy, nEasy)
    && (forall id: nat :: id < nEasy ==> (id in actions <==> id !in easy))
    && (forall i :: 0 <= i < |had| ==> (nEasy + i in actions <==> had[i]))
  }

  /** The facts that some effect adds, whatever its conditions. */
  ghost function AllAdds(es: seq<Effect>): set<nat> {
    set e, f | e in es && f in e.adds :: f
  }

  ghost function AllDels(es: seq<Effect>): set<nat> {
    set e, f | e in es && f in e.dels :: f
  }

  /** The set holds the initial facts and all that applicable templates may add. */
  ghost predicate ClosedUnder(ts: seq<Template>, I: set<nat>, Q: set<nat>) {
    I <= Q && forall id :: 0 <= id < |ts| && ts[id].Applicable(Q) ==> AllAdds(ts[id].effects) <= Q
  }

  /** Nothing is in `P` that is not in every closed set. */
  ghost predicate Least(ts: seq<Template>, I: set<nat>, P: set<nat>) {
    forall Q: set<nat> :: ClosedUnder(ts, I, Q) ==> P <= Q
  }

  /** The actions so far are applicable in `P`, and `P` holds what they may add. */
  ghost predicate ActionsOk(ts: seq<Template>, actions: seq<nat>, P: set<nat>) {
    forall id :: id in actions && id < |ts| ==> ts[id].Applicable(P) && AllAdds(ts[id].effects) <= P
  }

  ghost predicate NoneApplicable(ts: seq<Template>, ids: seq<nat>, P: set<nat>) {
    forall id :: id in ids && id < |ts| ==> !ts[id].Applicable(P)
  }

  /** No template among the first `k` hard ones that is not flagged is applicable in `P`. */
  ghost predicate NoneUnflagged(ts: seq<Template>, nEasy: nat, had: seq<bool>, k: nat, P: set<nat>) {
    k <= |had| && nEasy + |had| == |ts| && forall i :: 0 <= i < k && !had[i] ==> !ts[nEasy + i].Applicable(P)
  }

  /** What is not applicable with more facts is not with fewer. */
  lemma FewerFacts(t: Template, P: set<nat>, P': set<nat>)
    requires P <= P'
    ensures t.Applicable(P) ==> t.Applicable(P')
  {
  }

  lemma LeastStep(ts: seq<Template>, I: set<nat>, P: set<nat>, id: nat)
    requires Least(ts, I, P) && id < |ts| && ts[id].Applicable(P)
    ensures Least(ts, I, P + AllAdds(ts[id].effects))
  {
  }

  lemma ActionsGrow(ts: seq<Template>, actions: seq<nat>, P: set<nat>, P': set<nat>)
    requires ActionsOk(ts, actions, P) && P <= P'
    ensures ActionsOk(ts, actions, P')
  {
  }

  lemma AllAddsAppend(es: seq<Effect>, e: Effect)
    ensures AllAdds(es + [e]) == AllAdds(es) + Elems(e.adds)
    ensures AllDels(es + [e]) == AllDels(es) + Elems(e.dels)
  {
    assert forall x :: x in es + [e] <==> x in es || x == e;
  }

  class Analysis {
    const n: nat
    const initial: seq<nat>
    const templates: seq<Template>
    const nEasy: nat
    const lpos: array<bool>
    const lneg: array<bool>
    const luse: array<bool>
    const lindex: array<int>
    var relevantFacts: seq<nat>
    var easyTemplates: seq<nat>
    const had: array<bool>
    var actions: seq<nat>

    ghost predicate Shape() {
      && Below(initial, n) && nEasy + had.Length == |templates|
      && (forall i :: 0 <= i < |templates| ==> templates[i].Within(n))
      && lpos.Length == lneg.Length == luse.Length == lindex.Length == n
      && lpos != lneg && lpos != luse && lneg != luse && had != lpos && had != lneg && had != luse
    }

    ghost predicate Valid(D: set<nat>)
      reads this, lpos, lneg, luse, lindex, had
    {
      && Shape()
      && Marked(n, Elems(initial), D, lpos[..], lneg[..], luse[..], lindex[..], relevantFacts)
      && Accounted(|templates|, nEasy, actions, easyTemplates, had[..])
    }

    ghost function Possible(): set<nat>
      requires lpos.Length == n
      reads lpos
    {
      set f: nat | f < n && lpos[f]
    }

    constructor (n: nat, initial: seq<nat>, templates: seq<Template>, nEasy: nat)
      requires Below(initial, n) && nEasy <= |templates| && forall i :: 0 <= i < |templates| ==> templates[i].Within(n)
      ensures Shape() && this.n == n && this.initial == initial && this.templates == templates && this.nEasy == nEasy
      ensures fresh(lpos) && fresh(lneg) && fresh(luse) && fresh(lindex) && fresh(had)
      ensures relevantFacts == [] && actions == [] && easyTemplates == seq(nEasy, i => i)
      ensures forall f :: 0 <= f < n ==> !lpos[f] && lneg[f] && !luse[f] && lindex[f] == -1
      ensures forall i :: 0 <= i < had.Length ==> !had[i]
    {
      this.n, this.initial, this.templates, this.nEasy := n, initial, templates, nEasy;
      lpos, lneg, luse := new bool[n](_ => false), new bool[n](_ => true), new bool[n](_ => false);
      lindex := new int[n](_ => -1);
      had := new bool[|templates| - nEasy](_ => false);
      relevantFacts, actions, easyTemplates := [], [], seq(nEasy, i => i);
    }

    /** Initial facts are possibly true, and nothing makes them false yet. */
    method MarkInitial()
      requires Shape() && relevantFacts == [] && actions == [] && easyTemplates == seq(nEasy, i => i)
      requires forall f :: 0 <= f < n ==> !lpos[f] && lneg[f] && !luse[f] && lindex[f] == -1
      requires forall i :: 0 <= i < had.Length ==> !had[i]
      modifies lpos, lneg
      ensures Valid({}) && Possible() == Elems(initial)
    {
      for i := 0 to |initial|
        invariant forall f :: 0 <= f < n ==> (lpos[f] <==> f in initial[..i]) && (lneg[f] <==> f !in initial[..i])
        modifies lpos, lneg
      {
        lpos[initial[i]] := true;
        lneg[initial[i]] := false;
        assert initial[..i + 1] == initial[..i] + [initial[i]];
      }
      assert initial[..|initial|] == initial;
      NothingEmitted(|templates|, nEasy, had[..]);
    }

    /** One added fact; whether it was new. */
    method MarkAdd(f: nat) returns (isNew: bool)
      requires Valid({}) && f < n
      modifies lpos, lneg, luse, lindex, `relevantFacts
      ensures Valid({}) && Possible() == old(Possible()) + {f}
      ensures if isNew then |relevantFacts| == old(|relevantFacts|) + 1 else relevantFacts == old(relevantFacts)
      ensures isNew <==> f !in old(Possible())
    {
      hide Accounted;
      isNew := !lpos[f];
      if isNew {
        MarkOne(n, Elems(initial), {}, {}, f, lpos[..], lneg[..], luse[..], lindex[..], relevantFacts);
        lpos[f] := true;
        lneg[f] := true;
        luse[f] := true;
        lindex[f] := |relevantFacts|;
        relevantFacts := relevantFacts + [f];
      }
    }

    /** The added facts of one effect. */
    method MarkEffect(e: Effect) returns (changed: bool)
      requires Valid({}) && Below(e.adds, n)
      modifies lpos, lneg, luse, lindex, `relevantFacts
      ensures Valid({}) && Possible() == old(Possible()) + Elems(e.adds)
      ensures |relevantFacts| >= old(|relevantFacts|)
      ensures if changed then |relevantFacts| > old(|relevantFacts|) else Possible() == old(Possible())
    {
      hide Marked, Accounted;
      changed := false;
      for i := 0 to |e.adds|
        invariant Valid({}) && Possible() == old(Possible()) + Elems(e.adds[..i])
        invariant |relevantFacts| >= old(|relevantFacts|)
        invariant if changed then |relevantFacts| > old(|relevantFacts|) else Possible() == old(Possible())
      {
        var isNew := MarkAdd(e.adds[i]);
        changed := changed || isNew;
        assert e.adds[..i + 1] == e.adds[..i] + [e.adds[i]];
        ElemsAppend(e.adds[..i], e.adds[i]);
      }
      assert e.adds[..|e.adds|] == e.adds;
    }

    /** All effects of a template; effect conditions are ignored. */
    method MarkEffects(t: Template) returns (changed: bool)
      requires Valid({}) && t.Within(n)
      modifies lpos, lneg, luse, lindex, `relevantFacts
      ensures Valid({}) && Possible() == old(Possible()) + AllAdds(t.effects)
      ensures |relevantFacts| >= old(|relevantFacts|)
      ensures if changed then |relevantFacts| > old(|relevantFacts|) else Possible() == old(Possible())
    {
      hide Marked, Accounted;
      changed := false;
      for i := 0 to |t.effects|
        invariant Valid({}) && Possible() == old(Possible()) + AllAdds(t.effects[..i])
        invariant |relevantFacts| >= old(|relevantFacts|)
        invariant if changed then |relevantFacts| > old(|relevantFacts|) else Possible() == old(Possible())
      {
        var isNew := MarkEffect(t.effects[i]);
        changed := changed || isNew;
        assert t.effects[..i + 1] == t.effects[..i] + [t.effects[i]];
        AllAddsAppend(t.effects[..i], t.effects[i]);
      }
      assert t.effects[..|t.effects|] == t.effects;
    }

    /** Whether all preconditions are possibly true. */
    method PrecondsPossible(t: Template) returns (all: bool)
      requires Shape() && t.Within(n)
      ensures all <==> t.Applicable(Possible())
    {
      for i := 0 to |t.preconds|
        invariant forall k :: 0 <= k < i ==> lpos[t.preconds[k]]
      {
        if !lpos[t.preconds[i]] {
          assert t.preconds[i] in Elems(t.preconds);
          return false;
        }
      }
      return true;
    }

    ghost predicate Progress()
      requires Shape()
      reads this, lpos
    {
      && Elems(initial) <= Possible() && Least(templates, Elems(initial), Possible())
      && ActionsOk(templates, actions, Possible())
    }

    /** Make the template an action if its preconditions are possibly true. */
    method TryTemplate(id: nat) returns (emitted: bool, changed: bool)
      requires Valid({}) && Progress() && id < |templates|
      modifies lpos, lneg, luse, lindex, `relevantFacts
      ensures Valid({}) && Progress() && |relevantFacts| >= old(|relevantFacts|)
      ensures emitted <==> templates[id].Applicable(old(Possible()))
      ensures old(Possible()) <= Possible() && (emitted ==> AllAdds(templates[id].effects) <= Possible())
      ensures if changed then |relevantFacts| > old(|relevantFacts|) else Possible() == old(Possible())
    {
      hide Marked, Accounted, AllAdds, Least, ActionsOk;
      emitted := PrecondsPossible(templates[id]);
      changed := false;
      if emitted {
        ghost var P := Possible();
        changed := MarkEffects(templates[id]);
        LeastStep(templates, Elems(initial), P, id);
        ActionsGrow(templates, actions, P, Possible());
      }
    }

    /** The layer of easy templates; those that become actions leave the list. */
    method EasyLayer() returns (changed: bool)
      requires Valid({}) && Progress()
      modifies lpos, lneg, luse, lindex, this
      ensures Valid({}) && Progress() && |relevantFacts| >= old(|relevantFacts|)
      ensures old(Possible()) <= Possible()
      ensures if changed then |relevantFacts| > old(|relevantFacts|) else
        Possible() == old(Possible()) && NoneApplicable(templates, easyTemplates, Possible())
      ensures NoneApplicable(templates, easyTemplates, old(Possible()))
      ensures forall id :: id in easyTemplates ==> id in old(easyTemplates)
    {
      hide Marked, Accounted, AllAdds, Least, ActionsOk;
      changed := false;
      var i := 0;
      while i < |easyTemplates|
        invariant i <= |easyTemplates|
        invariant Valid({}) && Progress() && |relevantFacts| >= old(|relevantFacts|)
        invariant old(Possible()) <= Possible()
        invariant if changed then |relevantFacts| > old(|relevantFacts|) else
          Possible() == old(Possible()) && NoneApplicable(templates, easyTemplates[..i], Possible())
        invariant NoneApplicable(templates, easyTemplates[..i], old(Possible()))
        invariant forall id :: id in easyTemplates ==> id in old(easyTemplates)
        decreases |easyTemplates| - i
      {
        EasyBelow(|templates|, nEasy, actions, easyTemplates, had[..]);
        var id := easyTemplates[i];
        FewerFacts(templates[id], old(Possible()), Possible());
        var emitted, isNew := TryTemplate(id);
        changed := changed || isNew;
        if emitted {
          EmitEasy(|templates|, nEasy, actions, easyTemplates, had[..], i);
          EmittedOk(templates, actions, id, Possible());
          actions := [id] + actions;
          ghost var before := easyTemplates;
          easyTemplates := easyTemplates[..i] + easyTemplates[i + 1..];
          assert easyTemplates[..i] == before[..i];
        } else {
          assert easyTemplates[..i + 1] == easyTemplates[..i] + [id];
          i := i + 1;
        }
      }
      assert easyTemplates[..|easyTemplates|] == easyTemplates;
    }

    /** The layer of hard templates; those that become actions are flagged. */
    method HardLayer() returns (changed: bool)
      requires Valid({}) && Progress()
      modifies lpos, lneg, luse, lindex, had, this
      ensures Valid({}) && Progress() && |relevantFacts| >= old(|relevantFacts|) && easyTemplates == old(easyTemplates)
      ensures old(Possible()) <= Possible()
      ensures if changed then |relevantFacts| > old(|relevantFacts|) else
        Possible() == old(Possible()) && NoneUnflagged(templates, nEasy, had[..], had.Length, Possible())
      ensures NoneUnflagged(templates, nEasy, had[..], had.Length, old(Possible()))
      ensures forall i :: 0 <= i < had.Length && old(had[i]) ==> had[i]
    {
      hide Marked, Accounted, AllAdds, Least, ActionsOk;
      changed := false;
      for i := 0 to had.Length
        invariant Valid({}) && Progress() && |relevantFacts| >= old(|relevantFacts|) && easyTemplates == old(easyTemplates)
        invariant old(Possible()) <= Possible()
        invariant if changed then |relevantFacts| > old(|relevantFacts|) else
          Possible() == old(Possible()) && NoneUnflagged(templates, nEasy, had[..], i, Possible())
        invariant NoneUnflagged(templates, nEasy, had[..], i, old(Possible()))
        invariant forall k :: 0 <= k < had.Length && old(had[k]) ==> had[k]
      {
        if !had[i] {
          FewerFacts(templates[nEasy + i], old(Possible()), Possible());
          var emitted, isNew := TryTemplate(nEasy + i);
          changed := changed || isNew;
          if emitted {
            EmitHard(|templates|, nEasy, actions, easyTemplates, had[..], i);
            EmittedOk(templates, actions, nEasy + i, Possible());
            actions := [nEasy + i] + actions;
            had[i] := true;
          }
        }
      }
    }

    /** perform_reachability_analysis after the initial facts: the fixpoint of the layers. */
    method Fixpoint()
      requires Valid({}) && Progress()
      modifies lpos, lneg, luse, lindex, had, this
      ensures Valid({}) && Progress()
      ensures forall id: nat :: id < |templates| ==> (id in actions <==> templates[id].Applicable(Possible()))
    {
      hide Marked, AllAdds, Least;
      var fixpoint := false;
      while !fixpoint
        invariant Valid({}) && Progress()
        invariant fixpoint ==> NoneApplicable(templates, easyTemplates, Possible())
        invariant fixpoint ==> NoneUnflagged(templates, nEasy, had[..], had.Length, Possible())
        decreases !fixpoint, n - |relevantFacts|
      {
        RelevantBound(n, Elems(initial), {}, lpos[..], lneg[..], luse[..], lindex[..], relevantFacts);
        var c1 := EasyLayer();
        var c2 := HardLayer();
        fixpoint := !c1 && !c2;
        RelevantBound(n, Elems(initial), {}, lpos[..], lneg[..], luse[..], lindex[..], relevantFacts);
      }
      forall id: nat | id < |templates|
        ensures id in actions <==> templates[id].Applicable(Possible())
      {
        if id >= nEasy {
          assert had[..][id - nEasy] || !templates[nEasy + (id - nEasy)].Applicable(Possible());
        }
      }
    }

    /** One deleted fact: it is possibly false, and relevant if it is also possibly true. */
    method MarkDelete(f: nat, ghost D: set<nat>)
      requires Valid(D) && f < n
      modifies lneg, luse, lindex, `relevantFacts
      ensures Valid(D + {f}) && Possible() == old(Possible())
    {
      hide Accounted;
      lneg[f] := true;
      if lpos[f] && !luse[f] {
        MarkOne(n, Elems(initial), D, D + {f}, f, lpos[..], old(lneg[..]), luse[..], lindex[..], relevantFacts);
        assert lpos[..][f := true] == lpos[..];
        luse[f] := true;
        lindex[f] := |relevantFacts|;
        relevantFacts := relevantFacts + [f];
      }
    }

    method MarkDeletes(e: Effect, ghost D: set<nat>)
      requires Valid(D) && Below(e.dels, n)
      modifies lneg, luse, lindex, `relevantFacts
      ensures Valid(D + Elems(e.dels)) && Possible() == old(Possible())
    {
      hide Marked, Accounted;
      assert D + Elems(e.dels[..0]) == D;
      for i := 0 to |e.dels|
        invariant Valid(D + Elems(e.dels[..i])) && Possible() == old(Possible())
      {
        MarkDelete(e.dels[i], D + Elems(e.dels[..i]));
        assert e.dels[..i + 1] == e.dels[..i] + [e.dels[i]];
        ElemsAppend(e.dels[..i], e.dels[i]);
        assert D + Elems(e.dels[..i]) + {e.dels[i]} == D + Elems(e.dels[..i + 1]);
      }
      assert e.dels[..|e.dels|] == e.dels;
    }

    /** The first loop of collect_relevant_facts. */
    method CollectDeletes()
      requires Valid({}) && Below(actions, |templates|)
      modifies lneg, luse, lindex, `relevantFacts
      ensures Valid(ActionDels(templates, actions)) && Possible() == old(Possible())
    {
      hide Marked, Accounted, AllDels;
      assert ActionDels(templates, []) == {};
      for a := 0 to |actions|
        invariant Valid(ActionDels(templates, actions[..a])) && Possible() == old(Possible())
      {
        var es := templates[actions[a]].effects;
        ghost var D := ActionDels(templates, actions[..a]);
        NoEffects();
        assert es[..0] == [] && D + AllDels([]) == D;
        for i := 0 to |es|
          invariant Valid(D + AllDels(es[..i])) && Possible() == old(Possible())
        {
          MarkDeletes(es[i], D + AllDels(es[..i]));
          assert es[..i + 1] == es[..i] + [es[i]];
          AllAddsAppend(es[..i], es[i]);
          assert D + AllDels(es[..i]) + Elems(es[i].dels) == D + AllDels(es[..i + 1]);
        }
        assert es[..|es|] == es;
        assert actions[..a + 1] == actions[..a] + [actions[a]];
        ActionDelsAppend(templates, actions[..a], actions[a]);
      }
      assert actions[..|actions|] == actions;
    }

    /** perform_reachability_analysis and the numbering of collect_relevant_facts. */
    method Analyse()
      requires Shape() && relevantFacts == [] && actions == [] && easyTemplates == seq(nEasy, i => i)
      requires forall f :: 0 <= f < n ==> !lpos[f] && lneg[f] && !luse[f] && lindex[f] == -1
      requires forall i :: 0 <= i < had.Length ==> !had[i]
      modifies lpos, lneg, luse, lindex, had, this
      ensures Below(actions, |templates|) && Valid(ActionDels(templates, actions)) && Progress()
      ensures forall id: nat :: id < |templates| ==> (id in actions <==> templates[id].Applicable(Possible()))
    {
      hide Marked, Accounted, AllAdds;
      MarkInitial();
      NothingYet(templates, Elems(initial));
      Fixpoint();
      ActionsBelow(|templates|, nEasy, actions, easyTemplates, had[..]);
      CollectDeletes();
    }
  }

  lemma NoEffects()
    ensures AllDels([]) == {}
  {
  }

  ghost function ActionDels(ts: seq<Template>, actions: seq<nat>): set<nat>
    requires Below(actions, |ts|)
  {
    set a, f | a in actions && f in AllDels(ts[a].effects) :: f
  }

  lemma ActionDelsAppend(ts: seq<Template>, actions: seq<nat>, a: nat)
    requires Below(actions, |ts|) && a < |ts|
    ensures ActionDels(ts, actions + [a]) == ActionDels(ts, actions) + AllDels(ts[a].effects)
  {
    assert forall x :: x in actions + [a] <==> x in actions || x == a;
  }

  lemma NothingYet(ts: seq<Template>, I: set<nat>)
    ensures Least(ts, I, I) && ActionsOk(ts, [], I)
  {
  }

  lemma ActionsBelow(n: nat, nEasy: nat, actions: seq<nat>, easy: seq<nat>, had: seq<bool>)
    requires Accounted(n, nEasy, actions, easy, had)
    ensures Below(actions, n)
  {
  }

  // ---- what the analysis means

  /** Every state of every run is possible, and every template that is ever applied was made an action. */
  lemma {:induction false} ReachableIsPossible(ts: seq<Template>, actions: seq<nat>, I: set<nat>, P: set<nat>,
                                               run: seq<nat>, states: seq<set<nat>>, i: nat)
    requires I <= P && ActionsOk(ts, actions, P)
    requires forall id: nat :: id < |ts| ==> (id in actions <==> ts[id].Applicable(P))
    requires IsRun(ts, run, states) && states[0] == I && i < |states|
    ensures states[i] <= P && (i < |run| ==> run[i] in actions)
  {
    if i > 0 {
      ReachableIsPossible(ts, actions, I, P, run, states, i - 1);
      var t := ts[run[i - 1]];
      assert t.Added(states[i - 1]) <= AllAdds(t.effects);
    }
    if i < |run| {
      assert ts[run[i]].Applicable(states[i]);
    }
  }

  /** The numbers of the relevant facts are 0 to n-1, one for each fact that is both possibly true and
      possibly false. */
  lemma NumberingIsBijection(n: nat, I: set<nat>, D: set<nat>, lpos: seq<bool>, lneg: seq<bool>, luse: seq<bool>,
                             lindex: seq<int>, relevant: seq<nat>, f: nat)
    requires Marked(n, I, D, lpos, lneg, luse, lindex, relevant) && f < n
    ensures (lpos[f] && lneg[f]) <==> 0 <= lindex[f] < |relevant| && relevant[lindex[f]] == f
    ensures !(lpos[f] && lneg[f]) <==> lindex[f] == -1
    ensures forall i: nat :: i < |relevant| ==> lindex[relevant[i]] == i
  {
    if luse[f] {
      var i :| 0 <= i < |relevant| && relevant[i] == f;
    }
  }

  lemma RelevantBound(n: nat, I: set<nat>, D: set<nat>, lpos: seq<bool>, lneg: seq<bool>, luse: seq<bool>,
                      lindex: seq<int>, relevant: seq<nat>)
    requires Marked(n, I, D, lpos, lneg, luse, lindex, relevant)
    ensures |relevant| <= n
  {
    DistinctBelow(relevant, n);
  }

  lemma EmittedOk(ts: seq<Template>, actions: seq<nat>, id: nat, P: set<nat>)
    requires ActionsOk(ts, actions, P) && id < |ts| && ts[id].Applicable(P) && AllAdds(ts[id].effects) <= P
    ensures ActionsOk(ts, [id] + actions, P)
  {
    assert forall x :: x in [id] + actions <==> x == id || x in actions;
  }

  lemma NothingEmitted(n: nat, nEasy: nat, had: seq<bool>)
    requires nEasy + |had| == n && forall i :: 0 <= i < |had| ==> !had[i]
    ensures Accounted(n, nEasy, [], seq(nEasy, i => i), had)
  {
    var easy: seq<nat> := seq(nEasy, i => i);
    forall id: nat | id < nEasy
      ensures id in easy
    {
      assert easy[id] == id;
    }
  }

  lemma EasyBelow(n: nat, nEasy: nat, actions: seq<nat>, easy: seq<nat>, had: seq<bool>)
    requires Accounted(n, nEasy, actions, easy, had)
    ensures Below(easy, n)
  {
  }

  lemma EmitEasy(n: nat, nEasy: nat, actions: seq<nat>, easy: seq<nat>, had: seq<bool>, i: nat)
    requires Accounted(n, nEasy, actions, easy, had) && i < |easy|
    ensures Accounted(n, nEasy, [easy[i]] + actions, easy[..i] + easy[i + 1..], had)
  {
    var rest := easy[..i] + easy[i + 1..];
    assert forall k :: 0 <= k < |rest| ==> rest[k] == easy[if k < i then k else k + 1];
    assert easy[i] in easy;
    assert forall x :: x in [easy[i]] + actions <==> x == easy[i] || x in actions;
    forall x
      ensures x in rest <==> x in easy && x != easy[i]
    {
      if x in easy && x != easy[i] {
        var k :| 0 <= k < |easy| && easy[k] == x;
        assert rest[if k < i then k else k - 1] == x;
      }
    }
  }

  lemma EmitHard(n: nat, nEasy: nat, actions: seq<nat>, easy: seq<nat>, had: seq<bool>, i: nat)
    requires Accounted(n, nEasy, actions, easy, had) && i < |had| && !had[i]
    ensures Accounted(n, nEasy, [nEasy + i] + actions, easy, had[i := true])
  {
    var id: nat := nEasy + i;
    assert forall x :: x in [id] + actions <==> x == id || x in actions;
  }
}
