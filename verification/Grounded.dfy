/** The grounded problem that inst_final.c starts from: templates of actions over facts. A fact is the
    number of its table address. */
module Grounded {
  import opened Sequences

  datatype Effect = Effect(conditions: seq<nat>, adds: seq<nat>, dels: seq<nat>)

  datatype Template = Template(preconds: seq<nat>, effects: seq<Effect>) {
    ghost predicate Applicable(X: set<nat>) {
      Elems(preconds) <= X
    }

    ghost function Added(X: set<nat>): set<nat> {
      set e, f | e in effects && Elems(e.conditions) <= X && f in e.adds :: f
    }

    ghost function Deleted(X: set<nat>): set<nat> {
      set e, f | e in effects && Elems(e.conditions) <= X && f in e.dels :: f
    }

    /** The state after the action; an added fact stays although it is also deleted. */
    ghost function Successor(X: set<nat>): set<nat> {
      X - Deleted(X) + Added(X)
    }

    predicate Within(n: nat) {
      && Below(preconds, n)
      && forall i :: 0 <= i < |effects| ==>
        Below(effects[i].conditions, n) && Below(effects[i].adds, n) && Below(effects[i].dels, n)
    }
  }

  /** A run of templates, each applicable in its state. */
  ghost predicate IsRun(ts: seq<Template>, run: seq<nat>, states: seq<set<nat>>) {
    && Below(run, |ts|) && |states| == |run| + 1
    && forall i :: 0 <= i < |run| ==>
      ts[run[i]].Applicable(states[i]) && states[i + 1] == ts[run[i]].Successor(states[i])
  }
}
