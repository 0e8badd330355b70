/** The writer-preferring readers/writer lock of ex3.c, for any number of threads. */
module RwLock {
  import opened Sequences

  // The code between two points where the mutex is free is one step. A thread in pthread_cond_wait is
  // either still waiting or signalled, which means that it runs its loop test again once it gets the mutex.

  /** What a thread is doing with the lock. */
  datatype Pc = Idle | ReaderWaits | ReaderSignalled | Reads | WriterWaits | WriterSignalled | Writes

  datatype State = State(nReaders: int, writersWaiting: int, pc: map<nat, Pc>)

  ghost function At(pc: map<nat, Pc>, c: Pc): set<nat> {
    set t | t in pc && pc[t] == c
  }

  // ---- condition variables

  /** A signal wakes at least one of the threads that wait, if any does. */
  ghost predicate Signals(pc: map<nat, Pc>, c: Pc, woken: set<nat>) {
    woken <= At(pc, c) && (At(pc, c) != {} ==> woken != {})
  }

  ghost function Woken(pc: map<nat, Pc>, woken: set<nat>, c: Pc): map<nat, Pc> {
    map t | t in pc :: if t in woken then c else pc[t]
  }

  // ---- the steps

  ghost predicate Initial(s: State) {
    s.nReaders == 0 && s.writersWaiting == 0 && forall t :: t in s.pc ==> s.pc[t] == Idle
  }

  /** The loop test of r_lock, on entry or after a wake-up, up to the wait or the return. */
  ghost predicate ReaderTries(s: State, s': State, t: nat) {
    && t in s.pc && (s.pc[t] == Idle || s.pc[t] == ReaderSignalled)
    && s' == if s.nReaders == -1 || s.writersWaiting > 0 then s.(pc := s.pc[t := ReaderWaits])
             else s.(nReaders := s.nReaders + 1, pc := s.pc[t := Reads])
  }

  ghost predicate ReaderLeaves(s: State, s': State, t: nat, woken: set<nat>) {
    && t in s.pc && s.pc[t] == Reads
    && (if s.nReaders == 1 && s.writersWaiting > 0 then Signals(s.pc, WriterWaits, woken) else woken == {})
    && s' == s.(nReaders := s.nReaders - 1, pc := Woken(s.pc, woken, WriterSignalled)[t := Idle])
  }

  /** The loop test of w_lock for a thread that is counted as waiting. */
  ghost predicate WriterTests(s: State, s': State, t: nat) {
    s' == if s.nReaders != 0 then s.(pc := s.pc[t := WriterWaits])
          else s.(nReaders := -1, writersWaiting := s.writersWaiting - 1, pc := s.pc[t := Writes])
  }

  ghost predicate WriterTries(s: State, s': State, t: nat) {
    t in s.pc && s.pc[t] == Idle && WriterTests(s.(writersWaiting := s.writersWaiting + 1), s', t)
  }

  ghost predicate WriterResumes(s: State, s': State, t: nat) {
    t in s.pc && s.pc[t] == WriterSignalled && WriterTests(s, s', t)
  }

  ghost predicate WriterLeaves(s: State, s': State, t: nat, woken: set<nat>) {
    && t in s.pc && s.pc[t] == Writes
    && (if s.writersWaiting > 0 then Signals(s.pc, WriterWaits, woken) else woken == At(s.pc, ReaderWaits))
    && s' == s.(nReaders := 0,
                pc := Woken(s.pc, woken, if s.writersWaiting > 0 then WriterSignalled else ReaderSignalled)[t := Idle])
  }

  /** pthread_cond_wait may return without a signal. */
  ghost predicate SpuriousWakeUp(s: State, s': State, t: nat) {
    && t in s.pc && (s.pc[t] == ReaderWaits || s.pc[t] == WriterWaits)
    && s' == s.(pc := s.pc[t := if s.pc[t] == ReaderWaits then ReaderSignalled else WriterSignalled])
  }

  ghost predicate Leaves(s: State, s': State, t: nat) {
    exists woken :: ReaderLeaves(s, s', t, woken) || WriterLeaves(s, s', t, woken)
  }

  /** A step of a thread that has called the lock already. */
  ghost predicate Serves(s: State, s': State, t: nat) {
    || Leaves(s, s', t)
    || (ReaderTries(s, s', t) && s.pc[t] == ReaderSignalled)
    || WriterResumes(s, s', t)
  }

  ghost predicate Next(s: State, s': State) {
    exists t :: Serves(s, s', t) || ReaderTries(s, s', t) || WriterTries(s, s', t) || SpuriousWakeUp(s, s', t)
  }

  ghost predicate IsRun(run: seq<State>) {
    && |run| > 0 && Initial(run[0])
    && forall i :: 0 <= i < |run| - 1 ==> Next(run[i], run[i + 1])
  }

  // ---- the invariant

  ghost predicate Exclusive(s: State) {
    && s.nReaders >= -1
    && (s.nReaders == -1 ==> |At(s.pc, Writes)| == 1 && At(s.pc, Reads) == {})
    && (s.nReaders >= 0 ==> At(s.pc, Writes) == {} && |At(s.pc, Reads)| == s.nReaders)
  }

  ghost predicate WritersCounted(s: State) {
    s.writersWaiting == |At(s.pc, WriterWaits)| + |At(s.pc, WriterSignalled)|
  }

  /** A free lock with waiting writers has a writer that is about to take it. */
  ghost predicate NoWriterForgotten(s: State) {
    s.nReaders == 0 && s.writersWaiting > 0 ==> At(s.pc, WriterSignalled) != {}
  }

  /** When a reader may enter, no reader sleeps. */
  ghost predicate NoReaderForgotten(s: State) {
    s.nReaders != -1 && s.writersWaiting == 0 ==> At(s.pc, ReaderWaits) == {}
  }

  ghost predicate Inv(s: State) {
    Exclusive(s) && WritersCounted(s) && NoWriterForgotten(s) && NoReaderForgotten(s)
  }

  lemma Moved(pc: map<nat, Pc>, t: nat, c: Pc)
    requires t in pc
    ensures forall d :: At(pc[t := c], d) == if d == c then At(pc, d) + {t} else At(pc, d) - {t}
  {
  }

  lemma MovedSizes(pc: map<nat, Pc>, t: nat, c: Pc)
    requires t in pc && c != pc[t]
    ensures |At(pc[t := c], c)| == |At(pc, c)| + 1
    ensures |At(pc[t := c], pc[t])| == |At(pc, pc[t])| - 1
    ensures forall d :: d != c && d != pc[t] ==> At(pc[t := c], d) == At(pc, d)
  {
    Moved(pc, t, c);
    assert t !in At(pc, c) && t in At(pc, pc[t]);
    forall d | d != c && d != pc[t]
      ensures At(pc, d) - {t} == At(pc, d)
    {
    }
  }

  lemma WokenAt(pc: map<nat, Pc>, woken: set<nat>, from: Pc, to: Pc, d: Pc)
    requires woken <= At(pc, from) && from != to
    ensures At(Woken(pc, woken, to), d) ==
      if d == to then At(pc, to) + woken else if d == from then At(pc, from) - woken else At(pc, d)
  {
    var pc' := Woken(pc, woken, to);
    assert pc'.Keys == pc.Keys;
  }

  lemma WokenSizes(pc: map<nat, Pc>, woken: set<nat>, from: Pc, to: Pc)
    requires woken <= At(pc, from) && from != to
    ensures At(Woken(pc, woken, to), from) == At(pc, from) - woken
    ensures At(Woken(pc, woken, to), to) == At(pc, to) + woken
    ensures |At(Woken(pc, woken, to), to)| == |At(pc, to)| + |woken|
    ensures |At(Woken(pc, woken, to), from)| == |At(pc, from)| - |woken|
    ensures forall d :: d != from && d != to ==> At(Woken(pc, woken, to), d) == At(pc, d)
  {
    assert At(pc, to) * woken == {};
    hide At, Woken;
    forall d
      ensures At(Woken(pc, woken, to), d) ==
        if d == to then At(pc, to) + woken else if d == from then At(pc, from) - woken else At(pc, d)
    {
      WokenAt(pc, woken, from, to, d);
    }
    assert At(pc, from) == (At(pc, from) - woken) + woken;
  }

  lemma ReaderTriesKeeps(s: State, s': State, t: nat)
    requires Inv(s) && ReaderTries(s, s', t)
    ensures Inv(s')
  {
    hide At;
    MovedSizes(s.pc, t, s'.pc[t]);
  }

  lemma WriterTriesKeeps(s: State, s': State, t: nat)
    requires Inv(s) && (WriterTries(s, s', t) || WriterResumes(s, s', t))
    ensures Inv(s')
  {
    hide At;
    MovedSizes(s.pc, t, s'.pc[t]);
  }

  lemma SpuriousKeeps(s: State, s': State, t: nat)
    requires Inv(s) && SpuriousWakeUp(s, s', t)
    ensures Inv(s')
  {
    hide At;
    MovedSizes(s.pc, t, s'.pc[t]);
  }

  lemma NotWoken(pc: map<nat, Pc>, t: nat, woken: set<nat>, from: Pc, to: Pc)
    requires t in pc && pc[t] != from && woken <= At(pc, from)
    ensures t in Woken(pc, woken, to) && Woken(pc, woken, to)[t] == pc[t]
  {
  }

  lemma ReaderLeavesKeeps(s: State, s': State, t: nat, woken: set<nat>)
    requires Inv(s) && ReaderLeaves(s, s', t, woken)
    ensures Inv(s')
  {
    hide At, Woken;
    NotWoken(s.pc, t, woken, WriterWaits, WriterSignalled);
    WokenSizes(s.pc, woken, WriterWaits, WriterSignalled);
    MovedSizes(Woken(s.pc, woken, WriterSignalled), t, Idle);
  }

  lemma WriterToWriterKeeps(s: State, s': State, t: nat, woken: set<nat>)
    requires Inv(s) && WriterLeaves(s, s', t, woken) && s.writersWaiting > 0
    ensures Inv(s')
  {
    hide At, Woken;
    NotWoken(s.pc, t, woken, WriterWaits, WriterSignalled);
    WokenSizes(s.pc, woken, WriterWaits, WriterSignalled);
    MovedSizes(Woken(s.pc, woken, WriterSignalled), t, Idle);
  }

  lemma WriterToReadersKeeps(s: State, s': State, t: nat, woken: set<nat>)
    requires Inv(s) && WriterLeaves(s, s', t, woken) && s.writersWaiting <= 0
    ensures Inv(s')
  {
    hide At, Woken;
    NotWoken(s.pc, t, woken, ReaderWaits, ReaderSignalled);
    WokenSizes(s.pc, woken, ReaderWaits, ReaderSignalled);
    MovedSizes(Woken(s.pc, woken, ReaderSignalled), t, Idle);
  }

  lemma StepKeeps(s: State, s': State)
    requires Inv(s) && Next(s, s')
    ensures Inv(s')
  {
    hide Inv;
    var t :| Serves(s, s', t) || ReaderTries(s, s', t) || WriterTries(s, s', t) || SpuriousWakeUp(s, s', t);
    if Leaves(s, s', t) {
      var woken :| ReaderLeaves(s, s', t, woken) || WriterLeaves(s, s', t, woken);
      if ReaderLeaves(s, s', t, woken) {
        ReaderLeavesKeeps(s, s', t, woken);
      } else {
        if s.writersWaiting > 0 {
          WriterToWriterKeeps(s, s', t, woken);
        } else {
          WriterToReadersKeeps(s, s', t, woken);
        }
      }
    } else if ReaderTries(s, s', t) {
      ReaderTriesKeeps(s, s', t);
    } else if SpuriousWakeUp(s, s', t) {
      SpuriousKeeps(s, s', t);
    } else {
      WriterTriesKeeps(s, s', t);
    }
  }

  lemma InitialHolds(s: State)
    requires Initial(s)
    ensures Inv(s)
  {
    forall d | d != Idle
      ensures At(s.pc, d) == {}
    {
    }
  }

  // ---- safety of every run

  /** In every state of every run the counters are the true counts and no wake-up is lost. */
  lemma {:induction false} RunsAreSafe(run: seq<State>, i: nat)
    requires IsRun(run) && i < |run|
    ensures Inv(run[i])
  {
    if i == 0 {
      InitialHolds(run[0]);
    } else {
      RunsAreSafe(run, i - 1);
      StepKeeps(run[i - 1], run[i]);
    }
  }

  lemma OnlyElement<T>(A: set<T>, x: T, y: T)
    requires |A| == 1 && x in A && y in A
    ensures x == y
  {
    assert |A - {x}| == 0;
    assert y !in A - {x};
  }

  /** A writer holds the lock alone. */
  lemma WritersExclude(run: seq<State>, i: nat, w: nat, t: nat)
    requires IsRun(run) && i < |run|
    requires w in run[i].pc && run[i].pc[w] == Writes
    requires t in run[i].pc && (run[i].pc[t] == Writes || run[i].pc[t] == Reads)
    ensures t == w && run[i].nReaders == -1
  {
    RunsAreSafe(run, i);
    var s := run[i];
    assert w in At(s.pc, Writes) && t in At(s.pc, s.pc[t]);
    if s.pc[t] == Writes {
      OnlyElement(At(s.pc, Writes), w, t);
    }
  }

  /** No reader enters while a writer waits or writes. */
  lemma ReadersYield(s: State, s': State, t: nat)
    requires Inv(s) && Next(s, s')
    requires t in s.pc && t in s'.pc && s.pc[t] != Reads && s'.pc[t] == Reads
    ensures At(s.pc, WriterWaits) == {} && At(s.pc, WriterSignalled) == {} && At(s.pc, Writes) == {}
  {
    hide At;
  }

  /** While writers wait, the set of readers can only shrink. */
  lemma {:induction false} ReadersOnlyLeave(run: seq<State>)
    requires |run| > 0 && Inv(run[0])
    requires forall i :: 0 <= i < |run| - 1 ==> Next(run[i], run[i + 1]) && run[i].writersWaiting > 0
    ensures At(run[|run| - 1].pc, Reads) <= At(run[0].pc, Reads)
    decreases |run|
  {
    hide Inv, Next;
    if |run| > 1 {
      StepKeeps(run[0], run[1]);
      NoNewReader(run[0], run[1]);
      ReadersOnlyLeave(run[1..]);
    }
  }

  lemma NoNewReader(s: State, s': State)
    requires Next(s, s') && s.writersWaiting > 0
    ensures At(s'.pc, Reads) <= At(s.pc, Reads)
  {
  }

  // ---- every call returns

  /** As long as some thread waits for the lock or holds it, one of these threads can go on. */
  lemma NoDeadlock(s: State, t: nat)
    requires Inv(s) && t in s.pc && s.pc[t] != Idle
    ensures exists u, s' :: Serves(s, s', u)
  {
    assert t in At(s.pc, s.pc[t]);
    if u :| u in At(s.pc, Reads) {
      var woken := if s.nReaders == 1 && s.writersWaiting > 0 then At(s.pc, WriterWaits) else {};
      var s' := s.(nReaders := s.nReaders - 1, pc := Woken(s.pc, woken, WriterSignalled)[u := Idle]);
      assert ReaderLeaves(s, s', u, woken);
      assert Serves(s, s', u);
    } else if u :| u in At(s.pc, Writes) {
      var woken := At(s.pc, if s.writersWaiting > 0 then WriterWaits else ReaderWaits);
      var to := if s.writersWaiting > 0 then WriterSignalled else ReaderSignalled;
      var s' := s.(nReaders := 0, pc := Woken(s.pc, woken, to)[u := Idle]);
      assert WriterLeaves(s, s', u, woken);
      assert Serves(s, s', u);
    } else if u :| u in At(s.pc, ReaderSignalled) {
      var s' := if s.nReaders == -1 || s.writersWaiting > 0 then s.(pc := s.pc[u := ReaderWaits])
                else s.(nReaders := s.nReaders + 1, pc := s.pc[u := Reads]);
      assert Serves(s, s', u);
    } else if u :| u in At(s.pc, WriterSignalled) {
      var s' := if s.nReaders != 0 then s.(pc := s.pc[u := WriterWaits])
                else s.(nReaders := -1, writersWaiting := s.writersWaiting - 1, pc := s.pc[u := Writes]);
      assert Serves(s, s', u);
    }
  }

  ghost function Waiting(s: State): nat {
    |At(s.pc, ReaderWaits)| + |At(s.pc, WriterWaits)|
  }

  ghost function Signalled(s: State): nat {
    |At(s.pc, ReaderSignalled)| + |At(s.pc, WriterSignalled)|
  }

  ghost function Holding(s: State): nat {
    |At(s.pc, Reads)| + |At(s.pc, Writes)|
  }

  /** How many steps the threads that have called the lock can still take. */
  ghost function Work(s: State): nat {
    (|s.pc| + 1) * (Waiting(s) + Signalled(s) + Holding(s)) + Waiting(s) + 2 * Signalled(s)
  }

  lemma HolderLeft(pc: map<nat, Pc>, t: nat, woken: set<nat>, from: Pc, to: Pc)
    requires t in pc && pc[t] != Idle && pc[t] != from && pc[t] != to && woken <= At(pc, from)
    requires from != to && from != Idle && to != Idle
    ensures var pc' := Woken(pc, woken, to)[t := Idle];
      && |pc'| == |pc| && |woken| <= |pc|
      && |At(pc', pc[t])| == |At(pc, pc[t])| - 1
      && |At(pc', from)| == |At(pc, from)| - |woken| && |At(pc', to)| == |At(pc, to)| + |woken|
      && forall d :: d != from && d != to && d != pc[t] && d != Idle ==> |At(pc', d)| == |At(pc, d)|
  {
    SubsetSize(woken, pc.Keys);
    SameSize(pc, t, woken, to);
    hide At, Woken;
    NotWoken(pc, t, woken, from, to);
    WokenSizes(pc, woken, from, to);
    MovedSizes(Woken(pc, woken, to), t, Idle);
  }

  lemma SameSize(pc: map<nat, Pc>, t: nat, woken: set<nat>, to: Pc)
    requires t in pc
    ensures |Woken(pc, woken, to)[t := Idle]| == |pc|
  {
    assert Woken(pc, woken, to)[t := Idle].Keys == pc.Keys;
    KeysSize(pc);
    KeysSize(Woken(pc, woken, to)[t := Idle]);
  }

  lemma KeysSize(pc: map<nat, Pc>)
    ensures |pc| == |pc.Keys|
  {
  }

  lemma ReaderLeavingWorks(s: State, s': State, t: nat, woken: set<nat>)
    requires ReaderLeaves(s, s', t, woken)
    ensures Work(s') < Work(s)
  {
    hide At, Woken;
    HolderLeft(s.pc, t, woken, WriterWaits, WriterSignalled);
    HolderExists(s.pc, t, woken, WriterWaits);
    WorkLess(|s.pc|, Waiting(s), Signalled(s), Holding(s), |woken|);
  }

  lemma WriterLeavingWorks(s: State, s': State, t: nat, woken: set<nat>)
    requires WriterLeaves(s, s', t, woken)
    ensures Work(s') < Work(s)
  {
    hide At, Woken;
    if s.writersWaiting > 0 {
      HolderLeft(s.pc, t, woken, WriterWaits, WriterSignalled);
      HolderExists(s.pc, t, woken, WriterWaits);
    } else {
      HolderLeft(s.pc, t, woken, ReaderWaits, ReaderSignalled);
      HolderExists(s.pc, t, woken, ReaderWaits);
    }
    WorkLess(|s.pc|, Waiting(s), Signalled(s), Holding(s), |woken|);
  }

  lemma HolderExists(pc: map<nat, Pc>, t: nat, woken: set<nat>, from: Pc)
    requires t in pc && woken <= At(pc, from)
    ensures |At(pc, pc[t])| > 0 && |woken| <= |At(pc, from)|
  {
    assert t in At(pc, pc[t]);
    SubsetSize(woken, At(pc, from));
  }

  lemma TryingWorks(s: State, s': State, t: nat)
    requires (ReaderTries(s, s', t) && s.pc[t] == ReaderSignalled) || WriterResumes(s, s', t)
    ensures Work(s') < Work(s)
  {
    hide At;
    MovedSizes(s.pc, t, s'.pc[t]);
    KeysSize(s.pc);
    KeysSize(s'.pc);
    assert s'.pc.Keys == s.pc.Keys;
    assert Waiting(s') + Signalled(s') + Holding(s') == Waiting(s) + Signalled(s) + Holding(s);
  }

  /** Each of these steps uses up work. */
  lemma ServingWorks(s: State, s': State, t: nat)
    requires Serves(s, s', t)
    ensures Work(s') < Work(s)
  {
    hide Work, ReaderLeaves, WriterLeaves;
    if Leaves(s, s', t) {
      var woken :| ReaderLeaves(s, s', t, woken) || WriterLeaves(s, s', t, woken);
      if ReaderLeaves(s, s', t, woken) {
        ReaderLeavingWorks(s, s', t, woken);
      } else {
        WriterLeavingWorks(s, s', t, woken);
      }
    } else {
      TryingWorks(s, s', t);
    }
  }

  lemma WorkLess(n: nat, w: nat, g: nat, h: nat, k: nat)
    requires h > 0 && k <= w && k <= n
    ensures (n + 1) * ((w - k) + (g + k) + (h - 1)) + (w - k) + 2 * (g + k) < (n + 1) * (w + g + h) + w + 2 * g
  {
    assert (n + 1) * (w + g + h) == (n + 1) * (w + g + h - 1) + (n + 1);
  }

  ghost predicate Serving(s: State, s': State) {
    exists t :: Serves(s, s', t)
  }

  ghost predicate CanGoOn(s: State) {
    exists s' :: Serving(s, s')
  }

  ghost predicate AllIdle(s: State) {
    forall t :: t in s.pc ==> s.pc[t] == Idle
  }

  /** Without new calls and spurious wake-ups, the lock serves every thread: such a run is bounded,
      and it can go on until no thread waits or holds the lock. */
  lemma {:induction false} EveryCallReturns(run: seq<State>)
    requires |run| > 0 && Inv(run[0])
    requires forall i :: 0 <= i < |run| - 1 ==> Serving(run[i], run[i + 1])
    ensures |run| <= Work(run[0]) + 1
    ensures AllIdle(run[|run| - 1]) || CanGoOn(run[|run| - 1])
    decreases |run|
  {
    hide Inv, Serves, Work;
    if |run| == 1 {
      if t :| t in run[0].pc && run[0].pc[t] != Idle {
        NoDeadlock(run[0], t);
        var u, s' :| Serves(run[0], s', u);
        assert Serving(run[0], s');
      }
    } else {
      var t :| Serves(run[0], run[1], t);
      ServingWorks(run[0], run[1], t);
      assert Next(run[0], run[1]);
      StepKeeps(run[0], run[1]);
      EveryCallReturns(run[1..]);
    }
  }

  ghost predicate Calls(s: State, s': State, t: nat) {
    t in s.pc && s.pc[t] == Idle && (ReaderTries(s, s', t) || WriterTries(s, s', t))
  }

  ghost predicate Calling(s: State, s': State) {
    exists t :: Calls(s, s', t)
  }

  /** A step that serves no thread is a new call or else a spurious wake-up. */
  ghost function NewCalls(run: seq<State>): nat {
    if |run| <= 1 then 0
    else NewCalls(run[1..]) + if !Serving(run[0], run[1]) && Calling(run[0], run[1]) then 1 else 0
  }

  ghost function WakeUps(run: seq<State>): nat {
    if |run| <= 1 then 0
    else WakeUps(run[1..]) + if !Serving(run[0], run[1]) && !Calling(run[0], run[1]) then 1 else 0
  }

  lemma ServesSame(s: State, s': State, t: nat)
    requires Serves(s, s', t)
    ensures |s'.pc| == |s.pc|
  {
    hide At, WriterTests;
    KeysSize(s.pc);
    KeysSize(s'.pc);
    if Leaves(s, s', t) {
      var woken :| ReaderLeaves(s, s', t, woken) || WriterLeaves(s, s', t, woken);
      if ReaderLeaves(s, s', t, woken) {
        SameSize(s.pc, t, woken, WriterSignalled);
      } else {
        SameSize(s.pc, t, woken, if s.writersWaiting > 0 then WriterSignalled else ReaderSignalled);
      }
    } else {
      TryingKeeps(s, s', t);
    }
  }

  lemma TryingKeeps(s: State, s': State, t: nat)
    requires (ReaderTries(s, s', t) && s.pc[t] == ReaderSignalled) || WriterResumes(s, s', t)
    ensures |s'.pc| == |s.pc|
  {
    KeysSize(s.pc);
    KeysSize(s'.pc);
    assert s'.pc.Keys == s.pc.Keys;
  }

  /** A call brings in as much work as one thread can cause. */
  lemma CallAddsWork(s: State, s': State, t: nat)
    requires Calls(s, s', t)
    ensures |s'.pc| == |s.pc| && Work(s') <= Work(s) + |s.pc| + 2
  {
    hide At;
    MovedSizes(s.pc, t, s'.pc[t]);
    KeysSize(s.pc);
    KeysSize(s'.pc);
    assert s'.pc.Keys == s.pc.Keys;
    assert Waiting(s') + Signalled(s') + Holding(s') == Waiting(s) + Signalled(s) + Holding(s) + 1;
  }

  lemma WakeUpAddsWork(s: State, s': State, t: nat)
    requires SpuriousWakeUp(s, s', t)
    ensures |s'.pc| == |s.pc| && Work(s') == Work(s) + 1
  {
    hide At;
    MovedSizes(s.pc, t, s'.pc[t]);
    KeysSize(s.pc);
    KeysSize(s'.pc);
    assert s'.pc.Keys == s.pc.Keys;
    assert Waiting(s') + Signalled(s') + Holding(s') == Waiting(s) + Signalled(s) + Holding(s);
  }

  /** The length of any stretch of a run is bounded by the new calls and spurious wake-ups in it: nothing
      goes on forever, and so no thread waits forever, without infinitely many of them. */
  lemma {:induction false} CallsBoundRuns(run: seq<State>)
    requires |run| > 0 && forall i :: 0 <= i < |run| - 1 ==> Next(run[i], run[i + 1])
    ensures |run| - 1 <= Work(run[0]) + (|run[0].pc| + 3) * NewCalls(run) + 2 * WakeUps(run)
    decreases |run|
  {
    hide Next, Serves, Calls, SpuriousWakeUp, Work;
    if |run| > 1 {
      var a, b, rest := run[0], run[1], run[1..];
      CallsBoundRuns(rest);
      NextIs(a, b);
      var n := |a.pc|;
      if Serving(a, b) {
        var t :| Serves(a, b, t);
        ServingWorks(a, b, t);
        ServesSame(a, b, t);
      } else if Calling(a, b) {
        var t :| Calls(a, b, t);
        CallAddsWork(a, b, t);
        assert (n + 3) * NewCalls(run) == (n + 3) * NewCalls(rest) + (n + 3);
      } else {
        var t :| SpuriousWakeUp(a, b, t);
        WakeUpAddsWork(a, b, t);
      }
    }
  }

  lemma NextIs(s: State, s': State)
    requires Next(s, s')
    ensures Serving(s, s') || Calling(s, s') || exists t :: SpuriousWakeUp(s, s', t)
  {
    hide WriterTests, WriterResumes, Leaves, SpuriousWakeUp;
    var t :| Serves(s, s', t) || ReaderTries(s, s', t) || WriterTries(s, s', t) || SpuriousWakeUp(s, s', t);
    if ReaderTries(s, s', t) && !Serves(s, s', t) {
      assert Calls(s, s', t);
    } else if WriterTries(s, s', t) {
      assert Calls(s, s', t);
    }
  }

  /** Writer `u` holds the lock, writer `v` and reader 2 wait for it. */
  ghost function Turn(u: nat, v: nat): State {
    State(-1, 1, map[u := Writes, v := WriterWaits, 2 := ReaderWaits])
  }

  ghost function Passing(u: nat, v: nat): State {
    State(0, 1, map[u := Idle, v := WriterSignalled, 2 := ReaderWaits])
  }

  lemma TurnEnds(u: nat, v: nat)
    requires u != v && u != 2 && v != 2
    ensures Serves(Turn(u, v), Passing(u, v), u)
  {
    hide ReaderTries, WriterResumes;
    var a := Turn(u, v);
    assert At(a.pc, WriterWaits) == {v};
    assert Woken(a.pc, {v}, WriterSignalled)[u := Idle] == Passing(u, v).pc;
    assert WriterLeaves(a, Passing(u, v), u, {v});
  }

  lemma TakeTurns(u: nat, v: nat) returns (c: State)
    requires u != v && u != 2 && v != 2
    ensures Next(Turn(u, v), Passing(u, v)) && Next(Passing(u, v), c) && Next(c, Turn(v, u))
    ensures 2 in c.pc && c.pc[2] == ReaderWaits
  {
    hide Leaves, ReaderTries;
    TurnEnds(u, v);
    c := State(-1, 0, map[u := Idle, v := Writes, 2 := ReaderWaits]);
    assert WriterResumes(Passing(u, v), c, v);
    assert Serves(Passing(u, v), c, v);
    assert c.pc[u := WriterWaits] == Turn(v, u).pc;
    assert WriterTries(c, Turn(v, u), u);
  }

  /** Readers have no such promise against new calls: two writers can take turns forever while a
      reader waits. The run goes from a correct state back to that state. */
  lemma ReadersCanStarve() returns (run: seq<State>)
    ensures |run| == 7 && run[0] == Turn(0, 1) && run[3] == Turn(1, 0) && run[6] == run[0] && Inv(run[0])
    ensures forall i :: 0 <= i < 6 ==> Next(run[i], run[i + 1])
    ensures forall i :: 0 <= i < 7 ==> 2 in run[i].pc && run[i].pc[2] == ReaderWaits
  {
    hide Next;
    var a := Turn(0, 1);
    var c := TakeTurns(0, 1);
    var e := TakeTurns(1, 0);
    run := [a, Passing(0, 1), c, Turn(1, 0), Passing(1, 0), e, a];
    assert At(a.pc, Writes) == {0} && At(a.pc, WriterWaits) == {1};
    assert At(a.pc, Reads) == {} && At(a.pc, WriterSignalled) == {};
  }

  // ---- the code

  /** The lock with its two counters. Each method is the code of one step: from taking the mutex to
      giving it up, in pthread_cond_wait or at the end. */
  class Lock {
    var nReaders: int
    var writersWaiting: int
    ghost var pc: map<nat, Pc>

    ghost function Abstract(): State
      reads this
    {
      State(nReaders, writersWaiting, pc)
    }

    constructor (ghost threads: set<nat>)
      ensures Initial(Abstract()) && pc.Keys == threads
    {
      nReaders, writersWaiting := 0, 0;
      pc := map t | t in threads :: Idle;
    }

    /** r_lock: the loop test, on entry and after each wake-up; false if the thread has to wait. */
    method RLock(t: nat) returns (entered: bool)
      requires t in pc && (pc[t] == Idle || pc[t] == ReaderSignalled)
      modifies this
      ensures ReaderTries(old(Abstract()), Abstract(), t) && entered == (pc[t] == Reads)
    {
      if nReaders == -1 || writersWaiting > 0 {
        pc := pc[t := ReaderWaits];
        return false;
      }
      nReaders := nReaders + 1;
      pc := pc[t := Reads];
      return true;
    }

    /** r_unlock. The threads that a signal wakes are whatever `woken` says. */
    method RUnlock(t: nat, ghost woken: set<nat>)
      requires t in pc && pc[t] == Reads && Signals(pc, WriterWaits, woken)
      modifies this
      ensures exists w :: w <= woken && ReaderLeaves(old(Abstract()), Abstract(), t, w)
    {
      ghost var w: set<nat> := {};
      if nReaders == 1 && writersWaiting > 0 {
        w := woken;
        pc := Woken(pc, woken, WriterSignalled);
      }
      assert pc == Woken(old(pc), w, WriterSignalled);
      nReaders := nReaders - 1;
      pc := pc[t := Idle];
      assert ReaderLeaves(old(Abstract()), Abstract(), t, w);
    }

    /** w_lock up to the first wait or the return. */
    method WLock(t: nat) returns (entered: bool)
      requires t in pc && pc[t] == Idle
      modifies this
      ensures WriterTries(old(Abstract()), Abstract(), t) && entered == (pc[t] == Writes)
    {
      writersWaiting := writersWaiting + 1;
      entered := WTest(t);
    }

    /** The loop test of w_lock, and what follows it when the lock is free. */
    method WTest(t: nat) returns (entered: bool)
      requires t in pc
      modifies this
      ensures WriterTests(old(Abstract()), Abstract(), t) && entered == (pc[t] == Writes)
    {
      if nReaders != 0 {
        pc := pc[t := WriterWaits];
        return false;
      }
      nReaders := -1;
      writersWaiting := writersWaiting - 1;
      pc := pc[t := Writes];
      return true;
    }

    /** w_lock after a wake-up. */
    method WResume(t: nat) returns (entered: bool)
      requires t in pc && pc[t] == WriterSignalled
      modifies this
      ensures WriterResumes(old(Abstract()), Abstract(), t) && entered == (pc[t] == Writes)
    {
      entered := WTest(t);
    }

    /** w_unlock. */
    method WUnlock(t: nat, ghost woken: set<nat>)
      requires t in pc && pc[t] == Writes && Signals(pc, WriterWaits, woken)
      modifies this
      ensures exists w :: WriterLeaves(old(Abstract()), Abstract(), t, w)
    {
      nReaders := 0;
      ghost var w := if writersWaiting > 0 then woken else At(pc, ReaderWaits);
      if writersWaiting > 0 {
        pc := Woken(pc, woken, WriterSignalled);
      } else {
        pc := Woken(pc, At(pc, ReaderWaits), ReaderSignalled);
      }
      pc := pc[t := Idle];
      assert WriterLeaves(old(Abstract()), Abstract(), t, w);
    }
  }
}
