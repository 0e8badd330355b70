/** The task queue of threadpool.c and its worker threads, for any number of workers. */
module ThreadPool {
  import opened Sequences

  // The code between two points where the mutex is free is one step. A worker in pthread_cond_wait is
  // either still waiting or signalled.

  datatype Task = Task(routine: nat, data: nat)

  /** A task a worker took: the `ticket`-th task that was pushed. */
  datatype Job = Job(ticket: nat, task: Task)

  /** What a worker is doing: about to call pop, waiting in pop, woken up in pop, executing, gone. */
  datatype Worker = Ready | Waits | Signalled | Busy(job: Job) | Exited

  /** `pushed` is every task ever pushed, `popped` the number of tasks taken, and `executed` the finished
      jobs in the order of their ends. */
  datatype State = State(queue: seq<Task>, terminated: bool, workers: map<nat, Worker>,
                         pushed: seq<Task>, popped: nat, executed: seq<Job>)

  ghost function At(ws: map<nat, Worker>, w: Worker): set<nat> {
    set t | t in ws && ws[t] == w
  }

  ghost function BusyOnes(ws: map<nat, Worker>): set<nat> {
    set t | t in ws && ws[t].Busy?
  }

  // ---- the steps

  ghost predicate Initial(s: State) {
    && s.queue == [] && !s.terminated && s.pushed == [] && s.popped == 0 && s.executed == []
    && forall t :: t in s.workers ==> s.workers[t] == Ready
  }

  /** A signal wakes at least one of the workers that wait, if any does. */
  ghost predicate Signals(ws: map<nat, Worker>, woken: set<nat>) {
    woken <= At(ws, Waits) && (At(ws, Waits) != {} ==> woken != {})
  }

  ghost function Woken(ws: map<nat, Worker>, woken: set<nat>): map<nat, Worker> {
    map t | t in ws :: if t in woken then Signalled else ws[t]
  }

  ghost predicate Push(s: State, s': State, task: Task, woken: set<nat>) {
    && Signals(s.workers, woken)
    && s' == s.(queue := s.queue + [task], pushed := s.pushed + [task], workers := Woken(s.workers, woken))
  }

  /** The loop test of pop, on entry or after a wake-up, up to the wait or the return. */
  ghost predicate Pop(s: State, s': State, t: nat) {
    && t in s.workers && (s.workers[t] == Ready || s.workers[t] == Signalled)
    && if s.queue == [] then s' == s.(workers := s.workers[t := if s.terminated then Exited else Waits])
       else s' == s.(queue := s.queue[1..], popped := s.popped + 1,
                     workers := s.workers[t := Busy(Job(s.popped, s.queue[0]))])
  }

  ghost predicate Finish(s: State, s': State, t: nat) {
    && t in s.workers && s.workers[t].Busy?
    && s' == s.(executed := s.executed + [s.workers[t].job], workers := s.workers[t := Ready])
  }

  ghost predicate Shutdown(s: State, s': State) {
    s' == s.(terminated := true, workers := Woken(s.workers, At(s.workers, Waits)))
  }

  /** pthread_cond_wait may return without a signal. */
  ghost predicate SpuriousWakeUp(s: State, s': State, t: nat) {
    t in s.workers && s.workers[t] == Waits && s' == s.(workers := s.workers[t := Signalled])
  }

  /** A step of a worker. */
  ghost predicate Works(s: State, s': State) {
    exists t :: Pop(s, s', t) || Finish(s, s', t)
  }

  ghost predicate Pushes(s: State, s': State) {
    exists task, woken :: Push(s, s', task, woken)
  }

  ghost predicate WakesUp(s: State, s': State) {
    exists t :: SpuriousWakeUp(s, s', t)
  }

  ghost predicate Next(s: State, s': State) {
    Works(s, s') || Pushes(s, s') || WakesUp(s, s') || Shutdown(s, s')
  }

  ghost predicate IsRun(run: seq<State>) {
    && |run| > 0 && Initial(run[0])
    && forall i :: 0 <= i < |run| - 1 ==> Next(run[i], run[i + 1])
  }

  // ---- the invariant

  /** Tasks leave the queue in the order in which they were pushed. */
  ghost predicate Fifo(s: State) {
    s.popped <= |s.pushed| && s.queue == s.pushed[s.popped..]
  }

  /** The job is a task that was taken from the queue. */
  ghost predicate IsJob(s: State, j: Job) {
    j.ticket < s.popped <= |s.pushed| && j.task == s.pushed[j.ticket]
  }

  ghost predicate InHand(ws: map<nat, Worker>, ticket: nat) {
    exists t :: t in ws && ws[t].Busy? && ws[t].job.ticket == ticket
  }

  ghost predicate Done(executed: seq<Job>, ticket: nat) {
    exists i :: 0 <= i < |executed| && executed[i].ticket == ticket
  }

  /** Every task taken is in the hands of exactly one worker or was executed, and that once. */
  ghost predicate OnceEach(s: State) {
    && (forall t :: t in s.workers && s.workers[t].Busy? ==>
        IsJob(s, s.workers[t].job) && !Done(s.executed, s.workers[t].job.ticket))
    && (forall t, u :: t in s.workers && u in s.workers && t != u && s.workers[t].Busy? && s.workers[u].Busy? ==>
        s.workers[t].job.ticket != s.workers[u].job.ticket)
    && (forall i :: 0 <= i < |s.executed| ==> IsJob(s, s.executed[i]))
    && (forall i, j :: 0 <= i < j < |s.executed| ==> s.executed[i].ticket != s.executed[j].ticket)
    && forall k: nat :: k < s.popped ==> InHand(s.workers, k) || Done(s.executed, k)
  }

  /** While a worker sleeps, every queued task has a signalled worker of its own. */
  ghost predicate NoTaskForgotten(s: State) {
    At(s.workers, Waits) != {} ==> |s.queue| <= |At(s.workers, Signalled)|
  }

  /** Workers leave only after the shutdown, and nobody sleeps after it. */
  ghost predicate CleanExit(s: State) {
    && (At(s.workers, Exited) != {} ==> s.terminated)
    && (s.terminated ==> At(s.workers, Waits) == {})
  }

  ghost predicate Inv(s: State) {
    Fifo(s) && OnceEach(s) && NoTaskForgotten(s) && CleanExit(s)
  }

  // ---- the invariant holds

  lemma Moved(ws: map<nat, Worker>, t: nat, w: Worker)
    requires t in ws
    ensures forall d :: At(ws[t := w], d) == if d == w then At(ws, d) + {t} else At(ws, d) - {t}
  {
  }

  lemma MovedSizes(ws: map<nat, Worker>, t: nat, w: Worker)
    requires t in ws && w != ws[t]
    ensures |At(ws[t := w], w)| == |At(ws, w)| + 1
    ensures |At(ws[t := w], ws[t])| == |At(ws, ws[t])| - 1
    ensures forall d :: d != w && d != ws[t] ==> At(ws[t := w], d) == At(ws, d)
  {
    Moved(ws, t, w);
    assert t !in At(ws, w) && t in At(ws, ws[t]);
    forall d | d != w && d != ws[t]
      ensures At(ws, d) - {t} == At(ws, d)
    {
    }
  }

  lemma WokenAt(ws: map<nat, Worker>, woken: set<nat>, d: Worker)
    requires woken <= At(ws, Waits)
    ensures At(Woken(ws, woken), d) ==
      if d == Signalled then At(ws, d) + woken else if d == Waits then At(ws, d) - woken else At(ws, d)
  {
    var ws' := Woken(ws, woken);
    assert ws'.Keys == ws.Keys;
  }

  lemma WokenSizes(ws: map<nat, Worker>, woken: set<nat>)
    requires woken <= At(ws, Waits)
    ensures At(Woken(ws, woken), Waits) == At(ws, Waits) - woken
    ensures At(Woken(ws, woken), Signalled) == At(ws, Signalled) + woken
    ensures |At(Woken(ws, woken), Signalled)| == |At(ws, Signalled)| + |woken|
    ensures forall d :: d != Waits && d != Signalled ==> At(Woken(ws, woken), d) == At(ws, d)
  {
    assert At(ws, Signalled) * woken == {};
    hide At, Woken;
    forall d
      ensures At(Woken(ws, woken), d) ==
        if d == Signalled then At(ws, d) + woken else if d == Waits then At(ws, d) - woken else At(ws, d)
    {
      WokenAt(ws, woken, d);
    }
  }

  /** Nothing happened to the jobs. */
  ghost predicate SameJobs(ws: map<nat, Worker>, ws': map<nat, Worker>) {
    forall t :: (t in ws && ws[t].Busy?) || (t in ws' && ws'[t].Busy?) ==> t in ws && t in ws' && ws[t] == ws'[t]
  }

  lemma SameJobsKeep(s: State, s': State)
    requires OnceEach(s) && SameJobs(s.workers, s'.workers)
    requires s'.executed == s.executed && s'.popped == s.popped && s.pushed <= s'.pushed
    ensures OnceEach(s')
  {
    forall k: nat | k < s'.popped
      ensures InHand(s'.workers, k) || Done(s'.executed, k)
    {
      if InHand(s.workers, k) {
        var t :| t in s.workers && s.workers[t].Busy? && s.workers[t].job.ticket == k;
        assert s'.workers[t] == s.workers[t];
      }
    }
  }

  lemma WokenSameJobs(ws: map<nat, Worker>, woken: set<nat>)
    requires woken <= At(ws, Waits)
    ensures SameJobs(ws, Woken(ws, woken))
  {
  }

  lemma PushKeeps(s: State, s': State, task: Task, woken: set<nat>)
    requires Inv(s) && Push(s, s', task, woken)
    ensures Inv(s')
  {
    hide At, OnceEach, Woken, SameJobs;
    WokenSameJobs(s.workers, woken);
    SameJobsKeep(s, s');
    WokenSizes(s.workers, woken);
  }

  lemma ShutdownKeeps(s: State, s': State)
    requires Inv(s) && Shutdown(s, s')
    ensures Inv(s')
  {
    hide At, OnceEach, Woken, SameJobs;
    WokenSameJobs(s.workers, At(s.workers, Waits));
    SameJobsKeep(s, s');
    WokenSizes(s.workers, At(s.workers, Waits));
  }

  lemma SpuriousKeeps(s: State, s': State, t: nat)
    requires Inv(s) && SpuriousWakeUp(s, s', t)
    ensures Inv(s')
  {
    hide At, OnceEach;
    SameJobsKeep(s, s');
    MovedSizes(s.workers, t, Signalled);
  }

  lemma TakeJob(s: State, s': State, t: nat)
    requires Fifo(s) && OnceEach(s) && Pop(s, s', t) && s.queue != []
    ensures OnceEach(s')
  {
    assert s.queue[0] == s.pushed[s.popped];
    forall k: nat | k < s'.popped
      ensures InHand(s'.workers, k) || Done(s'.executed, k)
    {
      if k == s.popped {
        assert s'.workers[t].job.ticket == k;
      } else if InHand(s.workers, k) {
        var u :| u in s.workers && s.workers[u].Busy? && s.workers[u].job.ticket == k;
        assert s'.workers[u] == s.workers[u];
      }
    }
  }

  lemma PopKeeps(s: State, s': State, t: nat)
    requires Inv(s) && Pop(s, s', t)
    ensures Inv(s')
  {
    hide At, OnceEach;
    if s.queue == [] {
      SameJobsKeep(s, s');
    } else {
      TakeJob(s, s', t);
    }
    MovedSizes(s.workers, t, s'.workers[t]);
  }

  lemma FinishJob(s: State, s': State, t: nat)
    requires OnceEach(s) && Finish(s, s', t)
    ensures OnceEach(s')
  {
    var n := |s.executed|;
    forall k: nat
      ensures Done(s'.executed, k) <==> Done(s.executed, k) || k == s.workers[t].job.ticket
    {
      if Done(s.executed, k) {
        var i :| 0 <= i < n && s.executed[i].ticket == k;
        assert s'.executed[i].ticket == k;
      }
      assert s'.executed[n] == s.workers[t].job;
    }
    forall k: nat | k < s'.popped
      ensures InHand(s'.workers, k) || Done(s'.executed, k)
    {
      if InHand(s.workers, k) && k != s.workers[t].job.ticket {
        var u :| u in s.workers && s.workers[u].Busy? && s.workers[u].job.ticket == k;
        assert s'.workers[u] == s.workers[u];
      }
    }
  }

  lemma FinishKeeps(s: State, s': State, t: nat)
    requires Inv(s) && Finish(s, s', t)
    ensures Inv(s')
  {
    hide At, OnceEach;
    FinishJob(s, s', t);
    MovedSizes(s.workers, t, Ready);
  }

  lemma StepKeeps(s: State, s': State)
    requires Inv(s) && Next(s, s')
    ensures Inv(s')
  {
    hide Inv, Push, Pop, Finish, SpuriousWakeUp, Shutdown;
    if Works(s, s') {
      var t :| Pop(s, s', t) || Finish(s, s', t);
      if Pop(s, s', t) {
        PopKeeps(s, s', t);
      } else {
        FinishKeeps(s, s', t);
      }
    } else if Pushes(s, s') {
      var task, woken :| Push(s, s', task, woken);
      PushKeeps(s, s', task, woken);
    } else if WakesUp(s, s') {
      var t :| SpuriousWakeUp(s, s', t);
      SpuriousKeeps(s, s', t);
    } else {
      ShutdownKeeps(s, s');
    }
  }

  /** In every state of every run, tasks left the queue in order, each task taken is executed at most
      once, and no queued task is forgotten. */
  lemma {:induction false} RunsAreSafe(run: seq<State>, i: nat)
    requires IsRun(run) && i < |run|
    ensures Inv(run[i])
  {
    hide Next;
    if i > 0 {
      RunsAreSafe(run, i - 1);
      StepKeeps(run[i - 1], run[i]);
    }
  }

  // ---- consequences for every run

  /** A worker leaves only after the shutdown and when it sees an empty queue. */
  lemma LeavesOnlyWhenDone(s: State, s': State, t: nat)
    requires Next(s, s') && t in s.workers && t in s'.workers
    requires s.workers[t] != Exited && s'.workers[t] == Exited
    ensures s.terminated && s.queue == []
  {
  }

  ghost predicate AllGone(s: State) {
    forall t :: t in s.workers ==> s.workers[t] == Exited
  }

  /** Exactly the tasks pushed were executed, each once. */
  ghost predicate AllDone(s: State) {
    && |s.executed| == |s.pushed|
    && (forall k: nat :: k < |s.pushed| ==> Done(s.executed, k))
    && forall x :: 0 <= x < |s.executed| ==>
      var j := s.executed[x]; j.ticket < |s.pushed| && j.task == s.pushed[j.ticket]
  }

  /** When nobody has a task in hand, what is not executed is in the queue. */
  lemma DoneOrQueued(s: State)
    requires Inv(s) && forall t :: t in s.workers ==> !s.workers[t].Busy?
    ensures AllDone(s) <==> s.queue == []
  {
    hide At;
    var tickets := seq(|s.executed|, x requires 0 <= x < |s.executed| => s.executed[x].ticket);
    assert Distinct(tickets) && Below(tickets, s.popped);
    DistinctBelow(tickets, s.popped);
    forall k: nat | k < s.popped
      ensures k in tickets
    {
      assert Done(s.executed, k);
      var x :| 0 <= x < |s.executed| && s.executed[x].ticket == k;
      assert tickets[x] == k;
    }
    AllBelow(Elems(tickets), s.popped);
    DistinctSize(tickets);
  }

  /** Once all workers have left, tasks can only come. */
  lemma NobodyLeft(s: State, s': State)
    requires Next(s, s') && AllGone(s)
    ensures s.queue <= s'.queue && s'.executed == s.executed && AllGone(s')
    ensures if Pushes(s, s') then s'.queue != [] else s'.queue == s.queue
  {
  }

  /** A task pushed after the last worker left stays in the queue for good. */
  lemma {:induction false} LateTasksStay(run: seq<State>)
    requires |run| > 0 && AllGone(run[0])
    requires forall i :: 0 <= i < |run| - 1 ==> Next(run[i], run[i + 1])
    ensures run[0].queue <= run[|run| - 1].queue && run[|run| - 1].executed == run[0].executed && AllGone(run[|run| - 1])
    decreases |run|
  {
    hide Next, AllGone;
    if |run| > 1 {
      NobodyLeft(run[0], run[1]);
      LateTasksStay(run[1..]);
    }
  }

  /** The last worker leaves an empty queue. */
  lemma LastLeaves(s: State, s': State)
    requires Next(s, s') && !AllGone(s) && AllGone(s')
    ensures s'.queue == []
  {
    hide At;
    var t :| t in s.workers && s.workers[t] != Exited;
    assert t in s'.workers && s'.workers[t] == Exited;
  }

  lemma SomeWorker(s: State)
    requires Initial(s) && s.workers != map[]
    ensures !AllGone(s)
  {
    var t :| t in s.workers;
    assert s.workers[t] == Ready;
  }

  lemma SameWorkers(s: State, s': State)
    requires Next(s, s')
    ensures s.workers != map[] <==> s'.workers != map[]
  {
    assert s'.workers.Keys == s.workers.Keys;
  }

  /** A task was pushed at step `j`, when all workers had left. */
  ghost predicate PushedTooLate(run: seq<State>, j: nat) {
    j + 1 < |run| && AllGone(run[j]) && Pushes(run[j], run[j + 1])
  }

  lemma {:induction false} QueueOfGone(run: seq<State>)
    requires IsRun(run) && run[|run| - 1].workers != map[] && AllGone(run[|run| - 1])
    ensures run[|run| - 1].queue == [] <==> !exists j :: PushedTooLate(run, j)
    decreases |run|
  {
    hide Next, AllGone, Initial, Pushes;
    var n: nat := |run| - 1;
    if n == 0 {
      SomeWorker(run[0]);
    } else {
      SameWorkers(run[n - 1], run[n]);
      if AllGone(run[n - 1]) {
        NobodyLeft(run[n - 1], run[n]);
        QueueOfGone(run[..n]);
        assert forall j: nat :: j + 1 < n ==> (PushedTooLate(run, j) <==> PushedTooLate(run[..n], j));
        assert PushedTooLate(run, n - 1) <==> Pushes(run[n - 1], run[n]);
      } else {
        LastLeaves(run[n - 1], run[n]);
        if j: nat :| PushedTooLate(run, j) {
          assert run[j..n][0] == run[j];
          LateTasksStay(run[j..n]);
        }
      }
    }
  }

  /** When all workers have left, exactly the tasks pushed were executed, each once, unless some task
      was pushed when nobody was left to take it. */
  lemma AllExecuted(run: seq<State>, i: nat)
    requires IsRun(run) && i < |run| && run[i].workers != map[] && AllGone(run[i])
    ensures AllDone(run[i]) <==> forall j :: 0 <= j < i && AllGone(run[j]) ==> !Pushes(run[j], run[j + 1])
  {
    hide Initial, Next, Pushes;
    RunsAreSafe(run, i);
    DoneOrQueued(run[i]);
    var r := run[..i + 1];
    QueueOfGone(r);
    forall j: nat | j < i
      ensures PushedTooLate(r, j) <==> AllGone(run[j]) && Pushes(run[j], run[j + 1])
    {
      assert r[j] == run[j] && r[j + 1] == run[j + 1];
    }
  }

  ghost predicate CanWork(s: State) {
    exists s' :: Works(s, s')
  }

  /** A queued task never waits with every worker asleep; and after the shutdown nobody sleeps. */
  lemma NoDeadlock(s: State, t: nat)
    requires Inv(s) && t in s.workers && s.workers[t] != Exited
    requires s.queue != [] || s.terminated
    ensures CanWork(s)
  {
    assert t in At(s.workers, s.workers[t]);
    if s.workers[t] == Waits {
      assert At(s.workers, Signalled) != {};
      var u :| u in At(s.workers, Signalled);
      CanPop(s, u);
    } else if s.workers[t].Busy? {
      CanFinish(s, t);
    } else {
      CanPop(s, t);
    }
  }

  lemma CanFinish(s: State, t: nat)
    requires t in s.workers && s.workers[t].Busy?
    ensures CanWork(s)
  {
    var s' := s.(executed := s.executed + [s.workers[t].job], workers := s.workers[t := Ready]);
    assert Finish(s, s', t);
    assert Works(s, s');
  }

  lemma CanPop(s: State, t: nat)
    requires t in s.workers && (s.workers[t] == Ready || s.workers[t] == Signalled)
    ensures CanWork(s)
  {
    var s' := if s.queue == [] then s.(workers := s.workers[t := if s.terminated then Exited else Waits])
              else s.(queue := s.queue[1..], popped := s.popped + 1,
                      workers := s.workers[t := Busy(Job(s.popped, s.queue[0]))]);
    assert Pop(s, s', t);
    assert Works(s, s');
  }

  /** How many steps the workers can take before they need a push or a wake-up. */
  ghost function Work(s: State): nat {
    3 * |s.queue| + 2 * |BusyOnes(s.workers)| + |At(s.workers, Ready)| + |At(s.workers, Signalled)|
  }

  lemma BusySize(ws: map<nat, Worker>, t: nat, w: Worker)
    requires t in ws
    ensures |BusyOnes(ws[t := w])| + (if ws[t].Busy? then 1 else 0) == |BusyOnes(ws)| + if w.Busy? then 1 else 0
  {
    assert BusyOnes(ws[t := w]) == if w.Busy? then BusyOnes(ws) + {t} else BusyOnes(ws) - {t};
  }

  lemma WorkingWorks(s: State, s': State)
    requires Works(s, s')
    ensures Work(s') < Work(s)
  {
    var t :| Pop(s, s', t) || Finish(s, s', t);
    hide At, BusyOnes;
    BusySize(s.workers, t, s'.workers[t]);
    MovedSizes(s.workers, t, s'.workers[t]);
  }

  /** Left alone, the workers come to rest after a bounded number of steps; then every task ever
      pushed has been executed, exactly unless tasks were waiting when no worker was left. */
  lemma {:induction false} QueueDrains(run: seq<State>)
    requires |run| > 0 && Inv(run[0]) && run[0].workers != map[]
    requires forall i :: 0 <= i < |run| - 1 ==> Works(run[i], run[i + 1])
    ensures |run| <= Work(run[0]) + 1
    ensures var s := run[|run| - 1]; CanWork(s) || (AllDone(s) <==> !(AllGone(run[0]) && run[0].queue != []))
    decreases |run|
  {
    hide Inv, Works, Work, AllDone, AllGone;
    if |run| == 1 {
      if !CanWork(run[0]) {
        RestingIsDone(run[0]);
      }
    } else {
      WorkingWorks(run[0], run[1]);
      assert Next(run[0], run[1]);
      StepKeeps(run[0], run[1]);
      WorkersStay(run[0], run[1]);
      QueueDrains(run[1..]);
    }
  }

  lemma WorkersStay(s: State, s': State)
    requires Works(s, s')
    ensures !AllGone(s) && (s.workers != map[] ==> s'.workers != map[])
    ensures AllGone(s') ==> s'.queue == []
  {
    var t :| Pop(s, s', t) || Finish(s, s', t);
    assert t in s.workers && s.workers[t] != Exited && t in s'.workers;
  }

  lemma RestingIsDone(s: State)
    requires Inv(s) && !CanWork(s) && s.workers != map[]
    ensures AllDone(s) <==> !(AllGone(s) && s.queue != [])
  {
    forall t | t in s.workers
      ensures !s.workers[t].Busy?
    {
      if s.workers[t].Busy? {
        CanFinish(s, t);
      }
    }
    DoneOrQueued(s);
    if s.queue != [] && !AllGone(s) {
      var t :| t in s.workers && s.workers[t] != Exited;
      NoDeadlock(s, t);
    }
  }

  // ---- the code

  class Node {
    const task: Task
    var next: Node?

    constructor (task: Task)
      ensures this.task == task && next == null
    {
      this.task, next := task, null;
    }
  }

  ghost predicate Linked(nodes: seq<Node>)
    reads nodes
  {
    forall i :: 0 <= i < |nodes| ==> nodes[i].next == Behind(nodes, i)
  }

  /** The node behind position `i`. */
  ghost function Behind(nodes: seq<Node>, i: nat): Node? {
    if i + 1 < |nodes| then nodes[i + 1] else null
  }

  lemma LinkedRest(nodes: seq<Node>)
    requires Linked(nodes) && Distinct(nodes) && nodes != []
    ensures Linked(nodes[1..]) && Distinct(nodes[1..])
  {
    var rest := nodes[1..];
    forall i | 0 <= i < |rest|
      ensures rest[i].next == Behind(rest, i)
    {
      assert nodes[i + 1].next == Behind(nodes, i + 1);
    }
  }

  ghost function Tasks(nodes: seq<Node>): seq<Task> {
    seq(|nodes|, i requires 0 <= i < |nodes| => nodes[i].task)
  }

  lemma TasksAppend(nodes: seq<Node>, n: Node)
    ensures Tasks(nodes + [n]) == Tasks(nodes) + [n.task]
  {
  }

  datatype PopResult = Got(task: Task) | Terminating | MustWait

  /** The queue with its linked list of tasks. Each method is the code of one step: from taking the
      mutex to giving it up, in pthread_cond_wait or at the end. The ghost fields record the workers
      and what happened so far. */
  class TaskQueue {
    var first: Node?
    var last: Node?
    var terminated: bool
    ghost var nodes: seq<Node>
    ghost var workers: map<nat, Worker>
    ghost var pushed: seq<Task>
    ghost var popped: nat
    ghost var executed: seq<Job>

    ghost predicate Valid()
      reads this, nodes
    {
      && (if nodes == [] then first == null && last == null else first == nodes[0] && last == nodes[|nodes| - 1])
      && Distinct(nodes) && Linked(nodes)
    }

    ghost function Abstract(): State
      reads this
    {
      State(Tasks(nodes), terminated, workers, pushed, popped, executed)
    }

    constructor (ghost threads: set<nat>)
      ensures Valid() && Initial(Abstract()) && workers.Keys == threads && nodes == []
    {
      first, last, terminated := null, null, false;
      nodes, pushed, popped, executed := [], [], 0, [];
      workers := map t | t in threads :: Ready;
    }

    /** Queue management of push: a new node behind the last one. */
    method Enqueue(task: Task)
      requires Valid()
      modifies `first, `last, `nodes, nodes
      ensures Valid() && (forall n :: n in nodes ==> n in old(nodes) || fresh(n))
      ensures Tasks(nodes) == old(Tasks(nodes)) + [task]
    {
      hide Distinct, Tasks;
      var qtask := new Node(task);
      DistinctAppend(nodes, qtask);
      TasksAppend(nodes, qtask);
      if last == null {
        first := qtask;
        last := qtask;
      } else {
        last.next := qtask;
        last := qtask;
      }
      nodes := nodes + [qtask];
    }

    /** Queue management of pop: take the first node out. */
    method Dequeue() returns (task: Task)
      requires Valid() && nodes != []
      modifies `first, `last, `nodes
      ensures Valid() && nodes == old(nodes)[1..] && [task] + Tasks(nodes) == old(Tasks(nodes))
    {
      task := first.task;
      assert first == last ==> |nodes| == 1;
      if first == last {
        last := null;
      }
      assert first.next == Behind(nodes, 0);
      first := first.next;
      LinkedRest(nodes);
      nodes := nodes[1..];
    }

    /** pthread_queue_push. The workers that the signal wakes are whatever `woken` says. */
    method PushTask(task: Task, ghost woken: set<nat>)
      requires Valid() && Signals(workers, woken)
      modifies this, nodes
      ensures Valid() && (forall n :: n in nodes ==> n in old(nodes) || fresh(n))
      ensures Push(old(Abstract()), Abstract(), task, woken)
    {
      hide Linked, Tasks, Signals, Woken;
      Enqueue(task);
      pushed := pushed + [task];
      workers := Woken(workers, woken);
    }

    /** The loop test of pthread_queue_pop, on entry and after each wake-up, and what follows it. */
    method PopTask(t: nat) returns (r: PopResult)
      requires Valid() && t in workers && (workers[t] == Ready || workers[t] == Signalled)
      modifies this
      ensures Valid() && (forall n :: n in nodes ==> n in old(nodes)) && Pop(old(Abstract()), Abstract(), t)
      ensures r == match workers[t] { case Busy(job) => Got(job.task) case Exited => Terminating case _ => MustWait }
    {
      hide Linked;
      if first == null {
        if terminated {
          workers := workers[t := Exited];
          return Terminating;
        }
        workers := workers[t := Waits];
        return MustWait;
      }
      var task := Dequeue();
      workers := workers[t := Busy(Job(popped, task))];
      popped := popped + 1;
      assert old(Tasks(nodes)) == [task] + Tasks(nodes);
      return Got(task);
    }

    /** pthread_pool_routine after a task came back. */
    ghost method FinishTask(t: nat)
      requires t in workers && workers[t].Busy?
      modifies `workers, `executed
      ensures Finish(old(Abstract()), Abstract(), t)
    {
      executed := executed + [workers[t].job];
      workers := workers[t := Ready];
    }

    /** pthread_queue_shutdown. */
    method ShutdownQueue()
      modifies `terminated, `workers
      ensures Shutdown(old(Abstract()), Abstract())
    {
      terminated := true;
      workers := Woken(workers, At(workers, Waits));
    }
  }
}
