/**
 The thread pool as a system of atomic steps (src/thread_pool.cpp, include/libuv_net/thread_pool.hpp).
 Each critical section is one step.  Between leaving its critical section and notifying, a
 producer owes a notification, so the two can be separated by any other steps.
 */
module ThreadPoolSpec {
  import opened Message

  /** A worker about to take the lock, waiting on the condition variable, running a task, or returned. */
  datatype Worker = Ready | Asleep | Running(task: nat) | Exited

  /**
   `notices` counts owed `notify_one` calls and `stopNotice` the owed `notify_all`.
   `accepted`, `started` and `finished` are history, each in order.
   */
  datatype State = State(
    workers: seq<Worker>, tasks: seq<nat>, stop: bool, notices: nat, stopNotice: bool,
    accepted: seq<nat>, started: seq<nat>, finished: seq<nat>)

  datatype Step =
    | Enqueue(task: nat)     // enqueue or submit, up to the unlock
    | NotifyOne(woken: nat)  // wakes one sleeping worker
    | NotifyNobody           // nobody was asleep
    | Turn(i: nat)           // a worker holding the lock evaluates the wait predicate and acts on it
    | Spurious(i: nat)       // a sleeping worker wakes for no reason
    | Finish(i: nat)         // a task returns
    | Stop                   // the destructor sets the flag
    | NotifyAll              // the destructor wakes everybody

  function Initial(n: nat): State {
    State(seq(n, _ => Ready), [], false, 0, false, [], [], [])
  }

  predicate SomeoneAsleep(ws: seq<Worker>) {
    Asleep in ws
  }

  predicate Enabled(s: State, step: Step) {
    match step
    case Enqueue(_) => true
    case NotifyOne(i) => s.notices > 0 && i < |s.workers| && s.workers[i] == Asleep
    case NotifyNobody => s.notices > 0 && !SomeoneAsleep(s.workers)
    case Turn(i) => i < |s.workers| && s.workers[i] == Ready
    case Spurious(i) => i < |s.workers| && s.workers[i] == Asleep
    case Finish(i) => i < |s.workers| && s.workers[i].Running?
    case Stop => !s.stop
    case NotifyAll => s.stopNotice
  }

  function Woken(ws: seq<Worker>): seq<Worker> {
    seq(|ws|, i requires 0 <= i < |ws| => if ws[i] == Asleep then Ready else ws[i])
  }

  function Apply(s: State, step: Step): State
    requires Enabled(s, step)
  {
    match step
    case Enqueue(task) =>
      if s.stop then s
      else s.(tasks := s.tasks + [task], accepted := s.accepted + [task], notices := s.notices + 1)
    case NotifyOne(i) => s.(notices := s.notices - 1, workers := s.workers[i := Ready])
    case NotifyNobody => s.(notices := s.notices - 1)
    case Turn(i) =>
      if s.tasks == [] then s.(workers := s.workers[i := if s.stop then Exited else Asleep])
      else s.(workers := s.workers[i := Running(s.tasks[0])], tasks := s.tasks[1..], started := s.started + [s.tasks[0]])
    case Spurious(i) => s.(workers := s.workers[i := Ready])
    case Finish(i) => s.(workers := s.workers[i := Ready], finished := s.finished + [s.workers[i].task])
    case Stop => s.(stop := true, stopNotice := true)
    case NotifyAll => s.(stopNotice := false, workers := Woken(s.workers))
  }

  /** The steps can be taken one after another. */
  predicate Possible(s: State, steps: seq<Step>)
    decreases |steps|
  {
    steps == [] || (Enabled(s, steps[0]) && Possible(Apply(s, steps[0]), steps[1..]))
  }

  function After(s: State, steps: seq<Step>): State
    requires Possible(s, steps)
    decreases |steps|
  {
    if steps == [] then s else After(Apply(s, steps[0]), steps[1..])
  }

  // ----- Counting workers -----

  function Sum(f: Worker -> nat, ws: seq<Worker>): nat {
    if ws == [] then 0 else f(ws[0]) + Sum(f, ws[1..])
  }

  function Awake(w: Worker): nat {
    if w == Ready then 1 else 0
  }

  /** How many steps a worker can still take by itself before it needs another task. */
  function Weight(w: Worker): nat {
    match w
    case Ready => 1
    case Asleep => 2
    case Running(_) => 2
    case Exited => 0
  }

  /** Counts the workers running a given task. */
  function RunningOf(task: nat): Worker -> nat {
    w => if w == Running(task) then 1 else 0
  }

  lemma {:induction false} SumUpdate(f: Worker -> nat, ws: seq<Worker>, i: nat, w: Worker)
    requires i < |ws|
    ensures Sum(f, ws[i := w]) + f(ws[i]) == Sum(f, ws) + f(w)
    decreases |ws|
  {
    if i == 0 {
      assert ws[i := w][1..] == ws[1..];
    } else {
      SumUpdate(f, ws[1..], i - 1, w);
      assert ws[i := w][1..] == ws[1..][i - 1 := w];
    }
  }

  lemma {:induction false} WokenCounts(ws: seq<Worker>)
    ensures Sum(Weight, Woken(ws)) <= Sum(Weight, ws)
    ensures !SomeoneAsleep(Woken(ws))
    decreases |ws|
  {
    if ws != [] {
      WokenCounts(ws[1..]);
      assert Woken(ws)[1..] == Woken(ws[1..]);
    }
  }

  lemma {:induction false} WokenRunning(ws: seq<Worker>, task: nat)
    ensures Sum(RunningOf(task), Woken(ws)) == Sum(RunningOf(task), ws)
    decreases |ws|
  {
    if ws != [] {
      WokenRunning(ws[1..], task);
      assert Woken(ws)[1..] == Woken(ws[1..]);
    }
  }

  lemma {:induction false} AwakePositive(ws: seq<Worker>)
    ensures Sum(Awake, ws) > 0 ==> Ready in ws
    decreases |ws|
  {
    if ws != [] {
      AwakePositive(ws[1..]);
    }
  }

  lemma {:induction false} NobodyRuns(ws: seq<Worker>, task: nat)
    requires forall i :: 0 <= i < |ws| ==> !ws[i].Running?
    ensures Sum(RunningOf(task), ws) == 0
    decreases |ws|
  {
    if ws != [] {
      NobodyRuns(ws[1..], task);
    }
  }

  // ----- What every reachable state keeps -----

  /** Every accepted task starts once, in acceptance order, or is still queued in that order. */
  ghost predicate Fifo(s: State) {
    s.accepted == s.started + s.tasks
  }

  /** Every started task has finished or is being run. */
  ghost predicate Accounted(s: State) {
    forall t :: multiset(s.started)[t] == multiset(s.finished)[t] + Sum(RunningOf(t), s.workers)
  }

  /** While someone sleeps, each queued task has a notification owed or a worker awake for it. */
  ghost predicate NoneLost(s: State) {
    SomeoneAsleep(s.workers) ==> |s.tasks| <= s.notices + Sum(Awake, s.workers)
  }

  /** Workers return only after the stop and leave nothing queued; after `notify_all` nobody sleeps. */
  ghost predicate Orderly(s: State) {
    && (Exited in s.workers ==> s.stop && s.tasks == [])
    && (s.stopNotice ==> s.stop)
    && (s.stop && !s.stopNotice ==> !SomeoneAsleep(s.workers))
  }

  ghost predicate Inv(s: State) {
    Fifo(s) && Accounted(s) && NoneLost(s) && Orderly(s)
  }

  /** Replacing one worker. */
  lemma ReplaceMembers(ws: seq<Worker>, i: nat, w: Worker, x: Worker)
    requires i < |ws| && x in ws[i := w] && x != w
    ensures x in ws
  {
    var k :| 0 <= k < |ws| && ws[i := w][k] == x;
    assert k != i && ws[k] == x;
  }

  lemma WakeKeeps(s: State, i: nat, notices: nat)
    requires Inv(s) && i < |s.workers| && s.workers[i] == Asleep
    requires notices == s.notices || notices + 1 == s.notices
    ensures Inv(s.(workers := s.workers[i := Ready], notices := notices))
  {
    var t := s.(workers := s.workers[i := Ready], notices := notices);
    assert SomeoneAsleep(s.workers);
    SumUpdate(Awake, s.workers, i, Ready);
    forall x {
      SumUpdate(RunningOf(x), s.workers, i, Ready);
    }
    assert Accounted(t);
    if Exited in t.workers {
      ReplaceMembers(s.workers, i, Ready, Exited);
    }
  }

  lemma IdleTurnKeeps(s: State, i: nat)
    requires Inv(s) && Enabled(s, Turn(i)) && s.tasks == []
    ensures Inv(Apply(s, Turn(i)))
  {
    var t := Apply(s, Turn(i));
    var w := t.workers[i];
    forall x {
      SumUpdate(RunningOf(x), s.workers, i, w);
    }
    assert Accounted(t);
    if w != Exited && Exited in t.workers {
      ReplaceMembers(s.workers, i, w, Exited);
    }
    if w != Asleep && SomeoneAsleep(t.workers) {
      ReplaceMembers(s.workers, i, w, Asleep);
    }
  }

  lemma TakeKeeps(s: State, i: nat)
    requires Inv(s) && Enabled(s, Turn(i)) && s.tasks != []
    ensures Inv(Apply(s, Turn(i)))
  {
    var t, task := Apply(s, Turn(i)), s.tasks[0];
    var w := Running(task);
    assert s.started + s.tasks == s.started + [task] + s.tasks[1..];
    assert multiset(s.started + [task]) == multiset(s.started) + multiset{task};
    forall x {
      SumUpdate(RunningOf(x), s.workers, i, w);
    }
    assert Accounted(t);
    SumUpdate(Awake, s.workers, i, w);
    if Exited in t.workers {
      ReplaceMembers(s.workers, i, w, Exited);
    }
    if SomeoneAsleep(t.workers) {
      ReplaceMembers(s.workers, i, w, Asleep);
    }
  }

  lemma FinishKeeps(s: State, i: nat)
    requires Inv(s) && Enabled(s, Finish(i))
    ensures Inv(Apply(s, Finish(i)))
  {
    var t, task := Apply(s, Finish(i)), s.workers[i].task;
    assert multiset(s.finished + [task]) == multiset(s.finished) + multiset{task};
    forall x {
      SumUpdate(RunningOf(x), s.workers, i, Ready);
    }
    assert Accounted(t);
    SumUpdate(Awake, s.workers, i, Ready);
    if Exited in t.workers {
      ReplaceMembers(s.workers, i, Ready, Exited);
    }
    if SomeoneAsleep(t.workers) {
      ReplaceMembers(s.workers, i, Ready, Asleep);
    }
  }

  lemma NotifyAllKeeps(s: State)
    requires Inv(s) && s.stopNotice
    ensures Inv(Apply(s, NotifyAll))
  {
    WokenCounts(s.workers);
    forall x {
      WokenRunning(s.workers, x);
    }
    assert Accounted(Apply(s, NotifyAll));
    if Exited in Woken(s.workers) {
      var k :| 0 <= k < |s.workers| && Woken(s.workers)[k] == Exited;
      assert s.workers[k] == Exited;
    }
  }

  lemma StepKeeps(s: State, step: Step)
    requires Inv(s) && Enabled(s, step)
    ensures Inv(Apply(s, step))
  {
    match step
    case Enqueue(task) =>
      assert s.started + (s.tasks + [task]) == s.started + s.tasks + [task];
    case NotifyOne(i) => WakeKeeps(s, i, s.notices - 1);
    case Turn(i) => if s.tasks == [] { IdleTurnKeeps(s, i); } else { TakeKeeps(s, i); }
    case Spurious(i) => WakeKeeps(s, i, s.notices);
    case Finish(i) => FinishKeeps(s, i);
    case NotifyAll => NotifyAllKeeps(s);
    case _ =>
  }

  lemma InitialInv(n: nat)
    ensures Inv(Initial(n))
  {
    forall x {
      NobodyRuns(Initial(n).workers, x);
    }
    assert Accounted(Initial(n));
  }

  lemma {:induction false} AlwaysInv(s: State, steps: seq<Step>)
    requires Inv(s) && Possible(s, steps)
    ensures Inv(After(s, steps))
    ensures |After(s, steps).workers| == |s.workers|
    decreases |steps|
  {
    if steps != [] {
      StepKeeps(s, steps[0]);
      AlwaysInv(Apply(s, steps[0]), steps[1..]);
    }
  }

  /** The tasks enqueued before the pool is first stopped, in order: read off the steps alone. */
  function Offered(steps: seq<Step>): seq<nat> {
    if steps == [] || steps[0].Stop? then []
    else (if steps[0].Enqueue? then [steps[0].task] else []) + Offered(steps[1..])
  }

  lemma {:induction false} AcceptedFrom(s: State, steps: seq<Step>)
    requires Possible(s, steps)
    ensures var t := After(s, steps);
            && t.accepted == (if s.stop then s.accepted else s.accepted + Offered(steps))
            && (t.stop <==> s.stop || Stop in steps)
    decreases |steps|
  {
    if steps != [] {
      var t := Apply(s, steps[0]);
      AcceptedFrom(t, steps[1..]);
      if steps[0].Enqueue? && !s.stop {
        Assoc(s.accepted, [steps[0].task], Offered(steps[1..]));
      } else {
        assert [] + Offered(steps[1..]) == Offered(steps[1..]);
      }
    }
  }

  /** A pool accepts every task offered before it is stopped, whatever it is doing, and no other. */
  lemma AcceptedExact(n: nat, steps: seq<Step>)
    requires Possible(Initial(n), steps)
    ensures var s := After(Initial(n), steps);
            && s.accepted == Offered(steps)
            && (s.stop <==> Stop in steps)
  {
    AcceptedFrom(Initial(n), steps);
    assert [] + Offered(steps) == Offered(steps);
  }

  /**
   First in, first out, exactly once: in every reachable state the tasks started, in the
   order they were taken, followed by the queue, are the tasks offered before the stop, in
   order; and those started and not finished are exactly the ones being run.
   */
  lemma TasksAreConserved(n: nat, steps: seq<Step>)
    requires Possible(Initial(n), steps)
    ensures var s := After(Initial(n), steps);
            && Offered(steps) == s.started + s.tasks
            && (forall t :: multiset(s.started)[t] == multiset(s.finished)[t] + Sum(RunningOf(t), s.workers))
  {
    InitialInv(n);
    AlwaysInv(Initial(n), steps);
    AcceptedExact(n, steps);
  }

  /** Nothing is accepted once the pool has been stopped. */
  lemma {:induction false} StoppedAcceptsNothing(s: State, steps: seq<Step>)
    requires s.stop && Possible(s, steps)
    ensures After(s, steps).stop && After(s, steps).accepted == s.accepted
    decreases |steps|
  {
    if steps != [] {
      StoppedAcceptsNothing(Apply(s, steps[0]), steps[1..]);
    }
  }

  /**
   No wakeup is lost, in any interleaving: while a worker sleeps, every queued task is covered
   by an owed notification or an awake worker.  So with tasks queued and a worker there is
   always somebody who can act, and once no notification is owed, no task waits for a sleeper.
   */
  lemma NoLostWakeup(n: nat, steps: seq<Step>)
    requires n > 0 && Possible(Initial(n), steps)
    ensures var s := After(Initial(n), steps);
            && (SomeoneAsleep(s.workers) ==> |s.tasks| <= s.notices + Sum(Awake, s.workers))
            && (s.tasks != [] ==>
                  || (exists i :: Enabled(s, Turn(i)))
                  || (exists i :: Enabled(s, Finish(i)))
                  || (exists i :: Enabled(s, NotifyOne(i))))
  {
    InitialInv(n);
    AlwaysInv(Initial(n), steps);
    if After(Initial(n), steps).tasks != [] {
      SomeoneCanAct(After(Initial(n), steps));
    }
  }

  lemma SomeoneCanAct(s: State)
    requires Inv(s) && |s.workers| > 0 && s.tasks != []
    ensures || (exists i :: Enabled(s, Turn(i)))
            || (exists i :: Enabled(s, Finish(i)))
            || (exists i :: Enabled(s, NotifyOne(i)))
  {
    if SomeoneAsleep(s.workers) {
      var i :| 0 <= i < |s.workers| && s.workers[i] == Asleep;
      if s.notices > 0 {
        assert Enabled(s, NotifyOne(i));
      } else {
        AwakePositive(s.workers);
        var j :| 0 <= j < |s.workers| && s.workers[j] == Ready;
        assert Enabled(s, Turn(j));
      }
    } else {
      assert s.workers[0] in s.workers;
      if s.workers[0] == Ready {
        assert Enabled(s, Turn(0));
      } else {
        assert Enabled(s, Finish(0));
      }
    }
  }

  // ----- Draining the queue -----

  /** Every accepted task has been run. */
  ghost predicate Drained(s: State) {
    s.tasks == [] && s.started == s.accepted && multiset(s.finished) == multiset(s.accepted)
  }

  /** Every task of a list has been run, each taken in order, and nothing else. */
  ghost predicate HasRun(s: State, offered: seq<nat>) {
    s.tasks == [] && s.started == offered && multiset(s.finished) == multiset(offered)
  }

  lemma NobodyRunning(s: State)
    requires Inv(s) && s.tasks == [] && forall i :: 0 <= i < |s.workers| ==> !s.workers[i].Running?
    ensures Drained(s)
  {
    forall x {
      NobodyRuns(s.workers, x);
    }
    assert multiset(s.started) == multiset(s.finished);
    assert s.started + [] == s.started;
  }

  /**
   The pool comes to rest only when its work is done: with at least one worker, as soon as
   nothing can happen but a new task, a wakeup for no reason or the stop, every task offered
   before a stop has been run.
   */
  lemma RestMeansDrained(n: nat, steps: seq<Step>)
    requires n > 0 && Possible(Initial(n), steps)
    requires forall step: Step :: Enabled(After(Initial(n), steps), step) ==> step.Enqueue? || step.Spurious? || step.Stop?
    ensures HasRun(After(Initial(n), steps), Offered(steps))
  {
    var s := After(Initial(n), steps);
    AcceptedExact(n, steps);
    InitialInv(n);
    AlwaysInv(Initial(n), steps);
    if s.tasks != [] {
      SomeoneCanAct(s);
      assert false;
    }
    forall i | 0 <= i < |s.workers|
      ensures !s.workers[i].Running?
    {
      assert !Enabled(s, Finish(i));
    }
    NobodyRunning(s);
  }

  /** What keeps a worker busy. */
  function Effort(w: Worker): nat {
    match w
    case Ready => 1
    case Asleep => 0
    case Running(_) => 2
    case Exited => 0
  }

  /** The work the pool can still do without new tasks and further wakeups. */
  function Load(s: State): nat {
    2 * |s.tasks| + 2 * s.notices + Sum(Effort, s.workers)
  }

  /** A step of the work itself. */
  predicate IsWork(step: Step) {
    step.NotifyOne? || step.NotifyNobody? || step.Turn? || step.Finish?
  }

  /** What a step of another kind adds to the work. */
  function Credit(step: Step, workers: nat): nat {
    if step.Enqueue? then 4 else if step.Spurious? then 1 else if step.NotifyAll? then workers else 0
  }

  function Credits(steps: seq<Step>, workers: nat): nat {
    if steps == [] then 0 else Credit(steps[0], workers) + Credits(steps[1..], workers)
  }

  function Works(steps: seq<Step>): nat {
    if steps == [] then 0 else (if IsWork(steps[0]) then 1 else 0) + Works(steps[1..])
  }

  lemma {:induction false} WokenEffort(ws: seq<Worker>)
    ensures Sum(Effort, Woken(ws)) <= Sum(Effort, ws) + |ws|
    decreases |ws|
  {
    if ws != [] {
      WokenEffort(ws[1..]);
      assert Woken(ws)[1..] == Woken(ws[1..]);
    }
  }

  /** Work lowers the load; every other step raises it by no more than its credit. */
  ghost predicate Pays(s: State, step: Step, t: State) {
    && |t.workers| == |s.workers|
    && Load(t) + (if IsWork(step) then 1 else 0) <= Load(s) + Credit(step, |s.workers|)
  }

  lemma WorkerPays(s: State, i: nat, step: Step)
    requires Enabled(s, step) && i < |s.workers|
    requires step == NotifyOne(i) || step == Turn(i) || step == Finish(i) || step == Spurious(i)
    ensures Pays(s, step, Apply(s, step))
  {
    SumUpdate(Effort, s.workers, i, Apply(s, step).workers[i]);
  }

  lemma StepPays(s: State, step: Step)
    requires Enabled(s, step)
    ensures Pays(s, step, Apply(s, step))
  {
    match step
    case NotifyOne(i) => WorkerPays(s, i, step);
    case Turn(i) => WorkerPays(s, i, step);
    case Spurious(i) => WorkerPays(s, i, step);
    case Finish(i) => WorkerPays(s, i, step);
    case NotifyAll => WokenEffort(s.workers);
    case _ =>
  }

  /**
   The work ends: over any run, under any schedule, the steps of work are bounded by the load
   at its start, four for each task enqueued, one for each wakeup for no reason and one for
   each worker woken by the stop.
   */
  lemma {:induction false} WorkIsBounded(s: State, steps: seq<Step>)
    requires Possible(s, steps)
    ensures Works(steps) + Load(After(s, steps)) <= Load(s) + Credits(steps, |s.workers|)
    decreases |steps|
  {
    if steps != [] {
      StepPays(s, steps[0]);
      WorkIsBounded(Apply(s, steps[0]), steps[1..]);
    }
  }

  // ----- Shutdown -----

  /** What is left to do before every worker has returned. */
  function Remaining(s: State): nat {
    3 * |s.tasks| + Sum(Weight, s.workers) + s.notices + (if s.stopNotice then 1 else 0)
  }

  ghost predicate Advances(s: State, step: Step, t: State) {
    && t.stop && |t.workers| == |s.workers|
    && (forall i :: 0 <= i < |t.workers| && t.workers[i] == Asleep ==> s.workers[i] == Asleep)
    && (if step.Enqueue? then t == s else Remaining(t) < Remaining(s))
  }

  lemma TurnAdvances(s: State, i: nat)
    requires s.stop && Enabled(s, Turn(i))
    ensures Advances(s, Turn(i), Apply(s, Turn(i)))
  {
    SumUpdate(Weight, s.workers, i, if s.tasks == [] then Exited else Running(s.tasks[0]));
  }

  lemma WorkerAdvances(s: State, step: Step)
    requires s.stop && Enabled(s, step) && (step.NotifyOne? || step.Spurious? || step.Finish?)
    ensures Advances(s, step, Apply(s, step))
  {
    SumUpdate(Weight, s.workers, if step.NotifyOne? then step.woken else step.i, Ready);
  }

  lemma NotifyAllAdvances(s: State)
    requires s.stop && Enabled(s, NotifyAll)
    ensures Advances(s, NotifyAll, Apply(s, NotifyAll))
  {
    WokenCounts(s.workers);
  }

  /** After the stop every step but a refused enqueue leaves strictly less to do, and nobody falls asleep. */
  lemma ShutdownAdvances(s: State, step: Step)
    requires s.stop && Enabled(s, step)
    ensures Advances(s, step, Apply(s, step))
  {
    if step.Turn? {
      TurnAdvances(s, step.i);
    } else if step.NotifyAll? {
      NotifyAllAdvances(s);
    } else if step.NotifyOne? || step.Spurious? || step.Finish? {
      WorkerAdvances(s, step);
    }
  }

  function Moves(steps: seq<Step>): nat {
    if steps == [] then 0 else (if steps[0].Enqueue? then 0 else 1) + Moves(steps[1..])
  }

  /** So every run after the stop has a bounded number of steps, whatever is scheduled. */
  lemma {:induction false} ShutdownTerminates(s: State, steps: seq<Step>)
    requires s.stop && Possible(s, steps)
    ensures Moves(steps) + Remaining(After(s, steps)) <= Remaining(s)
    decreases |steps|
  {
    if steps != [] {
      ShutdownAdvances(s, steps[0]);
      ShutdownTerminates(Apply(s, steps[0]), steps[1..]);
    }
  }

  predicate AllExited(s: State) {
    forall i :: 0 <= i < |s.workers| ==> s.workers[i] == Exited
  }

  /** Nothing is bound to happen: tasks may come and a sleeper may wake for no reason, but nothing else can. */
  ghost predicate AtRest(s: State) {
    forall step: Step :: Enabled(s, step) ==> step.Enqueue? || step.Spurious?
  }

  /** A stopped pool at rest has no sleeper left behind: `notify_all` was issued, and nobody slept again. */
  lemma RestMeansExited(s: State)
    requires Inv(s) && s.stop && AtRest(s)
    ensures AllExited(s)
  {
    assert !Enabled(s, NotifyAll);
    forall i | 0 <= i < |s.workers|
      ensures s.workers[i] == Exited
    {
      assert s.workers[i] in s.workers;
      assert !Enabled(s, Turn(i)) && !Enabled(s, Finish(i));
    }
  }

  /**
   The shutdown cannot hang, and needs no luck: in every run from a new pool, once it has been
   stopped and nothing more is bound to happen, every worker has returned.
   */
  lemma StuckMeansExited(n: nat, steps: seq<Step>)
    requires Possible(Initial(n), steps) && After(Initial(n), steps).stop && AtRest(After(Initial(n), steps))
    ensures AllExited(After(Initial(n), steps))
  {
    InitialInv(n);
    AlwaysInv(Initial(n), steps);
    RestMeansExited(After(Initial(n), steps));
  }

  /** It is the `notify_all` that does it: before it a stopped pool can have nothing else to do and a worker asleep. */
  lemma StopAloneHangs()
    ensures var steps := [Turn(0), Stop];
            && Possible(Initial(1), steps)
            && var s := After(Initial(1), steps);
               s.workers == [Asleep] && forall step: Step :: Enabled(s, step) ==> step.Enqueue? || step.Spurious? || step == NotifyAll
  {
    var s0 := Initial(1);
    var s1 := Apply(s0, Turn(0));
    var s2 := Apply(s1, Stop);
    assert [Turn(0), Stop][1..] == [Stop] && [Stop][1..] == [];
    assert s1.workers == [Asleep];
    assert Possible(s2, []) && Possible(s1, [Stop]) && Possible(s0, [Turn(0), Stop]);
    assert After(s1, [Stop]) == After(s2, []) == s2;
  }

  /**
   The destructor's joins all return exactly in states where every worker has returned.  With
   at least one worker every task offered before the stop has then been run; a pool without
   workers (the default size may be zero) drops whatever it is given.
   */
  lemma JoinedExact(n: nat, steps: seq<Step>)
    requires Possible(Initial(n), steps) && AllExited(After(Initial(n), steps))
    ensures var s := After(Initial(n), steps);
            HasRun(s, Offered(steps)) <==> n > 0 || Offered(steps) == []
  {
    var s := After(Initial(n), steps);
    AcceptedExact(n, steps);
    InitialInv(n);
    AlwaysInv(Initial(n), steps);
    if n > 0 {
      ExitedMeansDrained(s);
    } else {
      NoWorkersNoStarts(Initial(n), steps);
      assert [] + s.tasks == s.tasks;
      assert s.workers == [];
      assert multiset(s.started) == multiset(s.finished);
    }
  }

  /** The one failing case, concretely: a pool without workers accepts a task and nobody runs it. */
  lemma NoWorkersDropTasks()
    ensures Possible(Initial(0), [Enqueue(7)])
    ensures var s := After(Initial(0), [Enqueue(7)]); AllExited(s) && !HasRun(s, [7])
  {
    var s := Apply(Initial(0), Enqueue(7));
    assert [Enqueue(7)][1..] == [];
    assert Possible(s, []) && After(s, []) == s;
    assert s.tasks == [7];
  }

  lemma ExitedMeansDrained(s: State)
    requires Inv(s) && AllExited(s) && |s.workers| > 0
    ensures Drained(s)
  {
    assert s.workers[0] == Exited;
    assert Exited in s.workers;
    NobodyRunning(s);
  }

  lemma {:induction false} NoWorkersNoStarts(s: State, steps: seq<Step>)
    requires s.workers == [] && Possible(s, steps)
    ensures After(s, steps).started == s.started
    decreases |steps|
  {
    if steps != [] {
      NoWorkersNoStarts(Apply(s, steps[0]), steps[1..]);
    }
  }
}
