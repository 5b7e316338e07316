/** The thread pool object, each critical section a method, proved against ThreadPoolSpec. */
module ThreadPools {
  import opened ThreadPoolSpec

  /** What `submit` gives its caller: a future, or the exception thrown when the pool has been stopped. */
  datatype Submission = Future | Stopped

  class ThreadPool {
    var tasks: seq<nat>
    var stop: bool
    var workers: seq<Worker>

    // Notifications a thread is about to issue, outside the lock.
    var notices: nat
    var stopNotice: bool

    ghost var accepted: seq<nat>
    ghost var started: seq<nat>
    ghost var finished: seq<nat>

    ghost function State(): ThreadPoolSpec.State
      reads this
    {
      ThreadPoolSpec.State(workers, tasks, stop, notices, stopNotice, accepted, started, finished)
    }

    ghost predicate Valid()
      reads this
    {
      Inv(State())
    }

    constructor (numThreads: nat)
      ensures State() == Initial(numThreads) && Valid()
      ensures |workers| == numThreads && tasks == [] && !stop
    {
      tasks, stop, notices, stopNotice := [], false, 0, false;
      workers := seq(numThreads, _ => Ready);
      accepted, started, finished := [], [], [];
      new;
      InitialInv(numThreads);
    }

    /** A task for a stopped pool is dropped without telling the caller. */
    method Enqueue(task: nat)
      requires Valid()
      modifies this
      ensures Valid() && State() == Apply(old(State()), Step.Enqueue(task))
      ensures accepted == if old(stop) then old(accepted) else old(accepted) + [task]
    {
      StepKeeps(State(), Step.Enqueue(task));
      if stop {
        return;
      }
      tasks := tasks + [task];
      accepted := accepted + [task];
      notices := notices + 1;
    }

    /** The same critical section, but a stopped pool throws. */
    method Submit(task: nat) returns (result: Submission)
      requires Valid()
      modifies this
      ensures Valid() && State() == Apply(old(State()), Step.Enqueue(task))
      ensures accepted == if old(stop) then old(accepted) else old(accepted) + [task]
      ensures result == if old(stop) then Stopped else Future
    {
      StepKeeps(State(), Step.Enqueue(task));
      if stop {
        return Stopped;
      }
      tasks := tasks + [task];
      accepted := accepted + [task];
      notices := notices + 1;
      return Future;
    }

    /** `notify_one`: wakes one sleeping worker, whichever it is, if there is one. */
    method NotifyOne()
      requires Valid() && notices > 0
      modifies this
      ensures Valid()
      ensures if SomeoneAsleep(old(workers))
              then exists i :: Enabled(old(State()), Step.NotifyOne(i)) && State() == Apply(old(State()), Step.NotifyOne(i))
              else State() == Apply(old(State()), NotifyNobody)
    {
      if Asleep in workers {
        var i :| 0 <= i < |workers| && workers[i] == Asleep;
        assert Enabled(State(), Step.NotifyOne(i));
        StepKeeps(State(), Step.NotifyOne(i));
        workers := workers[i := Ready];
      } else {
        StepKeeps(State(), NotifyNobody);
      }
      notices := notices - 1;
    }

    /** A worker with the lock: wait, return, or take the task at the front. */
    method WorkerTurn(i: nat)
      requires Valid() && Enabled(State(), Turn(i))
      modifies this
      ensures Valid() && State() == Apply(old(State()), Turn(i))
    {
      StepKeeps(State(), Turn(i));
      if !stop && |tasks| == 0 {
        workers := workers[i := Asleep];
        return;
      }
      if stop && |tasks| == 0 {
        workers := workers[i := Exited];
        return;
      }
      var task := tasks[0];
      started := started + [task];
      tasks := tasks[1..];
      workers := workers[i := Running(task)];
    }

    method SpuriousWakeup(i: nat)
      requires Valid() && Enabled(State(), Spurious(i))
      modifies this
      ensures Valid() && State() == Apply(old(State()), Spurious(i))
    {
      StepKeeps(State(), Spurious(i));
      workers := workers[i := Ready];
    }

    method TaskReturns(i: nat)
      requires Valid() && Enabled(State(), Finish(i))
      modifies this
      ensures Valid() && State() == Apply(old(State()), Finish(i))
    {
      StepKeeps(State(), Finish(i));
      finished := finished + [workers[i].task];
      workers := workers[i := Ready];
    }

    method SetStop()
      requires Valid() && !stop
      modifies this
      ensures Valid() && State() == Apply(old(State()), Stop)
    {
      StepKeeps(State(), Stop);
      stop := true;
      stopNotice := true;
    }

    method NotifyAll()
      requires Valid() && stopNotice
      modifies this
      ensures Valid() && State() == Apply(old(State()), Step.NotifyAll)
    {
      StepKeeps(State(), Step.NotifyAll);
      workers := Woken(workers);
      stopNotice := false;
    }

    /** A worker that holds the lock or runs a task goes on; a returned one stays returned. */
    method AwakeStep(i: nat)
      requires Valid() && stop && i < |workers| && (workers[i] == Ready || workers[i].Running?)
      modifies this
      ensures Valid() && stop && stopNotice == old(stopNotice)
      ensures |workers| == |old(workers)| && accepted == old(accepted)
      ensures forall j :: 0 <= j < |workers| && old(workers[j]) == Exited ==> workers[j] == Exited
      ensures Remaining(State()) < Remaining(old(State()))
    {
      if workers[i] == Ready {
        ShutdownAdvances(State(), Turn(i));
        WorkerTurn(i);
      } else {
        ShutdownAdvances(State(), Finish(i));
        TaskReturns(i);
      }
    }

    /** A producer that has left its critical section issues the notification it owes. */
    method OwedNotification()
      requires Valid() && stop && notices > 0
      modifies this
      ensures Valid() && stop && stopNotice == old(stopNotice)
      ensures |workers| == |old(workers)| && accepted == old(accepted)
      ensures forall j :: 0 <= j < |workers| && old(workers[j]) == Exited ==> workers[j] == Exited
      ensures Remaining(State()) < Remaining(old(State()))
    {
      forall step: Step | Enabled(State(), step)
        ensures Advances(State(), step, Apply(State(), step))
      {
        ShutdownAdvances(State(), step);
      }
      NotifyOne();
    }

    /** Before `notify_all`, a worker may also wake for no reason. */
    method WorkerStep(i: nat)
      requires Valid() && stop && i < |workers| && workers[i] != Exited
      modifies this
      ensures Valid() && stop && stopNotice == old(stopNotice)
      ensures |workers| == |old(workers)| && accepted == old(accepted)
      ensures Remaining(State()) < Remaining(old(State()))
    {
      if workers[i] == Asleep {
        ShutdownAdvances(State(), Spurious(i));
        SpuriousWakeup(i);
      } else {
        AwakeStep(i);
      }
    }

    /** Joins one thread: waits until it has returned, while any worker that is awake and any producer may go on. */
    method Join(i: nat)
      requires Valid() && stop && !stopNotice && i < |workers|
      modifies this
      ensures Valid() && stop && !stopNotice
      ensures |workers| == |old(workers)| && accepted == old(accepted)
      ensures workers[i] == Exited
      ensures forall j :: 0 <= j < |workers| && old(workers[j]) == Exited ==> workers[j] == Exited
    {
      while workers[i] != Exited
        invariant Valid() && stop && !stopNotice && |workers| == |old(workers)| && accepted == old(accepted)
        invariant forall j :: 0 <= j < |workers| && old(workers[j]) == Exited ==> workers[j] == Exited
        decreases Remaining(State())
      {
        // Nobody sleeps any more, so the thread waited for is itself awake.
        assert workers[i] in workers && !SomeoneAsleep(workers);
        var producer: bool := *;
        if producer && notices > 0 {
          OwedNotification();
        } else {
          var k: nat :| k < |workers| && (workers[k] == Ready || workers[k].Running?);
          AwakeStep(k);
        }
      }
    }

    /** Between the destructor's unlock and its notification the others go on. */
    method Interlude()
      requires Valid() && stop
      modifies this
      ensures Valid() && stop && stopNotice == old(stopNotice)
      ensures |workers| == |old(workers)| && accepted == old(accepted)
    {
      while *
        invariant Valid() && stop && stopNotice == old(stopNotice)
        invariant |workers| == |old(workers)| && accepted == old(accepted)
        decreases Remaining(State())
      {
        var producer: bool := *;
        if producer && notices > 0 {
          OwedNotification();
        } else if i: nat :| i < |workers| && workers[i] != Exited {
          WorkerStep(i);
        } else {
          break;
        }
      }
    }

    /** Joins the threads one after another. */
    method JoinAll()
      requires Valid() && stop && !stopNotice
      modifies this
      ensures Valid() && stop && AllExited(State())
      ensures |workers| == |old(workers)| && accepted == old(accepted)
    {
      for i := 0 to |workers|
        invariant Valid() && stop && !stopNotice && |workers| == |old(workers)| && accepted == old(accepted)
        invariant forall j :: 0 <= j < i ==> workers[j] == Exited
      {
        Join(i);
      }
    }

    /**
     The destructor, under any schedule of the workers and of the producers that still owe a
     notification: it ends, with every worker returned and, when there is a worker at all,
     every accepted task run.  Nothing depends on a wakeup for no reason.
     */
    method Destroy()
      requires Valid() && !stop
      modifies this
      ensures Valid() && stop && AllExited(State())
      ensures accepted == old(accepted)
      ensures |old(workers)| > 0 ==> Drained(State())
    {
      SetStop();
      Interlude();
      NotifyAll();
      JoinAll();
      if |workers| > 0 {
        ExitedMeansDrained(State());
      }
    }
  }
}
