/**
 A task object, of src/l0003-0/task.c: the fields its operations change, and each critical section.  What the waiting
 protocol sees of it is View; every operation on it is a step of module TaskWait.
 */
module Task {
  import opened TaskFlags
  import TaskWait

  class Task {
    var flags: nat
    var wakeupEarly: bool
    var heartbeats: nat
    var waiter: TaskWait.Waiter   // where the waiting thread stands; in the program, the condition variable knows

    constructor ()
      ensures flags == IDLE && heartbeats == 0 && View() == TaskWait.State(TaskWait.Outside, false, false)
    {
      flags, wakeupEarly, heartbeats, waiter := IDLE, false, 0, TaskWait.Outside;
    }

    function View(): TaskWait.State
      reads this
    {
      TaskWait.State(waiter, wakeupEarly, IsAbort(flags))
    }

    /** task_changestate */
    method ChangeState(newstate: nat)
      modifies this`flags
      ensures flags == Changed(old(flags), newstate)
      ensures flags == if old(flags) % 16 != 3 || newstate == 4 then newstate else old(flags)
      ensures newstate == ABORT ==> View() == TaskWait.Step(old(View()), TaskWait.Abort)
    {
      if !IsAbort(flags) {
        flags := newstate;
      } else if newstate == QUIT {
        flags := QUIT;
      }
    }

    /** task_wakeup: pthread_cond_broadcast chooses the thread blocked on the condition variable, if there is one. */
    method Wakeup()
      modifies this`waiter, this`wakeupEarly
      ensures View() == TaskWait.Step(old(View()), TaskWait.Wakeup)
      ensures wakeupEarly && (old(waiter).Blocked? ==> waiter.Woken?)
    {
      if waiter.Blocked? {
        waiter := TaskWait.Woken;
      }
      wakeupEarly := true;
    }

    /** task_wakeupclear */
    method WakeupClear()
      modifies this`wakeupEarly
      ensures View() == TaskWait.Step(old(View()), TaskWait.Clear)
    {
      wakeupEarly := false;
    }

    /** task_wait from taking the mutex to the first timed wait, or to its end. */
    method EnterWait() returns (v: Verdict)
      requires waiter.Outside?
      modifies this`wakeupEarly, this`waiter
      ensures View() == TaskWait.Step(old(View()), TaskWait.Enter)
      ensures v.Return? <==> waiter.Outside?
      ensures v.Return? <==> old(wakeupEarly) || flags % 16 == 3
      ensures !wakeupEarly
    {
      v := TestAgain();
    }

    method TestAgain() returns (v: Verdict)
      modifies this`wakeupEarly, this`waiter
      ensures View() == TaskWait.Test(old(View()))
      ensures v.Return? <==> waiter.Outside?
      ensures v.Return? <==> old(wakeupEarly) || flags % 16 == 3
      ensures !wakeupEarly
    {
      if !IsAbort(flags) && !wakeupEarly {
        waiter := TaskWait.Blocked;
        v := Sleep;
      } else {
        waiter := TaskWait.Outside;
        wakeupEarly := false;
        v := Return;
      }
    }

    /** task_wait from the return of a timed wait to the next one, or to its end.  What the timed wait reports follows
        from where the waiter stands: success to a thread that was chosen, else a timeout, unless it reports success
        although nobody chose the thread. */
    method AfterTimedWait(spurious: bool) returns (v: Verdict)
      requires !waiter.Outside?
      modifies this`wakeupEarly, this`heartbeats, this`waiter
      ensures heartbeats == old(heartbeats) + 1
      ensures View() == if old(waiter).Woken? then TaskWait.Step(old(View()), TaskWait.Resume)
                        else if spurious then TaskWait.Step(old(View()), TaskWait.Spurious)
                        else TaskWait.Step(TaskWait.Step(old(View()), TaskWait.Expire), TaskWait.Reacquire)
      ensures v.Return? <==> waiter.Outside?
      ensures v.Return? <==> old(waiter).Woken? || spurious || old(wakeupEarly) || flags % 16 == 3
      ensures !wakeupEarly
    {
      var zero := waiter.Woken? || spurious;
      heartbeats := heartbeats + 1;
      if zero {
        waiter := TaskWait.Outside;
        wakeupEarly := false;
        v := Return;
      } else {
        v := TestAgain();
      }
    }

    /** The second of the timed wait runs out; the thread does not have the mutex yet. */
    method Expire()
      modifies this`waiter
      ensures View() == TaskWait.Step(old(View()), TaskWait.Expire)
    {
      if waiter.Blocked? {
        waiter := TaskWait.Expired;
      }
    }
  }
}
