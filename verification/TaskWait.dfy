/**
 task_wait against any number of task_wakeup and task_wakeupclear, in src/l0003-0/task.c, as interleaved atomic
 steps: each holds one mutex, and the waiter gives it up only while it is blocked in the timed wait.
 */
module TaskWait {
  import opened TaskFlags

  /** Outside task_wait; blocked in the timed wait; chosen by a broadcast but not running again yet; or past its
      second, so that no broadcast finds it any more, but without the mutex yet. */
  datatype Waiter = Outside | Blocked | Woken | Expired

  datatype State = State(waiter: Waiter, latch: bool, aborted: bool)

  datatype Event =
    | Enter      // the waiter calls task_wait
    | Wakeup     // task_wakeup
    | Clear      // task_wakeupclear
    | Expire     // the timed wait runs into its one-second limit
    | Reacquire  // a waiter whose wait has expired gets the mutex back
    | Resume     // a chosen waiter gets the mutex back
    | Spurious   // the timed wait reports success although nobody chose the waiter, as the standard permits
    | Abort      // task_stop writes ABORT; it does not signal

  /** The waiter tests its loop condition. */
  function Test(s: State): State {
    if Decided(s.aborted, s.latch).Sleep? then s.(waiter := Blocked) else Leave(s)
  }

  function Leave(s: State): State {
    s.(waiter := Outside, latch := false)
  }

  function Step(s: State, e: Event): State {
    match e
    case Enter => if s.waiter.Outside? then Test(s) else s
    case Wakeup => s.(latch := true, waiter := if s.waiter.Blocked? then Woken else s.waiter)
    case Clear => s.(latch := false)
    case Expire => if s.waiter.Blocked? then s.(waiter := Expired) else s
    case Reacquire => if s.waiter.Expired? then Test(s) else s
    case Resume => if s.waiter.Woken? then Leave(s) else s
    case Spurious => if s.waiter.Blocked? || s.waiter.Expired? then Leave(s) else s
    case Abort => s.(aborted := true)
  }

  function Run(s: State, es: seq<Event>): State
    decreases |es|
  {
    if es == [] then s else Run(Step(s, es[0]), es[1..])
  }

  // ----- before the wait: no wakeup is lost -----

  /** None of the events is e. */
  predicate Without(es: seq<Event>, e: Event) {
    forall i :: 0 <= i < |es| ==> es[i] != e
  }

  lemma WithoutTail(es: seq<Event>, e: Event)
    requires es != [] && Without(es, e)
    ensures es[0] != e && Without(es[1..], e)
  {
    forall i | 0 <= i < |es[1..]| ensures es[1..][i] != e {
      assert es[i + 1] != e;
    }
  }

  /** The last of the wakeups and clears, if there is any, is a wakeup; otherwise before. */
  function LastIsWakeup(es: seq<Event>, before: bool): bool
    decreases |es|
  {
    if es == [] then before
    else LastIsWakeup(es[1..], if es[0].Wakeup? then true else if es[0].Clear? then false else before)
  }

  predicate Aborts(es: seq<Event>) {
    exists i :: 0 <= i < |es| && es[i] == Abort
  }

  lemma AbortsStep(es: seq<Event>)
    requires es != []
    ensures Aborts(es) <==> es[0] == Abort || Aborts(es[1..])
  {
    if Aborts(es) && es[0] != Abort {
      var i :| 0 <= i < |es| && es[i] == Abort;
      assert es[1..][i - 1] == Abort;
    }
    if Aborts(es[1..]) {
      var i :| 0 <= i < |es[1..]| && es[1..][i] == Abort;
      assert es[i + 1] == Abort;
    }
  }

  /** The waiter stays where it is: its own next event is not among these. */
  predicate Rests(w: Waiter, es: seq<Event>) {
    match w
    case Outside => Without(es, Enter)
    case Woken => Without(es, Resume)
    case Expired => Without(es, Reacquire) && Without(es, Spurious)
    case Blocked => Without(es, Wakeup) && Without(es, Expire) && Without(es, Spurious)
  }

  lemma RestsTail(w: Waiter, es: seq<Event>)
    requires es != [] && Rests(w, es)
    ensures Rests(w, es[1..])
  {
    match w
    case Outside => WithoutTail(es, Enter);
    case Woken => WithoutTail(es, Resume);
    case Expired =>
      WithoutTail(es, Reacquire);
      WithoutTail(es, Spurious);
    case Blocked =>
      WithoutTail(es, Wakeup);
      WithoutTail(es, Expire);
      WithoutTail(es, Spurious);
  }

  /** As long as the waiter stays where it is, the latch remembers whether a wakeup came after the last clear. */
  lemma {:induction false} LatchRemembers(s: State, es: seq<Event>)
    requires Rests(s.waiter, es)
    ensures Run(s, es) == State(s.waiter, LastIsWakeup(es, s.latch), s.aborted || Aborts(es))
    decreases |es|
  {
    if es == [] {
    } else {
      RestsTail(s.waiter, es);
      LatchRemembers(Step(s, es[0]), es[1..]);
      AbortsStep(es);
    }
  }

  /** A wait that starts after any such events returns without blocking if and only if a wakeup came after the last
      clear or a stop has been written; and it returns with the latch clear. */
  lemma NoWakeupLost(s: State, es: seq<Event>)
    requires s.waiter.Outside? && Without(es, Enter)
    ensures var t := Step(Run(s, es), Enter);
            && (t.waiter.Outside? <==> LastIsWakeup(es, s.latch) || s.aborted || Aborts(es))
            && (t.waiter.Outside? ==> !t.latch)
  {
    LatchRemembers(s, es);
  }

  /** Whatever happens, a blocked waiter never has a wakeup behind it. */
  predicate NoneMissed(s: State) {
    s.waiter.Blocked? ==> !s.latch
  }

  lemma {:induction false} BlockedMeansNoWakeup(s: State, es: seq<Event>)
    requires NoneMissed(s)
    ensures NoneMissed(Run(s, es))
    decreases |es|
  {
    if es == [] {
    } else {
      BlockedMeansNoWakeup(Step(s, es[0]), es[1..]);
    }
  }

  // ----- inside the wait -----

  /** A waiter chosen while it is blocked stays chosen, whatever is cleared behind its back, until it runs; then it
      returns, and the latch is clear. */
  lemma WokenReturns(s: State, es: seq<Event>)
    requires s.waiter.Blocked? && Without(es, Resume)
    ensures var t := Run(Step(s, Wakeup), es);
            t.waiter.Woken? && Step(t, Resume).waiter.Outside? && !Step(t, Resume).latch
  {
    LatchRemembers(Step(s, Wakeup), es);
  }

  /** A waiter whose second has run out is found by no broadcast.  When it gets the mutex back it returns if and only if
      a wakeup came after the last clear, its expiry included in the count, or a stop has been written; otherwise it
      sleeps on. */
  lemma ExpiredReturnsIff(s: State, es: seq<Event>)
    requires s.waiter.Expired? && Without(es, Reacquire) && Without(es, Spurious)
    ensures var t := Step(Run(s, es), Reacquire);
            && (t.waiter.Outside? <==> LastIsWakeup(es, s.latch) || s.aborted || Aborts(es))
            && (t.waiter.Outside? ==> !t.latch)
            && (!t.waiter.Outside? ==> t.waiter.Blocked?)
  {
    LatchRemembers(s, es);
  }

  /** So a wakeup can be lost inside the wait: the second runs out, the wakeup finds nobody, a clear removes its trace,
      and the waiter, back with the mutex, sleeps on. */
  lemma WakeupLost()
    ensures var s := State(Outside, false, false);
            var t := Run(s, [Enter, Expire, Wakeup, Clear, Reacquire]);
            t == State(Blocked, false, false)
  {
    var s := State(Blocked, false, false);
    assert Without([Wakeup, Clear], Reacquire) && Without([Wakeup, Clear], Spurious);
    assert Run(Step(s, Expire), [Wakeup, Clear]) == State(Expired, false, false) by {
      assert [Wakeup, Clear][1..] == [Clear] && [Clear][1..] == [];
    }
    RunConcat(Step(s, Expire), [Wakeup, Clear], [Reacquire]);
    assert [Wakeup, Clear] + [Reacquire] == [Wakeup, Clear, Reacquire];
    var es := [Enter, Expire, Wakeup, Clear, Reacquire];
    assert es[1..] == [Expire, Wakeup, Clear, Reacquire];
    assert es[1..][1..] == [Wakeup, Clear, Reacquire];
  }

  lemma {:induction false} RunConcat(s: State, a: seq<Event>, b: seq<Event>)
    ensures Run(s, a + b) == Run(Run(s, a), b)
    decreases |a|
  {
    if a == [] {
      assert a + b == b;
    } else {
      assert (a + b)[1..] == a[1..] + b;
      RunConcat(Step(s, a[0]), a[1..], b);
    }
  }

  /** The waiter's own event that brings it back with the mutex. */
  function Back(w: Waiter): Event
    requires w.Woken? || w.Expired?
  {
    if w.Woken? then Resume else Reacquire
  }

  /** A wakeup that comes while the thread is inside the wait brings it out the next time it runs if and only if the
      thread was still blocked or already chosen, or no clear came after the last wakeup, or a stop has been written. */
  lemma WakeupArrivesIff(s: State, es: seq<Event>)
    requires !s.waiter.Outside? && Rests(Step(s, Wakeup).waiter, es)
    ensures var w := Step(s, Wakeup).waiter;
            Step(Run(Step(s, Wakeup), es), Back(w)).waiter.Outside? <==>
              s.waiter.Blocked? || s.waiter.Woken? || LastIsWakeup(es, true) || s.aborted || Aborts(es)
  {
    LatchRemembers(Step(s, Wakeup), es);
  }

  lemma {:induction false} NoClearKeeps(es: seq<Event>)
    requires Without(es, Clear)
    ensures LastIsWakeup(es, true)
    decreases |es|
  {
    if es == [] {
    } else {
      WithoutTail(es, Clear);
      NoClearKeeps(es[1..]);
    }
  }

  /** In particular no wakeup is lost as long as nobody clears the latch while the thread is inside the wait. */
  lemma NoClearNoLoss(s: State, es: seq<Event>)
    requires !s.waiter.Outside? && Rests(Step(s, Wakeup).waiter, es) && Without(es, Clear)
    ensures Step(Run(Step(s, Wakeup), es), Back(Step(s, Wakeup).waiter)).waiter.Outside?
  {
    NoClearKeeps(es);
    WakeupArrivesIff(s, es);
  }

  /** Every way out of task_wait leaves the latch clear. */
  lemma ReturnClearsLatch(s: State, e: Event)
    requires !s.waiter.Outside? && Step(s, e).waiter.Outside?
    ensures !Step(s, e).latch
  {
  }

  /** A stop is not signalled, but no waiter sleeps through it: after its next timeout at the latest it is out of the
      wait, unless it has been chosen before and is about to leave anyway. */
  lemma {:induction false} AbortNoticed(s: State, es: seq<Event>)
    requires s.aborted && Without(es, Enter)
    ensures var t := Step(Step(Run(s, es), Expire), Reacquire);
            t.waiter.Outside? || (t.waiter.Woken? && Step(t, Resume).waiter.Outside?)
    decreases |es|
  {
    if es == [] {
    } else {
      WithoutTail(es, Enter);
      AbortNoticed(Step(s, es[0]), es[1..]);
    }
  }
}
