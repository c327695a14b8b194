/**
 The worker thread of task_process against one task_stop, in src/l0003-0/task.c, as interleaved atomic steps.
 Each critical section is one step; the worker reads the flags twice per round, so that is two steps.
 */
module TaskState {
  import opened TaskFlags

  datatype Worker =
    | Starting                       // about to write PREP
    | Testing                        // at the loop condition
    | Fetching                       // about to read the state it dispatches on
    | Handling(writes: seq<nat>)     // in a state handler with these state changes still to make
    | Left                           // out of the loop

  datatype Stopper = Before | Joining | Done   // before writing ABORT, waiting for the worker, QUIT written

  /** late counts the handlers started after ABORT was written. */
  datatype State = State(flags: nat, worker: Worker, stopper: Stopper, late: nat)

  const START: State := State(IDLE, Starting, Before, 0)

  /** handler is what the handler dispatched in this step, if one is, will write; it may depend on anything. */
  datatype Event = Work(handler: seq<nat>) | Halt

  function WorkerStep(s: State, handler: seq<nat>): State {
    match s.worker
    case Starting => s.(flags := Changed(s.flags, PREP), worker := Testing)
    case Testing => s.(worker := if IsAbort(s.flags) then Left else Fetching)
    case Fetching => s.(worker := Handling(handler), late := if s.stopper.Joining? then s.late + 1 else s.late)
    case Handling(ws) =>
      if ws == [] then s.(worker := Testing)
      else s.(flags := Changed(s.flags, ws[0]), worker := Handling(ws[1..]))
    case Left => s
  }

  function StopperStep(s: State): State {
    match s.stopper
    case Before => s.(flags := Changed(s.flags, ABORT), stopper := Joining)
    case Joining => if s.worker.Left? then s.(flags := Changed(s.flags, QUIT), stopper := Done) else s
    case Done => s
  }

  function Step(s: State, e: Event): State {
    match e
    case Work(handler) => WorkerStep(s, handler)
    case Halt => StopperStep(s)
  }

  function Run(s: State, es: seq<Event>): State
    decreases |es|
  {
    if es == [] then s else Run(Step(s, es[0]), es[1..])
  }

  /** What a step passes to task_changestate, if it calls it. */
  function Written(s: State, e: Event): seq<nat> {
    match e
    case Work(_) =>
      if s.worker.Starting? then [PREP]
      else if s.worker.Handling? && s.worker.writes != [] then [s.worker.writes[0]]
      else []
    case Halt =>
      if s.stopper.Before? then [ABORT]
      else if s.stopper.Joining? && s.worker.Left? then [QUIT]
      else []
  }

  /** The flags change in no other way than Task.Task.ChangeState changes them. */
  lemma FlagsOnlyChange(s: State, e: Event)
    ensures Step(s, e).flags == if Written(s, e) == [] then s.flags else Changed(s.flags, Written(s, e)[0])
  {
  }

  // ----- while nobody stops the worker -----

  /** What a run passes to task_changestate, in order. */
  function RunWritten(s: State, es: seq<Event>): seq<nat>
    decreases |es|
  {
    if es == [] then [] else Written(s, es[0]) + RunWritten(Step(s, es[0]), es[1..])
  }

  /** The last of these values, or else what there was before. */
  function Last(ws: seq<nat>, before: nat): nat {
    if ws == [] then before else ws[|ws| - 1]
  }

  lemma LastOf(a: seq<nat>, b: seq<nat>, before: nat)
    ensures Last(a + b, before) == Last(b, Last(a, before))
  {
  }

  lemma {:induction false} BeforeStays(s: State, es: seq<Event>)
    requires Run(s, es).stopper.Before?
    ensures s.stopper.Before? && forall i :: 0 <= i < |es| ==> es[i].Work?
    decreases |es|
  {
    if es == [] {
    } else {
      BeforeStays(Step(s, es[0]), es[1..]);
      assert forall i :: 1 <= i < |es| ==> es[i] == es[1..][i - 1];
    }
  }

  lemma NoAbortApart(a: seq<nat>, b: seq<nat>)
    requires forall w :: w in a + b ==> w % 16 != 3
    ensures forall w :: w in b ==> w % 16 != 3
    ensures a != [] ==> a[0] % 16 != 3
  {
    assert forall w :: w in b ==> w in a + b;
    assert a != [] ==> a[0] in a + b;
  }

  /** Every write takes effect as long as none is ABORT: the flags are the last value written. */
  lemma {:induction false} LastWriteStands(s: State, es: seq<Event>)
    requires s.flags % 16 != 3 && forall w :: w in RunWritten(s, es) ==> w % 16 != 3
    ensures Run(s, es).flags == Last(RunWritten(s, es), s.flags)
    decreases |es|
  {
    if es == [] {
    } else {
      var a, b := Written(s, es[0]), RunWritten(Step(s, es[0]), es[1..]);
      LastOf(a, b, s.flags);
      assert RunWritten(s, es) == a + b;
      NoAbortApart(a, b);
      LastWriteStands(Step(s, es[0]), es[1..]);
    }
  }

  /** Before the stop, and if no handler writes ABORT itself: the flags are the last value the worker wrote, PREP once
      it has started. */
  lemma FlagsAreLastWritten(es: seq<Event>)
    requires Run(START, es).stopper.Before? && forall w :: w in RunWritten(START, es) ==> w % 16 != 3
    ensures var ws := RunWritten(START, es);
            && Run(START, es).flags == (if ws == [] then 0 else ws[|ws| - 1])
            && (es != [] ==> ws != [] && ws[0] == 1)
  {
    BeforeStays(START, es);
    LastWriteStands(START, es);
  }

  /** A round of the worker: the test, the fetch, the writes of the handler, and back at the test with its last one. */
  predicate Round(es: seq<Event>, ws: seq<nat>) {
    |es| == |ws| + 3 && (forall i :: 0 <= i < |es| ==> es[i].Work?) && es[1].handler == ws
  }

  lemma {:induction false} HandlerRuns(s: State, ws: seq<nat>, es: seq<Event>)
    requires s.worker == Handling(ws) && |es| == |ws| + 1 && forall i :: 0 <= i < |es| ==> es[i].Work?
    requires s.flags % 16 != 3 && forall w :: w in ws ==> w % 16 != 3
    ensures Run(s, es) == s.(worker := Testing, flags := if ws == [] then s.flags else ws[|ws| - 1])
    decreases |ws|
  {
    if ws == [] {
      assert Run(Step(s, es[0]), es[1..]) == Step(s, es[0]);
    } else {
      assert ws[0] in ws && (forall w :: w in ws[1..] ==> w in ws);
      assert forall i :: 0 <= i < |es[1..]| ==> es[1..][i] == es[i + 1];
      HandlerRuns(Step(s, es[0]), ws[1..], es[1..]);
    }
  }

  lemma RoundRuns(s: State, ws: seq<nat>, es: seq<Event>)
    requires s.worker.Testing? && !s.stopper.Joining? && Round(es, ws)
    requires s.flags % 16 != 3 && forall w :: w in ws ==> w % 16 != 3
    ensures Run(s, es) == s.(flags := if ws == [] then s.flags else ws[|ws| - 1])
  {
    var t := Step(Step(s, es[0]), es[1]);
    assert forall i :: 0 <= i < |es[2..]| ==> es[2..][i] == es[i + 2];
    assert es[1..][1..] == es[2..] && es[1..][0] == es[1];
    HandlerRuns(t, ws, es[2..]);
    assert Run(s, es) == Run(Step(s, es[0]), es[1..]) == Run(t, es[2..]);
  }

  // ----- what can go wrong -----

  /** In this step a handler writes QUIT. */
  predicate WritesQuit(s: State, e: Event) {
    e.Work? && s.worker.Handling? && s.worker.writes != [] && s.worker.writes[0] == QUIT
  }

  /** No handler writes QUIT after ABORT has been written. */
  predicate Behaved(s: State, es: seq<Event>)
    decreases |es|
  {
    es == [] || (!(s.stopper.Joining? && WritesQuit(s, es[0])) && Behaved(Step(s, es[0]), es[1..]))
  }

  /** From the write of ABORT until the worker has been joined, the state is ABORT. */
  predicate AbortStands(s: State) {
    s.stopper.Joining? ==> IsAbort(s.flags)
  }

  predicate AbortNeverLost(s: State, es: seq<Event>)
    decreases |es|
  {
    AbortStands(s) && (es == [] || AbortNeverLost(Step(s, es[0]), es[1..]))
  }

  predicate Sane(s: State) {
    && AbortStands(s)
    && (s.stopper.Done? ==> s.worker.Left? && s.flags == QUIT)
  }

  lemma StepKeepsAbort(s: State, e: Event)
    requires Sane(s)
    ensures Sane(Step(s, e)) <==> !(s.stopper.Joining? && WritesQuit(s, e))
    ensures AbortStands(Step(s, e)) <==> !(s.stopper.Joining? && WritesQuit(s, e))
  {
  }

  /** ABORT is never replaced before the worker is gone if and only if no handler writes QUIT once it is set. */
  lemma {:induction false} AbortNeverLostIff(s: State, es: seq<Event>)
    requires Sane(s)
    ensures AbortNeverLost(s, es) <==> Behaved(s, es)
    decreases |es|
  {
    if es == [] {
    } else {
      StepKeepsAbort(s, es[0]);
      if AbortStands(Step(s, es[0])) {
        AbortNeverLostIff(Step(s, es[0]), es[1..]);
      } else {
        assert !AbortNeverLost(Step(s, es[0]), es[1..]);
      }
    }
  }

  /** A handler that writes QUIT after the stop keeps the worker running. */
  lemma QuitInHandlerRevivesWorker()
    ensures var es := [Work([]), Work([]), Work([QUIT, RUNNING]), Halt, Work([]), Work([])];
            var s := Run(START, es);
            s.stopper.Joining? && StateOf(s.flags) == RUNNING
            && Run(s, [Work([]), Work([])]).worker.Fetching?
  {
    var es := [Work([]), Work([]), Work([QUIT, RUNNING]), Halt, Work([]), Work([])];
    var a := Step(START, es[0]);
    var b := Step(a, es[1]);
    var c := Step(b, es[2]);
    var d := Step(c, es[3]);
    var e := Step(d, es[4]);
    var f := Step(e, es[5]);
    assert f.worker == Handling([]) && f.flags == RUNNING;
    assert Run(f, []) == f && Run(e, es[5..]) == f && Run(d, es[4..]) == f && Run(c, es[3..]) == f;
    assert Run(b, es[2..]) == f && Run(a, es[1..]) == f;
    var g := Step(f, Work([]));
    assert g.worker == Testing;
    assert Run(g, [Work([])]) == Step(g, Work([]));
    assert [Work([]), Work([])][1..] == [Work([])];
  }

  // ----- the stop protocol over every run -----

  /** Once ABORT stands the worker can start at most one more handler: the one it is already committed to. */
  predicate Invariant(s: State) {
    && Sane(s)
    && (s.stopper.Before? ==> s.late == 0)
    && s.late + (if s.stopper.Joining? && s.worker.Fetching? then 1 else 0) <= 1
  }

  lemma StepInvariant(s: State, e: Event)
    requires Invariant(s) && !(s.stopper.Joining? && WritesQuit(s, e))
    ensures Invariant(Step(s, e))
  {
  }

  /** In every interleaving: ABORT is never lost, at most one handler starts after it, and QUIT is the stopper's last
      word, written only after the worker has left its loop. */
  lemma {:induction false} StopProtocol(s: State, es: seq<Event>)
    requires Invariant(s) && Behaved(s, es)
    ensures var t := Run(s, es);
            && (t.stopper.Joining? ==> IsAbort(t.flags))
            && t.late <= 1
            && (t.stopper.Done? ==> t.worker.Left? && t.flags == QUIT)
    decreases |es|
  {
    if es == [] {
    } else {
      StepInvariant(s, es[0]);
      StopProtocol(Step(s, es[0]), es[1..]);
    }
  }

  // ----- the worker does stop -----

  /** How many steps of its own the worker still makes once ABORT stands, if the handler it may yet start makes k
      state changes. */
  function StepsLeft(s: State, k: nat): nat {
    match s.worker
    case Starting => 2
    case Testing => 1
    case Fetching => k + 3
    case Handling(ws) => |ws| + 2
    case Left => 0
  }

  function WorkSteps(es: seq<Event>): nat
    decreases |es|
  {
    if es == [] then 0 else (if es[0].Work? then 1 else 0) + WorkSteps(es[1..])
  }

  predicate HandlersWithin(es: seq<Event>, k: nat) {
    forall e :: e in es && e.Work? ==> |e.handler| <= k
  }

  lemma StepProgress(s: State, e: Event, k: nat)
    requires Invariant(s) && s.stopper.Joining? && (e.Work? ==> |e.handler| <= k)
    ensures Step(s, e).stopper.Joining? || Step(s, e).worker.Left?
    ensures StepsLeft(Step(s, e), k) + (if e.Work? then 1 else 0) <= StepsLeft(s, k) || Step(s, e).worker.Left?
  {
  }

  lemma {:induction false} LeftStays(s: State, es: seq<Event>)
    requires s.worker.Left?
    ensures Run(s, es).worker.Left?
    decreases |es|
  {
    if es == [] {
    } else {
      LeftStays(Step(s, es[0]), es[1..]);
    }
  }

  /** After ABORT the worker leaves its loop within a number of its own steps that only its handlers determine. */
  lemma {:induction false} WorkerLeaves(s: State, es: seq<Event>, k: nat)
    requires Invariant(s) && s.stopper.Joining? && Behaved(s, es) && HandlersWithin(es, k)
    requires WorkSteps(es) >= StepsLeft(s, k)
    ensures Run(s, es).worker.Left?
    decreases |es|
  {
    if s.worker.Left? {
      LeftStays(s, es);
    } else if es == [] {
      assert false;
    } else {
      StepInvariant(s, es[0]);
      StepProgress(s, es[0], k);
      var t := Step(s, es[0]);
      if t.worker.Left? {
        LeftStays(t, es[1..]);
      } else {
        WorkerLeaves(t, es[1..], k);
      }
    }
  }

  /** task_stop writes ABORT, and once the worker has left, QUIT; nothing else ends it. */
  lemma StopSteps(s: State)
    requires Invariant(s)
    ensures s.stopper.Before? ==> Step(s, Halt).stopper.Joining? && Step(s, Halt).flags % 16 == 3
    ensures s.stopper.Joining? && s.worker.Left? ==> Step(s, Halt).stopper.Done? && Step(s, Halt).flags == 4
    ensures s.stopper.Joining? && !s.worker.Left? ==> Step(s, Halt) == s
  {
  }

  lemma {:induction false} JoiningOrDone(s: State, es: seq<Event>)
    requires !s.stopper.Before?
    ensures !Run(s, es).stopper.Before?
    decreases |es|
  {
    if es == [] {
    } else {
      JoiningOrDone(Step(s, es[0]), es[1..]);
    }
  }

  /** So the stop completes: after enough steps of the worker the next step of the stopper is its last, and the state is
      QUIT. */
  lemma StopCompletes(s: State, es: seq<Event>, k: nat)
    requires Invariant(s) && s.stopper.Joining? && Behaved(s, es) && HandlersWithin(es, k)
    requires WorkSteps(es) >= StepsLeft(s, k)
    ensures Step(Run(s, es), Halt).stopper.Done? && Step(Run(s, es), Halt).flags == 4
  {
    WorkerLeaves(s, es, k);
    StopProtocol(s, es);
    JoiningOrDone(s, es);
  }
}
