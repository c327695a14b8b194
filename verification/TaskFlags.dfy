/** The state word of a task, of src/l0003-0/task.c, and the decision a waiting thread takes. */
module TaskFlags {

  const IDLE: nat := 0
  const PREP: nat := 1
  const RUNNING: nat := 2
  const ABORT: nat := 3
  const QUIT: nat := 4
  const MASK_SIZE: nat := 16   // TASK_MASK keeps the low four bits

  function StateOf(flags: nat): nat {
    flags % MASK_SIZE
  }

  predicate IsAbort(flags: nat) {
    StateOf(flags) == ABORT
  }

  /** task_changestate on the flags. */
  function Changed(flags: nat, newstate: nat): nat {
    if !IsAbort(flags) || newstate == QUIT then newstate else flags
  }

  /** What the waiter finds when it tests its loop condition, or when the timed wait has returned. */
  datatype Verdict = Sleep | Return

  function Decided(aborted: bool, early: bool): Verdict {
    if aborted || early then Return else Sleep
  }
}
