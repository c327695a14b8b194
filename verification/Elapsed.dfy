/** l0001_timespecelapsed of src/l0001-0/misc.c in the 64-bit arithmetic it is compiled to. */
module Elapsed {

  datatype Timespec = Timespec(sec: nat, nsec: nat)

  const NANOS: nat := 1_000_000_000
  const NANOS_PER_MS: nat := 1_000_000
  const U64_SIZE: nat := 0x1_0000_0000_0000_0000

  /** A clock reading: normalised, and small enough that (sec difference) * 1000 is a defined signed product. */
  predicate Valid(t: Timespec) {
    t.nsec < NANOS && t.sec < 0x20_0000_0000_0000
  }

  function Nanos(t: Timespec): nat {
    t.sec * NANOS + t.nsec
  }

  function U64(x: int): (r: nat)
    ensures r < U64_SIZE
  {
    x % U64_SIZE
  }

  /** The C expression.  The divisor is unsigned, so a negative nanosecond difference is converted before it is divided. */
  function ElapsedMs(now: Timespec, before: Timespec): nat {
    U64(U64((now.sec - before.sec) * 1000) + U64(now.nsec - before.nsec) / NANOS_PER_MS)
  }

  /** Whole milliseconds between two readings. */
  function TrueMs(now: Timespec, before: Timespec): int {
    (Nanos(now) - Nanos(before)) / NANOS_PER_MS
  }

  /** The expression is exact as long as the nanoseconds need no borrow ... */
  lemma ExactWithoutBorrow(now: Timespec, before: Timespec)
    requires Valid(now) && Valid(before) && Nanos(before) <= Nanos(now)
    requires before.nsec <= now.nsec
    ensures ElapsedMs(now, before) == TrueMs(now, before)
  {
    var s, n := now.sec - before.sec, now.nsec - before.nsec;
    assert Nanos(now) - Nanos(before) == s * NANOS + n;
  }

  /** ... and yields more than five hundred years whenever they do. */
  lemma HugeWithBorrow(now: Timespec, before: Timespec)
    requires Valid(now) && Valid(before) && Nanos(before) <= Nanos(now)
    requires now.nsec < before.nsec
    ensures ElapsedMs(now, before) > 18_446_744_072_708
  {
    var s, n := now.sec - before.sec, now.nsec - before.nsec;
    assert U64(n) == U64_SIZE + n;
  }

  /** A concrete reading pair one millisecond apart that the expression takes for an eternity. */
  lemma BorrowExample()
    ensures var now, before := Timespec(1, 0), Timespec(0, 999_000_000);
            TrueMs(now, before) == 1 && ElapsedMs(now, before) == 18_446_744_073_710
  {
  }
}
