/**
 Who issued which command, and what the completions so far mean for the issuers: each holds the code of the last of its
 commands to complete, or what it held before, and its task's latch is set if and only if it was, or a completion woke
 the task.
 */
module Ledger {
  import opened Netcmd
  import opened Actions
  import opened Pending
  import Task
  import ListHead

  /** For each accepted write, in order: its issuer, and what its outret and its task's latch were when it was
      accepted. */
  datatype Book = Book(issuers: seq<Caller>, held: seq<int>, latched: seq<bool>)

  const EMPTY_BOOK: Book := Book([], [], [])

  predicate Kept(b: Book, n: nat) {
    |b.issuers| == |b.held| == |b.latched| == n
  }

  function IssuerOf(b: Book, id: nat): Caller? {
    if id < |b.issuers| then b.issuers[id] else null
  }

  /** The issuers of the entries, in order. */
  function IssuersOf(b: Book, q: seq<Entry>): (cs: seq<Caller?>)
    ensures |cs| == |q|
  {
    seq(|q|, i requires 0 <= i < |q| => IssuerOf(b, q[i].id))
  }

  /** The completions concern writes in the book. */
  predicate Booked(b: Book, done: seq<Done>) {
    forall k :: 0 <= k < |done| ==> done[k].id < |b.issuers|
  }

  /** What c's outret has become, after the completions, from what it was before. */
  function OutretAfter(b: Book, done: seq<Done>, c: Caller, before: int): int
    decreases |done|
  {
    if done == [] then before
    else
      var d := done[|done| - 1];
      if IssuerOf(b, d.id) == c then Code(d.completion.outcome) else OutretAfter(b, done[..|done| - 1], c, before)
  }

  predicate Wakes(b: Book, d: Done, t: Task.Task) {
    var c := IssuerOf(b, d.id);
    c != null && c.task == t && d.completion.wakes
  }

  /** One of the completions has woken t. */
  predicate Woken(b: Book, done: seq<Done>, t: Task.Task) {
    exists k :: 0 <= k < |done| && Wakes(b, done[k], t)
  }

  /** The outret of each issuer, and the latch of its task. */
  ghost function Outrets(b: Book): (os: seq<int>)
    reads b.issuers
    ensures |os| == |b.issuers|
  {
    seq(|b.issuers|, i requires 0 <= i < |b.issuers| reads b.issuers => b.issuers[i].outret)
  }

  ghost function Latches(b: Book): (ls: seq<bool>)
    reads set c: Caller | c in b.issuers :: c.task
    ensures |ls| == |b.issuers|
  {
    seq(|b.issuers|, i requires 0 <= i < |b.issuers| reads set c: Caller | c in b.issuers :: c.task =>
      b.issuers[i].task.wakeupEarly)
  }

  /** For the i-th write: its issuer holds, and its task's latch is, what the completions say, no more and no less. */
  predicate ToldOne(b: Book, done: seq<Done>, os: seq<int>, ls: seq<bool>, i: nat)
    requires i < |b.issuers| == |b.held| == |b.latched| == |os| == |ls|
  {
    var c := b.issuers[i];
    os[i] == OutretAfter(b, done, c, b.held[i]) && ls[i] == (b.latched[i] || Woken(b, done, c.task))
  }

  predicate ToldAll(b: Book, done: seq<Done>, os: seq<int>, ls: seq<bool>)
    requires |b.issuers| == |b.held| == |b.latched| == |os| == |ls|
  {
    forall i :: 0 <= i < |b.issuers| ==> ToldOne(b, done, os, ls, i)
  }

  ghost predicate Told(b: Book, done: seq<Done>)
    requires Kept(b, |b.issuers|)
    reads b.issuers, set c: Caller | c in b.issuers :: c.task
  {
    ToldAll(b, done, Outrets(b), Latches(b))
  }

  // ----- one completion more -----

  lemma OutretSnoc(b: Book, done: seq<Done>, d: Done, c: Caller, before: int)
    ensures OutretAfter(b, done + [d], c, before)
         == if IssuerOf(b, d.id) == c then Code(d.completion.outcome) else OutretAfter(b, done, c, before)
  {
    assert (done + [d])[..|done + [d]| - 1] == done;
  }

  lemma WokenSnoc(b: Book, done: seq<Done>, d: Done, t: Task.Task)
    ensures Woken(b, done + [d], t) <==> Woken(b, done, t) || Wakes(b, d, t)
  {
    var ds := done + [d];
    if Woken(b, done, t) {
      var k :| 0 <= k < |done| && Wakes(b, done[k], t);
      assert ds[k] == done[k];
    }
    if Wakes(b, d, t) {
      assert ds[|done|] == d;
    }
  }

  /** The callback of completion d has served its issuer and touched nobody else. */
  predicate Only(b: Book, d: Done, os: seq<int>, ls: seq<bool>, ps: seq<int>, ms: seq<bool>)
    requires |b.issuers| == |os| == |ls| == |ps| == |ms|
  {
    forall i :: 0 <= i < |b.issuers| ==>
      && ps[i] == (if IssuerOf(b, d.id) == b.issuers[i] then Code(d.completion.outcome) else os[i])
      && ms[i] == (ls[i] || Wakes(b, d, b.issuers[i].task))
  }

  lemma ToldAfter(b: Book, done: seq<Done>, d: Done, os: seq<int>, ls: seq<bool>, ps: seq<int>, ms: seq<bool>)
    requires |b.issuers| == |b.held| == |b.latched| == |os| == |ls| == |ps| == |ms|
    requires ToldAll(b, done, os, ls) && Only(b, d, os, ls, ps, ms)
    ensures ToldAll(b, done + [d], ps, ms)
  {
    forall i | 0 <= i < |b.issuers| ensures ToldOne(b, done + [d], ps, ms, i) {
      var x := b.issuers[i];
      assert ToldOne(b, done, os, ls, i);
      OutretSnoc(b, done, d, x, b.held[i]);
      WokenSnoc(b, done, d, x.task);
    }
  }

  // ----- one write more -----

  function Entered(b: Book, c: Caller, outret: int, latch: bool): Book {
    Book(b.issuers + [c], b.held + [outret], b.latched + [latch])
  }

  lemma {:induction false} OutretEntered(b: Book, c: Caller, h: int, l: bool, done: seq<Done>, x: Caller, before: int)
    requires Booked(b, done)
    ensures OutretAfter(Entered(b, c, h, l), done, x, before) == OutretAfter(b, done, x, before)
    decreases |done|
  {
    if done == [] {
    } else {
      OutretEntered(b, c, h, l, done[..|done| - 1], x, before);
    }
  }

  lemma WokenEntered(b: Book, c: Caller, h: int, l: bool, done: seq<Done>, t: Task.Task)
    requires Booked(b, done)
    ensures Woken(Entered(b, c, h, l), done, t) == Woken(b, done, t)
  {
    forall k | 0 <= k < |done| ensures Wakes(Entered(b, c, h, l), done[k], t) == Wakes(b, done[k], t) {
    }
  }

  lemma BookedEntered(b: Book, done: seq<Done>, q: seq<Entry>, cs: seq<Caller?>, c: Caller, e: Entry)
    requires Booked(b, done) && cs == IssuersOf(b, q) && e.id == |b.issuers|
    requires forall i :: 0 <= i < |cs| ==> cs[i] != null
    ensures forall h, l :: Booked(Entered(b, c, h, l), done) && IssuersOf(Entered(b, c, h, l), q + [e]) == cs + [c]
  {
    forall h, l ensures IssuersOf(Entered(b, c, h, l), q + [e]) == cs + [c] {
      forall i | 0 <= i < |q| ensures IssuerOf(Entered(b, c, h, l), q[i].id) == cs[i] {
        assert cs[i] == IssuerOf(b, q[i].id);
      }
    }
  }

  lemma BookedWithout(b: Book, done: seq<Done>, q: seq<Entry>, k: nat, c: Completion)
    requires Booked(b, done) && k < |q| && IssuersOf(b, q)[k] != null
    ensures Booked(b, done + [Done(q[k].id, c)])
    ensures IssuersOf(b, ListHead.Without(q, k)) == ListHead.Without(IssuersOf(b, q), k)
  {
    assert IssuersOf(b, q)[k] == IssuerOf(b, q[k].id);
  }

  /** Starting from what it ended with changes nothing. */
  lemma {:induction false} OutretAgain(b: Book, done: seq<Done>, c: Caller, before: int)
    ensures OutretAfter(b, done, c, OutretAfter(b, done, c, before)) == OutretAfter(b, done, c, before)
    decreases |done|
  {
    if done == [] {
    } else {
      OutretAgain(b, done[..|done| - 1], c, before);
    }
  }

  lemma {:induction false} OutretOfStranger(b: Book, done: seq<Done>, c: Caller, before: int)
    requires c !in b.issuers
    ensures OutretAfter(b, done, c, before) == before
    decreases |done|
  {
    if done == [] {
    } else {
      OutretOfStranger(b, done[..|done| - 1], c, before);
    }
  }

  lemma ToldEntered(b: Book, done: seq<Done>, c: Caller)
    requires Kept(b, |b.issuers|) && Booked(b, done) && Told(b, done)
    ensures Told(Entered(b, c, c.outret, c.task.wakeupEarly), done)
  {
    var h, l, n := c.outret, c.task.wakeupEarly, |b.issuers|;
    var e := Entered(b, c, h, l);
    forall i | 0 <= i < n ensures ToldOne(e, done, Outrets(e), Latches(e), i) {
      assert ToldOne(b, done, Outrets(b), Latches(b), i);
      OutretEntered(b, c, h, l, done, b.issuers[i], b.held[i]);
      WokenEntered(b, c, h, l, done, b.issuers[i].task);
    }
    NewIssuer(b, done, c);
    OutretEntered(b, c, h, l, done, c, h);
    WokenEntered(b, c, h, l, done, c.task);
    assert ToldOne(e, done, Outrets(e), Latches(e), n);
  }

  /** A new write changes nothing of what its issuer has been told. */
  lemma NewIssuer(b: Book, done: seq<Done>, c: Caller)
    requires Kept(b, |b.issuers|) && Booked(b, done) && Told(b, done)
    ensures OutretAfter(b, done, c, c.outret) == c.outret
    ensures Woken(b, done, c.task) ==> c.task.wakeupEarly
  {
    if c in b.issuers {
      var i :| 0 <= i < |b.issuers| && b.issuers[i] == c;
      assert ToldOne(b, done, Outrets(b), Latches(b), i);
      OutretAgain(b, done, c, b.held[i]);
    } else {
      OutretOfStranger(b, done, c, c.outret);
    }
    if Woken(b, done, c.task) {
      var k :| 0 <= k < |done| && Wakes(b, done[k], c.task);
      assert ToldOne(b, done, Outrets(b), Latches(b), done[k].id);
    }
  }

  // ----- what it means -----

  /** An issuer no two of whose commands complete holds the code of its own completion. */
  lemma HoldsItsOwnCode(b: Book, done: seq<Done>, k: nat)
    requires Kept(b, |b.issuers|) && Booked(b, done) && Told(b, done) && k < |done|
    requires forall j :: k < j < |done| ==> b.issuers[done[j].id] != b.issuers[done[k].id]
    ensures b.issuers[done[k].id].outret == Code(done[k].completion.outcome)
    ensures done[k].completion.wakes ==> b.issuers[done[k].id].task.wakeupEarly
  {
    var i := done[k].id;
    assert ToldOne(b, done, Outrets(b), Latches(b), i);
    LastCode(b, done, k, b.issuers[i], b.held[i]);
    assert done[k].completion.wakes ==> Wakes(b, done[k], b.issuers[i].task);
  }

  /** No later completion is for the issuer of the k-th one. */
  predicate LastFor(cs: seq<Caller>, done: seq<Done>, k: nat)
    requires k < |done| && forall j :: 0 <= j < |done| ==> done[j].id < |cs|
  {
    forall j :: k < j < |done| ==> cs[done[j].id] != cs[done[k].id]
  }

  /** Each issuer holds the code of the last of its commands to complete, its own if it issued one; and if that
      completion wakes, its task's latch is set.  cs holds the issuers of the writes accepted, in order. */
  ghost predicate Outcomes(cs: seq<Caller>, done: seq<Done>)
    reads cs, set c: Caller | c in cs :: c.task
  {
    && (forall k :: 0 <= k < |done| ==> done[k].id < |cs|)
    && forall k :: 0 <= k < |done| && LastFor(cs, done, k) ==>
         && cs[done[k].id].outret == Code(done[k].completion.outcome)
         && (done[k].completion.wakes ==> cs[done[k].id].task.wakeupEarly)
  }

  lemma OutcomesTold(b: Book, done: seq<Done>)
    requires Kept(b, |b.issuers|) && Booked(b, done) && Told(b, done)
    ensures Outcomes(b.issuers, done)
  {
    forall k | 0 <= k < |done| && LastFor(b.issuers, done, k)
      ensures b.issuers[done[k].id].outret == Code(done[k].completion.outcome)
      ensures done[k].completion.wakes ==> b.issuers[done[k].id].task.wakeupEarly
    {
      HoldsItsOwnCode(b, done, k);
    }
  }

  lemma {:induction false} LastCode(b: Book, done: seq<Done>, k: nat, c: Caller, before: int)
    requires Booked(b, done) && k < |done| && b.issuers[done[k].id] == c
    requires forall j :: k < j < |done| ==> b.issuers[done[j].id] != c
    ensures OutretAfter(b, done, c, before) == Code(done[k].completion.outcome)
    decreases |done|
  {
    if k < |done| - 1 {
      assert done[|done| - 1] != done[k];
      LastCode(b, done[..|done| - 1], k, c, before);
    }
  }

  /** An issuer none of whose commands has completed holds what it held. */
  lemma HoldsWhatItHeld(b: Book, done: seq<Done>, i: nat)
    requires Kept(b, |b.issuers|) && Told(b, done) && i < |b.issuers|
    requires forall k :: 0 <= k < |done| ==> IssuerOf(b, done[k].id) != b.issuers[i]
    ensures b.issuers[i].outret == b.held[i]
  {
    assert ToldOne(b, done, Outrets(b), Latches(b), i);
    NoCode(b, done, b.issuers[i], b.held[i]);
  }

  lemma {:induction false} NoCode(b: Book, done: seq<Done>, c: Caller, before: int)
    requires forall k :: 0 <= k < |done| ==> IssuerOf(b, done[k].id) != c
    ensures OutretAfter(b, done, c, before) == before
    decreases |done|
  {
    if done == [] {
    } else {
      NoCode(b, done[..|done| - 1], c, before);
    }
  }
}
