/**
 The pending-command protocol of src/l0006-0/netcom.c on values: writes waiting for an acknowledgement, in
 the order they were sent, and what completes them.  Entries carry the number of the write they stem from, so
 that completions can be traced back; the program has no such number and no operation looks at it.
 */
module Pending {
  import opened Bytes
  import opened Netcmd
  import opened Elapsed
  import opened ListHead

  const SLOTS: nat := 16
  const TIMEOUT_MS: nat := 3000

  /** struct l0006_netcom_action as far as the protocol uses it. */
  datatype Request = Request(action: Action, cmd: byte, seqno: byte)

  datatype Entry = Entry(id: nat, req: Request, sent: Timespec)

  datatype Done = Done(id: nat, completion: Completion)

  /** queue is the used list; accepted counts the writes queued so far; done logs the callbacks made. */
  datatype State = State(queue: seq<Entry>, accepted: nat, done: seq<Done>)

  const INITIAL: State := State([], 0, [])

  // ----- the operations -----

  /** l0006_netcom_write: refused when disconnected, when all slots wait, or when the transport fails. */
  function Write(s: State, req: Request, now: Timespec, connected: bool, bev: bool, sent: bool, ack: bool): (State,
                 int) {
    if connected && |s.queue| < SLOTS && bev && sent then
      (if ack then State(s.queue + [Entry(s.accepted, req, now)], s.accepted + 1, s.done) else s, 0)
    else (s, -1)
  }

  /** The first waiting entry with the given sequence number; the queue's length if there is none. */
  function Find(q: seq<Entry>, seqno: byte): (j: nat)
    ensures j <= |q|
    ensures forall i :: 0 <= i < j ==> q[i].req.seqno != seqno
    ensures j < |q| ==> q[j].req.seqno == seqno
  {
    if q == [] || q[0].req.seqno == seqno then 0 else 1 + Find(q[1..], seqno)
  }

  function Complete(s: State, j: nat, c: Completion): State
    requires j < |s.queue|
  {
    State(Without(s.queue, j), s.accepted, s.done + [Done(s.queue[j].id, c)])
  }

  /** The acknowledgement branch of netcom_readcb: the first entry with the packet's sequence number completes. */
  function Acknowledge(s: State, p: seq<byte>): State
    requires ReplyPacket(p)
  {
    var j := Find(s.queue, p[SEQNO]);
    if j == |s.queue| then s
    else Complete(s, j, OnReply(s.queue[j].req.action, s.queue[j].req.cmd, p))
  }

  predicate TimedOut(now: Timespec, e: Entry) {
    ElapsedMs(now, e.sent) > TIMEOUT_MS
  }

  /** Complete from the front, with a timeout, while p holds. */
  function CompleteWhile(s: State, p: Entry -> bool): State
    decreases |s.queue|
  {
    if s.queue != [] && p(s.queue[0]) then CompleteWhile(Complete(s, 0, OnTimeout()), p) else s
  }

  /** netcom_timeoutcb: complete from the front, stopping at the first entry that has not timed out. */
  function Expire(s: State, now: Timespec): State {
    CompleteWhile(s, e => TimedOut(now, e))
  }

  // ----- runs -----

  datatype Event =
    | WriteEvent(req: Request, time: Timespec, connected: bool, bev: bool, sent: bool, ack: bool)
    | ReplyEvent(packet: seq<byte>)
    | TimeoutEvent(time: Timespec)

  predicate ValidEvent(e: Event) {
    e.ReplyEvent? ==> ReplyPacket(e.packet)
  }

  function Apply(s: State, e: Event): State
    requires ValidEvent(e)
  {
    match e
    case WriteEvent(req, now, connected, bev, sent, ack) => Write(s, req, now, connected, bev, sent, ack).0
    case ReplyEvent(p) => Acknowledge(s, p)
    case TimeoutEvent(now) => Expire(s, now)
  }

  function Run(s: State, es: seq<Event>): State
    requires forall e :: e in es ==> ValidEvent(e)
    decreases |es|
  {
    if es == [] then s else Run(Apply(s, es[0]), es[1..])
  }

  // ----- exactly-once completion -----

  function Ids(q: seq<Entry>): multiset<nat> {
    if q == [] then multiset{} else multiset{q[0].id} + Ids(q[1..])
  }

  function DoneIds(d: seq<Done>): multiset<nat> {
    if d == [] then multiset{} else multiset{d[0].id} + DoneIds(d[1..])
  }

  function UpTo(n: nat): multiset<nat> {
    if n == 0 then multiset{} else UpTo(n - 1) + multiset{n - 1}
  }

  /** Every accepted write is either waiting or has completed once: the two logs together hold each number once. */
  predicate Accounted(s: State) {
    && Ids(s.queue) + DoneIds(s.done) == UpTo(s.accepted)
    && |s.queue| + |s.done| == s.accepted
    && |s.queue| <= SLOTS
  }

  lemma {:induction false} IdsConcat(a: seq<Entry>, b: seq<Entry>)
    ensures Ids(a + b) == Ids(a) + Ids(b)
  {
    if a == [] {
      assert a + b == b;
    } else {
      assert (a + b)[1..] == a[1..] + b;
      IdsConcat(a[1..], b);
    }
  }

  lemma {:induction false} DoneIdsSnoc(d: seq<Done>, x: Done)
    ensures DoneIds(d + [x]) == DoneIds(d) + multiset{x.id}
  {
    if d == [] {
    } else {
      assert (d + [x])[1..] == d[1..] + [x];
      DoneIdsSnoc(d[1..], x);
    }
  }

  lemma {:induction false} IdsWithout(q: seq<Entry>, j: nat)
    requires j < |q|
    ensures Ids(q) == Ids(Without(q, j)) + multiset{q[j].id}
  {
    if j == 0 {
      assert Without(q, 0) == q[1..];
    } else {
      assert Without(q, j)[1..] == Without(q[1..], j - 1);
      IdsWithout(q[1..], j - 1);
    }
  }

  lemma CompleteAccounted(s: State, j: nat, c: Completion)
    requires Accounted(s) && j < |s.queue|
    ensures Accounted(Complete(s, j, c))
  {
    IdsWithout(s.queue, j);
    DoneIdsSnoc(s.done, Done(s.queue[j].id, c));
  }

  lemma {:induction false} CompleteWhileAccounted(s: State, p: Entry -> bool)
    requires Accounted(s)
    ensures Accounted(CompleteWhile(s, p))
    decreases |s.queue|
  {
    if s.queue != [] && p(s.queue[0]) {
      CompleteAccounted(s, 0, OnTimeout());
      CompleteWhileAccounted(Complete(s, 0, OnTimeout()), p);
    }
  }

  lemma AppendAccounted(s: State, e: Entry)
    requires Accounted(s) && |s.queue| < SLOTS && e.id == s.accepted
    ensures Accounted(State(s.queue + [e], s.accepted + 1, s.done))
  {
    IdsSnoc(s.queue, e);
    Shuffle(Ids(s.queue), multiset{e.id}, DoneIds(s.done));
  }

  lemma IdsSnoc(q: seq<Entry>, e: Entry)
    ensures Ids(q + [e]) == Ids(q) + multiset{e.id}
  {
    IdsConcat(q, [e]);
    assert [e][1..] == [];
  }

  lemma Shuffle(a: multiset<nat>, b: multiset<nat>, c: multiset<nat>)
    ensures (a + b) + c == (a + c) + b
  {
  }

  lemma WriteAccounted(s: State, req: Request, now: Timespec, connected: bool, bev: bool, sent: bool, ack: bool)
    requires Accounted(s)
    ensures Accounted(Write(s, req, now, connected, bev, sent, ack).0)
  {
    if |s.queue| < SLOTS {
      AppendAccounted(s, Entry(s.accepted, req, now));
    }
  }

  lemma AcknowledgeAccounted(s: State, p: seq<byte>)
    requires Accounted(s) && ReplyPacket(p)
    ensures Accounted(Acknowledge(s, p))
  {
    var j := Find(s.queue, p[SEQNO]);
    if j < |s.queue| {
      CompleteAccounted(s, j, OnReply(s.queue[j].req.action, s.queue[j].req.cmd, p));
    }
  }

  lemma ApplyAccounted(s: State, e: Event)
    requires ValidEvent(e) && Accounted(s)
    ensures Accounted(Apply(s, e))
  {
    match e
    case WriteEvent(req, now, connected, bev, sent, ack) =>
      WriteAccounted(s, req, now, connected, bev, sent, ack);
    case ReplyEvent(p) =>
      AcknowledgeAccounted(s, p);
    case TimeoutEvent(now) =>
      CompleteWhileAccounted(s, x => TimedOut(now, x));
  }

  lemma {:induction false} RunAccounted(s: State, es: seq<Event>)
    requires Accounted(s) && forall e :: e in es ==> ValidEvent(e)
    ensures Accounted(Run(s, es))
    decreases |es|
  {
    if es == [] {
    } else {
      ApplyAccounted(s, es[0]);
      RunAccounted(Apply(s, es[0]), es[1..]);
    }
  }

  lemma {:induction false} UpToCounts(n: nat, k: nat)
    ensures UpTo(n)[k] == if k < n then 1 else 0
    decreases n
  {
    if n == 0 {
    } else {
      UpToCounts(n - 1, k);
    }
  }

  /** Over every run from the start: each accepted write is waiting or completed, exactly one of the two, at most
      once; and the writes accepted are the completions plus the entries still waiting. */
  lemma ExactlyOnce(es: seq<Event>, id: nat)
    requires forall e :: e in es ==> ValidEvent(e)
    ensures var s := Run(INITIAL, es);
            && Ids(s.queue)[id] + DoneIds(s.done)[id] == (if id < s.accepted then 1 else 0)
            && s.accepted == |s.done| + |s.queue|
            && |s.queue| <= SLOTS
  {
    RunAccounted(INITIAL, es);
    UpToCounts(Run(INITIAL, es).accepted, id);
  }

  lemma {:induction false} CompletionCounted(d: seq<Done>, i: nat)
    requires i < |d|
    ensures DoneIds(d)[d[i].id] >= 1
  {
    if i > 0 {
      CompletionCounted(d[1..], i - 1);
    }
  }

  lemma {:induction false} CompletionsCounted(d: seq<Done>, i: nat, j: nat)
    requires i < j < |d| && d[i].id == d[j].id
    ensures DoneIds(d)[d[i].id] >= 2
  {
    if i > 0 {
      CompletionsCounted(d[1..], i - 1, j - 1);
    } else {
      CompletionCounted(d[1..], j - 1);
    }
  }

  /** No write gets two callbacks: neither two acknowledgements, nor two timeouts, nor one of each.  So a write that
      ended without waking its issuer never wakes it. */
  lemma OneCallbackEach(es: seq<Event>, i: nat, j: nat)
    requires forall e :: e in es ==> ValidEvent(e)
    requires var d := Run(INITIAL, es).done; i < j < |d|
    ensures var d := Run(INITIAL, es).done; d[i].id != d[j].id
  {
    var d := Run(INITIAL, es).done;
    if d[i].id == d[j].id {
      ExactlyOnce(es, d[i].id);
      CompletionsCounted(d, i, j);
    }
  }

  // ----- the timeout scan -----

  /** The number of leading entries that satisfy p. */
  function Leading(q: seq<Entry>, p: Entry -> bool): (k: nat)
    ensures k <= |q|
    ensures k < |q| ==> !p(q[k])
    ensures forall i :: 0 <= i < k ==> p(q[i])
  {
    if q != [] && p(q[0]) then 1 + Leading(q[1..], p) else 0
  }

  function Timeouts(q: seq<Entry>): (d: seq<Done>)
    ensures |d| == |q|
    ensures forall i :: 0 <= i < |q| ==> d[i] == Done(q[i].id, OnTimeout())
  {
    seq(|q|, i requires 0 <= i < |q| => Done(q[i].id, OnTimeout()))
  }

  lemma {:induction false} CompleteWhileIsPrefix(s: State, p: Entry -> bool)
    ensures var k := Leading(s.queue, p);
            CompleteWhile(s, p) == State(s.queue[k..], s.accepted, s.done + Timeouts(s.queue[..k]))
    decreases |s.queue|
  {
    var q, k := s.queue, Leading(s.queue, p);
    if q == [] || !p(q[0]) {
      NoTimeouts(s);
    } else {
      var t := Complete(s, 0, OnTimeout());
      CompleteFirst(s);
      CompleteWhileIsPrefix(t, p);
      TimeoutsCons(q, k);
      Regroup(s.done, Done(q[0].id, OnTimeout()), Timeouts(q[1..][..k - 1]));
    }
  }

  lemma NoTimeouts(s: State)
    ensures s == State(s.queue[0..], s.accepted, s.done + Timeouts(s.queue[..0]))
  {
    assert s.done + Timeouts(s.queue[..0]) == s.done;
  }

  lemma CompleteFirst(s: State)
    requires s.queue != []
    ensures Complete(s, 0, OnTimeout()) ==
      State(s.queue[1..], s.accepted, s.done + [Done(s.queue[0].id, OnTimeout())])
  {
    assert Without(s.queue, 0) == s.queue[1..];
  }

  lemma Regroup(a: seq<Done>, x: Done, b: seq<Done>)
    ensures (a + [x]) + b == a + ([x] + b)
  {
  }

  lemma TimeoutsCons(q: seq<Entry>, k: nat)
    requires 0 < k <= |q|
    ensures Timeouts(q[..k]) == [Done(q[0].id, OnTimeout())] + Timeouts(q[1..][..k - 1])
    ensures q[1..][k - 1..] == q[k..]
  {
  }

  /** How many entries the scan gives up on. */
  function Expired(q: seq<Entry>, now: Timespec): nat {
    Leading(q, e => TimedOut(now, e))
  }

  /** The scan removes a prefix of the queue and logs a timeout for each entry of it. */
  lemma ExpireRemovesPrefix(s: State, now: Timespec)
    ensures Expired(s.queue, now) <= |s.queue|
    ensures var k := Expired(s.queue, now);
            Expire(s, now) == State(s.queue[k..], s.accepted, s.done + Timeouts(s.queue[..k]))
  {
    CompleteWhileIsPrefix(s, e => TimedOut(now, e));
  }

  /** The queue is in sending order and nothing in it was sent after t. */
  predicate Ordered(q: seq<Entry>, t: Timespec) {
    && Valid(t)
    && (forall i :: 0 <= i < |q| ==> Valid(q[i].sent) && Nanos(q[i].sent) <= Nanos(t))
    && (forall i, j :: 0 <= i < j < |q| ==> Nanos(q[i].sent) <= Nanos(q[j].sent))
  }

  predicate Old(now: Timespec, e: Entry) {
    TrueMs(now, e.sent) > TIMEOUT_MS
  }

  /** That is, 3001 milliseconds or more have passed. */
  lemma OldMeans(now: Timespec, e: Entry)
    ensures Old(now, e) <==> (now.sec - e.sent.sec) * 1_000_000_000 + (now.nsec - e.sent.nsec) >= 3_001_000_000
  {
  }

  predicate Borrows(now: Timespec, e: Entry) {
    now.nsec < e.sent.nsec
  }

  lemma TimedOutIff(now: Timespec, e: Entry)
    requires Valid(now) && Valid(e.sent) && Nanos(e.sent) <= Nanos(now)
    ensures TimedOut(now, e) <==> Old(now, e) || Borrows(now, e)
  {
    if now.nsec < e.sent.nsec {
      HugeWithBorrow(now, e.sent);
    } else {
      ExactWithoutBorrow(now, e.sent);
    }
  }

  lemma YoungerIsNotOlder(now: Timespec, d: Entry, e: Entry)
    requires Nanos(d.sent) <= Nanos(e.sent)
    ensures Old(now, e) ==> Old(now, d)
  {
  }

  // The three tests as values, so that the prefix arguments need no arithmetic.
  ghost predicate Tests(q: seq<Entry>, out: Entry -> bool, old': Entry -> bool, borrows: Entry -> bool) {
    && (forall i :: 0 <= i < |q| ==> (out(q[i]) <==> old'(q[i]) || borrows(q[i])))
    && (forall i, j :: 0 <= i < j < |q| && old'(q[j]) ==> old'(q[i]))
  }

  lemma TestsHold(q: seq<Entry>, now: Timespec)
    requires Ordered(q, now)
    ensures Tests(q, e => TimedOut(now, e), e => Old(now, e), e => Borrows(now, e))
  {
    forall i | 0 <= i < |q| ensures TimedOut(now, q[i]) <==> Old(now, q[i]) || Borrows(now, q[i]) {
      TimedOutIff(now, q[i]);
    }
    forall i, j | 0 <= i < j < |q| ensures Old(now, q[j]) ==> Old(now, q[i]) {
      YoungerIsNotOlder(now, q[i], q[j]);
    }
  }

  lemma RestIsNotOld(q: seq<Entry>, out: Entry -> bool, old': Entry -> bool, borrows: Entry -> bool, i: nat)
    requires Tests(q, out, old', borrows) && Leading(q, out) <= i < |q|
    ensures !old'(q[i])
  {
    var k := Leading(q, out);
    assert !old'(q[k]);
  }

  /** Although the scan stops at the first entry it spares, no entry older than 3000 ms remains. */
  lemma NoOldEntryRemains(s: State, now: Timespec, i: nat)
    requires Ordered(s.queue, now) && i < |Expire(s, now).queue|
    ensures !Old(now, Expire(s, now).queue[i])
  {
    ExpireRemovesPrefix(s, now);
    TestsHold(s.queue, now);
    RestIsNotOld(s.queue, e => TimedOut(now, e), e => Old(now, e), e => Borrows(now, e), Expired(s.queue, now) + i);
  }

  /** The number of leading entries that really are older than 3000 ms. */
  function Aged(q: seq<Entry>, now: Timespec): (k: nat)
    ensures k <= |q|
  {
    Leading(q, e => Old(now, e))
  }

  /** In a queue in sending order these are all the old entries there are. */
  lemma AgedAreAllOld(q: seq<Entry>, now: Timespec, i: nat)
    requires Ordered(q, now) && i < |q|
    ensures Old(now, q[i]) <==> i < Aged(q, now)
  {
    var k := Aged(q, now);
    if k < i {
      YoungerIsNotOlder(now, q[k], q[i]);
    }
  }

  lemma LeadingExactIff(q: seq<Entry>, out: Entry -> bool, old': Entry -> bool, borrows: Entry -> bool)
    requires Tests(q, out, old', borrows)
    ensures var k := Leading(q, old');
            && Leading(q, out) >= k
            && (Leading(q, out) == k <==> k == |q| || !borrows(q[k]))
  {
  }

  /** The scan gives up on exactly the old entries if and only if the first entry that is not old, if there is one,
      was sent at a nanosecond count not above the current one; otherwise it gives up on that entry as well. */
  lemma ScanIsExactIff(q: seq<Entry>, now: Timespec)
    requires Ordered(q, now)
    ensures Expired(q, now) >= Aged(q, now)
    ensures var k := Aged(q, now);
            Expired(q, now) == k <==> k == |q| || q[k].sent.nsec <= now.nsec
  {
    TestsHold(q, now);
    LeadingExactIff(q, e => TimedOut(now, e), e => Old(now, e), e => Borrows(now, e));
  }

  /** One command, sent a millisecond ago, that the scan times out. */
  lemma PrematureTimeout(req: Request)
    ensures var now := Timespec(1, 0); var q := [Entry(0, req, Timespec(0, 999_000_000))];
            Ordered(q, now) && Aged(q, now) == 0 && Expired(q, now) == 1
  {
    var now := Timespec(1, 0);
    var q := [Entry(0, req, Timespec(0, 999_000_000))];
    BorrowExample();
    assert !Old(now, q[0]) && TimedOut(now, q[0]);
    assert q[1..] == [];
  }

  // ----- sending order over runs -----

  /** The monotonic clock: no event reads an earlier time than the one before it. */
  predicate Timely(es: seq<Event>, t: Timespec)
    decreases |es|
  {
    if es == [] then true
    else if es[0].ReplyEvent? then Timely(es[1..], t)
    else Valid(es[0].time) && Nanos(t) <= Nanos(es[0].time) && Timely(es[1..], es[0].time)
  }

  function LastTime(es: seq<Event>, t: Timespec): Timespec
    decreases |es|
  {
    if es == [] then t else LastTime(es[1..], if es[0].ReplyEvent? then t else es[0].time)
  }

  lemma OrderedLater(q: seq<Entry>, t: Timespec, u: Timespec)
    requires Ordered(q, t) && Valid(u) && Nanos(t) <= Nanos(u)
    ensures Ordered(q, u)
  {
  }

  lemma OrderedWithout(q: seq<Entry>, t: Timespec, j: nat)
    requires Ordered(q, t) && j < |q|
    ensures Ordered(Without(q, j), t)
  {
  }

  lemma OrderedAppend(q: seq<Entry>, t: Timespec, e: Entry)
    requires Ordered(q, t) && e.sent == t
    ensures Ordered(q + [e], t)
  {
  }

  lemma OrderedSuffix(q: seq<Entry>, t: Timespec, k: nat)
    requires Ordered(q, t) && k <= |q|
    ensures Ordered(q[k..], t)
  {
  }

  lemma ApplyOrdered(s: State, e: Event, t: Timespec)
    requires ValidEvent(e) && Ordered(s.queue, t)
    requires !e.ReplyEvent? ==> Valid(e.time) && Nanos(t) <= Nanos(e.time)
    ensures Ordered(Apply(s, e).queue, if e.ReplyEvent? then t else e.time)
  {
    match e
    case WriteEvent(req, now, connected, bev, sent, ack) =>
      OrderedLater(s.queue, t, now);
      OrderedAppend(s.queue, now, Entry(s.accepted, req, now));
    case ReplyEvent(p) =>
      var j := Find(s.queue, p[SEQNO]);
      if j < |s.queue| {
        OrderedWithout(s.queue, t, j);
      }
    case TimeoutEvent(now) =>
      OrderedLater(s.queue, t, now);
      ExpireRemovesPrefix(s, now);
      OrderedSuffix(s.queue, now, Expired(s.queue, now));
  }

  /** Over every run on a monotonic clock the queue stays in sending order. */
  lemma {:induction false} RunOrdered(s: State, es: seq<Event>, t: Timespec)
    requires forall e :: e in es ==> ValidEvent(e)
    requires Ordered(s.queue, t) && Timely(es, t)
    ensures Ordered(Run(s, es).queue, LastTime(es, t))
    decreases |es|
  {
    if es == [] {
    } else {
      ApplyOrdered(s, es[0], t);
      RunOrdered(Apply(s, es[0]), es[1..], if es[0].ReplyEvent? then t else es[0].time);
    }
  }

  /** So after the timeout callback at the end of any run nothing older than 3000 ms is waiting. */
  lemma NothingOldAfterRun(es: seq<Event>, t: Timespec, now: Timespec, i: nat)
    requires forall e :: e in es ==> ValidEvent(e)
    requires Valid(t) && Timely(es, t) && Valid(now) && Nanos(LastTime(es, t)) <= Nanos(now)
    requires i < |Expire(Run(INITIAL, es), now).queue|
    ensures !Old(now, Expire(Run(INITIAL, es), now).queue[i])
  {
    var s := Run(INITIAL, es);
    RunOrdered(INITIAL, es, t);
    OrderedLater(s.queue, LastTime(es, t), now);
    NoOldEntryRemains(s, now, i);
  }

  // ----- sequence numbers -----

  /** The n-th number that l0006_netcom_getseqno gives out. */
  function Seqno(n: nat): byte {
    if n == 0 then 0 else Seqno(n - 1) + 1
  }

  /** Sequence numbers count modulo 256. */
  lemma {:induction false} SeqnoIsModular(n: nat)
    ensures Seqno(n) as nat == n % 256
  {
    if n == 0 {
    } else {
      SeqnoIsModular(n - 1);
      NextByte(Seqno(n - 1));
      NextResidue(n - 1);
    }
  }

  lemma NextResidue(n: nat)
    ensures (n + 1) % 256 == if n % 256 == 255 then 0 else n % 256 + 1
  {
  }

  /** Of the n sequence numbers given out so far, a request carries the one with the given index. */
  predicate Carries(req: Request, index: nat, n: nat) {
    index < n && req.seqno == Seqno(index)
  }

  /** Each waiting request carries the number its write took. */
  predicate Numbered(q: seq<Entry>, index: nat -> nat, n: nat) {
    forall i :: 0 <= i < |q| ==> Carries(q[i].req, index(q[i].id), n)
  }

  /** No two waiting requests took the same number. */
  predicate DistinctIndices(q: seq<Entry>, index: nat -> nat) {
    forall i, j :: 0 <= i < j < |q| ==> index(q[i].id) != index(q[j].id)
  }

  /** At most 256 numbers have been given out since any waiting request took its own, that one included. */
  predicate Recent(q: seq<Entry>, index: nat -> nat, n: nat) {
    forall i :: 0 <= i < |q| ==> n <= index(q[i].id) + 256
  }

  lemma SeqnosDistinct(q: seq<Entry>, index: nat -> nat, n: nat, i: nat, j: nat)
    requires Numbered(q, index, n) && DistinctIndices(q, index) && Recent(q, index, n)
    requires i < j < |q|
    ensures q[i].req.seqno != q[j].req.seqno
  {
    assert Carries(q[i].req, index(q[i].id), n) && Carries(q[j].req, index(q[j].id), n);
    NumbersDiffer(index(q[i].id), index(q[j].id));
  }

  lemma NumbersDiffer(a: nat, b: nat)
    requires a != b && a < b + 256 && b < a + 256
    ensures Seqno(a) != Seqno(b)
  {
    SeqnoIsModular(a);
    SeqnoIsModular(b);
    assert a % 256 != b % 256;
  }

  /** An acknowledgement completes the j-th waiting command if and only if no command sent earlier and still
      waiting has the same number modulo 256. */
  lemma ReachesItsCommandIff(q: seq<Entry>, j: nat)
    requires j < |q|
    ensures Find(q, q[j].req.seqno) == j <==> forall i :: 0 <= i < j ==> q[i].req.seqno != q[j].req.seqno
  {
  }

  /** Within a window of 256 numbers it always reaches the command that took it, across wrap-around. */
  lemma AckReachesIssuer(s: State, index: nat -> nat, n: nat, j: nat, p: seq<byte>)
    requires Numbered(s.queue, index, n) && DistinctIndices(s.queue, index) && Recent(s.queue, index, n)
    requires j < |s.queue| && ReplyPacket(p) && p[SEQNO] == s.queue[j].req.seqno
    ensures var e := s.queue[j];
            Acknowledge(s, p) == Complete(s, j, OnReply(e.req.action, e.req.cmd, p))
  {
    forall i | 0 <= i < j ensures s.queue[i].req.seqno != s.queue[j].req.seqno {
      SeqnosDistinct(s.queue, index, n, i, j);
    }
    ReachesItsCommandIff(s.queue, j);
  }

  /** An acknowledgement of the very command, other than of SAVECONF by the extended callback, completes it successfully
      and takes it out of the queue. */
  lemma OwnAckSucceeds(s: State, j: nat, p: seq<byte>)
    requires ReplyPacket(p) && j < |s.queue| && p[3] == s.queue[j].req.seqno
    requires forall i :: 0 <= i < j ==> s.queue[i].req.seqno != s.queue[j].req.seqno
    requires p[2] as int == AckCommand(s.queue[j].req.cmd) && !(s.queue[j].req.action.Extended? && p[2] == 0x88)
    ensures var t := Acknowledge(s, p);
            && t.queue == s.queue[..j] + s.queue[j + 1..] && t.accepted == s.accepted
            && t.done == s.done + [Done(s.queue[j].id, Completion(Success, true, 0))]
  {
    ReachesItsCommandIff(s.queue, j);
  }

  /** The queue holds writes in the order of their acceptance. */
  predicate Increasing(s: State) {
    && (forall i, j :: 0 <= i < j < |s.queue| ==> s.queue[i].id < s.queue[j].id)
    && (forall i :: 0 <= i < |s.queue| ==> s.queue[i].id < s.accepted)
  }

  predicate Accepts(s: State, e: Event)
    requires ValidEvent(e)
  {
    e.WriteEvent? && Apply(s, e).accepted > s.accepted
  }

  /** Every write that is accepted carries one of the first n numbers. */
  predicate Drawn(s: State, es: seq<Event>, index: nat -> nat, n: nat)
    requires forall e :: e in es ==> ValidEvent(e)
    decreases |es|
  {
    es == [] ||
      (&& (Accepts(s, es[0]) ==> Carries(es[0].req, index(s.accepted), n))
       && Drawn(Apply(s, es[0]), es[1..], index, n))
  }

  lemma WithoutNumbered(s: State, j: nat, c: Completion, index: nat -> nat, n: nat)
    requires Increasing(s) && Numbered(s.queue, index, n) && j < |s.queue|
    ensures Increasing(Complete(s, j, c)) && Numbered(Complete(s, j, c).queue, index, n)
  {
  }

  lemma {:induction false} CompleteWhileNumbered(s: State, p: Entry -> bool, index: nat -> nat, n: nat)
    requires Increasing(s) && Numbered(s.queue, index, n)
    ensures Increasing(CompleteWhile(s, p)) && Numbered(CompleteWhile(s, p).queue, index, n)
    decreases |s.queue|
  {
    if s.queue != [] && p(s.queue[0]) {
      WithoutNumbered(s, 0, OnTimeout(), index, n);
      CompleteWhileNumbered(Complete(s, 0, OnTimeout()), p, index, n);
    }
  }

  lemma AppendNumbered(s: State, e: Entry, index: nat -> nat, n: nat)
    requires Increasing(s) && Numbered(s.queue, index, n)
    requires e.id == s.accepted && Carries(e.req, index(e.id), n)
    ensures var t := State(s.queue + [e], s.accepted + 1, s.done); Increasing(t) && Numbered(t.queue, index, n)
  {
  }

  lemma ApplyNumbered(s: State, e: Event, index: nat -> nat, n: nat)
    requires ValidEvent(e) && Increasing(s) && Numbered(s.queue, index, n)
    requires Accepts(s, e) ==> Carries(e.req, index(s.accepted), n)
    ensures Increasing(Apply(s, e)) && Numbered(Apply(s, e).queue, index, n)
  {
    match e
    case WriteEvent(req, now, connected, bev, sent, ack) =>
      if Accepts(s, e) {
        AppendNumbered(s, Entry(s.accepted, req, now), index, n);
      }
    case ReplyEvent(p) =>
      var j := Find(s.queue, p[SEQNO]);
      if j < |s.queue| {
        WithoutNumbered(s, j, OnReply(s.queue[j].req.action, s.queue[j].req.cmd, p), index, n);
      }
    case TimeoutEvent(now) =>
      CompleteWhileNumbered(s, x => TimedOut(now, x), index, n);
  }

  lemma {:induction false} RunNumbered(s: State, es: seq<Event>, index: nat -> nat, n: nat)
    requires forall e :: e in es ==> ValidEvent(e)
    requires Increasing(s) && Numbered(s.queue, index, n) && Drawn(s, es, index, n)
    ensures Increasing(Run(s, es)) && Numbered(Run(s, es).queue, index, n)
    decreases |es|
  {
    if es == [] {
    } else {
      ApplyNumbered(s, es[0], index, n);
      RunNumbered(Apply(s, es[0]), es[1..], index, n);
    }
  }

  /** Over every run in which each accepted write carries one of the n numbers given out: while no two waiting commands
      took the same one and at most 256 were given out since the oldest, an acknowledgement completes the command that
      took its number and no other. */
  lemma RunAckReachesIssuer(es: seq<Event>, index: nat -> nat, n: nat, j: nat, p: seq<byte>)
    requires forall e :: e in es ==> ValidEvent(e)
    requires Drawn(INITIAL, es, index, n) && ReplyPacket(p)
    requires var q := Run(INITIAL, es).queue; DistinctIndices(q, index) && Recent(q, index, n)
    requires var q := Run(INITIAL, es).queue; j < |q| && p[SEQNO] == q[j].req.seqno
    ensures var s := Run(INITIAL, es);
            Acknowledge(s, p) == Complete(s, j, OnReply(s.queue[j].req.action, s.queue[j].req.cmd, p))
  {
    RunNumbered(INITIAL, es, index, n);
    AckReachesIssuer(Run(INITIAL, es), index, n, j, p);
  }

  // ----- one run after another -----

  lemma {:induction false} RunConcat(s: State, a: seq<Event>, b: seq<Event>)
    requires forall e :: e in a + b ==> ValidEvent(e)
    ensures (forall e :: e in a ==> ValidEvent(e)) && (forall e :: e in b ==> ValidEvent(e))
    ensures Run(s, a + b) == Run(Run(s, a), b)
    decreases |a|
  {
    AllValid(a, b);
    if a == [] {
      assert a + b == b;
    } else {
      assert (a + b)[1..] == a[1..] + b;
      RunConcat(Apply(s, a[0]), a[1..], b);
    }
  }

  lemma AllValid(a: seq<Event>, b: seq<Event>)
    requires forall e :: e in a + b ==> ValidEvent(e)
    ensures (forall e :: e in a ==> ValidEvent(e)) && (forall e :: e in b ==> ValidEvent(e))
  {
    forall e | e in a ensures ValidEvent(e) {
      assert e in a + b;
    }
    forall e | e in b ensures ValidEvent(e) {
      assert e in a + b;
    }
  }
}
