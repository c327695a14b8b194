/** Runs of the object itself: what every interleaving of its operations does to the bytes of its buffer. */
module NetcomRuns {
  import opened Actions
  import opened Bytes
  import opened Netcmd
  import opened Frames
  import opened FramesOrigin
  import opened FramesTheory
  import opened Receive
  import opened ReceiveRuns
  import opened Netcom
  import Wire
  import Ledger
  import Pending

  // ----- one event -----

  /** The consumer finds k bytes in one piece exactly if as many are unread there. */
  lemma MayConsumeIff(nc: Netcom, k: nat)
    requires nc.InBounds()
    ensures MayConsume(nc.State(), k) <==> k <= (if nc.rd2 <= nc.rd1 then nc.rd1 - nc.rd2 else nc.end1 - nc.rd2)
  {
  }

  method PerformConsume(nc: Netcom, k: nat) returns (got: seq<byte>)
    requires nc.Valid()
    modifies nc`rd2
    ensures nc.Valid() && nc.State() == Consumed(old(nc.State()), k)
    ensures got == if MayConsume(old(nc.State()), k) then old(nc.Unread())[..k] else []
  {
    MayConsumeIff(nc, k);
    if k <= (if nc.rd2 <= nc.rd1 then nc.rd1 - nc.rd2 else nc.end1 - nc.rd2) {
      got := nc.Consume(k);
    } else {
      got := [];
    }
  }

  method PerformWrap(nc: Netcom)
    requires nc.Valid()
    modifies nc`rd2
    ensures nc.Valid() && nc.State() == Managed(old(nc.State()), Wrap)
  {
    if nc.rd1 < nc.rd2 && nc.rd2 == nc.end1 {
      nc.WrapConsumer();
    }
  }

  /** The objects the completion callbacks write to belong to crowd. */
  ghost predicate Within(nc: Netcom, crowd: set<object>)
    reads nc.pool
  {
    nc.pool.clients <= crowd
  }

  ghost predicate OneOf(c: Caller, crowd: set<object>) {
    c in crowd && c.task in crowd
  }

  /** The book of issuers grows by who exactly if a write has been accepted. */
  predicate Entering(before: seq<Caller>, after: seq<Caller>, m: nat, n: nat, who: Caller) {
    after == before + if n > m then [who] else []
  }

  /** Commands: who issues the one that is sent, if one is. */
  method PerformCommand(nc: Netcom, e: Event, who: Caller, ghost crowd: set<object>)
    requires nc.Valid() && (e.Send? || e.Expire?)
    requires Within(nc, crowd) && OneOf(who, crowd)
    modifies nc.pool.Repr(), crowd
    ensures nc.Valid() && Within(nc, crowd) && nc.State() == Managed(old(nc.State()), e)
    ensures Entering(old(nc.pool.book.issuers), nc.pool.book.issuers, old(nc.pool.state.accepted),
            nc.pool.state.accepted, who)
    ensures old(nc.pool.Told()) ==> nc.pool.Told()
  {
    match e
    case Send(req, now, bev, sent, ack) => var _ := nc.Write(req, who, now, bev, sent, ack);
    case Expire(now) => nc.Timeout(now);
  }

  /** The operations on cursors, flags and counter. */
  method PerformControl(nc: Netcom, e: Event)
    requires nc.Valid() && !e.Arrive? && !e.Read? && !e.Consume? && !e.Send? && !e.Expire?
    modifies nc
    ensures nc.Valid() && nc.State() == Managed(old(nc.State()), e) && (old(nc.pool.Told()) ==> nc.pool.Told())
  {
    match e
    case Wrap => PerformWrap(nc);
    case Fault => nc.Condemn();
    case Stop => nc.Stop();
    case Start => nc.Start();
    case Notify(up, down) => nc.EventCallback(up, down);
    case Issue => var _ := nc.GetSeqno();
  }

  /** The operations on the bytes. */
  method PerformBytes(nc: Netcom, input: seq<byte>, e: Event, clock: Clock, ghost crowd: set<object>)
    returns (left: seq<byte>, got: seq<byte>)
    requires nc.Valid() && Within(nc, crowd) && (e.Arrive? || e.Read? || e.Consume?)
    requires e.Read? && nc.end.Waiting? ==> Unharmed(nc.sum, nc.State(), input, clock)
    modifies nc, nc.blob, nc.pool.Repr(), crowd
    ensures nc.Valid() && nc.pool.clients == old(nc.pool.clients)
    ensures System(nc.State(), left) == Advance(nc.sum, System(old(nc.State()), input), e, clock)
    ensures got == Emitted(nc.sum, System(old(nc.State()), input), e, clock).consumed
    ensures nc.pool.book == old(nc.pool.book) && (old(nc.pool.Told()) ==> nc.pool.Told())
  {
    left, got := input, [];
    match e
    case Arrive(bytes) => left := input + bytes;
    case Consume(k) => got := PerformConsume(nc, k);
    case Read =>
      if nc.end.Waiting? {
        left := nc.ReadCallback(input, clock);
      }
  }

  /** One event: the object follows the model, bytes and all; got is what the consumer finds in the buffer. */
  method PerformOne(nc: Netcom, input: seq<byte>, e: Event, clock: Clock, who: Caller, ghost crowd: set<object>)
    returns (left: seq<byte>, got: seq<byte>)
    requires nc.Valid() && Within(nc, crowd) && OneOf(who, crowd)
    requires e.Read? && nc.end.Waiting? ==> Unharmed(nc.sum, nc.State(), input, clock)
    modifies nc, nc.blob, nc.pool.Repr(), crowd
    ensures nc.Valid() && Within(nc, crowd)
    ensures System(nc.State(), left) == Advance(nc.sum, System(old(nc.State()), input), e, clock)
    ensures got == Emitted(nc.sum, System(old(nc.State()), input), e, clock).consumed
    ensures Entering(old(nc.pool.book.issuers), nc.pool.book.issuers, old(nc.pool.state.accepted),
            nc.pool.state.accepted, who)
    ensures old(nc.pool.Told()) ==> nc.pool.Told()
  {
    left, got := input, [];
    if e.Arrive? || e.Read? || e.Consume? {
      left, got := PerformBytes(nc, input, e, clock, crowd);
    } else if nc.end.Waiting? && (e.Send? || e.Expire?) {
      PerformCommand(nc, e, who, crowd);
    } else if nc.end.Waiting? || e.Wrap? || e.Fault? {
      PerformControl(nc, e);
    }
  }

  // ----- a run -----

  /** Who issues the command of each event, if it sends one. */
  ghost predicate Issuers(who: seq<Caller>, es: seq<Event>, crowd: set<object>) {
    |who| == |es| && forall i :: 0 <= i < |who| ==> OneOf(who[i], crowd)
  }

  /** The issuers of the writes a run accepts, in order. */
  function Accepted(sum: Checksum, y: System, es: seq<Event>, clock: Clock, who: seq<Caller>): seq<Caller>
    requires y.s.cap > 0 && |who| == |es|
    decreases |es|
  {
    if es == [] then []
    else
      var z := Advance(sum, y, es[0], clock);
      (if z.s.pending.accepted > y.s.pending.accepted then [who[0]] else [])
        + Accepted(sum, z, es[1..], clock, who[1..])
  }

  /** A sheltered run: at its end the object is where the model's run ends, the unread bytes of its buffer included, and
      the consumer has found in the buffer the bytes the model says. */
  method Perform(nc: Netcom, input: seq<byte>, es: seq<Event>, clock: Clock, who: seq<Caller>, ghost crowd: set<object>)
    returns (left: seq<byte>, got: seq<byte>)
    requires Within(nc, crowd) && Issuers(who, es, crowd)
    requires nc.Valid() && Sheltered(nc.sum, System(nc.State(), input), es, clock)
    modifies nc, nc.blob, nc.pool.Repr(), crowd
    ensures nc.Valid() && Within(nc, crowd)
    ensures System(nc.State(), left) == Run(nc.sum, System(old(nc.State()), input), es, clock)
    ensures got == RunTrace(nc.sum, System(old(nc.State()), input), es, clock).consumed
    ensures nc.pool.book.issuers
         == old(nc.pool.book.issuers) + Accepted(nc.sum, System(old(nc.State()), input), es, clock, who)
    ensures old(nc.pool.Told()) ==> nc.pool.Told()
    decreases |es|
  {
    ghost var cs, y := nc.pool.book.issuers, System(nc.State(), input);
    if es == [] {
      assert cs + [] == cs;
      return input, [];
    }
    var rest, first, more;
    rest, first := PerformOne(nc, input, es[0], clock, who[0], crowd);
    left, more := Perform(nc, rest, es[1..], clock, who[1..], crowd);
    got := first + more;
    Regroup(cs, if Advance(nc.sum, y, es[0], clock).s.pending.accepted > y.s.pending.accepted then [who[0]] else [],
            Accepted(nc.sum, Advance(nc.sum, y, es[0], clock), es[1..], clock, who[1..]));
  }

  lemma Regroup<T>(a: seq<T>, b: seq<T>, c: seq<T>)
    ensures a + b + c == a + (b + c)
  {
  }

  /** The outcomes: at the end of such a run, begun with every issuer told what it was to be told, each issuer holds the
      code of the last of its commands to complete, so its own if it issued one; and a completion that wakes has set the
      latch of its issuer's task.  An object fresh from its constructor has nobody to tell. */
  method PerformOutcomes(nc: Netcom, input: seq<byte>, es: seq<Event>, clock: Clock, who: seq<Caller>,
                         ghost crowd: set<object>)
    returns (left: seq<byte>, got: seq<byte>)
    requires Within(nc, crowd) && Issuers(who, es, crowd)
    requires nc.Valid() && Sheltered(nc.sum, System(nc.State(), input), es, clock)
    requires nc.pool.Told()
    modifies nc, nc.blob, nc.pool.Repr(), crowd
    ensures nc.Valid() && System(nc.State(), left) == Run(nc.sum, System(old(nc.State()), input), es, clock)
    ensures nc.pool.book.issuers
         == old(nc.pool.book.issuers) + Accepted(nc.sum, System(old(nc.State()), input), es, clock, who)
    ensures Ledger.Outcomes(nc.pool.book.issuers, nc.pool.state.done)
  {
    left, got := Perform(nc, input, es, clock, who, crowd);
    nc.pool.OutcomesTold();
  }

  // ----- a command and its acknowledgement -----

  /** Everything that has arrived is parsed, and the next callback reads n bytes. */
  predicate Reads(z: System, n: nat)
    requires z.s.cap > 0
  {
    && z.input == [] && z.s.tail == [] && z.s.end.Waiting?
    && MakeRoom(z.s).Ready?
    && var m := MakeRoom(z.s).s; ReadSize(m.wr, m.rd2, m.cap, n) == n
  }

  lemma AnswerOne(q: Pending.State, p: seq<byte>)
    requires ReplyPacket(p)
    ensures Answers(q, [p]) == Pending.Acknowledge(q, p)
  {
    assert [p][1..] == [];
  }

  /** An acknowledgement of eight bytes that arrives and is read goes to the pending commands. */
  lemma AckIsRead(z: System, ack: byte, seqno: byte, func0: byte, func1: byte, clock: Clock)
    requires z.s.cap > 0 && Reads(z, 8) && 0x80 <= ack <= 0x87
    ensures var p := Header(CRC16, ack, seqno, func0, func1);
            && ReplyPacket(p) && p[2] == ack && p[3] == seqno
            && Run(CRC16, z, [Arrive(p), Read], clock).s.pending == Pending.Acknowledge(z.s.pending, p)
  {
    var p := Header(CRC16, ack, seqno, func0, func1);
    var m := MakeRoom(z.s).s;
    AckPacket(ack, seqno, func0, func1);
    Wire.CommandParsed(ack, seqno, func0, func1, m.on, Less(m.cap, m.rd1), clock, m.tick);
    ReadOne(CRC16, z, p, clock);
  }

  lemma AckPacket(ack: byte, seqno: byte, func0: byte, func1: byte)
    requires 0x80 <= ack <= 0x87
    ensures var p := Header(CRC16, ack, seqno, func0, func1);
            |p| == 8 && ReplyPacket(p) && p[2] == ack && p[3] == seqno
  {
    Wire.BuiltAccepted(ack, seqno, func0, func1, []);
    assert Header(CRC16, ack, seqno, func0, func1) + [] == Header(CRC16, ack, seqno, func0, func1);
  }

  lemma ReadOne(sum: Checksum, z: System, p: seq<byte>, clock: Clock)
    requires z.s.cap > 0 && |p| == 8 && Reads(z, 8) && ReplyPacket(p)
    requires var m := MakeRoom(z.s).s;
             Parse(sum, p, m.on, Less(m.cap, m.rd1), clock, m.tick) == Parsed([], [p], [], Waiting, m.tick, 0)
    ensures Run(sum, z, [Arrive(p), Read], clock).s.pending == Pending.Acknowledge(z.s.pending, p)
  {
    var a := Advance(sum, z, Arrive(p), clock);
    assert [] + p == p;
    var m := MakeRoom(z.s).s;
    CallbackOne(sum, z.s, m, p, Parsed([], [p], [], Waiting, m.tick, 0), clock);
    assert [Arrive(p), Read][1..] == [Read] && [Read][1..] == [];
    assert Run(sum, z, [Arrive(p), Read], clock) == Run(sum, a, [Read], clock) == Advance(sum, a, Read, clock);
  }

  lemma RoomKeeps(s: Rx)
    requires s.cap > 0 && MakeRoom(s).Ready?
    ensures var m := MakeRoom(s).s; m.tail == s.tail && m.pending == s.pending && m.cap == s.cap
  {
  }

  lemma ParseTailIs(sum: Checksum, m: Rx, u: seq<byte>, p: seq<byte>, r: Parsed, clock: Clock)
    requires u == p && Parse(sum, p, m.on, Less(m.cap, m.rd1), clock, m.tick) == r
    ensures ParseTail(sum, m, u, clock) == r
  {
  }

  lemma OneReply(m: Rx, p: seq<byte>)
    requires ReplyPacket(p)
    ensures Parsing(m, Parsed([], [p], [], Waiting, m.tick, 0)).pending == Pending.Acknowledge(m.pending, p)
  {
    AnswerOne(m.pending, p);
  }

  lemma CallbackOne(sum: Checksum, s: Rx, m: Rx, p: seq<byte>, r: Parsed, clock: Clock)
    requires s.cap > 0 && s.tail == [] && MakeRoom(s) == Ready(m) && Taken(m, p) == |p| && ReplyPacket(p)
    requires Parse(sum, p, m.on, Less(m.cap, m.rd1), clock, m.tick) == r == Parsed([], [p], [], Waiting, m.tick, 0)
    ensures Callback(sum, s, p, clock).0.pending == Pending.Acknowledge(s.pending, p)
  {
    RoomKeeps(s);
    NoTail(m.tail, p);
    CallbackWith(sum, s, m, p, r, clock);
    OneReply(m, p);
  }

  lemma NoTail(t: seq<byte>, p: seq<byte>)
    requires t == []
    ensures t + p[..|p|] == p
  {
  }

  lemma CallbackWith(sum: Checksum, s: Rx, m: Rx, p: seq<byte>, r: Parsed, clock: Clock)
    requires s.cap > 0 && MakeRoom(s) == Ready(m) && m.cap == s.cap && Taken(m, p) == |p| && m.tail + p[..|p|] == p
    requires Parse(sum, p, m.on, Less(m.cap, m.rd1), clock, m.tick) == r
    ensures Callback(sum, s, p, clock).0 == Parsing(m, r)
  {
    ParseTailIs(sum, m, m.tail + p[..|p|], p, r, clock);
  }

  /** The j-th waiting command is the first with this number, and ack is its acknowledgement. */
  predicate Answered(q: seq<Pending.Entry>, j: nat, ack: byte, seqno: byte) {
    && j < |q| && q[j].req.seqno == seqno && (forall i :: 0 <= i < j ==> q[i].req.seqno != seqno)
    && ack as int == AckCommand(q[j].req.cmd) && 0x80 <= ack <= 0x87
  }

  /** On values: that acknowledgement completes the command successfully. */
  lemma AnsweredRun(y: System, es: seq<Event>, clock: Clock, j: nat, ack: byte, seqno: byte, func0: byte, func1: byte)
    requires y.s.cap > 0
    requires var z := Run(CRC16, y, es, clock);
             z.s.cap > 0 && Reads(z, 8) && Answered(z.s.pending.queue, j, ack, seqno)
    ensures var p, z := Header(CRC16, ack, seqno, func0, func1), Run(CRC16, y, es, clock);
            Run(CRC16, y, es + [Arrive(p), Read], clock).s.pending.done
              == z.s.pending.done + [Pending.Done(z.s.pending.queue[j].id, Completion(Success, true, 0))]
  {
    var z, p := Run(CRC16, y, es, clock), Header(CRC16, ack, seqno, func0, func1);
    AckIsRead(z, ack, seqno, func0, func1, clock);
    RunConcat(CRC16, y, es, [Arrive(p), Read], clock);
    Pending.OwnAckSucceeds(z.s.pending, j, p);
  }

  /** An accepted write still waiting, with no earlier one of its number, whose own acknowledgement arrives: it leaves
      its issuer holding 0, and the latch of its task set.  (SAVECONF has a longer one, which is judged by its flag.) */
  method PerformAnswered(nc: Netcom, input: seq<byte>, es: seq<Event>, clock: Clock, who: seq<Caller>,
                         ghost crowd: set<object>, ghost j: nat, ack: byte, seqno: byte, func0: byte, func1: byte)
    returns (left: seq<byte>, got: seq<byte>)
    requires nc.Valid() && nc.sum == CRC16 && nc.pool.Told()
    requires var fs := es + [Arrive(Header(CRC16, ack, seqno, func0, func1)), Read];
             && Within(nc, crowd) && Issuers(who, fs, crowd)
             && Sheltered(CRC16, System(nc.State(), input), fs, clock)
    requires var z := Run(CRC16, System(nc.State(), input), es, clock);
             z.s.cap > 0 && Reads(z, 8) && Answered(z.s.pending.queue, j, ack, seqno)
    modifies nc, nc.blob, nc.pool.Repr(), crowd
    ensures nc.Valid()
    ensures var id := Run(CRC16, System(old(nc.State()), input), es, clock).s.pending.queue[j].id;
            && id < |nc.pool.book.issuers|
            && nc.pool.book.issuers[id].outret == 0 && nc.pool.book.issuers[id].task.wakeupEarly
  {
    AnsweredRun(System(nc.State(), input), es, clock, j, ack, seqno, func0, func1);
    left, got := Perform(nc, input, es + [Arrive(Header(CRC16, ack, seqno, func0, func1)), Read], clock, who, crowd);
    nc.pool.LastCompletion();
  }

  /** Every interleaving of every operation, whatever bytes arrive: as long as the masks are right and no stream header
      among the bytes declares a length from 12 to 15, no byte committed is altered before it is consumed. */
  method PerformAny(nc: Netcom, input: seq<byte>, es: seq<Event>, clock: Clock, who: seq<Caller>,
                    ghost crowd: set<object>)
    returns (left: seq<byte>, got: seq<byte>)
    requires Within(nc, crowd) && Issuers(who, es, crowd)
    requires nc.Valid() && Healthy(nc.State())
    requires MasksRight(nc.sum, System(nc.State(), input), es, clock)
    requires NoShortStreams(nc.sum, nc.Tail() + input + Arrivals(es))
    modifies nc, nc.blob, nc.pool.Repr(), crowd
    ensures nc.Valid() && Within(nc, crowd) && Healthy(nc.State())
    ensures System(nc.State(), left) == Run(nc.sum, System(old(nc.State()), input), es, clock)
    ensures got == RunTrace(nc.sum, System(old(nc.State()), input), es, clock).consumed
  {
    ghost var y := System(nc.State(), input);
    LongStreamsSheltered(nc.sum, y, es, clock);
    RunHealthy(nc.sum, y, es, clock);
    left, got := Perform(nc, input, es, clock, who, crowd);
  }

  /** First in, first out in the buffer: what the consumer has found and what is still unread there is, in order, what
      was unread there before and what has been committed since. */
  method PerformInOrder(nc: Netcom, input: seq<byte>, es: seq<Event>, clock: Clock, who: seq<Caller>,
                        ghost crowd: set<object>)
    returns (left: seq<byte>, got: seq<byte>)
    requires Within(nc, crowd) && Issuers(who, es, crowd)
    requires nc.Valid() && Sheltered(nc.sum, System(nc.State(), input), es, clock)
    requires Smooth(nc.sum, System(nc.State(), input), es, clock)
    modifies nc, nc.blob, nc.pool.Repr(), crowd
    ensures nc.Valid() && Within(nc, crowd)
    ensures got + nc.Unread() == old(nc.Unread()) + RunTrace(nc.sum, System(old(nc.State()), input), es,
            clock).committed
  {
    RunQueue(nc.sum, System(nc.State(), input), es, clock);
    left, got := Perform(nc, input, es, clock, who, crowd);
  }

  /** Delivery: from the start, once a run that refuses nothing has read all of a well-formed input, the consumer has
      found or will find in the buffer exactly the stream packets, in order and with only their time stamps rewritten,
      and the incomplete packet stands unparsed behind them. */
  method PerformDelivery(nc: Netcom, es: seq<Event>, clock: Clock, ghost fs: seq<seq<byte>>, ghost s: seq<byte>,
                         who: seq<Caller>, ghost crowd: set<object>)
    returns (got: seq<byte>)
    requires Within(nc, crowd) && Issuers(who, es, crowd)
    requires nc.Valid() && nc.State() == Fresh(nc.blob.Length, nc.pool.state)
    requires var y := System(nc.State(), []);
             Smooth(nc.sum, y, es, clock) && Run(nc.sum, y, es, clock).input == [] && MasksRight(nc.sum, y, es, clock)
    requires Packets(nc.sum, fs) && Incomplete(nc.sum, s) && Arrivals(es) == Flatten(fs) + s
    modifies nc, nc.blob, nc.pool.Repr(), crowd
    ensures nc.Valid() && Within(nc, crowd)
    ensures got + nc.Unread() == Streams(nc.sum, fs, clock, 0)
    ensures nc.Tail() == s
  {
    ghost var y := System(nc.State(), []);
    FreshSheltered(nc.sum, y, es, fs, s, clock);
    ParsesExactly(nc.sum, y, es, fs, s, clock);
    RunQueue(nc.sum, y, es, clock);
    var left;
    left, got := Perform(nc, [], es, clock, who, crowd);
  }

  lemma FreshSheltered(sum: Checksum, y: System, es: seq<Event>, fs: seq<seq<byte>>, s: seq<byte>, clock: Clock)
    requires MARGIN < y.s.cap < 0x8000_0000 && y == System(Fresh(y.s.cap, y.s.pending), [])
    requires Smooth(sum, y, es, clock) && MasksRight(sum, y, es, clock)
    requires Packets(sum, fs) && Incomplete(sum, s) && Arrivals(es) == Flatten(fs) + s
    ensures Sheltered(sum, y, es, clock)
  {
    ExactlyThePackets(sum, fs, s, clock, 0);
    assert y.s.tail + y.input + Arrivals(es) == Flatten(fs) + s;
    CleanSheltered(sum, y, es, clock);
  }
}
