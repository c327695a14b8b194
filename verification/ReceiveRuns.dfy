/**
 Runs of the whole object on values: bytes arriving, read callbacks, the consumer, start and stop, commands sent and
 timed out, in any order.  What a run does to the buffer itself is proved in module NetcomRuns.
 */
module ReceiveRuns {
  import opened Bytes
  import opened CircBuf
  import opened Elapsed
  import opened Netcmd
  import opened Frames
  import opened FramesOrigin
  import opened FramesTheory
  import opened Receive
  import Pending

  // ----- the system: the object and the bytes waiting in the transport -----

  datatype System = System(s: Rx, input: seq<byte>)

  datatype Event =
    | Arrive(bytes: seq<byte>)   // the transport delivers bytes
    | Read                       // netcom_readcb
    | Consume(k: nat)            // the consumer moves rd2_off on by k bytes
    | Wrap                       // the consumer, at rd1_end, goes back to the start
    | Fault                      // someone sets the error flag
    | Stop                       // l0006_netcom_stop
    | Start                      // l0006_netcom_start
    | Notify(up: bool, down: bool)   // netcom_eventcb; down is an error or the end of the stream
    | Issue                      // l0006_netcom_getseqno
    | Send(req: Pending.Request, now: Timespec, bev: bool, sent: bool, ack: bool)   // l0006_netcom_write
    | Expire(now: Timespec)      // netcom_timeoutcb

  /** A callback that never returns holds the lock all other operations but the consumer's need. */
  predicate Happens(s: Rx, e: Event) {
    s.end.Waiting? || e.Arrive? || e.Consume? || e.Wrap? || e.Fault?
  }

  /** The bytes the consumer finds in one piece. */
  function Piece(s: Rx): int {
    if s.rd2 <= s.rd1 then s.rd1 - s.rd2 else s.end1 - s.rd2
  }

  predicate MayConsume(s: Rx, k: nat) {
    k <= Piece(s) && k <= |s.unread|
  }

  predicate MayWrap(s: Rx) {
    s.rd1 < s.rd2 && s.rd2 == s.end1
  }

  function Consumed(s: Rx, k: nat): Rx {
    if MayConsume(s, k) then s.(rd2 := s.rd2 + k, unread := s.unread[k..]) else s
  }

  /** The operations that leave buffer and transport alone. */
  function Managed(s: Rx, e: Event): Rx {
    match e
    case Wrap => if MayWrap(s) then s.(rd2 := 0) else s
    case Fault => s.(error := true)
    case Stop => s.(on := false, rd2 := s.rd1, unread := [])
    case Start => s.(on := true)
    case Notify(up, down) => s.(connected := up || (s.connected && !down))
    case Issue => s.(issued := s.issued + 1)
    case Send(req, now, bev, sent, ack) =>
      s.(pending := Pending.Write(s.pending, req, now, s.connected, bev, sent, ack).0)
    case Expire(now) => s.(pending := Pending.Expire(s.pending, now))
    case _ => s
  }

  function Advance(sum: Checksum, y: System, e: Event, clock: Clock): (z: System)
    requires y.s.cap > 0
    ensures z.s.cap == y.s.cap
  {
    if !Happens(y.s, e) then y
    else
      match e
      case Arrive(bytes) => System(y.s, y.input + bytes)
      case Read => var (t, rest) := Callback(sum, y.s, y.input, clock); System(t, rest)
      case Consume(k) => System(Consumed(y.s, k), y.input)
      case _ => System(Managed(y.s, e), y.input)
  }

  function Run(sum: Checksum, y: System, es: seq<Event>, clock: Clock): System
    requires y.s.cap > 0
    decreases |es|
  {
    if es == [] then y else Run(sum, Advance(sum, y, es[0], clock), es[1..], clock)
  }

  lemma {:induction false} RunConcat(sum: Checksum, y: System, a: seq<Event>, b: seq<Event>, clock: Clock)
    requires y.s.cap > 0
    ensures Run(sum, y, a, clock).s.cap == y.s.cap
    ensures Run(sum, y, a + b, clock) == Run(sum, Run(sum, y, a, clock), b, clock)
    decreases |a|
  {
    if a == [] {
      assert a + b == b;
    } else {
      assert (a + b)[1..] == a[1..] + b;
      RunConcat(sum, Advance(sum, y, a[0], clock), a[1..], b, clock);
    }
  }

  // ----- ring safety over every run -----

  /** What every step keeps.  The tail is short while callbacks return, and the writer went back to the start only
      from near the end of the buffer. */
  predicate Healthy(s: Rx) {
    && Intact(s)
    && (s.end.Waiting? ==> |s.tail| < STREAM_MAX_SIZE)
    && (Wrapped(s) ==> s.end1 > s.cap - MARGIN - STREAM_MAX_SIZE)
  }

  lemma MakeRoomHealthy(s: Rx)
    requires Healthy(s) && s.end.Waiting? && Sound(s)
    ensures Healthy(MakeRoom(s).s) && MakeRoom(s).s.end.Waiting?
  {
  }

  lemma CallbackHealthy(sum: Checksum, s: Rx, input: seq<byte>, clock: Clock)
    requires Healthy(s) && s.end.Waiting? && Sound(s) && Fits(s, input)
    ensures Healthy(Callback(sum, s, input, clock).0)
  {
    CallbackIntact(sum, s, input, clock);
    MakeRoomHealthy(s);
    var m := MakeRoom(s);
    if m.Ready? {
      var u := m.s.tail + input[..Taken(m.s, input)];
      RestIsShort(sum, u, m.s.on, Less(m.s.cap, m.s.rd1), clock, m.s.tick);
      ParsingHighEnd(m.s, Taken(m.s, input), ParseTail(sum, m.s, u, clock));
    }
  }

  lemma ParsingHighEnd(s: Rx, n: nat, r: Parsed)
    requires Healthy(s)
    ensures Wrapped(Parsing(s, r)) ==> s.end1 > s.cap - MARGIN - STREAM_MAX_SIZE
  {
  }

  lemma ManagedHealthy(s: Rx, e: Event)
    requires Healthy(s)
    ensures Healthy(Managed(s, e))
  {
  }

  lemma AdvanceHealthy(sum: Checksum, y: System, e: Event, clock: Clock)
    requires Healthy(y.s)
    requires e.Read? && y.s.end.Waiting? ==> Sound(y.s) && Fits(y.s, y.input)
    ensures Healthy(Advance(sum, y, e, clock).s)
  {
    if e.Read? && y.s.end.Waiting? {
      CallbackHealthy(sum, y.s, y.input, clock);
    } else {
      ManagedHealthy(y.s, e);
    }
  }

  /** Along the run no callback reads or stamps over a byte the consumer has yet to read. */
  predicate Sheltered(sum: Checksum, y: System, es: seq<Event>, clock: Clock)
    requires y.s.cap > 0
    decreases |es|
  {
    es == [] ||
      (&& (es[0].Read? && y.s.end.Waiting? ==> Unharmed(sum, y.s, y.input, clock))
       && Sheltered(sum, Advance(sum, y, es[0], clock), es[1..], clock))
  }

  /** Such a run keeps the ring invariant. */
  lemma {:induction false} RunHealthy(sum: Checksum, y: System, es: seq<Event>, clock: Clock)
    requires Healthy(y.s) && Sheltered(sum, y, es, clock)
    ensures Healthy(Run(sum, y, es, clock).s)
    decreases |es|
  {
    if es == [] {
    } else {
      AdvanceHealthy(sum, y, es[0], clock);
      RunHealthy(sum, Advance(sum, y, es[0], clock), es[1..], clock);
    }
  }

  // ----- which runs are sheltered -----

  /** The callback never reads while the consumer is just ahead of the writer. */
  predicate NeverJustAhead(sum: Checksum, y: System, es: seq<Event>, clock: Clock)
    requires y.s.cap > 0
    decreases |es|
  {
    es == [] ||
      (&& (es[0].Read? && MakeRoom(y.s).Ready? ==> !JustAhead(MakeRoom(y.s).s))
       && NeverJustAhead(sum, Advance(sum, y, es[0], clock), es[1..], clock))
  }

  /** The masks are right: the capacity is a power of two, or it is the shipped one and no callback reads where the
      mask is wrong. */
  predicate MasksRight(sum: Checksum, y: System, es: seq<Event>, clock: Clock)
    requires y.s.cap > 0
  {
    PowerOfTwo(y.s.cap) || (y.s.cap == SHIPPED && NeverJustAhead(sum, y, es, clock))
  }

  lemma ReadFits(sum: Checksum, y: System, es: seq<Event>, clock: Clock)
    requires Healthy(y.s) && MasksRight(sum, y, es, clock)
    requires es != [] && es[0].Read? && y.s.end.Waiting?
    ensures Sound(y.s) && Fits(y.s, y.input)
  {
    if PowerOfTwo(y.s.cap) {
      PowerOfTwoFits(y.s, y.input);
    } else {
      ShippedSound(y.s);
      ShippedFitsIff(y.s);
    }
  }

  /** A stamp that stays within what is committed is clear of the consumer. */
  lemma CommittedIsClear(m: Rx, input: seq<byte>, n: nat, r: Parsed)
    requires Intact(m) && n <= Gap(m.wr, m.rd2, m.cap)
    requires |r.committed| <= |m.tail| + n && r.reach <= |r.committed|
    ensures StampsClear(m, r)
  {
  }

  lemma UnharmedIf(sum: Checksum, s: Rx, input: seq<byte>, clock: Clock)
    requires s.cap > 0 && Sound(s) && Fits(s, input)
    requires MakeRoom(s).Ready? ==>
      var m := MakeRoom(s).s; var r := ParseTail(sum, m, m.tail + input[..Taken(m, input)], clock);
      r.reach <= |r.committed|
    ensures Unharmed(sum, s, input, clock)
  {
    if MakeRoom(s).Ready? {
      var m := MakeRoom(s).s;
      var n := Taken(m, input);
      ParseConserves(sum, m.tail + input[..n], m.on, Less(m.cap, m.rd1), clock, m.tick);
      CommittedIsClear(m, input, n, ParseTail(sum, m, m.tail + input[..n], clock));
    }
  }

  /** Parsing n more bytes of input in which no stream header declares a length shorter than its time stamp; v is
      everything after that input. */
  lemma ParseLongStreams(sum: Checksum, m: Rx, input: seq<byte>, n: nat, v: seq<byte>, clock: Clock)
    requires n <= |input| && NoShortStreams(sum, m.tail + input + v)
    ensures var r := ParseTail(sum, m, m.tail + input[..n], clock);
            r.reach <= |r.committed| && NoShortStreams(sum, r.rest + input[n..] + v)
  {
    var w, u, i := m.tail + input + v, m.tail + input[..n], input[n..];
    CutInput(m.tail, input, n, v);
    NoShortSlice(sum, w, 0, |u|);
    NoShortIsLong(sum, u, m.on, Less(m.cap, m.rd1), clock, m.tick);
    RestIsSuffix(sum, u, m.on, Less(m.cap, m.rd1), clock, m.tick);
    var r := ParseTail(sum, m, u, clock);
    var k := |u| - |r.rest|;
    RestOfWhole(w, u, r.rest, i, v, k);
    NoShortSlice(sum, w, k, |w|);
  }

  lemma CutInput<T>(a: seq<T>, input: seq<T>, n: nat, v: seq<T>)
    requires n <= |input|
    ensures a + input + v == (a + input[..n]) + input[n..] + v == (a + input[..n]) + (input[n..] + v)
    ensures (a + input + v)[0..|a + input[..n]|] == a + input[..n]
  {
    assert input == input[..n] + input[n..];
  }

  lemma RestOfWhole<T>(w: seq<T>, u: seq<T>, rest: seq<T>, i: seq<T>, v: seq<T>, k: nat)
    requires w == u + i + v && k + |rest| == |u| && EndOf(rest, u)
    ensures rest + i + v == w[k..|w|] == rest + (i + v)
  {
  }

  lemma EndLongStreams(sum: Checksum, w: seq<byte>, v: seq<byte>)
    requires NoShortStreams(sum, w + v)
    ensures NoShortStreams(sum, v)
  {
    assert v == (w + v)[|w|..|w + v|];
    NoShortSlice(sum, w + v, |w|, |w + v|);
  }

  /** What the callback makes of the tail and the input. */
  lemma CallbackBytes(sum: Checksum, s: Rx, input: seq<byte>, clock: Clock)
    requires s.cap > 0
    ensures var m, c := MakeRoom(s), Callback(sum, s, input, clock);
            if m.Ready? then m.s.tail == s.tail && c.1 == input[Taken(m.s, input)..]
                             && c.0.tail == ParseTail(sum, m.s, m.s.tail + input[..Taken(m.s, input)], clock).rest
            else c.0.tail == [] && c.1 == []
  {
  }

  /** One callback on such bytes. */
  lemma ReadLongStreams(sum: Checksum, y: System, v: seq<byte>, clock: Clock)
    requires y.s.cap > 0 && y.s.end.Waiting? && Sound(y.s) && Fits(y.s, y.input)
    requires NoShortStreams(sum, y.s.tail + y.input + v)
    ensures Unharmed(sum, y.s, y.input, clock)
    ensures var z := Advance(sum, y, Read, clock); NoShortStreams(sum, z.s.tail + z.input + v)
  {
    CallbackBytes(sum, y.s, y.input, clock);
    if MakeRoom(y.s).Ready? {
      ParseLongStreams(sum, MakeRoom(y.s).s, y.input, Taken(MakeRoom(y.s).s, y.input), v, clock);
    } else {
      assert [] + [] + v == v;
      EndLongStreams(sum, y.s.tail + y.input, v);
    }
    UnharmedIf(sum, y.s, y.input, clock);
  }

  lemma OtherKeepsBytes(sum: Checksum, y: System, e: Event, v: seq<byte>, clock: Clock)
    requires y.s.cap > 0 && !(e.Read? && y.s.end.Waiting?)
    ensures var z := Advance(sum, y, e, clock);
            z.s.tail + z.input + v == y.s.tail + y.input + ((if e.Arrive? then e.bytes else []) + v)
  {
    assert [] + v == v;
    if e.Arrive? {
      assert y.s.tail + (y.input + e.bytes) + v == y.s.tail + y.input + (e.bytes + v);
    }
  }

  /** Whatever bytes arrive, garbage included: if no stream header among them declares a length from 12 to 15 and the
      masks are right, every interleaving leaves the unread bytes alone. */
  lemma {:induction false} LongStreamsSheltered(sum: Checksum, y: System, es: seq<Event>, clock: Clock)
    requires Healthy(y.s) && MasksRight(sum, y, es, clock)
    requires NoShortStreams(sum, y.s.tail + y.input + Arrivals(es))
    ensures Sheltered(sum, y, es, clock)
    decreases |es|
  {
    if es == [] {
    } else {
      var e, v := es[0], Arrivals(es[1..]);
      if e.Read? && y.s.end.Waiting? {
        ReadFits(sum, y, es, clock);
        assert [] + v == v;
        ReadLongStreams(sum, y, v, clock);
      } else {
        OtherKeepsBytes(sum, y, e, v, clock);
      }
      AdvanceHealthy(sum, y, e, clock);
      LongStreamsSheltered(sum, Advance(sum, y, e, clock), es[1..], clock);
    }
  }

  /** A consumer that keeps the backlog this far below the capacity never causes input to be dropped. */
  lemma ShortBacklogNeverDrops(s: Rx)
    requires Healthy(s) && PowerOfTwo(s.cap) && s.end.Waiting? && !s.error
    requires |s.unread| + MARGIN + 2 * STREAM_MAX_SIZE <= s.cap
    ensures MakeRoom(s).Ready?
  {
    IntactInRange(s);
    SpaceIsFree(s.wr, s.rd2, s.cap);
  }

  // ----- what a run puts out -----

  datatype Trace = Trace(committed: seq<byte>, replies: seq<seq<byte>>, consumed: seq<byte>)

  const NOTHING: Trace := Trace([], [], [])

  function Then(a: Trace, b: Trace): Trace {
    Trace(a.committed + b.committed, a.replies + b.replies, a.consumed + b.consumed)
  }

  function ReadOut(sum: Checksum, y: System, clock: Clock): Trace
    requires y.s.cap > 0
  {
    var m := MakeRoom(y.s);
    if m.Ready? then
      var r := ParseTail(sum, m.s, m.s.tail + y.input[..Taken(m.s, y.input)], clock);
      Trace(r.committed, r.replies, [])
    else NOTHING
  }

  function Emitted(sum: Checksum, y: System, e: Event, clock: Clock): Trace
    requires y.s.cap > 0
  {
    if e.Read? && y.s.end.Waiting? then ReadOut(sum, y, clock)
    else if e.Consume? && MayConsume(y.s, e.k) then Trace([], [], y.s.unread[..e.k])
    else NOTHING
  }

  function RunTrace(sum: Checksum, y: System, es: seq<Event>, clock: Clock): Trace
    requires y.s.cap > 0
    decreases |es|
  {
    if es == [] then NOTHING
    else Then(Emitted(sum, y, es[0], clock), RunTrace(sum, Advance(sum, y, es[0], clock), es[1..], clock))
  }

  function Arrivals(es: seq<Event>): seq<byte>
    decreases |es|
  {
    if es == [] then [] else (if es[0].Arrive? then es[0].bytes else []) + Arrivals(es[1..])
  }

  /** No callback refuses its input, and reception stays on. */
  predicate Smooth(sum: Checksum, y: System, es: seq<Event>, clock: Clock)
    requires y.s.cap > 0
    decreases |es|
  {
    es == [] ||
      (&& !es[0].Stop? && !es[0].Start? && !es[0].Fault?
       && (es[0].Read? ==> MakeRoom(y.s).Ready?)
       && Smooth(sum, Advance(sum, y, es[0], clock), es[1..], clock))
  }

  // ----- the queue of unread bytes, as a value -----

  lemma ManagedQueue(s: Rx, e: Event)
    requires !e.Stop?
    ensures Managed(s, e).unread == s.unread
  {
  }

  lemma ReadQueue(sum: Checksum, y: System, clock: Clock)
    requires y.s.cap > 0 && MakeRoom(y.s).Ready?
    ensures Callback(sum, y.s, y.input, clock).0.unread == y.s.unread + ReadOut(sum, y, clock).committed
  {
  }

  lemma AdvanceQueue(sum: Checksum, y: System, e: Event, clock: Clock)
    requires y.s.cap > 0
    requires !e.Stop? && (e.Read? ==> MakeRoom(y.s).Ready?)
    ensures var z, t := Advance(sum, y, e, clock), Emitted(sum, y, e, clock);
            t.consumed + z.s.unread == y.s.unread + t.committed
  {
    if e.Read? && y.s.end.Waiting? {
      ReadQueue(sum, y, clock);
    } else {
      ManagedQueue(y.s, e);
    }
  }

  /** A law of the value alone, whatever the capacity: that the bytes of the buffer follow it is what
      NetcomRuns.Perform proves, of sheltered runs. */
  lemma {:induction false} RunQueue(sum: Checksum, y: System, es: seq<Event>, clock: Clock)
    requires y.s.cap > 0 && Smooth(sum, y, es, clock)
    ensures var z, t := Run(sum, y, es, clock), RunTrace(sum, y, es, clock);
            t.consumed + z.s.unread == y.s.unread + t.committed
    decreases |es|
  {
    if es == [] {
    } else {
      var z, t := Advance(sum, y, es[0], clock), Emitted(sum, y, es[0], clock);
      AdvanceQueue(sum, y, es[0], clock);
      RunQueue(sum, z, es[1..], clock);
      var q := RunTrace(sum, z, es[1..], clock);
      QueueJoin(t.consumed, q.consumed, z.s.unread, Run(sum, z, es[1..], clock).s.unread, y.s.unread, t.committed,
                q.committed);
    }
  }

  lemma QueueJoin(c: seq<byte>, d: seq<byte>, m: seq<byte>, n: seq<byte>, u: seq<byte>, v: seq<byte>, w: seq<byte>)
    requires c + m == u + v && d + n == m + w
    ensures c + d + n == u + (v + w)
  {
    assert c + d + n == c + (d + n) == c + m + w;
    assert u + v + w == u + (v + w);
  }

  // ----- chunking independence over runs -----

  lemma LimitBounded(s: Rx, input: seq<byte>)
    requires Cursors(s)
    ensures s.wr + Taken(s, input) <= s.cap
  {
  }

  lemma MakeRoomCursors(s: Rx)
    requires Cursors(s)
    ensures Cursors(MakeRoom(s).s) && (MakeRoom(s).Ready? ==> MakeRoom(s).s.tail == s.tail)
  {
  }

  lemma ParsingCursors(s: Rx, n: nat, r: Parsed)
    requires Cursors(s) && s.wr + n <= s.cap && |r.committed| + |r.rest| <= |s.tail| + n
    ensures Cursors(Parsing(s, r))
  {
  }

  lemma {:induction false} WholeRestIncomplete(sum: Checksum, u: seq<byte>, rx: bool, clock: Clock, tick: nat)
    requires Clean(sum, u)
    ensures Incomplete(sum, Whole(sum, u, rx, clock, tick).rest)
    decreases |u|
  {
    WholeStep(sum, u, rx, clock, tick);
    if !FrontOf(sum, u).Partial? {
      AfterOnClean(sum, u, rx, clock, tick);
      var a := After(sum, u, rx, clock, tick);
      WholeRestIncomplete(sum, a.rest, rx, clock, a.tick);
    }
  }

  predicate Receiving(sum: Checksum, s: Rx) {
    Cursors(s) && s.on && s.end.Waiting? && Incomplete(sum, s.tail)
  }

  /** What a parse puts out and keeps, wherever its time stamps went. */
  function Output(r: Parsed): Parsed {
    r.(reach := 0)
  }

  /** What has come out so far, as a parse that was left with s. */
  function SoFar(t: Trace, s: Rx): Parsed {
    Parsed(t.committed, t.replies, s.tail, Waiting, s.tick, 0)
  }

  lemma OutputJoin(a: Parsed, b: Parsed, c: Parsed)
    requires Output(b) == Output(c)
    ensures Output(Join(a, b)) == Output(Join(a, c))
  {
  }

  lemma OutputSoFar(r: Parsed, t: Trace, s: Rx, q: Parsed)
    requires t.committed == r.committed && t.replies == r.replies
    ensures Output(Join(r, q)) == Output(Join(SoFar(t, s), q))
  {
  }

  /** Parsing n more bytes of well-formed input; v is everything after that input. */
  lemma ParseClean(sum: Checksum, m: Rx, input: seq<byte>, n: nat, v: seq<byte>, clock: Clock)
    requires Cursors(m) && m.on && n <= |input| && m.wr + n <= m.cap && Clean(sum, m.tail + input + v)
    ensures var r := ParseTail(sum, m, m.tail + input[..n], clock);
            && r.end.Waiting? && r.reach <= |r.committed| && Incomplete(sum, r.rest)
            && |r.committed| + |r.rest| <= |m.tail| + n
            && Clean(sum, r.rest + input[n..] + v)
            && Whole(sum, m.tail + input + v, true, clock, m.tick)
               == Join(r, Whole(sum, r.rest + input[n..] + v, true, clock, r.tick))
  {
    var u, w := m.tail + input[..n], input[n..] + v;
    CutInput(m.tail, input, n, v);
    ParseInPieces(sum, u, w, true, clock, m.tick);
    RoomIrrelevant(sum, u, true, Less(m.cap, m.rd1), clock, m.tick);
    WholeRestIncomplete(sum, u, true, clock, m.tick);
    ParseConserves(sum, u, true, Less(m.cap, m.rd1), clock, m.tick);
    var r := ParseTail(sum, m, u, clock);
    Associate(r.rest, input[n..], v);
  }

  lemma Associate<T>(a: seq<T>, b: seq<T>, c: seq<T>)
    ensures a + b + c == a + (b + c)
  {
  }

  /** One callback that accepts its input, on well-formed bytes: v is everything still to come. */
  lemma ReadStep(sum: Checksum, y: System, v: seq<byte>, clock: Clock)
    requires Receiving(sum, y.s) && MakeRoom(y.s).Ready?
    requires Clean(sum, y.s.tail + y.input + v)
    ensures var z, t := Advance(sum, y, Read, clock), Emitted(sum, y, Read, clock);
            && Receiving(sum, z.s) && Clean(sum, z.s.tail + z.input + v)
            && Output(Whole(sum, y.s.tail + y.input + v, true, clock, y.s.tick))
               == Output(Join(SoFar(t, z.s), Whole(sum, z.s.tail + z.input + v, true, clock, z.s.tick)))
    ensures var m := MakeRoom(y.s).s; var r := ParseTail(sum, m, m.tail + y.input[..Taken(m, y.input)], clock);
            r.reach <= |r.committed|
  {
    MakeRoomCursors(y.s);
    var m := MakeRoom(y.s).s;
    var n := Taken(m, y.input);
    LimitBounded(m, y.input);
    ParseClean(sum, m, y.input, n, v, clock);
    var r := ParseTail(sum, m, m.tail + y.input[..n], clock);
    ParsingCursors(m, n, r);
    ReadIs(sum, y, m, n, r, clock);
    OutputSoFar(r, Emitted(sum, y, Read, clock), Advance(sum, y, Read, clock).s,
                Whole(sum, r.rest + y.input[n..] + v, true, clock, r.tick));
  }

  lemma ReadIs(sum: Checksum, y: System, m: Rx, n: nat, r: Parsed, clock: Clock)
    requires y.s.cap > 0 && y.s.end.Waiting? && MakeRoom(y.s) == Ready(m) && n == Taken(m, y.input)
    requires r == ParseTail(sum, m, m.tail + y.input[..n], clock)
    ensures Advance(sum, y, Read, clock) == System(Parsing(m, r), y.input[n..])
    ensures Emitted(sum, y, Read, clock) == Trace(r.committed, r.replies, [])
  {
  }

  lemma OtherStep(sum: Checksum, y: System, e: Event, v: seq<byte>, clock: Clock)
    requires Receiving(sum, y.s) && !e.Read? && !e.Stop? && !e.Start? && !e.Fault?
    ensures var z, t := Advance(sum, y, e, clock), Emitted(sum, y, e, clock);
            && Receiving(sum, z.s) && z.s.tail == y.s.tail && z.s.tick == y.s.tick
            && t.committed == [] && t.replies == []
            && y.s.tail + y.input + ((if e.Arrive? then e.bytes else []) + v) == z.s.tail + z.input + v
  {
    OtherKeepsBytes(sum, y, e, v, clock);
  }

  /** One event, on well-formed bytes; v is everything that arrives after it. */
  lemma OneStep(sum: Checksum, y: System, e: Event, v: seq<byte>, clock: Clock)
    requires Receiving(sum, y.s) && !e.Stop? && !e.Start? && !e.Fault? && (e.Read? ==> MakeRoom(y.s).Ready?)
    requires Clean(sum, y.s.tail + y.input + ((if e.Arrive? then e.bytes else []) + v))
    ensures var z, t := Advance(sum, y, e, clock), Emitted(sum, y, e, clock);
            && Receiving(sum, z.s) && Clean(sum, z.s.tail + z.input + v)
            && Output(Whole(sum, y.s.tail + y.input + ((if e.Arrive? then e.bytes else []) + v), true, clock, y.s.tick))
               == Output(Join(SoFar(t, z.s), Whole(sum, z.s.tail + z.input + v, true, clock, z.s.tick)))
  {
    var z := Advance(sum, y, e, clock);
    if e.Read? {
      assert [] + v == v;
      ReadStep(sum, y, v, clock);
    } else {
      OtherStep(sum, y, e, v, clock);
      JoinEmpty(Whole(sum, z.s.tail + z.input + v, true, clock, z.s.tick), z.s.tail, z.s.tick);
    }
  }

  /** However the bytes are cut into arrivals and callbacks, and whatever else happens in between: what the run commits
      and hands over, followed by the parse of what is left, is the parse of all the bytes in one go. */
  lemma {:induction false} ChunkingIndependence(sum: Checksum, y: System, es: seq<Event>, clock: Clock)
    requires Receiving(sum, y.s) && Smooth(sum, y, es, clock)
    requires Clean(sum, y.s.tail + y.input + Arrivals(es))
    ensures var z, t := Run(sum, y, es, clock), RunTrace(sum, y, es, clock);
            && Receiving(sum, z.s) && Clean(sum, z.s.tail + z.input)
            && Output(Whole(sum, y.s.tail + y.input + Arrivals(es), true, clock, y.s.tick))
               == Output(Join(SoFar(t, z.s), Whole(sum, z.s.tail + z.input, true, clock, z.s.tick)))
    decreases |es|
  {
    if es == [] {
      assert y.s.tail + y.input + [] == y.s.tail + y.input;
      JoinEmpty(Whole(sum, y.s.tail + y.input, true, clock, y.s.tick), y.s.tail, y.s.tick);
    } else {
      var e, v := es[0], Arrivals(es[1..]);
      var z, t := Advance(sum, y, e, clock), Emitted(sum, y, e, clock);
      OneStep(sum, y, e, v, clock);
      ChunkingIndependence(sum, z, es[1..], clock);
      var x, q := Run(sum, z, es[1..], clock), RunTrace(sum, z, es[1..], clock);
      ThenJoin(t, q, z.s, x.s, Whole(sum, z.s.tail + z.input + v, true, clock, z.s.tick),
               Whole(sum, x.s.tail + x.input, true, clock, x.s.tick));
    }
  }

  lemma ThenJoin(t: Trace, q: Trace, z: Rx, x: Rx, mid: Parsed, last: Parsed)
    requires Output(mid) == Output(Join(SoFar(q, x), last))
    ensures Output(Join(SoFar(t, z), mid)) == Output(Join(SoFar(Then(t, q), x), last))
  {
    OutputJoin(SoFar(t, z), mid, Join(SoFar(q, x), last));
    JoinAssociative(SoFar(t, z), SoFar(q, x), last);
  }

  lemma CleanUnharmed(sum: Checksum, y: System, v: seq<byte>, clock: Clock)
    requires Receiving(sum, y.s) && MakeRoom(y.s).Ready? && Sound(y.s) && Fits(y.s, y.input)
    requires Clean(sum, y.s.tail + y.input + ([] + v))
    ensures Unharmed(sum, y.s, y.input, clock)
  {
    assert [] + v == v;
    ReadStep(sum, y, v, clock);
    UnharmedIf(sum, y.s, y.input, clock);
  }

  /** On well-formed bytes a run that refuses no input is sheltered, whatever the bodies of the packets hold. */
  lemma {:induction false} CleanSheltered(sum: Checksum, y: System, es: seq<Event>, clock: Clock)
    requires Healthy(y.s) && MasksRight(sum, y, es, clock)
    requires Receiving(sum, y.s) && Smooth(sum, y, es, clock)
    requires Clean(sum, y.s.tail + y.input + Arrivals(es))
    ensures Sheltered(sum, y, es, clock)
    decreases |es|
  {
    if es == [] {
    } else {
      var e, v := es[0], Arrivals(es[1..]);
      if e.Read? {
        ReadFits(sum, y, es, clock);
        CleanUnharmed(sum, y, v, clock);
      }
      OneStep(sum, y, e, v, clock);
      AdvanceHealthy(sum, y, e, clock);
      CleanSheltered(sum, Advance(sum, y, e, clock), es[1..], clock);
    }
  }

  /** The receiver as allocated, switched on. */
  function Fresh(cap: nat, pending: Pending.State): Rx {
    Rx(cap, 0, 0, 0, 0, [], [], true, false, 0, pending, false, 0, Waiting)
  }

  /** From the start, once all input has been read: exactly the stream packets have been committed, exactly the command
      packets handed over, each in order, and the incomplete packet is kept. */
  lemma ParsesExactly(sum: Checksum, y: System, es: seq<Event>, fs: seq<seq<byte>>, s: seq<byte>, clock: Clock)
    requires MARGIN < y.s.cap < 0x8000_0000 && y == System(Fresh(y.s.cap, y.s.pending), [])
    requires Smooth(sum, y, es, clock) && Run(sum, y, es, clock).input == []
    requires Packets(sum, fs) && Incomplete(sum, s) && Arrivals(es) == Flatten(fs) + s
    ensures var z, t := Run(sum, y, es, clock), RunTrace(sum, y, es, clock);
            && t.committed == Streams(sum, fs, clock, 0)
            && t.replies == Commands(sum, fs)
            && z.s.tail == s
  {
    var z, t := Run(sum, y, es, clock), RunTrace(sum, y, es, clock);
    ExactlyThePackets(sum, fs, s, clock, 0);
    assert y.s.tail + y.input + Arrivals(es) == Flatten(fs) + s;
    ChunkingIndependence(sum, y, es, clock);
    assert z.s.tail + z.input == z.s.tail;
    WholeStep(sum, z.s.tail, true, clock, z.s.tick);
  }
}
