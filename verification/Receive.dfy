/**
 The receive buffer of netcom_readcb in src/l0006-0/netcom.c on values: the cursors into the buffer, the
 committed bytes the consumer has not taken, and the received bytes not yet parsed.  Module Netcom proves that
 the code does exactly this to the bytes of the buffer.
 */
module Receive {
  import opened Bytes
  import opened CircBuf
  import opened Netcmd
  import opened Frames
  import Pending

  /** NETCOM_RDBUFFER_FORCEREWIND_SIZE */
  const MARGIN: nat := 0x2_0000

  datatype Rx = Rx(
    cap: nat,             // size of the buffer
    rd1: nat,             // end of the committed bytes
    rd2: nat,             // where the consumer reads
    wr: nat,              // end of the received bytes
    end1: nat,            // where the committed bytes ended when the writer went back to the start
    unread: seq<byte>,    // committed and not consumed
    tail: seq<byte>,      // received and not parsed
    on: bool,             // the RX flag
    error: bool,          // the error flag
    tick: nat,            // wall-clock readings so far
    pending: Pending.State,
    connected: bool,      // the CONNECTED flag
    issued: nat,          // sequence numbers given out so far
    end: End)             // how the last parse ended

  // ----- the callback -----

  function Reset(s: Rx): Rx {
    s.(wr := 0, rd1 := 0, rd2 := 0, end1 := 0, error := false, unread := [], tail := [])
  }

  function Drop(s: Rx): Rx {
    s.(wr := s.rd1, tail := [])
  }

  /** The unparsed tail moves to the start of the buffer. */
  function Rewound(s: Rx): Rx {
    s.(wr := Less(s.wr, s.rd1), rd1 := 0, end1 := s.rd1)
  }

  /** Reply packets complete pending commands, in the order they arrive. */
  function Answers(q: Pending.State, ps: seq<seq<byte>>): Pending.State
    decreases |ps|
  {
    if ps == [] then q
    else Answers(if ReplyPacket(ps[0]) then Pending.Acknowledge(q, ps[0]) else q, ps[1..])
  }

  function ReplyEvents(ps: seq<seq<byte>>): seq<Pending.Event> {
    seq(|ps|, i requires 0 <= i < |ps| => Pending.ReplyEvent(ps[i]))
  }

  predicate ReplyPackets(ps: seq<seq<byte>>) {
    forall i :: 0 <= i < |ps| ==> ReplyPacket(ps[i])
  }

  /** Handing over replies is a run of the pending-command protocol. */
  lemma {:induction false} AnswersIsRun(q: Pending.State, ps: seq<seq<byte>>)
    requires ReplyPackets(ps)
    ensures forall e :: e in ReplyEvents(ps) ==> Pending.ValidEvent(e)
    ensures Answers(q, ps) == Pending.Run(q, ReplyEvents(ps))
    decreases |ps|
  {
    if ps == [] {
    } else {
      assert ReplyEvents(ps)[1..] == ReplyEvents(ps[1..]);
      AnswersIsRun(Pending.Acknowledge(q, ps[0]), ps[1..]);
    }
  }

  /** Every packet the parse hands over has passed the checks the acknowledgement branch relies on. */
  lemma {:induction false} RepliesAreChecked(sum: Checksum, u: seq<byte>, rx: bool, room: nat, clock: Clock, tick: nat)
    ensures ReplyPackets(Parse(sum, u, rx, room, clock, tick).replies)
    decreases |u|
  {
    var s := Next(sum, u, rx, room);
    var t := Turn(u, s, clock, tick);
    if s.GoesOn() {
      RepliesAreChecked(sum, t.rest, rx, Less(room, |t.committed|), clock, t.tick);
    }
  }

  lemma {:induction false} AnswersConcat(q: Pending.State, a: seq<seq<byte>>, b: seq<seq<byte>>)
    ensures Answers(q, a + b) == Answers(Answers(q, a), b)
    decreases |a|
  {
    if a == [] {
      assert a + b == b;
    } else {
      assert (a + b)[1..] == a[1..] + b;
      AnswersConcat(if ReplyPacket(a[0]) then Pending.Acknowledge(q, a[0]) else q, a[1..], b);
    }
  }

  function ParseTail(sum: Checksum, s: Rx, u: seq<byte>, clock: Clock): Parsed {
    Parse(sum, u, s.on, Less(s.cap, s.rd1), clock, s.tick)
  }

  function Parsing(s: Rx, r: Parsed): Rx {
    s.(rd1 := s.rd1 + |r.committed|, wr := s.rd1 + |r.committed| + |r.rest|,
       unread := s.unread + r.committed, tail := r.rest, tick := r.tick,
       pending := Answers(s.pending, r.replies), end := r.end)
  }

  /** How many of the waiting bytes bufferevent_read delivers. */
  function ReadSize(wr: nat, rd2: nat, cap: nat, waiting: nat): (n: nat)
    requires cap > 0
    ensures n <= waiting
    ensures wr <= cap ==> wr + n <= cap
  {
    var limit := SpaceToEnd(wr, rd2, cap);
    if limit < 0 then 0 else if waiting <= limit then waiting else limit
  }

  function Taken(s: Rx, input: seq<byte>): (n: nat)
    requires s.cap > 0
    ensures n <= |input|
  {
    ReadSize(s.wr, s.rd2, s.cap, |input|)
  }

  /** What the callback does before it reads: give up on the input, or make room for it. */
  datatype Room = Refused(s: Rx) | Ready(s: Rx)

  function MakeRoom(s: Rx): Room
    requires s.cap > 0
  {
    var space := Space(s.wr, s.rd2, s.cap);
    if s.error then Refused(Reset(s))
    else if space == 0 then Refused(Drop(s))
    else if s.wr > s.cap - MARGIN then
      if space > s.wr - s.rd1 + MARGIN then Ready(Rewound(s)) else Refused(Drop(s))
    else Ready(s)
  }

  /** netcom_readcb: the new state and the input left in the transport. */
  function Callback(sum: Checksum, s: Rx, input: seq<byte>, clock: Clock): (Rx, seq<byte>)
    requires s.cap > 0
  {
    var m := MakeRoom(s);
    if m.Refused? then (m.s, [])
    else
      var n := Taken(m.s, input);
      (Parsing(m.s, ParseTail(sum, m.s, m.s.tail + input[..n], clock)), input[n..])
  }

  // ----- the ring invariant -----

  predicate Cursors(s: Rx) {
    && MARGIN < s.cap < 0x8000_0000
    && s.rd1 <= s.wr <= s.cap && s.rd2 <= s.cap && s.end1 <= s.cap
    && |s.tail| == s.wr - s.rd1
  }

  /** The unread bytes are those from the consumer to the end of the committed bytes. */
  predicate Flat(s: Rx) {
    && s.rd2 <= s.rd1 && (s.rd2 > 0 || s.wr < s.cap)
    && |s.unread| == s.rd1 - s.rd2
  }

  /** The writer has gone back to the start and stays below the consumer. */
  predicate Wrapped(s: Rx) {
    && s.wr < s.rd2 <= s.end1
    && |s.unread| == s.end1 - s.rd2 + s.rd1
  }

  predicate Intact(s: Rx) {
    Cursors(s) && (Flat(s) || Wrapped(s))
  }

  /** The bytes read do not reach the consumer. */
  predicate Fits(s: Rx, input: seq<byte>)
    requires s.cap > 0
  {
    var m := MakeRoom(s);
    m.Ready? ==> Taken(m.s, input) <= Gap(m.s.wr, m.s.rd2, m.s.cap)
  }

  /** The rewind test implies that the moved tail ends strictly below the consumer. */
  lemma RewindEndsBelowConsumer(s: Rx)
    requires Intact(s) && s.wr > s.cap - MARGIN
    requires Space(s.wr, s.rd2, s.cap) == Free(s.wr, s.rd2, s.cap)
    requires Space(s.wr, s.rd2, s.cap) > s.wr - s.rd1 + MARGIN
    ensures Flat(s) && s.wr - s.rd1 < s.rd2
    ensures Intact(Rewound(s)) && Wrapped(Rewound(s))
  {
  }

  /** The space the code computes is the space there is. */
  predicate Measured(s: Rx)
    requires s.cap > 0
  {
    s.wr > s.cap - MARGIN ==> Space(s.wr, s.rd2, s.cap) == Free(s.wr, s.rd2, s.cap)
  }

  lemma MakeRoomIntact(s: Rx)
    requires Intact(s) && Measured(s)
    ensures Intact(MakeRoom(s).s)
    ensures MakeRoom(s).Ready? ==> MakeRoom(s).s.wr <= s.cap - MARGIN || Wrapped(MakeRoom(s).s)
  {
    if !s.error && Space(s.wr, s.rd2, s.cap) != 0 && s.wr > s.cap - MARGIN
       && Space(s.wr, s.rd2, s.cap) > s.wr - s.rd1 + MARGIN {
      RewindEndsBelowConsumer(s);
    }
  }

  /** While the writer is wrapped it never goes back a second time: it would have to pass the consumer first. */
  lemma NoSecondRewind(s: Rx)
    requires Intact(s) && Wrapped(s) && Measured(s)
    ensures MakeRoom(s).Ready? ==> MakeRoom(s).s == s
  {
  }

  lemma ParsingIntact(s: Rx, n: nat, r: Parsed)
    requires Intact(s) && n <= Gap(s.wr, s.rd2, s.cap)
    requires |r.committed| + |r.rest| <= |s.tail| + n
    ensures Intact(Parsing(s, r))
  {
  }

  /** The ring invariant holds, and holds when room has been made. */
  predicate Sound(s: Rx)
    requires s.cap > 0
  {
    Intact(s) && Intact(MakeRoom(s).s)
  }

  /** Every callback that fits keeps the ring invariant. */
  lemma CallbackIntact(sum: Checksum, s: Rx, input: seq<byte>, clock: Clock)
    requires s.cap > 0 && Sound(s) && Fits(s, input)
    ensures Intact(Callback(sum, s, input, clock).0)
  {
    var m := MakeRoom(s);
    if m.Ready? {
      var n := Taken(m.s, input);
      ParseConserves(sum, m.s.tail + input[..n], m.s.on, Less(m.s.cap, m.s.rd1), clock, m.s.tick);
      ParsingIntact(m.s, n, ParseTail(sum, m.s, m.s.tail + input[..n], clock));
    }
  }

  /** The time stamps written while parsing end at or below the consumer, or it has nothing left up there. */
  predicate StampsClear(m: Rx, r: Parsed) {
    Wrapped(m) ==> m.rd1 + r.reach <= m.rd2 || m.rd2 == m.end1
  }

  /** Where what is read and stamped from state m on ends, r being the parse of it. */
  function Touched(m: Rx, n: nat, r: Parsed): nat {
    Further(m.wr + n, m.rd1 + r.reach)
  }

  /** Neither what the callback reads nor what it stamps touches a byte the consumer has yet to read. */
  predicate Unharmed(sum: Checksum, s: Rx, input: seq<byte>, clock: Clock)
    requires s.cap > 0
  {
    && Sound(s) && Fits(s, input)
    && var m := MakeRoom(s);
       m.Ready? ==> StampsClear(m.s, ParseTail(sum, m.s, m.s.tail + input[..Taken(m.s, input)], clock))
  }

  // ----- which capacities make the masks right -----

  lemma IntactInRange(s: Rx)
    requires Intact(s)
    ensures InRange(s.wr, s.rd2, s.cap)
  {
  }

  /** With a power-of-two capacity every callback fits. */
  lemma PowerOfTwoFits(s: Rx, input: seq<byte>)
    requires Intact(s) && PowerOfTwo(s.cap)
    ensures Measured(s) && Sound(s) && Fits(s, input)
  {
    IntactInRange(s);
    SpaceIsFree(s.wr, s.rd2, s.cap);
    MakeRoomIntact(s);
    var t := MakeRoom(s).s;
    if MakeRoom(s).Ready? {
      IntactInRange(t);
      SpaceToEndIsGap(t.wr, t.rd2, t.cap);
    }
  }

  /** And input is dropped exactly if someone has set the error flag, or one slot is all that is free, or the writer has
      come to the last 128 KiB and the free space does not exceed the unparsed bytes by as much. */
  lemma RefusesIff(s: Rx)
    requires Intact(s) && PowerOfTwo(s.cap)
    ensures MakeRoom(s).Refused? <==>
              var free := (s.rd2 - s.wr - 1) % s.cap;
              s.error || free == 0 || (s.wr > s.cap - 0x2_0000 && free <= s.wr - s.rd1 + 0x2_0000)
  {
    SpaceIsModular(s.wr, s.rd2, s.cap);
  }

  /** A refusal drops the waiting input and the unparsed bytes; after an error everything starts again at the beginning
      of the buffer. */
  lemma RefusalDrops(sum: Checksum, s: Rx, input: seq<byte>, clock: Clock)
    requires s.cap > 0 && MakeRoom(s).Refused?
    ensures Callback(sum, s, input, clock)
         == (if s.error then s.(wr := 0, rd1 := 0, rd2 := 0, end1 := 0, error := false, unread := [], tail := [])
             else s.(wr := s.rd1, tail := []), [])
  {
  }

  /** Otherwise the callback goes back to the start of the buffer exactly if the writer has come to the last 128 KiB,
      and reads all that waits, or as much as there is before the consumer or the end. */
  lemma ReadyReads(s: Rx, input: seq<byte>)
    requires Intact(s) && PowerOfTwo(s.cap) && MakeRoom(s).Ready?
    ensures var m := MakeRoom(s).s;
            && m == (if s.wr > s.cap - 0x2_0000 then s.(wr := s.wr - s.rd1, rd1 := 0, end1 := s.rd1) else s)
            && Taken(m, input) == var gap := if m.wr < m.rd2 then m.rd2 - m.wr - 1
                                             else if m.rd2 == 0 then m.cap - m.wr - 1 else m.cap - m.wr;
                                  if |input| <= gap then |input| else gap
  {
    PowerOfTwoFits(s, input);
    var m := MakeRoom(s).s;
    IntactInRange(m);
    SpaceToEndIsGap(m.wr, m.rd2, m.cap);
  }

  /** The consumer stands within a megabyte ahead of the writer. */
  predicate JustAhead(s: Rx) {
    s.wr < s.rd2 <= s.wr + 0x10_0000
  }

  lemma ShippedMeasured(s: Rx)
    requires Intact(s) && s.cap == SHIPPED && |s.tail| < STREAM_MAX_SIZE
    ensures s.wr > s.cap - MARGIN && Space(s.wr, s.rd2, s.cap) != Free(s.wr, s.rd2, s.cap) ==>
      Free(s.wr, s.rd2, s.cap) > s.wr - s.rd1 + MARGIN
  {
    IntactInRange(s);
    ShippedSpace(s.wr, s.rd2);
  }

  lemma ShippedSound(s: Rx)
    requires Intact(s) && s.cap == SHIPPED && |s.tail| < STREAM_MAX_SIZE
    ensures Sound(s)
    ensures MakeRoom(s).Ready? ==> MakeRoom(s).s.wr < s.cap
  {
    ShippedMeasured(s);
  }

  /** With the shipped capacity every input fits exactly when the consumer is not just ahead of the writer. */
  lemma ShippedFitsIff(s: Rx)
    requires Intact(s) && s.cap == SHIPPED && |s.tail| < STREAM_MAX_SIZE
    ensures (forall input :: Fits(s, input)) <==> (MakeRoom(s).Ready? ==> !JustAhead(MakeRoom(s).s))
  {
    ShippedSound(s);
    var t := MakeRoom(s).s;
    if MakeRoom(s).Ready? {
      IntactInRange(t);
      ShippedSpaceToEnd(t.wr, t.rd2);
      var flood: seq<byte> := seq(SHIPPED, _ => 0);
      assert Taken(t, flood) == SpaceToEnd(t.wr, t.rd2, SHIPPED);
      assert Fits(s, flood) <==> !JustAhead(t);
    }
  }
}
