/**
 Where the receive ring fails: exactly when a read or a time stamp damages bytes the consumer has yet to read, and runs
 from the start in which it happens.
 */
module ReceiveFailures {
  import opened Buffer
  import opened Bytes
  import opened CircBuf
  import opened Netcmd
  import opened Frames
  import opened FramesTheory
  import opened Receive
  import opened ReceiveRuns
  import Crc16
  import Pending

  // ----- exactly when -----

  lemma OtherByte(b: byte) returns (c: byte)
    ensures c != b
  {
    c := if b == 0 then 1 else 0;
  }

  /** n bytes written at offset at, below the consumer: they spare the unread bytes whatever they are exactly if they
      end at or below the consumer, or nothing is left to spare. */
  lemma ReadSparesIff(b: seq<byte>, at: nat, rd2: nat, end1: nat, n: nat)
    requires at < rd2 <= end1 <= |b| && at + n <= |b|
    ensures (forall c, input :: Filled(b, c, at, input, n) ==> c[rd2..end1] == b[rd2..end1])
       <==> at + n <= rd2 || rd2 == end1
  {
    if at + n <= rd2 || rd2 == end1 {
      forall c, input | Filled(b, c, at, input, n) ensures c[rd2..end1] == b[rd2..end1] {
        if rd2 < end1 {
          SameAbove(b, c, at + n, rd2, end1);
        }
      }
    } else {
      var x := OtherByte(b[rd2]);
      var input := seq(n, _ => x);
      var c := b[..at] + input + b[at + n..];
      assert input[..n] == input;
      assert Filled(b, c, at, input, n);
      assert c[rd2..end1][0] == x && b[rd2..end1][0] == b[rd2];
    }
  }

  /** A packet stamped at rd1 while the writer is wrapped: the stamp spares the unread bytes whatever the time exactly
      if the packet's first sixteen bytes end at or below the consumer, or nothing is left to spare. */
  lemma StampSparesIff(b: seq<byte>, rd1: nat, rd2: nat, end1: nat)
    requires rd1 + HEADER_SIZE <= rd2 <= end1 <= |b|
    ensures (forall t: Timestamp :: (b[..rd1] + Stamp(b[rd1..], t))[rd2..end1] == b[rd2..end1])
       <==> rd1 + STAMP_END <= rd2 || rd2 == end1
  {
    if rd1 + STAMP_END <= rd2 || rd2 == end1 {
      forall t: Timestamp ensures (b[..rd1] + Stamp(b[rd1..], t))[rd2..end1] == b[rd2..end1] {
      }
    } else {
      var x := OtherByte(b[rd2]);
      var t: Timestamp := seq(TIMESTAMP_SIZE, _ => x);
      assert (b[..rd1] + Stamp(b[rd1..], t))[rd2..end1][0] == x && b[rd2..end1][0] == b[rd2];
    }
  }

  // ----- packets to send -----

  /** A stream packet with the given body; lo and hi are the bytes of its length. */
  function Framed(sum: Checksum, lo: byte, hi: byte, body: seq<byte>): (p: seq<byte>)
    ensures |p| == STREAM_MIN_SIZE + |body|
  {
    Header(sum, ADDATA, 0, lo, hi) + (body + (Stored(sum(body)) + [0, 0]))
  }

  ghost predicate Sixteen(sum: Checksum) {
    forall m {:trigger sum(m)} :: |sum(m)| == 16
  }

  lemma Crc16Sixteen()
    ensures Sixteen(CRC16)
  {
  }

  lemma FramedHeader(sum: Checksum, lo: byte, hi: byte, body: seq<byte>)
    requires Sixteen(sum)
    ensures var p := Framed(sum, lo, hi, body);
            HeaderAt(sum, p, 0) && p[CMD] == ADDATA && p[LENGTH] == lo && p[LENGTH + 1] == hi
  {
    BuiltHeader(sum, ADDATA, 0, lo, hi, body + (Stored(sum(body)) + [0, 0]));
    AcceptedHeader(sum, ADDATA, 0, lo, hi);
  }

  /** The body of a packet and the two bytes after it. */
  lemma Middle<T>(h: seq<T>, b: seq<T>, c: seq<T>, p: seq<T>)
    requires p == h + (b + c) && |c| == 4
    ensures p[|h|..|p| - 4] == b && p[|p| - 4] == c[0] && p[|p| - 3] == c[1]
  {
  }

  lemma FramedBody(sum: Checksum, lo: byte, hi: byte, body: seq<byte>)
    requires Sixteen(sum)
    ensures BodyMatches(sum, Framed(sum, lo, hi, body))
  {
    var p := Framed(sum, lo, hi, body);
    Middle(Header(sum, ADDATA, 0, lo, hi), body, Stored(sum(body)) + [0, 0], p);
    Crc16.StoredWord(sum(body));
  }

  /** ... is a packet if the length is right. */
  lemma FramedIsPacket(sum: Checksum, lo: byte, hi: byte, body: seq<byte>, n: nat)
    requires Sixteen(sum) && Le16(lo, hi) == n == STREAM_MIN_SIZE + |body| && STAMP_END <= n <= STREAM_MAX_SIZE
    ensures FrontOf(sum, Framed(sum, lo, hi, body)) == Stream(n)
  {
    FramedHeader(sum, lo, hi, body);
    FramedBody(sum, lo, hi, body);
    WholeStream(sum, Framed(sum, lo, hi, body), n);
  }

  lemma WholeStream(sum: Checksum, p: seq<byte>, n: nat)
    requires HeaderAt(sum, p, 0) && p[CMD] == ADDATA && Le16(p[LENGTH], p[LENGTH + 1]) == n == |p|
    requires STAMP_END <= n <= STREAM_MAX_SIZE && BodyMatches(sum, p)
    ensures FrontOf(sum, p) == Stream(n)
  {
    assert p[..n] == p;
  }

  function Zeros(n: nat): (z: seq<byte>)
    ensures |z| == n
  {
    seq(n, _ => 0)
  }

  // ----- a run of stream packets, read in one go -----

  function Times<T>(k: nat, f: T): (fs: seq<T>)
    ensures |fs| == k && forall i :: 0 <= i < k ==> fs[i] == f
  {
    if k == 0 then [] else [f] + Times(k - 1, f)
  }

  /** Complete stream packets and nothing else. */
  predicate AllStreams(sum: Checksum, fs: seq<seq<byte>>) {
    forall i :: 0 <= i < |fs| ==> FrontOf(sum, fs[i]) == Stream(|fs[i]|)
  }

  lemma {:induction false} FlattenTimes(k: nat, f: seq<byte>, n: nat)
    requires |f| == n
    ensures |Flatten(Times(k, f))| == k * n
  {
    if k == 0 {
    } else {
      FlattenTimes(k - 1, f, n);
      OneMore(k, n);
      assert Times(k, f)[1..] == Times(k - 1, f);
    }
  }

  lemma OneMore(k: nat, n: nat)
    requires k > 0
    ensures k * n == n + (k - 1) * n
  {
  }

  lemma {:induction false} StreamsLength(sum: Checksum, fs: seq<seq<byte>>, clock: Clock, tick: nat)
    requires AllStreams(sum, fs)
    ensures |Streams(sum, fs, clock, tick)| == |Flatten(fs)| && Commands(sum, fs) == []
    decreases |fs|
  {
    if fs == [] {
    } else {
      assert FrontOf(sum, fs[0]) == Stream(|fs[0]|);
      StreamsLength(sum, fs[1..], clock, tick + 1);
    }
  }

  /** Everything read has been committed and nothing consumed. */
  predicate Caught(s: Rx, cap: nat, k: nat) {
    && s.cap == cap && s.rd1 == s.wr == |s.unread| == k && s.rd2 == s.end1 == 0
    && s.tail == [] && s.on && !s.error && s.end.Waiting?
  }

  lemma ParseStreams(sum: Checksum, fs: seq<seq<byte>>, room: nat, clock: Clock)
    requires AllStreams(sum, fs) && |Flatten(fs)| <= room
    ensures var r := Parse(sum, Flatten(fs), true, room, clock, 0);
            |r.committed| == |Flatten(fs)| && r.rest == [] && r.replies == [] && r.end.Waiting?
  {
    assert Flatten(fs) + [] == Flatten(fs);
    ExactlyThePackets(sum, fs, [], clock, 0);
    StreamsLength(sum, fs, clock, 0);
    RoomIrrelevant(sum, Flatten(fs), true, room, clock, 0);
  }

  /** A fresh receiver reads a run of stream packets that fits into one read. */
  lemma FirstRead(sum: Checksum, cap: nat, pending: Pending.State, fs: seq<seq<byte>>, clock: Clock)
    requires AllStreams(sum, fs) && MARGIN < cap < 0x8000_0000
    requires Space(0, 0, cap) != 0 && |Flatten(fs)| <= SpaceToEnd(0, 0, cap) && |Flatten(fs)| <= cap
    ensures var y := Advance(sum, System(Fresh(cap, pending), Flatten(fs)), Read, clock);
            Caught(y.s, cap, |Flatten(fs)|) && y.input == []
  {
    var s, u := Fresh(cap, pending), Flatten(fs);
    assert MakeRoom(s) == Ready(s) && Taken(s, u) == |u|;
    assert u[..|u|] == u && s.tail + u == u;
    ParseStreams(sum, fs, cap, clock);
  }

  // ----- the shipped capacity -----

  /** The first four events of a run that ends in a callback. */
  function Prelude(fs: seq<seq<byte>>, k: nat, last: seq<byte>): seq<Event> {
    [Arrive(Flatten(fs)), Read, Consume(k), Arrive(last)]
  }

  lemma RunFirst(sum: Checksum, y: System, e: Event, es: seq<Event>, clock: Clock)
    requires y.s.cap > 0
    ensures Run(sum, y, [e] + es, clock) == Run(sum, Advance(sum, y, e, clock), es, clock)
  {
    assert ([e] + es)[1..] == es;
  }

  lemma RunPrelude(sum: Checksum, y: System, fs: seq<seq<byte>>, k: nat, last: seq<byte>, clock: Clock)
    requires y.s.cap > 0 && y.input == []
    ensures Run(sum, y, Prelude(fs, k, last), clock) ==
      Advance(sum, Advance(sum, Advance(sum, System(y.s, Flatten(fs)), Read, clock), Consume(k), clock),
              Arrive(last), clock)
  {
    assert [] + Flatten(fs) == Flatten(fs);
    var a := System(y.s, Flatten(fs));
    var b := Advance(sum, a, Read, clock);
    var c := Advance(sum, b, Consume(k), clock);
    RunFirst(sum, c, Arrive(last), [], clock);
    RunFirst(sum, b, Consume(k), [Arrive(last)], clock);
    RunFirst(sum, a, Read, [Consume(k)] + [Arrive(last)], clock);
    RunFirst(sum, y, Arrive(Flatten(fs)), [Read] + ([Consume(k)] + [Arrive(last)]), clock);
    assert [Arrive(last)] + [] == [Arrive(last)];
    assert Prelude(fs, k, last) == [Arrive(Flatten(fs))] + ([Read] + ([Consume(k)] + [Arrive(last)]));
  }

  /** After it: the packets committed, k bytes of them consumed, and last waiting in the transport. */
  lemma AfterPrelude(sum: Checksum, cap: nat, pending: Pending.State, fs: seq<seq<byte>>, k: nat, last: seq<byte>,
                     clock: Clock)
    requires AllStreams(sum, fs) && MARGIN < cap < 0x8000_0000 && k <= |Flatten(fs)|
    requires Space(0, 0, cap) != 0 && |Flatten(fs)| <= SpaceToEnd(0, 0, cap) && |Flatten(fs)| < cap
    ensures var z := Run(sum, System(Fresh(cap, pending), []), Prelude(fs, k, last), clock);
            && z.input == last && z.s.cap == cap && z.s.rd1 == z.s.wr == |Flatten(fs)| && z.s.rd2 == k && z.s.end1 == 0
            && z.s.tail == [] && z.s.on && !z.s.error && z.s.end.Waiting? && Healthy(z.s)
  {
    RunPrelude(sum, System(Fresh(cap, pending), []), fs, k, last, clock);
    FirstRead(sum, cap, pending, fs, clock);
    assert [] + last == last;
  }

  /** The longest stream packet there is. */
  function Longest(): (p: seq<byte>)
    ensures |p| == STREAM_MAX_SIZE
  {
    Framed(CRC16, 0xD4, 0x26, Zeros(STREAM_MAX_SIZE - STREAM_MIN_SIZE))
  }

  /** k of them. */
  lemma LongPackets(k: nat) returns (fs: seq<seq<byte>>)
    ensures |fs| == k && AllStreams(CRC16, fs) && |Flatten(fs)| == k * STREAM_MAX_SIZE
  {
    Crc16Sixteen();
    FramedIsPacket(CRC16, 0xD4, 0x26, Zeros(STREAM_MAX_SIZE - STREAM_MIN_SIZE), STREAM_MAX_SIZE);
    fs := Times(k, Longest());
    FlattenTimes(k, Longest(), STREAM_MAX_SIZE);
  }

  lemma ShippedStart()
    ensures Space(0, 0, SHIPPED) != 0 && SpaceToEnd(0, 0, SHIPPED) == SHIPPED - 1
  {
    ShippedSpace(0, 0);
    ShippedMask(SHIPPED - 1);
  }

  /** The next callback goes back to the start, where a megabyte less one is free, and its limit admits three. */
  predicate Floods(s: Rx, flood: seq<byte>)
    requires s.cap > 0
  {
    && MakeRoom(s).Ready?
    && var m := MakeRoom(s).s;
       && Wrapped(m) && Gap(m.wr, m.rd2, m.cap) == 0xF_FFFF && Taken(m, flood) == 0x2F_FFFF
       && !Fits(s, flood)
  }

  /** With the shipped capacity: 311 stream packets arrive and are read, a megabyte is consumed, and three megabytes of
      anything arrive.  The ring invariant holds, and the next callback reads over the unread bytes. */
  lemma ShippedOverrun(pending: Pending.State, flood: seq<byte>, clock: Clock) returns (fs: seq<seq<byte>>, z: System)
    requires |flood| >= SHIPPED
    ensures |fs| == 311 && AllStreams(CRC16, fs)
    ensures z == Run(CRC16, System(Fresh(SHIPPED, pending), []), Prelude(fs, 0x10_0000, flood), clock)
    ensures z.s.cap > 0 && z.input == flood && Healthy(z.s) && z.s.end.Waiting? && Floods(z.s, flood)
  {
    fs := LongPackets(311);
    ShippedStart();
    AfterPrelude(CRC16, SHIPPED, pending, fs, 0x10_0000, flood, clock);
    z := Run(CRC16, System(Fresh(SHIPPED, pending), []), Prelude(fs, 0x10_0000, flood), clock);
    ShippedRewind(z.s, flood);
  }

  lemma ShippedRewind(s: Rx, flood: seq<byte>)
    requires Healthy(s) && !s.error && s.tail == [] && |flood| >= SHIPPED
    requires s.cap == SHIPPED && s.rd1 == s.wr == 0x2F_2B8C && s.rd2 == 0x10_0000
    ensures MakeRoom(s) == Ready(Rewound(s)) && Floods(s, flood)
  {
    ShippedSpace(0x2F_2B8C, 0x10_0000);
    ShippedMask(SHIPPED - 1 + 0x10_0000);
    assert SpaceToEnd(0, 0x10_0000, SHIPPED) == 0x2F_FFFF;
  }

  // ----- a capacity that is a power of two -----

  const QUARTER: nat := 0x4_0000

  lemma QuarterIsPowerOfTwo()
    ensures PowerOfTwo(QUARTER)
  {
    assert Pow2(9) == 512;
    Pow2Split(9, 9);
  }

  /** A stream packet of twelve bytes: the header and the checksum field, no room for its time stamp. */
  function Shortest(): (p: seq<byte>)
    ensures |p| == STREAM_MIN_SIZE
  {
    Framed(CRC16, 12, 0, [])
  }

  lemma ParseShortest(room: nat, clock: Clock, tick: nat)
    requires room >= STAMP_END
    ensures var r := Parse(CRC16, Shortest(), true, room, clock, tick);
            |r.committed| == STREAM_MIN_SIZE && r.rest == [] && r.reach == STAMP_END && r.end.Waiting?
  {
    Crc16Sixteen();
    FramedHeader(CRC16, 12, 0, []);
    FramedBody(CRC16, 12, 0, []);
    CommitShort(CRC16, Shortest(), room, clock, tick);
  }

  lemma CommitShort(sum: Checksum, p: seq<byte>, room: nat, clock: Clock, tick: nat)
    requires HeaderAt(sum, p, 0) && p[CMD] == ADDATA && Le16(p[LENGTH], p[LENGTH + 1]) == |p| == STREAM_MIN_SIZE
    requires BodyMatches(sum, p) && room >= STAMP_END
    ensures var r := Parse(sum, p, true, room, clock, tick);
            |r.committed| == STREAM_MIN_SIZE && r.rest == [] && r.reach == STAMP_END && r.end.Waiting?
  {
    assert p[..|p|] == p;
    var s := Next(sum, p, true, room);
    assert s == Commit(|p|);
    var t := Turn(p, s, clock, tick);
    ParseStep(sum, p, true, room, clock, tick, s, t);
    ParseNothing(sum, Less(room, |t.committed|), clock, t.tick);
  }

  lemma ParseNothing(sum: Checksum, room: nat, clock: Clock, tick: nat)
    ensures Parse(sum, [], true, room, clock, tick) == Parsed([], [], [], Waiting, tick, 0)
  {
  }

  /** The last packet before the writer goes back: 13 of the longest and this one end 131075 bytes into the buffer. */
  function Filler(): (p: seq<byte>)
    ensures |p| == 1855
  {
    Framed(CRC16, 0x3F, 0x07, Zeros(1855 - STREAM_MIN_SIZE))
  }

  lemma FillerIsPacket()
    ensures FrontOf(CRC16, Filler()) == Stream(|Filler()|)
  {
    Crc16Sixteen();
    FramedIsPacket(CRC16, 0x3F, 0x07, Zeros(1855 - STREAM_MIN_SIZE), 1855);
  }

  lemma Prepended(sum: Checksum, f: seq<byte>, fs: seq<seq<byte>>)
    requires AllStreams(sum, fs) && FrontOf(sum, f) == Stream(|f|)
    ensures AllStreams(sum, [f] + fs) && |Flatten([f] + fs)| == |f| + |Flatten(fs)|
  {
    assert ([f] + fs)[1..] == fs;
  }

  lemma Filling() returns (fs: seq<seq<byte>>)
    ensures |fs| == 14 && AllStreams(CRC16, fs) && |Flatten(fs)| == 131075
  {
    var rest := LongPackets(13);
    FillerIsPacket();
    Prepended(CRC16, Filler(), rest);
    fs := [Filler()] + rest;
  }

  lemma QuarterStart()
    ensures Space(0, 0, QUARTER) != 0 && SpaceToEnd(0, 0, QUARTER) == QUARTER - 1
  {
    QuarterIsPowerOfTwo();
    SpaceIsFree(0, 0, QUARTER);
    SpaceToEndIsGap(0, 0, QUARTER);
  }

  /** The next callback fits what it reads, and commits a packet whose time stamp ends sixteen bytes into the buffer,
      three bytes past the consumer. */
  predicate Overstamps(sum: Checksum, s: Rx, input: seq<byte>, clock: Clock)
    requires s.cap > 0
  {
    && MakeRoom(s).Ready? && Fits(s, input)
    && var m := MakeRoom(s).s; var r := ParseTail(sum, m, m.tail + input[..Taken(m, input)], clock);
       && Wrapped(m) && m.rd1 == 0 && m.rd2 == 13 && m.end1 == 131075
       && |r.committed| == STREAM_MIN_SIZE && r.reach == STAMP_END
       && !Unharmed(sum, s, input, clock)
  }

  /** A power of two is not enough: 14 stream packets arrive and are read, thirteen bytes are consumed, and a stream
      packet of twelve bytes arrives.  The ring invariant holds, and the next callback stamps over unread bytes. */
  lemma StampOverrun(pending: Pending.State, clock: Clock) returns (fs: seq<seq<byte>>, z: System)
    ensures |fs| == 14 && AllStreams(CRC16, fs) && PowerOfTwo(QUARTER)
    ensures z == Run(CRC16, System(Fresh(QUARTER, pending), []), Prelude(fs, 13, Shortest()), clock)
    ensures z.s.cap > 0 && z.input == Shortest() && Healthy(z.s) && z.s.end.Waiting?
    ensures Overstamps(CRC16, z.s, z.input, clock)
  {
    fs := Filling();
    QuarterStart();
    QuarterIsPowerOfTwo();
    AfterPrelude(CRC16, QUARTER, pending, fs, 13, Shortest(), clock);
    z := Run(CRC16, System(Fresh(QUARTER, pending), []), Prelude(fs, 13, Shortest()), clock);
    ParseShortest(QUARTER, clock, z.s.tick);
    QuarterRewind(CRC16, z.s, Shortest(), clock);
  }

  lemma QuarterRewind(sum: Checksum, s: Rx, input: seq<byte>, clock: Clock)
    requires Healthy(s) && !s.error && s.tail == [] && |input| == STREAM_MIN_SIZE
    requires s.cap == QUARTER && s.rd1 == s.wr == 131075 && s.rd2 == 13 && s.on
    requires var r := Parse(sum, input, true, QUARTER, clock, s.tick);
             |r.committed| == STREAM_MIN_SIZE && r.reach == STAMP_END
    ensures Overstamps(sum, s, input, clock)
  {
    QuarterIsPowerOfTwo();
    PowerOfTwoFits(s, input);
    SpaceIsFree(131075, 13, QUARTER);
    SpaceToEndIsGap(0, 13, QUARTER);
    assert MakeRoom(s) == Ready(Rewound(s));
    assert [] + input[..|input|] == input;
  }
}
