/**
 What the parse loop of netcom_readcb does to the bytes it has received but not yet parsed, as a function
 of those bytes.  The loop body is Next; the whole loop is Parse.
 */
module Frames {
  import opened Bytes
  import opened Netcmd

  // ----- resynchronisation: netcom_find_header -----

  predicate HeaderAt(sum: Checksum, u: seq<byte>, i: nat) {
    i + HEADER_SIZE <= |u| && ValidHeader(sum, u[i..i + HEADER_SIZE])
  }

  /** The scan: the first offset from i on at which a valid header stands, or within 8 bytes of the end. */
  function Scan(sum: Checksum, u: seq<byte>, i: nat): (j: nat)
    requires i <= |u|
    ensures i <= j <= |u|
    ensures forall k :: i <= k < j ==> !HeaderAt(sum, u, k)
    ensures j + HEADER_SIZE < |u| ==> HeaderAt(sum, u, j)
    ensures j + HEADER_SIZE <= |u| || j == i
    decreases |u| - i
  {
    if i + HEADER_SIZE < |u| && !HeaderAt(sum, u, i) then Scan(sum, u, i + 1) else i
  }

  /** The scan succeeds exactly if a valid header begins at or after offset i and ends before the last byte, and then it
      stops at the first one; otherwise at most eight bytes are left. */
  lemma ScanFindsFirst(sum: Checksum, u: seq<byte>, i: nat)
    requires i <= |u|
    ensures var j := Scan(sum, u, i);
            && (j + HEADER_SIZE < |u| <==> exists k :: i <= k < |u| - HEADER_SIZE && HeaderAt(sum, u, k))
            && (j + HEADER_SIZE < |u| ==> HeaderAt(sum, u[j..], 0) && forall k :: i <= k < j ==> !HeaderAt(sum, u, k))
            && (j + HEADER_SIZE >= |u| ==> |u[j..]| <= HEADER_SIZE)
  {
    var j := Scan(sum, u, i);
    if j + HEADER_SIZE < |u| {
      assert u[j..][0..0 + HEADER_SIZE] == u[j..j + HEADER_SIZE];
    }
  }

  // ----- one turn of the loop -----

  datatype Step =
    | Wait(skip: nat)      // leave the loop for more input, after moving the rest down over skip bytes
    | Skip(n: nat)         // remove n bytes and go on
    | Reply(n: nat)        // hand a command packet of n bytes to the pending commands, remove it and go on
    | Commit(n: nat)       // stamp a stream packet of n bytes, leave it in place and go on
    | Spin                 // a zero-length stream header: the loop goes round without moving
    | Overrun              // readpacket would address memory outside the receive buffer
  {
    predicate GoesOn() {
      Skip? || Reply? || Commit?
    }
  }

  function Resync(sum: Checksum, u: seq<byte>): Step
    requires |u| >= HEADER_SIZE
  {
    var j := Scan(sum, u, HEADER_SIZE);
    if j + HEADER_SIZE < |u| then Skip(j) else Wait(j)
  }

  /** netcmd_readpacket on a received stream packet of n bytes. */
  function OnReceived(sum: Checksum, u: seq<byte>, n: nat, room: nat): (s: Step)
    requires |u| >= HEADER_SIZE && 0 < n <= |u|
    ensures s.Wait? ==> s.skip <= |u|
    ensures s.GoesOn() ==> 0 < s.n <= |u|
  {
    match ReadingOf(sum, u[..n], room)
    case Stamped => Commit(n)
    case Mismatch => Resync(sum, u)
    case _ => Overrun
  }

  /** A stream packet of declared length n with a good header. */
  function OnStream(sum: Checksum, u: seq<byte>, n: nat, rx: bool, room: nat): (s: Step)
    requires |u| >= HEADER_SIZE && n > 0
    ensures s.Wait? ==> s.skip <= |u|
    ensures s.GoesOn() ==> 0 < s.n <= |u|
  {
    if n > STREAM_MAX_SIZE then Resync(sum, u)
    else if n > |u| then Wait(0)
    else if !rx then Skip(n)
    else OnReceived(sum, u, n, room)
  }

  /** Any other packet with a good header. */
  function OnCommand(u: seq<byte>): (s: Step)
    requires |u| >= HEADER_SIZE
    ensures s.Wait? ==> s.skip <= |u|
    ensures s.GoesOn() ==> s.Reply? && s.n == CommandLength(u) && 0 < s.n <= |u|
  {
    var c := CommandLength(u);
    if c == 0 then Spin else if c > |u| then Wait(0) else Reply(c)
  }

  /** A packet with a good header. */
  function OnPacket(sum: Checksum, u: seq<byte>, rx: bool, room: nat): (s: Step)
    requires |u| >= HEADER_SIZE
    ensures s.Wait? ==> s.skip <= |u|
    ensures s.GoesOn() ==> 0 < s.n <= |u|
  {
    var n := StreamLength(u);
    if n != 0 then OnStream(sum, u, n, rx, room) else OnCommand(u)
  }

  /** The loop body; rx is the RX flag, room the bytes from the packet to the end of the receive buffer. */
  function Next(sum: Checksum, u: seq<byte>, rx: bool, room: nat): (s: Step)
    ensures s.Wait? ==> s.skip <= |u|
    ensures s.GoesOn() ==> 0 < s.n <= |u|
  {
    if |u| < HEADER_SIZE then Wait(0)
    else if !HeaderAt(sum, u, 0) then Resync(sum, u)
    else OnPacket(sum, u, rx, room)
  }

  // ----- the loop -----

  datatype End = Waiting | Spinning | Overrunning

  /** The bytes committed to the consumer, the command packets handed over, what remains, how the loop ended; reach is
      how far past the start of the bytes a time stamp was written, whether or not there were that many bytes. */
  datatype Parsed = Parsed(committed: seq<byte>, replies: seq<seq<byte>>, rest: seq<byte>, end: End, tick: nat,
                           reach: nat)

  /** clock(k) is what the k-th reading of the wall clock stamps; tick counts the readings so far. */
  type Clock = nat -> Timestamp

  /** What one turn contributes, and in rest what it leaves to the next. */
  function Turn(u: seq<byte>, s: Step, clock: Clock, tick: nat): (r: Parsed)
    requires s.Wait? ==> s.skip <= |u|
    requires s.GoesOn() ==> 0 < s.n <= |u|
    ensures s.GoesOn() ==> |r.rest| == |u| - s.n
  {
    match s
    case Wait(k) => Parsed([], [], u[k..], Waiting, tick, 0)
    case Spin => Parsed([], [], u, Spinning, tick, 0)
    case Overrun => Parsed([], [], u, Overrunning, tick, 0)
    case Skip(n) => Parsed([], [], u[n..], Waiting, tick, 0)
    case Reply(n) => Parsed([], [u[..n]], u[n..], Waiting, tick, 0)
    case Commit(n) =>
      var v := Stamp(u, clock(tick));
      Parsed(v[..n], [], v[n..], Waiting, tick + 1, STAMP_END)
  }

  /** A reach of n, k bytes further on; no reach stays none. */
  function Beyond(k: nat, n: nat): nat {
    if n == 0 then 0 else k + n
  }

  function Further(a: nat, b: nat): nat {
    if a < b then b else a
  }

  /** One parse continued by another. */
  function Join(r: Parsed, q: Parsed): Parsed {
    Parsed(r.committed + q.committed, r.replies + q.replies, q.rest, q.end, q.tick,
           Further(r.reach, Beyond(|r.committed|, q.reach)))
  }

  function Less(room: nat, n: nat): nat {
    if n <= room then room - n else 0
  }

  function Parse(sum: Checksum, u: seq<byte>, rx: bool, room: nat, clock: Clock, tick: nat): (r: Parsed)
    decreases |u|
  {
    var s := Next(sum, u, rx, room);
    var t := Turn(u, s, clock, tick);
    if s.GoesOn() then Join(t, Parse(sum, t.rest, rx, Less(room, |t.committed|), clock, t.tick)) else t
  }

  lemma ParseStep(sum: Checksum, u: seq<byte>, rx: bool, room: nat, clock: Clock, tick: nat, s: Step, t: Parsed)
    requires s == Next(sum, u, rx, room) && t == Turn(u, s, clock, tick)
    ensures Parse(sum, u, rx, room, clock, tick) ==
      if s.GoesOn() then Join(t, Parse(sum, t.rest, rx, Less(room, |t.committed|), clock, t.tick)) else t
  {
  }

  // ----- progress -----

  /** The one input on which the loop goes round for ever. */
  predicate ZeroLengthStream(sum: Checksum, u: seq<byte>) {
    HeaderAt(sum, u, 0) && u[CMD] == ADDATA && u[LENGTH] == 0 && u[LENGTH + 1] == 0
  }

  lemma SpinsExactlyOnZeroLength(sum: Checksum, u: seq<byte>, rx: bool, room: nat)
    ensures Next(sum, u, rx, room).Spin? <==> ZeroLengthStream(sum, u)
  {
  }

  /** The header the macro builds for a stream of length 0 is such an input. */
  lemma ZeroLengthSpins(seqno: byte, rest: seq<byte>)
    ensures ZeroLengthStream(CRC16, Header(CRC16, ADDATA, seqno, 0, 0) + rest)
  {
    BuiltHeader(CRC16, ADDATA, seqno, 0, 0, rest);
    FormatIsAccepted(ADDATA, seqno, 0, 0);
  }

  lemma BuiltHeader(sum: Checksum, cmd: byte, seqno: byte, func0: byte, func1: byte, rest: seq<byte>)
    ensures var h := Header(sum, cmd, seqno, func0, func1);
            && |h| == HEADER_SIZE && (h + rest)[0..0 + HEADER_SIZE] == h
            && (h + rest)[CMD] == cmd && (h + rest)[LENGTH] == func0 && (h + rest)[LENGTH + 1] == func1
  {
  }

  /** A stream header with RX on whose declared length ends before its own time stamp: below 12 the checksum would run
      over negative length, and below 16 a stamp at the very end would leave the buffer. */
  predicate ShortAtEnd(sum: Checksum, u: seq<byte>, rx: bool, room: nat) {
    && HeaderAt(sum, u, 0) && u[CMD] == ADDATA && rx
    && var n := StreamLength(u);
       0 < n <= |u| && (n < STREAM_MIN_SIZE || (n < STAMP_END && room < STAMP_END && BodyMatches(sum, u[..n])))
  }

  /** netcmd_readpacket addresses memory outside the buffer, or would, exactly on such a packet. */
  lemma OverrunsExactlyOnShortStream(sum: Checksum, u: seq<byte>, rx: bool, room: nat)
    requires |u| <= room
    ensures Next(sum, u, rx, room).Overrun? <==> ShortAtEnd(sum, u, rx, room)
  {
  }

  /** Every declared length from 1 to 11, in a header the macro builds, is such a packet once that much has arrived. */
  lemma ShortStreamOverruns(seqno: byte, length: byte, rest: seq<byte>, room: nat)
    requires 0 < length < 12 && |rest| >= STREAM_CRC16_SIZE
    ensures Next(CRC16, Header(CRC16, ADDATA, seqno, length, 0) + rest, true, room) == Overrun
  {
    BuiltHeader(CRC16, ADDATA, seqno, length, 0, rest);
    FormatIsAccepted(ADDATA, seqno, length, 0);
    ShortLength(length);
    ShortDeclared(CRC16, Header(CRC16, ADDATA, seqno, length, 0) + rest, room);
  }

  lemma ShortLength(length: byte)
    requires 0 < length < 12
    ensures 0 < Le16(length, 0) < STREAM_MIN_SIZE
  {
  }

  lemma ShortDeclared(sum: Checksum, u: seq<byte>, room: nat)
    requires HeaderAt(sum, u, 0) && u[CMD] == ADDATA && 0 < StreamLength(u) < STREAM_MIN_SIZE <= |u|
    ensures Next(sum, u, true, room) == Overrun
  {
  }

  lemma StopIsShort(sum: Checksum, u: seq<byte>, rx: bool, room: nat, clock: Clock, tick: nat)
    requires Next(sum, u, rx, room).Wait?
    ensures |Turn(u, Next(sum, u, rx, room), clock, tick).rest| < STREAM_MAX_SIZE
  {
  }

  /** Waiting for input means that less than one maximal stream packet is left unparsed. */
  lemma {:induction false} RestIsShort(sum: Checksum, u: seq<byte>, rx: bool, room: nat, clock: Clock, tick: nat)
    ensures var r := Parse(sum, u, rx, room, clock, tick); r.end.Waiting? ==> |r.rest| < STREAM_MAX_SIZE
    decreases |u|
  {
    var s := Next(sum, u, rx, room);
    var t := Turn(u, s, clock, tick);
    if s.GoesOn() {
      RestIsShort(sum, t.rest, rx, Less(room, |t.committed|), clock, t.tick);
    } else if s.Wait? {
      StopIsShort(sum, u, rx, room, clock, tick);
    }
  }

  /** What is committed, handed over and kept never exceeds what was received. */
  lemma {:induction false} ParseConserves(sum: Checksum, u: seq<byte>, rx: bool, room: nat, clock: Clock, tick: nat)
    ensures var r := Parse(sum, u, rx, room, clock, tick);
            |r.committed| + |Flatten(r.replies)| + |r.rest| <= |u|
    decreases |u|
  {
    var s := Next(sum, u, rx, room);
    var t := Turn(u, s, clock, tick);
    TurnConserves(u, s, clock, tick);
    if s.GoesOn() {
      var q := Parse(sum, t.rest, rx, Less(room, |t.committed|), clock, t.tick);
      ParseConserves(sum, t.rest, rx, Less(room, |t.committed|), clock, t.tick);
      FlattenConcat(t.replies, q.replies);
    }
  }

  lemma TurnConserves(u: seq<byte>, s: Step, clock: Clock, tick: nat)
    requires s.Wait? ==> s.skip <= |u|
    requires s.GoesOn() ==> 0 < s.n <= |u|
    ensures var t := Turn(u, s, clock, tick); |t.committed| + |Flatten(t.replies)| + |t.rest| <= |u|
  {
  }

  lemma {:induction false} FlattenConcat(a: seq<seq<byte>>, b: seq<seq<byte>>)
    ensures Flatten(a + b) == Flatten(a) + Flatten(b)
  {
    if a == [] {
      assert a + b == b;
    } else {
      assert (a + b)[1..] == a[1..] + b;
      FlattenConcat(a[1..], b);
    }
  }

  function Flatten(ps: seq<seq<byte>>): seq<byte> {
    if ps == [] then [] else ps[0] + Flatten(ps[1..])
  }

  // ----- well-formed input -----

  /** What the bytes at the front of the unparsed region are. */
  datatype Front = Partial | Stream(n: nat) | Command(n: nat) | Bad

  /** A stream packet must hold its time stamp and checksum; nothing else the receiver accepts is excluded. */
  function FrontOf(sum: Checksum, u: seq<byte>): (f: Front)
    ensures f.Stream? || f.Command? ==> 0 < f.n <= |u|
  {
    if |u| < HEADER_SIZE then Partial
    else if !HeaderAt(sum, u, 0) then Bad
    else if u[CMD] == ADDATA then
      var n := StreamLength(u);
      if n < STAMP_END || n > STREAM_MAX_SIZE then Bad
      else if n > |u| then Partial
      else if BodyMatches(sum, u[..n]) then Stream(n)
      else Bad
    else
      var c := CommandLength(u);
      if c > |u| then Partial else Command(c)
  }

  /** The bytes are a run of well-formed packets, the last one possibly incomplete. */
  predicate Clean(sum: Checksum, u: seq<byte>)
    decreases |u|
  {
    match FrontOf(sum, u)
    case Partial => true
    case Bad => false
    case Stream(n) => Clean(sum, u[n..])
    case Command(n) => Clean(sum, u[n..])
  }
}
