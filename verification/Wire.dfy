/**
 What the loop of netcom_readcb does with each kind of packet, in terms of the bytes on the wire: the codes, lengths and
 checksums of src/l0006-0/netcmd.h written out, and the checksum as the bit-serial register of the polynomial
 x^16 + x^12 + x^5 + 1.
 */
module Wire {
  import opened Bytes
  import opened TableCrc
  import opened Netcmd
  import opened Frames
  import Crc16
  import ShiftRegister

  /** The register the checksum is, bit for bit, after message m. */
  function Register(m: seq<byte>): seq<bool> {
    ShiftRegister.Run(Crc16.WordOf(0x1021), Zeros(16), Message(MsbFirst, m))
  }

  /** The two bytes, the high one second, hold that register. */
  predicate Sums(lo: byte, hi: byte, m: seq<byte>) {
    ByteBits(hi) + ByteBits(lo) == Register(m)
  }

  lemma SumIsRegister(m: seq<byte>)
    ensures CRC16(m) == Register(m) && |Register(m)| == 16
  {
    Crc16.TableDrivenIsBitSerial(Crc16.ZERO, m);
  }

  // ----- headers -----

  /** The header the macro builds, byte for byte. */
  lemma HeaderBytes(cmd: byte, seqno: byte, func0: byte, func1: byte)
    ensures var h := Header(CRC16, cmd, seqno, func0, func1);
            |h| == 8 && h[..6] == [0xEF, 0xBE, cmd, seqno, func0, func1] && Sums(h[6], h[7], h[..6])
  {
    var m := [MAGIC0, MAGIC1, cmd, seqno, func0, func1];
    SumIsRegister(m);
    Crc16.StoredWord(CRC16(m));
    assert Header(CRC16, cmd, seqno, func0, func1)[..6] == m;
  }

  /** The headers the receiver accepts. */
  lemma AcceptedIff(u: seq<byte>, i: nat)
    ensures HeaderAt(CRC16, u, i) <==>
      && i + 8 <= |u| && u[i] == 0xEF && u[i + 1] == 0xBE
      && (u[i + 2] <= 0x09 || 0x80 <= u[i + 2] <= 0x88)
      && Sums(u[i + 6], u[i + 7], u[i..i + 6])
  {
    if i + 8 <= |u| {
      var p := u[i..i + 8];
      assert p[..CHECKSUM_SIZE] == u[i..i + 6];
      SumIsRegister(u[i..i + 6]);
    }
  }

  // ----- commands and acknowledgements -----

  /** A command or acknowledgement takes 64 bytes if it is SAVECONF or its acknowledgement, otherwise 8. */
  lemma CommandTurn(u: seq<byte>, rx: bool, room: nat)
    requires HeaderAt(CRC16, u, 0) && u[2] != 0x04
    ensures Next(CRC16, u, rx, room)
         == if u[2] != 0x09 && u[2] != 0x88 then Reply(8) else if |u| >= 64 then Reply(64) else Wait(0)
  {
    AcceptedIff(u, 0);
  }

  lemma BuiltCommand(cmd: byte, seqno: byte, func0: byte, func1: byte, rest: seq<byte>, rx: bool, room: nat)
    requires (cmd <= 0x08 && cmd != 0x04) || 0x80 <= cmd <= 0x87
    ensures Next(CRC16, Header(CRC16, cmd, seqno, func0, func1) + rest, rx, room) == Reply(8)
  {
    BuiltAccepted(cmd, seqno, func0, func1, rest);
    CommandTurn(Header(CRC16, cmd, seqno, func0, func1) + rest, rx, room);
  }

  lemma BuiltLongCommand(cmd: byte, seqno: byte, func0: byte, func1: byte, rest: seq<byte>, rx: bool, room: nat)
    requires cmd == 0x09 || cmd == 0x88
    ensures Next(CRC16, Header(CRC16, cmd, seqno, func0, func1) + rest, rx, room)
         == if |rest| >= 56 then Reply(64) else Wait(0)
  {
    BuiltAccepted(cmd, seqno, func0, func1, rest);
    CommandTurn(Header(CRC16, cmd, seqno, func0, func1) + rest, rx, room);
  }

  lemma BuiltAccepted(cmd: byte, seqno: byte, func0: byte, func1: byte, rest: seq<byte>)
    requires cmd <= 0x09 || 0x80 <= cmd <= 0x88
    ensures var u := Header(CRC16, cmd, seqno, func0, func1) + rest;
            && HeaderAt(CRC16, u, 0) && |u| == 8 + |rest| && u[2] == cmd && u[3] == seqno
            && u[4] == func0 && u[5] == func1 && u[8..] == rest
  {
    BuiltHeader(CRC16, cmd, seqno, func0, func1, rest);
    FormatIsAccepted(cmd, seqno, func0, func1);
    Behind(CRC16, cmd, seqno, func0, func1, rest);
  }

  lemma Behind(sum: Checksum, cmd: byte, seqno: byte, func0: byte, func1: byte, rest: seq<byte>)
    ensures var u := Header(sum, cmd, seqno, func0, func1) + rest;
            |u| == 8 + |rest| && u[3] == seqno && u[8..] == rest
  {
  }

  /** So an acknowledgement that arrives alone is handed over whole, and nothing is left. */
  lemma CommandParsed(cmd: byte, seqno: byte, func0: byte, func1: byte, rx: bool, room: nat, clock: Clock, tick: nat)
    requires (cmd <= 0x08 && cmd != 0x04) || 0x80 <= cmd <= 0x87
    ensures var h := Header(CRC16, cmd, seqno, func0, func1);
            Parse(CRC16, h, rx, room, clock, tick) == Parsed([], [h], [], Waiting, tick, 0)
  {
    var h := Header(CRC16, cmd, seqno, func0, func1);
    HeaderBytes(cmd, seqno, func0, func1);
    assert h + [] == h;
    BuiltCommand(cmd, seqno, func0, func1, [], rx, room);
    AloneParsed(CRC16, h, rx, room, clock, tick);
  }

  lemma AloneParsed(sum: Checksum, u: seq<byte>, rx: bool, room: nat, clock: Clock, tick: nat)
    requires u != [] && Next(sum, u, rx, room) == Reply(|u|)
    ensures Parse(sum, u, rx, room, clock, tick) == Parsed([], [u], [], Waiting, tick, 0)
  {
    var t := Turn(u, Reply(|u|), clock, tick);
    assert u[..|u|] == u && u[|u|..] == [];
    ParseStep(sum, u, rx, room, clock, tick, Reply(|u|), t);
    NothingParsed(sum, rx, Less(room, 0), clock, tick);
  }

  lemma NothingParsed(sum: Checksum, rx: bool, room: nat, clock: Clock, tick: nat)
    ensures Parse(sum, [], rx, room, clock, tick) == Parsed([], [], [], Waiting, tick, 0)
  {
    ParseStep(sum, [], rx, room, clock, tick, Wait(0), Turn([], Wait(0), clock, tick));
  }

  // ----- streams -----

  /** A stream header, by the length it declares, the bytes that are there, and the checksum before the last two. */
  lemma StreamTurn(u: seq<byte>, rx: bool, room: nat, n: nat)
    requires HeaderAt(CRC16, u, 0) && u[2] == 0x04 && n == u[4] as nat + 256 * u[5] as nat
    ensures n == 0 ==> Next(CRC16, u, rx, room) == Spin
    ensures n > 9940 ==> Next(CRC16, u, rx, room) == Resync(CRC16, u)
    ensures 0 < n <= 9940 && n > |u| ==> Next(CRC16, u, rx, room) == Wait(0)
    ensures 0 < n <= 9940 && n <= |u| && !rx ==> Next(CRC16, u, rx, room) == Skip(n)
    ensures 0 < n < 12 && n <= |u| && rx ==> Next(CRC16, u, rx, room) == Overrun
    ensures 12 <= n <= 9940 && n <= |u| && rx && !Sums(u[n - 4], u[n - 3], u[8..n - 4]) ==>
              Next(CRC16, u, rx, room) == Resync(CRC16, u)
    ensures 12 <= n <= 9940 && n <= |u| && rx && Sums(u[n - 4], u[n - 3], u[8..n - 4]) ==>
              Next(CRC16, u, rx, room) == if room >= 16 then Commit(n) else Overrun
  {
    if 12 <= n <= |u| {
      BodySums(u, n);
    }
    DeclaredLength(u, n);
    StreamTurnBy(CRC16, u, rx, room, n);
  }

  lemma DeclaredLength(u: seq<byte>, n: nat)
    requires |u| >= 8 && u[2] == 0x04 && n == u[4] as nat + 256 * u[5] as nat
    ensures StreamLength(u) == n && u[CMD] == ADDATA
  {
  }

  lemma BodySums(u: seq<byte>, n: nat)
    requires 12 <= n <= |u|
    ensures BodyMatches(CRC16, u[..n]) <==> Sums(u[n - 4], u[n - 3], u[8..n - 4])
  {
    SumIsRegister(u[8..n - 4]);
    SumsBy(CRC16, u, n);
  }

  lemma SumsBy(sum: Checksum, u: seq<byte>, n: nat)
    requires 12 <= n <= |u|
    ensures BodyMatches(sum, u[..n]) <==> ByteBits(u[n - 3]) + ByteBits(u[n - 4]) == sum(u[8..n - 4])
  {
    assert u[..n][8..n - 4] == u[8..n - 4];
  }

  lemma StreamTurnBy(sum: Checksum, u: seq<byte>, rx: bool, room: nat, n: nat)
    requires HeaderAt(sum, u, 0) && u[CMD] == ADDATA && n == StreamLength(u)
    ensures n == 0 ==> Next(sum, u, rx, room) == Spin
    ensures n > 9940 ==> Next(sum, u, rx, room) == Resync(sum, u)
    ensures 0 < n <= 9940 && n > |u| ==> Next(sum, u, rx, room) == Wait(0)
    ensures 0 < n <= 9940 && n <= |u| && !rx ==> Next(sum, u, rx, room) == Skip(n)
    ensures 0 < n < 12 && n <= |u| && rx ==> Next(sum, u, rx, room) == Overrun
    ensures 12 <= n <= 9940 && n <= |u| && rx ==>
              Next(sum, u, rx, room) == if !BodyMatches(sum, u[..n]) then Resync(sum, u)
                                        else if room >= 16 then Commit(n) else Overrun
  {
  }

  /** Where the search for a header goes: to the first one from offset 8 on that does not end at the last byte, or else
      to the last eight bytes. */
  lemma ResyncTurn(u: seq<byte>)
    requires |u| >= 8
    ensures var s := Resync(CRC16, u);
            if exists k :: 8 <= k < |u| - 8 && HeaderAt(CRC16, u, k)
            then && s.Skip? && 8 <= s.n < |u| - 8 && HeaderAt(CRC16, u, s.n)
                 && forall k :: 8 <= k < s.n ==> !HeaderAt(CRC16, u, k)
            else s.Wait? && s.skip == if |u| >= 16 then |u| - 8 else 8
  {
    ScanFindsFirst(CRC16, u, 8);
  }

  /** Bytes that begin with no header are searched for one. */
  lemma GarbageTurn(u: seq<byte>, rx: bool, room: nat)
    requires !HeaderAt(CRC16, u, 0)
    ensures Next(CRC16, u, rx, room) == if |u| < 8 then Wait(0) else Resync(CRC16, u)
  {
  }

  /** A stream packet as the device builds it: header, body, the body's checksum, and two bytes nobody looks at. */
  function StreamPacket(seqno: byte, lo: byte, hi: byte, body: seq<byte>, x: byte, y: byte): seq<byte> {
    Header(CRC16, 0x04, seqno, lo, hi) + body + Stored(CRC16(body)) + [x, y]
  }

  lemma StoredSums(body: seq<byte>)
    ensures var s := Stored(CRC16(body)); |s| == 2 && Sums(s[0], s[1], body)
  {
    SumIsRegister(body);
    Crc16.StoredWord(CRC16(body));
  }

  /** Such a packet, its declared length being its own, is committed whole, with the eight bytes behind its header
      replaced by the time, and nothing is left. */
  lemma StreamParsed(seqno: byte, lo: byte, hi: byte, body: seq<byte>, x: byte, y: byte, room: nat, clock: Clock,
                     tick: nat)
    requires |body| + 12 == lo as nat + 256 * hi as nat && 16 <= |body| + 12 <= 9940 && room >= 16
    ensures var p := StreamPacket(seqno, lo, hi, body, x, y);
            && |p| == |body| + 12
            && Parse(CRC16, p, true, room, clock, tick)
               == Parsed(p[..8] + clock(tick) + p[16..], [], [], Waiting, tick + 1, 16)
            && FrontOf(CRC16, p) == Stream(|p|) && Clean(CRC16, p)
  {
    PacketIsWhole(seqno, lo, hi, body, x, y);
    WholePacket(StreamPacket(seqno, lo, hi, body, x, y), |body| + 12, room, clock, tick);
  }

  /** p is a stream packet of n bytes that declares its own length and carries the checksum of its body. */
  predicate Whole(p: seq<byte>, n: nat) {
    && n == |p| && HeaderAt(CRC16, p, 0) && p[2] == 0x04 && 12 <= n
    && n == p[4] as nat + 256 * p[5] as nat && Sums(p[n - 4], p[n - 3], p[8..n - 4])
  }

  lemma WholePacket(p: seq<byte>, n: nat, room: nat, clock: Clock, tick: nat)
    requires Whole(p, n) && 16 <= n <= 9940 && room >= 16
    ensures Parse(CRC16, p, true, room, clock, tick)
         == Parsed(p[..8] + clock(tick) + p[16..], [], [], Waiting, tick + 1, 16)
    ensures FrontOf(CRC16, p) == Stream(n) && Clean(CRC16, p)
  {
    StreamTurn(p, true, room, n);
    CommitsAll(CRC16, p, room, clock, tick);
    FrontOfPacket(p, n);
  }

  lemma PacketBytes(seqno: byte, lo: byte, hi: byte, body: seq<byte>, x: byte, y: byte)
    ensures var p := StreamPacket(seqno, lo, hi, body, x, y); var n := |body| + 12;
            && |p| == n && HeaderAt(CRC16, p, 0) && p[2] == 0x04 && p[4] == lo && p[5] == hi
            && Sums(p[n - 4], p[n - 3], p[8..n - 4])
  {
    var s := Stored(CRC16(body));
    var h := Header(CRC16, 0x04, seqno, lo, hi);
    StoredSums(body);
    BuiltAccepted(0x04, seqno, lo, hi, body + s + [x, y]);
    Regroup(h, body, s, [x, y]);
    SumAt(h, body, s, x, y);
  }

  lemma Regroup(a: seq<byte>, b: seq<byte>, c: seq<byte>, d: seq<byte>)
    ensures a + b + c + d == a + (b + c + d)
  {
  }

  lemma PacketIsWhole(seqno: byte, lo: byte, hi: byte, body: seq<byte>, x: byte, y: byte)
    requires |body| + 12 == lo as nat + 256 * hi as nat
    ensures Whole(StreamPacket(seqno, lo, hi, body, x, y), |body| + 12)
  {
    PacketBytes(seqno, lo, hi, body, x, y);
  }

  lemma SumAt(h: seq<byte>, body: seq<byte>, s: seq<byte>, x: byte, y: byte)
    requires |h| == 8 && |s| == 2
    ensures var p := h + body + s + [x, y];
            |p| == |body| + 12 && p[8..|p| - 4] == body && p[|p| - 4] == s[0] && p[|p| - 3] == s[1]
  {
  }

  lemma CommitsAll(sum: Checksum, p: seq<byte>, room: nat, clock: Clock, tick: nat)
    requires |p| >= 16 && Next(sum, p, true, room) == Commit(|p|)
    ensures Parse(sum, p, true, room, clock, tick)
         == Parsed(p[..8] + clock(tick) + p[16..], [], [], Waiting, tick + 1, 16)
  {
    var t := Turn(p, Commit(|p|), clock, tick);
    ParseStep(sum, p, true, room, clock, tick, Commit(|p|), t);
    NothingParsed(sum, true, Less(room, |t.committed|), clock, tick + 1);
    assert Stamp(p, clock(tick)) == p[..8] + clock(tick) + p[16..];
  }

  lemma FrontOfPacket(p: seq<byte>, n: nat)
    requires Whole(p, n) && 16 <= n <= 9940
    ensures FrontOf(CRC16, p) == Stream(n) && Clean(CRC16, p)
  {
    DeclaredLength(p, n);
    assert BodyMatches(CRC16, p[..n]) by {
      BodySums(p, n);
    }
    FrontBy(CRC16, p);
  }

  lemma FrontBy(sum: Checksum, p: seq<byte>)
    requires HeaderAt(sum, p, 0) && p[CMD] == ADDATA && 16 <= |p| == StreamLength(p) <= 9940
    requires BodyMatches(sum, p[..|p|])
    ensures FrontOf(sum, p) == Stream(|p|) && Clean(sum, p)
  {
    assert p[|p|..] == [];
    assert Clean(sum, []);
  }

  /** With RX off it is taken out without a trace. */
  lemma StreamDropped(seqno: byte, lo: byte, hi: byte, body: seq<byte>, x: byte, y: byte, rest: seq<byte>, room: nat)
    requires |body| + 12 == lo as nat + 256 * hi as nat <= 9940
    ensures Next(CRC16, StreamPacket(seqno, lo, hi, body, x, y) + rest, false, room) == Skip(|body| + 12)
  {
    var p, n := StreamPacket(seqno, lo, hi, body, x, y), |body| + 12;
    PacketBytes(seqno, lo, hi, body, x, y);
    DeclaredLength(p, n);
    DropsAll(CRC16, p, rest, n, room);
  }

  lemma DropsAll(sum: Checksum, p: seq<byte>, rest: seq<byte>, n: nat, room: nat)
    requires HeaderAt(sum, p, 0) && p[CMD] == ADDATA && n == StreamLength(p) == |p| && 0 < n <= 9940
    ensures Next(sum, p + rest, false, room) == Skip(n)
  {
    assert (p + rest)[0..8] == p[0..8];
  }
}
