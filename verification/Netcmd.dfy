/**
 Packets of src/l0006-0/netcmd.h and the checks and actions of src/l0006-0/netcmd.c.  A packet is the
 byte string from its first byte to the end of what has been received.
 */
module Netcmd {
  import opened Bytes
  import opened TableCrc
  import Crc16
  import ShiftRegister

  // ----- layout -----

  const HEADER_SIZE: nat := 8
  const EX_HEADER_SIZE: nat := 64
  const CHECKSUM_SIZE: nat := 6
  const STREAM_CRC16_SIZE: nat := 4
  const TIMESTAMP_SIZE: nat := 8

  /** A stream packet shorter than this has no room for its checksum field. */
  const STREAM_MIN_SIZE: nat := HEADER_SIZE + STREAM_CRC16_SIZE

  /** Where the time stamp of a stream packet ends. */
  const STAMP_END: nat := HEADER_SIZE + TIMESTAMP_SIZE

  const STREAM_MAX_SIZE: nat := 9940

  const MAGIC0: byte := 0xEF
  const MAGIC1: byte := 0xBE

  // offsets of the packed header fields
  const CMD: nat := 2
  const SEQNO: nat := 3
  const LENGTH: nat := 4
  const CRC: nat := 6

  const BUZZ: byte := 0x0
  const BLINK: byte := 0x1
  const WINSIZE: byte := 0x2
  const RESET: byte := 0x3
  const ADDATA: byte := 0x4
  const VERSION: byte := 0x5
  const DEBUGMODE: byte := 0x6
  const DEVSTAT: byte := 0x7
  const RECOVER: byte := 0x8
  const SAVECONF: byte := 0x9

  const BUZZACK: byte := 0x80
  const BLINKACK: byte := 0x81
  const WINSIZEACK: byte := 0x82
  const RESETACK: byte := 0x83
  const VERSIONACK: byte := 0x84
  const DEBUGMODEACK: byte := 0x85
  const DEVSTATACK: byte := 0x86
  const RECOVERACK: byte := 0x87
  const SAVECONFACK: byte := 0x88

  const SAVECONF_FLAG_SUCCESS: byte := 0x9A

  predicate KnownCommand(cmd: byte) {
    cmd <= SAVECONF || BUZZACK <= cmd <= SAVECONFACK
  }

  // ----- the checks -----

  /** A checksum over a byte string; the packets use crc16 started at 0. */
  type Checksum = seq<byte> -> seq<bool>

  const CRC16: Checksum := m => Crc16.Crc(Crc16.ZERO, m)

  /** The same, for proofs that need the definition only at the bytes a checksum has been computed for. */
  ghost predicate IsCrc16(sum: Checksum) {
    forall m {:trigger Crc16.Crc(Crc16.ZERO, m)} :: sum(m) == Crc16.Crc(Crc16.ZERO, m)
  }

  /** netcmd_isvalidpacketheader: magic, command and header checksum. */
  predicate ValidHeader(sum: Checksum, p: seq<byte>) {
    && |p| >= HEADER_SIZE
    && p[0] == MAGIC0 && p[1] == MAGIC1
    && KnownCommand(p[CMD])
    && Crc16.FromLe(p[CRC], p[CRC + 1]) == sum(p[..CHECKSUM_SIZE])
  }

  /** netcmd_verifystream: the declared length of a stream packet, 0 for any other. */
  function StreamLength(p: seq<byte>): (n: nat)
    requires |p| >= HEADER_SIZE
    ensures n < 0x1_0000
  {
    if p[CMD] == ADDATA then Le16(p[LENGTH], p[LENGTH + 1]) else 0
  }

  /** netcmd_verifycmdpacket: the length of a command or acknowledgement packet, 0 for any other. */
  function CommandLength(p: seq<byte>): (n: nat)
    requires |p| >= HEADER_SIZE
    ensures n == 0 || n == HEADER_SIZE || n == EX_HEADER_SIZE
  {
    if p[CMD] == ADDATA || !KnownCommand(p[CMD]) then 0
    else if p[CMD] == SAVECONF || p[CMD] == SAVECONFACK then EX_HEADER_SIZE
    else HEADER_SIZE
  }

  /** The checksum comparison of netcmd_readpacket, on the bytes of a stream packet. */
  predicate BodyMatches(sum: Checksum, p: seq<byte>) {
    && |p| >= STREAM_MIN_SIZE
    && var end := |p| - STREAM_CRC16_SIZE;
       Crc16.FromLe(p[end], p[end + 1]) == sum(p[HEADER_SIZE..end])
  }

  /** A packet that has passed the checks: long enough for its command. */
  predicate ReplyPacket(p: seq<byte>) {
    |p| >= HEADER_SIZE && |p| >= CommandLength(p)
  }

  type Timestamp = t: seq<byte> | |t| == TIMESTAMP_SIZE witness seq(TIMESTAMP_SIZE, _ => 0)

  /** netcmd_readpacket's write: eight bytes of wall-clock time over the start of the body. */
  function Stamp(p: seq<byte>, t: Timestamp): (q: seq<byte>)
    ensures |q| == |p|
    ensures forall i :: 0 <= i < |p| ==>
      q[i] == if HEADER_SIZE <= i < STAMP_END then t[i - HEADER_SIZE] else p[i]
  {
    seq(|p|, i requires 0 <= i < |p| =>
      if HEADER_SIZE <= i < STAMP_END then t[i - HEADER_SIZE] else p[i])
  }

  // ----- L0006_NETCMD_FORMAT -----

  /** The header the macro builds. */
  function Header(sum: Checksum, cmd: byte, seqno: byte, func0: byte, func1: byte): (p: seq<byte>) {
    var body := [MAGIC0, MAGIC1, cmd, seqno, func0, func1];
    body + Stored(sum(body))
  }

  /** A checksum as the two bytes of a uint16_t field. */
  function Stored(crc: seq<bool>): (s: seq<byte>)
    ensures |s| == 2
  {
    if |crc| == 16 then [Crc16.LowByte(crc), Crc16.HighByte(crc)] else [0, 0]
  }

  method Sum(buf: array<byte>, off: nat, size: nat, ghost sum: Checksum) returns (crc: seq<bool>)
    requires IsCrc16(sum) && off + size <= buf.Length
    ensures |crc| == 16 && crc == sum(buf[off..off + size])
  {
    crc := Crc16.Compute(Crc16.ZERO, buf, off, size);
  }

  /** netcmd_isvalidpacketheader on the bytes in place. */
  method IsValidHeader(blob: array<byte>, off: nat, ghost sum: Checksum) returns (ok: bool)
    requires IsCrc16(sum) && off + HEADER_SIZE <= blob.Length
    ensures ok == ValidHeader(sum, blob[off..off + HEADER_SIZE])
  {
    var crc := Sum(blob, off, CHECKSUM_SIZE, sum);
    assert blob[off..off + HEADER_SIZE][..CHECKSUM_SIZE] == blob[off..off + CHECKSUM_SIZE];
    ok := blob[off] == MAGIC0 && blob[off + 1] == MAGIC1 && KnownCommand(blob[off + CMD])
       && Crc16.FromLe(blob[off + CRC], blob[off + CRC + 1]) == crc;
  }

  method SetFields(packet: array<byte>, cmd: byte, seqno: byte, func0: byte, func1: byte)
    requires packet.Length >= HEADER_SIZE
    modifies packet
    ensures packet[0..0 + CHECKSUM_SIZE] == [MAGIC0, MAGIC1, cmd, seqno, func0, func1]
    ensures packet[HEADER_SIZE..] == old(packet[HEADER_SIZE..])
  {
    packet[0], packet[1] := MAGIC0, MAGIC1;
    packet[CMD] := cmd;
    packet[SEQNO] := seqno;
    packet[LENGTH] := func0;
    packet[LENGTH + 1] := func1;
  }

  method SetCrc(packet: array<byte>, crc: seq<bool>)
    requires packet.Length >= HEADER_SIZE && |crc| == 16
    modifies packet
    ensures packet[..HEADER_SIZE] == old(packet[0..0 + CHECKSUM_SIZE]) + Stored(crc)
    ensures packet[HEADER_SIZE..] == old(packet[HEADER_SIZE..])
  {
    packet[CRC], packet[CRC + 1] := Crc16.LowByte(crc), Crc16.HighByte(crc);
  }

  /** The macro, field by field: the checksum runs over the bytes just written. */
  method Format(packet: array<byte>, cmd: byte, seqno: byte, func0: byte, func1: byte)
    requires packet.Length >= HEADER_SIZE
    modifies packet
    ensures packet[..HEADER_SIZE] == Header(CRC16, cmd, seqno, func0, func1)
    ensures packet[HEADER_SIZE..] == old(packet[HEADER_SIZE..])
  {
    SetFields(packet, cmd, seqno, func0, func1);
    var crc := Sum(packet, 0, CHECKSUM_SIZE, CRC16);
    SetCrc(packet, crc);
  }

  /** What the macro writes, the receiver's check accepts, for the known commands and no others. */
  lemma FormatIsAccepted(cmd: byte, seqno: byte, func0: byte, func1: byte)
    ensures ValidHeader(CRC16, Header(CRC16, cmd, seqno, func0, func1)) <==> KnownCommand(cmd)
  {
    AcceptedHeader(CRC16, cmd, seqno, func0, func1);
  }

  lemma AcceptedHeader(sum: Checksum, cmd: byte, seqno: byte, func0: byte, func1: byte)
    requires |sum([MAGIC0, MAGIC1, cmd, seqno, func0, func1])| == 16
    ensures ValidHeader(sum, Header(sum, cmd, seqno, func0, func1)) <==> KnownCommand(cmd)
  {
    var p := Header(sum, cmd, seqno, func0, func1);
    assert p[..CHECKSUM_SIZE] == [MAGIC0, MAGIC1, cmd, seqno, func0, func1];
    Crc16.StoredWord(sum(p[..CHECKSUM_SIZE]));
  }

  // ----- what the checks reject -----

  lemma HeaderWithOtherSum(sum: Checksum, p: seq<byte>, q: seq<byte>)
    requires |p| == |q| == HEADER_SIZE && ValidHeader(sum, p)
    requires p[CHECKSUM_SIZE..] == q[CHECKSUM_SIZE..]
    requires sum(p[..CHECKSUM_SIZE]) != sum(q[..CHECKSUM_SIZE])
    ensures !ValidHeader(sum, q)
  {
    assert p[CRC] == p[CHECKSUM_SIZE..][0] && q[CRC] == q[CHECKSUM_SIZE..][0];
    assert p[CRC + 1] == p[CHECKSUM_SIZE..][1] && q[CRC + 1] == q[CHECKSUM_SIZE..][1];
  }

  /** A valid header damaged in its first six bytes by a burst of at most 16 bits is rejected. */
  lemma DamagedHeaderRejected(p: seq<byte>, q: seq<byte>, k: nat)
    requires |p| == |q| == HEADER_SIZE && ValidHeader(CRC16, p)
    requires p[CHECKSUM_SIZE..] == q[CHECKSUM_SIZE..] && p[..CHECKSUM_SIZE] != q[..CHECKSUM_SIZE]
    requires ShiftRegister.AgreeOutside(
               Message(MsbFirst, p[..CHECKSUM_SIZE]), Message(MsbFirst, q[..CHECKSUM_SIZE]), k, k + 16)
    ensures !ValidHeader(CRC16, q)
  {
    Crc16.BurstDetected(Crc16.ZERO, p[..CHECKSUM_SIZE], q[..CHECKSUM_SIZE], k);
    HeaderWithOtherSum(CRC16, p, q);
  }

  function Body(p: seq<byte>): seq<byte>
    requires |p| >= STREAM_MIN_SIZE
  {
    p[HEADER_SIZE..|p| - STREAM_CRC16_SIZE]
  }

  lemma BodyWithOtherSum(sum: Checksum, p: seq<byte>, q: seq<byte>)
    requires |p| == |q| >= STREAM_MIN_SIZE && BodyMatches(sum, p)
    requires p[|p| - STREAM_CRC16_SIZE..] == q[|q| - STREAM_CRC16_SIZE..]
    requires sum(Body(p)) != sum(Body(q))
    ensures !BodyMatches(sum, q)
  {
    var m := |p| - STREAM_CRC16_SIZE;
    assert p[m] == p[m..][0] && q[m] == q[m..][0];
    assert p[m + 1] == p[m..][1] && q[m + 1] == q[m..][1];
  }

  /** A stream packet whose checksummed body is damaged by a burst of at most 16 bits fails the comparison. */
  lemma DamagedBodyRejected(p: seq<byte>, q: seq<byte>, k: nat)
    requires |p| == |q| >= STREAM_MIN_SIZE && BodyMatches(CRC16, p)
    requires p[|p| - STREAM_CRC16_SIZE..] == q[|q| - STREAM_CRC16_SIZE..] && Body(p) != Body(q)
    requires ShiftRegister.AgreeOutside(Message(MsbFirst, Body(p)), Message(MsbFirst, Body(q)), k, k + 16)
    ensures !BodyMatches(CRC16, q)
  {
    Crc16.BurstDetected(Crc16.ZERO, Body(p), Body(q), k);
    BodyWithOtherSum(CRC16, p, q);
  }

  /** Any odd number of flipped bits in the checksummed body is caught as well. */
  lemma OddDamageRejected(p: seq<byte>, q: seq<byte>)
    requires |p| == |q| >= STREAM_MIN_SIZE && BodyMatches(CRC16, p)
    requires p[|p| - STREAM_CRC16_SIZE..] == q[|q| - STREAM_CRC16_SIZE..]
    requires ShiftRegister.Odd(Xor(Message(MsbFirst, Body(p)), Message(MsbFirst, Body(q))))
    ensures !BodyMatches(CRC16, q)
  {
    Crc16.OddErrorsDetected(Crc16.ZERO, Body(p), Body(q));
    BodyWithOtherSum(CRC16, p, q);
  }

  // ----- acknowledgement codes and completion actions -----

  /** l0006_netcmd_getackcmd; -1 where no acknowledgement is defined. */
  function AckCommand(cmd: byte): int {
    if cmd == BUZZ then BUZZACK as int
    else if cmd == BLINK then BLINKACK as int
    else if cmd == WINSIZE then WINSIZEACK as int
    else if cmd == RESET then RESETACK as int
    else if cmd == VERSION then VERSIONACK as int
    else if cmd == DEBUGMODE then DEBUGMODEACK as int
    else if cmd == DEVSTAT then DEVSTATACK as int
    else if cmd == RECOVER then RECOVERACK as int
    else if cmd == SAVECONF then SAVECONFACK as int
    else -1
  }

  /** The acknowledgements are numbered from 0x80 on in the order of their commands, ADDATA left out. */
  lemma AckCodes(cmd: byte)
    ensures AckCommand(cmd) == (if cmd < 4 then 0x80 + cmd as int else if 4 < cmd <= 9 then 0x7F + cmd as int else -1)
  {
  }

  /** The acknowledgement map is injective on the nine commands that have one, and ADDATA has none. */
  lemma AckCommandInjective(c: byte, d: byte)
    ensures AckCommand(c) == AckCommand(d) >= 0 ==> c == d
    ensures AckCommand(c) >= 0 <==> c <= SAVECONF && c != ADDATA
    ensures AckCommand(c) >= 0 ==> BUZZACK as int <= AckCommand(c) <= SAVECONFACK as int
  {
  }

  /** What a completion action writes through its outret pointer. */
  datatype Outcome = Success | Fail | Timeout

  /** The three completion callbacks: general, with a copy of the reply where there is a place for it, and the extended
      one with its buffer size. */
  datatype Action = General | WithCopy(keep: bool) | Extended(sz: byte)

  /** What one callback does: its outcome, whether it wakes the waiting task, what it returns. */
  datatype Completion = Completion(outcome: Outcome, wakes: bool, ret: int)

  /** l0006_netcmd_general_action, _action2 and _ex_general_action on a reply packet. */
  function OnReply(action: Action, cmd: byte, p: seq<byte>): Completion
    requires ReplyPacket(p)
  {
    if p[CMD] as int != AckCommand(cmd) then Completion(Fail, false, -1)
    else if action.Extended? && p[CMD] == SAVECONFACK then
      var flag, length := p[HEADER_SIZE], p[HEADER_SIZE + 1];
      if flag == SAVECONF_FLAG_SUCCESS && (action.sz == 0 || length < action.sz) then Completion(Success, true, 0)
      else Completion(Fail, true, 0)
    else Completion(Success, true, 0)
  }

  /** The same callbacks when the timeout scan gives up on the command. */
  function OnTimeout(): Completion {
    Completion(Timeout, true, -1)
  }

  /** Success is recorded only for the acknowledgement of the very command sent. */
  lemma SuccessOnlyForOwnAck(action: Action, cmd: byte, other: byte, p: seq<byte>)
    requires ReplyPacket(p)
    requires OnReply(action, cmd, p).outcome == Success
    ensures p[CMD] as int == AckCommand(cmd)
    ensures other != cmd ==> OnReply(action, other, p).outcome == Fail
  {
    AckCommandInjective(cmd, other);
  }

  // ----- netcmd_readpacket -----

  method StampInPlace(blob: array<byte>, off: nat, t: Timestamp)
    requires off + STAMP_END <= blob.Length
    modifies blob
    ensures blob[..off] == old(blob[..off])
    ensures blob[off..] == Stamp(old(blob[off..]), t)
  {
    var i := 0;
    while i < TIMESTAMP_SIZE
      invariant i <= TIMESTAMP_SIZE
      invariant forall k :: 0 <= k < blob.Length ==>
        blob[k] == if off + HEADER_SIZE <= k < off + HEADER_SIZE + i then t[k - off - HEADER_SIZE] else old(blob[k])
    {
      blob[off + HEADER_SIZE + i] := t[i];
      i := i + 1;
    }
  }

  /** How netcmd_readpacket ends; Outside where it would sum or compare bytes before the packet's body, NoRoom where
      its stamp would leave the buffer. */
  datatype Reading = Outside | Mismatch | NoRoom | Stamped

  /** How it ends on a packet p with room bytes from its start to the end of the buffer. */
  function ReadingOf(sum: Checksum, p: seq<byte>, room: nat): Reading {
    if |p| < STREAM_MIN_SIZE then Outside
    else if !BodyMatches(sum, p) then Mismatch
    else if room < STAMP_END then NoRoom
    else Stamped
  }

  /**
   netcmd_readpacket on a packet of declared length n: compare the checksum and, if it matches, stamp the packet.
   The stamp is eight bytes whatever the length.
   */
  method ReadPacket(blob: array<byte>, off: nat, n: nat, t: Timestamp, ghost sum: Checksum) returns (r: Reading)
    requires IsCrc16(sum) && off + n <= blob.Length
    modifies blob
    ensures r == ReadingOf(sum, old(blob[off..off + n]), blob.Length - off)
    ensures blob[..off] == old(blob[..off])
    ensures blob[off..] == if r.Stamped? then Stamp(old(blob[off..]), t) else old(blob[off..])
  {
    if n < STREAM_MIN_SIZE {
      return Outside;
    }
    var ok := Matches(blob, off, n, sum);
    if !ok {
      r := Mismatch;
    } else if blob.Length - off < STAMP_END {
      r := NoRoom;
    } else {
      StampInPlace(blob, off, t);
      r := Stamped;
    }
  }

  method Matches(blob: array<byte>, off: nat, n: nat, ghost sum: Checksum) returns (ok: bool)
    requires IsCrc16(sum) && STREAM_MIN_SIZE <= n && off + n <= blob.Length
    ensures ok == BodyMatches(sum, blob[off..off + n])
  {
    var end := off + n - STREAM_CRC16_SIZE;
    var ck := Sum(blob, off + HEADER_SIZE, n - HEADER_SIZE - STREAM_CRC16_SIZE, sum);
    SameComparison(sum, blob[..], off, n);
    assert blob[..][off..off + n] == blob[off..off + n];
    ok := ck == Crc16.FromLe(blob[end], blob[end + 1]);
  }

  lemma SameComparison(sum: Checksum, b: seq<byte>, off: nat, n: nat)
    requires STREAM_MIN_SIZE <= n && off + n <= |b|
    ensures BodyMatches(sum, b[off..off + n])
       <==> sum(b[off + HEADER_SIZE..off + HEADER_SIZE + (n - HEADER_SIZE - STREAM_CRC16_SIZE)])
              == Crc16.FromLe(b[off + n - STREAM_CRC16_SIZE], b[off + n - STREAM_CRC16_SIZE + 1])
  {
    assert Body(b[off..off + n])
        == b[off + HEADER_SIZE..off + HEADER_SIZE + (n - HEADER_SIZE - STREAM_CRC16_SIZE)];
  }
}
