/**
 The communication object of src/l0006-0/netcom.c: the receive buffer parsed in place and the pool of pending
 commands.  The methods are proved against module Receive.
 */
module Netcom {
  import opened Buffer
  import opened Bytes
  import opened CircBuf
  import opened Elapsed
  import opened Netcmd
  import opened Frames
  import opened FramesTheory
  import opened Receive
  import opened WritePool
  import opened Actions
  import opened ReceiveRuns
  import Ledger
  import Pending

  method HeaderHere(blob: array<byte>, lo: nat, hi: nat, pos: nat, ghost sum: Checksum) returns (ok: bool)
    requires IsCrc16(sum) && lo <= pos && pos + HEADER_SIZE <= hi <= blob.Length
    ensures ok == HeaderAt(sum, blob[lo..hi], pos - lo)
  {
    ok := IsValidHeader(blob, pos, sum);
    SliceOfSlice(blob[..], lo, hi, pos - lo, pos - lo + HEADER_SIZE);
    assert blob[..][lo..hi] == blob[lo..hi];
    assert blob[..][pos..pos + HEADER_SIZE] == blob[pos..pos + HEADER_SIZE];
  }

  lemma ScanFrom(sum: Checksum, u: seq<byte>, i: nat)
    requires i <= |u|
    ensures Scan(sum, u, i) == if i + HEADER_SIZE < |u| && !HeaderAt(sum, u, i) then Scan(sum, u, i + 1) else i
  {
  }

  /** The scan of netcom_find_header over the bytes between lo and hi. */
  method Search(blob: array<byte>, lo: nat, hi: nat, from: nat, ghost sum: Checksum) returns (pos: nat, found: bool)
    requires IsCrc16(sum) && lo <= from <= hi <= blob.Length
    ensures lo <= pos && pos - lo == Scan(sum, blob[lo..hi], from - lo)
    ensures found == (pos + HEADER_SIZE < hi)
  {
    ghost var u := blob[lo..hi];
    pos, found := from, false;
    while pos + HEADER_SIZE < hi
      invariant from <= pos <= hi && !found
      invariant Scan(sum, u, from - lo) == Scan(sum, u, pos - lo)
    {
      found := HeaderHere(blob, lo, hi, pos, sum);
      ScanFrom(sum, u, pos - lo);
      if found {
        break;
      }
      pos := pos + 1;
    }
  }

  /** Stamping a buffer stamps each beginning of it. */
  lemma StampPrefix(w: seq<byte>, k: nat, t: Timestamp)
    requires k <= |w|
    ensures Stamp(w, t)[..k] == Stamp(w[..k], t)
    ensures k >= STAMP_END ==> Stamp(w, t)[k..] == w[k..]
  {
  }

  /** The committed bytes the consumer has not taken. */
  function UnreadIn<T>(b: seq<T>, rd1: nat, rd2: nat, end1: nat): seq<T>
    requires rd1 <= |b| && rd2 <= |b| && end1 <= |b|
  {
    if rd2 <= rd1 then b[rd2..rd1]
    else if rd2 <= end1 then b[rd2..end1] + b[..rd1]
    else []
  }

  lemma RewoundUnread<T>(b: seq<T>, c: seq<T>, rd1: nat, rd2: nat, wr: nat, n: nat)
    requires rd1 <= wr <= |b| == |c| && rd2 <= |b| && n == wr - rd1 && MovedDown(b, c, 0, rd1, n)
    ensures c[0..n] == b[rd1..wr]
    ensures n < rd2 <= rd1 ==> UnreadIn(c, 0, rd2, rd1) == b[rd2..rd1]
  {
    if n < rd2 <= rd1 {
      SameAbove(b, c, n, rd2, rd1);
    }
  }

  lemma ConsumedUnread<T>(b: seq<T>, rd1: nat, rd2: nat, end1: nat, k: nat)
    requires rd1 <= |b| && rd2 <= |b| && end1 <= |b|
    requires if rd2 <= rd1 then rd2 + k <= rd1 else rd2 + k <= end1
    ensures b[rd2..rd2 + k] == UnreadIn(b, rd1, rd2, end1)[..k]
    ensures UnreadIn(b, rd1, rd2 + k, end1) == UnreadIn(b, rd1, rd2, end1)[k..]
  {
  }

  /** Everything but the unread bytes. */
  function Bare(s: Rx): Rx {
    s.(unread := [])
  }

  /** Parsing the bytes from lo to hi turned buffer b into c: nothing below lo changed, the committed bytes follow,
      and nothing changed from hi on that no time stamp reaches. */
  ghost predicate Kept(b: seq<byte>, c: seq<byte>, lo: nat, hi: nat, t: Parsed) {
    && |b| == |c| && lo + |t.committed| + |t.rest| <= hi <= |b| && lo + t.reach <= |b|
    && c[..lo] == b[..lo]
    && c[lo..lo + |t.committed|] == t.committed
    && SameFrom(b, c, Further(hi, lo + t.reach))
  }

  ghost predicate SameFrom<T>(b: seq<T>, c: seq<T>, k: nat) {
    k <= |b| == |c| && c[k..] == b[k..]
  }

  lemma SameFurther<T>(b: seq<T>, c: seq<T>, d: seq<T>, i: nat, j: nat, k: nat)
    requires SameFrom(b, c, i) && SameFrom(c, d, j) && i <= k && j <= k <= |b|
    ensures SameFrom(b, d, k)
  {
    SameAbove(b, c, i, k, |b|);
    SameAbove(c, d, j, k, |b|);
    assert b[k..] == b[k..|b|] && c[k..] == c[k..|b|] && d[k..] == d[k..|b|];
  }

  lemma KeptJoin(b: seq<byte>, c: seq<byte>, d: seq<byte>, lo: nat, hi: nat, m: nat, n: nat, t: Parsed, q: Parsed)
    requires Kept(b, c, lo, hi, t) && m == lo + |t.committed| && n == m + |t.rest| && Kept(c, d, m, n, q)
    ensures Kept(b, d, lo, hi, Join(t, q))
  {
    assert d[..lo] == d[..m][..lo] == c[..m][..lo] == b[..lo];
    assert d[lo..m] == d[..m][lo..] == c[..m][lo..] == t.committed;
    assert d[lo..m + |q.committed|] == d[lo..m] + d[m..m + |q.committed|];
    SameFurther(b, c, d, Further(hi, lo + t.reach), Further(n, m + q.reach), Further(hi, lo + Join(t, q).reach));
  }

  /** The parse as a function of the bytes, the RX flag, the room and the clock readings so far. */
  type Parser = (seq<byte>, bool, nat, nat) -> Parsed

  function ParseOf(parse: Parser, s: Rx): Parsed {
    parse(s.tail, s.on, Less(s.cap, s.rd1), s.tick)
  }

  class Netcom {
    const blob: array<byte>
    const pool: Pool
    ghost const sum: Checksum   // the header and body checksum, crc16
    var rd1: nat
    var rd2: nat
    var wr: nat
    var end1: nat
    var error: bool
    var on: bool          // L0006_NETCOM_FLAGS_RX
    var connected: bool   // L0006_NETCOM_FLAGS_CONNECTED
    var seqno: byte
    ghost var issued: nat // sequence numbers given out so far
    var tick: nat         // wall-clock readings so far
    var end: End          // how the last parse ended; the program has no such field, it does not return

    /** netcom_allocate_buffer; the program passes NETCOM_RDBUFFER_SIZE. */
    constructor (size: nat)
      requires MARGIN < size < 0x8000_0000
      ensures Valid() && fresh(this.blob) && fresh(pool.Repr()) && pool.clients == {}
      ensures pool.book == Ledger.EMPTY_BOOK
      ensures blob.Length == size && State() == Fresh(size, Pending.INITIAL).(on := false)
      ensures rd1 == rd2 == wr == end1 == 0 && !error && !on && !connected && seqno == 0
      ensures pool.state.queue == [] && pool.state.done == []
      ensures sum == CRC16
    {
      blob := new byte[size](_ => 0);
      sum := CRC16;
      var p := new Pool();
      pool := p;
      rd1, rd2, wr, end1 := 0, 0, 0, 0;
      error, on, connected := false, false, false;
      seqno, issued, tick, end := 0, 0, 0, Waiting;
    }

    ghost predicate Valid()
      reads this, pool, pool.Repr()
    {
      && InBounds() && seqno == Pending.Seqno(issued)
      && pool.Valid() && this !in pool.World() && blob !in pool.World()
    }

    ghost function Unread(): seq<byte>
      requires InBounds()
      reads this, blob
    {
      UnreadIn(blob[..], rd1, rd2, end1)
    }

    ghost function State(): Rx
      requires InBounds()
      reads this, blob, pool
    {
      Rx(blob.Length, rd1, rd2, wr, end1, Unread(), Tail(), on, error, tick, pool.state, connected, issued, end)
    }

    /** The cursors stay inside the buffer: all the safety the unread bytes play no part in. */
    ghost predicate InBounds()
      reads this
    {
      && IsCrc16(sum) && MARGIN < blob.Length < 0x8000_0000
      && rd1 <= wr <= blob.Length && rd2 <= blob.Length && end1 <= blob.Length
    }

    /** The received bytes not yet parsed. */
    ghost function Tail(): (u: seq<byte>)
      requires InBounds()
      reads this, blob
      ensures |u| == wr - rd1
    {
      blob[rd1..wr]
    }

    // ----- netcom_find_header -----

    /** Scan for a header from the given offset on; move what begins there, or the last few bytes, down to rd1_off. */
    method FindHeader(offset: nat) returns (found: bool)
      requires InBounds() && offset <= wr - rd1
      modifies blob, this`wr
      ensures InBounds()
      ensures found == (Scan(sum, old(Tail()), offset) + HEADER_SIZE < |old(Tail())|)
      ensures Tail() == old(Tail())[Scan(sum, old(Tail()), offset)..]
      ensures !found ==> |Tail()| <= HEADER_SIZE
      ensures blob[..rd1] == old(blob[..rd1]) && blob[old(wr)..] == old(blob[wr..])
    {
      var pos;
      pos, found := Search(blob, rd1, wr, rd1 + offset, sum);
      Squeeze(pos - rd1);
    }

    /** Remove the first n unparsed bytes. */
    method Squeeze(n: nat)
      requires InBounds() && n <= wr - rd1
      modifies blob, this`wr
      ensures InBounds() && wr == old(wr) - n
      ensures Tail() == old(Tail())[n..]
      ensures blob[..rd1] == old(blob[..rd1]) && blob[old(wr)..] == old(blob[wr..])
    {
      CutOut(blob, rd1, wr, n);
      wr := wr - n;
    }

    // ----- one turn of the loop -----

    /** From state s0 and buffer b0 the object has come to where parsing them with outcome t leads. */
    ghost predicate Reached(s0: Rx, b0: seq<byte>, t: Parsed)
      requires InBounds()
      reads this, blob, pool
    {
      && Bare(State()) == Bare(Parsing(s0, t))
      && Kept(b0, blob[..], s0.rd1, s0.wr, t)
    }

    /** Bytes removed from the front or left alone, nothing else touched. */
    lemma Shortened(s0: Rx, b0: seq<byte>, k: nat)
      requires InBounds() && |b0| == blob.Length && s0.rd1 <= s0.wr <= |b0| && k <= |s0.tail| == s0.wr - s0.rd1
      requires Bare(State()) == Bare(s0.(wr := wr, tail := s0.tail[k..]))
      requires blob[..rd1] == b0[..rd1] && blob[s0.wr..] == b0[s0.wr..]
      ensures Reached(s0, b0, Parsed([], [], s0.tail[k..], s0.end, s0.tick, 0))
    {
    }

    /** The object is in state s0 with buffer b0. */
    ghost predicate At(s0: Rx, b0: seq<byte>)
      reads this, blob, pool
    {
      InBounds() && State() == s0 && blob[..] == b0
    }

    /** netcom_find_header after the eight bytes of a bad header. */
    method Resynchronise(ghost s0: Rx, ghost b0: seq<byte>, ghost clock: Clock) returns (goOn: bool, ghost s: Step)
      requires At(s0, b0) && end.Waiting? && HEADER_SIZE <= wr - rd1
      modifies blob, this`wr
      ensures InBounds() && s == Resync(sum, s0.tail) && goOn == s.GoesOn()
      ensures Reached(s0, b0, Turn(s0.tail, s, clock, s0.tick))
    {
      s := Resync(sum, s0.tail);
      ghost var j := Scan(sum, s0.tail, HEADER_SIZE);
      goOn := FindHeader(HEADER_SIZE);
      Shortened(s0, b0, j);
    }

    ghost predicate StampedAt(s0: Rx, b0: seq<byte>, n: nat, clock: Clock)
      reads this, blob, pool
    {
      && InBounds() && 0 < n <= wr - rd1 && |b0| == blob.Length && STAMP_END <= blob.Length - rd1
      && blob[..rd1] == b0[..rd1] && blob[rd1..] == Stamp(b0[rd1..], clock(tick))
      && Bare(s0) == Bare(State()).(tail := b0[rd1..wr])
    }

    method ReadThere(ghost s0: Rx, ghost b0: seq<byte>, n: nat, clock: Clock) returns (r: Reading)
      requires At(s0, b0) && 0 < n <= wr - rd1
      modifies blob
      ensures r == ReadingOf(sum, s0.tail[..n], s0.cap - s0.rd1)
      ensures if r.Stamped? then StampedAt(s0, b0, n, clock) else At(s0, b0)
    {
      FrontOfTail(n);
      r := ReadPacket(blob, rd1, n, clock(tick), sum);
      if !r.Stamped? {
        Same(b0, blob[..], rd1);
      }
    }

    /** A stream packet of n bytes with a good header and RX on: netcmd_readpacket decides. */
    method TakeStream(ghost s0: Rx, ghost b0: seq<byte>, n: nat, clock: Clock) returns (goOn: bool, ghost s: Step)
      requires At(s0, b0) && end.Waiting? && HEADER_SIZE <= wr - rd1 && 0 < n <= wr - rd1
      modifies blob, this`rd1, this`wr, this`tick, this`end
      ensures InBounds() && s == OnReceived(sum, s0.tail, n, s0.cap - s0.rd1) && goOn == s.GoesOn()
      ensures Reached(s0, b0, Turn(s0.tail, s, clock, s0.tick))
    {
      var r := ReadThere(s0, b0, n, clock);
      match r
      case Stamped =>
        goOn, s := true, Commit(n);
        CommitPacket(s0, b0, n, clock);
      case Mismatch =>
        goOn, s := Resynchronise(s0, b0, clock);
      case _ =>
        goOn, s := false, Overrun;
        Halt(s0, b0, Overrunning, s, clock);
    }

    lemma FrontOfTail(n: nat)
      requires InBounds() && n <= wr - rd1
      ensures Tail()[..n] == blob[rd1..rd1 + n]
    {
    }

    /** The packet has been stamped: move rd1_off over it. */
    method CommitPacket(ghost s0: Rx, ghost b0: seq<byte>, n: nat, ghost clock: Clock)
      requires StampedAt(s0, b0, n, clock) && end.Waiting?
      modifies this`rd1, this`tick
      ensures InBounds() && Reached(s0, b0, Turn(s0.tail, Commit(n), clock, s0.tick))
    {
      CommitKeeps(b0, blob[..], rd1, wr, n, clock, tick);
      rd1, tick := rd1 + n, tick + 1;
    }

    /** The program does not come back from here. */
    method Halt(ghost s0: Rx, ghost b0: seq<byte>, how: End, ghost s: Step, ghost clock: Clock)
      requires At(s0, b0) && (if s.Spin? then how.Spinning? else s.Overrun? && how.Overrunning?)
      modifies this`end
      ensures InBounds() && Reached(s0, b0, Turn(s0.tail, s, clock, s0.tick))
    {
      end := how;
    }

    /** A stream packet of n bytes with RX off is removed. */
    method SkipStream(ghost s0: Rx, ghost b0: seq<byte>, n: nat, ghost clock: Clock)
      requires At(s0, b0) && end.Waiting? && 0 < n <= wr - rd1
      modifies blob, this`wr
      ensures InBounds() && Reached(s0, b0, Turn(s0.tail, Skip(n), clock, s0.tick))
    {
      Squeeze(n);
      Shortened(s0, b0, n);
    }

    /** A command packet of n bytes completes the first pending command with its sequence number. */
    method TakeReply(ghost s0: Rx, ghost b0: seq<byte>, n: nat, ghost clock: Clock)
      requires Valid() && At(s0, b0) && end.Waiting? && 0 < n <= wr - rd1
      requires ReplyPacket(s0.tail[..n])
      modifies blob, this`wr, pool.World()
      ensures pool.clients == old(pool.clients) && pool.book == old(pool.book) && (old(pool.Told()) ==> pool.Told())
      ensures Valid() && Reached(s0, b0, Turn(s0.tail, Reply(n), clock, s0.tick))
    {
      Answer(s0, b0, n);
      SqueezeReply(s0, State(), b0, n, clock);
    }

    method SqueezeReply(ghost s0: Rx, ghost s1: Rx, ghost b0: seq<byte>, n: nat, ghost clock: Clock)
      requires Valid() && At(s1, b0) && end.Waiting? && 0 < n <= wr - rd1
      requires s0 == s1.(pending := s0.pending) && s1.pending == Answers(s0.pending, [s0.tail[..n]])
      modifies blob, this`wr
      ensures Valid() && Reached(s0, b0, Turn(s0.tail, Reply(n), clock, s0.tick))
    {
      Squeeze(n);
      ReplyDone(s0, s1, b0, n, clock);
    }

    method Answer(ghost s0: Rx, ghost b0: seq<byte>, n: nat)
      requires Valid() && At(s0, b0) && 0 < n <= wr - rd1 && ReplyPacket(s0.tail[..n])
      modifies pool.World()
      ensures pool.clients == old(pool.clients) && pool.book == old(pool.book) && (old(pool.Told()) ==> pool.Told())
      ensures Valid() && At(s0.(pending := Answers(s0.pending, [s0.tail[..n]])), b0)
    {
      FrontOfTail(n);
      var p := blob[rd1..rd1 + n];
      pool.Acknowledge(p, blob[rd1 + n..]);
      OneAnswer(s0.pending, p);
    }

    lemma ReplyDone(s0: Rx, s1: Rx, b0: seq<byte>, n: nat, clock: Clock)
      requires InBounds() && |b0| == blob.Length && s0.rd1 <= s0.wr <= |b0|
      requires 0 < n <= |s0.tail| == s0.wr - s0.rd1 && s0.end.Waiting?
      requires s1 == s0.(pending := Answers(s0.pending, [s0.tail[..n]]))
      requires Bare(State()) == Bare(s1.(wr := wr, tail := s0.tail[n..]))
      requires blob[..rd1] == b0[..rd1] && blob[s0.wr..] == b0[s0.wr..]
      ensures Reached(s0, b0, Turn(s0.tail, Reply(n), clock, s0.tick))
    {
    }

    /** A stream packet of declared length n with a good header. */
    method TakeStreamPacket(ghost s0: Rx, ghost b0: seq<byte>, n: nat, clock: Clock) returns (goOn: bool, ghost s: Step)
      requires At(s0, b0) && end.Waiting? && HEADER_SIZE <= |s0.tail| && n > 0
      modifies blob, this`rd1, this`wr, this`tick, this`end
      ensures InBounds() && s == OnStream(sum, s0.tail, n, s0.on, s0.cap - s0.rd1) && goOn == s.GoesOn()
      ensures Reached(s0, b0, Turn(s0.tail, s, clock, s0.tick))
    {
      if n > STREAM_MAX_SIZE {
        goOn, s := Resynchronise(s0, b0, clock);
      } else if n <= wr - rd1 {
        if on {
          goOn, s := TakeStream(s0, b0, n, clock);
        } else {
          goOn, s := true, Skip(n);
          SkipStream(s0, b0, n, clock);
        }
      } else {
        goOn, s := false, Wait(0);
        Shortened(s0, b0, 0);
      }
    }

    /** Any other packet with a good header; of a complete one, its length. */
    method TakeCommand(ghost s0: Rx, ghost b0: seq<byte>, ghost clock: Clock)
      returns (goOn: bool, reply: nat, ghost s: Step)
      requires At(s0, b0) && end.Waiting? && HEADER_SIZE <= |s0.tail|
      modifies this`end
      ensures s == OnCommand(s0.tail) && goOn == s.GoesOn() && reply == if s.Reply? then s.n else 0
      ensures InBounds() && Turned(s0, b0, s, clock)
    {
      var c := CommandLength(blob[rd1..wr]);
      if c == 0 {
        goOn, reply, s := false, 0, Spin;
        Halt(s0, b0, Spinning, s, clock);
      } else if c <= wr - rd1 {
        goOn, reply, s := true, c, Reply(c);
      } else {
        goOn, reply, s := false, 0, Wait(0);
        Shortened(s0, b0, 0);
      }
    }

    /** The step has been taken, except that a reply packet still waits to be handed over. */
    ghost predicate Turned(s0: Rx, b0: seq<byte>, s: Step, clock: Clock)
      requires InBounds()
      requires s.Wait? ==> s.skip <= |s0.tail|
      requires s.GoesOn() ==> 0 < s.n <= |s0.tail|
      reads this, blob, pool
    {
      if s.Reply? then At(s0, b0) && end.Waiting? else Reached(s0, b0, Turn(s0.tail, s, clock, s0.tick))
    }

    /** A packet with a good header. */
    method TakePacket(ghost s0: Rx, ghost b0: seq<byte>, clock: Clock) returns (goOn: bool, reply: nat, ghost s: Step)
      requires At(s0, b0) && end.Waiting? && HEADER_SIZE <= |s0.tail|
      modifies blob, this`rd1, this`wr, this`tick, this`end
      ensures s == OnPacket(sum, s0.tail, s0.on, s0.cap - s0.rd1)
      ensures goOn == s.GoesOn() && reply == if s.Reply? then s.n else 0
      ensures InBounds() && Turned(s0, b0, s, clock)
    {
      var n := StreamLength(blob[rd1..wr]);
      if n != 0 {
        reply := 0;
        goOn, s := TakeStreamPacket(s0, b0, n, clock);
      } else {
        goOn, reply, s := TakeCommand(s0, b0, clock);
      }
    }

    /** Eight bytes or more are there: a packet, or garbage. */
    method TakeHeader(ghost s0: Rx, ghost b0: seq<byte>, clock: Clock) returns (goOn: bool, reply: nat, ghost s: Step)
      requires At(s0, b0) && end.Waiting? && HEADER_SIZE <= |s0.tail|
      modifies blob, this`rd1, this`wr, this`tick, this`end
      ensures s == if HeaderAt(sum, s0.tail, 0) then OnPacket(sum, s0.tail, s0.on, s0.cap - s0.rd1)
                   else Resync(sum, s0.tail)
      ensures goOn == s.GoesOn() && reply == if s.Reply? then s.n else 0
      ensures InBounds() && Turned(s0, b0, s, clock)
    {
      var ok := HeaderHere(blob, rd1, wr, rd1, sum);
      if ok {
        goOn, reply, s := TakePacket(s0, b0, clock);
      } else {
        reply := 0;
        goOn, s := Resynchronise(s0, b0, clock);
      }
    }

    /** The body of the loop, up to the handing over of a reply packet of the length returned. */
    method TakeFront(ghost s0: Rx, ghost b0: seq<byte>, clock: Clock) returns (goOn: bool, reply: nat, ghost s: Step)
      requires At(s0, b0) && end.Waiting?
      modifies blob, this`rd1, this`wr, this`tick, this`end
      ensures s == Next(sum, s0.tail, s0.on, s0.cap - s0.rd1)
      ensures goOn == s.GoesOn() && reply == if s.Reply? then s.n else 0
      ensures InBounds() && Turned(s0, b0, s, clock)
    {
      if wr - rd1 >= HEADER_SIZE {
        goOn, reply, s := TakeHeader(s0, b0, clock);
      } else {
        goOn, reply, s := false, 0, Wait(0);
        Shortened(s0, b0, 0);
      }
    }

    // ----- the loop -----

    /** parse is the parse, for proofs that need not look inside it. */
    ghost predicate IsParse(parse: Parser, clock: Clock) {
      forall u, on: bool, room: nat, tick: nat {:trigger Parse(sum, u, on, room, clock, tick)} ::
        parse(u, on, room, tick) == Parse(sum, u, on, room, clock, tick)
    }

    /** Halfway through the loop that started in s0: what it has done so far is acc. */
    ghost predicate Halfway(s0: Rx, b0: seq<byte>, acc: Parsed, goOn: bool, parse: Parser)
      requires InBounds()
      reads this, blob, pool
    {
      && Reached(s0, b0, acc) && acc.rest == Tail() && (goOn ==> end.Waiting?)
      && ParseOf(parse, s0) == if goOn then Join(acc, ParseOf(parse, State())) else acc
    }

    /** The loop of netcom_readcb. */
    method ParseLoop(ghost s0: Rx, ghost b0: seq<byte>, clock: Clock, ghost parse: Parser)
      requires Valid() && At(s0, b0) && end.Waiting? && IsParse(parse, clock)
      modifies blob, this`rd1, this`wr, this`tick, this`end, pool.World()
      ensures pool.clients == old(pool.clients) && pool.book == old(pool.book) && (old(pool.Told()) ==> pool.Told())
      ensures Valid() && Reached(s0, b0, ParseOf(parse, s0))
    {
      ghost var acc := Parsed([], [], s0.tail, Waiting, s0.tick, 0);
      var goOn := true;
      JoinEmpty(ParseOf(parse, s0), s0.tail, s0.tick);
      while goOn && wr != rd1
        invariant Valid() && Halfway(s0, b0, acc, goOn, parse)
        invariant pool.clients == old(pool.clients) && pool.book == old(pool.book) && (old(pool.Told()) ==> pool.Told())
        decreases goOn, wr - rd1
      {
        goOn, acc := LoopTurn(s0, b0, acc, clock, parse);
      }
      if goOn {
        NothingLeft(s0, b0, acc, clock, parse);
      }
    }

    method LoopTurn(ghost s0: Rx, ghost b0: seq<byte>, ghost acc: Parsed, clock: Clock, ghost parse: Parser)
      returns (goOn: bool, ghost next: Parsed)
      requires Valid() && Halfway(s0, b0, acc, true, parse) && IsParse(parse, clock)
      modifies blob, this`rd1, this`wr, this`tick, this`end, pool.World()
      ensures pool.clients == old(pool.clients) && pool.book == old(pool.book) && (old(pool.Told()) ==> pool.Told())
      ensures Valid() && Halfway(s0, b0, next, goOn, parse)
      ensures goOn ==> wr - rd1 < old(wr - rd1)
    {
      ghost var s1, b1 := State(), blob[..];
      ghost var t;
      goOn, t := TurnAndParse(s1, b1, clock, parse);
      FieldsAfter(s1, State(), t);
      ParseAfter(s1, State(), goOn, t, parse);
      ParsingJoin(s0, s1, State(), acc, t);
      KeptJoin(b0, b1, blob[..], s0.rd1, s0.wr, s1.rd1, s1.wr, acc, t);
      JoinAssociative(acc, t, ParseOf(parse, State()));
      next := Join(acc, t);
    }

    /** One turn, and what it means for the parse. */
    method TurnAndParse(ghost s1: Rx, ghost b1: seq<byte>, clock: Clock, ghost parse: Parser)
      returns (goOn: bool, ghost t: Parsed)
      requires Valid() && At(s1, b1) && end.Waiting? && IsParse(parse, clock)
      modifies blob, this`rd1, this`wr, this`tick, this`end, pool.World()
      ensures pool.clients == old(pool.clients) && pool.book == old(pool.book) && (old(pool.Told()) ==> pool.Told())
      ensures Valid() && Reached(s1, b1, t)
      ensures goOn ==> |t.rest| < |s1.tail| && t.end.Waiting?
      ensures OneTurn(s1, parse, goOn, t)
    {
      var reply;
      goOn, reply, t := FrontHere(s1, b1, clock, parse);
      if reply != 0 {
        TakeReply(s1, b1, reply, clock);
      }
    }

    method FrontHere(ghost s1: Rx, ghost b1: seq<byte>, clock: Clock, ghost parse: Parser)
      returns (goOn: bool, reply: nat, ghost t: Parsed)
      requires Valid() && At(s1, b1) && end.Waiting? && IsParse(parse, clock)
      modifies blob, this`rd1, this`wr, this`tick, this`end
      ensures Valid() && (old(pool.Told()) ==> pool.Told())
      ensures Fronted(s1, b1, clock, parse, goOn, reply, t)
    {
      goOn, reply, t := FrontAndParse(s1, b1, clock, parse);
    }

    /** The parse is t, and then, if the loop goes on, the parse of what t leaves. */
    ghost predicate OneTurn(s1: Rx, parse: Parser, goOn: bool, t: Parsed) {
      && s1.rd1 <= s1.cap
      && parse(s1.tail, s1.on, s1.cap - s1.rd1, s1.tick) ==
         if goOn then Join(t, parse(t.rest, s1.on, Less(s1.cap - s1.rd1, |t.committed|), t.tick)) else t
    }

    /** One turn is done, except for handing over a reply of the given size, if there is one. */
    ghost predicate Fronted(s1: Rx, b1: seq<byte>, clock: Clock, parse: Parser, goOn: bool, reply: nat, t: Parsed)
      requires InBounds()
      reads this, blob, pool
    {
      && (goOn ==> |t.rest| < |s1.tail| && t.end.Waiting?)
      && (if reply == 0 then Reached(s1, b1, t)
          else At(s1, b1) && end.Waiting? && reply <= |s1.tail| && ReplyPacket(s1.tail[..reply])
               && t == Turn(s1.tail, Reply(reply), clock, s1.tick))
      && OneTurn(s1, parse, goOn, t)
    }

    method FrontAndParse(ghost s1: Rx, ghost b1: seq<byte>, clock: Clock, ghost parse: Parser)
      returns (goOn: bool, reply: nat, ghost t: Parsed)
      requires At(s1, b1) && end.Waiting? && IsParse(parse, clock)
      modifies blob, this`rd1, this`wr, this`tick, this`end
      ensures InBounds() && Fronted(s1, b1, clock, parse, goOn, reply, t)
    {
      ghost var s;
      goOn, reply, s := TakeFront(s1, b1, clock);
      t := TurnFacts(s1, s, clock, parse);
    }

    lemma TurnFacts(s1: Rx, s: Step, clock: Clock, parse: Parser) returns (t: Parsed)
      requires IsParse(parse, clock) && s1.rd1 <= s1.cap
      requires s == Next(sum, s1.tail, s1.on, s1.cap - s1.rd1)
      ensures t == Turn(s1.tail, s, clock, s1.tick)
      ensures s.GoesOn() ==> |t.rest| < |s1.tail| && t.end.Waiting?
      ensures s.Reply? ==> ReplyPacket(s1.tail[..s.n])
      ensures OneTurn(s1, parse, s.GoesOn(), t)
    {
      t := Turn(s1.tail, s, clock, s1.tick);
      ParseUnfoldOn(s1.tail, s1.on, s1.cap - s1.rd1, s1.tick, s, t, clock, parse);
    }

    lemma NothingLeft(s0: Rx, b0: seq<byte>, acc: Parsed, clock: Clock, parse: Parser)
      requires InBounds() && Halfway(s0, b0, acc, true, parse) && IsParse(parse, clock) && wr == rd1
      ensures acc == ParseOf(parse, s0)
    {
      assert Tail() == [];
      EmptyParse(on, blob.Length - rd1, tick, clock, parse);
    }

    lemma EmptyParse(on: bool, room: nat, tick: nat, clock: Clock, parse: Parser)
      requires IsParse(parse, clock)
      ensures parse([], on, room, tick) == Parsed([], [], [], Waiting, tick, 0)
    {
      assert parse([], on, room, tick) == Parse(sum, [], on, room, clock, tick);
    }

    /** The parse is one turn, then the parse of what it leaves. */
    lemma ParseUnfoldOn(u: seq<byte>, on: bool, room: nat, tick: nat, s: Step, t: Parsed, clock: Clock, parse: Parser)
      requires IsParse(parse, clock)
      requires s == Next(sum, u, on, room) && t == Turn(u, s, clock, tick)
      ensures parse(u, on, room, tick) ==
        if s.GoesOn() then Join(t, parse(t.rest, on, Less(room, |t.committed|), t.tick)) else t
    {
      ParseStep(sum, u, on, room, clock, tick, s, t);
    }

    // ----- netcom_readcb -----

    method DropInput(ghost s0: Rx, ghost b0: seq<byte>)
      requires At(s0, b0)
      modifies this`wr
      ensures At(Drop(s0), b0)
    {
      wr := rd1;
    }

    method ResetCursors(ghost s0: Rx, ghost b0: seq<byte>)
      requires At(s0, b0)
      modifies this`rd1, this`rd2, this`wr, this`end1, this`error
      ensures At(Reset(s0), b0)
    {
      rd1, rd2, wr, end1 := 0, 0, 0, 0;
      error := false;
    }

    /** The unparsed tail moves to the start of the buffer.  As long as it ends at or below the consumer, no unread
        byte is overwritten. */
    method Rewind(ghost s0: Rx, ghost b0: seq<byte>)
      requires At(s0, b0)
      modifies blob, this`rd1, this`wr, this`end1
      ensures InBounds() && Bare(State()) == Bare(Rewound(s0))
      ensures s0.wr - s0.rd1 < s0.rd2 <= s0.rd1 ==> State() == Rewound(s0)
      ensures SameFrom(b0, blob[..], wr)
    {
      MoveDown(blob, 0, rd1, wr - rd1);
      wr := wr - rd1;
      end1 := rd1;
      rd1 := 0;
      RewoundUnread(b0, blob[..], s0.rd1, s0.rd2, s0.wr, wr);
    }

    /** The part of the callback before it reads. */
    method MakeRoomHere(ghost s0: Rx, ghost b0: seq<byte>) returns (ready: bool)
      requires At(s0, b0)
      modifies blob, this`rd1, this`rd2, this`wr, this`end1, this`error
      ensures InBounds() && ready == MakeRoom(s0).Ready? && Bare(State()) == Bare(MakeRoom(s0).s)
      ensures Sound(s0) ==> State() == MakeRoom(s0).s
      ensures if ready then SameFrom(b0, blob[..], wr) && blob[..rd1] == b0[..rd1] else blob[..] == b0
    {
      var size := blob.Length;
      ready := false;
      if error {
        ResetCursors(s0, b0);
        return;
      }
      var space := Space(wr, rd2, size);
      if space == 0 {
        DropInput(s0, b0);
        return;
      }
      ready := GoBack(s0, b0, space);
    }

    /** Near the end of the buffer the writer goes back to its start, or refuses. */
    method GoBack(ghost s0: Rx, ghost b0: seq<byte>, space: nat) returns (ready: bool)
      requires At(s0, b0) && !error && space == Space(wr, rd2, blob.Length) != 0
      modifies blob, this`rd1, this`wr, this`end1
      ensures InBounds() && ready == MakeRoom(s0).Ready? && Bare(State()) == Bare(MakeRoom(s0).s)
      ensures Sound(s0) ==> State() == MakeRoom(s0).s
      ensures if ready then SameFrom(b0, blob[..], wr) && blob[..rd1] == b0[..rd1] else blob[..] == b0
    {
      var size := blob.Length;
      ready := false;
      if wr > size - MARGIN {
        if space > wr - rd1 + MARGIN {
          Rewind(s0, b0);
        } else {
          DropInput(s0, b0);
          return;
        }
      }
      ready := true;
    }

    /** The same on a valid object. */
    method MakeRoomValid(ghost s0: Rx, ghost b0: seq<byte>) returns (ready: bool)
      requires Valid() && At(s0, b0)
      modifies blob, this`rd1, this`rd2, this`wr, this`end1, this`error
      ensures Valid() && (old(pool.Told()) ==> pool.Told())
      ensures ready == MakeRoom(s0).Ready? && Bare(State()) == Bare(MakeRoom(s0).s)
      ensures Sound(s0) ==> State() == MakeRoom(s0).s
      ensures if ready then SameFrom(b0, blob[..], wr) && blob[..rd1] == b0[..rd1] else blob[..] == b0
    {
      ready := MakeRoomHere(s0, b0);
    }

    /** bufferevent_read: as many of the waiting bytes as the limit admits. */
    method Fill(ghost s0: Rx, ghost b0: seq<byte>, input: seq<byte>) returns (left: seq<byte>)
      requires At(s0, b0)
      modifies blob, this`wr
      ensures InBounds() && left == input[Taken(s0, input)..] && Filled(b0, blob[..], s0.wr, input, Taken(s0, input))
      ensures Bare(State()) == Bare(WithInput(s0, input, Taken(s0, input)))
    {
      var n := ReadSize(wr, rd2, blob.Length, |input|);
      CopyIn(blob, wr, input, n);
      TailFilled(b0, blob[..], rd1, wr, input, n);
      wr := wr + n;
      left := input[n..];
    }

    /** netcom_readcb: the cursors, the tail and the pending commands always follow the model; the unread bytes do so
        while the bytes read, and the stamps, stay clear of the consumer.  In any case the bytes below rd1_off, and
        those from where reading and stamping end, stay as they are; and each issuer is told of its own completions
        only. */
    method ReadCallback(input: seq<byte>, clock: Clock) returns (left: seq<byte>)
      requires Valid() && end.Waiting?
      modifies this`rd1, this`rd2, this`wr, this`end1, this`error, this`tick, this`end, blob, pool.World()
      ensures pool.clients == old(pool.clients) && pool.book == old(pool.book) && (old(pool.Told()) ==> pool.Told())
      ensures Valid()
      ensures Bare(State()) == Bare(Callback(sum, old(State()), input, clock).0)
      ensures left == Callback(sum, old(State()), input, clock).1
      ensures var s := old(State());
              Unharmed(sum, s, input, clock) ==> State() == Callback(sum, s, input, clock).0
      ensures var m := MakeRoom(old(State()));
              if m.Refused? then blob[..] == old(blob[..])
              else
                var n := Taken(m.s, input);
                var r := ParseTail(sum, m.s, m.s.tail + input[..n], clock);
                Beside(old(blob[..]), blob[..], m.s.rd1, Touched(m.s, n, r))
    {
      ghost var s0, b0, parse := State(), blob[..], TheParse(clock);
      var ready := MakeRoomValid(s0, b0);
      if !ready {
        return [];
      }
      ghost var m, s1, b1 := MakeRoom(s0).s, State(), blob[..];
      ghost var r;
      left, r := Absorb(m, s1, b1, input, clock, parse);
      CallbackIs(s0, input, clock, parse, r);
      BesideJoin(b0, b1, blob[..], m, Taken(m, input), r);
    }

    /** Read and parse, in a state s1 that agrees with m except perhaps for the unread bytes. */
    method Absorb(ghost m: Rx, ghost s1: Rx, ghost b1: seq<byte>, input: seq<byte>, clock: Clock, ghost parse: Parser)
      returns (left: seq<byte>, ghost r: Parsed)
      requires Valid() && At(s1, b1) && end.Waiting? && IsParse(parse, clock) && Bare(s1) == Bare(m)
      modifies blob, this`rd1, this`wr, this`tick, this`end, pool.World()
      ensures pool.clients == old(pool.clients) && pool.book == old(pool.book) && (old(pool.Told()) ==> pool.Told())
      ensures Valid() && left == input[Taken(m, input)..]
      ensures r == parse(m.tail + input[..Taken(m, input)], m.on, Less(m.cap, m.rd1), m.tick)
      ensures Bare(State()) == Bare(Parsing(m, r))
      ensures s1 == m && Clear(m, input, r) ==> State() == Parsing(m, r)
      ensures Beside(b1, blob[..], m.rd1, Touched(m, Taken(m, input), r))
    {
      ghost var s2, b2;
      left, r, s2, b2 := FillAndParse(m, s1, b1, input, clock, parse);
      if s1 == m && Clear(m, input, r) {
        UnreadKept(m, b1, b2, blob[..], input, Taken(m, input), s2.wr, r, rd1);
      }
      BesideOf(b1, b2, blob[..], m, input, Taken(m, input), s2.wr, r);
    }

    /** bufferevent_read on a valid object. */
    method FillHere(ghost s1: Rx, ghost b1: seq<byte>, input: seq<byte>) returns (left: seq<byte>)
      requires Valid() && At(s1, b1)
      modifies blob, this`wr
      ensures Valid() && (old(pool.Told()) ==> pool.Told())
      ensures left == input[Taken(s1, input)..] && Filled(b1, blob[..], s1.wr, input, Taken(s1, input))
      ensures Bare(State()) == Bare(WithInput(s1, input, Taken(s1, input)))
    {
      left := Fill(s1, b1, input);
    }

    method FillAndParse(ghost m: Rx, ghost s1: Rx, ghost b1: seq<byte>, input: seq<byte>, clock: Clock,
                        ghost parse: Parser)
      returns (left: seq<byte>, ghost r: Parsed, ghost s2: Rx, ghost b2: seq<byte>)
      requires Valid() && At(s1, b1) && end.Waiting? && IsParse(parse, clock) && Bare(s1) == Bare(m)
      modifies blob, this`rd1, this`wr, this`tick, this`end, pool.World()
      ensures pool.clients == old(pool.clients) && pool.book == old(pool.book) && (old(pool.Told()) ==> pool.Told())
      ensures Valid() && left == input[Taken(m, input)..]
      ensures r == parse(m.tail + input[..Taken(m, input)], m.on, Less(m.cap, m.rd1), m.tick)
      ensures Bare(State()) == Bare(Parsing(m, r))
      ensures Bare(s2) == Bare(WithInput(s1, input, Taken(m, input)))
      ensures Filled(b1, b2, m.wr, input, Taken(m, input)) && Kept(b2, blob[..], s2.rd1, s2.wr, r)
    {
      ghost var n := Taken(m, input);
      left := FillHere(s1, b1, input);
      s2, b2 := State(), blob[..];
      ParseLoop(s2, b2, clock, parse);
      r := ParseOf(parse, s2);
      SameCallback(m, s1, s2, State(), input, n, r);
    }

    lemma CallbackIs(s0: Rx, input: seq<byte>, clock: Clock, parse: Parser, r: Parsed)
      requires s0.cap > 0 && IsParse(parse, clock) && MakeRoom(s0).Ready?
      requires var m := MakeRoom(s0).s;
               r == parse(m.tail + input[..Taken(m, input)], m.on, Less(m.cap, m.rd1), m.tick)
      ensures var m := MakeRoom(s0).s;
              && Callback(sum, s0, input, clock) == (Parsing(m, r), input[Taken(m, input)..])
              && (Unharmed(sum, s0, input, clock) ==> Clear(m, input, r))
              && r == ParseTail(sum, m, m.tail + input[..Taken(m, input)], clock)
    {
      var m := MakeRoom(s0).s;
      var u := m.tail + input[..Taken(m, input)];
      assert r == Parse(sum, u, m.on, Less(m.cap, m.rd1), clock, m.tick);
      assert r == ParseTail(sum, m, u, clock);
    }

    ghost function TheParse(clock: Clock): (parse: Parser)
      ensures IsParse(parse, clock)
    {
      (u: seq<byte>, on: bool, room: nat, tick: nat) => Parse(sum, u, on, room, clock, tick)
    }

    // ----- the other operations -----

    /** l0006_netcom_stop: reception off, everything unread is given up. */
    method Stop()
      requires Valid()
      modifies this`on, this`rd2
      ensures Valid() && State() == old(State()).(on := false, rd2 := rd1, unread := [])
    {
      on := false;
      rd2 := rd1;
    }

    /** l0006_netcom_start */
    method Start()
      requires Valid()
      modifies this`on
      ensures Valid() && State() == old(State()).(on := true)
    {
      on := true;
    }

    /** netcom_eventcb: up is BEV_EVENT_CONNECTED, down one of BEV_EVENT_ERROR and BEV_EVENT_EOF. */
    method EventCallback(up: bool, down: bool)
      requires Valid()
      modifies this`connected
      ensures Valid() && State() == old(State()).(connected := up || (old(connected) && !down))
    {
      if up {
        connected := true;
      } else if down {
        connected := false;
      }
    }

    /** Whoever finds the buffer damaged sets its error flag. */
    method Condemn()
      requires Valid()
      modifies this`error
      ensures Valid() && State() == old(State()).(error := true)
    {
      error := true;
    }

    /** The consumer takes k bytes at rd2_off. */
    method Consume(k: nat) returns (data: seq<byte>)
      requires Valid() && k <= (if rd2 <= rd1 then rd1 - rd2 else end1 - rd2)
      modifies this`rd2
      ensures Valid() && k <= |old(Unread())| && data == old(Unread())[..k]
      ensures State() == old(State()).(rd2 := rd2, unread := old(Unread())[k..]) && rd2 == old(rd2) + k
    {
      ghost var b0, from := blob[..], rd2;
      ConsumedUnread(b0, rd1, from, end1, k);
      data := blob[rd2..rd2 + k];
      rd2 := rd2 + k;
      assert Unread() == UnreadIn(b0, rd1, from, end1)[k..];
    }

    /** The consumer, having reached rd1_end, goes on at the start of the buffer. */
    method WrapConsumer()
      requires Valid() && MayWrap(State())
      modifies this`rd2
      ensures Valid() && State() == old(State()).(rd2 := 0)
    {
      rd2 := 0;
    }

    /** l0006_netcom_getseqno: the counter is a byte. */
    method GetSeqno() returns (r: byte)
      requires Valid()
      modifies this`seqno, this`issued
      ensures Valid() && issued == old(issued) + 1
      ensures r == Pending.Seqno(old(issued)) && State() == old(State()).(issued := issued)
    {
      r := seqno;
      seqno := seqno + 1;
      issued := issued + 1;
    }

    /** l0006_netcom_write */
    method Write(req: Pending.Request, caller: Caller, now: Timespec, bev: bool, sent: bool,
                 ack: bool) returns (ret: int)
      requires Valid()
      modifies pool.Repr()
      ensures Valid()
      ensures pool.clients == old(pool.clients) || pool.clients == old(pool.clients) + {caller, caller.task}
      ensures old(pool.Told()) ==> pool.Told()
      ensures pool.book.issuers == old(pool.book.issuers) + (if pool.state == old(pool.state) then [] else [caller])
      ensures var (q, r) := Pending.Write(old(pool.state), req, now, connected, bev, sent, ack);
              ret == r && State() == old(State()).(pending := q)
      ensures ret == if connected && |old(pool.state.queue)| < 16 && bev && sent then 0 else -1
      ensures ret == 0 && ack ==>
                && pool.state.queue == old(pool.state.queue) + [Pending.Entry(old(pool.state.accepted), req, now)]
                && pool.state.accepted == old(pool.state.accepted) + 1 && pool.state.done == old(pool.state.done)
      ensures ret != 0 || !ack ==> pool.state == old(pool.state)
    {
      ret := pool.Write(req, caller, now, connected, bev, sent, ack);
    }

    /** netcom_timeoutcb */
    method Timeout(now: Timespec)
      requires Valid()
      modifies pool.World()
      ensures pool.clients == old(pool.clients) && pool.book == old(pool.book) && (old(pool.Told()) ==> pool.Told())
      ensures Valid() && State() == old(State()).(pending := Pending.Expire(old(pool.state), now))
    {
      pool.Timeout(now);
    }
  }

  /** The bytes read, and the stamps, stay clear of the consumer. */
  ghost predicate Clear(m: Rx, input: seq<byte>, r: Parsed)
    requires m.cap > 0
  {
    Intact(m) && Taken(m, input) <= Gap(m.wr, m.rd2, m.cap) && StampsClear(m, r)
  }

  lemma UnreadKept(m: Rx, b1: seq<byte>, b2: seq<byte>, b3: seq<byte>, input: seq<byte>, n: nat, w: nat, r: Parsed,
                   k: nat)
    requires Intact(m) && n <= Gap(m.wr, m.rd2, m.cap) && StampsClear(m, r)
    requires w == m.wr + n && k == m.rd1 + |r.committed|
    requires |b1| == m.cap && Filled(b1, b2, m.wr, input, n) && Kept(b2, b3, m.rd1, w, r)
    ensures UnreadIn(b3, k, m.rd2, m.end1) == UnreadIn(b1, m.rd1, m.rd2, m.end1) + r.committed
  {
    SameBelow(b1, b2, m.wr, 0, m.rd1);
    if m.rd2 <= m.rd1 {
      assert b3[m.rd2..k] == b3[m.rd2..m.rd1] + b3[m.rd1..k];
      SameBelow(b1, b2, m.wr, m.rd2, m.rd1);
      SameBelow(b2, b3, m.rd1, m.rd2, m.rd1);
    } else {
      SameAbove(b1, b2, w, m.rd2, m.end1);
      UpperKept(m, b2, b3, w, r);
      assert b3[..k] == b3[..m.rd1] + b3[m.rd1..k];
      assert b1[0..m.rd1] == b1[..m.rd1] && b2[0..m.rd1] == b2[..m.rd1];
    }
  }

  /** Nothing below lo and nothing from hi on has changed. */
  ghost predicate Beside(b: seq<byte>, c: seq<byte>, lo: nat, hi: nat) {
    lo <= |b| && SameFrom(b, c, hi) && c[..lo] == b[..lo]
  }

  lemma BesideOf(b1: seq<byte>, b2: seq<byte>, b3: seq<byte>, m: Rx, input: seq<byte>, n: nat, w: nat, r: Parsed)
    requires m.rd1 <= m.wr && w == m.wr + n && Filled(b1, b2, m.wr, input, n) && Kept(b2, b3, m.rd1, w, r)
    ensures Beside(b1, b3, m.rd1, Touched(m, n, r))
  {
    SameFurther(b1, b2, b3, w, Further(w, m.rd1 + r.reach), Touched(m, n, r));
    SameBelow(b1, b2, m.wr, 0, m.rd1);
    assert b1[0..m.rd1] == b1[..m.rd1] && b2[0..m.rd1] == b2[..m.rd1];
  }

  /** Making room has changed nothing from the new wr_off on. */
  lemma BesideJoin(b0: seq<byte>, b1: seq<byte>, b3: seq<byte>, m: Rx, n: nat, r: Parsed)
    requires SameFrom(b0, b1, m.wr) && m.rd1 <= |b1| && b1[..m.rd1] == b0[..m.rd1]
    requires Beside(b1, b3, m.rd1, Touched(m, n, r))
    ensures Beside(b0, b3, m.rd1, Touched(m, n, r))
  {
    SameFurther(b0, b1, b3, m.wr, Touched(m, n, r), Touched(m, n, r));
  }

  /** Of what the consumer has left above a wrapped writer the parse changes nothing. */
  lemma UpperKept(m: Rx, b2: seq<byte>, b3: seq<byte>, w: nat, r: Parsed)
    requires Wrapped(m) && StampsClear(m, r) && w < m.rd2 && m.end1 <= |b2| && Kept(b2, b3, m.rd1, w, r)
    ensures b3[m.rd2..m.end1] == b2[m.rd2..m.end1]
  {
    if m.rd2 < m.end1 {
      SameAbove(b2, b3, Further(w, m.rd1 + r.reach), m.rd2, m.end1);
    }
  }

  lemma SameCallback(m: Rx, s1: Rx, s2: Rx, s3: Rx, input: seq<byte>, n: nat, r: Parsed)
    requires n <= |input| && Bare(s1) == Bare(m) && Bare(s2) == Bare(WithInput(s1, input, n))
    requires Bare(s3) == Bare(Parsing(s2, r))
    ensures Bare(s3) == Bare(Parsing(m, r))
  {
  }

  /** The state with the first n input bytes appended to the tail. */
  function WithInput(s: Rx, input: seq<byte>, n: nat): Rx
    requires n <= |input|
  {
    s.(wr := s.wr + n, tail := s.tail + input[..n])
  }

  /** Two outcomes one after the other. */
  lemma ParsingJoin(s0: Rx, s1: Rx, s2: Rx, t: Parsed, q: Parsed)
    requires Bare(s1) == Bare(Parsing(s0, t)) && Bare(s2) == Bare(Parsing(s1, q))
    ensures Bare(s2) == Bare(Parsing(s0, Join(t, q)))
  {
    AnswersConcat(s0.pending, t.replies, q.replies);
  }

  lemma FieldsAfter(s1: Rx, s2: Rx, t: Parsed)
    requires s1.rd1 + |t.committed| <= s1.cap && Bare(s2) == Bare(Parsing(s1, t))
    ensures s2.tail == t.rest && s2.on == s1.on && s2.tick == t.tick
    ensures Less(s2.cap, s2.rd1) == Less(s1.cap - s1.rd1, |t.committed|)
  {
  }

  lemma ParseAfter(s1: Rx, s2: Rx, goOn: bool, t: Parsed, parse: Parser)
    requires s1.rd1 + |t.committed| <= s1.cap && Bare(s2) == Bare(Parsing(s1, t))
    requires parse(s1.tail, s1.on, s1.cap - s1.rd1, s1.tick) ==
      if goOn then Join(t, parse(t.rest, s1.on, Less(s1.cap - s1.rd1, |t.committed|), t.tick)) else t
    ensures ParseOf(parse, s1) == if goOn then Join(t, ParseOf(parse, s2)) else t
  {
    FieldsAfter(s1, s2, t);
  }

  lemma OneAnswer(q: Pending.State, p: seq<byte>)
    requires ReplyPacket(p)
    ensures Answers(q, [p]) == Pending.Acknowledge(q, p)
  {
    assert [p][1..] == [];
  }

  lemma StampKeeps(b: seq<byte>, c: seq<byte>, lo: nat, k: nat, t: Timestamp)
    requires lo + STAMP_END <= k <= |b| == |c| && c[lo..] == Stamp(b[lo..], t)
    ensures SameFrom(b, c, k)
  {
    assert c[k..] == c[lo..][k - lo..] && b[k..] == b[lo..][k - lo..];
  }

  /** A stamped packet of n bytes at lo. */
  lemma CommitKeeps(b: seq<byte>, c: seq<byte>, lo: nat, hi: nat, n: nat, clock: Clock, tick: nat)
    requires |b| == |c| && lo <= hi <= |b| && 0 < n <= hi - lo && lo + STAMP_END <= |b|
    requires c[..lo] == b[..lo] && c[lo..] == Stamp(b[lo..], clock(tick))
    ensures Kept(b, c, lo, hi, Turn(b[lo..hi], Commit(n), clock, tick))
    ensures c[lo + n..hi] == Turn(b[lo..hi], Commit(n), clock, tick).rest
  {
    var u, t := b[lo..hi], clock(tick);
    assert b[lo..][..hi - lo] == u;
    StampPrefix(b[lo..], hi - lo, t);
    assert c[lo..hi] == c[lo..][..hi - lo] == Stamp(u, t);
    SliceOfSlice(c, lo, hi, 0, n);
    SliceOfSlice(c, lo, hi, n, hi - lo);
    assert Stamp(u, t)[..n] == Stamp(u, t)[0..n] && Stamp(u, t)[n..] == Stamp(u, t)[n..hi - lo];
    StampKeeps(b, c, lo, Further(hi, lo + STAMP_END), t);
  }
}
