/**
 Chunking independence of the parse: on well-formed input it does not matter where the transport cut the
 bytes, and what comes out is exactly the packets that went in.
 */
module FramesTheory {
  import opened Bytes
  import opened Netcmd
  import opened Frames

  // ----- the front packet does not depend on what follows it -----

  lemma HeaderAtGrows(sum: Checksum, u: seq<byte>, v: seq<byte>)
    requires |u| >= HEADER_SIZE
    ensures HeaderAt(sum, u + v, 0) == HeaderAt(sum, u, 0)
  {
    assert (u + v)[0..0 + HEADER_SIZE] == u[0..0 + HEADER_SIZE];
  }

  lemma FrontGrows(sum: Checksum, u: seq<byte>, v: seq<byte>)
    ensures !FrontOf(sum, u).Partial? ==> FrontOf(sum, u + v) == FrontOf(sum, u)
  {
    if |u| >= HEADER_SIZE {
      HeaderAtGrows(sum, u, v);
      var n := StreamLength(u);
      if n <= |u| {
        assert (u + v)[..n] == u[..n];
      }
    }
  }

  lemma StampSplits(u: seq<byte>, n: nat, t: Timestamp)
    requires STAMP_END <= n <= |u|
    ensures Stamp(u, t)[..n] == Stamp(u[..n], t)
    ensures Stamp(u, t)[n..] == u[n..]
  {
  }

  // ----- one turn of the loop on well-formed input -----

  function StepOnClean(sum: Checksum, u: seq<byte>, rx: bool): (s: Step)
    ensures s.Wait? ==> s.skip <= |u|
    ensures s.GoesOn() ==> 0 < s.n <= |u|
  {
    match FrontOf(sum, u)
    case Stream(n) => if rx then Commit(n) else Skip(n)
    case Command(n) => Reply(n)
    case _ => Wait(0)
  }

  lemma NextOnClean(sum: Checksum, u: seq<byte>, rx: bool, room: nat)
    requires Clean(sum, u) && room >= |u|
    ensures Next(sum, u, rx, room) == StepOnClean(sum, u, rx)
  {
  }

  /** The packet at the front, parsed: what it contributes and what the loop goes on with. */
  function After(sum: Checksum, u: seq<byte>, rx: bool, clock: Clock, tick: nat): Parsed {
    Turn(u, StepOnClean(sum, u, rx), clock, tick)
  }

  function Contribution(sum: Checksum, u: seq<byte>, rx: bool, clock: Clock, tick: nat): Parsed {
    match FrontOf(sum, u)
    case Stream(n) =>
      if rx then Parsed(Stamp(u[..n], clock(tick)), [], u[n..], Waiting, tick + 1, STAMP_END)
      else Parsed([], [], u[n..], Waiting, tick, 0)
    case Command(n) => Parsed([], [u[..n]], u[n..], Waiting, tick, 0)
    case _ => Parsed([], [], u, Waiting, tick, 0)
  }

  lemma AfterOnClean(sum: Checksum, u: seq<byte>, rx: bool, clock: Clock, tick: nat)
    requires Clean(sum, u)
    ensures After(sum, u, rx, clock, tick) == Contribution(sum, u, rx, clock, tick)
    ensures Clean(sum, After(sum, u, rx, clock, tick).rest)
  {
    assert u[0..] == u;
    match FrontOf(sum, u)
    case Stream(n) => StampSplits(u, n, clock(tick));
    case _ =>
  }

  /** The parse with all the room it can need. */
  function Whole(sum: Checksum, u: seq<byte>, rx: bool, clock: Clock, tick: nat): Parsed {
    Parse(sum, u, rx, |u|, clock, tick)
  }

  lemma StepParse(sum: Checksum, u: seq<byte>, rx: bool, room: nat, clock: Clock, tick: nat)
    requires Clean(sum, u) && room >= |u|
    ensures var a := After(sum, u, rx, clock, tick);
            && Clean(sum, a.rest)
            && |a.rest| + |a.committed| <= |u|
            && Parse(sum, u, rx, room, clock, tick) ==
               if StepOnClean(sum, u, rx).GoesOn()
               then Join(a, Parse(sum, a.rest, rx, Less(room, |a.committed|), clock, a.tick))
               else a
  {
    NextOnClean(sum, u, rx, room);
    AfterOnClean(sum, u, rx, clock, tick);
  }

  /** On well-formed input the room left in the buffer is irrelevant. */
  lemma {:induction false} RoomIrrelevant(sum: Checksum, u: seq<byte>, rx: bool, room: nat, clock: Clock, tick: nat)
    requires Clean(sum, u) && room >= |u|
    ensures Parse(sum, u, rx, room, clock, tick) == Whole(sum, u, rx, clock, tick)
    decreases |u|
  {
    StepParse(sum, u, rx, room, clock, tick);
    StepParse(sum, u, rx, |u|, clock, tick);
    if StepOnClean(sum, u, rx).GoesOn() {
      var a := After(sum, u, rx, clock, tick);
      RoomIrrelevant(sum, a.rest, rx, Less(room, |a.committed|), clock, a.tick);
      RoomIrrelevant(sum, a.rest, rx, Less(|u|, |a.committed|), clock, a.tick);
    }
  }

  /** ... and the parse takes one packet at a time. */
  lemma WholeStep(sum: Checksum, u: seq<byte>, rx: bool, clock: Clock, tick: nat)
    requires Clean(sum, u)
    ensures var a := After(sum, u, rx, clock, tick);
            && Clean(sum, a.rest)
            && Whole(sum, u, rx, clock, tick) ==
               if FrontOf(sum, u).Partial? then Parsed([], [], u, Waiting, tick, 0)
               else Join(a, Whole(sum, a.rest, rx, clock, a.tick))
  {
    StepParse(sum, u, rx, |u|, clock, tick);
    AfterOnClean(sum, u, rx, clock, tick);
    var a := After(sum, u, rx, clock, tick);
    if !FrontOf(sum, u).Partial? {
      RoomIrrelevant(sum, a.rest, rx, Less(|u|, |a.committed|), clock, a.tick);
    }
  }

  // ----- chunking independence -----

  lemma {:induction false} CleanPrefix(sum: Checksum, u: seq<byte>, v: seq<byte>)
    requires Clean(sum, u + v)
    ensures Clean(sum, u)
    decreases |u|
  {
    FrontGrows(sum, u, v);
    match FrontOf(sum, u)
    case Partial =>
    case Bad =>
    case Stream(n) =>
      CutFirst(u, v, n);
      CleanPrefix(sum, u[n..], v);
    case Command(n) =>
      CutFirst(u, v, n);
      CleanPrefix(sum, u[n..], v);
  }

  /** Parsing u, then the remainder followed by v, is parsing u + v in one go. */
  lemma {:induction false} ParseInPieces(sum: Checksum, u: seq<byte>, v: seq<byte>, rx: bool, clock: Clock, tick: nat)
    requires Clean(sum, u + v)
    ensures Clean(sum, u)
    ensures var r := Whole(sum, u, rx, clock, tick);
            && r.end.Waiting? && r.reach <= |r.committed|
            && Clean(sum, r.rest + v)
            && Whole(sum, u + v, rx, clock, tick) == Join(r, Whole(sum, r.rest + v, rx, clock, r.tick))
    decreases |u|
  {
    CleanPrefix(sum, u, v);
    if FrontOf(sum, u).Partial? {
      WholeStep(sum, u, rx, clock, tick);
      JoinEmpty(Whole(sum, u + v, rx, clock, tick), u, tick);
    } else {
      AfterGrows(sum, u, v, rx, clock, tick);
      WholeStep(sum, u, rx, clock, tick);
      WholeStep(sum, u + v, rx, clock, tick);
      var a := After(sum, u, rx, clock, tick);
      ParseInPieces(sum, a.rest, v, rx, clock, a.tick);
      var r := Whole(sum, a.rest, rx, clock, a.tick);
      PieceJoin(a, a.(rest := a.rest + v), r, Whole(sum, r.rest + v, rx, clock, r.tick));
    }
  }

  lemma PieceJoin(a: Parsed, b: Parsed, r: Parsed, q: Parsed)
    requires b == a.(rest := b.rest) && a.reach <= |a.committed| && r.reach <= |r.committed|
    ensures Join(a, r).reach <= |Join(a, r).committed|
    ensures Join(b, Join(r, q)) == Join(Join(a, r), q)
  {
    JoinAssociative(a, r, q);
  }

  lemma AfterGrows(sum: Checksum, u: seq<byte>, v: seq<byte>, rx: bool, clock: Clock, tick: nat)
    requires Clean(sum, u + v) && !FrontOf(sum, u).Partial?
    ensures !FrontOf(sum, u + v).Partial?
    ensures var a := After(sum, u, rx, clock, tick);
            && |a.rest| < |u| && a.reach <= |a.committed|
            && After(sum, u + v, rx, clock, tick) == a.(rest := a.rest + v)
  {
    FrontGrows(sum, u, v);
    CleanPrefix(sum, u, v);
    AfterOnClean(sum, u, rx, clock, tick);
    AfterOnClean(sum, u + v, rx, clock, tick);
    var n := FrontOf(sum, u).n;
    CutFirst(u, v, n);
  }

  lemma CutFirst<T>(u: seq<T>, v: seq<T>, n: nat)
    requires n <= |u|
    ensures (u + v)[..n] == u[..n] && (u + v)[n..] == u[n..] + v
  {
  }

  lemma JoinEmpty(q: Parsed, u: seq<byte>, tick: nat)
    ensures Join(Parsed([], [], u, Waiting, tick, 0), q) == q
  {
  }

  lemma JoinAssociative(a: Parsed, b: Parsed, c: Parsed)
    ensures Join(Join(a, b), c) == Join(a, Join(b, c))
  {
    assert a.committed + b.committed + c.committed == a.committed + (b.committed + c.committed);
    assert a.replies + b.replies + c.replies == a.replies + (b.replies + c.replies);
  }

  // ----- exactly the packets that were sent -----

  /** A complete well-formed packet. */
  predicate Packet(sum: Checksum, f: seq<byte>) {
    var k := FrontOf(sum, f);
    (k.Stream? || k.Command?) && k.n == |f|
  }

  predicate Packets(sum: Checksum, fs: seq<seq<byte>>) {
    forall i :: 0 <= i < |fs| ==> Packet(sum, fs[i])
  }

  /** A proper beginning of a well-formed packet, or nothing. */
  predicate Incomplete(sum: Checksum, s: seq<byte>) {
    FrontOf(sum, s).Partial?
  }

  function Streams(sum: Checksum, fs: seq<seq<byte>>, clock: Clock, tick: nat): seq<byte>
    decreases |fs|
  {
    if fs == [] then []
    else if FrontOf(sum, fs[0]).Stream? then Stamp(fs[0], clock(tick)) + Streams(sum, fs[1..], clock, tick + 1)
    else Streams(sum, fs[1..], clock, tick)
  }

  function Commands(sum: Checksum, fs: seq<seq<byte>>): seq<seq<byte>>
    decreases |fs|
  {
    if fs == [] then []
    else if FrontOf(sum, fs[0]).Stream? then Commands(sum, fs[1..])
    else [fs[0]] + Commands(sum, fs[1..])
  }

  /** With RX on: the stream packets committed in order with only their time stamps rewritten, the commands
      handed over in order, the incomplete packet kept. */
  lemma {:induction false} ExactlyThePackets(sum: Checksum, fs: seq<seq<byte>>, s: seq<byte>, clock: Clock, tick: nat)
    requires Packets(sum, fs) && Incomplete(sum, s)
    ensures Clean(sum, Flatten(fs) + s)
    ensures var r := Whole(sum, Flatten(fs) + s, true, clock, tick);
            && r.committed == Streams(sum, fs, clock, tick)
            && r.replies == Commands(sum, fs)
            && r.rest == s && r.end.Waiting? && r.reach <= |r.committed|
    decreases |fs|
  {
    var u := Flatten(fs) + s;
    if fs == [] {
      assert u == s;
      WholeStep(sum, u, true, clock, tick);
    } else {
      var f, v := fs[0], Flatten(fs[1..]) + s;
      assert u == f + v;
      var t := if FrontOf(sum, f).Stream? then tick + 1 else tick;
      ExactlyThePackets(sum, fs[1..], s, clock, t);
      PacketFirst(sum, f, v, clock, tick);
    }
  }

  lemma PacketFirst(sum: Checksum, f: seq<byte>, v: seq<byte>, clock: Clock, tick: nat)
    requires Packet(sum, f) && Clean(sum, v)
    ensures Clean(sum, f + v)
    ensures Whole(sum, f + v, true, clock, tick) ==
      if FrontOf(sum, f).Stream?
      then Join(Parsed(Stamp(f, clock(tick)), [], v, Waiting, tick + 1, STAMP_END), Whole(sum, v, true, clock, tick
           + 1))
      else Join(Parsed([], [f], v, Waiting, tick, 0), Whole(sum, v, true, clock, tick))
  {
    var u := f + v;
    FrontGrows(sum, f, v);
    assert u[..|f|] == f && u[|f|..] == v;
    WholeStep(sum, u, true, clock, tick);
    AfterOnClean(sum, u, true, clock, tick);
  }

  /** Conversely, well-formed input is a run of packets and an incomplete one. */
  lemma {:induction false} CleanIsPackets(sum: Checksum, u: seq<byte>) returns (fs: seq<seq<byte>>, s: seq<byte>)
    requires Clean(sum, u)
    ensures Packets(sum, fs) && Incomplete(sum, s) && u == Flatten(fs) + s
    decreases |u|
  {
    if FrontOf(sum, u).Partial? {
      fs, s := [], u;
    } else {
      var n := FrontOf(sum, u).n;
      var f, v := u[..n], u[n..];
      assert u == f + v;
      FrontOfPacket(sum, u, n);
      var gs;
      gs, s := CleanIsPackets(sum, v);
      fs := [f] + gs;
      assert fs[1..] == gs;
      assert Flatten(fs) + s == f + (Flatten(gs) + s);
    }
  }

  lemma FrontOfPacket(sum: Checksum, u: seq<byte>, n: nat)
    requires (FrontOf(sum, u).Stream? || FrontOf(sum, u).Command?) && FrontOf(sum, u).n == n
    ensures FrontOf(sum, u[..n]) == FrontOf(sum, u)
  {
    HeaderAtGrows(sum, u[..n], u[n..]);
    assert u[..n] + u[n..] == u;
    assert u[..n][..n] == u[..n];
  }

  // ----- input that is not well formed -----

  /** Resynchronisation looks eight bytes ahead, so behind garbage the cut points do matter: for every command
      header there is an input from which the parse recovers it in one go and loses it in two. */
  lemma GarbageBreaksChunking(sum: Checksum, h: seq<byte>, rx: bool, clock: Clock, tick: nat)
    requires |h| == HEADER_SIZE && ValidHeader(sum, h) && CommandLength(h) == HEADER_SIZE
    ensures var g := seq(16, _ => 0); var u, v := g + h[..1], h[1..] + [0];
            var first := Whole(sum, u, rx, clock, tick);
            var second := Whole(sum, first.rest + v, rx, clock, first.tick);
            && Whole(sum, u + v, rx, clock, tick).replies == [h]
            && first.replies + second.replies == []
  {
    var g: seq<byte> := seq(16, _ => 0);
    var u, v := g + h[..1], h[1..] + [0];
    assert u + v == g + h + [0];
    RecoveredInOneGo(sum, g, h, rx, clock, tick);
    LostInTwo(sum, g, h, rx, clock, tick);
  }

  lemma RecoveredInOneGo(sum: Checksum, g: seq<byte>, h: seq<byte>, rx: bool, clock: Clock, tick: nat)
    requires |g| == 16 && forall i :: 0 <= i < 16 ==> g[i] == 0
    requires |h| == HEADER_SIZE && ValidHeader(sum, h) && CommandLength(h) == HEADER_SIZE
    ensures Whole(sum, g + h + [0], rx, clock, tick).replies == [h]
  {
    var w := g + h + [0];
    forall k | 0 <= k < 16 ensures !HeaderAt(sum, w, k) {
      assert w[k..k + HEADER_SIZE][0] == 0;
    }
    assert w[16..16 + HEADER_SIZE] == h;
    assert !HeaderAt(sum, w, 0) && HeaderAt(sum, w, 16);
    assert Scan(sum, w, HEADER_SIZE) == 16;
    assert Next(sum, w, rx, |w|) == Skip(16);
    var x := w[16..];
    assert x[..HEADER_SIZE] == h && x[0..0 + HEADER_SIZE] == h;
    assert Next(sum, x, rx, |w|) == Reply(HEADER_SIZE);
    var y := x[HEADER_SIZE..];
    assert Next(sum, y, rx, |w|) == Wait(0);
    assert Parse(sum, y, rx, |w|, clock, tick).replies == [];
    assert Parse(sum, x, rx, |w|, clock, tick).replies == [h];
  }

  lemma LostInTwo(sum: Checksum, g: seq<byte>, h: seq<byte>, rx: bool, clock: Clock, tick: nat)
    requires |g| == 16 && forall i :: 0 <= i < 16 ==> g[i] == 0
    requires |h| == HEADER_SIZE && ValidHeader(sum, h)
    ensures var first := Whole(sum, g + h[..1], rx, clock, tick);
            && first.replies == []
            && Whole(sum, first.rest + (h[1..] + [0]), rx, clock, first.tick).replies == []
  {
    var u := g + h[..1];
    assert !HeaderAt(sum, u, 0) && !HeaderAt(sum, u, 8) by {
      assert u[0..0 + HEADER_SIZE][0] == 0 && u[8..8 + HEADER_SIZE][0] == 0;
    }
    assert Scan(sum, u, HEADER_SIZE) == 9;
    assert Next(sum, u, rx, |u|) == Wait(9);
    var z := u[9..] + (h[1..] + [0]);
    assert !HeaderAt(sum, z, 0) by {
      assert z[0..0 + HEADER_SIZE][0] == 0;
    }
    assert Scan(sum, z, HEADER_SIZE) == 8;
    assert Next(sum, z, rx, |z|) == Wait(8);
  }
}
