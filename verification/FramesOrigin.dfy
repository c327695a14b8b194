/**
 Where the bytes the parse puts out come from, on any input, garbage included; and what more holds when no packet is
 committed that is shorter than its own time stamp.
 */
module FramesOrigin {
  import opened Buffer
  import opened Bytes
  import opened Netcmd
  import opened Frames

  predicate StreamAt(sum: Checksum, u: seq<byte>, i: nat) {
    HeaderAt(sum, u, i) && u[i + CMD] == ADDATA
  }

  function DeclaredAt(u: seq<byte>, i: nat): nat
    requires i + HEADER_SIZE <= |u|
  {
    Le16(u[i + LENGTH], u[i + LENGTH + 1])
  }

  /** No stream header anywhere in u declares a length from 12 to 15. */
  predicate NoShortStreams(sum: Checksum, u: seq<byte>) {
    forall i: nat :: i < |u| && StreamAt(sum, u, i) ==> !(STREAM_MIN_SIZE <= DeclaredAt(u, i) < STAMP_END)
  }

  lemma HeaderInSlice(sum: Checksum, u: seq<byte>, i: nat, j: nat, k: nat)
    requires i <= j <= |u| && i + k + HEADER_SIZE <= j
    ensures HeaderAt(sum, u[i..j], k) == HeaderAt(sum, u, i + k)
  {
    SliceOfSlice(u, i, j, k, k + HEADER_SIZE);
  }

  lemma NoShortSlice(sum: Checksum, u: seq<byte>, i: nat, j: nat)
    requires NoShortStreams(sum, u) && i <= j <= |u|
    ensures NoShortStreams(sum, u[i..j])
  {
    forall k: nat | StreamAt(sum, u[i..j], k)
      ensures !(STREAM_MIN_SIZE <= DeclaredAt(u[i..j], k) < STAMP_END)
    {
      HeaderInSlice(sum, u, i, j, k);
      assert StreamAt(sum, u, i + k);
    }
  }

  /** On such input a committed packet holds its own time stamp. */
  lemma CommitsAreLong(sum: Checksum, u: seq<byte>, rx: bool, room: nat)
    requires NoShortStreams(sum, u)
    ensures var s := Next(sum, u, rx, room);
            s.Commit? ==>
              s.n >= STAMP_END && StreamAt(sum, u, 0) && DeclaredAt(u, 0) == s.n && BodyMatches(sum, u[..s.n])
  {
    if Next(sum, u, rx, room).Commit? {
      assert StreamAt(sum, u, 0);
    }
  }

  predicate EndOf<T(==)>(r: seq<T>, u: seq<T>) {
    |r| <= |u| && r == u[|u| - |r|..]
  }

  /** What a step puts out and leaves of u when every committed packet holds its own time stamp. */
  predicate Puts(u: seq<byte>, s: Step, t: Parsed, clock: Clock, tick: nat) {
    && EndOf(t.rest, u) && t.reach <= |t.committed|
    && (s.GoesOn() ==> 0 < s.n <= |u| && t.rest == u[s.n..])
    && if s.Commit? then t.committed == Stamp(u[..s.n], clock(tick)) && t.replies == [] && t.tick == tick + 1
       else t.committed == [] && t.replies == (if s.Reply? then [u[..s.n]] else []) && t.tick == tick
  }

  lemma TurnPuts(sum: Checksum, u: seq<byte>, rx: bool, room: nat, clock: Clock, tick: nat)
    requires Long(Next(sum, u, rx, room))
    ensures var s := Next(sum, u, rx, room); Puts(u, s, Turn(u, s, clock, tick), clock, tick)
  {
    var s := Next(sum, u, rx, room);
    if s.Commit? {
      StampApart(u, s.n, clock(tick));
    }
  }

  lemma StampApart(u: seq<byte>, n: nat, t: Timestamp)
    requires STAMP_END <= n <= |u|
    ensures Stamp(u, t)[..n] == Stamp(u[..n], t) && Stamp(u, t)[n..] == u[n..]
  {
  }

  lemma EndOfEnd<T>(u: seq<T>, n: nat, r: seq<T>)
    requires n <= |u| && EndOf(r, u[n..])
    ensures EndOf(r, u)
  {
  }

  lemma NoShortEnd(sum: Checksum, u: seq<byte>, n: nat)
    requires NoShortStreams(sum, u) && n <= |u|
    ensures NoShortStreams(sum, u[n..])
  {
    NoShortSlice(sum, u, n, |u|);
    assert u[n..|u|] == u[n..];
  }

  /** The step commits no packet shorter than its own time stamp. */
  predicate Long(s: Step) {
    s.Commit? ==> s.n >= STAMP_END
  }

  /** No step of the parse does. */
  predicate LongCommits(sum: Checksum, u: seq<byte>, rx: bool, room: nat, clock: Clock, tick: nat)
    decreases |u|
  {
    var s := Next(sum, u, rx, room);
    var t := Turn(u, s, clock, tick);
    Long(s) && (s.GoesOn() ==> LongCommits(sum, t.rest, rx, Less(room, |t.committed|), clock, t.tick))
  }

  /** A condition on the bytes alone. */
  lemma {:induction false} NoShortIsLong(sum: Checksum, u: seq<byte>, rx: bool, room: nat, clock: Clock, tick: nat)
    requires NoShortStreams(sum, u)
    ensures LongCommits(sum, u, rx, room, clock, tick)
    decreases |u|
  {
    var s := Next(sum, u, rx, room);
    var t := Turn(u, s, clock, tick);
    CommitsAreLong(sum, u, rx, room);
    TurnPuts(sum, u, rx, room, clock, tick);
    if s.GoesOn() {
      NoShortEnd(sum, u, s.n);
      NoShortIsLong(sum, t.rest, rx, Less(room, |t.committed|), clock, t.tick);
    }
  }

  /** What is left is the end of what came in, and no time stamp reaches past what is committed. */
  lemma {:induction false} RestIsSuffix(sum: Checksum, u: seq<byte>, rx: bool, room: nat, clock: Clock, tick: nat)
    requires LongCommits(sum, u, rx, room, clock, tick)
    ensures var r := Parse(sum, u, rx, room, clock, tick); EndOf(r.rest, u) && r.reach <= |r.committed|
    decreases |u|
  {
    var s := Next(sum, u, rx, room);
    var t := Turn(u, s, clock, tick);
    TurnPuts(sum, u, rx, room, clock, tick);
    ParseStep(sum, u, rx, room, clock, tick, s, t);
    if s.GoesOn() {
      RestIsSuffix(sum, t.rest, rx, Less(room, |t.committed|), clock, t.tick);
      EndOfEnd(u, s.n, Parse(sum, t.rest, rx, Less(room, |t.committed|), clock, t.tick).rest);
    }
  }

  // ----- the packets a parse takes out of its input -----

  /** A stream packet of n bytes stands at offset at of w: good header, declared length, matching body. */
  predicate StreamPacketAt(sum: Checksum, w: seq<byte>, at: nat, n: nat) {
    at + n <= |w| && StreamAt(sum, w, at) && DeclaredAt(w, at) == n && BodyMatches(sum, w[at..at + n])
  }

  /** A command packet of n bytes stands at offset at of w. */
  predicate CommandPacketAt(sum: Checksum, w: seq<byte>, at: nat, n: nat) {
    HEADER_SIZE <= n && at + n <= |w| && HeaderAt(sum, w, at) && n == CommandLength(w[at..])
  }

  /** w once the packet at offset at has been stamped; the stamp may run into what follows the packet. */
  function StampedFrom(w: seq<byte>, at: nat, t: Timestamp): (v: seq<byte>)
    requires at <= |w|
    ensures |v| == |w| && v[..at] == w[..at] && v[at..] == Stamp(w[at..], t)
  {
    w[..at] + Stamp(w[at..], t)
  }

  /** w after the step at offset at. */
  function InputAfter(w: seq<byte>, at: nat, s: Step, clock: Clock, tick: nat): (v: seq<byte>)
    requires at <= |w|
    ensures |v| == |w|
  {
    if s.Commit? then StampedFrom(w, at, clock(tick)) else w
  }

  function Ticks(s: Step, tick: nat): nat {
    if s.Commit? then tick + 1 else tick
  }

  /** The step at offset at takes the packet that stands there, or skips bytes. */
  predicate Takes(sum: Checksum, w: seq<byte>, at: nat, s: Step) {
    && s.GoesOn() && at + s.n <= |w|
    && (s.Commit? ==> StreamPacketAt(sum, w, at, s.n))
    && (s.Reply? ==> CommandPacketAt(sum, w, at, s.n))
  }

  /** The steps lead through w from offset at on, each on what the stamps before it have left. */
  predicate Along(sum: Checksum, w: seq<byte>, at: nat, path: seq<Step>, clock: Clock, tick: nat)
    decreases |path|
  {
    path == [] ||
      (&& Takes(sum, w, at, path[0])
       && Along(sum, InputAfter(w, at, path[0], clock, tick), at + path[0].n, path[1..], clock, Ticks(path[0], tick)))
  }

  /** What the steps put out: the stream packets as they stand once stamped, the command packets, and in rest everything
      behind the last of them. */
  function PutOut(w: seq<byte>, at: nat, path: seq<Step>, clock: Clock, tick: nat): (o: PutsOut)
    decreases |path|
  {
    if at > |w| then PutsOut([], [], [])
    else if path == [] || !path[0].GoesOn() || at + path[0].n > |w| then PutsOut([], [], w[at..])
    else
      var s := path[0];
      var v := InputAfter(w, at, s, clock, tick);
      var o := PutOut(v, at + s.n, path[1..], clock, Ticks(s, tick));
      PutsOut((if s.Commit? then v[at..at + s.n] else []) + o.committed,
              (if s.Reply? then [v[at..at + s.n]] else []) + o.replies, o.rest)
  }

  datatype PutsOut = PutsOut(committed: seq<byte>, replies: seq<seq<byte>>, rest: seq<byte>)

  /** path retells, from offset at of w on, all that the parse puts out and keeps. */
  predicate Retells(sum: Checksum, w: seq<byte>, at: nat, path: seq<Step>, q: Parsed, clock: Clock, tick: nat) {
    var o := PutOut(w, at, path, clock, tick);
    && Along(sum, w, at, path, clock, tick)
    && q.committed == o.committed && q.replies == o.replies && EndOf(q.rest, o.rest)
  }

  // ----- nothing is invented -----

  lemma FrontIsAt(sum: Checksum, w: seq<byte>, at: nat, n: nat)
    requires at + HEADER_SIZE <= |w| && at + n <= |w|
    ensures HeaderAt(sum, w[at..], 0) ==> HeaderAt(sum, w, at)
    ensures (StreamAt(sum, w[at..], 0) && DeclaredAt(w[at..], 0) == n && BodyMatches(sum, w[at..][..n]))
            ==> StreamPacketAt(sum, w, at, n)
  {
    HeaderInSlice(sum, w, at, |w|, 0);
    assert w[at..|w|] == w[at..];
    assert w[at..][..n] == w[at..at + n];
  }

  /** What a committing or replying step has found at the front of u. */
  lemma StepFound(sum: Checksum, u: seq<byte>, rx: bool, room: nat)
    ensures var s := Next(sum, u, rx, room);
            && (s.Commit? ==> StreamAt(sum, u, 0) && DeclaredAt(u, 0) == s.n && BodyMatches(sum, u[..s.n]))
            && (s.Reply? ==> HEADER_SIZE <= s.n == CommandLength(u) && HeaderAt(sum, u, 0))
  {
  }

  /** One turn at offset at of w. */
  lemma TurnTakes(sum: Checksum, w: seq<byte>, at: nat, rx: bool, room: nat)
    requires at <= |w| && Next(sum, w[at..], rx, room).GoesOn()
    ensures Takes(sum, w, at, Next(sum, w[at..], rx, room))
  {
    StepFound(sum, w[at..], rx, room);
    var s := Next(sum, w[at..], rx, room);
    if s.Commit? || s.Reply? {
      FrontIsAt(sum, w, at, s.n);
    }
  }

  lemma SliceOfEnd<T>(w: seq<T>, at: nat, n: nat, next: nat)
    requires at + n == next <= |w|
    ensures w[at..][..n] == w[at..next] && w[at..][n..] == w[next..]
  {
  }

  lemma TurnLeaves(w: seq<byte>, at: nat, s: Step, clock: Clock, tick: nat, next: nat)
    requires at <= |w| && s.GoesOn() && 0 < s.n && at + s.n == next <= |w|
    ensures var t, v := Turn(w[at..], s, clock, tick), InputAfter(w, at, s, clock, tick);
            && t.rest == v[next..] && t.tick == Ticks(s, tick)
            && t.committed == (if s.Commit? then v[at..next] else [])
            && t.replies == (if s.Reply? then [v[at..next]] else [])
  {
    SliceOfEnd(InputAfter(w, at, s, clock, tick), at, s.n, next);
  }

  lemma PutOutFirst(w: seq<byte>, at: nat, s: Step, path: seq<Step>, clock: Clock, tick: nat, next: nat)
    requires s.GoesOn() && at + s.n == next <= |w|
    ensures var v := InputAfter(w, at, s, clock, tick);
            var o := PutOut(v, next, path, clock, Ticks(s, tick));
            PutOut(w, at, [s] + path, clock, tick)
              == PutsOut((if s.Commit? then v[at..next] else []) + o.committed,
                         (if s.Reply? then [v[at..next]] else []) + o.replies, o.rest)
  {
    Cons(s, path);
  }

  lemma AlongFirst(sum: Checksum, w: seq<byte>, at: nat, s: Step, path: seq<Step>, clock: Clock, tick: nat, next: nat)
    requires Takes(sum, w, at, s) && next == at + s.n
    requires Along(sum, InputAfter(w, at, s, clock, tick), next, path, clock, Ticks(s, tick))
    ensures Along(sum, w, at, [s] + path, clock, tick)
  {
    Cons(s, path);
  }

  lemma Cons<T>(x: T, s: seq<T>)
    ensures ([x] + s)[0] == x && ([x] + s)[1..] == s
  {
  }

  /** Everything the parse puts out is, in order, a stream packet or a command packet that stands in its input, and
      what it keeps is the end of its input; the packets do not overlap, and the input is changed only where committed
      packets are stamped.  In a packet shorter than sixteen bytes the stamp changes what follows as well, and the
      parse goes on with that. */
  lemma {:induction false} NothingInvented(sum: Checksum, w: seq<byte>, at: nat, rx: bool, room: nat, clock: Clock,
                                           tick: nat)
    returns (path: seq<Step>)
    requires at <= |w|
    ensures Retells(sum, w, at, path, Parse(sum, w[at..], rx, room, clock, tick), clock, tick)
    decreases |w| - at
  {
    var u := w[at..];
    var s := Next(sum, u, rx, room);
    var t := Turn(u, s, clock, tick);
    ParseStep(sum, u, rx, room, clock, tick, s, t);
    if s.GoesOn() {
      var next, less, v := at + s.n, Less(room, |t.committed|), InputAfter(w, at, s, clock, tick);
      TurnTakes(sum, w, at, rx, room);
      TurnLeaves(w, at, s, clock, tick, next);
      path := NothingInvented(sum, v, next, rx, less, clock, t.tick);
      AlongFirst(sum, w, at, s, path, clock, tick, next);
      PutOutFirst(w, at, s, path, clock, tick, next);
      path := [s] + path;
    } else {
      path := [];
    }
  }

  /** If every stamp stays within its packet, what a step leaves behind its packet is the input as it was. */
  lemma StampStaysIn(w: seq<byte>, at: nat, s: Step, clock: Clock, tick: nat, next: nat)
    requires at <= |w| && s.GoesOn() && Long(s) && at + s.n == next <= |w|
    ensures InputAfter(w, at, s, clock, tick)[next..] == w[next..]
    ensures s.Commit? ==> InputAfter(w, at, s, clock, tick)[at..next] == Stamp(w[at..next], clock(tick))
  {
    var v := InputAfter(w, at, s, clock, tick);
    SliceOfEnd(w, at, s.n, next);
    SliceOfEnd(v, at, s.n, next);
    if s.Commit? {
      StampApart(w[at..], s.n, clock(tick));
    }
  }

  lemma SliceOfSuffix<T>(w: seq<T>, at: nat, next: nat)
    requires at <= next <= |w|
    ensures w[at..next] == w[at..][..next - at] && w[next..] == w[at..][next - at..]
  {
  }

  /** What is put out from offset at on depends on the bytes from there on only. */
  lemma {:induction false} SuffixDecides(v: seq<byte>, w: seq<byte>, at: nat, path: seq<Step>, clock: Clock, tick: nat)
    requires |v| == |w| && at <= |w| && v[at..] == w[at..]
    ensures PutOut(v, at, path, clock, tick) == PutOut(w, at, path, clock, tick)
    decreases |path|
  {
    if path != [] && path[0].GoesOn() && at + path[0].n <= |w| {
      var s, next := path[0], at + path[0].n;
      var a, b := InputAfter(v, at, s, clock, tick), InputAfter(w, at, s, clock, tick);
      assert a[at..] == b[at..];
      SliceOfSuffix(a, at, next);
      SliceOfSuffix(b, at, next);
      SuffixDecides(a, b, next, path[1..], clock, Ticks(s, tick));
    }
  }

  /** So as long as no committed packet is shorter than its stamp, each packet put out is the input's own, with nothing
      but its time stamp rewritten. */
  lemma OriginalPackets(w: seq<byte>, at: nat, s: Step, path: seq<Step>, clock: Clock, tick: nat, next: nat)
    requires s.GoesOn() && Long(s) && at + s.n == next <= |w|
    ensures var o := PutOut(w, next, path, clock, Ticks(s, tick));
            PutOut(w, at, [s] + path, clock, tick)
              == PutsOut((if s.Commit? then Stamp(w[at..next], clock(tick)) else []) + o.committed,
                         (if s.Reply? then [w[at..next]] else []) + o.replies, o.rest)
  {
    PutOutFirst(w, at, s, path, clock, tick, next);
    StampStaysIn(w, at, s, clock, tick, next);
    SuffixDecides(InputAfter(w, at, s, clock, tick), w, next, path, clock, Ticks(s, tick));
  }
}
