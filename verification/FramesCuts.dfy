/**
 Where a byte stream may be cut although it is not well formed: parsing a beginning and then its remainder with the
 continuation is parsing all in one go, unless the beginning ends in a search for a header that the cut misleads.
 */
module FramesCuts {
  import opened Bytes
  import opened Netcmd
  import opened Frames
  import opened FramesOrigin
  import opened FramesTheory

  // ----- how a parse ends -----

  /** The loop searches for a header after the front of u: it is none, or its stream packet is too long or damaged. */
  predicate Rejects(sum: Checksum, u: seq<byte>, rx: bool, room: nat) {
    |u| >= HEADER_SIZE &&
    (|| !HeaderAt(sum, u, 0)
     || (var n := StreamLength(u);
         n > STREAM_MAX_SIZE || (0 < n <= |u| && rx && ReadingOf(sum, u[..n], room).Mismatch?)))
  }

  lemma RejectsSearches(sum: Checksum, u: seq<byte>, rx: bool, room: nat)
    ensures Rejects(sum, u, rx, room) ==> Next(sum, u, rx, room) == Resync(sum, u)
    ensures !Rejects(sum, u, rx, room) && Next(sum, u, rx, room).Wait? ==> Next(sum, u, rx, room) == Wait(0)
    ensures !Rejects(sum, u, rx, room) && Next(sum, u, rx, room).Skip? ==>
              !rx && Next(sum, u, rx, room) == Skip(StreamLength(u))
  {
  }

  /** The parse ends with a search that finds no header, not with an incomplete packet. */
  predicate GivesUp(sum: Checksum, u: seq<byte>, rx: bool, room: nat, clock: Clock, tick: nat)
    decreases |u|
  {
    var s := Next(sum, u, rx, room);
    var t := Turn(u, s, clock, tick);
    if s.GoesOn() then GivesUp(sum, t.rest, rx, Less(room, |t.committed|), clock, t.tick)
    else s.Wait? && Rejects(sum, u, rx, room)
  }

  /** The kept bytes with what follows them do not mislead the next search: they are too short to begin it, or they
      begin with a header and go on, or neither the end of the search nor its new start hides a header. */
  predicate Harmless(sum: Checksum, w: seq<byte>) {
    || |w| < HEADER_SIZE
    || (HeaderAt(sum, w, 0) && |w| > HEADER_SIZE)
    || (|w| >= 2 * HEADER_SIZE && forall k: nat :: k < HEADER_SIZE ==> !HeaderAt(sum, w, k))
  }

  // ----- the search -----

  lemma SameHeader(sum: Checksum, u: seq<byte>, v: seq<byte>, k: nat)
    requires k + HEADER_SIZE <= |u|
    ensures HeaderAt(sum, u + v, k) == HeaderAt(sum, u, k)
  {
    assert (u + v)[k..k + HEADER_SIZE] == u[k..k + HEADER_SIZE];
  }

  /** The scan goes on at offset k. */
  predicate Passed(sum: Checksum, x: seq<byte>, k: nat) {
    k + HEADER_SIZE < |x| && !HeaderAt(sum, x, k)
  }

  /** The scan stops nowhere else. */
  lemma ScanIs(sum: Checksum, x: seq<byte>, i: nat, j: nat)
    requires i <= j <= |x| && forall k: nat :: i <= k < j ==> Passed(sum, x, k)
    requires j + HEADER_SIZE < |x| ==> HeaderAt(sum, x, j)
    ensures Scan(sum, x, i) == j
  {
    var a := Scan(sum, x, i);
    assert a >= j || Passed(sum, x, a);
    assert a > j ==> !HeaderAt(sum, x, j);
  }

  lemma ScanPasses(sum: Checksum, x: seq<byte>, i: nat, k: nat)
    requires i <= |x| && i <= k < Scan(sum, x, i)
    ensures Passed(sum, x, k)
  {
  }

  lemma ScanGrows(sum: Checksum, u: seq<byte>, v: seq<byte>, i: nat)
    requires i <= |u| && Scan(sum, u, i) + HEADER_SIZE < |u|
    ensures Scan(sum, u + v, i) == Scan(sum, u, i)
  {
    var j := Scan(sum, u, i);
    SameHeader(sum, u, v, j);
    forall k: nat | i <= k < j ensures Passed(sum, u + v, k) {
      ScanPasses(sum, u, i, k);
      SameHeader(sum, u, v, k);
    }
    ScanIs(sum, u + v, i, j);
  }

  /** A scan that ran to the end goes on where it stopped. */
  lemma ScanGoesOn(sum: Checksum, u: seq<byte>, v: seq<byte>, i: nat, j: nat)
    requires i <= |u| && j == Scan(sum, u, i)
    ensures j <= |u + v| && Scan(sum, u + v, i) == Scan(sum, u + v, j)
  {
    var b := Scan(sum, u + v, j);
    forall k: nat | i <= k < b ensures Passed(sum, u + v, k) {
      if k < j {
        ScanPasses(sum, u, i, k);
        SameHeader(sum, u, v, k);
      } else {
        ScanPasses(sum, u + v, j, k);
      }
    }
    ScanIs(sum, u + v, i, b);
  }

  lemma HeaderInEnd(sum: Checksum, x: seq<byte>, j: nat, k: nat)
    requires j <= |x|
    ensures HeaderAt(sum, x[j..], k) == HeaderAt(sum, x, j + k)
  {
    if j + k + HEADER_SIZE <= |x| {
      assert x[j..][k..k + HEADER_SIZE] == x[j + k..j + k + HEADER_SIZE];
    }
  }

  lemma ScanInEnd(sum: Checksum, x: seq<byte>, j: nat, i: nat, k: nat)
    requires j <= i == j + k <= |x|
    ensures Scan(sum, x, i) == j + Scan(sum, x[j..], k)
  {
    var a := Scan(sum, x[j..], k);
    forall m: nat | i <= m < j + a ensures Passed(sum, x, m) {
      ScanPasses(sum, x[j..], k, m - j);
      HeaderInEnd(sum, x, j, m - j);
    }
    HeaderInEnd(sum, x, j, a);
    ScanIs(sum, x, i, j + a);
  }

  // ----- a turn does not depend on what follows, unless it waits -----

  lemma NextGrows(sum: Checksum, u: seq<byte>, v: seq<byte>, rx: bool, room: nat)
    requires Next(sum, u, rx, room).GoesOn()
    ensures Next(sum, u + v, rx, room) == Next(sum, u, rx, room)
  {
    SameHeader(sum, u, v, 0);
    RejectsGrows(sum, u, v, rx, room);
    if Rejects(sum, u, rx, room) {
      RejectsSearches(sum, u, rx, room);
      RejectsSearches(sum, u + v, rx, room);
      ScanGrows(sum, u, v, HEADER_SIZE);
    } else {
      var n := StreamLength(u);
      if n <= |u| {
        assert (u + v)[..n] == u[..n];
      }
    }
  }

  lemma RejectsGrows(sum: Checksum, u: seq<byte>, v: seq<byte>, rx: bool, room: nat)
    requires Rejects(sum, u, rx, room)
      || (|u| >= HEADER_SIZE && (StreamLength(u) <= |u| || Next(sum, u, rx, room).GoesOn()))
    ensures Rejects(sum, u + v, rx, room) == Rejects(sum, u, rx, room)
  {
    SameHeader(sum, u, v, 0);
    var n := StreamLength(u);
    if n <= |u| {
      assert (u + v)[..n] == u[..n];
    }
  }

  lemma TurnGrows(sum: Checksum, u: seq<byte>, v: seq<byte>, rx: bool, room: nat, clock: Clock, tick: nat)
    requires Next(sum, u, rx, room).GoesOn() && Long(Next(sum, u, rx, room))
    ensures var s := Next(sum, u, rx, room);
            Turn(u + v, s, clock, tick) == Turn(u, s, clock, tick).(rest := Turn(u, s, clock, tick).rest + v)
  {
    var s := Next(sum, u, rx, room);
    CutFirst(u, v, s.n);
    if s.Commit? {
      StampApart(u, s.n, clock(tick));
      StampApart(u + v, s.n, clock(tick));
    }
  }

  // ----- the theorem -----

  /** The parse of u + v is that of u continued on its remainder with v. */
  predicate Continues(sum: Checksum, u: seq<byte>, v: seq<byte>, rx: bool, room: nat, clock: Clock, tick: nat,
                      r: Parsed) {
    Parse(sum, u + v, rx, room, clock, tick)
      == Join(r, Parse(sum, r.rest + v, rx, Less(room, |r.committed|), clock, r.tick))
  }

  lemma SearchCut(sum: Checksum, u: seq<byte>, v: seq<byte>, rx: bool, room: nat, clock: Clock, tick: nat, j: nat)
    requires Rejects(sum, u, rx, room) && j == Scan(sum, u, HEADER_SIZE) && j + HEADER_SIZE >= |u|
    requires Harmless(sum, u[j..] + v)
    ensures Continues(sum, u, v, rx, room, clock, tick, Parsed([], [], u[j..], Waiting, tick, 0))
  {
    var x, w := u + v, u[j..] + v;
    CutFirst(u, v, j);
    RejectsGrows(sum, u, v, rx, room);
    RejectsSearches(sum, x, rx, room);
    ScanGoesOn(sum, u, v, HEADER_SIZE, j);
    JoinEmpty(Parse(sum, w, rx, room, clock, tick), u[j..], tick);
    SearchOn(sum, x, w, j, rx, room, clock, tick);
  }

  /** A search that goes on from offset j of x, where w begins, comes to what the parse of w comes to. */
  lemma SearchOn(sum: Checksum, x: seq<byte>, w: seq<byte>, j: nat, rx: bool, room: nat, clock: Clock, tick: nat)
    requires 0 < j <= |x| && w == x[j..] && Harmless(sum, w) && |x| >= HEADER_SIZE
    requires Next(sum, x, rx, room) == Resync(sum, x) && Scan(sum, x, HEADER_SIZE) == Scan(sum, x, j)
    ensures Parse(sum, x, rx, room, clock, tick) == Parse(sum, w, rx, room, clock, tick)
  {
    HeaderInEnd(sum, x, j, 0);
    if |w| < HEADER_SIZE {
      ScanIs(sum, x, j, j);
      assert w[0..] == w;
    } else if HeaderAt(sum, w, 0) && |w| > HEADER_SIZE {
      ScanIs(sum, x, j, j);
      SkipTo(sum, x, j, rx, room, clock, tick);
    } else {
      assert forall k: nat :: k < HEADER_SIZE ==> !HeaderAt(sum, w, k);
      forall k: nat | j <= k < j + HEADER_SIZE ensures Passed(sum, x, k) {
        HeaderInEnd(sum, x, j, k - j);
      }
      ScanSkips(sum, x, j, j + HEADER_SIZE);
      ScanInEnd(sum, x, j, j + HEADER_SIZE, HEADER_SIZE);
      SameSearch(sum, x, w, j, Scan(sum, w, HEADER_SIZE), rx, room, clock, tick);
    }
  }

  lemma ScanSkips(sum: Checksum, x: seq<byte>, i: nat, m: nat)
    requires i <= m <= |x| && forall k: nat :: i <= k < m ==> Passed(sum, x, k)
    ensures Scan(sum, x, i) == Scan(sum, x, m)
  {
    var a := Scan(sum, x, m);
    forall k: nat | i <= k < a ensures Passed(sum, x, k) {
      if k >= m {
        ScanPasses(sum, x, m, k);
      }
    }
    ScanIs(sum, x, i, a);
  }

  lemma SkipTo(sum: Checksum, x: seq<byte>, j: nat, rx: bool, room: nat, clock: Clock, tick: nat)
    requires 0 < j <= |x| && Next(sum, x, rx, room) == Skip(j)
    ensures Parse(sum, x, rx, room, clock, tick) == Parse(sum, x[j..], rx, room, clock, tick)
  {
    var s := Next(sum, x, rx, room);
    ParseStep(sum, x, rx, room, clock, tick, s, Turn(x, s, clock, tick));
    JoinEmpty(Parse(sum, x[j..], rx, room, clock, tick), x[j..], tick);
  }

  lemma WaitAt(sum: Checksum, x: seq<byte>, k: nat, rx: bool, room: nat, clock: Clock, tick: nat)
    requires k <= |x| && Next(sum, x, rx, room) == Wait(k)
    ensures Parse(sum, x, rx, room, clock, tick) == Parsed([], [], x[k..], Waiting, tick, 0)
  {
    ParseStep(sum, x, rx, room, clock, tick, Wait(k), Turn(x, Wait(k), clock, tick));
  }

  lemma EndOfRest<T>(x: seq<T>, j: nat, k: nat, m: nat)
    requires j + k == m <= |x|
    ensures x[m..] == x[j..][k..]
  {
  }

  /** Two searches that come to the same place. */
  lemma SameSearch(sum: Checksum, x: seq<byte>, w: seq<byte>, j: nat, k: nat, rx: bool, room: nat, clock: Clock,
                   tick: nat)
    requires 0 < j <= |x| && w == x[j..] && |w| >= HEADER_SIZE && |x| >= HEADER_SIZE && k == Scan(sum, w, HEADER_SIZE)
    requires Next(sum, x, rx, room) == Resync(sum, x) && Scan(sum, x, HEADER_SIZE) == j + k
    requires !HeaderAt(sum, w, 0)
    ensures Parse(sum, x, rx, room, clock, tick) == Parse(sum, w, rx, room, clock, tick)
  {
    var m := j + k;
    EndOfRest(x, j, k, m);
    RejectsSearches(sum, w, rx, room);
    if k + HEADER_SIZE < |w| {
      SkipTo(sum, x, m, rx, room, clock, tick);
      SkipTo(sum, w, k, rx, room, clock, tick);
    } else {
      WaitAt(sum, x, m, rx, room, clock, tick);
      WaitAt(sum, w, k, rx, room, clock, tick);
    }
  }

  lemma LessLess(room: nat, a: nat, b: nat, c: nat)
    requires c == a + b
    ensures Less(Less(room, a), b) == Less(room, c)
  {
  }

  /** On any bytes, as long as no packet is committed that is shorter than its time stamp: if the parse of u ends
      waiting, and unless it gives up a search that the bytes it keeps, with v behind them, would mislead, then
      parsing u and after it the remainder with v is parsing u + v in one go. */
  lemma {:induction false} CutAnywhere(sum: Checksum, u: seq<byte>, v: seq<byte>, rx: bool, room: nat, clock: Clock,
                                       tick: nat)
    requires LongCommits(sum, u, rx, room, clock, tick)
    requires var r := Parse(sum, u, rx, room, clock, tick);
             r.end.Waiting? && (GivesUp(sum, u, rx, room, clock, tick) ==> Harmless(sum, r.rest + v))
    ensures Continues(sum, u, v, rx, room, clock, tick, Parse(sum, u, rx, room, clock, tick))
    decreases |u|
  {
    var s := Next(sum, u, rx, room);
    var t := Turn(u, s, clock, tick);
    ParseStep(sum, u, rx, room, clock, tick, s, t);
    if s.GoesOn() {
      var less := Less(room, |t.committed|);
      TurnGrows(sum, u, v, rx, room, clock, tick);
      NextGrows(sum, u, v, rx, room);
      ParseStep(sum, u + v, rx, room, clock, tick, s, Turn(u + v, s, clock, tick));
      CutAnywhere(sum, t.rest, v, rx, less, clock, t.tick);
      var r := Parse(sum, t.rest, rx, less, clock, t.tick);
      Pieces(sum, v, rx, room, clock, t, r);
    } else {
      RejectsSearches(sum, u, rx, room);
      if Rejects(sum, u, rx, room) {
        SearchCut(sum, u, v, rx, room, clock, tick, Scan(sum, u, HEADER_SIZE));
      } else {
        assert u[0..] == u;
        JoinEmpty(Parse(sum, u + v, rx, room, clock, tick), u, tick);
      }
    }
  }

  lemma Pieces(sum: Checksum, v: seq<byte>, rx: bool, room: nat, clock: Clock, t: Parsed, r: Parsed)
    ensures var q := Parse(sum, r.rest + v, rx, Less(Less(room, |t.committed|), |r.committed|), clock, r.tick);
            && q == Parse(sum, Join(t, r).rest + v, rx, Less(room, |Join(t, r).committed|), clock, Join(t, r).tick)
            && Join(t.(rest := t.rest + v), Join(r, q)) == Join(Join(t, r), q)
  {
    LessLess(room, |t.committed|, |r.committed|, |Join(t, r).committed|);
    var q := Parse(sum, r.rest + v, rx, Less(Less(room, |t.committed|), |r.committed|), clock, r.tick);
    JoinAssociative(t, r, q);
  }
}
