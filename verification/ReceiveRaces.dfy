/**
 The part of netcom_readcb before it takes its lock, in src/l0006-0/netcom.c: it reads rd2_off several times, and
 between these readings the consumer, or a stop, may move it on.  What was computed from an earlier rd2_off stays good.
 */
module ReceiveRaces {
  import opened Bytes
  import opened CircBuf
  import opened Netcmd
  import opened Frames
  import opened Receive
  import opened ReceiveRuns

  // ----- what others do meanwhile -----

  /** The operations that move rd2_off. */
  predicate MovesConsumer(e: Event) {
    e.Consume? || e.Wrap? || e.Stop?
  }

  predicate Moves(es: seq<Event>) {
    forall i :: 0 <= i < |es| ==> MovesConsumer(es[i])
  }

  function Moved(s: Rx, e: Event): Rx
    requires MovesConsumer(e)
  {
    if e.Consume? then Consumed(s, e.k) else Managed(s, e)
  }

  function Meanwhile(s: Rx, es: seq<Event>): Rx
    requires Moves(es)
    decreases |es|
  {
    if es == [] then s else Meanwhile(Moved(s, es[0]), es[1..])
  }

  /** From s to t only the consumer, and with a stop the RX flag, have moved, and they have only made room. */
  predicate Freed(s: Rx, t: Rx) {
    && Intact(t)
    && t.cap == s.cap && t.rd1 == s.rd1 && t.wr == s.wr && t.end1 == s.end1 && t.tail == s.tail && t.tick == s.tick
    && t.error == s.error && t.end == s.end && t.pending == s.pending
    && Gap(t.wr, t.rd2, t.cap) >= Gap(s.wr, s.rd2, s.cap)
    && (Flat(s) ==> Flat(t) && t.rd2 >= s.rd2)
  }

  lemma MovedFrees(s: Rx, e: Event)
    requires Intact(s) && MovesConsumer(e)
    ensures Freed(s, Moved(s, e))
  {
  }

  /** However the consumer and stops move meanwhile, the gap before the consumer does not shrink. */
  lemma {:induction false} MeanwhileFrees(s: Rx, es: seq<Event>)
    requires Intact(s) && Moves(es)
    ensures Freed(s, Meanwhile(s, es))
    decreases |es|
  {
    if es == [] {
    } else {
      MovedFrees(s, es[0]);
      MeanwhileFrees(Moved(s, es[0]), es[1..]);
    }
  }

  // ----- the callback with others at work -----

  /** The room made, and how many bytes the limit computed then admits; later is the state when the cursors are written
      or the read begins. */
  datatype Plan = Refuse(s: Rx) | Go(s: Rx, n: nat)

  /** The free space is computed in s, the limit in the state after a; if the writer goes back it does so in the state
      after b, and computes the limit anew. */
  function PlanRead(s: Rx, a: seq<Event>, b: seq<Event>, input: seq<byte>): Plan
    requires s.cap > 0 && Moves(a) && Moves(b)
  {
    var space := Space(s.wr, s.rd2, s.cap);
    var s1 := Meanwhile(s, a);
    var s2 := Meanwhile(s1, b);
    if s.error then Refuse(Reset(s2))
    else if space == 0 then Refuse(Drop(s2))
    else if s.wr > s.cap - MARGIN then
      if space > s.wr - s.rd1 + MARGIN then
        var t := Rewound(s2);
        Go(t, ReadSize(t.wr, t.rd2, s.cap, |input|))
      else Refuse(Drop(s2))
    else Go(s2, ReadSize(s1.wr, s1.rd2, s.cap, |input|))
  }

  /** The rewind test, taken on an earlier rd2_off, still puts the moved tail strictly below the consumer. */
  lemma LateRewind(s: Rx, t: Rx)
    requires Intact(s) && s.wr > s.cap - MARGIN && Freed(s, t)
    requires Space(s.wr, s.rd2, s.cap) == Free(s.wr, s.rd2, s.cap) > s.wr - s.rd1 + MARGIN
    ensures Flat(t) && t.wr - t.rd1 < t.rd2 && Intact(Rewound(t)) && Wrapped(Rewound(t))
  {
    RewindEndsBelowConsumer(s);
  }

  lemma LimitIsGap(s: Rx, input: seq<byte>)
    requires Intact(s) && PowerOfTwo(s.cap)
    ensures ReadSize(s.wr, s.rd2, s.cap, |input|) <= Gap(s.wr, s.rd2, s.cap)
  {
    IntactInRange(s);
    SpaceToEndIsGap(s.wr, s.rd2, s.cap);
  }

  lemma Apart(s: Rx, a: seq<Event>, b: seq<Event>)
    requires Intact(s) && Moves(a) && Moves(b)
    ensures Freed(s, Meanwhile(s, a)) && Freed(Meanwhile(s, a), Meanwhile(Meanwhile(s, a), b))
    ensures Freed(s, Meanwhile(Meanwhile(s, a), b))
  {
    MeanwhileFrees(s, a);
    MeanwhileFrees(Meanwhile(s, a), b);
  }

  /** With a power-of-two capacity the plan is good when it is made, whatever moved while it was. */
  lemma PlanFits(s: Rx, a: seq<Event>, b: seq<Event>, input: seq<byte>)
    requires Intact(s) && PowerOfTwo(s.cap) && Moves(a) && Moves(b)
    ensures var p := PlanRead(s, a, b, input);
            Intact(p.s) && (p.Go? ==> p.n <= |input| && p.n <= Gap(p.s.wr, p.s.rd2, p.s.cap))
  {
    Apart(s, a, b);
    IntactInRange(s);
    SpaceIsFree(s.wr, s.rd2, s.cap);
    var s1 := Meanwhile(s, a);
    var s2 := Meanwhile(s1, b);
    LimitIsGap(s1, input);
    if !s.error && Space(s.wr, s.rd2, s.cap) != 0 && s.wr > s.cap - MARGIN
       && Space(s.wr, s.rd2, s.cap) > s.wr - s.rd1 + MARGIN {
      LateRewind(s, s2);
      LimitIsGap(Rewound(s2), input);
    }
  }

  /** With others at work before the space is computed, between that and the limit, before the writer goes back, and
      before the bytes are read, the ring invariant holds in the end, the bytes read do not reach the consumer where it
      stands by then, and neither does a time stamp that stays within what is committed. */
  lemma RacedIntact(sum: Checksum, s: Rx, a: seq<Event>, b: seq<Event>, c: seq<Event>, input: seq<byte>, clock: Clock)
    requires Intact(s) && PowerOfTwo(s.cap) && Moves(a) && Moves(b) && Moves(c)
    ensures var p := PlanRead(s, a, b, input);
            Intact(p.s) &&
            (p.Go? ==>
               var m := Meanwhile(p.s, c);
               var r := ParseTail(sum, m, m.tail + input[..p.n], clock);
               && Intact(m) && p.n <= Gap(m.wr, m.rd2, m.cap)
               && Intact(Parsing(m, r))
               && (r.reach <= |r.committed| ==> StampsClear(m, r)))
  {
    PlanFits(s, a, b, input);
    var p := PlanRead(s, a, b, input);
    if p.Go? {
      MeanwhileFrees(p.s, c);
      var m := Meanwhile(p.s, c);
      ParseConserves(sum, m.tail + input[..p.n], m.on, Less(m.cap, m.rd1), clock, m.tick);
      var r := ParseTail(sum, m, m.tail + input[..p.n], clock);
      ParsingIntact(m, p.n, r);
      if r.reach <= |r.committed| {
        CommittedIsClear(m, input, p.n, r);
      }
    }
  }

  /** Nothing moves: the plan is the callback's own. */
  lemma NothingMoved(s: Rx, input: seq<byte>)
    requires s.cap > 0
    ensures var p, m := PlanRead(s, [], [], input), MakeRoom(s);
            p.s == m.s && (p.Go? <==> m.Ready?) && (p.Go? ==> p.n == Taken(m.s, input))
  {
  }
}
