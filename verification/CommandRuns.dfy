/**
 The pending commands over runs of the whole object: whatever bytes arrive between writes and timeouts, what happens to
 the commands is a run of the protocol in module Pending.
 */
module CommandRuns {
  import opened Bytes
  import opened Netcmd
  import opened Frames
  import opened Receive
  import opened ReceiveRuns
  import Pending

  // ----- the protocol's run inside the object's -----

  /** What one event means for the pending commands. */
  function Handled(sum: Checksum, y: System, e: Event, clock: Clock): seq<Pending.Event>
    requires y.s.cap > 0
  {
    if !Happens(y.s, e) then []
    else
      match e
      case Read => ReplyEvents(ReadOut(sum, y, clock).replies)
      case Send(req, now, bev, sent, ack) => [Pending.WriteEvent(req, now, y.s.connected, bev, sent, ack)]
      case Expire(now) => [Pending.TimeoutEvent(now)]
      case _ => []
  }

  function RunHandled(sum: Checksum, y: System, es: seq<Event>, clock: Clock): seq<Pending.Event>
    requires y.s.cap > 0
    decreases |es|
  {
    if es == [] then []
    else Handled(sum, y, es[0], clock) + RunHandled(sum, Advance(sum, y, es[0], clock), es[1..], clock)
  }

  predicate AllValid(es: seq<Pending.Event>) {
    forall e :: e in es ==> Pending.ValidEvent(e)
  }

  lemma ReadHandles(sum: Checksum, y: System, clock: Clock)
    requires y.s.cap > 0
    ensures ReplyPackets(ReadOut(sum, y, clock).replies)
    ensures Callback(sum, y.s, y.input, clock).0.pending == Answers(y.s.pending, ReadOut(sum, y, clock).replies)
  {
    var m := MakeRoom(y.s);
    if m.Ready? {
      RepliesAreChecked(sum, m.s.tail + y.input[..Taken(m.s, y.input)], m.s.on, Less(m.s.cap, m.s.rd1), clock,
                        m.s.tick);
    }
  }

  lemma OneEvent(q: Pending.State, e: Pending.Event)
    requires Pending.ValidEvent(e)
    ensures AllValid([e]) && Pending.Run(q, [e]) == Pending.Apply(q, e)
  {
    assert [e][1..] == [];
  }

  lemma AdvanceHandles(sum: Checksum, y: System, e: Event, clock: Clock)
    requires y.s.cap > 0
    ensures AllValid(Handled(sum, y, e, clock))
    ensures Advance(sum, y, e, clock).s.pending == Pending.Run(y.s.pending, Handled(sum, y, e, clock))
  {
    if Happens(y.s, e) {
      match e
      case Read =>
        ReadHandles(sum, y, clock);
        AnswersIsRun(y.s.pending, ReadOut(sum, y, clock).replies);
      case Send(req, now, bev, sent, ack) =>
        OneEvent(y.s.pending, Pending.WriteEvent(req, now, y.s.connected, bev, sent, ack));
      case Expire(now) =>
        OneEvent(y.s.pending, Pending.TimeoutEvent(now));
      case _ =>
    }
  }

  /** Over every run the pending commands go through a run of their protocol: the writes and timeouts of the run, and
      the acknowledgements the parse takes out of the bytes. */
  lemma {:induction false} RunHandles(sum: Checksum, y: System, es: seq<Event>, clock: Clock)
    requires y.s.cap > 0
    ensures AllValid(RunHandled(sum, y, es, clock))
    ensures Run(sum, y, es, clock).s.pending == Pending.Run(y.s.pending, RunHandled(sum, y, es, clock))
    decreases |es|
  {
    if es == [] {
    } else {
      var z := Advance(sum, y, es[0], clock);
      AdvanceHandles(sum, y, es[0], clock);
      RunHandles(sum, z, es[1..], clock);
      Pending.RunConcat(y.s.pending, Handled(sum, y, es[0], clock), RunHandled(sum, z, es[1..], clock));
    }
  }

  /** So over every run of the object from its start, whatever garbage arrives: each accepted write is waiting or has
      had its one callback, and no write has two. */
  lemma EveryCommandOnce(sum: Checksum, y: System, es: seq<Event>, clock: Clock, id: nat)
    requires y.s.cap > 0 && y.s.pending == Pending.INITIAL
    ensures var q := Run(sum, y, es, clock).s.pending;
            && Pending.Ids(q.queue)[id] + Pending.DoneIds(q.done)[id] == (if id < q.accepted then 1 else 0)
            && q.accepted == |q.done| + |q.queue| && |q.queue| <= Pending.SLOTS
            && forall i, j :: 0 <= i < j < |q.done| ==> q.done[i].id != q.done[j].id
  {
    RunHandles(sum, y, es, clock);
    var hs := RunHandled(sum, y, es, clock);
    Pending.ExactlyOnce(hs, id);
    var d := Pending.Run(Pending.INITIAL, hs).done;
    forall i, j | 0 <= i < j < |d| ensures d[i].id != d[j].id {
      Pending.OneCallbackEach(hs, i, j);
    }
  }

  // ----- sequence numbers -----

  /** Each write that is accepted carries a number that had been given out by then, the one with the given index. */
  predicate Drawn(sum: Checksum, y: System, es: seq<Event>, clock: Clock, index: nat -> nat)
    requires y.s.cap > 0
    decreases |es|
  {
    es == [] ||
      (&& (es[0].Send? && Advance(sum, y, es[0], clock).s.pending.accepted > y.s.pending.accepted ==>
             Pending.Carries(es[0].req, index(y.s.pending.accepted), y.s.issued))
       && Drawn(sum, Advance(sum, y, es[0], clock), es[1..], clock, index))
  }

  lemma AdvanceIssues(sum: Checksum, y: System, e: Event, clock: Clock)
    requires y.s.cap > 0
    ensures Advance(sum, y, e, clock).s.issued >= y.s.issued
  {
  }

  lemma {:induction false} RunIssues(sum: Checksum, y: System, es: seq<Event>, clock: Clock)
    requires y.s.cap > 0
    ensures Run(sum, y, es, clock).s.issued >= y.s.issued
    decreases |es|
  {
    if es == [] {
    } else {
      AdvanceIssues(sum, y, es[0], clock);
      RunIssues(sum, Advance(sum, y, es[0], clock), es[1..], clock);
    }
  }

  lemma {:induction false} RepliesDraw(q: Pending.State, es: seq<Pending.Event>, index: nat -> nat, n: nat)
    requires AllValid(es) && forall i :: 0 <= i < |es| ==> es[i].ReplyEvent?
    ensures Pending.Drawn(q, es, index, n)
    decreases |es|
  {
    if es == [] {
    } else {
      RepliesDraw(Pending.Apply(q, es[0]), es[1..], index, n);
    }
  }

  lemma AdvanceDraws(sum: Checksum, y: System, e: Event, clock: Clock, index: nat -> nat, n: nat)
    requires y.s.cap > 0 && n >= y.s.issued
    requires e.Send? && Advance(sum, y, e, clock).s.pending.accepted > y.s.pending.accepted ==>
               Pending.Carries(e.req, index(y.s.pending.accepted), y.s.issued)
    ensures AllValid(Handled(sum, y, e, clock))
    ensures Pending.Drawn(y.s.pending, Handled(sum, y, e, clock), index, n)
  {
    AdvanceHandles(sum, y, e, clock);
    var hs := Handled(sum, y, e, clock);
    if e.Read? {
      RepliesDraw(y.s.pending, hs, index, n);
    } else if hs != [] {
      OneEvent(y.s.pending, hs[0]);
      assert hs[1..] == [];
    }
  }

  lemma {:induction false} DrawnConcat(q: Pending.State, a: seq<Pending.Event>, b: seq<Pending.Event>,
                                       index: nat -> nat, n: nat)
    requires AllValid(a) && AllValid(b) && Pending.Drawn(q, a, index, n) && Pending.Drawn(Pending.Run(q, a), b,
            index, n)
    ensures AllValid(a + b) && Pending.Drawn(q, a + b, index, n)
    decreases |a|
  {
    if a == [] {
      assert a + b == b;
    } else {
      assert (a + b)[1..] == a[1..] + b;
      DrawnConcat(Pending.Apply(q, a[0]), a[1..], b, index, n);
    }
  }

  lemma {:induction false} RunDraws(sum: Checksum, y: System, es: seq<Event>, clock: Clock, index: nat -> nat, n: nat)
    requires y.s.cap > 0 && Drawn(sum, y, es, clock, index) && n >= Run(sum, y, es, clock).s.issued
    ensures AllValid(RunHandled(sum, y, es, clock))
    ensures Pending.Drawn(y.s.pending, RunHandled(sum, y, es, clock), index, n)
    decreases |es|
  {
    if es == [] {
    } else {
      var z := Advance(sum, y, es[0], clock);
      RunIssues(sum, y, es, clock);
      AdvanceDraws(sum, y, es[0], clock, index, n);
      AdvanceHandles(sum, y, es[0], clock);
      RunDraws(sum, z, es[1..], clock, index, n);
      DrawnConcat(y.s.pending, Handled(sum, y, es[0], clock), RunHandled(sum, z, es[1..], clock), index, n);
    }
  }

  /** Over every run of the object from its start in which each accepted write carries a number taken from
      l0006_netcom_getseqno: while no two waiting commands share a number taken and at most 256 have been given out
      since the oldest of them took its own, an acknowledgement completes the command it belongs to and no other. */
  lemma AckReachesIssuer(sum: Checksum, y: System, es: seq<Event>, clock: Clock, index: nat -> nat, j: nat,
                         p: seq<byte>)
    requires y.s.cap > 0 && y.s.pending == Pending.INITIAL && Drawn(sum, y, es, clock, index)
    requires var z := Run(sum, y, es, clock).s;
             && Pending.DistinctIndices(z.pending.queue, index) && Pending.Recent(z.pending.queue, index, z.issued)
             && ReplyPacket(p) && j < |z.pending.queue| && p[SEQNO] == z.pending.queue[j].req.seqno
    ensures var q := Run(sum, y, es, clock).s.pending;
            Pending.Acknowledge(q, p) == Pending.Complete(q, j, OnReply(q.queue[j].req.action, q.queue[j].req.cmd, p))
  {
    var n := Run(sum, y, es, clock).s.issued;
    RunHandles(sum, y, es, clock);
    RunDraws(sum, y, es, clock, index, n);
    Pending.RunAckReachesIssuer(RunHandled(sum, y, es, clock), index, n, j, p);
  }
}
