/**
 The sixteen write slots of src/l0006-0/netcom.c on their two intrusive lists.  Every operation is proved
 against the protocol on values in module Pending.
 */
module WritePool {
  import opened Bytes
  import opened Netcmd
  import opened Elapsed
  import opened ListHead
  import opened Pending
  import opened Actions
  import Ledger

  /** struct l0006_netcom_wrbuf without its list node; caller stands for the pointers its action holds. */
  datatype Slot = Slot(req: Request, sent: Timespec, waitAck: bool, caller: Caller?)

  const EMPTY_SLOT: Slot := Slot(Request(General, 0, 0), Timespec(0, 0), false, null)

  ghost predicate Lacks(s: seq<Node>, n: Node) {
    forall i :: 0 <= i < |s| ==> s[i] != n
  }

  ghost predicate Disjoint(a: seq<Node>, b: seq<Node>) {
    forall i, j :: 0 <= i < |a| && 0 <= j < |b| ==> a[i] != b[j]
  }

  method NewNodes() returns (ns: seq<Node>)
    ensures |ns| == SLOTS
    ensures forall k :: 0 <= k < SLOTS ==> ns[k].entry == k
    ensures fresh(set n | n in ns)
  {
    ns := [];
    var i := 0;
    while i < SLOTS
      invariant i <= SLOTS && |ns| == i
      invariant forall k :: 0 <= k < i ==> ns[k].entry == k && fresh(ns[k])
    {
      var n := new Node(i);
      ns := ns + [n];
      i := i + 1;
    }
  }

  lemma Shifted(src: Node, a: seq<Node>, k: nat, dst: Node, b: seq<Node>, n: Node)
    requires k < |a|
    ensures Without([src] + a, k + 1) == [src] + Without(a, k)
    ensures [dst] + b + [n] == [dst] + (b + [n])
  {
  }

  lemma Neighbours(c: seq<Node>, k: nat)
    requires Ring(c) && k < |c|
    ensures c[k].prev == c[Pred(|c|, k)] && c[k].next == c[Succ(|c|, k)]
    ensures c[k].prev in c && c[k].next in c
  {
  }

  method MoveBetween(n: Node, src: Node, dst: Node, ghost a: seq<Node>, ghost k: nat, ghost b: seq<Node>)
    requires k < |a| && n == a[k]
    requires Ring([src] + a) && Ring([dst] + b)
    requires forall x :: x in [src] + a ==> x !in [dst] + b
    modifies src, dst, a, b
    ensures Ring([src] + Without(a, k)) && Ring([dst] + (b + [n]))
  {
    ghost var c, d := [src] + a, [dst] + b;
    Neighbours(c, k + 1);
    Neighbours(d, 0);
    Shifted(src, a, k, dst, b, n);
    MoveTail(n, dst, c, k + 1, d);
  }

  method AddBeside(n: Node, head: Node, ghost a: seq<Node>, other: Node)
    requires Ring([head] + a) && n !in [head] + a && Ring([other]) && other !in [n, head] + a
    modifies n, head, a
    ensures Ring([head] + ([n] + a)) && Ring([other])
  {
    ghost var c := [head] + a;
    Neighbours(c, 0);
    Add(n, head, c);
    assert [head, n] + c[1..] == [head] + ([n] + a);
  }

  ghost predicate NoneBefore(q: seq<Entry>, seqno: byte, i: nat)
    requires i <= |q|
  {
    forall j :: 0 <= j < i ==> q[j].req.seqno != seqno
  }

  lemma FirstMatch(s: State, p: seq<byte>, i: nat)
    requires ReplyPacket(p) && i < |s.queue| && NoneBefore(s.queue, p[SEQNO], i)
    requires s.queue[i].req.seqno == p[SEQNO]
    ensures Find(s.queue, p[SEQNO]) == i
    ensures Pending.Acknowledge(s, p) == Complete(s, i, OnReply(s.queue[i].req.action, s.queue[i].req.cmd, p))
  {
    assert Find(s.queue, p[SEQNO]) == i;
  }

  lemma NoMatch(s: State, p: seq<byte>)
    requires ReplyPacket(p) && NoneBefore(s.queue, p[SEQNO], |s.queue|)
    ensures Find(s.queue, p[SEQNO]) == |s.queue| && Pending.Acknowledge(s, p) == s
  {
    assert Find(s.queue, p[SEQNO]) == |s.queue|;
  }

  class Pool {
    const unused: Node
    const used: Node
    const nodes: seq<Node>      // the node embedded in each slot
    const slots: array<Slot>

    ghost var unusedList: seq<Node>   // the nodes on the unused list, in order
    ghost var usedList: seq<Node>     // the nodes on the used list, in order
    ghost var state: State            // the protocol state they represent
    ghost var clients: set<object>    // the callers of all writes so far, and their tasks
    ghost var book: Ledger.Book       // who issued which write

    /** netcom_allocate_buffer: all slots end up on the unused list, the last one allocated first. */
    constructor ()
      ensures Valid() && fresh(Repr())
      ensures state == INITIAL && usedList == [] && clients == {} && book == Ledger.EMPTY_BOOK
      ensures Reversed(unusedList, SLOTS)
    {
      var ns := NewNodes();
      nodes := ns;
      unused := new Node(-1);
      used := new Node(-1);
      slots := new Slot[SLOTS](_ => EMPTY_SLOT);
      usedList, unusedList, state, clients, book := [], [], INITIAL, {}, Ledger.EMPTY_BOOK;
      new;
      assert forall o :: o in Repr() ==> fresh(o);
      assert Ring([unused]) && Ring([used]);
      assert Shape();
      LinkAll();
    }

    method LinkAll()
      requires Shape() && unusedList == [] && usedList == [] && state == INITIAL && clients == {}
      requires book == Ledger.EMPTY_BOOK
      requires Ring([unused]) && Ring([used])
      modifies this`unusedList, used, unused, nodes
      ensures Valid() && Reversed(unusedList, SLOTS)
    {
      var i := 0;
      assert [unused] + unusedList == [unused];
      while i < SLOTS
        invariant i <= SLOTS && Reversed(unusedList, i)
        invariant Ring([unused] + unusedList) && Ring([used])
      {
        LinkOne(i);
        i := i + 1;
      }
      assert [used] + usedList == [used];
    }

    ghost predicate Reversed(s: seq<Node>, n: nat)
      requires Shape() && n <= SLOTS
    {
      |s| == n && forall i :: 0 <= i < n ==> s[i] == nodes[n - 1 - i]
    }

    /** list_add of the i-th slot to the unused list. */
    method LinkOne(i: nat)
      requires Shape() && i < SLOTS && Reversed(unusedList, i)
      requires Ring([unused] + unusedList) && Ring([used])
      modifies this`unusedList, used, unused, nodes
      ensures Reversed(unusedList, i + 1)
      ensures Ring([unused] + unusedList) && Ring([used])
    {
      NotListedYet(i);
      AddBeside(nodes[i], unused, unusedList, used);
      unusedList := [nodes[i]] + unusedList;
    }

    lemma NotListedYet(i: nat)
      requires Shape() && i < SLOTS && Reversed(unusedList, i)
      ensures nodes[i] !in [unused] + unusedList && used !in [nodes[i], unused] + unusedList
      ensures forall x :: x in unusedList ==> x in nodes
    {
      forall k | 0 <= k < i
        ensures unusedList[k] in nodes && unusedList[k].entry < i
      {
        assert unusedList[k] == nodes[i - 1 - k];
      }
    }

    ghost function Repr(): set<object> {
      {this, slots, unused, used} + (set n | n in nodes)
    }

    /** All that the operations may change: the pool, and what the callbacks write to. */
    ghost function World(): set<object>
      reads this
    {
      Repr() + clients
    }

    /** The callers of the waiting commands, in the order of the queue. */
    ghost function Callers(): (cs: seq<Caller?>)
      requires Shape() && Owned(usedList)
      reads this, slots
      ensures |cs| == |usedList|
    {
      CallersOf(usedList)
    }

    ghost function CallersOf(s: seq<Node>): (cs: seq<Caller?>)
      requires Shape() && Owned(s)
      reads slots
      ensures |cs| == |s| && forall i :: 0 <= i < |s| ==> cs[i] == slots[s[i].entry].caller
    {
      seq(|s|, i requires 0 <= i < |s| reads slots => slots[s[i].entry].caller)
    }

    ghost predicate Known(s: seq<Node>, known: set<object>)
      requires Shape() && Owned(s)
      reads slots
    {
      forall i :: 0 <= i < |s| ==>
        var c := slots[s[i].entry].caller; c != null && c in known && c.task in known
    }

    ghost predicate Shape() {
      && |nodes| == SLOTS && slots.Length == SLOTS
      && (forall i :: 0 <= i < SLOTS ==> nodes[i].entry == i)
      && used.entry == -1 && unused.entry == -1 && used != unused
    }

    /** The list holds slot nodes. */
    ghost predicate Owned(s: seq<Node>)
      requires Shape()
    {
      forall i :: 0 <= i < |s| ==> 0 <= s[i].entry < SLOTS && s[i] == nodes[s[i].entry]
    }

    ghost predicate Represents(q: seq<Entry>, s: seq<Node>)
      requires Shape() && Owned(s)
      reads slots
    {
      && |q| == |s|
      && forall i :: 0 <= i < |q| ==> slots[s[i].entry].req == q[i].req && slots[s[i].entry].sent == q[i].sent
    }

    /** Two disjoint rings that together hold each slot exactly once. */
    ghost predicate Lists(a: seq<Node>, b: seq<Node>)
      requires Shape() && Owned(a) && Owned(b)
      reads used, unused, nodes
    {
      && Ring([used] + a) && Ring([unused] + b)
      && Disjoint(a, b) && |a| + |b| == SLOTS
    }

    ghost predicate Valid()
      reads this, Repr()
      ensures Valid() ==> Shape() && Ledger.Kept(book, |book.issuers|)
    {
      && Shape()
      && Owned(usedList) && Owned(unusedList)
      && Lists(usedList, unusedList)
      && Represents(state.queue, usedList)
      && Known(usedList, clients) && clients !! Repr()
      && Booked()
    }

    /** The book says who issued which of the writes accepted so far. */
    ghost predicate Booked()
      requires Shape() && Owned(usedList)
      reads this, slots
    {
      && Ledger.Kept(book, state.accepted) && Ledger.Booked(book, state.done)
      && Callers() == Ledger.IssuersOf(book, state.queue)
      && (forall c :: c in book.issuers ==> c in clients && c.task in clients)
    }

    /** Each issuer has been told what the completions of its commands say, and nothing else. */
    ghost predicate Told()
      requires Ledger.Kept(book, |book.issuers|)
      reads this, clients
    {
      && (forall c :: c in book.issuers ==> c in clients && c.task in clients)
      && Ledger.Told(book, state.done)
    }

    /** Between them the two lists hold every slot. */
    lemma AllSlotsListed(k: nat)
      requires Valid() && k < SLOTS
      ensures nodes[k] in usedList || nodes[k] in unusedList
    {
      var all := usedList + unusedList;
      assert ([used] + usedList)[1..] == usedList && ([unused] + unusedList)[1..] == unusedList;
      assert Distinct(all) by {
        var c, d := [used] + usedList, [unused] + unusedList;
        forall i, j | 0 <= i < j < |all| ensures all[i] != all[j] {
          if j < |usedList| {
            assert c[i + 1] != c[j + 1];
          } else if i >= |usedList| {
            assert d[i - |usedList| + 1] != d[j - |usedList| + 1];
          }
        }
      }
      if nodes[k] !in all {
        Pigeonhole(all, nodes, k);
      }
    }

    /** With nobody in the book there is nobody to tell. */
    lemma NobodyToTell()
      requires book == Ledger.EMPTY_BOOK
      ensures Told()
    {
    }

    /** The issuer of the last command to complete holds its code. */
    lemma LastCompletion()
      requires Valid() && Told() && state.done != []
      ensures var d := state.done[|state.done| - 1];
              && d.id < |book.issuers| && book.issuers[d.id].outret == Code(d.completion.outcome)
              && (d.completion.wakes ==> book.issuers[d.id].task.wakeupEarly)
    {
      Ledger.HoldsItsOwnCode(book, state.done, |state.done| - 1);
    }

    lemma OutcomesTold()
      requires Valid() && Told()
      ensures Ledger.Outcomes(book.issuers, state.done)
    {
      Ledger.OutcomesTold(book, state.done);
    }

    // ----- moving a slot from one list to the other -----

    lemma HeadsApart(src: Node, dst: Node, a: seq<Node>, b: seq<Node>)
      requires Shape() && Owned(a) && Owned(b) && Disjoint(a, b)
      requires src.entry == -1 && dst.entry == -1 && src != dst
      ensures forall x :: x in [src] + a ==> x !in [dst] + b
    {
      var c, d := [src] + a, [dst] + b;
      forall x | x in c ensures x !in d {
        var i :| 0 <= i < |c| && c[i] == x;
        forall j | 0 <= j < |d| ensures d[j] != x {
          assert i > 0 ==> c[i] == a[i - 1];
          assert j > 0 ==> d[j] == b[j - 1];
        }
      }
    }

    lemma MovedLists(a: seq<Node>, b: seq<Node>, k: nat)
      requires Shape() && Owned(a) && Owned(b) && Disjoint(a, b) && Distinct(a) && k < |a|
      ensures Owned(Without(a, k)) && Owned(b + [a[k]]) && Disjoint(Without(a, k), b + [a[k]])
    {
    }

    /** list_move_tail of the k-th node of list a under head src to list b under head dst. */
    method Move(src: Node, dst: Node, ghost a: seq<Node>, ghost b: seq<Node>, n: Node, ghost k: nat)
      requires Shape() && Owned(a) && Owned(b) && Disjoint(a, b)
      requires {src, dst} == {used, unused} && src != dst
      requires k < |a| && n == a[k]
      requires Ring([src] + a) && Ring([dst] + b)
      modifies used, unused, nodes
      ensures Owned(Without(a, k)) && Owned(b + [n])
      ensures Disjoint(Without(a, k), b + [n]) && Disjoint(b + [n], Without(a, k))
      ensures Ring([src] + Without(a, k)) && Ring([dst] + (b + [n]))
    {
      HeadsApart(src, dst, a, b);
      DistinctTail(src, a);
      MovedLists(a, b, k);
      OwnedNodes(a);
      OwnedNodes(b);
      MoveBetween(n, src, dst, a, k, b);
    }

    lemma OwnedNodes(a: seq<Node>)
      requires Shape() && Owned(a)
      ensures forall x :: x in a ==> x in nodes
    {
    }

    /** The first unused slot becomes the last used one. */
    method MoveFirst()
      requires Shape() && Owned(usedList) && Owned(unusedList) && Lists(usedList, unusedList) && unusedList != []
      modifies used, unused, nodes
      ensures Owned(usedList + [unusedList[0]]) && Owned(Without(unusedList, 0))
      ensures Lists(usedList + [unusedList[0]], Without(unusedList, 0))
    {
      Neighbours([unused] + unusedList, 0);
      assert unused.next == unusedList[0];
      Move(unused, used, unusedList, usedList, unused.next, 0);
    }

    // ----- l0006_netcom_write -----

    /** The bytes go to the transport; bev says whether there is one, sent whether evbuffer_add took the data. */
    method Write(req: Request, caller: Caller, now: Timespec, connected: bool, bev: bool, sent: bool, ack: bool)
      returns (ret: int)
      requires Valid()
      modifies Repr()
      ensures Valid()
      ensures state == Pending.Write(old(state), req, now, connected, bev, sent, ack).0
      ensures ret == Pending.Write(old(state), req, now, connected, bev, sent, ack).1
      ensures ret == if connected && |old(state.queue)| < 16 && bev && sent then 0 else -1
      ensures ret == 0 && ack ==>
                && state.queue == old(state.queue) + [Entry(old(state.accepted), req, now)]
                && state.accepted == old(state.accepted) + 1 && state.done == old(state.done)
      ensures ret != 0 || !ack ==> state == old(state)
      ensures clients == old(clients) || clients == old(clients) + {caller, caller.task}
      ensures Callers() == if state == old(state) then old(Callers()) else old(Callers()) + [caller]
      ensures old(Told()) ==> Told()
      ensures book.issuers == if state == old(state) then old(book.issuers) else old(book.issuers) + [caller]
    {
      ret := -1;
      if connected {
        var empty := NoneUnused();
        if !empty {
          if bev {
            ret := Push(req, caller, now, sent, ack);
          }
        }
      }
    }

    /** The part of the write that has a slot and a transport. */
    method Push(req: Request, caller: Caller, now: Timespec, sent: bool, ack: bool) returns (ret: int)
      requires Valid() && unusedList != [] && unused.next == unusedList[0] && Lacks(usedList, unusedList[0])
      modifies Repr()
      ensures Valid() && ret == if sent then 0 else -1
      ensures if sent && ack then Queued(old(state), state, req, now) else state == old(state)
      ensures clients == old(clients) || clients == old(clients) + {caller, caller.task}
      ensures Callers() == if sent && ack then old(Callers()) + [caller] else old(Callers())
      ensures old(Told()) ==> Told()
      ensures book.issuers == if state == old(state) then old(book.issuers) else old(book.issuers) + [caller]
    {
      ret := -1;
      var n := unused.next.entry;
      SetSlot(n, Slot(req, now, false, caller));
      if sent {
        ret := 0;
        SetSlot(n, Slot(req, now, ack, caller));
        if ack {
          Queue(req, caller, now);
        }
      }
    }

    method NoneUnused() returns (empty: bool)
      requires Valid()
      ensures empty <==> |state.queue| == SLOTS
      ensures empty <==> unusedList == []
      ensures !empty ==> unused.next == unusedList[0] && Lacks(usedList, unusedList[0])
    {
      ghost var c := [unused] + unusedList;
      empty := IsEmpty(unused, c);
      if !empty {
        assert c[0].next == c[Succ(|c|, 0)];
      }
    }

    /** A slot that is not waiting can be filled without disturbing the protocol state. */
    method SetSlot(k: int, s: Slot)
      requires Valid() && 0 <= k < SLOTS && Lacks(usedList, nodes[k])
      modifies slots
      ensures Valid() && slots[k] == s && Callers() == old(Callers()) && (old(Told()) ==> Told())
    {
      slots[k] := s;
    }

    method Queue(req: Request, caller: Caller, now: Timespec)
      requires Valid() && unusedList != []
      requires var s := slots[unusedList[0].entry]; s.req == req && s.sent == now && s.caller == caller
      modifies this`unusedList, this`usedList, this`state, this`clients, this`book, used, unused, nodes
      ensures Valid() && clients == old(clients) + {caller, caller.task}
      ensures Queued(old(state), state, req, now) && Callers() == old(Callers()) + [caller]
      ensures book.issuers == old(book.issuers) + [caller] && (old(Told()) ==> Told())
    {
      if Told() {
        Ledger.ToldEntered(book, state.done, caller);
      }
      Enlist(req, caller, now);
    }

    method Enlist(req: Request, caller: Caller, now: Timespec)
      requires Valid() && unusedList != []
      requires var s := slots[unusedList[0].entry]; s.req == req && s.sent == now && s.caller == caller
      modifies this`unusedList, this`usedList, this`state, this`clients, this`book, used, unused, nodes
      ensures Valid() && clients == old(clients) + {caller, caller.task}
      ensures Queued(old(state), state, req, now) && Callers() == old(Callers()) + [caller]
      ensures book == Ledger.Entered(old(book), caller, caller.outret, caller.task.wakeupEarly)
      ensures old(Ledger.Told(Ledger.Entered(book, caller, caller.outret, caller.task.wakeupEarly), state.done))
              ==> Told()
    {
      ghost var n, e := unusedList[0], Ledger.Entered(book, caller, caller.outret, caller.task.wakeupEarly);
      ghost var told := Ledger.Told(e, state.done);
      MoveFirst();
      assert told ==> Ledger.Told(e, state.done);
      Record(n, Entry(state.accepted, req, now), caller);
    }

    /** The protocol state follows the lists. */
    ghost method Record(n: Node, e: Entry, caller: Caller)
      requires Shape() && Owned(usedList) && Owned(usedList + [n]) && unusedList != [] && Owned(Without(unusedList, 0))
      requires Lists(usedList + [n], Without(unusedList, 0))
      requires Represents(state.queue, usedList) && Known(usedList, clients) && clients !! Repr()
      requires Booked() && e.id == state.accepted
      requires 0 <= n.entry < SLOTS && var s := slots[n.entry]; s.req == e.req && s.sent == e.sent && s.caller == caller
      modifies this`unusedList, this`usedList, this`state, this`clients, this`book
      ensures Valid() && clients == old(clients) + {caller, caller.task}
      ensures state == State(old(state).queue + [e], old(state).accepted + 1, old(state).done)
      ensures Callers() == old(Callers()) + [caller]
      ensures book == Ledger.Entered(old(book), caller, caller.outret, caller.task.wakeupEarly)
    {
      Ledger.BookedEntered(book, state.done, state.queue, Callers(), caller, e);
      RepresentsAppend(state.queue, usedList, e, n);
      KnownAppend(usedList, n, clients, caller);
      NotOurs(caller);
      clients := clients + {caller, caller.task};
      book := Ledger.Entered(book, caller, caller.outret, caller.task.wakeupEarly);
      usedList, unusedList := usedList + [n], Without(unusedList, 0);
      state := State(state.queue + [e], state.accepted + 1, state.done);
    }

    lemma NotOurs(caller: Caller)
      ensures {caller, caller.task} !! Repr()
    {
    }

    lemma KnownAppend(s: seq<Node>, n: Node, known: set<object>, caller: Caller)
      requires Shape() && Owned(s) && Owned(s + [n]) && Known(s, known)
      requires 0 <= n.entry < SLOTS && slots[n.entry].caller == caller
      ensures Known(s + [n], known + {caller, caller.task})
      ensures CallersOf(s + [n]) == CallersOf(s) + [caller]
    {
    }

    lemma KnownWithout(s: seq<Node>, k: nat)
      requires Shape() && Owned(s) && Known(s, clients) && k < |s| && Owned(Without(s, k))
      ensures Known(Without(s, k), clients)
      ensures CallersOf(Without(s, k)) == Without(CallersOf(s), k)
    {
    }

    lemma RepresentsAppend(q: seq<Entry>, s: seq<Node>, e: Entry, n: Node)
      requires Shape() && Owned(s) && Owned(s + [n]) && Represents(q, s)
      requires 0 <= n.entry < SLOTS && slots[n.entry].req == e.req && slots[n.entry].sent == e.sent
      ensures Represents(q + [e], s + [n])
    {
    }

    // ----- completing a command -----

    /** Position i of the used list as the loops see it; the head stands for the end. */
    ghost function UsedAt(i: nat): Node
      requires i <= |usedList|
      reads this
    {
      if i < |usedList| then usedList[i] else used
    }

    lemma UsedNext(i: nat)
      requires Shape() && Owned(usedList) && Ring([used] + usedList) && i <= |usedList|
      ensures used.next == UsedAt(0)
      ensures i < |usedList| ==> UsedAt(i).next == UsedAt(i + 1)
      ensures UsedAt(i) == used <==> i == |usedList|
    {
      var c := [used] + usedList;
      Neighbours(c, 0);
      if i < |usedList| {
        Neighbours(c, i + 1);
      }
    }

    /** The k-th used slot becomes the last unused one. */
    method MoveBack(n: Node, ghost k: nat)
      requires Shape() && Owned(usedList) && Owned(unusedList) && Lists(usedList, unusedList) && k < |usedList|
              && n == usedList[k]
      modifies used, unused, nodes
      ensures Owned(Without(usedList, k)) && Owned(unusedList + [n])
      ensures Lists(Without(usedList, k), unusedList + [n])
    {
      Move(used, unused, usedList, unusedList, n, k);
    }

    lemma RepresentsWithout(q: seq<Entry>, s: seq<Node>, k: nat)
      requires Shape() && Owned(s) && Represents(q, s) && k < |s| && Owned(Without(s, k))
      ensures Represents(Without(q, k), Without(s, k))
    {
    }

    /** list_move_tail back to the unused list, once the callback has run. */
    method Finish(n: Node, ghost k: nat, ghost c: Completion)
      requires Valid() && k < |usedList| && n == usedList[k]
      modifies this`unusedList, this`usedList, this`state, used, unused, nodes
      ensures Valid() && usedList == Without(old(usedList), k) && Callers() == Without(old(Callers()), k)
      ensures state == Complete(old(state), k, c)
    {
      MoveBack(n, k);
      RepresentsWithout(state.queue, usedList, k);
      KnownWithout(usedList, k);
      Ledger.BookedWithout(book, state.done, state.queue, k, c);
      usedList, unusedList := Without(usedList, k), unusedList + [n];
      state := Complete(state, k, c);
    }

    /** The same, when the callback has left every issuer told of the completion as well. */
    method Settle(n: Node, ghost k: nat, ghost c: Completion)
      requires Valid() && k < |usedList| && n == usedList[k]
      modifies this`unusedList, this`usedList, this`state, used, unused, nodes
      ensures Valid() && usedList == Without(old(usedList), k) && Callers() == Without(old(Callers()), k)
      ensures state == Complete(old(state), k, c)
      ensures old(Ledger.Told(book, state.done + [Done(state.queue[k].id, c)])) ==> Told()
    {
      Finish(n, k, c);
    }

    /** The callback of the k-th waiting command. */
    method Invoke(n: Node, ghost k: nat, p: seq<byte>, behind: seq<byte>, timedout: bool) returns (ghost c: Completion)
      requires Valid() && k < |usedList| && n == usedList[k] && (timedout || ReplyPacket(p))
      modifies slots[n.entry].caller, slots[n.entry].caller.task
      ensures Valid()
      ensures c == if timedout then OnTimeout()
                   else OnReply(state.queue[k].req.action, state.queue[k].req.cmd, p)
      ensures Served(Callers()[k], state.queue[k].req.action, c, p, behind)
    {
      var s := slots[n.entry];
      c := if timedout then OnTimeout() else OnReply(s.req.action, s.req.cmd, p);
      Actions.Invoke(s.req.action, s.req.cmd, s.caller, p, behind, timedout);
    }

    method InvokeTold(n: Node, ghost k: nat, p: seq<byte>, behind: seq<byte>, timedout: bool)
      returns (ghost c: Completion)
      requires Valid() && k < |usedList| && n == usedList[k] && (timedout || ReplyPacket(p))
      modifies slots[n.entry].caller, slots[n.entry].caller.task
      ensures Valid()
      ensures c == if timedout then OnTimeout()
                   else OnReply(state.queue[k].req.action, state.queue[k].req.cmd, p)
      ensures Served(Callers()[k], state.queue[k].req.action, c, p, behind)
      ensures old(Told()) ==> Ledger.Told(book, state.done + [Done(state.queue[k].id, c)])
    {
      ghost var os, ls, d := Ledger.Outrets(book), Ledger.Latches(book), state.queue[k].id;
      IssuerIs(k);
      c := Invoke(n, k, p, behind, timedout);
      ghost var ps, ms := Ledger.Outrets(book), Ledger.Latches(book);
      assert Ledger.Only(book, Done(d, c), os, ls, ps, ms);
      if Ledger.ToldAll(book, state.done, os, ls) {
        Ledger.ToldAfter(book, state.done, Done(d, c), os, ls, ps, ms);
      }
    }

    lemma IssuerIs(k: nat)
      requires Valid() && k < |usedList|
      ensures Ledger.IssuerOf(book, state.queue[k].id) == Callers()[k] == slots[usedList[k].entry].caller
    {
      assert Callers()[k] == Ledger.IssuersOf(book, state.queue)[k];
    }

    /** The k-th waiting command gets its callback, and its slot is free again. */
    method Serve(n: Node, ghost k: nat, p: seq<byte>, behind: seq<byte>, timedout: bool) returns (ghost c: Completion)
      requires Valid() && k < |usedList| && n == usedList[k] && (timedout || ReplyPacket(p))
      modifies Repr(), slots[n.entry].caller, slots[n.entry].caller.task
      ensures Valid() && clients == old(clients) && book == old(book) && (old(Told()) ==> Told())
      ensures c == if timedout then OnTimeout()
                   else OnReply(old(state).queue[k].req.action, old(state).queue[k].req.cmd, p)
      ensures state == Complete(old(state), k, c)
      ensures usedList == Without(old(usedList), k) && Callers() == Without(old(Callers()), k)
      ensures Served(old(Callers())[k], old(state).queue[k].req.action, c, p, behind)
    {
      c := InvokeTold(n, k, p, behind, timedout);
      Settle(n, k, c);
    }

    /** The first command with the packet's sequence number. */
    method Answer(n: Node, ghost i: nat, p: seq<byte>, behind: seq<byte>)
      requires Valid() && ReplyPacket(p)
      requires i < |usedList| && n == usedList[i]
      requires NoneBefore(state.queue, p[SEQNO], i) && state.queue[i].req.seqno == p[SEQNO]
      modifies Repr(), slots[n.entry].caller, slots[n.entry].caller.task
      ensures Valid() && state == Pending.Acknowledge(old(state), p) && clients == old(clients)
      ensures book == old(book) && (old(Told()) ==> Told())
      ensures Find(old(state).queue, p[SEQNO]) == i && Callers() == Without(old(Callers()), i)
      ensures var req := old(state).queue[i].req;
              Served(old(Callers())[i], req.action, OnReply(req.action, req.cmd, p), p, behind)
    {
      FirstMatch(state, p, i);
      ghost var c := Serve(n, i, p, behind, false);
    }

    /** The loop of list_for_each_entry_safe up to the first command with the given number. */
    method FirstWith(seqno: byte) returns (pos: Node, ghost i: nat)
      requires Valid()
      ensures i <= |usedList| && pos == UsedAt(i) && (pos == used <==> i == |usedList|)
      ensures NoneBefore(state.queue, seqno, i) && (i < |usedList| ==> state.queue[i].req.seqno == seqno)
    {
      pos, i := used.next, 0;
      var n := pos.next;
      UsedNext(0);
      while pos != used
        invariant i <= |usedList| && pos == UsedAt(i) && n == pos.next
        invariant NoneBefore(state.queue, seqno, i)
        decreases |usedList| - i
      {
        UsedNext(i);
        if slots[pos.entry].req.seqno == seqno {
          return;
        }
        pos, n := n, n.next;
        i := i + 1;
      }
      UsedNext(i);
    }

    /** The acknowledgement branch of netcom_readcb: the first match, if there is one, gets its callback; no other
        issuer and no other task is touched. */
    method Acknowledge(p: seq<byte>, behind: seq<byte>)
      requires Valid() && ReplyPacket(p)
      modifies World()
      ensures Valid() && state == Pending.Acknowledge(old(state), p) && clients == old(clients)
      ensures book == old(book) && (old(Told()) ==> Told())
      ensures var q, j := old(state).queue, Find(old(state).queue, p[SEQNO]);
              if j == |q| then unchanged(World())
              else
                var c := old(Callers())[j];
                && Callers() == Without(old(Callers()), j)
                && Served(c, q[j].req.action, OnReply(q[j].req.action, q[j].req.cmd, p), p, behind)
                && forall o :: o in old(clients) && o != c && o != c.task ==> unchanged(o)
    {
      var pos; ghost var i;
      pos, i := FirstWith(p[SEQNO]);
      if pos == used {
        NoMatch(state, p);
        return;
      }
      IssuerIs(i);
      Answer(pos, i, p, behind);
    }

    /** netcom_timeoutcb: the same loop, left at the first command that has not timed out; issuers and tasks of the
        commands still waiting are not touched. */
    method Timeout(now: Timespec)
      requires Valid()
      modifies World()
      ensures Valid() && state == Expire(old(state), now) && clients == old(clients)
      ensures book == old(book) && (old(Told()) ==> Told())
      ensures var k := Expired(old(state).queue, now);
              && k <= |old(Callers())| && Callers() == old(Callers())[k..]
              && AllTimedOut(old(Callers())[..k])
              && forall o :: o in old(clients) && Apart(o, old(Callers())[..k]) ==> unchanged(o)
    {
      ghost var q, callers, gone := state, Callers(), [];
      var empty := IsEmpty(used, [used] + usedList);
      if !empty {
        gone := ScanUsed(now);
      }
      ExpireRemovesPrefix(q, now);
      assert callers[..|gone|] == gone && callers[|gone|..] == Callers();
    }

    method ScanUsed(now: Timespec) returns (ghost gone: seq<Caller?>)
      requires Valid()
      modifies World()
      ensures Valid() && state == Expire(old(state), now) && clients == old(clients)
      ensures book == old(book) && (old(Told()) ==> Told())
      ensures gone + Callers() == old(Callers()) && AllTimedOut(gone)
      ensures forall o :: o in old(clients) && Apart(o, gone) ==> unchanged(o)
    {
      var pos, n := used.next, used.next.next;
      ghost var p := (e: Entry) => TimedOut(now, e);
      gone := [];
      UsedNext(0);
      while pos != used
        invariant Valid() && pos == UsedAt(0) && n == pos.next && clients == old(clients)
        invariant book == old(book) && (old(Told()) ==> Told())
        invariant CompleteWhile(state, p) == CompleteWhile(old(state), p)
        invariant gone + Callers() == old(Callers()) && AllTimedOut(gone)
        invariant forall o :: o in old(clients) && Apart(o, gone) ==> unchanged(o)
        decreases |usedList|
      {
        FirstUsed(pos);
        if ElapsedMs(now, slots[pos.entry].sent) > TIMEOUT_MS {
          ghost var before := gone;
          gone := GiveUp(pos, gone);
          forall o | o in old(clients) && Apart(o, gone) ensures Apart(o, before) {
            ApartFewer(o, before, gone);
          }
          UsedNext(0);
        } else {
          break;
        }
        pos, n := n, n.next;
      }
      UsedNext(0);
    }

    lemma FirstUsed(pos: Node)
      requires Valid() && pos == UsedAt(0) && pos != used
      ensures usedList != [] && state.queue != [] && pos == usedList[0]
      ensures slots[pos.entry].sent == state.queue[0].sent
      ensures pos.next == UsedAt(1)
    {
      UsedNext(0);
    }

    /** The first waiting command times out, after others have. */
    method GiveUp(n: Node, ghost gone: seq<Caller?>) returns (ghost more: seq<Caller?>)
      requires Valid() && usedList != [] && n == usedList[0] && AllTimedOut(gone)
      modifies Repr(), slots[n.entry].caller, slots[n.entry].caller.task
      ensures Valid() && usedList == Without(old(usedList), 0) && clients == old(clients)
      ensures book == old(book) && (old(Told()) ==> Told())
      ensures state == Complete(old(state), 0, OnTimeout())
      ensures AllTimedOut(more) && more + Callers() == gone + old(Callers())
      ensures gone <= more && forall o :: o in clients && Apart(o, more) ==> unchanged(o)
    {
      ghost var first := Callers()[0];
      more := gone + [first];
      assert more[|gone|] == first;
      ghost var c := Serve(n, 0, [], [], true);
    }
  }

  /** The timeout has been recorded for each of the callers, and its task's latch is set. */
  ghost predicate AllTimedOut(cs: seq<Caller?>)
    reads cs, set c: Caller | c in cs :: c.task
  {
    forall i :: 0 <= i < |cs| ==> cs[i] != null && cs[i].outret == Code(Outcome.Timeout) && cs[i].task.wakeupEarly
  }

  /** o is none of the callers and none of their tasks. */
  ghost predicate Apart(o: object, cs: seq<Caller?>) {
    forall i :: 0 <= i < |cs| && cs[i] != null ==> o != cs[i] && o != cs[i].task
  }

  lemma ApartFewer(o: object, cs: seq<Caller?>, ds: seq<Caller?>)
    requires cs <= ds && Apart(o, ds)
    ensures Apart(o, cs)
  {
  }

  /** A command has joined the queue. */
  predicate Queued(s: State, t: State, req: Request, now: Timespec) {
    t == State(s.queue + [Entry(s.accepted, req, now)], s.accepted + 1, s.done)
  }

  lemma DistinctTail(h: Node, a: seq<Node>)
    requires Distinct([h] + a)
    ensures Distinct(a)
  {
    forall i, j | 0 <= i < j < |a| ensures a[i] != a[j] {
      assert ([h] + a)[i + 1] != ([h] + a)[j + 1];
    }
  }

  lemma Pigeonhole(all: seq<Node>, nodes: seq<Node>, k: nat)
    requires Distinct(all) && |all| == |nodes| && k < |nodes|
    requires forall i :: 0 <= i < |all| ==> 0 <= all[i].entry < |nodes| && all[i] == nodes[all[i].entry]
    ensures nodes[k] in all
  {
    if nodes[k] !in all {
      var s, t := set n | n in all, (set n | n in nodes) - {nodes[k]};
      CardinalityOf(all);
      CardinalityAtMost(nodes);
      SubsetCardinality(s, t);
    }
  }

  lemma {:induction false} CardinalityOf(c: seq<Node>)
    requires Distinct(c)
    ensures |set n | n in c| == |c|
  {
    if c != [] {
      var d, x := c[1..], c[0];
      CardinalityOf(d);
      assert (set n | n in c) == (set n | n in d) + {x};
    }
  }

  lemma {:induction false} CardinalityAtMost(c: seq<Node>)
    ensures |set n | n in c| <= |c|
  {
    if c != [] {
      var d, x := c[1..], c[0];
      CardinalityAtMost(d);
      assert (set n | n in c) == (set n | n in d) + {x};
    }
  }

  lemma {:induction false} SubsetCardinality(s: set<Node>, t: set<Node>)
    requires s <= t
    ensures |s| <= |t|
    decreases s
  {
    if s != {} {
      var x :| x in s;
      SubsetCardinality(s - {x}, t - {x});
    }
  }
}
