/**
 The intrusive circular doubly linked list of src/l0001-0/include/list.h.  A ring is the sequence of its
 nodes starting with the head; the sequence is what the operations are specified by.
 */
module ListHead {

  class Node {
    var next: Node
    var prev: Node
    const entry: int   // list_entry: which structure the node is embedded in

    /** INIT_LIST_HEAD */
    constructor (entry: int)
      ensures this.entry == entry && next == this && prev == this
    {
      this.entry := entry;
      next, prev := this, this;
    }
  }

  ghost predicate Distinct(c: seq<Node>) {
    forall i, j :: 0 <= i < j < |c| ==> c[i] != c[j]
  }

  function Succ(n: nat, i: nat): nat {
    if i + 1 < n then i + 1 else 0
  }

  function Pred(n: nat, i: nat): int {
    if i == 0 then n - 1 else i - 1
  }

  ghost predicate Ring(c: seq<Node>)
    reads c
  {
    && |c| > 0
    && Distinct(c)
    && (forall i {:trigger c[i].next} :: 0 <= i < |c| ==> c[i].next == c[Succ(|c|, i)])
    && (forall i {:trigger c[i].prev} :: 0 <= i < |c| ==> c[i].prev == c[Pred(|c|, i)])
  }

  /** __list_add */
  method AddBetween(n: Node, prev: Node, next: Node)
    requires n != prev && n != next
    modifies n, prev`next, next`prev
    ensures n.next == next && n.prev == prev && prev.next == n && next.prev == n
  {
    next.prev := n;
    n.next := next;
    n.prev := prev;
    prev.next := n;
  }

  /** __list_del */
  method DelBetween(prev: Node, next: Node)
    modifies prev`next, next`prev
    ensures next.prev == prev && prev.next == next
  {
    next.prev := prev;
    prev.next := next;
  }

  /** list_add: insert right after the head. */
  method Add(n: Node, head: Node, ghost c: seq<Node>)
    requires Ring(c) && c[0] == head && n !in c
    modifies n, head, head.next
    ensures Ring([head, n] + c[1..])
  {
    ghost var second, m := head.next, |c|;
    assert second == c[Succ(m, 0)];
    AddBetween(n, head, head.next);
    ghost var e := [head, n] + c[1..];
    forall j | 0 <= j < m
      ensures c[j].next == (if j == 0 then n else c[Succ(m, j)])
      ensures c[j].prev == (if j == Succ(m, 0) then n else c[Pred(m, j)])
    {
      assert j != 0 ==> c[j] != head;
      assert j != Succ(m, 0) ==> c[j] != second;
    }
    forall i | 0 <= i < |e|
      ensures e[i].next == e[Succ(|e|, i)] && e[i].prev == e[Pred(|e|, i)]
    {
      if i >= 2 {
        assert e[i] == c[i - 1];
      }
    }
  }

  /** list_add_tail: insert right before the head. */
  method AddTail(n: Node, head: Node, ghost c: seq<Node>)
    requires Ring(c) && c[0] == head && n !in c
    modifies n, head, head.prev
    ensures Ring(c + [n])
  {
    AddBetween(n, head.prev, head);
  }

  function Without<T>(s: seq<T>, k: nat): (r: seq<T>)
    requires k < |s|
    ensures |r| == |s| - 1
    ensures forall i :: 0 <= i < |r| ==> r[i] == s[if i < k then i else i + 1]
  {
    s[..k] + s[k + 1..]
  }

  /** Unlinking the k-th node leaves the ring of the others; the node's own pointers are not touched. */
  method Unlink(n: Node, ghost c: seq<Node>, ghost k: nat)
    requires Ring(c) && 0 < k < |c| && c[k] == n
    modifies n.prev`next, n.next`prev
    ensures Ring(Without(c, k))
  {
    ghost var m, b := |c|, Succ(|c|, k);
    assert n.prev == c[k - 1] && n.next == c[b];
    DelBetween(n.prev, n.next);
    forall j | 0 <= j < m
      ensures c[j].next == c[if j == k - 1 then b else Succ(m, j)]
      ensures c[j].prev == c[if j == b then k - 1 else Pred(m, j)]
    {
      assert j != k - 1 ==> c[j] != c[k - 1];
      assert j != b ==> c[j] != c[b];
    }
    RingWithout(c, k);
  }

  lemma RingWithout(c: seq<Node>, k: nat)
    requires 0 < k < |c| && Distinct(c)
    requires forall j {:trigger c[j].next} :: 0 <= j < |c| ==>
      c[j].next == c[if j == k - 1 then Succ(|c|, k) else Succ(|c|, j)]
    requires forall j {:trigger c[j].prev} :: 0 <= j < |c| ==>
      c[j].prev == c[if j == Succ(|c|, k) then k - 1 else Pred(|c|, j)]
    ensures Ring(Without(c, k))
  {
    var q := Without(c, k);
    forall i | 0 <= i < |q|
      ensures q[i].next == q[Succ(|q|, i)] && q[i].prev == q[Pred(|q|, i)]
    {
      NextWithout(c, k, i);
      PrevWithout(c, k, i);
    }
  }

  lemma NextWithout(c: seq<Node>, k: nat, i: nat)
    requires 0 < k < |c| && i < |c| - 1
    requires forall j {:trigger c[j].next} :: 0 <= j < |c| ==>
      c[j].next == c[if j == k - 1 then Succ(|c|, k) else Succ(|c|, j)]
    ensures var q := Without(c, k); q[i].next == q[Succ(|q|, i)]
  {
    assert Without(c, k)[i] == c[if i < k then i else i + 1];
  }

  lemma PrevWithout(c: seq<Node>, k: nat, i: nat)
    requires 0 < k < |c| && i < |c| - 1
    requires forall j {:trigger c[j].prev} :: 0 <= j < |c| ==>
      c[j].prev == c[if j == Succ(|c|, k) then k - 1 else Pred(|c|, j)]
    ensures var q := Without(c, k); q[i].prev == q[Pred(|q|, i)]
  {
    assert Without(c, k)[i] == c[if i < k then i else i + 1];
  }

  /** list_move_tail: take one node out of one ring and append it to another. */
  method MoveTail(n: Node, head: Node, ghost c: seq<Node>, ghost k: nat, ghost d: seq<Node>)
    requires Ring(c) && Ring(d) && d[0] == head
    requires 0 < k < |c| && c[k] == n
    requires forall x :: x in c ==> x !in d
    modifies n, n.prev, n.next, head, head.prev
    ensures Ring(Without(c, k)) && Ring(d + [n])
  {
    assert n.prev == c[k - 1] && n.next == c[Succ(|c|, k)] && head.prev == d[|d| - 1];
    MembersWithout(c, k);
    UnlinkBeside(n, c, k, d);
    AddTailBeside(n, head, d, Without(c, k));
  }

  method UnlinkBeside(n: Node, ghost c: seq<Node>, ghost k: nat, ghost d: seq<Node>)
    requires Ring(c) && 0 < k < |c| && c[k] == n && Ring(d)
    requires n.prev !in d && n.next !in d
    modifies n.prev`next, n.next`prev
    ensures Ring(Without(c, k)) && Ring(d)
  {
    Unlink(n, c, k);
  }

  method AddTailBeside(n: Node, head: Node, ghost d: seq<Node>, ghost q: seq<Node>)
    requires Ring(d) && d[0] == head && n !in d && Ring(q)
    requires n !in q && head !in q && head.prev !in q
    modifies n, head, head.prev
    ensures Ring(d + [n]) && Ring(q)
  {
    AddTail(n, head, d);
  }

  lemma MembersWithout(c: seq<Node>, k: nat)
    requires k < |c| && Distinct(c)
    ensures forall x :: x in Without(c, k) <==> x in c && x != c[k]
  {
    var q := Without(c, k);
    forall x | x in c && x != c[k]
      ensures x in q
    {
      var j :| 0 <= j < |c| && c[j] == x;
      assert q[if j < k then j else j - 1] == x;
    }
    forall x | x in q
      ensures x in c && x != c[k]
    {
      var i :| 0 <= i < |q| && q[i] == x;
      assert c[if i < k then i else i + 1] == x;
    }
  }

  /** list_empty */
  method IsEmpty(head: Node, ghost c: seq<Node>) returns (empty: bool)
    requires Ring(c) && c[0] == head
    ensures empty <==> |c| == 1
  {
    empty := head.next == head;
  }
}
