/** Circular doubly linked queues.  The head is a node like any other; a node in no queue is linked to itself. */
module Queues {
  import opened Sequences

  class QueueNode {
    var prev: QueueNode
    var next: QueueNode

    constructor ()
      ensures Alone()
    {
      prev, next := this, this;
    }

    predicate Alone()
      reads this
    {
      prev == this && next == this
    }
  }

  function Following(i: nat, n: nat): (k: nat)
    ensures i < n ==> k < n
  {
    if i + 1 == n then 0 else i + 1
  }

  /** Distinct nodes, each linked to the following one, and the last one to the first. */
  ghost predicate Ring(r: seq<QueueNode>)
    reads r
  {
    && (forall i, j | 0 <= i < j < |r| :: r[i] != r[j])
    && (forall i {:trigger Following(i, |r|)} | 0 <= i < |r| ::
       r[i].next == r[Following(i, |r|)] && r[Following(i, |r|)].prev == r[i])
  }

  lemma {:induction false} WithoutAt(q: seq<QueueNode>, i: nat)
    requires i < |q| && forall i, j | 0 <= i < j < |q| :: q[i] != q[j]
    ensures Without(q, q[i]) == q[..i] + q[i + 1..]
  {
    WithoutMembers(q[1..], q[i]);
    if i > 0 {
      WithoutAt(q[1..], i - 1);
    }
  }

  /** The neighbours of `n` are linked to each other; `n` itself keeps its links. */
  method Bypass(n: QueueNode, ghost r: seq<QueueNode>, ghost i: nat)
    requires Ring(r) && 0 < i < |r| && n == r[i]
    modifies r
    ensures Ring(r[..i] + r[i + 1..])
  {
    hide Following;
    WriteBypass(n, r, i);
    ghost var r' := r[..i] + r[i + 1..];
    forall k | 0 <= k < |r'|
      ensures r'[k].next == r'[Following(k, |r'|)] && r'[Following(k, |r'|)].prev == r'[k]
    {
      Skipped(r, i, k);
      var l := if k < i then k else k + 1;
      assert l != i - 1 ==> old(r[l].next) == r[Following(l, |r|)] && old(r[Following(l, |r|)].prev) == r[l];
    }
    assert forall k | 0 <= k < |r'| :: r'[k] == if k < i then r[k] else r[k + 1];
  }

  lemma {:induction false} Skipped(r: seq<QueueNode>, i: nat, k: nat)
    requires 0 < i < |r| && k + 1 < |r|
    ensures var r', l := r[..i] + r[i + 1..], if k < i then k else k + 1;
      && r'[k] == r[l] && Following(k, |r'|) < |r'| && Following(l, |r|) < |r| && Following(i, |r|) < |r|
      && r'[Following(k, |r'|)] == r[Following(if k == i - 1 then i else l, |r|)]
      && (l != i - 1 ==> Following(l, |r|) != Following(i, |r|))
  {
  }

  method WriteBypass(n: QueueNode, ghost r: seq<QueueNode>, ghost i: nat)
    requires Ring(r) && 0 < i < |r| && n == r[i]
    modifies r
    ensures r[i - 1].next == r[Following(i, |r|)] && r[Following(i, |r|)].prev == r[i - 1]
    ensures forall k | 0 <= k < |r| && k != i - 1 :: r[k].next == old(r[k].next)
    ensures forall k | 0 <= k < |r| && k != Following(i, |r|) :: r[k].prev == old(r[k].prev)
  {
    assert r[Following(i - 1, |r|)].prev == r[i - 1] && r[i].next == r[Following(i, |r|)];
    n.prev.next := n.next;
    n.next.prev := n.prev;
  }

  lemma {:induction false} Removed(head: QueueNode, q: seq<QueueNode>, i: nat)
    requires Ring([head] + q) && i < |q|
    ensures var r, rest := [head] + q, q[..i] + q[i + 1..];
      r[i + 1] == q[i] && r[..i + 1] + r[i + 2..] == [head] + rest && q[i] !in rest && q[i] != head
  {
    var r := [head] + q;
    assert r[0] == head && forall k | 0 <= k < |q| :: q[k] == r[k + 1];
    assert r[..i + 1] + r[i + 2..] == [head] + (q[..i] + q[i + 1..]);
  }

  class Queue {
    const head: QueueNode
    ghost var nodes: seq<QueueNode>

    constructor ()
      ensures Valid() && nodes == [] && fresh(head)
    {
      head := new QueueNode();
      nodes := [];
    }

    ghost predicate Valid()
      reads this, head, nodes
    {
      Ring([head] + nodes)
    }

    method IsEmpty() returns (empty: bool)
      requires Valid()
      ensures empty <==> nodes == []
    {
      ghost var r := [head] + nodes;
      assert r[Following(|nodes|, |r|)].prev == r[|nodes|];
      empty := head.prev == head;
    }

    /** Says of a node that is in this queue or in none which of the two holds. */
    method IsEnqueued(n: QueueNode) returns (enqueued: bool)
      requires Valid() && (n in nodes || n.Alone())
      ensures enqueued <==> n in nodes
    {
      Member(n);
      enqueued := n.prev != n;
    }

    lemma {:induction false} Member(n: QueueNode)
      requires Valid()
      ensures n in nodes ==> n.prev != n && n.next != n
    {
      ghost var r := [head] + nodes;
      if n in nodes {
        var i :| 0 <= i < |nodes| && nodes[i] == n;
        assert r[i + 1] == n && r[Following(i, |r|)].prev == r[i] && r[i + 1].next == r[Following(i + 1, |r|)];
      }
    }

    method First() returns (n: QueueNode?)
      requires Valid()
      ensures n == if nodes == [] then null else nodes[0]
    {
      ghost var r := [head] + nodes;
      assert r[0].next == r[Following(0, |r|)];
      var empty := IsEmpty();
      n := if empty then null else head.next;
    }

    method Last() returns (n: QueueNode?)
      requires Valid()
      ensures n == if nodes == [] then null else nodes[|nodes| - 1]
    {
      ghost var r := [head] + nodes;
      assert r[Following(|nodes|, |r|)].prev == r[|nodes|];
      var empty := IsEmpty();
      n := if empty then null else head.prev;
    }

    method Prepend(n: QueueNode)
      requires Valid() && n != head && n !in nodes
      modifies this, head, nodes, n
      ensures Valid() && nodes == [n] + old(nodes)
    {
      ghost var r := [head] + nodes;
      assert r[0].next == r[Following(0, |r|)];
      n.next := head.next;
      n.prev := head;
      n.next.prev := n;
      head.next := n;
      nodes := [n] + nodes;
      ghost var r' := [head] + nodes;
      assert forall k | 1 < k < |r'| :: r'[k] == r[k - 1];
      assert r'[1] == n && r'[0] == head;
      forall i | 0 <= i < |r'|
        ensures r'[i].next == r'[Following(i, |r'|)] && r'[Following(i, |r'|)].prev == r'[i]
      {
        if i >= 1 {
          assert old(r[i - 1].next) == r[Following(i - 1, |r|)] && old(r[Following(i - 1, |r|)].prev) == r[i - 1];
        }
      }
    }

    method Append(n: QueueNode)
      requires Valid() && n != head && n !in nodes
      modifies this, head, nodes, n
      ensures Valid() && nodes == old(nodes) + [n]
    {
      ghost var r := [head] + nodes;
      assert r[Following(|nodes|, |r|)].prev == r[|nodes|];
      n.next := head;
      n.prev := head.prev;
      n.prev.next := n;
      head.prev := n;
      nodes := nodes + [n];
      ghost var r' := [head] + nodes;
      assert forall k | 0 <= k < |r| :: r'[k] == r[k];
      assert r'[|r|] == n;
      forall i | 0 <= i < |r'|
        ensures r'[i].next == r'[Following(i, |r'|)] && r'[Following(i, |r'|)].prev == r'[i]
      {
        if i < |r| {
          assert old(r[i].next) == r[Following(i, |r|)] && old(r[Following(i, |r|)].prev) == r[i];
        }
      }
    }

    method Detach(n: QueueNode, ghost i: nat)
      requires Valid() && i < |nodes| && nodes[i] == n
      modifies this, head, nodes
      ensures Valid() && nodes == old(nodes[..i] + nodes[i + 1..]) && n !in nodes && n != head
    {
      hide Ring;
      ghost var r := [head] + nodes;
      Removed(head, nodes, i);
      Bypass(n, r, i + 1);
      nodes := nodes[..i] + nodes[i + 1..];
    }

    /** The position of a node, and what is left without it. */
    lemma {:induction false} Position(n: QueueNode) returns (i: nat)
      requires Valid() && n in nodes
      ensures i < |nodes| && nodes[i] == n && nodes[..i] + nodes[i + 1..] == Without(nodes, n)
    {
      i :| 0 <= i < |nodes| && nodes[i] == n;
      ghost var r := [head] + nodes;
      assert forall k | 0 <= k < |nodes| :: nodes[k] == r[k + 1];
      WithoutAt(nodes, i);
    }

    method MoveToStart(n: QueueNode)
      requires Valid() && n in nodes
      modifies this, head, nodes
      ensures Valid() && nodes == [n] + Without(old(nodes), n)
    {
      ghost var i := Position(n);
      Detach(n, i);
      Prepend(n);
    }

    method MoveToEnd(n: QueueNode)
      requires Valid() && n in nodes
      modifies this, head, nodes
      ensures Valid() && nodes == Without(old(nodes), n) + [n]
    {
      ghost var i := Position(n);
      Detach(n, i);
      Append(n);
    }

    method Remove(n: QueueNode)
      requires Valid() && n in nodes
      modifies this, head, nodes
      ensures Valid() && nodes == Without(old(nodes), n) && n.Alone()
    {
      ghost var i := Position(n);
      Detach(n, i);
      n.prev := n;
      n.next := n;
    }
  }

  /** A node has one pair of links, so it is never in two queues at once. */
  lemma {:induction false} NeverInTwo(q1: Queue, q2: Queue)
    requires q1.Valid() && q2.Valid()
    requires q1.head != q2.head && q1.head !in q2.nodes && q2.head !in q1.nodes
    ensures forall n | n in q1.nodes :: n !in q2.nodes
  {
    hide Ring;
    var r1, r2 := [q1.head] + q1.nodes, [q2.head] + q2.nodes;
    forall n | n in q1.nodes
      ensures n !in q2.nodes
    {
      var i :| 0 <= i < |q1.nodes| && q1.nodes[i] == n;
      forall j | 0 <= j < |q2.nodes|
        ensures q2.nodes[j] != n
      {
        RingsApart(r1, r2, i + 1, j + 1);
      }
    }
  }

  /** Walking backwards from a shared node would lead to one of the heads in the other ring. */
  lemma {:induction false} RingsApart(r1: seq<QueueNode>, r2: seq<QueueNode>, i: nat, j: nat)
    requires Ring(r1) && Ring(r2) && i < |r1| && j < |r2| && r1[0] !in r2 && r2[0] !in r1
    ensures r1[i] != r2[j]
  {
    if i > 0 && j > 0 {
      RingsApart(r1, r2, i - 1, j - 1);
      assert r1[Following(i - 1, |r1|)].prev == r1[i - 1];
      assert r2[Following(j - 1, |r2|)].prev == r2[j - 1];
    }
  }
}
