/** The doubly linked list between two sentinel nodes (infra/linklist/linklist.go). */
module Linklist {
  import opened Seqs

  class Node<T(0)> {
    var prior: Node?<T>
    var next: Node?<T>
    var val: T
  }

  /** next leads to the following node of s and prior back. */
  ghost predicate Chained<T(0)>(s: seq<Node<T>>)
    reads s`prior, s`next
  {
    |s| <= 1 || (s[0].next == s[1] && s[1].prior == s[0] && Chained(s[1..]))
  }

  ghost predicate ChainedAt<T(0)>(s: seq<Node<T>>, i: nat)
    reads s`prior, s`next
  {
    && (i < |s| - 1 ==> s[i].next == s[i + 1])
    && (1 <= i < |s| ==> s[i].prior == s[i - 1])
  }

  lemma {:induction false} ChainedPoints<T(0)>(s: seq<Node<T>>)
    ensures Chained(s) <==> forall i: nat :: i < |s| ==> ChainedAt(s, i)
  {
    if |s| > 1 {
      ChainedPoints(s[1..]);
      if forall i: nat :: i < |s| ==> ChainedAt(s, i) {
        assert ChainedAt(s, 0) && ChainedAt(s, 1);
        forall i: nat | i < |s[1..]| ensures ChainedAt(s[1..], i) {
          assert ChainedAt(s, i + 1);
        }
      }
      if Chained(s) {
        forall i: nat | i < |s| ensures ChainedAt(s, i) {
          assert i > 0 ==> ChainedAt(s[1..], i - 1);
          assert ChainedAt(s[1..], 0);
        }
      }
    }
  }

  class Linklist<T(0)> {
    var head: Node<T>
    var tail: Node<T>
    /** The linked nodes in order, as a client sees them. */
    ghost var nodes: seq<Node<T>>
    /** The linked nodes between the two sentinels. */
    ghost var spine: seq<Node<T>>
    /** The nodes this list may relink: the spine and what was once on it. */
    ghost var repr: set<Node<T>>

    ghost predicate Valid()
      reads this, spine
    {
      && |spine| >= 2 && spine[0] == head && spine[|spine| - 1] == tail
      && nodes == spine[1..|spine| - 1]
      && Within(spine, repr)
      && Distinct(spine)
      && Chained(spine)
      && head.prior == null && tail.next == null
    }

    lemma NodesOnSpine()
      requires Valid()
      ensures forall i :: 0 <= i < |spine| ==> spine[i] in repr
      ensures Distinct(nodes) && head !in nodes && tail !in nodes
      ensures forall i :: 0 <= i < |nodes| ==> nodes[i] in spine && nodes[i] in repr
    {
      WithinPoints(spine, repr);
      DistinctPairwise(spine);
      DistinctPairwise(nodes);
      assert forall i :: 0 <= i < |nodes| ==> nodes[i] == spine[i + 1];
    }

    /** The neighbours of the node at position k. */
    lemma Around(k: nat)
      requires Valid() && k < |spine|
      ensures ChainedAt(spine, k)
      ensures (spine[k] == head <==> k == 0) && (spine[k] == tail <==> k == |spine| - 1)
    {
      ChainedPoints(spine);
      DistinctAt(spine, k);
    }

    constructor ()
      ensures Valid() && nodes == [] && fresh(repr)
    {
      var h, t := new Node<T>, new Node<T>;
      h.prior, h.next, t.prior, t.next := null, t, h, null;
      head, tail := h, t;
      nodes, spine, repr := [], [h, t], {h, t};
      DistinctPairwise([h, t]);
    }

    method Front() returns (node: Node?<T>)
      requires Valid()
      ensures node == if nodes == [] then null else nodes[0]
    {
      Around(0);
      Around(1);
      node := head.next;
      if node == tail {
        node := null;
      }
    }

    method Back() returns (node: Node?<T>)
      requires Valid()
      ensures node == if nodes == [] then null else nodes[|nodes| - 1]
    {
      Around(|spine| - 1);
      Around(|spine| - 2);
      node := tail.prior;
      if node == head {
        node := null;
      }
    }

    method Empty() returns (empty: bool)
      requires Valid()
      ensures empty <==> nodes == []
    {
      Around(0);
      Around(1);
      empty := head.next == tail;
    }

    /** A client may overwrite what a node holds. */
    method SetVal(n: Node<T>, val: T)
      requires Valid()
      modifies n`val
      ensures Valid() && n.val == val
    {
      n.val := val;
    }

    /** Takes the node at position k of the spine out of the chain. */
    method Unlink(p: Node<T>, ghost k: nat)
      requires Valid() && 1 <= k < |spine| - 1 && spine[k] == p
      modifies this`nodes, this`spine, (spine[k - 1] as Node<T>)`next, (spine[k + 1] as Node<T>)`prior
      ensures Valid() && spine == old(Cut(spine, k)) && p !in spine
      ensures nodes == old(Cut(nodes, k - 1))
    {
      ghost var s := spine;
      Around(k);
      ChainedPoints(s);
      CutDistinct(s, k);
      WithinCut(s, repr, k);
      CutMiddle(s, k);
      DistinctAt(s, k - 1);
      DistinctAt(s, k + 1);
      p.prior.next := p.next;
      p.next.prior := p.prior;
      spine := Cut(s, k);
      nodes := Cut(nodes, k - 1);
      forall i: nat | i < |spine| ensures ChainedAt(spine, i) {
        assert old(ChainedAt(s, if i < k then i else i + 1));
      }
      ChainedPoints(spine);
    }

    /** Puts p between prior and next, the nodes at positions k - 1 and k of the spine. */
    method Link(p: Node<T>, prior: Node<T>, next: Node<T>, ghost k: nat)
      requires Valid() && 1 <= k < |spine| && p !in spine && p in repr
      requires prior == spine[k - 1] && next == spine[k]
      modifies this`nodes, this`spine, p`prior, p`next, prior`next, next`prior
      ensures Valid() && spine == old(Paste(spine, k, p))
      ensures k == 1 ==> nodes == [p] + old(nodes)
      ensures k == |old(spine)| - 1 ==> nodes == old(nodes) + [p]
    {
      ghost var s := spine;
      ChainedPoints(s);
      PasteDistinct(s, k, p);
      WithinPaste(s, repr, k, p);
      PasteMiddle(s, k, p);
      DistinctAt(s, k - 1);
      DistinctAt(s, k);
      p.prior := prior;
      p.next := next;
      next.prior := p;
      prior.next := p;
      spine := Paste(s, k, p);
      nodes := Paste(nodes, k - 1, p);
      forall i: nat | i < |spine| ensures ChainedAt(spine, i) {
        if i != k {
          assert old(ChainedAt(s, if i < k then i else i - 1));
        }
      }
      ChainedPoints(spine);
    }

    /** Links a fresh node behind prior, or does nothing when prior is the tail sentinel. */
    method InsertAfter(prior: Node<T>, val: T) returns (p: Node?<T>)
      requires Valid() && prior in spine
      modifies this`nodes, this`spine, this`repr, repr`prior, repr`next
      ensures Valid() && (p == null <==> prior == tail)
      ensures p == null ==> spine == old(spine) && repr == old(repr)
      ensures p != null ==> fresh(p) && p.val == val && repr == old(repr) + {p}
      ensures p != null ==> forall k :: 0 <= k < |old(spine)| && old(spine)[k] == prior ==>
        spine == Paste(old(spine), k + 1, p)
    {
      if prior == tail {
        return null;
      }
      ghost var k :| 0 <= k < |spine| && spine[k] == prior;
      Around(k);
      DistinctAt(spine, k);
      WithinPoints(spine, repr);
      p := new Node<T>;
      p.val := val;
      repr := repr + {p};
      WithinPoints(spine, repr);
      Link(p, prior, prior.next, k + 1);
    }

    /** The node before the tail sentinel. */
    method Last() returns (n: Node<T>)
      requires Valid()
      ensures n == spine[|spine| - 2] && n == tail.prior && n != tail
    {
      Around(|spine| - 1);
      Around(|spine| - 2);
      n := tail.prior;
    }

    method PushFront(val: T) returns (p: Node<T>)
      requires Valid()
      modifies this`nodes, this`spine, this`repr, repr`prior, repr`next
      ensures Valid() && fresh(p) && p.val == val
      ensures nodes == [p] + old(nodes) && repr == old(repr) + {p}
    {
      p := InsertAfter(head, val);
      assert old(spine)[0] == head;
      assert spine == Paste(old(spine), 1, p);
    }

    method PushBack(val: T) returns (p: Node<T>)
      requires Valid()
      modifies this`nodes, this`spine, this`repr, repr`prior, repr`next
      ensures Valid() && fresh(p) && p.val == val
      ensures nodes == old(nodes) + [p] && repr == old(repr) + {p}
    {
      var last := Last();
      p := InsertAfter(last, val);
      assert spine == Paste(old(spine), |old(spine)| - 1, p);
    }

    method Promote(p: Node<T>)
      requires Valid() && p in nodes
      modifies this`nodes, this`spine, repr`prior, repr`next
      ensures Valid()
      ensures nodes == [p] + Without(old(nodes), p)
    {
      NodesOnSpine();
      var front := Front();
      if p == front {
        WithoutAt(nodes, 0);
        return;
      }
      MoveToFront(p);
    }

    method MoveToFront(p: Node<T>)
      requires Valid() && p in nodes
      modifies this`nodes, this`spine, repr`prior, repr`next
      ensures Valid()
      ensures nodes == [p] + Without(old(nodes), p)
    {
      NodesOnSpine();
      ghost var k := Locate(p);
      Unlink(p, k);
      Around(0);
      Link(p, head, head.next, 1);
    }

    method Demote(p: Node<T>)
      requires Valid() && p in nodes
      modifies this`nodes, this`spine, repr`prior, repr`next
      ensures Valid()
      ensures nodes == Without(old(nodes), p) + [p]
    {
      NodesOnSpine();
      var back := Back();
      if p == back {
        LastStays(nodes);
        return;
      }
      MoveToBack(p);
    }

    method MoveToBack(p: Node<T>)
      requires Valid() && p in nodes
      modifies this`nodes, this`spine, repr`prior, repr`next
      ensures Valid()
      ensures nodes == Without(old(nodes), p) + [p]
    {
      NodesOnSpine();
      ghost var k := Locate(p);
      Unlink(p, k);
      var last := Last();
      Link(p, last, tail, |spine| - 1);
    }

    /** Unlinks p; a sentinel is left alone. */
    method Remove(p: Node<T>)
      requires Valid() && p in spine
      modifies this`nodes, this`spine, repr`prior, repr`next
      ensures Valid()
      ensures nodes == Without(old(nodes), p)
      ensures p == head || p == tail ==> spine == old(spine)
    {
      if p == head || p == tail {
        DistinctAt(spine, if p == head then 0 else |spine| - 1);
        WithoutAbsent(nodes, p);
        return;
      }
      ghost var k := Locate(p);
      NodesOnSpine();
      Unlink(p, k);
    }

    /** Where a client node sits on the spine. */
    lemma Locate(p: Node<T>) returns (k: nat)
      requires Valid() && p in spine && p != head && p != tail
      ensures 1 <= k < |spine| - 1 && spine[k] == p
      ensures Without(nodes, p) == Cut(nodes, k - 1)
    {
      k :| 1 <= k < |spine| - 1 && spine[k] == p;
      NodesOnSpine();
      WithoutAt(nodes, k - 1);
    }
  }

  /** prior and next are mutually inverse and only the sentinels end the chain. */
  lemma LinksInverse<T(0)>(l: Linklist<T>, n: Node<T>)
    requires l.Valid() && n in l.spine
    ensures n.next == null <==> n == l.tail
    ensures n.prior == null <==> n == l.head
    ensures n.next != null ==> n.next in l.spine && n.next.prior == n
    ensures n.prior != null ==> n.prior in l.spine && n.prior.next == n
  {
    var k :| 0 <= k < |l.spine| && l.spine[k] == n;
    l.Around(k);
    if k > 0 {
      l.Around(k - 1);
    }
    if k < |l.spine| - 1 {
      l.Around(k + 1);
    }
  }
}
