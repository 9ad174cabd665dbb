/** The list in its arrays (infra/lrulist). */
module LruLists {
  import opened Bytes
  import opened Seqs
  import opened LruListSpec

  /** Nodes are distinct as nodes and as entries of an array. */
  lemma DistinctNodes<V>(s: seq<Node?<V>>)
    requires Distinct(s) && forall i :: 0 <= i < |s| ==> s[i] != null
    ensures var nodes: seq<Node<V>> := s; Distinct(nodes)
  {
    DistinctPairwise(s);
    var nodes: seq<Node<V>> := s;
    DistinctPairwise(nodes);
  }

  /** New nodes, one for each value. */
  ghost predicate NodesFor<V>(nodes: seq<Node<V>>, vals: seq<V>, w: uint32)
    reads nodes
  {
    |nodes| == |vals| && Distinct(nodes)
    && forall i :: 0 <= i < |vals| ==> nodes[i].val == vals[i] && nodes[i].weight == w
  }

  class Node<V> {
    const val: V
    var weight: uint32

    constructor (val: V, weight: uint32)
      ensures this.val == val && this.weight == weight
    {
      this.val, this.weight := val, weight;
    }
  }

  /** Arrays of one capacity. A recycled array may be handed out again or be forgotten: picks says which of those at
    * hand comes next, if any. closest rounds a length up to a capacity. */
  class GrowingPool<V> {
    var size: nat
    var free: seq<array<Node?<V>>>
    var picks: seq<nat>
    const closest: nat -> nat

    ghost predicate Valid()
      reads this
    {
      && Distinct(free)
      && (forall a :: a in free ==> a.Length == size)
      && (forall n: nat :: n <= closest(n))
    }

    constructor (need: nat, closest: nat -> nat, picks: seq<nat>)
      requires forall n: nat :: n <= closest(n)
      ensures Valid() && free == [] && need <= size
    {
      this.size, this.free, this.picks, this.closest := closest(need), [], picks, closest;
    }

    /** An array of the pool's size, new or recycled; what is in it is left over from before. */
    method Get(need: nat) returns (a: array<Node?<V>>)
      requires Valid()
      modifies this
      ensures Valid() && a.Length == size && need <= size
      ensures need <= old(size) ==> size == old(size)
      ensures need > old(size) ==> size > old(size) && fresh(a) && free == []
      ensures a !in free && (fresh(a) || a in old(free))
      ensures forall b :: b in free ==> b in old(free)
    {
      if need > size {
        size := closest(need);
        free := [];
      }
      if picks != [] && picks[0] < |free| {
        var k := picks[0];
        a := free[k];
        picks := picks[1..];
        CutDistinct(free, k);
        assert free[..k] + free[k + 1..] == Cut(free, k);
        free := free[..k] + free[k + 1..];
      } else {
        picks := if picks == [] then [] else picks[1..];
        a := new Node?<V>[size](_ => null);
      }
    }

    /** An array of another size is left to itself. */
    method Put(a: array<Node?<V>>)
      requires Valid() && a !in free
      modifies this`free
      ensures Valid()
      ensures free == if a.Length == size then old(free) + [a] else old(free)
    {
      if a.Length != size {
        return;
      }
      DistinctAppend(free, a);
      free := free + [a];
    }
  }

  class LruList<V> {
    var list: array<Node?<V>>
    var len: nat
    const pool: GrowingPool<V>
    var avg: uint32
    var max: uint32
    const insertFront: bool
    /** The copies that are in use. */
    ghost var lent: set<array<Node?<V>>>

    /** The backing array has the pool's size, and it, the arrays at hand and the copies in use are all different. */
    ghost predicate Valid()
      reads this, list, pool
    {
      && pool.Valid() && list.Length == pool.size && len <= list.Length
      && (forall i :: 0 <= i < len ==> list[i] != null)
      && list !in pool.free && list !in lent && (forall a :: a in lent ==> a !in pool.free)
    }

    ghost function Nodes(): (s: seq<Node<V>>)
      requires Valid()
      reads this, list, pool
    {
      list[..len]
    }

    constructor (insertFront: bool, vals: seq<V>, closest: nat -> nat, picks: seq<nat>)
      requires forall n: nat :: n <= closest(n)
      ensures Valid() && fresh(list) && fresh(pool) && lent == {}
      ensures |Nodes()| == |vals| && forall i :: 0 <= i < |vals| ==>
        fresh(Nodes()[i]) && Nodes()[i].val == vals[i] && Nodes()[i].weight == 0
      ensures Distinct(Nodes()) && avg == max == 0 && this.insertFront == insertFront
    {
      var p := new GrowingPool<V>(|vals|, closest, picks);
      var l := p.Get(|vals|);
      var i := 0;
      while i < |vals|
        invariant 0 <= i <= |vals| && p.Valid() && l !in p.free && l.Length == p.size && |vals| <= l.Length
        invariant fresh(l) && fresh(p)
        invariant forall j :: 0 <= j < i ==> l[j] != null && fresh(l[j]) && l[j].val == vals[j] && l[j].weight == 0
        invariant Distinct(l[..i])
      {
        ghost var made := l[..i];
        var node := new Node<V>(vals[i], 0);
        l[i] := node;
        assert l[..i + 1] == made + [node];
        DistinctAppend(made, node as Node?<V>);
        i := i + 1;
      }
      DistinctNodes(l[..i]);
      pool, list, len, avg, max := p, l, |vals|, 0, 0;
      this.insertFront := insertFront;
      lent := {};
    }

    /** A copy of the list for a traversal; it is nobody else's. */
    method GetListCopy() returns (copy: array<Node?<V>>, n: nat)
      requires Valid()
      modifies this`lent, pool, pool.free
      ensures Valid() && list == old(list) && list[..] == old(list[..]) && Nodes() == old(Nodes())
      ensures n == len <= copy.Length && copy[..n] == Nodes()
      ensures copy !in old(lent) && lent == old(lent) + {copy} && copy != list
      ensures fresh(copy) || copy in old(pool.free)
    {
      copy := pool.Get(len);
      n := len;
      var i := 0;
      while i < len
        invariant 0 <= i <= len && copy != list && copy !in pool.free && pool.Valid()
        invariant copy[..i] == list[..i] && list[..] == old(list[..])
        modifies copy
      {
        copy[i] := list[i];
        i := i + 1;
      }
      lent := lent + {copy};
    }

    method DestroyListCopy(copy: array<Node?<V>>)
      requires Valid() && copy in lent
      modifies this`lent, pool`free
      ensures Valid() && Nodes() == old(Nodes()) && lent == old(lent) - {copy}
    {
      pool.Put(copy);
      lent := lent - {copy};
    }

    method Promote(node: Node<V>)
      modifies node`weight
      ensures node.weight == Heavier(old(node.weight))
    {
      node.weight := (node.weight + 1) % 0x1_0000_0000;
    }

    ghost function Weights(): (ws: seq<uint32>)
      requires Valid()
      reads this, list, pool, Nodes()
    {
      WeightsOf(Nodes())
    }

    /** New nodes for vals go in front of the first lighter node, in place if the array has room and in a larger array
      * otherwise. */
    method Insert(vals: seq<V>) returns (k: nat, ghost added: seq<Node<V>>)
      requires Valid()
      modifies this`list, this`len, pool, list, pool.free
      ensures Valid() && lent == old(lent)
      ensures k == FirstLighter(old(Weights()), Heavier(if insertFront then max else avg))
      ensures fresh(added) && NodesFor(added, vals, Heavier(if insertFront then max else avg))
      ensures Nodes() == Spliced(old(Nodes()), k, added)
      ensures list == old(list) || fresh(list)
      ensures forall c :: c in lent ==> unchanged(c)
    {
      var newWeight := Heavier(if insertFront then max else avg);
      k := FindPosition(newWeight);
      if list.Length >= len + |vals| {
        added := InsertInPlace(vals, k, newWeight);
      } else {
        added := InsertMoving(vals, k, newWeight);
      }
    }

    method FindPosition(w: uint32) returns (k: nat)
      requires Valid()
      ensures k == FirstLighter(Weights(), w)
    {
      k := 0;
      while k < len && list[k].weight >= w
        invariant 0 <= k <= len
        invariant forall i :: 0 <= i < k ==> Weights()[i] >= w
      {
        k := k + 1;
      }
      FirstLighterAt(Weights(), w, k);
    }

    method InsertInPlace(vals: seq<V>, k: nat, w: uint32) returns (ghost added: seq<Node<V>>)
      requires Valid() && k <= len && len + |vals| <= list.Length
      modifies this`len, list
      ensures Valid() && fresh(added) && NodesFor(added, vals, w)
      ensures forall c :: c in lent ==> unchanged(c)
      ensures Nodes() == Spliced(old(Nodes()), k, added)
    {
      ghost var was := Nodes();
      added := ShiftIn(list, len, vals, k, w);
      ghost var whole := Spliced(was, k, added);
      len := len + |vals|;
      assert list[..len] == whole;
      assert forall j :: 0 <= j < |whole| ==> list[j] == whole[j];
    }

    method InsertMoving(vals: seq<V>, k: nat, w: uint32) returns (ghost added: seq<Node<V>>)
      requires Valid() && k <= len && len + |vals| > list.Length
      modifies this`list, this`len, pool, pool.free
      ensures Valid() && fresh(added) && fresh(list) && NodesFor(added, vals, w)
      ensures forall c :: c in lent ==> unchanged(c)
      ensures Nodes() == Spliced(old(Nodes()), k, added)
    {
      ghost var was := Nodes();
      var l := pool.Get(len + |vals|);
      added := CopyAround(list, len, l, vals, k, w);
      ghost var whole := Spliced(was, k, added);
      assert l[..len + |vals|] == whole;
      assert forall j :: 0 <= j < |whole| ==> l[j] == whole[j];
      pool.Put(list);
      list, len := l, len + |vals|;
    }

    method Remove(node: Node<V>)
      requires Valid()
      modifies this`len, list
      ensures Valid() && Nodes() == Without(old(Nodes()), node)
      ensures forall c :: c in lent ==> unchanged(c)
    {
      ghost var was := Nodes();
      var t := 0;
      while t < len && list[t] != node
        invariant 0 <= t <= len && node !in was[..t]
      {
        t := t + 1;
      }
      if t == len {
        WithoutAbsent(was, node);
        return;
      }
      WithoutFirst(was, t);
      ShiftOut(list, len, t);
      len := len - 1;
      assert list[..len] == Cut(was, t);
      assert forall j :: 0 <= j < len ==> list[j] == Cut(was, t)[j];
    }
  }

  /** Moves what follows position t to the left. */
  method ShiftOut<V>(a: array<Node?<V>>, len: nat, t: nat)
    requires t < len <= a.Length
    modifies a
    ensures a[..len - 1] == Cut(old(a[..len]), t)
  {
    ghost var was := a[..len];
    var i := t;
    while i < len - 1
      invariant t <= i <= len - 1
      invariant forall j :: 0 <= j < t ==> a[j] == was[j]
      invariant forall j :: t <= j < i ==> a[j] == was[j + 1]
      invariant forall j :: i < j < len ==> a[j] == was[j]
    {
      a[i] := a[i + 1];
      i := i + 1;
    }
    assert a[..len - 1] == Cut(was, t);
  }

  /** Moves what follows position k by n to the right. */
  method ShiftBack<V>(a: array<Node?<V>>, len: nat, k: nat, n: nat)
    requires k <= len && len + n <= a.Length
    modifies a
    ensures a[..k] == old(a[..k]) && a[k + n..len + n] == old(a[k..len])
  {
    ghost var was := a[..];
    var i := len;
    while i > k
      invariant k <= i <= len
      invariant forall j :: 0 <= j < i ==> a[j] == was[j]
      invariant forall j :: i + n <= j < len + n ==> a[j] == was[j - n]
    {
      i := i - 1;
      a[i + n] := a[i];
    }
  }

  /** A prefix, a middle and a rest are the whole. */
  lemma InThree<T>(s: seq<T>, i: nat, j: nat)
    requires i <= j <= |s|
    ensures s == s[..i] + s[i..j] + s[j..]
  {
  }

  lemma SliceOfSlice<T>(s: seq<T>, i: nat, j: nat, m: nat)
    requires i <= j <= m <= |s|
    ensures s[..m][i..j] == s[i..j] && s[i..][..j - i] == s[i..j] && s[..m][..i] == s[..i] && s[..m][j..] == s[j..m]
  {
  }

  /** The whole, from what each step has left of the one before. */
  lemma ShiftedIs<T>(was: seq<T>, len: nat, k: nat, added: seq<T>, moved: seq<T>, whole: seq<T>)
    requires k <= len && len + |added| <= |was| == |moved| == |whole|
    requires moved[..k] == was[..k] && moved[k + |added|..len + |added|] == was[k..len]
    requires whole[..k] == moved[..k] && whole[k..k + |added|] == added
    requires whole[k + |added|..] == moved[k + |added|..]
    ensures whole[..len + |added|] == Spliced(was[..len], k, added)
  {
    var n := |added|;
    SameBehind(whole, moved, k + n, k + n, len + n);
    SliceOfSlice(was, k, len, len);
    InThree(whole[..len + n], k, k + n);
    SliceOfSlice(whole, k, k + n, len + n);
    SliceOfSlice(whole, k + n, len + n, len + n);
  }

  /** Moves what follows position k to the right, and puts new nodes there. */
  method ShiftIn<V>(a: array<Node?<V>>, len: nat, vals: seq<V>, k: nat, w: uint32) returns (ghost added: seq<Node<V>>)
    requires k <= len && len + |vals| <= a.Length
    modifies a
    ensures fresh(added) && NodesFor(added, vals, w)
    ensures a[..len + |vals|] == Spliced(old(a[..len]), k, added)
  {
    ghost var was := a[..];
    ShiftBack(a, len, k, |vals|);
    ghost var moved := a[..];
    added := FillNew(a, vals, k, w);
    ShiftedIs(was, len, k, added, moved, a[..]);
  }

  /** Copies what follows position k of list to n places further on in l. */
  method CopyBack<V>(list: array<Node?<V>>, len: nat, l: array<Node?<V>>, k: nat, n: nat)
    requires k <= len <= list.Length && len + n <= l.Length && l != list
    modifies l
    ensures l[k + n..len + n] == list[k..len]
  {
    var i := len;
    while i > k
      invariant k <= i <= len && l[i + n..len + n] == list[i..len]
    {
      i := i - 1;
      ghost var done := l[i + 1 + n..len + n];
      l[i + n] := list[i];
      assert l[i + n..len + n] == [list[i]] + done;
    }
  }

  method CopyFront<V>(list: array<Node?<V>>, l: array<Node?<V>>, k: nat)
    requires k <= list.Length && k <= l.Length && l != list
    modifies l
    ensures l[..k] == list[..k] && l[k..] == old(l[k..])
  {
    var i := 0;
    while i < k
      invariant 0 <= i <= k && l[..i] == list[..i] && l[k..] == old(l[k..])
    {
      l[i] := list[i];
      i := i + 1;
    }
  }

  /** The whole, from what each step has left of the one before. */
  lemma AroundIs<T>(s: seq<T>, len: nat, k: nat, added: seq<T>, back: seq<T>, filled: seq<T>, whole: seq<T>)
    requires k <= len <= |s| && len + |added| <= |back| == |filled| == |whole|
    requires back[k + |added|..len + |added|] == s[k..len]
    requires filled[k..k + |added|] == added && filled[k + |added|..] == back[k + |added|..]
    requires whole[..k] == s[..k] && whole[k..] == filled[k..]
    ensures whole[..len + |added|] == Spliced(s[..len], k, added)
  {
    var n := |added|;
    SameBehind(whole, filled, k, k, k + n);
    SameBehind(whole, filled, k, k + n, len + n);
    SameBehind(filled, back, k + n, k + n, len + n);
    SliceOfSlice(s, k, len, len);
    InThree(whole[..len + n], k, k + n);
    SliceOfSlice(whole, k, k + n, len + n);
    SliceOfSlice(whole, k + n, len + n, len + n);
  }

  lemma SameBehind<T>(s: seq<T>, t: seq<T>, k: nat, i: nat, j: nat)
    requires |s| == |t| && k <= i <= j <= |s| && s[k..] == t[k..]
    ensures s[i..j] == t[i..j]
  {
    DropTake(s, k, i, j);
    DropTake(t, k, i, j);
  }

  lemma DropTake<T>(s: seq<T>, k: nat, i: nat, j: nat)
    requires k <= i <= j <= |s|
    ensures s[k..][i - k..j - k] == s[i..j]
  {
  }

  /** Fills l with the first len nodes of list, and new nodes at position k. */
  method CopyAround<V>(list: array<Node?<V>>, len: nat, l: array<Node?<V>>, vals: seq<V>, k: nat, w: uint32)
    returns (ghost added: seq<Node<V>>)
    requires k <= len <= list.Length && len + |vals| <= l.Length && l != list
    modifies l
    ensures fresh(added) && NodesFor(added, vals, w)
    ensures l[..len + |vals|] == Spliced(list[..len], k, added)
  {
    CopyBack(list, len, l, k, |vals|);
    ghost var back := l[..];
    added := FillNew(l, vals, k, w);
    ghost var filled := l[..];
    CopyFront(list, l, k);
    AroundIs(list[..], len, k, added, back, filled, l[..]);
  }

  ghost function WeightsOf<V>(nodes: seq<Node<V>>): (ws: seq<uint32>)
    reads nodes
  {
    seq(|nodes|, i requires 0 <= i < |nodes| reads nodes => nodes[i].weight)
  }

  /** Fills a[k..] with new nodes. */
  method FillNew<V>(a: array<Node?<V>>, vals: seq<V>, k: nat, w: uint32) returns (ghost added: seq<Node<V>>)
    requires k + |vals| <= a.Length
    modifies a
    ensures fresh(added) && NodesFor(added, vals, w) && a[k..k + |vals|] == added
    ensures a[..k] == old(a[..k]) && a[k + |vals|..] == old(a[k + |vals|..])
  {
    added := [];
    var i := 0;
    while i < |vals|
      invariant 0 <= i <= |vals| && |added| == i && fresh(added) && Distinct(added)
      invariant forall j :: 0 <= j < i ==> added[j].val == vals[j] && added[j].weight == w && a[k + j] == added[j]
      invariant forall j :: 0 <= j < k || k + |vals| <= j < a.Length ==> a[j] == old(a[j])
    {
      var node := new Node<V>(vals[i], w);
      a[k + i] := node;
      DistinctAppend(added, node);
      added := added + [node];
      i := i + 1;
    }
  }
}
