/** The keyed cache as it is kept: a linked list and two maps (infra/lru/lru.go). */
module Lru {
  import opened Seqs
  import opened Linklist
  import opened LruSpec
  import opened Options

  /** A cached value with the time of its last use. */
  datatype Encapsulated<V> = Encapsulated(value: V, lastUseTime: int)

  /** Node and key lead to each other through the two maps. */
  ghost predicate Holds<N, K>(n: N, k: K, index: map<K, N>, reverse: map<N, K>) {
    k in index && index[k] == n && n in reverse && reverse[n] == k
  }

  ghost predicate Linked<N, K, V>(nodes: seq<N>, s: seq<Entry<K, V>>, index: map<K, N>, reverse: map<N, K>) {
    |nodes| == |s| && (s == [] ||
      (Holds(nodes[0], s[0].key, index, reverse) && Linked(nodes[1..], s[1..], index, reverse)))
  }

  /** index and reverse are mutually inverse and onto exactly the linked nodes and the cached keys. */
  ghost predicate Agrees<N, K, V>(nodes: seq<N>, s: seq<Entry<K, V>>, index: map<K, N>, reverse: map<N, K>) {
    Linked(nodes, s, index, reverse) && index.Keys == Keys(s) && reverse.Keys == Members(nodes)
  }

  /** The values evicted from s when only its first k entries stay, back first. */
  ghost function Removed<K, V>(s: seq<Entry<K, V>>, k: nat): (r: seq<Encapsulated<V>>)
  {
    if |s| <= k then [] else [LastOut(s)] + Removed(s[..|s| - 1], k)
  }

  ghost predicate LastStale<K, V>(s: seq<Entry<K, V>>, now: int, limit: int) {
    s != [] && now - s[|s| - 1].lastUse >= limit
  }

  ghost function LastOut<K, V>(s: seq<Entry<K, V>>): (ev: Encapsulated<V>)
    requires s != []
  {
    Encapsulated(s[|s| - 1].value, s[|s| - 1].lastUse)
  }

  /** Every entry behind the first k is reported, the last one first. */
  lemma {:induction false} RemovedAt<K, V>(s: seq<Entry<K, V>>, k: nat, i: nat)
    requires k <= |s| && i < |s| - k
    ensures |Removed(s, k)| == |s| - k
    ensures var e := s[|s| - 1 - i]; Removed(s, k)[i] == Encapsulated(e.value, e.lastUse)
  {
    if |s| - 1 > k {
      RemovedAt(s[..|s| - 1], k, if i == 0 then 0 else i - 1);
    }
  }

  class Lru<K(==), V> {
    const list: Linklist<Option<Encapsulated<V>>>
    var index: map<K, Node<Option<Encapsulated<V>>>>
    var reverseIndex: map<Node<Option<Encapsulated<V>>>, K>
    const strategy: Strategy
    const limit: int
    /** What the cache holds, most recently used first. */
    ghost var entries: seq<Entry<K, V>>

    ghost predicate Valid()
      reads this, list, list.spine, list.nodes
    {
      Listed() && Agrees(list.nodes, entries, index, reverseIndex)
    }

    ghost predicate Listed()
      reads this, list, list.spine, list.nodes
    {
      list.Valid() && Stamped(list.nodes, entries)
    }

    /** Each node holds its entry's value and time. */
    static ghost predicate Stamped(nodes: seq<Node<Option<Encapsulated<V>>>>, s: seq<Entry<K, V>>)
      reads nodes`val
    {
      |nodes| == |s| && (s == [] ||
        (nodes[0].val == Some(Encapsulated(s[0].value, s[0].lastUse)) && Stamped(nodes[1..], s[1..])))
    }

    static lemma {:induction false} StampedCut(nodes: seq<Node<Option<Encapsulated<V>>>>, s: seq<Entry<K, V>>, k: nat)
      requires Stamped(nodes, s) && k < |s|
      ensures nodes[k].val == Some(Encapsulated(s[k].value, s[k].lastUse))
      ensures Stamped(Cut(nodes, k), Cut(s, k))
    {
      if k == 0 {
        assert Cut(nodes, 0) == nodes[1..] && Cut(s, 0) == s[1..];
      } else {
        StampedCut(nodes[1..], s[1..], k - 1);
        assert Cut(nodes, k)[1..] == Cut(nodes[1..], k - 1) && Cut(s, k)[1..] == Cut(s[1..], k - 1);
      }
    }

    static lemma StampedPush(n: Node<Option<Encapsulated<V>>>, e: Entry<K, V>,
                             nodes: seq<Node<Option<Encapsulated<V>>>>, s: seq<Entry<K, V>>)
      requires Stamped(nodes, s) && n.val == Some(Encapsulated(e.value, e.lastUse))
      ensures Stamped([n] + nodes, [e] + s)
    {
      assert ([n] + nodes)[1..] == nodes && ([e] + s)[1..] == s;
    }

    constructor (strategy: Strategy, limit: int)
      ensures Valid() && entries == [] && this.strategy == strategy && this.limit == limit
      ensures fresh(list) && fresh(list.repr)
    {
      list := new Linklist();
      index, reverseIndex := map[], map[];
      this.strategy, this.limit := strategy, limit;
      entries := [];
    }

    /** Moves the node of entry i to the front of the list. */
    method Front(v: Node<Option<Encapsulated<V>>>, ghost i: nat)
      requires Listed() && i < |entries| && list.nodes[i] == v
      modifies list`nodes, list`spine, list.repr`prior, list.repr`next
      ensures list.Valid() && list.nodes == old([v] + Cut(list.nodes, i))
      ensures v !in old(Cut(list.nodes, i)) && v in list.repr
      ensures Stamped(old(Cut(list.nodes, i)), Cut(entries, i))
      ensures v.val == Some(Encapsulated(entries[i].value, entries[i].lastUse))
    {
      list.NodesOnSpine();
      WithoutAt(list.nodes, i);
      CutDistinct(list.nodes, i);
      StampedCut(list.nodes, entries, i);
      list.Promote(v);
    }

    /** Moves the node of entry i to the front and stamps it. */
    method Use(v: Node<Option<Encapsulated<V>>>, ghost i: nat, now: int)
      requires Listed() && i < |entries| && list.nodes[i] == v
      modifies this`entries, list`nodes, list`spine, list.repr`prior, list.repr`next, v`val
      ensures Listed() && list.nodes == old([v] + Cut(list.nodes, i))
      ensures entries == old([entries[i].(lastUse := now)] + Cut(entries, i))
    {
      ghost var rest, e := Cut(list.nodes, i), entries[i].(lastUse := now);
      Front(v, i);
      list.SetVal(v, Some(v.val.value.(lastUseTime := now)));
      assert Stamped(rest, Cut(entries, i));
      StampedPush(v, e, rest, Cut(entries, i));
      entries := [e] + Cut(entries, i);
    }

    /** Looks key up and, when present, makes it the most recently used entry. */
    method Get(key: K, now: int) returns (r: Option<V>)
      requires Valid()
      modifies this`entries, list`nodes, list`spine, list.repr`prior, list.repr`next, list.repr`val
      ensures Valid() && r == Lookup(old(entries), key)
      ensures r.Some? <==> key in Keys(old(entries))
      ensures r.Some? ==> Cached(old(entries), key, r.value)
      ensures entries == Touch(old(entries), key, now)
    {
      FindNode(list.nodes, entries, index, reverseIndex, key);
      if key !in index {
        return None;
      }
      var v := index[key];
      ghost var i := Find(entries, key);
      list.NodesOnSpine();
      AgreesTouched(list.nodes, entries, index, reverseIndex, i, now);
      StampedCut(list.nodes, entries, i);
      r := Some(v.val.value.value);
      Use(v, i, now);
    }

    /** Unlinks the least recently used node. */
    method Unlink(back: Node<Option<Encapsulated<V>>>)
      requires Listed() && entries != [] && back == list.nodes[|entries| - 1]
      modifies this`entries, list`nodes, list`spine, list.repr`prior, list.repr`next
      ensures Listed()
      ensures entries == old(Cut(entries, |entries| - 1))
      ensures list.nodes == old(Cut(list.nodes, |entries| - 1))
    {
      ghost var last := |entries| - 1;
      list.NodesOnSpine();
      WithoutAt(list.nodes, last);
      StampedCut(list.nodes, entries, last);
      list.Remove(back);
      entries := Cut(entries, last);
    }

    /** Unlinks the least recently used node and forgets its key. */
    method DropBack(back: Node<Option<Encapsulated<V>>>)
      requires Valid() && entries != [] && back == list.nodes[|entries| - 1]
      modifies this, list`nodes, list`spine, list.repr`prior, list.repr`next
      ensures Valid()
      ensures entries == old(entries[..|entries| - 1]) && list.repr == old(list.repr)
    {
      list.NodesOnSpine();
      CutLast(entries);
      AgreesDropped(list.nodes, entries, index, reverseIndex);
      var key := reverseIndex[back];
      Unlink(back);
      Forget(key, back);
    }

    method Forget(key: K, back: Node<Option<Encapsulated<V>>>)
      requires Listed()
      modifies this`index, this`reverseIndex
      ensures Listed() && index == old(index) - {key} && reverseIndex == old(reverseIndex) - {back}
    {
      index := index - {key};
      reverseIndex := reverseIndex - {back};
    }

    /** Puts the node of a new entry at the front of the list. */
    method PushNode(key: K, val: V, used: int) returns (node: Node<Option<Encapsulated<V>>>)
      requires Listed()
      modifies this`entries, list`nodes, list`spine, list`repr, list.repr`prior, list.repr`next
      ensures Listed() && entries == [Entry(key, val, used)] + old(entries)
      ensures list.nodes == [node] + old(list.nodes) && node !in old(list.nodes)
      ensures fresh(list.repr - old(list.repr))
    {
      ghost var e, s, nodes := Entry(key, val, used), entries, list.nodes;
      list.NodesOnSpine();
      node := list.PushFront(Some(Encapsulated(val, used)));
      StampedPush(node, e, nodes, s);
      entries := [e] + s;
    }

    /** Puts a new entry at the front. */
    method Push(key: K, val: V, used: int)
      requires Valid() && key !in index
      modifies this, list`nodes, list`spine, list`repr, list.repr`prior, list.repr`next
      ensures Valid() && entries == [Entry(key, val, used)] + old(entries)
      ensures fresh(list.repr - old(list.repr))
    {
      ghost var s, nodes := entries, list.nodes;
      var node := PushNode(key, val, used);
      AgreesPushed(node, Entry(key, val, used), nodes, s, index, reverseIndex);
      index := index[key := node];
      reverseIndex := reverseIndex[node := key];
    }

    /** The last node holds the last entry. */
    lemma BackHolds()
      requires Valid() && entries != []
      ensures var e := entries[|entries| - 1];
              list.nodes[|entries| - 1].val == Some(Encapsulated(e.value, e.lastUse))
    {
      StampedCut(list.nodes, entries, |entries| - 1);
    }

    /** Adds a key that is not cached and trims the cache; used and now are the two clock readings. */
    method Insert(key: K, val: V, used: int, now: int) returns (removed: seq<Encapsulated<V>>)
      requires Valid() && key !in index
      modifies this, list`nodes, list`spine, list`repr, list.repr`prior, list.repr`next
      ensures Valid()
      ensures entries == LruSpec.Insert(strategy, limit, old(entries), key, val, used, now)
      ensures removed == Removed([Entry(key, val, used)] + old(entries), |entries|)
    {
      Push(key, val, used);
      match strategy
      case FixedLength => removed := TrimLength();
      case FixedTimeout => removed := TrimStale(now);
    }

    method TrimLength() returns (removed: seq<Encapsulated<V>>)
      requires Valid() && entries != []
      modifies this, list`nodes, list`spine, list.repr`prior, list.repr`next
      ensures Valid()
      ensures entries == Evict(FixedLength, limit, old(entries), 0)
      ensures removed == Removed(old(entries), |entries|)
    {
      removed := [];
      Sized();
      if |index| > limit {
        var back := list.Back();
        BackHolds();
        removed := [back.val.value];
        DropBack(back);
      }
    }

    /** Pops the last node if it has timed out. */
    method PopIfStale(now: int) returns (popped: Option<Encapsulated<V>>)
      requires Valid()
      modifies this, list`nodes, list`spine, list.repr`prior, list.repr`next
      ensures Valid() && list.repr == old(list.repr)
      ensures popped.Some? <==> LastStale(old(entries), now, limit)
      ensures popped.None? ==> entries == old(entries)
      ensures popped.Some? ==> entries == old(entries)[..|old(entries)| - 1] && popped.value == LastOut(old(entries))
    {
      var back := list.Back();
      if back == null {
        return None;
      }
      BackHolds();
      var ev := back.val.value;
      if now - ev.lastUseTime < limit {
        return None;
      }
      DropBack(back);
      return Some(ev);
    }

    /** Pops timed-out nodes from the back until the last one is fresh. */
    method TrimStale(now: int) returns (removed: seq<Encapsulated<V>>)
      requires Valid()
      modifies this, list`nodes, list`spine, list.repr`prior, list.repr`next
      ensures Valid()
      ensures entries == PopStale(old(entries), now, limit)
      ensures removed == Removed(old(entries), |entries|)
    {
      removed := [];
      ghost var all := Popped(entries, now, limit);
      PoppedIs(entries, now, limit);
      while true
        invariant Valid() && list.repr == old(list.repr)
        invariant Popped(entries, now, limit).0 == all.0 && removed + Popped(entries, now, limit).1 == all.1
        decreases |entries|
      {
        var popped := PopIfStale(now);
        if popped.None? {
          break;
        }
        AppendAssoc(removed, [popped.value], Popped(entries, now, limit).1);
        removed := removed + [popped.value];
      }
    }

    /** index has one key per entry. */
    lemma Sized()
      requires Valid()
      ensures |index| == |entries|
    {
      list.NodesOnSpine();
      AgreesSized(list.nodes, entries, index, reverseIndex);
      assert |index| == |index.Keys|;
    }

    /** The cached value of key, or val, which is then cached. */
    method GetOrInsert(key: K, val: V, used: int, now: int) returns (r: V, removed: seq<Encapsulated<V>>)
      requires Valid()
      modifies this, list`nodes, list`spine, list`repr, list.repr`prior, list.repr`next, list.repr`val
      ensures Valid()
      ensures match Lookup(old(entries), key)
              case Some(v) => r == v && removed == [] && entries == Touch(old(entries), key, used)
              case None =>
                && r == val
                && entries == LruSpec.Insert(strategy, limit, old(entries), key, val, used, now)
                && removed == Removed([Entry(key, val, used)] + old(entries), |entries|)
      ensures key in Keys(old(entries)) ==> Cached(old(entries), key, r)
      ensures key !in Keys(old(entries)) ==> r == val
    {
      FindNode(list.nodes, entries, index, reverseIndex, key);
      ghost var s := entries;
      var hit := Get(key, used);
      match hit
      case Some(v) =>
        r, removed := v, [];
      case None =>
        r := val;
        removed := Insert(key, val, used, now);
    }
  }

  /** What popping from the back leaves, and what it takes out. */
  ghost function Popped<K, V>(s: seq<Entry<K, V>>, now: int, limit: int): (seq<Entry<K, V>>, seq<Encapsulated<V>>) {
    if !LastStale(s, now, limit) then (s, []) else
      var (left, out) := Popped(s[..|s| - 1], now, limit);
      (left, [LastOut(s)] + out)
  }

  lemma {:induction false} PoppedIs<K, V>(s: seq<Entry<K, V>>, now: int, limit: int)
    ensures Popped(s, now, limit).0 == PopStale(s, now, limit) && |PopStale(s, now, limit)| <= |s|
    ensures Popped(s, now, limit).1 == Removed(s, |PopStale(s, now, limit)|)
  {
    if LastStale(s, now, limit) {
      PoppedIs(s[..|s| - 1], now, limit);
    }
  }

  lemma {:induction false} AgreesSized<N, K, V>(nodes: seq<N>, s: seq<Entry<K, V>>, index: map<K, N>,
                                                reverse: map<N, K>)
    requires Agrees(nodes, s, index, reverse) && Distinct(nodes)
    ensures |index.Keys| == |s|
  {
    if s == [] {
      assert index.Keys == {};
    } else {
      var last := |s| - 1;
      AgreesDropped(nodes, s, index, reverse);
      CutDistinct(nodes, last);
      AgreesSized(Cut(nodes, last), Cut(s, last), index - {s[last].key}, reverse - {nodes[last]});
      assert index.Keys == (index - {s[last].key}).Keys + {s[last].key};
    }
  }

  lemma {:induction false} LinkedAt<N, K, V>(nodes: seq<N>, s: seq<Entry<K, V>>, index: map<K, N>, reverse: map<N, K>,
                                             i: nat)
    requires Linked(nodes, s, index, reverse) && i < |s|
    ensures Holds(nodes[i], s[i].key, index, reverse)
  {
    if i > 0 {
      LinkedAt(nodes[1..], s[1..], index, reverse, i - 1);
    }
  }

  /** Linked, point by point. */
  lemma {:induction false} LinkedIntro<N, K, V>(nodes: seq<N>, s: seq<Entry<K, V>>, index: map<K, N>,
                                                reverse: map<N, K>)
    requires |nodes| == |s| && forall i :: 0 <= i < |s| ==> Holds(nodes[i], s[i].key, index, reverse)
    ensures Linked(nodes, s, index, reverse)
  {
    if s != [] {
      forall i | 0 <= i < |s[1..]| ensures Holds(nodes[1..][i], s[1..][i].key, index, reverse) {
        assert Holds(nodes[i + 1], s[i + 1].key, index, reverse);
      }
      LinkedIntro(nodes[1..], s[1..], index, reverse);
    }
  }

  /** A present key's node sits where its entry does. */
  lemma FindNode<N, K, V>(nodes: seq<N>, s: seq<Entry<K, V>>, index: map<K, N>, reverse: map<N, K>, key: K)
    requires Agrees(nodes, s, index, reverse)
    ensures key in index <==> Find(s, key) < |s|
    ensures key in index ==> nodes[Find(s, key)] == index[key]
  {
    if key in index {
      LinkedAt(nodes, s, index, reverse, Find(s, key));
    }
  }

  lemma KeysCut<K, V>(s: seq<Entry<K, V>>, k: nat)
    requires k < |s|
    ensures Keys(s) == Keys(Cut(s, k)) + {s[k].key}
  {
    MembersCut(s, k);
    assert forall e :: e in s ==> e in Members(s);
    forall e | e in s ensures e.key in Keys(Cut(s, k)) + {s[k].key} {
      assert e in Members(Cut(s, k)) + {s[k]};
    }
    forall e | e in Cut(s, k) ensures e in s {
      assert e in Members(s);
    }
    assert s[k] in s;
  }

  lemma AgreesTouched<N, K, V>(nodes: seq<N>, s: seq<Entry<K, V>>, index: map<K, N>, reverse: map<N, K>, i: nat,
                               now: int)
    requires Agrees(nodes, s, index, reverse) && i < |s|
    ensures Agrees([nodes[i]] + Cut(nodes, i), [s[i].(lastUse := now)] + Cut(s, i), index, reverse)
  {
    var nodes', s' := [nodes[i]] + Cut(nodes, i), [s[i].(lastUse := now)] + Cut(s, i);
    forall j | 0 <= j < |s| ensures Holds(nodes'[j], s'[j].key, index, reverse) {
      LinkedAt(nodes, s, index, reverse, if j == 0 then i else if j <= i then j - 1 else j);
    }
    LinkedIntro(nodes', s', index, reverse);
    MembersCut(nodes, i);
    MembersCut(nodes', 0);
    assert Cut(nodes', 0) == Cut(nodes, i);
    KeysCut(s, i);
    KeysCut(s', 0);
    assert Cut(s', 0) == Cut(s, i);
  }

  lemma AgreesDropped<N, K, V>(nodes: seq<N>, s: seq<Entry<K, V>>, index: map<K, N>, reverse: map<N, K>)
    requires Agrees(nodes, s, index, reverse) && s != [] && Distinct(nodes)
    ensures Holds(nodes[|s| - 1], s[|s| - 1].key, index, reverse)
    ensures Agrees(Cut(nodes, |s| - 1), Cut(s, |s| - 1), index - {s[|s| - 1].key}, reverse - {nodes[|s| - 1]})
  {
    var last := |s| - 1;
    DistinctAt(nodes, last);
    LinkedAt(nodes, s, index, reverse, last);
    var index', reverse' := index - {s[last].key}, reverse - {nodes[last]};
    forall i | 0 <= i < last ensures Holds(Cut(nodes, last)[i], Cut(s, last)[i].key, index', reverse') {
      LinkedAt(nodes, s, index, reverse, i);
    }
    LinkedIntro(Cut(nodes, last), Cut(s, last), index', reverse');
    KeysCut(s, last);
    MembersCut(nodes, last);
    forall e | e in Cut(s, last) ensures e.key != s[last].key {
      var i :| 0 <= i < last && s[i] == e;
      LinkedAt(nodes, s, index, reverse, i);
    }
    CutDistinct(nodes, last);
  }

  lemma {:induction false} LinkedGrow<N, K, V>(nodes: seq<N>, s: seq<Entry<K, V>>, index: map<K, N>,
                                               reverse: map<N, K>, n: N, k: K)
    requires Linked(nodes, s, index, reverse) && n !in reverse && k !in index
    ensures Linked(nodes, s, index[k := n], reverse[n := k])
  {
    if s != [] {
      LinkedGrow(nodes[1..], s[1..], index, reverse, n, k);
    }
  }

  lemma PushTail<T>(x: T, s: seq<T>)
    ensures ([x] + s)[0] == x && ([x] + s)[1..] == s && Members([x] + s) == Members(s) + {x}
  {
  }

  lemma KeysPush<K, V>(e: Entry<K, V>, s: seq<Entry<K, V>>)
    ensures Keys([e] + s) == Keys(s) + {e.key}
  {
    assert e in [e] + s;
  }

  lemma AgreesPushed<N, K, V>(n: N, e: Entry<K, V>, nodes: seq<N>, s: seq<Entry<K, V>>, index: map<K, N>,
                              reverse: map<N, K>)
    requires Agrees(nodes, s, index, reverse) && n !in nodes && e.key !in index
    ensures Agrees([n] + nodes, [e] + s, index[e.key := n], reverse[n := e.key])
  {
    LinkedGrow(nodes, s, index, reverse, n, e.key);
    PushTail(n, nodes);
    PushTail(e, s);
    KeysPush(e, s);
  }
}
