/** A user's preference list over the passages (server/shadowsocks/user_context.go, server.go). */
module UserContexts {
  import opened Options
  import opened Seqs
  import opened LruListSpec
  import opened LruLists

  function Vals<V>(nodes: seq<Node<V>>): (vs: seq<V>) {
    seq(|nodes|, i requires 0 <= i < |nodes| => nodes[i].val)
  }

  /** What a linear search finds. */
  function FirstHit<V, C>(vals: seq<V>, probe: V -> Option<C>): (hit: Option<(V, C)>) {
    if vals == [] then None
    else if probe(vals[0]).Some? then Some((vals[0], probe(vals[0]).value))
    else FirstHit(vals[1..], probe)
  }

  lemma {:induction false} FirstHitAt<V, C>(vals: seq<V>, probe: V -> Option<C>, k: nat)
    requires k <= |vals| && forall i :: 0 <= i < k ==> probe(vals[i]).None?
    ensures FirstHit(vals, probe) == FirstHit(vals[k..], probe)
  {
    if k == 0 {
      assert vals[0..] == vals;
    } else {
      FirstHitAt(vals, probe, k - 1);
      assert vals[k - 1..][0] == vals[k - 1] && vals[k - 1..][1..] == vals[k..];
    }
  }

  /** The first passage that the probe accepts, in the order of the list, is the one at position k, or there is none
    * and k is the end; its node alone is promoted. */
  method Auth<V, C>(l: LruList<V>, probe: V -> Option<C>) returns (hit: Option<(V, C)>, ghost k: nat)
    requires l.Valid()
    modifies l`lent, l.pool, l.pool.free, l.Nodes()
    ensures l.Valid() && l.Nodes() == old(l.Nodes()) && l.lent == old(l.lent)
    ensures hit == FirstHit(Vals(l.Nodes()), probe)
    ensures k <= |l.Nodes()| && (hit.Some? <==> k < |l.Nodes()|)
    ensures forall i :: 0 <= i < k ==> probe(Vals(l.Nodes())[i]).None?
    ensures hit.Some? ==>
      && l.Nodes()[k].val == hit.value.0 && probe(hit.value.0) == Some(hit.value.1)
      && var w := old(l.Nodes()[k].weight); l.Nodes()[k].weight == if w == 0xFFFF_FFFF then 0 else w + 1
    ensures forall n :: n in l.Nodes() && (hit.Some? ==> n != l.Nodes()[k]) ==> n.weight == old(n.weight)
  {
    ghost var nodes := l.Nodes();
    ghost var vals := Vals(nodes);
    var copy, n := l.GetListCopy();
    var i := 0;
    while i < n
      invariant 0 <= i <= n == |nodes| && l.Valid() && l.Nodes() == nodes && copy in l.lent
      invariant copy[..n] == nodes && l.lent == old(l.lent) + {copy}
      invariant forall j :: 0 <= j < i ==> probe(vals[j]).None?
      invariant forall m :: m in nodes ==> m.weight == old(m.weight)
    {
      assert copy[..n][i] == nodes[i];
      var server := copy[i].val;
      if probe(server).Some? {
        FirstHitAt(vals, probe, i);
        l.Promote(copy[i]);
        l.DestroyListCopy(copy);
        return Some((server, probe(server).value)), i;
      }
      i := i + 1;
    }
    FirstHitAt(vals, probe, n);
    l.DestroyListCopy(copy);
    return None, n;
  }

  function Keeping<V>(remove: V -> bool): Node<V> -> bool {
    (n: Node<V>) => !remove(n.val)
  }

  /** The loop of removePassagesFunc over one list: every node whose passage goes is taken out, the others keep their
    * order. */
  method RemoveWhere<V>(l: LruList<V>, remove: V -> bool)
    requires l.Valid()
    modifies l`lent, l`len, l.pool, l.pool.free, l.list
    ensures l.Valid() && l.list == old(l.list) && l.lent == old(l.lent)
    ensures l.Nodes() == Filter(old(l.Nodes()), Keeping(remove))
  {
    ghost var was := l.Nodes();
    var copy, n := l.GetListCopy();
    assert was[..0] == [] && was[0..] == was;
    for i := 0 to n
      invariant n == |was| && l.Valid() && l.list == old(l.list) && copy in l.lent && l.lent == old(l.lent) + {copy}
      invariant n <= copy.Length && copy[..n] == was
      invariant l.Nodes() == Filter(was[..i], Keeping(remove)) + was[i..]
    {
      assert copy[..n][i] == was[i];
      TakeOne(was, i, Keeping(remove));
      if remove(copy[i].val) {
        l.Remove(copy[i]);
      }
    }
    assert was[..n] == was && was[n..] == [];
    l.DestroyListCopy(copy);
  }

  /** One round of the loop: the node at i is the first of its kind among those left. */
  lemma TakeOne<T>(was: seq<T>, i: nat, keep: T -> bool)
    requires i < |was|
    ensures var done := Filter(was[..i], keep);
            if keep(was[i]) then done + was[i..] == Filter(was[..i + 1], keep) + was[i + 1..]
            else Without(done + was[i..], was[i]) == Filter(was[..i + 1], keep) + was[i + 1..]
  {
    var done := Filter(was[..i], keep);
    assert was[..i + 1] == was[..i] + [was[i]];
    FilterAppend(was[..i], [was[i]], keep);
    assert [was[i]][1..] == [];
    assert was[i..] == [was[i]] + was[i + 1..];
    if !keep(was[i]) {
      FilterMember(was[..i], keep, was[i]);
      assert (done + was[i..])[..|done|] == done;
      WithoutFirst(done + was[i..], |done|);
    }
  }
}
