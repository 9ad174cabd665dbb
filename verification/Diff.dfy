/** The diff of two keyed lists (common/common.go). */
module Diff {
  import opened Seqs

  function Missing<T, K(==)>(key: T -> K, keys: set<K>): T -> bool {
    x => key(x) !in keys
  }

  function Shared<T, K(==)>(key: T -> K, keys: set<K>): T -> bool {
    x => key(x) in keys
  }

  function KeysOf<T, K>(s: seq<T>, key: T -> K): (ks: set<K>) {
    set i | 0 <= i < |s| :: key(s[i])
  }

  lemma KeyOf<T, K>(s: seq<T>, key: T -> K, x: T)
    requires x in s
    ensures key(x) in KeysOf(s, key)
  {
  }

  /** What to take out of `from` and what to add to it: the elements whose keys the other list does not have. */
  method Change<T, K(==)>(from: seq<T>, to: seq<T>, key: T -> K) returns (toRemove: seq<T>, toAdd: seq<T>)
    ensures toRemove == Filter(from, Missing(key, KeysOf(to, key)))
    ensures toAdd == Filter(to, Missing(key, KeysOf(from, key)))
    ensures KeysOf(Filter(from, Shared(key, KeysOf(to, key))) + toAdd, key) == KeysOf(to, key)
  {
    var m: set<K> := {};
    for i := 0 to |to|
      invariant m == set j | 0 <= j < i :: key(to[j])
    {
      m := m + {key(to[i])};
    }
    assert m == KeysOf(to, key);
    toRemove := [];
    for i := 0 to |from|
      invariant toRemove == Filter(from[..i], Missing(key, m))
    {
      FilterNext(from, i, Missing(key, m));
      if key(from[i]) !in m {
        toRemove := toRemove + [from[i]];
      }
    }
    assert from[..|from|] == from;
    for i := 0 to |from|
      invariant m == KeysOf(to, key) - set j | 0 <= j < i :: key(from[j])
    {
      m := m - {key(from[i])};
    }
    toAdd := [];
    for i := 0 to |to|
      invariant toAdd == Filter(to[..i], Missing(key, KeysOf(from, key)))
    {
      FilterNext(to, i, Missing(key, KeysOf(from, key)));
      if key(to[i]) in m {
        toAdd := toAdd + [to[i]];
      }
    }
    assert to[..|to|] == to;
    ChangeConverges(from, to, key);
  }

  lemma FilterNext<T>(s: seq<T>, i: nat, p: T -> bool)
    requires i < |s|
    ensures Filter(s[..i + 1], p) == Filter(s[..i], p) + (if p(s[i]) then [s[i]] else [])
  {
    assert s[..i + 1] == s[..i] + [s[i]];
    FilterAppend(s[..i], [s[i]], p);
    assert [s[i]][1..] == [];
  }

  /** Made to the first list, the changes give exactly the keys of the second, and touch nothing whose key is in
    * both. */
  lemma ChangeConverges<T, K>(from: seq<T>, to: seq<T>, key: T -> K)
    ensures KeysOf(Filter(from, Shared(key, KeysOf(to, key))) + Filter(to, Missing(key, KeysOf(from, key))), key)
      == KeysOf(to, key)
  {
    var kept, added := Filter(from, Shared(key, KeysOf(to, key))), Filter(to, Missing(key, KeysOf(from, key)));
    forall k | k in KeysOf(kept + added, key) ensures k in KeysOf(to, key) {
      var i :| 0 <= i < |kept + added| && key((kept + added)[i]) == k;
      var x := (kept + added)[i];
      assert x in kept || x in added;
      FilterMember(from, Shared(key, KeysOf(to, key)), x);
      FilterMember(to, Missing(key, KeysOf(from, key)), x);
    }
    forall k | k in KeysOf(to, key) ensures k in KeysOf(kept + added, key) {
      if k in KeysOf(from, key) {
        var i :| 0 <= i < |from| && key(from[i]) == k;
        FilterMember(from, Shared(key, KeysOf(to, key)), from[i]);
        KeyOf(kept + added, key, from[i]);
      } else {
        var i :| 0 <= i < |to| && key(to[i]) == k;
        FilterMember(to, Missing(key, KeysOf(from, key)), to[i]);
        KeyOf(kept + added, key, to[i]);
      }
    }
  }
}
