/** The keyed cache with recency order, as a list of entries (infra/lru/lru.go). */
module LruSpec {
  import opened Options
  import opened Seqs

  datatype Strategy = FixedLength | FixedTimeout

  /** One cached value as the cache orders it: most recently used first. */
  datatype Entry<K, V> = Entry(key: K, value: V, lastUse: int)

  ghost function Keys<K, V>(s: seq<Entry<K, V>>): (ks: set<K>) {
    set e | e in s :: e.key
  }

  /** The position of key in s, or |s|. */
  ghost function Find<K, V>(s: seq<Entry<K, V>>, key: K): (i: nat)
    ensures i <= |s| && (i < |s| ==> s[i].key == key) && (i == |s| <==> key !in Keys(s))
    ensures forall j :: 0 <= j < i ==> s[j].key != key
  {
    if s == [] || s[0].key == key then
      (if s != [] then assert s[0] in s; 0 else 0)
    else
      assert s == [s[0]] + s[1..];
      1 + Find(s[1..], key)
  }

  /** Using key at time now moves its entry to the front and stamps it. */
  ghost function Touch<K, V>(s: seq<Entry<K, V>>, key: K, now: int): seq<Entry<K, V>> {
    var i := Find(s, key);
    if i == |s| then s else [s[i].(lastUse := now)] + Cut(s, i)
  }

  /** s holds v under key. */
  ghost predicate Cached<K, V>(s: seq<Entry<K, V>>, key: K, v: V) {
    exists e :: e in s && e.key == key && e.value == v
  }

  ghost function Lookup<K, V>(s: seq<Entry<K, V>>, key: K): (r: Option<V>)
    ensures r.Some? <==> key in Keys(s)
    ensures r.Some? ==> Cached(s, key, r.value)
  {
    var i := Find(s, key);
    if i == |s| then None else
      assert s[i] in s;
      Some(s[i].value)
  }

  /** What popping from the back leaves: everything up to the last fresh entry. */
  ghost function PopStale<K, V>(s: seq<Entry<K, V>>, now: int, limit: int): seq<Entry<K, V>> {
    if s == [] || now - s[|s| - 1].lastUse < limit then s else PopStale(s[..|s| - 1], now, limit)
  }

  ghost function Evict<K, V>(strategy: Strategy, limit: int, s: seq<Entry<K, V>>, now: int): seq<Entry<K, V>> {
    match strategy
    case FixedLength => if |s| > limit && s != [] then s[..|s| - 1] else s
    case FixedTimeout => PopStale(s, now, limit)
  }

  /** A fresh entry goes to the front, then the strategy trims the back. */
  ghost function Insert<K, V>(strategy: Strategy, limit: int, s: seq<Entry<K, V>>, key: K, value: V, used: int,
                              now: int)
    : seq<Entry<K, V>>
  {
    Evict(strategy, limit, [Entry(key, value, used)] + s, now)
  }
}
