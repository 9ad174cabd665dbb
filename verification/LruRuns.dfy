/** What whole runs of the keyed cache keep, and the two simple caches it refines. */
module LruRuns {
  import opened Seqs
  import opened LruSpec
  import opened Options

  /** A call with its clock readings: used stamps the entry, now decides what has timed out. */
  datatype Op<K, V> =
    | Get(key: K, used: int)
    | GetOrInsert(key: K, val: V, used: int, now: int)

  ghost function Step<K, V>(strategy: Strategy, limit: int, s: seq<Entry<K, V>>, op: Op<K, V>): seq<Entry<K, V>> {
    match op
    case Get(key, used) => Touch(s, key, used)
    case GetOrInsert(key, val, used, now) =>
      if key in Keys(s) then Touch(s, key, used) else Insert(strategy, limit, s, key, val, used, now)
  }

  ghost function Run<K, V>(strategy: Strategy, limit: int, ops: seq<Op<K, V>>): seq<Entry<K, V>> {
    if ops == [] then [] else Step(strategy, limit, Run(strategy, limit, ops[..|ops| - 1]), ops[|ops| - 1])
  }

  /** The last clock reading of the run. */
  ghost function Clock<K, V>(ops: seq<Op<K, V>>): int
    requires ops != []
  {
    var op := ops[|ops| - 1];
    if op.Get? then op.used else op.now
  }

  /** Clock readings never go back. */
  ghost predicate Monotone<K, V>(ops: seq<Op<K, V>>) {
    ops == [] ||
    (var op, before := ops[|ops| - 1], ops[..|ops| - 1];
     Monotone(before) && (op.GetOrInsert? ==> op.used <= op.now) && (before != [] ==> Clock(before) <= op.used))
  }

  /** Front to back the times of last use never rise, and none lies after t. */
  ghost predicate Sorted<K, V>(s: seq<Entry<K, V>>, t: int) {
    s == [] || (s[0].lastUse <= t && Sorted(s[1..], s[0].lastUse))
  }

  ghost function KeySeq<K, V>(s: seq<Entry<K, V>>): (ks: seq<K>)
    ensures |ks| == |s| && forall i :: 0 <= i < |s| ==> ks[i] == s[i].key
  {
    seq(|s|, i requires 0 <= i < |s| => s[i].key)
  }

  lemma {:induction false} SortedPoints<K, V>(s: seq<Entry<K, V>>, t: int)
    ensures Sorted(s, t) <==>
      (forall i :: 0 <= i < |s| ==> s[i].lastUse <= t)
      && (forall i, j :: 0 <= i < j < |s| ==> s[j].lastUse <= s[i].lastUse)
  {
    if s != [] {
      var u := s[1..];
      SortedPoints(u, s[0].lastUse);
      assert forall i :: 1 <= i < |s| ==> s[i] == u[i - 1];
      assert forall i :: 0 <= i < |u| ==> u[i] == s[i + 1];
    }
  }

  lemma SortedTouch<K, V>(s: seq<Entry<K, V>>, key: K, t: int, now: int)
    requires Sorted(s, t) && t <= now
    ensures Sorted(Touch(s, key, now), now)
  {
    var i, r := Find(s, key), Touch(s, key, now);
    SortedPoints(s, t);
    if i < |s| {
      forall j | 0 < j < |r| ensures r[j] == s[if j <= i then j - 1 else j] {
      }
    }
    SortedPoints(r, now);
  }

  lemma {:induction false} SortedEvict<K, V>(strategy: Strategy, limit: int, s: seq<Entry<K, V>>, t: int, now: int)
    requires Sorted(s, t)
    ensures Sorted(Evict(strategy, limit, s, now), t)
    ensures Evict(strategy, limit, s, now) <= s
    decreases |s|
  {
    if s != [] {
      SortedPoints(s, t);
      SortedPoints(s[..|s| - 1], t);
      if strategy == FixedTimeout {
        SortedEvict(strategy, limit, s[..|s| - 1], t, now);
      }
    }
  }

  /** Over whole runs with a monotone clock the list stays sorted by last use and no key is cached twice. */
  lemma {:induction false} RunSorted<K, V>(strategy: Strategy, limit: int, ops: seq<Op<K, V>>)
    requires Monotone(ops) && ops != []
    ensures Sorted(Run(strategy, limit, ops), Clock(ops))
  {
    var op, before := ops[|ops| - 1], ops[..|ops| - 1];
    var s := Run(strategy, limit, before);
    if before != [] {
      RunSorted(strategy, limit, before);
      SortedPoints(s, Clock(before));
    }
    SortedPoints(s, op.used);
    if op.Get? || op.key in Keys(s) {
      SortedTouch(s, op.key, op.used, op.used);
      SortedPoints(Step(strategy, limit, s, op), op.used);
      SortedPoints(Step(strategy, limit, s, op), Clock(ops));
    } else {
      var pushed := [Entry(op.key, op.val, op.used)] + s;
      assert pushed[1..] == s;
      SortedEvict(strategy, limit, pushed, op.used, op.now);
      SortedPoints(Step(strategy, limit, s, op), op.used);
      SortedPoints(Step(strategy, limit, s, op), op.now);
    }
  }

  /** On a sorted list the eviction loop, which stops at the first fresh entry, keeps exactly the fresh ones. */
  lemma {:induction false} PopStaleExact<K, V>(s: seq<Entry<K, V>>, t: int, now: int, limit: int)
    requires Sorted(s, t)
    ensures PopStale(s, now, limit) == Filter(s, (e: Entry<K, V>) => now - e.lastUse < limit)
  {
    var fresh' := (e: Entry<K, V>) => now - e.lastUse < limit;
    if s != [] {
      SortedPoints(s, t);
      var init, last := s[..|s| - 1], s[|s| - 1];
      assert s == init + [last];
      FilterAppend(init, [last], fresh');
      if now - last.lastUse < limit {
        FilterAll(s, fresh');
      } else {
        SortedPoints(init, t);
        PopStaleExact(init, t, now, limit);
      }
    }
  }

  // ---- No key twice ----

  lemma KeySeqTouched<K, V>(s: seq<Entry<K, V>>, i: nat, now: int)
    requires i < |s|
    ensures KeySeq([s[i].(lastUse := now)] + Cut(s, i)) == [s[i].key] + Cut(KeySeq(s), i)
  {
  }

  /** Using a cached key moves it to the front of the key order. */
  lemma TouchKeys<K, V>(s: seq<Entry<K, V>>, key: K, now: int)
    requires key in Keys(s) && Distinct(KeySeq(s))
    ensures KeySeq(Touch(s, key, now)) == [key] + Without(KeySeq(s), key)
    ensures Distinct(KeySeq(Touch(s, key, now)))
  {
    var i, ks := Find(s, key), KeySeq(s);
    WithoutAt(ks, i);
    CutDistinct(ks, i);
    KeySeqTouched(s, i, now);
    assert ([key] + Cut(ks, i))[1..] == Cut(ks, i);
  }

  lemma KeySeqMember<K, V>(s: seq<Entry<K, V>>, key: K)
    ensures key in KeySeq(s) <==> key in Keys(s)
  {
    if key in Keys(s) {
      assert KeySeq(s)[Find(s, key)] == key;
    }
    if key in KeySeq(s) {
      var i :| 0 <= i < |s| && KeySeq(s)[i] == key;
      assert s[i] in s;
    }
  }

  lemma {:induction false} EvictPrefix<K, V>(strategy: Strategy, limit: int, s: seq<Entry<K, V>>, now: int)
    ensures Evict(strategy, limit, s, now) <= s
    decreases |s|
  {
    if s != [] && strategy == FixedTimeout {
      EvictPrefix(strategy, limit, s[..|s| - 1], now);
    }
  }

  lemma PrefixKeysDistinct<K, V>(s: seq<Entry<K, V>>, t: seq<Entry<K, V>>)
    requires Distinct(KeySeq(s)) && t <= s
    ensures Distinct(KeySeq(t))
  {
    DistinctPairwise(KeySeq(s));
    DistinctPairwise(KeySeq(t));
  }

  lemma {:induction false} RunKeysDistinct<K, V>(strategy: Strategy, limit: int, ops: seq<Op<K, V>>)
    ensures Distinct(KeySeq(Run(strategy, limit, ops)))
  {
    if ops != [] {
      var op := ops[|ops| - 1];
      var s := Run(strategy, limit, ops[..|ops| - 1]);
      RunKeysDistinct(strategy, limit, ops[..|ops| - 1]);
      if op.key in Keys(s) {
        TouchKeys(s, op.key, op.used);
      } else if op.GetOrInsert? {
        var pushed := [Entry(op.key, op.val, op.used)] + s;
        KeySeqMember(s, op.key);
        assert KeySeq(pushed)[1..] == KeySeq(s);
        EvictPrefix(strategy, limit, pushed, op.now);
        PrefixKeysDistinct(pushed, Step(strategy, limit, s, op));
      }
    }
  }

  // ---- What a hit answers ----

  /** For each key the value that was given with its last insertion: the last GetOrInsert that found it missing. */
  ghost function Inserted<K, V>(strategy: Strategy, limit: int, ops: seq<Op<K, V>>): map<K, V> {
    if ops == [] then map[] else
      var op, before := ops[|ops| - 1], ops[..|ops| - 1];
      var m := Inserted(strategy, limit, before);
      if op.GetOrInsert? && op.key !in Keys(Run(strategy, limit, before)) then m[op.key := op.val] else m
  }

  /** Each entry has the value that m has for its key. */
  ghost predicate Recorded<K, V>(m: map<K, V>, s: seq<Entry<K, V>>) {
    forall i :: 0 <= i < |s| ==> s[i].key in m && m[s[i].key] == s[i].value
  }

  lemma RecordedTouch<K, V>(m: map<K, V>, s: seq<Entry<K, V>>, key: K, now: int)
    requires Recorded(m, s)
    ensures Recorded(m, Touch(s, key, now))
  {
  }

  lemma RecordedInsert<K, V>(m: map<K, V>, s: seq<Entry<K, V>>, e: Entry<K, V>)
    requires Recorded(m, s) && e.key !in Keys(s)
    ensures Recorded(m[e.key := e.value], [e] + s)
  {
    forall i | 0 <= i < |s| ensures s[i].key != e.key {
      assert s[i] in s;
    }
  }

  lemma {:induction false} RunRecorded<K, V>(strategy: Strategy, limit: int, ops: seq<Op<K, V>>)
    ensures Recorded(Inserted(strategy, limit, ops), Run(strategy, limit, ops))
  {
    if ops != [] {
      var op, before := ops[|ops| - 1], ops[..|ops| - 1];
      var s, m := Run(strategy, limit, before), Inserted(strategy, limit, before);
      RunRecorded(strategy, limit, before);
      if op.Get? || op.key in Keys(s) {
        RecordedTouch(m, s, op.key, op.used);
      } else {
        var e := Entry(op.key, op.val, op.used);
        RecordedInsert(m, s, e);
        EvictPrefix(strategy, limit, [e] + s, op.now);
      }
    }
  }

  /** In every run a cached key answers with the value last inserted under it, and no other key answers. */
  lemma {:induction false} HitsAnswer<K, V>(strategy: Strategy, limit: int, ops: seq<Op<K, V>>, key: K)
    ensures var s, m := Run(strategy, limit, ops), Inserted(strategy, limit, ops);
            && Keys(s) <= m.Keys
            && Lookup(s, key) == if key in Keys(s) then Some(m[key]) else None
  {
    RunRecorded(strategy, limit, ops);
  }

  // ---- FixedTimeout refines a plain map that forgets everything too old ----

  /** A map from key to value and time of last use; an insertion drops every entry of age limit or more. */
  ghost function MapStep<K, V>(limit: int, m: map<K, (V, int)>, op: Op<K, V>): map<K, (V, int)> {
    if op.key in m then m[op.key := (m[op.key].0, op.used)]
    else if op.Get? then m
    else
      var m' := m[op.key := (op.val, op.used)];
      map k | k in m' && op.now - m'[k].1 < limit :: m'[k]
  }

  ghost function MapRun<K, V>(limit: int, ops: seq<Op<K, V>>): map<K, (V, int)> {
    if ops == [] then map[] else MapStep(limit, MapRun(limit, ops[..|ops| - 1]), ops[|ops| - 1])
  }

  ghost predicate Represents<K, V>(m: map<K, (V, int)>, s: seq<Entry<K, V>>) {
    && (forall e :: e in s ==> e.key in m && m[e.key] == (e.value, e.lastUse))
    && (forall k :: k in m ==> k in Keys(s))
  }

  lemma TouchRepresents<K, V>(m: map<K, (V, int)>, s: seq<Entry<K, V>>, key: K, now: int)
    requires Represents(m, s) && Distinct(KeySeq(s)) && key in Keys(s)
    ensures key in m && Represents(m[key := (m[key].0, now)], Touch(s, key, now))
  {
    var i, t := Find(s, key), Touch(s, key, now);
    var m' := m[key := (m[key].0, now)];
    assert s[i] in s;
    DistinctAt(KeySeq(s), i);
    forall j | 0 <= j < |t| ensures t[j].key in m' && m'[t[j].key] == (t[j].value, t[j].lastUse) {
      var j0 := if j == 0 then i else if j <= i then j - 1 else j;
      assert s[j0] in s && KeySeq(s)[j0] == s[j0].key;
    }
    forall k | k in m' ensures k in Keys(t) {
      var j0 := Find(s, k);
      assert t[if j0 == i then 0 else if j0 < i then j0 + 1 else j0] in t;
    }
  }

  lemma {:induction false} InsertRepresents<K, V>(m: map<K, (V, int)>, s: seq<Entry<K, V>>, t: int, op: Op<K, V>,
                                                  limit: int)
    requires Represents(m, s) && op.GetOrInsert? && op.key !in Keys(s) && Sorted(s, t) && t <= op.used
    ensures Represents(MapStep(limit, m, op), Insert(FixedTimeout, limit, s, op.key, op.val, op.used, op.now))
  {
    var pushed := [Entry(op.key, op.val, op.used)] + s;
    var fresh' := (e: Entry<K, V>) => op.now - e.lastUse < limit;
    var m' := m[op.key := (op.val, op.used)];
    assert pushed[1..] == s;
    SortedPoints(s, t);
    SortedPoints(s, op.used);
    PopStaleExact(pushed, op.used, op.now, limit);
    PushedRepresents(m, s, op);
    FilteredRepresents(m', pushed, op.now, limit);
  }

  lemma PushedRepresents<K, V>(m: map<K, (V, int)>, s: seq<Entry<K, V>>, op: Op<K, V>)
    requires Represents(m, s) && op.GetOrInsert? && op.key !in Keys(s)
    ensures Represents(m[op.key := (op.val, op.used)], [Entry(op.key, op.val, op.used)] + s)
  {
    var pushed := [Entry(op.key, op.val, op.used)] + s;
    forall e | e in s ensures e.key != op.key {
      assert e.key in Keys(s);
    }
    forall k | k in m ensures k in Keys(pushed) {
      assert pushed[Find(s, k) + 1] in pushed;
    }
    assert pushed[0] in pushed;
  }

  lemma FilteredRepresents<K, V>(m: map<K, (V, int)>, s: seq<Entry<K, V>>, now: int, limit: int)
    requires Represents(m, s)
    ensures Represents(map k | k in m && now - m[k].1 < limit :: m[k],
      Filter(s, (e: Entry<K, V>) => now - e.lastUse < limit))
  {
    var fresh' := (e: Entry<K, V>) => now - e.lastUse < limit;
    forall e | e in Filter(s, fresh') ensures e in s && fresh'(e) {
      FilterMember(s, fresh', e);
    }
    forall k | k in m && now - m[k].1 < limit ensures k in Keys(Filter(s, fresh')) {
      var e := s[Find(s, k)];
      assert e in s;
      FilterMember(s, fresh', e);
    }
  }

  /** Every run of the timeout cache holds exactly what the plain map holds. */
  lemma {:induction false} TimeoutRefinesMap<K, V>(limit: int, ops: seq<Op<K, V>>)
    requires Monotone(ops)
    ensures Represents(MapRun(limit, ops), Run(FixedTimeout, limit, ops))
  {
    if ops != [] {
      var op, before := ops[|ops| - 1], ops[..|ops| - 1];
      var s, m := Run(FixedTimeout, limit, before), MapRun(limit, before);
      TimeoutRefinesMap(limit, before);
      RunKeysDistinct(FixedTimeout, limit, before);
      if op.key in Keys(s) {
        TouchRepresents(m, s, op.key, op.used);
      } else if op.GetOrInsert? {
        if before != [] {
          RunSorted(FixedTimeout, limit, before);
        }
        InsertRepresents(m, s, if before == [] then op.used else Clock(before), op, limit);
      }
    }
  }

  /** The timeout cache answers as the plain map does. */
  lemma TimeoutAnswers<K, V>(limit: int, ops: seq<Op<K, V>>, key: K)
    requires Monotone(ops)
    ensures var m := MapRun(limit, ops);
            Lookup(Run(FixedTimeout, limit, ops), key) == if key in m then Some(m[key].0) else None
  {
    TimeoutRefinesMap(limit, ops);
  }

  // ---- FixedLength keeps the most recently used keys ----

  ghost function Cap(limit: int): nat {
    if limit < 0 then 0 else limit
  }

  /** All keys ever used, most recent first; a Get uses its key only when it is among the first cap. */
  ghost function Recent<K, V>(cap: nat, ops: seq<Op<K, V>>): seq<K> {
    if ops == [] then [] else
      var r, op := Recent(cap, ops[..|ops| - 1]), ops[|ops| - 1];
      if op.GetOrInsert? || op.key in Take(r, cap) then [op.key] + Without(r, op.key) else r
  }

  ghost function Take<T>(s: seq<T>, n: nat): (r: seq<T>) {
    if |s| <= n then s else s[..n]
  }

  lemma {:induction false} TakeAbsent<T>(s: seq<T>, x: T, n: nat)
    requires x !in Take(s, n)
    ensures Take(Without(s, x), n) == Take(s, n)
  {
    if s != [] && n > 0 {
      assert Take(s, n) == [s[0]] + Take(s[1..], n - 1);
      assert s[0] == Take(s, n)[0];
      TakeAbsent(s[1..], x, n - 1);
    }
  }

  lemma TakeCons<T>(s: seq<T>, n: nat)
    requires s != [] && n > 0
    ensures Take(s, n) != [] && Take(s, n)[0] == s[0] && Take(s, n)[1..] == Take(s[1..], n - 1)
  {
  }

  lemma {:induction false} TakePresent<T>(s: seq<T>, x: T, n: nat)
    requires x in Take(s, n)
    ensures n > 0 && Take(Without(s, x), n - 1) == Without(Take(s, n), x)
  {
    TakeCons(s, n);
    var t := Without(s[1..], x);
    if s[0] != x {
      var i :| 0 <= i < |Take(s, n)| && Take(s, n)[i] == x;
      assert Take(s[1..], n - 1)[i - 1] == x;
      TakePresent(s[1..], x, n - 1);
      TakeCons([s[0]] + t, n - 1);
      assert ([s[0]] + t)[1..] == t;
    }
  }

  lemma TakePush<T>(s: seq<T>, x: T, n: nat)
    ensures n > 0 ==> Take([x] + s, n) == [x] + Take(s, n - 1)
    ensures n > 0 ==> Take(Take(s, n), n - 1) == Take(s, n - 1)
    ensures Take(s, 0) == []
  {
  }

  lemma {:induction false} RunBounded<K, V>(limit: int, ops: seq<Op<K, V>>)
    ensures |Run(FixedLength, limit, ops)| <= Cap(limit)
  {
    if ops != [] {
      RunBounded(limit, ops[..|ops| - 1]);
    }
  }

  /** The keys a FixedLength cache holds are the first Cap(limit) of all keys ever used, most recent first. */
  lemma {:induction false} LengthKeepsMostRecent<K, V>(limit: int, ops: seq<Op<K, V>>)
    ensures KeySeq(Run(FixedLength, limit, ops)) == Take(Recent(Cap(limit), ops), Cap(limit))
  {
    var cap := Cap(limit);
    if ops != [] {
      var op, before := ops[|ops| - 1], ops[..|ops| - 1];
      var s, r := Run(FixedLength, limit, before), Recent(cap, before);
      LengthKeepsMostRecent(limit, before);
      RunBounded(limit, before);
      KeySeqMember(s, op.key);
      TakePush(Without(r, op.key), op.key, cap);
      if op.key in Take(r, cap) {
        RunKeysDistinct(FixedLength, limit, before);
        TouchKeys(s, op.key, op.used);
        TakePresent(r, op.key, cap);
      } else if op.GetOrInsert? {
        TakeAbsent(r, op.key, cap);
        InsertedKeys(limit, s, op, r);
      }
    }
  }

  /** Inserting an absent key into a bounded cache: it goes first, and the last key goes if there is no room. */
  lemma InsertedKeys<K, V>(limit: int, s: seq<Entry<K, V>>, op: Op<K, V>, r: seq<K>)
    requires op.GetOrInsert? && KeySeq(s) == Take(r, Cap(limit))
      && Take(Without(r, op.key), Cap(limit)) == Take(r, Cap(limit))
    ensures KeySeq(Insert(FixedLength, limit, s, op.key, op.val, op.used, op.now)) ==
            Take([op.key] + Without(r, op.key), Cap(limit))
  {
    var cap, w := Cap(limit), Without(r, op.key);
    var pushed := [Entry(op.key, op.val, op.used)] + s;
    TakePush(w, op.key, cap);
    TakePush(r, op.key, cap);
    assert KeySeq(pushed) == [op.key] + Take(w, cap);
    if cap == 0 {
      assert |s| == 0;
    } else if |s| < cap {
      assert Take(w, cap) == w;
    } else {
      assert KeySeq(pushed[..|s|]) == [op.key] + Take(w, cap)[..cap - 1];
    }
  }

  /** The cache of fixed length answers for just those keys, with the value last inserted. */
  lemma LengthAnswers<K, V>(limit: int, ops: seq<Op<K, V>>, key: K)
    ensures var m, cap := Inserted(FixedLength, limit, ops), Cap(limit);
            var kept := Take(Recent(cap, ops), cap);
            && (key in kept ==> key in m)
            && Lookup(Run(FixedLength, limit, ops), key) == if key in kept then Some(m[key]) else None
  {
    LengthKeepsMostRecent(limit, ops);
    KeySeqMember(Run(FixedLength, limit, ops), key);
    HitsAnswer(FixedLength, limit, ops, key);
  }
}
