/** A map from what clients present to the passage it stands for, the last one where several share it. */
module UserIndex {
  import opened Seqs
  import opened Diff

  ghost function UsersOf<T, H>(ps: seq<T>, id: T -> H): (users: map<H, T>) {
    if ps == [] then map[] else UsersOf(ps[..|ps| - 1], id)[id(ps[|ps| - 1]) := ps[|ps| - 1]]
  }

  /** Users(h) is the last passage with id h, and there is one exactly when some passage has it. */
  ghost predicate LastWith<T, H>(ps: seq<T>, id: T -> H, h: H, p: T) {
    exists i :: 0 <= i < |ps| && ps[i] == p && id(p) == h && forall j :: i < j < |ps| ==> id(ps[j]) != h
  }

  lemma {:induction false} UsersExact<T, H>(ps: seq<T>, id: T -> H, h: H)
    ensures h in UsersOf(ps, id) <==> h in KeysOf(ps, id)
    ensures h in UsersOf(ps, id) ==> LastWith(ps, id, h, UsersOf(ps, id)[h])
  {
    if ps != [] {
      var front, last := ps[..|ps| - 1], ps[|ps| - 1];
      UsersExact(front, id, h);
      KeysAppend(front, last, id);
      assert ps == front + [last];
      if h in UsersOf(ps, id) {
        LastAppend(front, last, id, h, UsersOf(ps, id)[h]);
      }
    }
  }

  lemma LastAppend<T, H>(front: seq<T>, last: T, id: T -> H, h: H, p: T)
    requires if id(last) == h then p == last else LastWith(front, id, h, p)
    ensures LastWith(front + [last], id, h, p)
  {
    var ps := front + [last];
    if id(last) == h {
      assert ps[|front|] == p;
    } else {
      var i :| 0 <= i < |front| && front[i] == p && id(p) == h && forall j :: i < j < |front| ==> id(front[j]) != h;
      assert ps[i] == p && forall j :: i < j < |ps| ==> id(ps[j]) != h;
    }
  }

  lemma {:induction false} UsersAppend<T, H>(a: seq<T>, b: seq<T>, id: T -> H)
    ensures UsersOf(a + b, id) == UsersOf(a, id) + UsersOf(b, id)
  {
    if b == [] {
      assert a + b == a;
    } else {
      assert (a + b)[..|a + b| - 1] == a + b[..|b| - 1];
      UsersAppend(a, b[..|b| - 1], id);
    }
  }

  function Drops<T>(keep: T -> bool): T -> bool {
    x => !keep(x)
  }

  lemma FilterFrom<T>(s: seq<T>, i: nat, p: T -> bool)
    requires i < |s|
    ensures Filter(s[i..], p) == (if p(s[i]) then [s[i]] else []) + Filter(s[i + 1..], p)
  {
    assert s[i..][1..] == s[i + 1..];
    assert [] + Filter(s[i + 1..], p) == Filter(s[i + 1..], p);
  }

  /** A loop that goes backwards over was and takes elements out has got to position i. */
  ghost predicate TakenOut<T>(was: seq<T>, now: seq<T>, i: nat, remove: T -> bool) {
    i <= |was| && now == was[..i] + Filter(was[i..], Drops(remove))
  }

  lemma TakeOutEnds<T>(was: seq<T>, now: seq<T>, remove: T -> bool)
    ensures TakenOut(was, was, |was|, remove)
    ensures TakenOut(was, now, 0, remove) ==> now == Filter(was, Drops(remove))
  {
    assert was[|was|..] == [] && was[..|was|] == was && was[0..] == was;
  }

  lemma TakeOutNext<T>(was: seq<T>, now: seq<T>, i: nat, remove: T -> bool)
    requires i < |was| && TakenOut(was, now, i + 1, remove)
    ensures i < |now| && now[i] == was[i]
    ensures TakenOut(was, if remove(was[i]) then now[..i] + now[i + 1..] else now, i, remove)
  {
    var rest := Filter(was[i + 1..], Drops(remove));
    FilterFrom(was, i, Drops(remove));
    assert now[..i] == was[..i] && now[i] == was[i] && now[i + 1..] == rest;
    assert was[..i] + [was[i]] == was[..i + 1];
  }

  /** What stays and what goes share no id. */
  ghost predicate Apart<T, H>(ps: seq<T>, id: T -> H, keep: T -> bool) {
    Covered(ps, id, keep, {})
  }

  /** What stays and what goes share no id but those in ids. */
  ghost predicate Covered<T, H>(ps: seq<T>, id: T -> H, keep: T -> bool, ids: set<H>) {
    forall x, y :: x in ps && y in ps && keep(x) && !keep(y) && id(x) == id(y) ==> id(x) in ids
  }

  /** An id that nothing going has is looked up as before. */
  lemma {:induction false} UsersElsewhere<T, H>(ps: seq<T>, id: T -> H, keep: T -> bool, h: H)
    requires h !in KeysOf(Filter(ps, Drops(keep)), id)
    ensures h in UsersOf(Filter(ps, keep), id) <==> h in UsersOf(ps, id)
    ensures h in UsersOf(ps, id) ==> UsersOf(Filter(ps, keep), id)[h] == UsersOf(ps, id)[h]
  {
    if ps != [] {
      var n := |ps| - 1;
      var front, last := ps[..n], ps[n];
      var kept, gone := Filter(front, keep), Filter(front, Drops(keep));
      assert ps[..n + 1] == ps;
      FilterNext(ps, n, keep);
      FilterNext(ps, n, Drops(keep));
      KeysAppend(gone, last, id);
      assert kept + [] == kept && gone + [] == gone;
      UsersElsewhere(front, id, keep, h);
      assert (kept + [last])[..|kept|] == kept;
    }
  }

  lemma MapsEqual<K, V>(a: map<K, V>, b: map<K, V>)
    requires forall k :: (k in a <==> k in b) && (k in a ==> a[k] == b[k])
    ensures a == b
  {
    assert forall k :: k in a ==> k in b;
    assert forall k :: k in b ==> k in a;
  }

  lemma UsersCovered<T, H>(ps: seq<T>, id: T -> H, keep: T -> bool, news: seq<T>)
    requires Covered(ps, id, keep, KeysOf(news, id))
    ensures UsersOf(Filter(ps, keep) + news, id)
      == (UsersOf(ps, id) - KeysOf(Filter(ps, Drops(keep)), id)) + UsersOf(news, id)
  {
    var kept, gone := Filter(ps, keep), Filter(ps, Drops(keep));
    var now, due := (UsersOf(ps, id) - KeysOf(gone, id)) + UsersOf(news, id), UsersOf(kept, id) + UsersOf(news, id);
    forall h
      ensures (h in now <==> h in due) && (h in now ==> now[h] == due[h])
    {
      UsersExact(news, id, h);
      UsersExact(kept, id, h);
      if h in KeysOf(gone, id) {
        var j :| 0 <= j < |gone| && id(gone[j]) == h;
        FilterMember(ps, Drops(keep), gone[j]);
        if i :| 0 <= i < |kept| && id(kept[i]) == h {
          FilterMember(ps, keep, kept[i]);
        }
      } else {
        UsersElsewhere(ps, id, keep, h);
      }
    }
    MapsEqual(now, due);
    UsersAppend(kept, news, id);
  }

  lemma KeysAppend<T, H>(s: seq<T>, x: T, id: T -> H)
    ensures KeysOf(s + [x], id) == KeysOf(s, id) + {id(x)}
  {
    assert (s + [x])[|s|] == x;
    forall h | h in KeysOf(s, id) ensures h in KeysOf(s + [x], id) {
      var i :| 0 <= i < |s| && id(s[i]) == h;
      assert (s + [x])[i] == s[i];
    }
  }

  /** Taking passages out, their ids with them, and then adding others, leaves the right index exactly when any id
    * that something staying shares with something going is given to one of the others. */
  lemma UsersAfterChange<T, H>(ps: seq<T>, id: T -> H, keep: T -> bool, news: seq<T>)
    ensures UsersOf(Filter(ps, keep) + news, id)
        == (UsersOf(ps, id) - KeysOf(Filter(ps, Drops(keep)), id)) + UsersOf(news, id)
      <==> Covered(ps, id, keep, KeysOf(news, id))
  {
    if Covered(ps, id, keep, KeysOf(news, id)) {
      UsersCovered(ps, id, keep, news);
    } else {
      var x, y :| x in ps && y in ps && keep(x) && !keep(y) && id(x) == id(y) && id(x) !in KeysOf(news, id);
      var kept, gone := Filter(ps, keep), Filter(ps, Drops(keep));
      FilterMember(ps, keep, x);
      FilterMember(ps, Drops(keep), y);
      KeyOf(kept, id, x);
      KeyOf(gone, id, y);
      UsersExact(kept, id, id(x));
      UsersExact(news, id, id(x));
      UsersAppend(kept, news, id);
      assert id(x) in UsersOf(kept + news, id);
    }
  }

  /** Taking passages out, and their ids with them, leaves the index of what stays exactly when nothing that stays
    * shares an id with something that goes. */
  lemma UsersAfterRemoval<T, H>(ps: seq<T>, id: T -> H, keep: T -> bool)
    ensures UsersOf(Filter(ps, keep), id) == UsersOf(ps, id) - KeysOf(Filter(ps, Drops(keep)), id)
      <==> Apart(ps, id, keep)
  {
    UsersAfterChange(ps, id, keep, []);
    assert Filter(ps, keep) + [] == Filter(ps, keep);
    assert KeysOf<T, H>([], id) == {};
    assert (UsersOf(ps, id) - KeysOf(Filter(ps, Drops(keep)), id)) + map[]
      == UsersOf(ps, id) - KeysOf(Filter(ps, Drops(keep)), id);
  }
}

/** The In arguments that a removal goes by. */
module KeySets {
  import opened Seqs
  import opened Diff
  import opened PassageStore
  import opened UserIndex

  method KeySet(local: seq<Passage>, alsoManager: bool) returns (keys: set<Argument>)
    ensures keys == KeysOf(Filter(local, Counts(alsoManager)), InOf)
  {
    keys := {};
    for i := 0 to |local|
      invariant keys == KeysOf(Filter(local[..i], Counts(alsoManager)), InOf)
    {
      ghost var counted := Filter(local[..i], Counts(alsoManager));
      FilterNext(local, i, Counts(alsoManager));
      KeysAppend(counted, local[i], InOf);
      assert counted + [] == counted;
      if local[i].manager && !alsoManager {
        continue;
      }
      keys := keys + {local[i].inArg};
    }
    assert local[..|local|] == local;
  }
}
