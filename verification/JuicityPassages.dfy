/** The juicity server's passages and its index by uuid, which it updates entry by entry
  * (server/juicity/server.go). */
module JuicityPassages {
  import opened Options
  import opened Seqs
  import opened Diff
  import opened PassageStore
  import opened UserIndex
  import opened KeySets

  type Uuid = nat

  function UuidOf(parse: string -> Uuid): Passage -> Uuid {
    (p: Passage) => parse(p.inArg.username)
  }

  class Server {
    var passages: seq<Passage>
    var users: map<Uuid, Passage>
    const parse: string -> Uuid

    /** The index holds the passages, the last one for each uuid. */
    ghost predicate Agrees()
      reads this
    {
      users == UsersOf(passages, UuidOf(parse))
    }

    constructor (parse: string -> Uuid)
      ensures Agrees() && passages == [] && this.parse == parse
    {
      passages, users, this.parse := [], map[], parse;
    }

    method AddPassagesOnly(ps: seq<Passage>)
      modifies this
      ensures passages == old(passages) + ps
      ensures users == old(users) + UsersOf(ps, UuidOf(parse))
    {
      passages := passages + ps;
      for i := 0 to |ps|
        invariant passages == old(passages) + ps
        invariant users == old(users) + UsersOf(ps[..i], UuidOf(parse))
      {
        assert ps[..i + 1][..i] == ps[..i];
        assert UuidOf(parse)(ps[i]) == parse(ps[i].inArg.username);
        users := users[parse(ps[i].inArg.username) := ps[i]];
      }
      assert ps[..|ps|] == ps;
    }

    /** A passage that goes takes its uuid out of the index, whoever else has it. */
    method RemovePassagesFunc(remove: Passage -> bool)
      modifies this
      ensures passages == Filter(old(passages), Drops(remove))
      ensures users == old(users) - KeysOf(Filter(old(passages), remove), UuidOf(parse))
    {
      ghost var was, index := passages, users;
      var i := |passages|;
      TakeOutEnds(was, passages, remove);
      assert was[|was|..] == [] && was[0..] == was;
      while i > 0
        invariant 0 <= i && TakenOut(was, passages, i, remove)
        invariant Unindexed(parse, was, index, users, i, remove)
      {
        i := i - 1;
        TakeOutNext(was, passages, i, remove);
        UnindexNext(parse, was, index, users, i, remove);
        if remove(passages[i]) {
          users := users - {parse(passages[i].inArg.username)};
          passages := passages[..i] + passages[i + 1..];
        }
      }
      TakeOutEnds(was, passages, remove);
    }

    method RemoveManagers()
      modifies this
      ensures passages == Filter(old(passages), NotManager)
      ensures users == old(users) - KeysOf(Filter(old(passages), Drops(NotManager)), UuidOf(parse))
    {
      ghost var was := passages;
      RemovePassagesFunc(IsManager);
      FilterCongruent(was, Drops(IsManager), NotManager);
      FilterCongruent(was, IsManager, Drops(NotManager));
    }

    /** A new manager takes the place of the old in the index too, since both go by the managers' uuid. */
    method AddPassages(ps: seq<Passage>, passwords: nat -> string)
      modifies this
      ensures passages == Added(Juicity, old(passages), ps, passwords)
      ensures users == AddedUsers(parse, old(passages), old(users), ps, passwords)
      ensures old(Agrees()) ==> (Agrees() <==> HasManager(ps) ==>
        Covered(old(passages), UuidOf(parse), NotManager, KeysOf(Localized(Juicity, ps, passwords), UuidOf(parse))))
      ensures OwnManagers(old(passages)) ==> OwnManagers(passages) && (old(Agrees()) ==> Agrees())
    {
      ghost var was := passages;
      var us, manager := LocalizePassages(Juicity, ps, passwords);
      LocalizedOwn(ps, passwords);
      if manager.Some? {
        RemoveManagers();
      }
      AddPassagesOnly(us);
      AddedIndex(parse, was, us, manager.Some?);
      ManagersCovered(parse, was, us);
    }

    /** The index keeps agreeing exactly when no passage that stays shares its uuid with one that goes. */
    method RemovePassages(ps: seq<Passage>, alsoManager: bool, passwords: nat -> string)
      modifies this
      ensures passages == Removed(Juicity, old(passages), ps, passwords, alsoManager)
      ensures users == RemovedUsers(parse, old(passages), old(users), Doomed(Juicity, ps, passwords, alsoManager))
      ensures old(Agrees()) ==> (Agrees() <==>
        Apart(old(passages), UuidOf(parse), Missing(InOf, Doomed(Juicity, ps, passwords, alsoManager))))
    {
      ghost var was := passages;
      var psgs, manager := LocalizePassages(Juicity, ps, passwords);
      var keySet := KeySet(psgs, alsoManager);
      ghost var keep := Missing(InOf, Doomed(Juicity, ps, passwords, alsoManager));
      RemovePassagesFunc((p: Passage) => p.inArg in keySet);
      FilterCongruent(was, Drops((p: Passage) => p.inArg in keySet), keep);
      FilterCongruent(was, (p: Passage) => p.inArg in keySet, Drops(keep));
      UsersAfterRemoval(was, UuidOf(parse), keep);
    }

    /** After a sync the index agrees exactly when every uuid that a passage staying shares with one going is also
      * that of a new passage. */
    method SyncPassages(ps: seq<Passage>, passwords: nat -> string, more: nat -> string)
      modifies this
      ensures passages == Synced(Juicity, old(passages), ps, passwords, more)
      ensures old(Agrees()) ==> (Agrees() <==>
        Covered(old(passages), UuidOf(parse), Stays(old(passages), ps, passwords),
                KeysOf(Localized(Juicity, News(old(passages), ps), more), UuidOf(parse))))
      ensures OwnManagers(old(passages)) ==> OwnManagers(passages)
      ensures old(Agrees()) && OwnManagers(old(passages)) && UuidsTell(old(passages), parse) ==> Agrees()
    {
      var toRemove, toAdd := Change(passages, ps, Key);
      SyncedIndex(parse, passages, ps, passwords, more);
      SyncHarmless(parse, passages, ps, passwords, more);
      RemovePassages(toRemove, false, passwords);
      AddPassages(toAdd, more);
    }
  }

  function User(username: string, password: string): Passage {
    Passage("", Argument(username, password, ""), None, false)
  }

  /** Two passages with one uuid: when one is removed, the other stays without an entry in the index. */
  method SharedUuidLoses(parse: string -> Uuid, username: string, passwords: nat -> string) returns (s: Server)
    ensures fresh(s) && s.passages == [User(username, "q")] && parse(username) !in s.users
  {
    s := Holding(parse, [User(username, "p"), User(username, "q")], passwords);
    OneLeft(s.parse, s.passages[0], s.passages[1], passwords);
    s.RemovePassages([s.passages[0]], false, passwords);
  }

  /** A server with these passages. */
  method Holding(parse: string -> Uuid, ps: seq<Passage>, passwords: nat -> string) returns (s: Server)
    requires ManagerFree(ps)
    ensures fresh(s) && s.parse == parse && s.passages == ps && s.Agrees()
  {
    s := new Server(parse);
    FirstAdded(ps, passwords);
    s.AddPassages(ps, passwords);
  }

  lemma FirstAdded(ps: seq<Passage>, passwords: nat -> string)
    requires ManagerFree(ps)
    ensures Added(Juicity, [], ps, passwords) == ps
  {
    LocalizedSame(ps, passwords);
  }

  lemma LocalizedSame(ps: seq<Passage>, passwords: nat -> string)
    requires ManagerFree(ps)
    ensures Localized(Juicity, ps, passwords) == ps
  {
    var local := Localized(Juicity, ps, passwords);
    forall i | 0 <= i < |ps| ensures local[i] == ps[i] {
      assert ps[i] in ps;
      assert local[i] == LocalizeOne(Juicity, ps[i], passwords(i), FirstManager(ps, i));
    }
  }

  /** Removing p from [p, q] leaves q, and takes the uuid that both have. */
  lemma OneLeft(parse: string -> Uuid, p: Passage, q: Passage, passwords: nat -> string)
    requires !p.manager && p.inArg != q.inArg && p.inArg.username == q.inArg.username
    ensures Removed(Juicity, [p, q], [p], passwords, false) == [q]
    ensures forall users ::
      parse(q.inArg.username) !in RemovedUsers(parse, [p, q], users, Doomed(Juicity, [p], passwords, false))
  {
    var doomed := Doomed(Juicity, [p], passwords, false);
    LocalizedSame([p], passwords);
    FilterFrom([p], 0, Counts(false));
    assert [p][0..] == [p] && [p][1..] == [] && [p] + [] == [p];
    assert Filter([p], Counts(false)) == [p];
    assert KeysOf([p], InOf) == {p.inArg} by {
      KeyOf([p], InOf, p);
      assert InOf(p) == p.inArg;
    }
    var keep := Missing(InOf, doomed);
    assert !keep(p) && keep(q) by {
      assert InOf(p) == p.inArg && InOf(q) == q.inArg;
    }
    assert [p, q][1..] == [q] && [q][1..] == [] && [q] + [] == [q];
    assert Filter([q], keep) == [q];
    FilterMember([p, q], Drops(keep), p);
    assert [p, q][0] == p;
    KeyOf(Filter([p, q], Drops(keep)), UuidOf(parse), p);
  }

  ghost predicate Unindexed(parse: string -> Uuid, was: seq<Passage>, index: map<Uuid, Passage>,
                            users: map<Uuid, Passage>, i: nat, remove: Passage -> bool) {
    i <= |was| && users == index - KeysOf(Filter(was[i..], remove), UuidOf(parse))
  }

  lemma UnindexNext(parse: string -> Uuid, was: seq<Passage>, index: map<Uuid, Passage>, users: map<Uuid, Passage>,
                    i: nat, remove: Passage -> bool)
    requires i < |was| && Unindexed(parse, was, index, users, i + 1, remove)
    ensures Unindexed(parse, was, index,
      if remove(was[i]) then users - {parse(was[i].inArg.username)} else users, i, remove)
  {
    var id, rest := UuidOf(parse), Filter(was[i + 1..], remove);
    FilterFrom(was, i, remove);
    KeysPrepend(was[i], rest, id);
    MapMinusTwice(index, KeysOf(rest, id), {id(was[i])});
    assert [] + rest == rest;
  }

  ghost function AddedUsers(parse: string -> Uuid, stored: seq<Passage>, users: map<Uuid, Passage>, ps: seq<Passage>,
                            passwords: nat -> string): map<Uuid, Passage> {
    var id := UuidOf(parse);
    (if HasManager(ps) then users - KeysOf(Filter(stored, Drops(NotManager)), id) else users)
    + UsersOf(Localized(Juicity, ps, passwords), id)
  }

  ghost function RemovedUsers(parse: string -> Uuid, stored: seq<Passage>, users: map<Uuid, Passage>,
                              doomed: set<Argument>)
    : map<Uuid, Passage>
  {
    users - KeysOf(Filter(stored, Drops(Missing(InOf, doomed))), UuidOf(parse))
  }

  /** A manager that is stored goes by the managers' uuid. */
  ghost predicate OwnManagers(ps: seq<Passage>) {
    forall p :: p in ps && p.manager ==> p.inArg.username == MANAGER_UUID
  }

  lemma AddedIndex(parse: string -> Uuid, was: seq<Passage>, us: seq<Passage>, replace: bool)
    ensures var id := UuidOf(parse);
            if replace then
              (UsersOf(Filter(was, NotManager) + us, id)
                == (UsersOf(was, id) - KeysOf(Filter(was, Drops(NotManager)), id)) + UsersOf(us, id)
               <==> Covered(was, id, NotManager, KeysOf(us, id)))
            else UsersOf(was + us, id) == UsersOf(was, id) + UsersOf(us, id)
  {
    UsersAfterChange(was, UuidOf(parse), NotManager, us);
    UsersAppend(was, us, UuidOf(parse));
  }

  lemma ManagersCovered(parse: string -> Uuid, was: seq<Passage>, us: seq<Passage>)
    requires OwnManagers(us)
    ensures OwnManagers(was) ==> OwnManagers(was + us) && OwnManagers(Filter(was, NotManager) + us)
    ensures OwnManagers(was) && HasManager(us) ==> Covered(was, UuidOf(parse), NotManager, KeysOf(us, UuidOf(parse)))
  {
    var id := UuidOf(parse);
    forall p ensures p in Filter(was, NotManager) ==> p in was && !p.manager {
      FilterMember(was, NotManager, p);
    }
    if OwnManagers(was) && HasManager(us) {
      var m :| m in us && m.manager;
      KeyOf(us, id, m);
      forall x, y | x in was && y in was && NotManager(x) && !NotManager(y) && id(x) == id(y)
        ensures id(x) in KeysOf(us, id) {
        assert y.inArg.username == m.inArg.username;
      }
    }
  }

  /** What a sync takes out of the store, and what it puts in. */
  ghost function GoneFrom(stored: seq<Passage>, ps: seq<Passage>): seq<Passage> {
    Filter(stored, Missing(Key, KeysOf(ps, Key)))
  }

  function Both<T>(p: T -> bool, q: T -> bool): T -> bool {
    x => p(x) && q(x)
  }

  /** The passages that a sync leaves where they are. */
  ghost function Stays(stored: seq<Passage>, ps: seq<Passage>, passwords: nat -> string): Passage -> bool {
    var keep := Missing(InOf, Doomed(Juicity, GoneFrom(stored, ps), passwords, false));
    if HasManager(News(stored, ps)) then Both(keep, NotManager) else keep
  }

  lemma {:induction false} FilterBoth<T>(s: seq<T>, p: T -> bool, q: T -> bool)
    ensures Filter(Filter(s, p), q) == Filter(s, Both(p, q))
  {
    if s != [] {
      FilterBoth(s[1..], p, q);
      if p(s[0]) {
        ConsAppend([s[0]], Filter(s[1..], p));
        assert ([s[0]] + Filter(s[1..], p))[1..] == Filter(s[1..], p);
      }
    }
  }

  /** Going in two steps is going in one. */
  lemma GoneInTwo<T, H>(s: seq<T>, p: T -> bool, q: T -> bool, id: T -> H)
    ensures KeysOf(Filter(s, Drops(p)), id) + KeysOf(Filter(Filter(s, p), Drops(q)), id)
      == KeysOf(Filter(s, Drops(Both(p, q))), id)
  {
    var one, two, all := Filter(s, Drops(p)), Filter(Filter(s, p), Drops(q)), Filter(s, Drops(Both(p, q)));
    forall x ensures x in one || x in two <==> x in all {
      FilterMember(s, Drops(p), x);
      FilterMember(Filter(s, p), Drops(q), x);
      FilterMember(s, p, x);
      FilterMember(s, Drops(Both(p, q)), x);
    }
    SameKeys(one + two, all, id);
    KeysConcat(one, two, id);
  }

  lemma KeysConcat<T, H>(s: seq<T>, t: seq<T>, id: T -> H)
    ensures KeysOf(s + t, id) == KeysOf(s, id) + KeysOf(t, id)
  {
    forall h | h in KeysOf(s + t, id) ensures h in KeysOf(s, id) + KeysOf(t, id) {
      var i :| 0 <= i < |s + t| && id((s + t)[i]) == h;
      assert (s + t)[i] == if i < |s| then s[i] else t[i - |s|];
    }
    forall h | h in KeysOf(s, id) ensures h in KeysOf(s + t, id) {
      var i :| 0 <= i < |s| && id(s[i]) == h;
      assert (s + t)[i] == s[i];
    }
    forall h | h in KeysOf(t, id) ensures h in KeysOf(s + t, id) {
      var i :| 0 <= i < |t| && id(t[i]) == h;
      assert (s + t)[|s| + i] == t[i];
    }
  }

  /** The index after a sync, and when it is that of the store. */
  lemma SyncedIndex(parse: string -> Uuid, stored: seq<Passage>, ps: seq<Passage>, passwords: nat -> string,
                    more: nat -> string)
    ensures var id, stays, news := UuidOf(parse), Stays(stored, ps, passwords), News(stored, ps);
            var doomed := Doomed(Juicity, GoneFrom(stored, ps), passwords, false);
            AddedUsers(parse, Filter(stored, Missing(InOf, doomed)),
              RemovedUsers(parse, stored, UsersOf(stored, id), doomed), news, more)
              == UsersOf(Synced(Juicity, stored, ps, passwords, more), id)
            <==> Covered(stored, id, stays, KeysOf(Localized(Juicity, news, more), id))
  {
    var id, stays, news := UuidOf(parse), Stays(stored, ps, passwords), News(stored, ps);
    var keep := Missing(InOf, Doomed(Juicity, GoneFrom(stored, ps), passwords, false));
    FilterBoth(stored, keep, NotManager);
    GoneInTwo(stored, keep, NotManager, id);
    UsersAfterChange(stored, id, stays, Localized(Juicity, news, more));
    var users := UsersOf(stored, id);
    MapMinusTwice(users, KeysOf(Filter(stored, Drops(keep)), id),
      KeysOf(Filter(Filter(stored, keep), Drops(NotManager)), id));
  }

  /** Passages that share a uuid are the same to a removal. */
  ghost predicate UuidsTell(ps: seq<Passage>, parse: string -> Uuid) {
    forall f, g :: f in ps && g in ps && UuidOf(parse)(f) == UuidOf(parse)(g) ==> f.inArg == g.inArg
  }

  lemma SyncHarmless(parse: string -> Uuid, stored: seq<Passage>, ps: seq<Passage>, passwords: nat -> string,
                     more: nat -> string)
    ensures var doomed := Doomed(Juicity, GoneFrom(stored, ps), passwords, false);
            OwnManagers(stored) ==> OwnManagers(Filter(stored, Missing(InOf, doomed)))
    ensures OwnManagers(stored) && UuidsTell(stored, parse) ==>
      Covered(stored, UuidOf(parse), Stays(stored, ps, passwords),
              KeysOf(Localized(Juicity, News(stored, ps), more), UuidOf(parse)))
  {
    var id, stays := UuidOf(parse), Stays(stored, ps, passwords);
    var us := Localized(Juicity, News(stored, ps), more);
    var keep := Missing(InOf, Doomed(Juicity, GoneFrom(stored, ps), passwords, false));
    forall p ensures p in Filter(stored, keep) ==> p in stored {
      FilterMember(stored, keep, p);
    }
    if OwnManagers(stored) && UuidsTell(stored, parse) {
      LocalizedOwn(News(stored, ps), more);
      ManagersCovered(parse, stored, us);
      forall x, y | x in stored && y in stored && stays(x) && !stays(y) && id(x) == id(y)
        ensures id(x) in KeysOf(us, id) {
        assert InOf(x) == InOf(y);
        assert keep(x) && keep(y);
        assert NotManager(x) && !NotManager(y);
      }
    }
  }

  lemma LocalizedOwn(ps: seq<Passage>, passwords: nat -> string)
    ensures OwnManagers(Localized(Juicity, ps, passwords))
    ensures HasManager(ps) <==> HasManager(Localized(Juicity, ps, passwords))
  {
    var local := Localized(Juicity, ps, passwords);
    forall i | 0 <= i < |ps|
      ensures local[i].manager ==> ps[i] in ps && ps[i].manager && local[i].inArg.username == MANAGER_UUID
    {
      assert local[i] == LocalizeOne(Juicity, ps[i], passwords(i), FirstManager(ps, i));
    }
    if HasManager(ps) {
      var k := FirstManagerAt(ps);
      assert local[k] == LocalizeOne(Juicity, ps[k], passwords(k), FirstManager(ps, k));
      assert local[k] in local;
    }
  }

  lemma FirstManagerAt(ps: seq<Passage>) returns (k: nat)
    requires HasManager(ps)
    ensures k < |ps| && ps[k].manager && FirstManager(ps, k)
  {
    var p :| p in ps && p.manager;
    var j :| 0 <= j < |ps| && ps[j] == p;
    k := 0;
    while !ps[k].manager
      invariant k <= j && FirstManager(ps, k)
      decreases j - k
    {
      k := k + 1;
    }
  }

  lemma MapMinusTwice<K, V>(m: map<K, V>, a: set<K>, b: set<K>)
    ensures m - a - b == m - (a + b)
  {
    forall k ensures (k in m - a - b <==> k in m - (a + b)) && (k in m - a - b ==> (m - a - b)[k] == (m - (a + b))[k]) {
    }
    MapsEqual(m - a - b, m - (a + b));
  }

  lemma KeysPrepend<T, H>(x: T, s: seq<T>, id: T -> H)
    ensures KeysOf([x] + s, id) == KeysOf(s, id) + {id(x)}
  {
    assert ([x] + s)[0] == x;
    forall h | h in KeysOf(s, id) ensures h in KeysOf([x] + s, id) {
      var i :| 0 <= i < |s| && id(s[i]) == h;
      assert ([x] + s)[i + 1] == s[i];
    }
  }
}
