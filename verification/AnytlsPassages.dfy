/** The anytls server's passages and the users it looks up by password hash (server/anytls/server.go). */
module AnytlsPassages {
  import opened Options
  import opened Seqs
  import opened Diff
  import opened PassageStore
  import opened UserIndex
  import opened KeySets

  type Hash = nat

  class Server {
    var passages: seq<Passage>
    var users: map<Hash, Passage>
    const digest: string -> Hash

    /** The users are those of the passages. */
    ghost predicate Valid()
      reads this
    {
      users == UsersOf(passages, HashOf(digest)) && OneManager(passages)
    }

    constructor (digest: string -> Hash)
      ensures Valid() && passages == []
    {
      passages, users, this.digest := [], map[], digest;
    }

    method RemovePassagesFuncLocked(remove: Passage -> bool)
      modifies this`passages
      ensures passages == Filter(old(passages), Drops(remove))
    {
      ghost var was := passages;
      var i := |passages|;
      TakeOutEnds(was, passages, remove);
      while i > 0
        invariant 0 <= i && TakenOut(was, passages, i, remove)
      {
        i := i - 1;
        TakeOutNext(was, passages, i, remove);
        if remove(passages[i]) {
          passages := passages[..i] + passages[i + 1..];
        }
      }
      TakeOutEnds(was, passages, remove);
    }

    method RebuildUsersLocked()
      modifies this`users
      ensures users == UsersOf(passages, HashOf(digest))
    {
      users := map[];
      for i := 0 to |passages|
        invariant users == UsersOf(passages[..i], HashOf(digest))
      {
        assert passages[..i + 1][..i] == passages[..i];
        users := users[digest(passages[i].inArg.password) := passages[i]];
      }
      assert passages[..|passages|] == passages;
    }

    /** manager is the position of the one passage in local that is a manager. */
    method AddLocal(local: seq<Passage>, ghost manager: Option<nat>)
      requires manager.Some? ==> manager.value < |local| && local[manager.value].manager
      requires forall i :: 0 <= i < |local| && local[i].manager ==> manager == Some(i)
      modifies this`passages
      ensures passages == (if manager.Some? then Filter(old(passages), NotManager) else old(passages)) + local
    {
      ghost var was := passages;
      for i := 0 to |local|
        invariant passages == (if manager.Some? && manager.value < i then Filter(was, NotManager) else was) + local[..i]
      {
        if local[i].manager {
          RemovePassagesFuncLocked(IsManager);
          OnlyOld(was, local[..i]);
        }
        assert local[..i + 1] == local[..i] + [local[i]];
        passages := passages + [local[i]];
      }
      assert local[..|local|] == local;
    }

    method AddPassages(ps: seq<Passage>, passwords: nat -> string)
      requires Valid()
      modifies this
      ensures Valid() && passages == Added(Anytls, old(passages), ps, passwords)
      ensures AllKnown(ps, passwords, passages, users, digest)
    {
      ghost var was := passages;
      var local, manager := LocalizePassages(Anytls, ps, passwords);
      AddLocal(local, manager);
      OneManagerKept(Anytls, was, ps, passwords, false);
      RebuildUsersLocked();
      AllAddedKnown(was, ps, passwords, digest);
    }

    method RemovePassages(ps: seq<Passage>, alsoManager: bool, passwords: nat -> string)
      requires Valid()
      modifies this
      ensures Valid() && passages == Removed(Anytls, old(passages), ps, passwords, alsoManager)
    {
      ghost var was := passages;
      var local, manager := LocalizePassages(Anytls, ps, passwords);
      var keySet := KeySet(local, alsoManager);
      RemovePassagesFuncLocked((p: Passage) => p.inArg in keySet);
      FilterCongruent(was, Drops((p: Passage) => p.inArg in keySet),
        Missing(InOf, Doomed(Anytls, ps, passwords, alsoManager)));
      OneManagerKept(Anytls, was, ps, passwords, alsoManager);
      RebuildUsersLocked();
    }

    method SyncPassages(ps: seq<Passage>, passwords: nat -> string, more: nat -> string)
      requires Valid()
      modifies this
      ensures Valid() && passages == Synced(Anytls, old(passages), ps, passwords, more)
      ensures Converged(Anytls, passages, ps) <==>
        && (forall p :: p in ps && !p.manager ==> Survives(Anytls, old(passages), ps, more, p))
        && NothingExtra(Anytls, old(passages), ps, more)
    {
      SyncConverges(Anytls, passages, ps, passwords, more);
      var toRemove, toAdd := Change(passages, ps, Key);
      RemovePassages(toRemove, false, passwords);
      AddPassages(toAdd, more);
    }

    method Auth(key: Hash) returns (p: Option<Passage>)
      requires Valid()
      ensures p.Some? <==> exists q :: q in passages && digest(q.inArg.password) == key
      ensures p.Some? ==> LastWith(passages, HashOf(digest), key, p.value)
    {
      UsersExact(passages, HashOf(digest), key);
      if key in users {
        p := Some(users[key]);
        assert HashOf(digest)(users[key]) == key;
      } else {
        p := None;
        forall q | q in passages ensures digest(q.inArg.password) != key {
          KeyOf(passages, HashOf(digest), q);
          assert HashOf(digest)(q) == digest(q.inArg.password);
        }
      }
    }
  }

  function HashOf(digest: string -> Hash): Passage -> Hash {
    (p: Passage) => digest(p.inArg.password)
  }

  /** Each passage sent can be looked up afterwards, a manager by its generated password. */
  lemma AddedKnown(stored: seq<Passage>, ps: seq<Passage>, passwords: nat -> string, digest: string -> Hash, i: nat)
    requires i < |ps|
    ensures var password := if ps[i].manager then passwords(i) else ps[i].inArg.password;
            digest(password) in UsersOf(Added(Anytls, stored, ps, passwords), HashOf(digest))
    ensures ps[i].manager && FirstManager(ps, i) ==>
      exists q :: q in Added(Anytls, stored, ps, passwords) && q.manager && q.inArg.password == passwords(i)
  {
    var after, q := Added(Anytls, stored, ps, passwords), Localized(Anytls, ps, passwords)[i];
    LocalizedKeeps(Anytls, ps, passwords, i);
    assert q in Localized(Anytls, ps, passwords);
    UsersExact(after, HashOf(digest), HashOf(digest)(q));
    KeyOf(after, HashOf(digest), q);
  }

  /** Whoever was sent can be looked up by password, a manager by its generated one; the first manager is the server's
    * manager now. */
  ghost predicate AllKnown(ps: seq<Passage>, passwords: nat -> string, passages: seq<Passage>,
                           users: map<Hash, Passage>, digest: string -> Hash) {
    && (forall i :: 0 <= i < |ps| ==>
          digest(if ps[i].manager then passwords(i) else ps[i].inArg.password) in users)
    && (forall i :: 0 <= i < |ps| && ps[i].manager && FirstManager(ps, i) ==>
          exists q :: q in passages && q.manager && q.inArg.password == passwords(i))
  }

  lemma AllAddedKnown(stored: seq<Passage>, ps: seq<Passage>, passwords: nat -> string, digest: string -> Hash)
    ensures var after := Added(Anytls, stored, ps, passwords);
            AllKnown(ps, passwords, after, UsersOf(after, HashOf(digest)), digest)
  {
    forall i | 0 <= i < |ps| {
      AddedKnown(stored, ps, passwords, digest, i);
    }
  }

  lemma OnlyOld(was: seq<Passage>, added: seq<Passage>)
    requires forall p :: p in added ==> !p.manager
    ensures Filter(was + added, Drops(IsManager)) == Filter(was, NotManager) + added
  {
    FilterAppend(was, added, Drops(IsManager));
    forall x | x in added ensures Drops(IsManager)(x) {
      assert !IsManager(x);
    }
    FilterAll(added, Drops(IsManager));
    FilterCongruent(was, Drops(IsManager), NotManager);
  }
}
