/** The list of passages that a server keeps, and how it follows what it is sent (server/sync.go and the server.go of
  * each protocol). Passages are told apart by hashes of their arguments; the model compares the arguments
  * themselves. */
module PassageStore {
  import opened Options
  import opened Seqs
  import opened Diff

  datatype Argument = Argument(username: string, password: string, cipher: string)

  datatype Passage = Passage(from: string, inArg: Argument, outArg: Option<Argument>, manager: bool)

  datatype Flavor = Shadowsocks | Anytls | Juicity

  const MANAGER_UUID := "00000000-0000-0000-0000-000000000000"
  const MANAGER_CIPHER := "aes-256-gcm"
  const DEFAULT_CIPHER := "chacha20-ietf-poly1305"

  /** What tells passages apart when lists are compared; taking out goes by the In argument alone. */
  function Key(p: Passage): (Argument, Option<Argument>) {
    (p.inArg, p.outArg)
  }

  function InOf(p: Passage): Argument {
    p.inArg
  }

  predicate IsManager(p: Passage) {
    p.manager
  }

  predicate NotManager(p: Passage) {
    !p.manager
  }

  /** A passage as this server keeps it. The password is for a manager; only the first manager of a list stays one. */
  function LocalizeOne(fl: Flavor, p: Passage, password: string, first: bool): Passage {
    var arg := if !p.manager then p.inArg else
      match fl
      case Shadowsocks => p.inArg.(password := password, cipher := MANAGER_CIPHER)
      case Anytls => p.inArg.(password := password)
      case Juicity => p.inArg.(username := MANAGER_UUID, password := password);
    p.(manager := p.manager && first,
       inArg := if fl.Shadowsocks? && arg.cipher == "" then arg.(cipher := DEFAULT_CIPHER) else arg)
  }

  /** q is p as this server has to keep it, field by field; only first leaves a manager one. */
  predicate KeptAs(fl: Flavor, p: Passage, password: string, first: bool, q: Passage) {
    var a := p.inArg;
    && q.from == p.from && q.outArg == p.outArg && q.manager == (p.manager && first)
    && (p.manager ==> q.inArg == match fl
                                 case Shadowsocks => Argument(a.username, password, "aes-256-gcm")
                                 case Anytls => Argument(a.username, password, a.cipher)
                                 case Juicity => Argument("00000000-0000-0000-0000-000000000000", password, a.cipher))
    && (!p.manager && fl.Shadowsocks? && a.cipher == "" ==>
          q.inArg == Argument(a.username, a.password, "chacha20-ietf-poly1305"))
    && (!p.manager && !(fl.Shadowsocks? && a.cipher == "") ==> q.inArg == a)
  }

  ghost predicate HasManager(ps: seq<Passage>) {
    exists p :: p in ps && p.manager
  }

  ghost predicate FirstManager(ps: seq<Passage>, i: nat) {
    forall j :: 0 <= j < i && j < |ps| ==> !ps[j].manager
  }

  ghost function Localized(fl: Flavor, ps: seq<Passage>, passwords: nat -> string): (local: seq<Passage>)
    ensures |local| == |ps|
  {
    seq(|ps|, i requires 0 <= i < |ps| => LocalizeOne(fl, ps[i], passwords(i), FirstManager(ps, i)))
  }

  /** Each manager gets its generated password, with the managers' cipher on shadowsocks and their uuid on juicity,
    * and only the first one stays a manager. Of the others at most an empty shadowsocks cipher changes. */
  lemma LocalizedKeeps(fl: Flavor, ps: seq<Passage>, passwords: nat -> string, i: nat)
    requires i < |ps|
    ensures KeptAs(fl, ps[i], passwords(i), FirstManager(ps, i), Localized(fl, ps, passwords)[i])
  {
    assert Localized(fl, ps, passwords)[i] == LocalizeOne(fl, ps[i], passwords(i), FirstManager(ps, i));
  }

  ghost predicate AllKept(fl: Flavor, ps: seq<Passage>, passwords: nat -> string, local: seq<Passage>) {
    |local| == |ps| && forall i :: 0 <= i < |ps| ==> KeptAs(fl, ps[i], passwords(i), FirstManager(ps, i), local[i])
  }

  lemma AllLocalizedKept(fl: Flavor, ps: seq<Passage>, passwords: nat -> string)
    ensures AllKept(fl, ps, passwords, Localized(fl, ps, passwords))
  {
    forall i | 0 <= i < |ps| {
      LocalizedKeeps(fl, ps, passwords, i);
    }
  }

  /** manager is the position of the one passage that is still a manager. */
  method LocalizePassages(fl: Flavor, ps: seq<Passage>, passwords: nat -> string)
    returns (local: seq<Passage>, manager: Option<nat>)
    ensures local == Localized(fl, ps, passwords)
    ensures AllKept(fl, ps, passwords, local)
    ensures manager.Some? <==> HasManager(ps)
    ensures manager.Some? ==> manager.value < |local| && local[manager.value].manager
    ensures forall i :: 0 <= i < |local| && local[i].manager ==> manager == Some(i)
  {
    local, manager := [], None;
    for i := 0 to |ps|
      invariant |local| == i && forall j :: 0 <= j < i ==> local[j] == Localized(fl, ps, passwords)[j]
      invariant manager.None? <==> FirstManager(ps, i)
      invariant manager.Some? ==> manager.value < i && local[manager.value].manager && ps[manager.value].manager
      invariant forall j :: 0 <= j < i && local[j].manager ==> manager == Some(j)
    {
      local := local + [LocalizeOne(fl, ps[i], passwords(i), manager.None?)];
      if ps[i].manager && manager.None? {
        manager := Some(i);
      }
    }
    AllLocalizedKept(fl, ps, passwords);
  }

  /** A passage that localizing leaves as it is. */
  predicate Settled(fl: Flavor, p: Passage) {
    fl.Shadowsocks? ==> p.inArg.cipher != ""
  }

  ghost predicate AllSettled(fl: Flavor, ps: seq<Passage>) {
    forall p :: p in ps ==> Settled(fl, p)
  }

  ghost predicate OneManager(ps: seq<Passage>) {
    |Filter(ps, IsManager)| <= 1
  }

  // ---- Adding and removing ----

  /** What is taken out for a list of passages: everything with one of their In arguments, as localized; its manager
    * does not count unless it is meant to. */
  function Counts(alsoManager: bool): Passage -> bool {
    (p: Passage) => alsoManager || !p.manager
  }

  ghost function Doomed(fl: Flavor, ps: seq<Passage>, passwords: nat -> string, alsoManager: bool): set<Argument> {
    KeysOf(Filter(Localized(fl, ps, passwords), Counts(alsoManager)), InOf)
  }

  ghost function Removed(fl: Flavor, stored: seq<Passage>, ps: seq<Passage>, passwords: nat -> string,
                         alsoManager: bool): seq<Passage> {
    Filter(stored, Missing(InOf, Doomed(fl, ps, passwords, alsoManager)))
  }

  /** A new manager takes the place of the old. */
  ghost function Added(fl: Flavor, stored: seq<Passage>, ps: seq<Passage>, passwords: nat -> string): seq<Passage> {
    (if HasManager(ps) then Filter(stored, NotManager) else stored) + Localized(fl, ps, passwords)
  }

  /** What is stored after adding: the passages sent, each as it has to be kept, and those of before but for a manager
    * that is replaced. */
  lemma AddedMember(fl: Flavor, stored: seq<Passage>, ps: seq<Passage>, passwords: nat -> string, p: Passage)
    ensures p in Added(fl, stored, ps, passwords) <==>
      || (p in stored && (p.manager ==> FirstManager(ps, |ps|)))
      || exists i :: 0 <= i < |ps| && KeptAs(fl, ps[i], passwords(i), FirstManager(ps, i), p)
  {
    var local := Localized(fl, ps, passwords);
    FilterMember(stored, NotManager, p);
    AllLocalizedKept(fl, ps, passwords);
    if i :| 0 <= i < |ps| && KeptAs(fl, ps[i], passwords(i), FirstManager(ps, i), p) {
      assert p == local[i];
    }
    if !FirstManager(ps, |ps|) {
      var j :| 0 <= j < |ps| && ps[j].manager;
      assert ps[j] in ps;
    }
  }

  /** The passages sent come last, in the order sent. */
  lemma AddedLast(fl: Flavor, stored: seq<Passage>, ps: seq<Passage>, passwords: nat -> string)
    ensures var after := Added(fl, stored, ps, passwords);
            && |ps| <= |after| && AllKept(fl, ps, passwords, after[|after| - |ps|..])
            && (FirstManager(ps, |ps|) ==> after[..|after| - |ps|] == stored)
  {
    var after, local := Added(fl, stored, ps, passwords), Localized(fl, ps, passwords);
    AllLocalizedKept(fl, ps, passwords);
    assert after[|after| - |ps|..] == local;
    if FirstManager(ps, |ps|) {
      assert !HasManager(ps);
    }
  }

  /** q is one of the passages sent, as it has to be kept, and counts for a removal. */
  ghost predicate Meant(fl: Flavor, ps: seq<Passage>, passwords: nat -> string, alsoManager: bool, q: Passage) {
    (alsoManager || !q.manager)
    && exists i :: 0 <= i < |ps| && KeptAs(fl, ps[i], passwords(i), FirstManager(ps, i), q)
  }

  lemma MeantExactly(fl: Flavor, ps: seq<Passage>, passwords: nat -> string, alsoManager: bool, q: Passage)
    ensures Meant(fl, ps, passwords, alsoManager, q)
      <==> q in Filter(Localized(fl, ps, passwords), Counts(alsoManager))
  {
    var local := Localized(fl, ps, passwords);
    FilterMember(local, Counts(alsoManager), q);
    AllLocalizedKept(fl, ps, passwords);
    if i :| 0 <= i < |ps| && KeptAs(fl, ps[i], passwords(i), FirstManager(ps, i), q) {
      assert q == local[i];
    }
  }

  /** What is stored after removing: all that has no In argument of a passage sent, as the server keeps it; the
    * manager sent does not count unless it is meant to. */
  lemma RemovedMember(fl: Flavor, stored: seq<Passage>, ps: seq<Passage>, passwords: nat -> string, alsoManager: bool,
                      p: Passage)
    ensures p in Removed(fl, stored, ps, passwords, alsoManager) <==>
      p in stored && forall q :: Meant(fl, ps, passwords, alsoManager, q) ==> q.inArg != p.inArg
  {
    var doomed := Doomed(fl, ps, passwords, alsoManager);
    var counted := Filter(Localized(fl, ps, passwords), Counts(alsoManager));
    FilterMember(stored, Missing(InOf, doomed), p);
    assert Missing(InOf, doomed)(p) <==> InOf(p) !in doomed;
    forall q | Meant(fl, ps, passwords, alsoManager, q) ensures q.inArg in doomed {
      MeantExactly(fl, ps, passwords, alsoManager, q);
      KeyOf(counted, InOf, q);
    }
    if p.inArg in doomed {
      var k :| 0 <= k < |counted| && InOf(counted[k]) == p.inArg;
      assert counted[k] in counted;
      MeantExactly(fl, ps, passwords, alsoManager, counted[k]);
      assert counted[k].inArg == p.inArg;
    }
  }

  /** SyncPassages: the changes from what is stored to ps, removals first. */
  ghost function Synced(fl: Flavor, stored: seq<Passage>, ps: seq<Passage>, passwords: nat -> string,
                        more: nat -> string): seq<Passage> {
    var gone := Filter(stored, Missing(Key, KeysOf(ps, Key)));
    Added(fl, Removed(fl, stored, gone, passwords, false), News(stored, ps), more)
  }

  // ---- At most one manager ----

  lemma {:induction false} FewFiltered<T>(s: seq<T>, p: T -> bool)
    requires forall i, j :: 0 <= i < j < |s| ==> !(p(s[i]) && p(s[j]))
    ensures |Filter(s, p)| <= 1
  {
    if s != [] {
      assert forall i, j :: 0 <= i < j < |s[1..]| ==> s[1..][i] == s[i + 1] && s[1..][j] == s[j + 1];
      FewFiltered(s[1..], p);
      if p(s[0]) {
        FilterNone(s[1..], p);
      }
    }
  }

  lemma {:induction false} OneFiltered<T>(s: seq<T>, p: T -> bool, i: nat, j: nat)
    requires i < j < |s| && p(s[i]) && p(s[j])
    ensures |Filter(s, p)| >= 2
  {
    if i == 0 {
      FilterMember(s[1..], p, s[j]);
      assert s[j] == s[1..][j - 1];
      assert s[j] in Filter(s[1..], p);
    } else {
      assert s[i] == s[1..][i - 1] && s[j] == s[1..][j - 1];
      OneFiltered(s[1..], p, i - 1, j - 1);
    }
  }

  lemma {:induction false} FilterCommutes<T>(s: seq<T>, p: T -> bool, q: T -> bool)
    ensures Filter(Filter(s, p), q) == Filter(Filter(s, q), p)
    ensures |Filter(Filter(s, p), q)| <= |Filter(s, q)|
  {
    if s != [] {
      FilterCommutes(s[1..], p, q);
      if p(s[0]) {
        assert ([s[0]] + Filter(s[1..], p))[1..] == Filter(s[1..], p);
      }
      if q(s[0]) {
        assert ([s[0]] + Filter(s[1..], q))[1..] == Filter(s[1..], q);
      }
    }
  }

  lemma LocalizedOneManager(fl: Flavor, ps: seq<Passage>, passwords: nat -> string)
    ensures OneManager(Localized(fl, ps, passwords))
  {
    var local := Localized(fl, ps, passwords);
    forall i, j | 0 <= i < j < |local| ensures !(IsManager(local[i]) && IsManager(local[j])) {
      assert local[i] == LocalizeOne(fl, ps[i], passwords(i), FirstManager(ps, i));
      assert local[j] == LocalizeOne(fl, ps[j], passwords(j), FirstManager(ps, j));
    }
    FewFiltered(local, IsManager);
  }

  lemma LocalizedFrom(fl: Flavor, ps: seq<Passage>, passwords: nat -> string, p: Passage)
    requires p in Localized(fl, ps, passwords)
    ensures Settled(fl, p)
    ensures p.manager ==> exists q :: q in ps && q.manager
  {
    var i :| 0 <= i < |ps| && Localized(fl, ps, passwords)[i] == p;
    assert p == LocalizeOne(fl, ps[i], passwords(i), FirstManager(ps, i));
    assert ps[i] in ps;
  }

  /** Adding and removing keep at most one manager, whatever is added and however often it claims to be one. */
  lemma OneManagerKept(fl: Flavor, stored: seq<Passage>, ps: seq<Passage>, passwords: nat -> string, alsoManager: bool)
    requires OneManager(stored)
    ensures OneManager(Added(fl, stored, ps, passwords))
    ensures OneManager(Removed(fl, stored, ps, passwords, alsoManager))
  {
    var local := Localized(fl, ps, passwords);
    FilterCommutes(stored, Missing(InOf, Doomed(fl, ps, passwords, alsoManager)), IsManager);
    LocalizedOneManager(fl, ps, passwords);
    if HasManager(ps) {
      FilterAppend(Filter(stored, NotManager), local, IsManager);
      forall p | p in Filter(stored, NotManager) ensures !p.manager {
        FilterMember(stored, NotManager, p);
      }
      FilterNone(Filter(stored, NotManager), IsManager);
    } else {
      FilterAppend(stored, local, IsManager);
      forall p | p in local ensures !IsManager(p) {
        LocalizedFrom(fl, ps, passwords, p);
      }
      FilterNone(local, IsManager);
    }
  }

  lemma AllSettledKept(fl: Flavor, stored: seq<Passage>, ps: seq<Passage>, passwords: nat -> string, alsoManager: bool)
    requires AllSettled(fl, stored)
    ensures AllSettled(fl, Added(fl, stored, ps, passwords))
    ensures AllSettled(fl, Removed(fl, stored, ps, passwords, alsoManager))
  {
    forall p | p in Added(fl, stored, ps, passwords) ensures Settled(fl, p) {
      FilterMember(stored, NotManager, p);
      if p in Localized(fl, ps, passwords) {
        LocalizedFrom(fl, ps, passwords, p);
      }
    }
    forall p ensures p in Removed(fl, stored, ps, passwords, alsoManager) ==> p in stored {
      FilterMember(stored, Missing(InOf, Doomed(fl, ps, passwords, alsoManager)), p);
    }
  }

  lemma SyncSettled(fl: Flavor, stored: seq<Passage>, ps: seq<Passage>, passwords: nat -> string, more: nat -> string)
    requires OneManager(stored) && AllSettled(fl, stored)
    ensures OneManager(Synced(fl, stored, ps, passwords, more))
      && AllSettled(fl, Synced(fl, stored, ps, passwords, more))
  {
    var gone, news := Filter(stored, Missing(Key, KeysOf(ps, Key))), Filter(ps, Missing(Key, KeysOf(stored, Key)));
    OneManagerKept(fl, stored, gone, passwords, false);
    AllSettledKept(fl, stored, gone, passwords, false);
    OneManagerKept(fl, Removed(fl, stored, gone, passwords, false), news, more, false);
    AllSettledKept(fl, Removed(fl, stored, gone, passwords, false), news, more, false);
  }

  // ---- What a sync comes to ----

  /** The passages sent by the central server have no manager among them. */
  ghost predicate ManagerFree(ps: seq<Passage>) {
    forall p :: p in ps ==> !p.manager
  }

  function Outdated(keys: set<(Argument, Option<Argument>)>): Passage -> bool {
    (p: Passage) => !p.manager && Key(p) !in keys
  }

  /** The In arguments of the stored passages that ps does not have any more. */
  ghost function Stale(stored: seq<Passage>, ps: seq<Passage>): set<Argument> {
    KeysOf(Filter(stored, Outdated(KeysOf(ps, Key))), InOf)
  }

  lemma StaleIn(stored: seq<Passage>, ps: seq<Passage>, a: Argument)
    ensures a in Stale(stored, ps) <==>
      exists f :: f in stored && !f.manager && Key(f) !in KeysOf(ps, Key) && f.inArg == a
  {
    var gone := Filter(stored, Outdated(KeysOf(ps, Key)));
    forall f ensures f in gone <==> f in stored && !f.manager && Key(f) !in KeysOf(ps, Key) {
      FilterMember(stored, Outdated(KeysOf(ps, Key)), f);
    }
    if a in Stale(stored, ps) {
      var i :| 0 <= i < |gone| && InOf(gone[i]) == a;
      assert gone[i] in gone;
    }
    if f :| f in gone && f.inArg == a {
      KeyOf(gone, InOf, f);
    }
  }

  /** Localizing settled passages changes nothing but the manager's secrets. */
  lemma LocalizedSettled(fl: Flavor, ps: seq<Passage>, passwords: nat -> string, p: Passage)
    requires OneManager(ps) && AllSettled(fl, ps) && !p.manager
    ensures p in Localized(fl, ps, passwords) <==> p in ps
  {
    var local := Localized(fl, ps, passwords);
    forall i | 0 <= i < |ps| ensures if ps[i].manager then local[i].manager else local[i] == ps[i] {
      assert ps[i] in ps;
      assert local[i] == LocalizeOne(fl, ps[i], passwords(i), FirstManager(ps, i));
      forall j | 0 <= j < i && ps[i].manager ensures !ps[j].manager {
        if ps[j].manager {
          OneFiltered(ps, IsManager, j, i);
        }
      }
    }
    if p in local {
      var i :| 0 <= i < |local| && local[i] == p;
      assert ps[i] in ps;
    }
    if p in ps {
      var i :| 0 <= i < |ps| && ps[i] == p;
      assert local[i] in local;
    }
  }

  lemma DoomedIsStale(fl: Flavor, stored: seq<Passage>, ps: seq<Passage>, passwords: nat -> string)
    requires OneManager(stored) && AllSettled(fl, stored)
    ensures Doomed(fl, Filter(stored, Missing(Key, KeysOf(ps, Key))), passwords, false) == Stale(stored, ps)
  {
    var gone := Filter(stored, Missing(Key, KeysOf(ps, Key)));
    var counted, stale := Filter(Localized(fl, gone, passwords), Counts(false)),
      Filter(stored, Outdated(KeysOf(ps, Key)));
    FilterCommutes(stored, Missing(Key, KeysOf(ps, Key)), IsManager);
    forall f ensures f in gone <==> f in stored && Key(f) !in KeysOf(ps, Key) {
      FilterMember(stored, Missing(Key, KeysOf(ps, Key)), f);
    }
    forall p ensures p in counted <==> p in stale {
      FilterMember(Localized(fl, gone, passwords), Counts(false), p);
      FilterMember(stored, Outdated(KeysOf(ps, Key)), p);
      if !p.manager {
        LocalizedSettled(fl, gone, passwords, p);
      }
    }
    SameKeys(counted, stale, InOf);
  }

  lemma SameKeys<T, K>(s: seq<T>, t: seq<T>, key: T -> K)
    requires forall x :: x in s <==> x in t
    ensures KeysOf(s, key) == KeysOf(t, key)
  {
    forall k | k in KeysOf(s, key) ensures k in KeysOf(t, key) {
      var i :| 0 <= i < |s| && key(s[i]) == k;
      KeyOf(t, key, s[i]);
    }
    forall k | k in KeysOf(t, key) ensures k in KeysOf(s, key) {
      var i :| 0 <= i < |t| && key(t[i]) == k;
      KeyOf(s, key, t[i]);
    }
  }

  /** A passage that is no manager, as this server keeps it. */
  function Local(fl: Flavor, p: Passage): Passage {
    LocalizeOne(fl, p, "", true)
  }

  lemma LocalizedFree(fl: Flavor, ps: seq<Passage>, passwords: nat -> string, p: Passage)
    requires ManagerFree(ps)
    ensures p in Localized(fl, ps, passwords) <==> exists q :: q in ps && p == Local(fl, q)
  {
    var local := Localized(fl, ps, passwords);
    forall i | 0 <= i < |ps| ensures local[i] == Local(fl, ps[i]) {
      assert ps[i] in ps;
      assert local[i] == LocalizeOne(fl, ps[i], passwords(i), FirstManager(ps, i));
    }
    if p in local {
      var i :| 0 <= i < |local| && local[i] == p;
      assert ps[i] in ps;
    }
    if q :| q in ps && p == Local(fl, q) {
      var i :| 0 <= i < |ps| && ps[i] == q;
      assert local[i] in local;
    }
  }

  /** The passages sent whose keys are not stored: what a sync adds. */
  function News(stored: seq<Passage>, ps: seq<Passage>): seq<Passage> {
    Filter(ps, Missing(Key, KeysOf(stored, Key)))
  }

  lemma IsNew(stored: seq<Passage>, ps: seq<Passage>, q: Passage)
    ensures q in News(stored, ps) <==> q in ps && Key(q) !in KeysOf(stored, Key)
  {
    FilterMember(ps, Missing(Key, KeysOf(stored, Key)), q);
  }

  /** Among them is a manager. */
  ghost predicate BringsManager(stored: seq<Passage>, ps: seq<Passage>) {
    exists q :: q in News(stored, ps) && q.manager
  }

  lemma FreeBringsNone(stored: seq<Passage>, ps: seq<Passage>)
    requires ManagerFree(ps)
    ensures ManagerFree(News(stored, ps)) && !BringsManager(stored, ps)
  {
    forall q | q in News(stored, ps) ensures !q.manager {
      IsNew(stored, ps, q);
    }
  }

  /** What a sync leaves of the store. */
  ghost function Left(stored: seq<Passage>, ps: seq<Passage>): seq<Passage> {
    var kept := Filter(stored, Missing(InOf, Stale(stored, ps)));
    if BringsManager(stored, ps) then Filter(kept, NotManager) else kept
  }

  /** A sync: the list is what was stored and is not stale, without the manager if a new one is sent, and then what is
    * new. */
  lemma SyncedIs(fl: Flavor, stored: seq<Passage>, ps: seq<Passage>, passwords: nat -> string, more: nat -> string)
    requires OneManager(stored) && AllSettled(fl, stored)
    ensures Synced(fl, stored, ps, passwords, more) == Left(stored, ps) + Localized(fl, News(stored, ps), more)
  {
    DoomedIsStale(fl, stored, ps, passwords);
  }

  lemma LeftMember(stored: seq<Passage>, ps: seq<Passage>, p: Passage)
    ensures p in Left(stored, ps) <==>
      p in stored && p.inArg !in Stale(stored, ps) && (p.manager ==> !BringsManager(stored, ps))
  {
    var keep, others := Missing(InOf, Stale(stored, ps)), NotManager;
    var kept := Filter(stored, keep);
    FilterMember(stored, keep, p);
    assert keep(p) <==> InOf(p) !in Stale(stored, ps);
    if BringsManager(stored, ps) {
      FilterMember(kept, others, p);
      assert others(p) <==> !p.manager;
    }
  }

  lemma SyncedMember(fl: Flavor, stored: seq<Passage>, ps: seq<Passage>, passwords: nat -> string,
                     more: nat -> string, p: Passage)
    requires OneManager(stored) && AllSettled(fl, stored)
    ensures p in Synced(fl, stored, ps, passwords, more) <==>
      || (p in stored && p.inArg !in Stale(stored, ps) && (p.manager ==> !BringsManager(stored, ps)))
      || p in Localized(fl, News(stored, ps), more)
    ensures ManagerFree(ps) ==>
      (p in Localized(fl, News(stored, ps), more) <==>
        exists q :: q in ps && Key(q) !in KeysOf(stored, Key) && p == Local(fl, q))
  {
    SyncedIs(fl, stored, ps, passwords, more);
    LeftMember(stored, ps, p);
    if ManagerFree(ps) {
      NewsFree(fl, stored, ps, more, p);
    }
  }

  lemma NewsFree(fl: Flavor, stored: seq<Passage>, ps: seq<Passage>, more: nat -> string, p: Passage)
    requires ManagerFree(ps)
    ensures p in Localized(fl, News(stored, ps), more) <==>
      exists q :: q in ps && Key(q) !in KeysOf(stored, Key) && p == Local(fl, q)
  {
    FreeBringsNone(stored, ps);
    LocalizedFree(fl, News(stored, ps), more, p);
    if q :| q in ps && Key(q) !in KeysOf(stored, Key) && p == Local(fl, q) {
      IsNew(stored, ps, q);
    }
    if q :| q in News(stored, ps) && p == Local(fl, q) {
      IsNew(stored, ps, q);
    }
  }

  /** The position of the first manager. */
  lemma FirstManagerIn(ps: seq<Passage>) returns (i: nat)
    requires HasManager(ps)
    ensures i < |ps| && ps[i].manager && FirstManager(ps, i)
  {
    i := 0;
    while !ps[i].manager
      invariant i < |ps| && FirstManager(ps, i) && exists j :: i <= j < |ps| && ps[j].manager
      decreases |ps| - i
    {
      i := i + 1;
    }
  }

  lemma {:induction false} OneKept<T>(s: seq<T>, p: T -> bool, i: nat)
    requires i < |s| && forall j :: 0 <= j < |s| ==> (p(s[j]) <==> j == i)
    ensures Filter(s, p) == [s[i]]
  {
    if i == 0 {
      forall x | x in s[1..] ensures !p(x) {
        var j :| 0 <= j < |s[1..]| && s[1..][j] == x;
        assert x == s[j + 1];
      }
      FilterNone(s[1..], p);
    } else {
      assert forall j :: 0 <= j < |s[1..]| ==> s[1..][j] == s[j + 1];
      OneKept(s[1..], p, i - 1);
    }
  }

  /** The managers of a localized list: the first manager it had. */
  lemma LocalizedManagers(fl: Flavor, ps: seq<Passage>, passwords: nat -> string, i: nat)
    requires i < |ps| && ps[i].manager && FirstManager(ps, i)
    ensures Filter(Localized(fl, ps, passwords), IsManager) == [LocalizeOne(fl, ps[i], passwords(i), true)]
  {
    var local := Localized(fl, ps, passwords);
    forall j | 0 <= j < |local| ensures IsManager(local[j]) <==> j == i {
      assert local[j] == LocalizeOne(fl, ps[j], passwords(j), FirstManager(ps, j));
    }
    OneKept(local, IsManager, i);
  }

  lemma NoManagerLeft(s: seq<Passage>)
    ensures Filter(Filter(s, NotManager), IsManager) == []
  {
    forall p | p in Filter(s, NotManager) ensures !IsManager(p) {
      FilterMember(s, NotManager, p);
    }
    FilterNone(Filter(s, NotManager), IsManager);
  }

  lemma SyncedManagers(fl: Flavor, stored: seq<Passage>, ps: seq<Passage>, passwords: nat -> string,
                       more: nat -> string)
    requires OneManager(stored) && AllSettled(fl, stored)
    ensures Filter(Synced(fl, stored, ps, passwords, more), IsManager)
      == if BringsManager(stored, ps) then Filter(Localized(fl, News(stored, ps), more), IsManager)
         else Filter(Filter(stored, IsManager), Missing(InOf, Stale(stored, ps)))
  {
    SyncedIs(fl, stored, ps, passwords, more);
    var kept, news := Filter(stored, Missing(InOf, Stale(stored, ps))), Localized(fl, News(stored, ps), more);
    if BringsManager(stored, ps) {
      FilterAppend(Filter(kept, NotManager), news, IsManager);
      NoManagerLeft(kept);
      assert [] + Filter(news, IsManager) == Filter(news, IsManager);
    } else {
      FilterAppend(kept, news, IsManager);
      forall p | p in news ensures !IsManager(p) {
        LocalizedFrom(fl, News(stored, ps), more, p);
      }
      FilterNone(news, IsManager);
      FilterCommutes(stored, Missing(InOf, Stale(stored, ps)), IsManager);
      assert Filter(kept, IsManager) + [] == Filter(kept, IsManager);
    }
  }

  lemma FilterSame<T>(s: seq<T>, p: T -> bool)
    ensures Filter(s, p) == s <==> forall x :: x in s ==> p(x)
  {
    forall x ensures x in Filter(s, p) <==> x in s && p(x) {
      FilterMember(s, p, x);
    }
    if forall x :: x in s ==> p(x) {
      FilterAll(s, p);
    }
  }

  /** The first manager among what is new takes the place of the stored one. Without one, the stored manager is left
    * as it is exactly when no passage goes stale with the manager's own In argument. */
  lemma SyncKeepsManager(fl: Flavor, stored: seq<Passage>, ps: seq<Passage>, passwords: nat -> string,
                         more: nat -> string)
    requires OneManager(stored) && AllSettled(fl, stored)
    ensures !BringsManager(stored, ps) ==>
      (Filter(Synced(fl, stored, ps, passwords, more), IsManager) == Filter(stored, IsManager) <==>
        forall m :: m in stored && m.manager ==> m.inArg !in Stale(stored, ps))
    ensures BringsManager(stored, ps) ==>
      var news := News(stored, ps);
      exists i :: 0 <= i < |news| && news[i].manager && FirstManager(news, i)
        && exists m :: KeptAs(fl, news[i], more(i), true, m)
                       && Filter(Synced(fl, stored, ps, passwords, more), IsManager) == [m]
  {
    SyncedManagers(fl, stored, ps, passwords, more);
    if BringsManager(stored, ps) {
      var i := FirstManagerIn(News(stored, ps));
      LocalizedManagers(fl, News(stored, ps), more, i);
      assert KeptAs(fl, News(stored, ps)[i], more(i), true, LocalizeOne(fl, News(stored, ps)[i], more(i), true));
    } else {
      FilterSame(Filter(stored, IsManager), Missing(InOf, Stale(stored, ps)));
      forall m ensures m in Filter(stored, IsManager) <==> m in stored && m.manager {
        FilterMember(stored, IsManager, m);
      }
    }
  }

  // ---- When a sync converges ----

  /** A passage that is no manager was sent under this key. */
  ghost predicate Sent(fl: Flavor, ps: seq<Passage>, f: Passage) {
    exists p :: p in ps && !p.manager && Key(f) == Key(Local(fl, p))
  }

  /** A passage that is no manager is stored under the key of p. */
  ghost predicate Kept(fl: Flavor, stored: seq<Passage>, p: Passage) {
    exists f :: f in stored && !f.manager && Key(f) == Key(Local(fl, p))
  }

  /** What is stored is what was sent, managers aside: the same keys, as this server keeps them. */
  ghost predicate Converged(fl: Flavor, stored: seq<Passage>, ps: seq<Passage>) {
    && (forall f :: f in stored && !f.manager ==> Sent(fl, ps, f))
    && (forall p :: p in ps && !p.manager ==> Kept(fl, stored, p))
  }

  /** The passage at i is added as a manager. */
  ghost predicate AddedAsManager(news: seq<Passage>, i: nat) {
    i < |news| && news[i].manager && FirstManager(news, i)
  }

  /** A passage that was sent is not lost if its key is new, or is stored under a non-manager whose In argument is not
    * stale, or is what another new passage comes to. */
  ghost predicate Survives(fl: Flavor, stored: seq<Passage>, ps: seq<Passage>, more: nat -> string, p: Passage) {
    || Key(p) !in KeysOf(stored, Key)
    || (exists f :: f in stored && !f.manager && Key(f) == Key(p) && f.inArg !in Stale(stored, ps))
    || (exists i :: 0 <= i < |News(stored, ps)| && !AddedAsManager(News(stored, ps), i)
          && Key(LocalizeOne(fl, News(stored, ps)[i], more(i), false)) == Key(p))
  }

  /** Managers that were sent leave no passages of their own: none is stored under the key of one alone, and none but
    * the first of those that are new comes under a key that was not sent. */
  ghost predicate NothingExtra(fl: Flavor, stored: seq<Passage>, ps: seq<Passage>, more: nat -> string) {
    && (forall f :: f in stored && !f.manager && Key(f) in KeysOf(ps, Key) && f.inArg !in Stale(stored, ps) ==>
          Sent(fl, ps, f))
    && (forall i :: 0 <= i < |News(stored, ps)| && News(stored, ps)[i].manager ==>
          AddedAsManager(News(stored, ps), i) || Sent(fl, ps, LocalizeOne(fl, News(stored, ps)[i], more(i), false)))
  }

  lemma FreeOfExtra(fl: Flavor, stored: seq<Passage>, ps: seq<Passage>, more: nat -> string)
    requires AllSettled(fl, stored) && ManagerFree(ps)
    ensures NothingExtra(fl, stored, ps, more)
  {
    FreeBringsNone(stored, ps);
    forall f | f in stored && Key(f) in KeysOf(ps, Key) ensures Sent(fl, ps, f) {
      var i :| 0 <= i < |ps| && Key(ps[i]) == Key(f);
      assert ps[i] in ps && Key(Local(fl, ps[i])) == Key(f);
    }
    forall i | 0 <= i < |News(stored, ps)| ensures !News(stored, ps)[i].manager {
      assert News(stored, ps)[i] in News(stored, ps);
    }
  }

  /** The passages after a sync, managers aside. */
  lemma SyncedOthers(fl: Flavor, stored: seq<Passage>, ps: seq<Passage>, passwords: nat -> string,
                     more: nat -> string, f: Passage)
    requires OneManager(stored) && AllSettled(fl, stored) && !f.manager
    ensures f in Synced(fl, stored, ps, passwords, more) <==>
      || (f in stored && f.inArg !in Stale(stored, ps))
      || exists i :: 0 <= i < |News(stored, ps)| && !AddedAsManager(News(stored, ps), i)
           && f == LocalizeOne(fl, News(stored, ps)[i], more(i), false)
  {
    SyncedMember(fl, stored, ps, passwords, more, f);
    var news := News(stored, ps);
    var local := Localized(fl, news, more);
    forall i | 0 <= i < |news|
      ensures local[i] == LocalizeOne(fl, news[i], more(i), AddedAsManager(news, i))
    {
      assert local[i] == LocalizeOne(fl, news[i], more(i), FirstManager(news, i));
    }
    if f in local {
      var i :| 0 <= i < |local| && local[i] == f;
      assert !AddedAsManager(news, i);
    }
    if i :| 0 <= i < |news| && !AddedAsManager(news, i) && f == LocalizeOne(fl, news[i], more(i), false) {
      assert local[i] in local;
    }
  }

  /** Whatever is stored after a sync, managers aside, was sent, if and only if there is nothing extra. */
  lemma SyncStaysWithin(fl: Flavor, stored: seq<Passage>, ps: seq<Passage>, passwords: nat -> string,
                        more: nat -> string)
    requires OneManager(stored) && AllSettled(fl, stored)
    ensures (forall f :: f in Synced(fl, stored, ps, passwords, more) && !f.manager ==> Sent(fl, ps, f))
      <==> NothingExtra(fl, stored, ps, more)
  {
    var synced, news := Synced(fl, stored, ps, passwords, more), News(stored, ps);
    if NothingExtra(fl, stored, ps, more) {
      forall f | f in synced && !f.manager ensures Sent(fl, ps, f) {
        SyncedOthers(fl, stored, ps, passwords, more, f);
        WithinStore(fl, stored, ps, more, f);
      }
    }
    if forall f :: f in synced && !f.manager ==> Sent(fl, ps, f) {
      forall f | f in stored && !f.manager && f.inArg !in Stale(stored, ps) ensures Sent(fl, ps, f) {
        SyncedOthers(fl, stored, ps, passwords, more, f);
      }
      forall i | 0 <= i < |news| && !AddedAsManager(news, i)
        ensures Sent(fl, ps, LocalizeOne(fl, news[i], more(i), false))
      {
        SyncedOthers(fl, stored, ps, passwords, more, LocalizeOne(fl, news[i], more(i), false));
      }
    }
  }

  lemma WithinStore(fl: Flavor, stored: seq<Passage>, ps: seq<Passage>, more: nat -> string, f: Passage)
    requires AllSettled(fl, stored) && NothingExtra(fl, stored, ps, more) && !f.manager
    ensures f in stored && f.inArg !in Stale(stored, ps) ==> Sent(fl, ps, f)
    ensures forall i :: 0 <= i < |News(stored, ps)| && !AddedAsManager(News(stored, ps), i) ==>
      Sent(fl, ps, LocalizeOne(fl, News(stored, ps)[i], more(i), false))
  {
    if f in stored && f.inArg !in Stale(stored, ps) {
      StaleIn(stored, ps, f.inArg);
    }
    forall i | 0 <= i < |News(stored, ps)| && !News(stored, ps)[i].manager
      ensures Sent(fl, ps, LocalizeOne(fl, News(stored, ps)[i], more(i), false))
    {
      var q := News(stored, ps)[i];
      IsNew(stored, ps, q);
      assert Key(LocalizeOne(fl, q, more(i), false)) == Key(Local(fl, q));
    }
  }

  lemma NewIsKept(fl: Flavor, stored: seq<Passage>, ps: seq<Passage>, passwords: nat -> string, more: nat -> string,
                  p: Passage)
    requires OneManager(stored) && AllSettled(fl, stored) && p in ps && !p.manager && Key(p) !in KeysOf(stored, Key)
    ensures Kept(fl, Synced(fl, stored, ps, passwords, more), p)
  {
    var news := News(stored, ps);
    IsNew(stored, ps, p);
    var i :| 0 <= i < |news| && news[i] == p;
    var f := LocalizeOne(fl, p, more(i), false);
    SyncedOthers(fl, stored, ps, passwords, more, f);
    assert Key(f) == Key(Local(fl, p));
  }

  lemma StoredIsKept(fl: Flavor, stored: seq<Passage>, ps: seq<Passage>, passwords: nat -> string,
                     more: nat -> string, p: Passage)
    requires OneManager(stored) && AllSettled(fl, stored) && !p.manager && Key(p) in KeysOf(stored, Key)
    ensures Survives(fl, stored, ps, more, p) ==> Kept(fl, Synced(fl, stored, ps, passwords, more), p)
    ensures Kept(fl, Synced(fl, stored, ps, passwords, more), p) ==> Survives(fl, stored, ps, more, p)
  {
    var synced, news := Synced(fl, stored, ps, passwords, more), News(stored, ps);
    var j :| 0 <= j < |stored| && Key(stored[j]) == Key(p);
    assert stored[j] in stored && Key(Local(fl, p)) == Key(p);
    if f :| f in stored && !f.manager && Key(f) == Key(p) && f.inArg !in Stale(stored, ps) {
      SyncedOthers(fl, stored, ps, passwords, more, f);
    } else if Survives(fl, stored, ps, more, p) {
      var i :| 0 <= i < |news| && !AddedAsManager(news, i)
        && Key(LocalizeOne(fl, news[i], more(i), false)) == Key(p);
      SyncedOthers(fl, stored, ps, passwords, more, LocalizeOne(fl, news[i], more(i), false));
    }
    if f :| f in synced && !f.manager && Key(f) == Key(p) {
      SyncedOthers(fl, stored, ps, passwords, more, f);
    }
  }

  lemma SurvivesExactly(fl: Flavor, stored: seq<Passage>, ps: seq<Passage>, passwords: nat -> string,
                        more: nat -> string, p: Passage)
    requires OneManager(stored) && AllSettled(fl, stored) && p in ps && !p.manager
    ensures Survives(fl, stored, ps, more, p) <==> Kept(fl, Synced(fl, stored, ps, passwords, more), p)
  {
    if Key(p) in KeysOf(stored, Key) {
      StoredIsKept(fl, stored, ps, passwords, more, p);
    } else {
      NewIsKept(fl, stored, ps, passwords, more, p);
    }
  }

  /** A sync converges exactly when every passage that was sent survives it, and managers leave nothing extra. */
  lemma SyncConverges(fl: Flavor, stored: seq<Passage>, ps: seq<Passage>, passwords: nat -> string, more: nat -> string)
    requires OneManager(stored) && AllSettled(fl, stored)
    ensures Converged(fl, Synced(fl, stored, ps, passwords, more), ps) <==>
      && (forall p :: p in ps && !p.manager ==> Survives(fl, stored, ps, more, p))
      && NothingExtra(fl, stored, ps, more)
    ensures ManagerFree(ps) ==> NothingExtra(fl, stored, ps, more)
  {
    SyncStaysWithin(fl, stored, ps, passwords, more);
    forall p | p in ps && !p.manager
      ensures Survives(fl, stored, ps, more, p) <==> Kept(fl, Synced(fl, stored, ps, passwords, more), p)
    {
      SurvivesExactly(fl, stored, ps, passwords, more, p);
    }
    if ManagerFree(ps) {
      FreeOfExtra(fl, stored, ps, more);
    }
  }

  /** What a sync comes to: when it converges, and when it keeps the manager. */
  ghost predicate SyncOutcome(fl: Flavor, before: seq<Passage>, after: seq<Passage>, ps: seq<Passage>,
                              more: nat -> string)
  {
    && (Converged(fl, after, ps) <==>
         && (forall p :: p in ps && !p.manager ==> Survives(fl, before, ps, more, p))
         && NothingExtra(fl, before, ps, more))
    && (!BringsManager(before, ps) ==>
         (Filter(after, IsManager) == Filter(before, IsManager) <==>
           forall m :: m in before && m.manager ==> m.inArg !in Stale(before, ps)))
  }

  lemma SyncComesTo(fl: Flavor, stored: seq<Passage>, ps: seq<Passage>, passwords: nat -> string, more: nat -> string)
    requires OneManager(stored) && AllSettled(fl, stored)
    ensures SyncOutcome(fl, stored, Synced(fl, stored, ps, passwords, more), ps, more)
  {
    SyncConverges(fl, stored, ps, passwords, more);
    SyncKeepsManager(fl, stored, ps, passwords, more);
  }

  /** At most one manager is sent, under a key that is not stored. */
  ghost predicate NewManagerOnly(stored: seq<Passage>, ps: seq<Passage>) {
    OneManager(ps) && forall m :: m in ps && m.manager ==> Key(m) !in KeysOf(stored, Key)
  }

  lemma NewManagerLeavesNothing(fl: Flavor, stored: seq<Passage>, ps: seq<Passage>, more: nat -> string)
    requires AllSettled(fl, stored) && NewManagerOnly(stored, ps)
    ensures NothingExtra(fl, stored, ps, more)
  {
    forall f | f in stored && Key(f) in KeysOf(ps, Key) ensures Sent(fl, ps, f) {
      var i :| 0 <= i < |ps| && Key(ps[i]) == Key(f);
      KeyOf(stored, Key, f);
      assert ps[i] in ps && Key(Local(fl, ps[i])) == Key(f);
    }
    var news := News(stored, ps);
    FilterCommutes(ps, Missing(Key, KeysOf(stored, Key)), IsManager);
    forall i, j | 0 <= j < i < |news| && news[i].manager ensures !news[j].manager {
      if news[j].manager {
        OneFiltered(news, IsManager, j, i);
      }
    }
  }

  /** In arguments that are distinct in the store, the manager's included, and not the manager's in ps, are enough. */
  lemma DistinctInsConverge(fl: Flavor, stored: seq<Passage>, ps: seq<Passage>, passwords: nat -> string,
                            more: nat -> string)
    requires OneManager(stored) && AllSettled(fl, stored) && NewManagerOnly(stored, ps)
    requires forall f, g :: f in stored && g in stored && f.inArg == g.inArg ==> f == g
    requires forall m, p :: m in stored && m.manager && p in ps && !p.manager ==> m.inArg != p.inArg
    ensures Converged(fl, Synced(fl, stored, ps, passwords, more), ps)
    ensures ManagerFree(ps) ==> Filter(Synced(fl, stored, ps, passwords, more), IsManager) == Filter(stored, IsManager)
  {
    forall p | p in ps && !p.manager ensures Survives(fl, stored, ps, more, p) {
      if Key(p) in KeysOf(stored, Key) {
        var i :| 0 <= i < |stored| && Key(stored[i]) == Key(p);
        StaleIn(stored, ps, p.inArg);
        KeyOf(ps, Key, p);
        assert stored[i] in stored;
      }
    }
    NewManagerLeavesNothing(fl, stored, ps, more);
    SyncConverges(fl, stored, ps, passwords, more);
    if ManagerFree(ps) {
      FreeBringsNone(stored, ps);
      forall m | m in stored && m.manager ensures m.inArg !in Stale(stored, ps) {
        StaleIn(stored, ps, m.inArg);
      }
      SyncKeepsManager(fl, stored, ps, passwords, more);
    }
  }

  /** When everything stored has one In argument and one of it goes stale, all of it goes. */
  lemma AllGo(stored: seq<Passage>, ps: seq<Passage>, a: Argument, f: Passage)
    requires forall x :: x in stored ==> x.inArg == a
    requires f in stored && !f.manager && Key(f) !in KeysOf(ps, Key)
    ensures Filter(stored, Missing(InOf, Stale(stored, ps))) == []
  {
    StaleIn(stored, ps, a);
    var keep := Missing(InOf, Stale(stored, ps));
    forall x | x in stored ensures !keep(x) {
      assert InOf(x) == a;
    }
    FilterNone(stored, keep);
  }

  /** Nothing is new where every key is stored. */
  lemma NothingNew(stored: seq<Passage>, ps: seq<Passage>)
    requires forall x :: x in ps ==> x in stored
    ensures News(stored, ps) == []
  {
    var keep := Missing(Key, KeysOf(stored, Key));
    forall x | x in ps ensures !keep(x) {
      KeyOf(stored, Key, x);
    }
    FilterNone(ps, keep);
  }

  lemma PairOneManager(p: Passage, q: Passage)
    requires !q.manager
    ensures OneManager([p, q])
  {
    var s := [p, q];
    forall i, j | 0 <= i < j < |s| ensures !(IsManager(s[i]) && IsManager(s[j])) {
      assert s[j] == q;
    }
    FewFiltered(s, IsManager);
  }

  /** Two stored passages with one In argument and different Out arguments: when one goes, so does the other, though
    * it was sent again. */
  lemma SharedInDiverges(fl: Flavor, a: Argument, out: Argument, passwords: nat -> string, more: nat -> string)
    requires a.cipher != ""
    ensures var direct, relayed := Passage("", a, None, false), Passage("", a, Some(out), false);
            Synced(fl, [direct, relayed], [direct], passwords, more) == []
            && !Converged(fl, Synced(fl, [direct, relayed], [direct], passwords, more), [direct])
  {
    var direct, relayed := Passage("", a, None, false), Passage("", a, Some(out), false);
    var stored, ps := [direct, relayed], [direct];
    PairOneManager(direct, relayed);
    SyncedIs(fl, stored, ps, passwords, more);
    forall i | 0 <= i < |ps| ensures Key(ps[i]) != Key(relayed) {
      assert ps[i] == direct;
    }
    assert stored[0] == direct && stored[1] == relayed;
    AllGo(stored, ps, a, relayed);
    NothingNew(stored, ps);
    assert direct in ps;
  }

  /** A manager and a passage with one In argument: when the passage goes, so does the manager. */
  lemma ManagerTakenAlong(fl: Flavor, a: Argument, passwords: nat -> string, more: nat -> string)
    requires a.cipher != ""
    ensures var manager, other := Passage("", a, None, true), Passage("", a, None, false);
            OneManager([manager, other]) && AllSettled(fl, [manager, other])
            && Synced(fl, [manager, other], [], passwords, more) == []
  {
    var manager, other := Passage("", a, None, true), Passage("", a, None, false);
    var stored := [manager, other];
    PairOneManager(manager, other);
    SyncedIs(fl, stored, [], passwords, more);
    assert stored[1] == other;
    AllGo(stored, [], a, other);
    NothingNew(stored, []);
  }

  /** Two managers sent to an empty store: the second is kept as a passage that was not sent. */
  lemma SecondManagerStays(fl: Flavor, a: Argument, b: Argument, passwords: nat -> string, more: nat -> string)
    ensures var ps := [Passage("", a, None, true), Passage("", b, None, true)];
            && |Synced(fl, [], ps, passwords, more)| == 2 && !Synced(fl, [], ps, passwords, more)[1].manager
            && !Converged(fl, Synced(fl, [], ps, passwords, more), ps)
  {
    var ps := [Passage("", a, None, true), Passage("", b, None, true)];
    FilterAll(ps, Missing(Key, KeysOf([], Key)));
    assert News([], ps) == ps && ps[0].manager && ps[0] in ps;
    var synced := Synced(fl, [], ps, passwords, more);
    assert synced == Localized(fl, ps, more);
    assert synced[1] == LocalizeOne(fl, ps[1], more(1), false);
    assert synced[1] in synced && !Sent(fl, ps, synced[1]);
  }
}
