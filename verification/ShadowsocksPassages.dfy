/** The shadowsocks server's passages and the preference lists of its users (server/shadowsocks/server.go). A list is
  * kept here by its passages and weights; LruLists says how it is kept in arrays. */
module ShadowsocksPassages {
  import opened Bytes
  import opened Options
  import opened Seqs
  import opened Diff
  import opened LruListSpec
  import opened PassageStore
  import opened UserIndex
  import opened KeySets
  import opened UserContexts

  type User = string

  datatype Slot = Slot(passage: Passage, weight: uint32)

  datatype State = State(passages: seq<Passage>, contexts: map<User, seq<Slot>>)

  function Slots(ps: seq<Passage>, weight: uint32): seq<Slot> {
    seq(|ps|, i requires 0 <= i < |ps| => Slot(ps[i], weight))
  }

  function PassagesOf(ctx: seq<Slot>): seq<Passage> {
    seq(|ctx|, i requires 0 <= i < |ctx| => ctx[i].passage)
  }

  function WeightsOf(ctx: seq<Slot>): seq<uint32> {
    seq(|ctx|, i requires 0 <= i < |ctx| => ctx[i].weight)
  }

  /** LruList.Insert, on a list whose largest weight on record is still 0. */
  function Inserted(ctx: seq<Slot>, ps: seq<Passage>): seq<Slot> {
    Spliced(ctx, FirstLighter(WeightsOf(ctx), Heavier(0)), Slots(ps, Heavier(0)))
  }

  function SlotIf(keep: Passage -> bool): Slot -> bool {
    (s: Slot) => keep(s.passage)
  }

  function Dropped(st: State, remove: Passage -> bool): State {
    State(Filter(st.passages, Drops(remove)),
          map u | u in st.contexts :: Filter(st.contexts[u], SlotIf(Drops(remove))))
  }

  function Grown(st: State, ps: seq<Passage>): State {
    State(st.passages + ps, map u | u in st.contexts :: Inserted(st.contexts[u], ps))
  }

  function Opened(st: State, u: User, evicted: set<User>): State {
    st.(contexts := (if u in st.contexts then st.contexts else st.contexts[u := Slots(st.passages, 0)])
      - (evicted - {u}))
  }

  /** The position of the first passage that the probe accepts. */
  function HitAt<C>(ctx: seq<Slot>, probe: Passage -> Option<C>): (k: nat)
    ensures k <= |ctx|
  {
    if ctx == [] || probe(ctx[0].passage).Some? then 0 else 1 + HitAt(ctx[1..], probe)
  }

  lemma {:induction false} HitIsFirst<C>(ctx: seq<Slot>, probe: Passage -> Option<C>, k: nat)
    requires k <= |ctx| && forall i :: 0 <= i < k ==> probe(ctx[i].passage).None?
    ensures k == |ctx| || probe(ctx[k].passage).Some? ==> HitAt(ctx, probe) == k
    ensures k == |ctx| ==> FirstHit(PassagesOf(ctx), probe) == None
    ensures k < |ctx| && probe(ctx[k].passage).Some? ==>
      FirstHit(PassagesOf(ctx), probe) == Some((ctx[k].passage, probe(ctx[k].passage).value))
  {
    if ctx != [] {
      assert PassagesOf(ctx)[1..] == PassagesOf(ctx[1..]);
    }
    if k > 0 {
      assert forall i :: 0 <= i < k - 1 ==> ctx[1..][i] == ctx[i + 1];
      HitIsFirst(ctx[1..], probe, k - 1);
    }
  }

  /** The list after a search: the weight of the first hit is one more. */
  function PromotedIn<C>(ctx: seq<Slot>, probe: Passage -> Option<C>): (r: seq<Slot>)
    ensures PassagesOf(r) == PassagesOf(ctx)
  {
    var k := HitAt(ctx, probe);
    if k == |ctx| then ctx else ctx[k := ctx[k].(weight := Heavier(ctx[k].weight))]
  }

  function Promoted<C>(st: State, u: User, probe: Passage -> Option<C>): State {
    if u !in st.contexts then st else st.(contexts := st.contexts[u := PromotedIn(st.contexts[u], probe)])
  }

  /** A search of the list before that ended at position k: none before it is accepted; the one there is the hit and
    * one heavier afterwards. */
  ghost predicate SearchedTo<C>(before: seq<Slot>, after: seq<Slot>, probe: Passage -> Option<C>,
                                hit: Option<(Passage, C)>, k: nat)
  {
    && k < |before| == |after| && (forall i :: 0 <= i < k ==> probe(before[i].passage).None?)
    && hit.Some? && hit.value.0 == before[k].passage && probe(before[k].passage) == Some(hit.value.1)
    && (forall i :: 0 <= i < |after| && i != k ==> after[i] == before[i]) && after[k].passage == before[k].passage
    && after[k].weight == if before[k].weight == 0xFFFF_FFFF then 0 else before[k].weight + 1
  }

  ghost predicate Searched<C>(before: seq<Slot>, after: seq<Slot>, probe: Passage -> Option<C>,
                              hit: Option<(Passage, C)>)
  {
    if hit.None? then after == before && forall i :: 0 <= i < |before| ==> probe(before[i].passage).None?
    else exists k :: SearchedTo(before, after, probe, hit, k)
  }

  class Server {
    var passages: seq<Passage>
    var contexts: map<User, seq<Slot>>

    ghost function View(): State
      reads this
    {
      State(passages, contexts)
    }

    constructor ()
      ensures View() == State([], map[])
    {
      passages, contexts := [], map[];
    }

    method RemovePassagesFunc(remove: Passage -> bool)
      modifies this
      ensures View() == Dropped(old(View()), remove)
    {
      ghost var was := passages;
      var i := |passages|;
      TakeOutEnds(was, passages, remove);
      while i > 0
        invariant 0 <= i && TakenOut(was, passages, i, remove) && contexts == old(contexts)
      {
        i := i - 1;
        TakeOutNext(was, passages, i, remove);
        if remove(passages[i]) {
          passages := passages[..i] + passages[i + 1..];
        }
      }
      TakeOutEnds(was, passages, remove);
      contexts := UpdateAll(contexts, (ctx: seq<Slot>) => Filter(ctx, SlotIf(Drops(remove))));
    }

    method AddPassagesOnly(ps: seq<Passage>)
      modifies this
      ensures View() == Grown(old(View()), ps)
    {
      passages := passages + ps;
      contexts := UpdateAll(contexts, (ctx: seq<Slot>) => Inserted(ctx, ps));
    }

    method AddPassages(ps: seq<Passage>, passwords: nat -> string)
      modifies this
      ensures View() == AddTo(old(View()), ps, passwords)
    {
      var us, manager := LocalizePassages(Shadowsocks, ps, passwords);
      if manager.Some? {
        RemovePassagesFunc(IsManager);
      }
      AddPassagesOnly(us);
    }

    method RemovePassages(ps: seq<Passage>, alsoManager: bool, passwords: nat -> string)
      modifies this
      ensures View() == RemoveFrom(old(View()), ps, passwords, alsoManager)
    {
      var psgs, manager := LocalizePassages(Shadowsocks, ps, passwords);
      var keySet := KeySet(psgs, alsoManager);
      RemovePassagesFunc(InKeys(keySet));
    }

    method SyncPassages(ps: seq<Passage>, passwords: nat -> string, more: nat -> string)
      modifies this
      ensures View() == SyncWith(old(View()), ps, passwords, more)
    {
      var toRemove, toAdd := Change(passages, ps, Key);
      RemovePassages(toRemove, false, passwords);
      AddPassages(toAdd, more);
    }

    /** The first passage of the user's list that the probe accepts; its slot is promoted. */
    method Auth<C>(u: User, probe: Passage -> Option<C>) returns (hit: Option<(Passage, C)>)
      requires u in contexts
      modifies this`contexts
      ensures View() == Promoted(old(View()), u, probe)
      ensures hit == FirstHit(PassagesOf(old(contexts)[u]), probe)
      ensures Searched(old(contexts)[u], contexts[u], probe, hit) && contexts == old(contexts)[u := contexts[u]]
    {
      var ctx := contexts[u];
      var i := 0;
      while i < |ctx|
        invariant 0 <= i <= |ctx| && contexts == old(contexts)
        invariant forall j :: 0 <= j < i ==> probe(ctx[j].passage).None?
      {
        if probe(ctx[i].passage).Some? {
          HitIsFirst(ctx, probe, i);
          contexts := contexts[u := ctx[i := ctx[i].(weight := Heavier(ctx[i].weight))]];
          assert SearchedTo(ctx, contexts[u], probe, Some((ctx[i].passage, probe(ctx[i].passage).value)), i);
          return Some((ctx[i].passage, probe(ctx[i].passage).value));
        }
        i := i + 1;
      }
      HitIsFirst(ctx, probe, i);
      assert contexts[u := ctx] == contexts;
      return None;
    }

    /** The user's list, made from the passages if there is none; other lists may be evicted. */
    method GetUserContextOrInsert(u: User, evicted: set<User>)
      modifies this
      ensures View() == Opened(old(View()), u, evicted) && u in contexts
      ensures u in old(contexts) ==> contexts[u] == old(contexts)[u]
      ensures u !in old(contexts) ==> PassagesOf(contexts[u]) == passages
      ensures u !in old(contexts) ==> forall i :: 0 <= i < |contexts[u]| ==> contexts[u][i].weight == 0
      ensures forall v :: v != u ==> (v in contexts <==> v in old(contexts) && v !in evicted)
      ensures forall v :: v != u && v in contexts ==> contexts[v] == old(contexts)[v]
    {
      if u !in contexts {
        contexts := contexts[u := Slots(passages, 0)];
      }
      contexts := contexts - (evicted - {u});
    }
  }

  /** The loop over the keys of the context pool. */
  method UpdateAll(contexts: map<User, seq<Slot>>, f: seq<Slot> -> seq<Slot>) returns (r: map<User, seq<Slot>>)
    ensures r == map u | u in contexts :: f(contexts[u])
  {
    r := contexts;
    var todo := contexts.Keys;
    while todo != {}
      invariant todo <= r.Keys == contexts.Keys
      invariant forall u :: u in r ==> r[u] == if u in todo then contexts[u] else f(contexts[u])
      decreases |todo|
    {
      var u :| u in todo;
      r := r[u := f(r[u])];
      todo := todo - {u};
    }
  }

  function InKeys(keys: set<Argument>): Passage -> bool {
    (p: Passage) => p.inArg in keys
  }

  ghost function AddTo(st: State, ps: seq<Passage>, passwords: nat -> string): State {
    Grown(if HasManager(ps) then Dropped(st, IsManager) else st,
      Localized(Shadowsocks, ps, passwords))
  }

  ghost function RemoveFrom(st: State, ps: seq<Passage>, passwords: nat -> string, alsoManager: bool): State {
    Dropped(st, InKeys(Doomed(Shadowsocks, ps, passwords, alsoManager)))
  }

  ghost function SyncWith(st: State, ps: seq<Passage>, passwords: nat -> string, more: nat -> string): State {
    AddTo(RemoveFrom(st, Filter(st.passages, Missing(Key, KeysOf(ps, Key))), passwords, false),
          Filter(ps, Missing(Key, KeysOf(st.passages, Key))), more)
  }

  /** The passages follow the same rules as on the other servers. */
  lemma StoreAgrees(st: State, ps: seq<Passage>, passwords: nat -> string, alsoManager: bool)
    ensures AddTo(st, ps, passwords).passages == Added(Shadowsocks, st.passages, ps, passwords)
    ensures RemoveFrom(st, ps, passwords, alsoManager).passages
      == Removed(Shadowsocks, st.passages, ps, passwords, alsoManager)
  {
    FilterCongruent(st.passages, Drops(IsManager), NotManager);
    var doomed := Doomed(Shadowsocks, ps, passwords, alsoManager);
    FilterCongruent(st.passages, Drops(InKeys(doomed)), Missing(InOf, doomed));
  }

  lemma SyncAgrees(st: State, ps: seq<Passage>, passwords: nat -> string, more: nat -> string)
    ensures SyncWith(st, ps, passwords, more).passages == Synced(Shadowsocks, st.passages, ps, passwords, more)
  {
    var gone := Filter(st.passages, Missing(Key, KeysOf(ps, Key)));
    var news := Filter(ps, Missing(Key, KeysOf(st.passages, Key)));
    StoreAgrees(st, gone, passwords, false);
    StoreAgrees(RemoveFrom(st, gone, passwords, false), news, more, false);
  }

  // ---- Every list holds what the store holds ----

  ghost predicate Agree(st: State) {
    forall u :: u in st.contexts ==> multiset(PassagesOf(st.contexts[u])) == multiset(st.passages)
  }

  lemma {:induction false} FilterCounts<T>(s: seq<T>, p: T -> bool, x: T)
    ensures multiset(Filter(s, p))[x] == if p(x) then multiset(s)[x] else 0
  {
    if s != [] {
      FilterCounts(s[1..], p, x);
      assert s == [s[0]] + s[1..];
    }
  }

  lemma FilterPermuted(s: seq<Passage>, t: seq<Passage>, p: Passage -> bool)
    requires multiset(s) == multiset(t)
    ensures multiset(Filter(s, p)) == multiset(Filter(t, p))
  {
    var a, b := multiset(Filter(s, p)), multiset(Filter(t, p));
    forall x: Passage ensures a[x] == b[x] {
      FilterCounts(s, p, x);
      FilterCounts(t, p, x);
    }
    assert a <= b && b <= a;
  }

  lemma {:induction false} PassagesFiltered(ctx: seq<Slot>, keep: Passage -> bool)
    ensures PassagesOf(Filter(ctx, SlotIf(keep))) == Filter(PassagesOf(ctx), keep)
  {
    if ctx != [] {
      PassagesFiltered(ctx[1..], keep);
      assert PassagesOf(ctx)[1..] == PassagesOf(ctx[1..]);
      assert PassagesOf([ctx[0]] + Filter(ctx[1..], SlotIf(keep)))
        == [ctx[0].passage] + PassagesOf(Filter(ctx[1..], SlotIf(keep)));
    }
  }

  lemma PassagesInserted(ctx: seq<Slot>, ps: seq<Passage>)
    ensures multiset(PassagesOf(Inserted(ctx, ps))) == multiset(PassagesOf(ctx)) + multiset(ps)
  {
    var k := FirstLighter(WeightsOf(ctx), Heavier(0));
    assert PassagesOf(Inserted(ctx, ps)) == PassagesOf(ctx)[..k] + ps + PassagesOf(ctx)[k..];
    assert PassagesOf(ctx) == PassagesOf(ctx)[..k] + PassagesOf(ctx)[k..];
  }

  lemma DroppedAgrees(st: State, remove: Passage -> bool)
    requires Agree(st)
    ensures Agree(Dropped(st, remove))
  {
    forall u | u in st.contexts
      ensures multiset(PassagesOf(Filter(st.contexts[u], SlotIf(Drops(remove)))))
        == multiset(Filter(st.passages, Drops(remove)))
    {
      PassagesFiltered(st.contexts[u], Drops(remove));
      FilterPermuted(PassagesOf(st.contexts[u]), st.passages, Drops(remove));
    }
  }

  lemma GrownAgrees(st: State, ps: seq<Passage>)
    requires Agree(st)
    ensures Agree(Grown(st, ps))
  {
    forall u | u in st.contexts
      ensures multiset(PassagesOf(Inserted(st.contexts[u], ps))) == multiset(st.passages + ps)
    {
      PassagesInserted(st.contexts[u], ps);
    }
  }

  // ---- Whole runs ----

  datatype Action =
    | Add(ps: seq<Passage>, passwords: nat -> string)
    | Remove(ps: seq<Passage>, passwords: nat -> string, alsoManager: bool)
    | Sync(ps: seq<Passage>, passwords: nat -> string, more: nat -> string)
    | Open(u: User, evicted: set<User>)
    | Auth(u: User, probe: Passage -> Option<seq<byte>>)

  ghost function Step(st: State, a: Action): State {
    match a
    case Add(ps, passwords) => AddTo(st, ps, passwords)
    case Remove(ps, passwords, alsoManager) => RemoveFrom(st, ps, passwords, alsoManager)
    case Sync(ps, passwords, more) => SyncWith(st, ps, passwords, more)
    case Open(u, evicted) => Opened(st, u, evicted)
    case Auth(u, probe) => Promoted(st, u, probe)
  }

  ghost function Run(acts: seq<Action>): State {
    if acts == [] then State([], map[]) else Step(Run(acts[..|acts| - 1]), acts[|acts| - 1])
  }

  lemma AddAgrees(st: State, ps: seq<Passage>, passwords: nat -> string)
    requires Agree(st)
    ensures Agree(AddTo(st, ps, passwords))
  {
    DroppedAgrees(st, IsManager);
    GrownAgrees(if HasManager(ps) then Dropped(st, IsManager) else st,
      Localized(Shadowsocks, ps, passwords));
  }

  lemma PromotedAgrees<C>(st: State, u: User, probe: Passage -> Option<C>)
    requires Agree(st)
    ensures Agree(Promoted(st, u, probe)) && Promoted(st, u, probe).passages == st.passages
  {
  }

  lemma SyncKeepsAgree(st: State, ps: seq<Passage>, passwords: nat -> string, more: nat -> string)
    requires Agree(st)
    ensures Agree(SyncWith(st, ps, passwords, more))
  {
    var gone := Filter(st.passages, Missing(Key, KeysOf(ps, Key)));
    DroppedAgrees(st, InKeys(Doomed(Shadowsocks, gone, passwords, false)));
    AddAgrees(RemoveFrom(st, gone, passwords, false), Filter(ps, Missing(Key, KeysOf(st.passages, Key))), more);
  }

  lemma StepAgrees(st: State, a: Action)
    requires Agree(st)
    ensures Agree(Step(st, a))
  {
    match a
    case Add(ps, passwords) => AddAgrees(st, ps, passwords);
    case Remove(ps, passwords, alsoManager) =>
      DroppedAgrees(st, InKeys(Doomed(Shadowsocks, ps, passwords, alsoManager)));
    case Sync(ps, passwords, more) => SyncKeepsAgree(st, ps, passwords, more);
    case Open(u, evicted) => assert PassagesOf(Slots(st.passages, 0)) == st.passages;
    case Auth(u, probe) => PromotedAgrees(st, u, probe);
  }

  /** After any run, every user's list holds exactly the passages of the store, each as often. */
  lemma {:induction false} RunAgrees(acts: seq<Action>)
    ensures Agree(Run(acts))
  {
    if acts != [] {
      RunAgrees(acts[..|acts| - 1]);
      StepAgrees(Run(acts[..|acts| - 1]), acts[|acts| - 1]);
    }
  }

  // ---- Syncs in a run ----

  lemma StepSettled(st: State, a: Action)
    requires OneManager(st.passages) && AllSettled(Shadowsocks, st.passages)
    ensures OneManager(Step(st, a).passages) && AllSettled(Shadowsocks, Step(st, a).passages)
  {
    match a
    case Add(ps, passwords) =>
      StoreAgrees(st, ps, passwords, false);
      OneManagerKept(Shadowsocks, st.passages, ps, passwords, false);
      AllSettledKept(Shadowsocks, st.passages, ps, passwords, false);
    case Remove(ps, passwords, alsoManager) =>
      StoreAgrees(st, ps, passwords, alsoManager);
      OneManagerKept(Shadowsocks, st.passages, ps, passwords, alsoManager);
      AllSettledKept(Shadowsocks, st.passages, ps, passwords, alsoManager);
    case Sync(ps, passwords, more) =>
      SyncAgrees(st, ps, passwords, more);
      SyncSettled(Shadowsocks, st.passages, ps, passwords, more);
    case _ =>
  }

  /** After any run there is at most one manager, and every passage is as the server keeps it. */
  lemma {:induction false} RunSettled(acts: seq<Action>)
    ensures OneManager(Run(acts).passages) && AllSettled(Shadowsocks, Run(acts).passages)
  {
    if acts != [] {
      RunSettled(acts[..|acts| - 1]);
      StepSettled(Run(acts[..|acts| - 1]), acts[|acts| - 1]);
    }
  }

  /** In any run, a sync converges exactly when every passage sent survives it and managers leave nothing extra, and
    * leaves the manager as it is, unless a new one is sent, exactly when no passage goes stale with the manager's In
    * argument. */
  lemma RunSyncs(acts: seq<Action>, ps: seq<Passage>, passwords: nat -> string, more: nat -> string)
    ensures SyncOutcome(Shadowsocks, Run(acts).passages, Run(acts + [Sync(ps, passwords, more)]).passages, ps, more)
  {
    RunSettled(acts);
    LastSync(acts, ps, passwords, more);
    SyncComesTo(Shadowsocks, Run(acts).passages, ps, passwords, more);
  }

  lemma LastSync(acts: seq<Action>, ps: seq<Passage>, passwords: nat -> string, more: nat -> string)
    ensures Run(acts + [Sync(ps, passwords, more)]).passages
      == Synced(Shadowsocks, Run(acts).passages, ps, passwords, more)
  {
    var all := acts + [Sync(ps, passwords, more)];
    assert all[..|all| - 1] == acts;
    SyncAgrees(Run(acts), ps, passwords, more);
  }

  // ---- Looking a client up ----

  lemma {:induction false} FirstHitSome<V, C>(vals: seq<V>, probe: V -> Option<C>)
    ensures FirstHit(vals, probe).Some? <==> exists v :: v in vals && probe(v).Some?
    ensures FirstHit(vals, probe).Some? ==>
      FirstHit(vals, probe).value.0 in vals
      && probe(FirstHit(vals, probe).value.0) == Some(FirstHit(vals, probe).value.1)
  {
    if vals != [] {
      FirstHitSome(vals[1..], probe);
      if v :| v in vals && probe(v).Some? {
        assert v == vals[0] || v in vals[1..];
      }
    }
  }

  /** The probe accepts no two different passages. */
  ghost predicate OneAccepted<C>(ps: seq<Passage>, probe: Passage -> Option<C>) {
    forall p, q :: p in ps && q in ps && probe(p).Some? && probe(q).Some? ==> p == q
  }

  /** The search through a user's list succeeds exactly when a search through the store does; it finds the same
    * passage when only one is accepted. */
  lemma AuthMatchesStore<C>(acts: seq<Action>, u: User, probe: Passage -> Option<C>)
    requires u in Run(acts).contexts
    ensures var hit, linear := FirstHit(PassagesOf(Run(acts).contexts[u]), probe), FirstHit(Run(acts).passages, probe);
            && (hit.Some? <==> linear.Some?)
            && (hit.Some? ==> hit.value.0 in Run(acts).passages && probe(hit.value.0) == Some(hit.value.1))
            && (OneAccepted(Run(acts).passages, probe) ==> hit == linear)
  {
    RunAgrees(acts);
    var mine, all := PassagesOf(Run(acts).contexts[u]), Run(acts).passages;
    forall p ensures p in mine <==> p in all {
      assert p in multiset(mine) <==> p in multiset(all);
    }
    FirstHitSome(mine, probe);
    FirstHitSome(all, probe);
  }
}

/** A user's preference list as it is kept in arrays (LruLists), and as the shadowsocks server's model has it
  * (ShadowsocksPassages): what is done to the one is done to the other. */
module SlotLists {
  import opened Options
  import opened Seqs
  import opened LruListSpec
  import opened LruLists
  import opened UserContexts
  import opened PassageStore
  import opened UserIndex
  import opened ShadowsocksPassages

  ghost function SlotsOf(nodes: seq<Node<Passage>>): (ctx: seq<Slot>)
    reads nodes
  {
    seq(|nodes|, i requires 0 <= i < |nodes| reads nodes => Slot(nodes[i].val, nodes[i].weight))
  }

  /** The list holds ctx, one node to a slot, in order. */
  ghost predicate Represents(l: LruList<Passage>, ctx: seq<Slot>)
    requires l.Valid()
    reads l, l.list, l.pool, l.Nodes()
  {
    l.insertFront && l.max == 0 && Distinct(l.Nodes()) && SlotsOf(l.Nodes()) == ctx
  }

  /** A new user's list. */
  method NewWithList(ps: seq<Passage>, closest: nat -> nat, picks: seq<nat>) returns (l: LruList<Passage>)
    requires forall n: nat :: n <= closest(n)
    ensures fresh(l) && l.Valid() && Represents(l, Slots(ps, 0))
  {
    l := new LruList<Passage>(true, ps, closest, picks);
  }

  lemma SplicedNodes(was: seq<Node<Passage>>, k: nat, added: seq<Node<Passage>>, ps: seq<Passage>, ctx: seq<Slot>)
    requires k <= |was| && Distinct(was) && NodesFor(added, ps, Heavier(0)) && forall n :: n in added ==> n !in was
    requires SlotsOf(was) == ctx && k == FirstLighter(ShadowsocksPassages.WeightsOf(ctx), Heavier(0))
    ensures Distinct(Spliced(was, k, added)) && SlotsOf(Spliced(was, k, added)) == Inserted(ctx, ps)
  {
    SplicedDistinct(was, k, added);
    SlotsSplit(was, k);
    SlotsJoined(was[..k], added);
    SlotsJoined(was[..k] + added, was[k..]);
    SlotsFor(added, ps);
  }

  lemma SlotsFor(added: seq<Node<Passage>>, ps: seq<Passage>)
    requires NodesFor(added, ps, Heavier(0))
    ensures SlotsOf(added) == Slots(ps, Heavier(0))
  {
  }

  lemma SlotsSplit(nodes: seq<Node<Passage>>, k: nat)
    requires k <= |nodes|
    ensures SlotsOf(nodes)[..k] == SlotsOf(nodes[..k]) && SlotsOf(nodes)[k..] == SlotsOf(nodes[k..])
  {
  }

  lemma SlotsJoined(a: seq<Node<Passage>>, b: seq<Node<Passage>>)
    ensures SlotsOf(a + b) == SlotsOf(a) + SlotsOf(b)
  {
  }

  lemma SlotWeights(nodes: seq<Node<Passage>>)
    ensures LruLists.WeightsOf(nodes) == ShadowsocksPassages.WeightsOf(SlotsOf(nodes))
  {
  }

  /** The new nodes are not among the old ones, which are left as they are. */
  method InsertNodes(l: LruList<Passage>, ps: seq<Passage>, ghost ctx: seq<Slot>)
    returns (ghost k: nat, ghost added: seq<Node<Passage>>)
    requires l.Valid() && Represents(l, ctx)
    modifies l`list, l`len, l.pool, l.list, l.pool.free
    ensures l.Valid() && l.lent == old(l.lent) && NodesFor(added, ps, Heavier(0))
    ensures k == FirstLighter(ShadowsocksPassages.WeightsOf(ctx), Heavier(0)) && k <= |old(l.Nodes())|
    ensures l.Nodes() == Spliced(old(l.Nodes()), k, added)
    ensures forall n :: n in added ==> n !in old(l.Nodes())
    ensures SlotsOf(old(l.Nodes())) == ctx
  {
    ghost var was := l.Nodes();
    SlotWeights(was);
    k, added := l.Insert(ps);
    assert SlotsOf(was) == ctx;
    forall n | n in added ensures n !in was {
      assert fresh(n);
    }
  }

  /** Adding passages. */
  method Insert(l: LruList<Passage>, ps: seq<Passage>, ghost ctx: seq<Slot>)
    requires l.Valid() && Represents(l, ctx)
    modifies l`list, l`len, l.pool, l.list, l.pool.free
    ensures l.Valid() && l.lent == old(l.lent) && Represents(l, Inserted(ctx, ps))
  {
    ghost var was := l.Nodes();
    ghost var k, added := InsertNodes(l, ps, ctx);
    SplicedNodes(was, k, added, ps, ctx);
  }

  /** Removing passages. */
  method RemoveWhere(l: LruList<Passage>, remove: Passage -> bool, ghost ctx: seq<Slot>)
    requires l.Valid() && Represents(l, ctx)
    modifies l`lent, l`len, l.pool, l.pool.free, l.list
    ensures l.Valid() && l.lent == old(l.lent) && Represents(l, Filter(ctx, SlotIf(Drops(remove))))
  {
    ghost var was := l.Nodes();
    FilterSlots(was, remove);
    FilterDistinct(was, Keeping(remove));
    ghost var rest := Filter(was, Keeping(remove));
    ghost var slots := SlotsOf(rest);
    UserContexts.RemoveWhere(l, remove);
    assert SlotsOf(rest) == slots;
  }

  lemma {:induction false} FilterSlots(nodes: seq<Node<Passage>>, remove: Passage -> bool)
    ensures SlotsOf(Filter(nodes, Keeping(remove))) == Filter(SlotsOf(nodes), SlotIf(Drops(remove)))
  {
    if nodes != [] {
      FilterSlots(nodes[1..], remove);
      assert SlotsOf(nodes)[1..] == SlotsOf(nodes[1..]);
      var rest := Filter(nodes[1..], Keeping(remove));
      assert SlotsOf([nodes[0]] + rest) == [SlotsOf(nodes)[0]] + SlotsOf(rest);
    }
  }

  lemma {:induction false} FilterDistinct<T>(s: seq<T>, p: T -> bool)
    requires Distinct(s)
    ensures Distinct(Filter(s, p))
  {
    if s != [] {
      FilterDistinct(s[1..], p);
      FilterMember(s[1..], p, s[0]);
    }
  }

  /** Looking for the passage that a client belongs to. */
  method Auth<C>(l: LruList<Passage>, probe: Passage -> Option<C>, ghost ctx: seq<Slot>)
    returns (hit: Option<(Passage, C)>)
    requires l.Valid() && Represents(l, ctx)
    modifies l`lent, l.pool, l.pool.free, l.Nodes()
    ensures l.Valid() && l.lent == old(l.lent) && Represents(l, PromotedIn(ctx, probe))
    ensures hit == FirstHit(PassagesOf(ctx), probe)
  {
    ghost var nodes := l.Nodes();
    assert Vals(nodes) == PassagesOf(ctx);
    ghost var k;
    hit, k := UserContexts.Auth(l, probe);
    assert forall i :: 0 <= i < |ctx| ==> ctx[i].passage == Vals(nodes)[i];
    HitIsFirst(ctx, probe, k);
    if hit.Some? {
      DistinctAt(nodes, k);
    }
    forall i | 0 <= i < |nodes| ensures SlotsOf(nodes)[i] == PromotedIn(ctx, probe)[i] {
      assert nodes[i] in nodes;
    }
  }
}
