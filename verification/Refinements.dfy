/** The version exchange as Negotiation has it and as the multiplexer has it agree. */
module NegotiationSteps {
  import opened Bytes
  import opened Options
  import Mux
  import opened Negotiation

  /** e has the version that these events leave. */
  ghost predicate SameVersion(e: Mux.Endpoint, es: seq<Event>) {
    e.handshake.version == Run(es).version as nat
  }

  /** Server settings change both alike, a timeout neither, and a dial goes by the same version in both. */
  lemma SettingsAgree(e: Mux.Endpoint, es: seq<Event>, parsed: Option<int>)
    requires SameVersion(e, es)
    ensures SameVersion(e.TakeServerSettings(parsed), es + [Announce(Announced(parsed))])
    ensures SameVersion(e, es + [Timeout])
    ensures Answer(Run(es)) as nat == if e.handshake.version == 0 then 1 else e.handshake.version
  {
    TimedOutMeansSilent(es);
    assert (es + [Announce(Announced(parsed))])[..|es|] == es && (es + [Timeout])[..|es|] == es;
  }

  /** A dial of the multiplexer's model goes by what the exchange answers. */
  lemma DecideAgrees(st: Mux.State, es: seq<Event>, id: Mux.Id, version: seq<byte> -> Option<int>)
    requires SameVersion(st.client, es) && Mux.Enabled(st, Mux.Decide(id))
    ensures Mux.Step(st, Mux.Decide(id), version).client.calls.decided[id] == Answer(Run(es)) as nat
  {
    SettingsAgree(st.client, es, None);
  }
}

/** The mapping as an object (NatMapping) does what the model of its handlers and relays (Nat) has it do. */
module NatSteps {
  import opened Options
  import opened NatMapping
  import opened Nat

  /** The sockets of a list of closings. */
  ghost function Sockets(closings: seq<(Socket, Option<Socket>)>): seq<Socket> {
    seq(|closings|, i requires 0 <= i < |closings| => closings[i].0)
  }

  lemma SocketsMore(closings: seq<(Socket, Option<Socket>)>, x: (Socket, Option<Socket>))
    ensures Sockets(closings + [x]) == Sockets(closings) + [x.0]
  {
  }

  /** An entry as it is now. */
  datatype Seen = Seen(c: UDPConn, conn: Option<Socket>, establishing: bool)

  ghost function View(m: UDPConnMapping): map<Addr, Seen>
    reads m, m.nm.Values
  {
    map a | a in m.nm :: Seen(m.nm[a], m.nm[a].packetConn, m.nm[a].establishing)
  }

  /** A mapping with these entries, which go by ids, and these sockets closed is the table t. */
  ghost predicate Shows(view: map<Addr, Seen>, closed: seq<Socket>, ids: map<UDPConn, EntryId>, t: Table) {
    && view.Keys == t.nm.Keys && closed == Sockets(t.closings)
    && (forall a :: a in view ==> ShowsEntry(view[a], ids, t, t.nm[a]))
    && (forall a, b :: a in view && b in view && t.nm[a] == t.nm[b] ==> a == b)
  }

  ghost predicate ShowsEntry(s: Seen, ids: map<UDPConn, EntryId>, t: Table, e: EntryId) {
    && s.c in ids && ids[s.c] == e && e in t.entries && t.entries[e].conn == s.conn
    && t.entries[e].establishing == s.establishing && (s.conn.None? <==> s.establishing)
  }

  lemma RemoveShows(view: map<Addr, Seen>, closed: seq<Socket>, ids: map<UDPConn, EntryId>, t: Table, key: Addr,
                    closer: Option<Socket>)
    requires Shows(view, closed, ids, t)
    ensures var now := if key in view && !view[key].establishing && view[key].conn.Some?
                       then closed + [view[key].conn.value] else closed;
            Shows(view - {key}, now, ids, t.Remove(key, closer))
    ensures t.Remove(key, closer).broken == t.broken
  {
    if key in view {
      assert ShowsEntry(view[key], ids, t, t.nm[key]);
      if view[key].conn.Some? {
        SocketsMore(t.closings, (view[key].conn.value, closer));
      }
    } else {
      assert view - {key} == view;
    }
  }

  lemma InsertShows(view: map<Addr, Seen>, closed: seq<Socket>, ids: map<UDPConn, EntryId>, t: Table, key: Addr,
                    c: UDPConn, val: Option<Socket>, e: EntryId, h: HandlerId)
    requires Shows(view, closed, ids, t) && e !in t.entries && c !in ids
    ensures Shows(view[key := Seen(c, val, val.None?)], closed, ids[c := e], t.Insert(key, e, val, h))
  {
  }

  /** What the object itself does to its entries. */
  method RemoveSeen(m: UDPConnMapping, key: Addr)
    requires m.Valid()
    modifies m, m.nm.Values
    ensures m.Valid() && View(m) == old(View(m)) - {key}
    ensures m.closed == var view := old(View(m));
      if key in view && !view[key].establishing && view[key].conn.Some?
      then old(m.closed) + [view[key].conn.value] else old(m.closed)
  {
    ghost var was := m.nm;
    m.Remove(key);
    assert forall a :: a in m.nm ==> a in was && a != key && m.nm[a] == was[a];
  }

  method InsertSeen(m: UDPConnMapping, key: Addr, val: Option<Socket>) returns (c: UDPConn)
    requires m.Valid()
    modifies m`nm
    ensures m.Valid() && fresh(c) && View(m) == old(View(m))[key := Seen(c, val, val.None?)]
  {
    c := m.Insert(key, val);
  }

  /** A removal, by a relay or not. */
  method Remove(m: UDPConnMapping, key: Addr, closer: Option<Socket>, ghost ids: map<UDPConn, EntryId>, ghost t: Table)
    requires m.Valid() && Shows(View(m), m.closed, ids, t)
    modifies m, m.nm.Values
    ensures m.Valid() && Shows(View(m), m.closed, ids, t.Remove(key, closer))
    ensures t.Remove(key, closer).broken == t.broken
  {
    RemoveShows(View(m), m.closed, ids, t, key, closer);
    RemoveSeen(m, key);
  }

  /** An insertion, under an id that is new. */
  method Insert(m: UDPConnMapping, key: Addr, val: Option<Socket>, ghost ids: map<UDPConn, EntryId>, ghost t: Table,
                ghost e: EntryId, ghost h: HandlerId)
    returns (c: UDPConn)
    requires m.Valid() && Shows(View(m), m.closed, ids, t) && e !in t.entries
    modifies m`nm
    ensures m.Valid() && fresh(c) && c !in ids
    ensures Shows(View(m), m.closed, ids[c := e], t.Insert(key, e, val, h))
  {
    ghost var view := View(m);
    c := InsertSeen(m, key, val);
    InsertShows(view, m.closed, ids, t, key, c, val, e, h);
  }
}

/** A session and a stream as they run themselves (Sessions, Streams) take steps of the multiplexer's model (Mux). */
module MuxSteps {
  import opened Bytes
  import opened Options
  import opened Seqs
  import opened WireFormat
  import opened Mux
  import Sessions
  import opened Streams

  /** The state after these steps; None if one of them cannot be taken. */
  function After(st: State, acts: seq<Action>, version: seq<byte> -> Option<int>): Option<State>
    decreases |acts|
  {
    if acts == [] then Some(st)
    else if Enabled(st, acts[0]) then After(Step(st, acts[0], version), acts[1..], version)
    else None
  }

  lemma One(st: State, a: Action, version: seq<byte> -> Option<int>)
    requires Enabled(st, a)
    ensures After(st, [a], version) == Some(Step(st, a, version))
  {
    assert [a][1..] == [];
  }

  // ---- Reads ----

  /** The steps that one round of a Read stands for; a chunk arrives by a round of the receive loop. */
  function StepsOf(c: bool, id: Id, r: Round): seq<Action> {
    match r
    case Fetch => [Pull(c, id), Store(c, id, 0)]
    case Return(n) => [Copy(c, id, n)]
    case Arrive(_) => [Receive(c, false)]
  }

  /** For a chunk to arrive, it has to be next on the wire of an open session that knows the stream. */
  predicate CanArrive(st: State, c: bool, id: Id, data: seq<byte>) {
    && st.Wire(c) != [] && st.Wire(c)[0] == Frame(CMD_PSH, id, data)
    && !st.End(c).closed && id in st.End(c).table.known
  }

  /** Each round of a Read is steps of the model, which do to the stream's bytes what the round does. */
  lemma RoundIsSteps(st: State, c: bool, id: Id, r: Round, version: seq<byte> -> Option<int>)
    requires st.Has(c, id) && Possible(st.End(c).Obj(id).inbox, r)
    requires r.Arrive? ==> CanArrive(st, c, id, r.data)
    ensures var st' := After(st, StepsOf(c, id, r), version);
            && st'.Some? && st'.value.Has(c, id)
            && st'.value.End(c).Obj(id).inbox == Applied(st.End(c).Obj(id).inbox, r)
  {
    match r
    case Fetch => FetchIsSteps(st, c, id, version);
    case Return(n) => One(st, Copy(c, id, n), version);
    case Arrive(data) => One(st, Receive(c, false), version);
  }

  lemma FetchIsSteps(st: State, c: bool, id: Id, version: seq<byte> -> Option<int>)
    requires st.Has(c, id) && Possible(st.End(c).Obj(id).inbox, Fetch)
    ensures var st' := After(st, [Pull(c, id), Store(c, id, 0)], version);
            && st'.Some? && st'.value.Has(c, id)
            && st'.value.End(c).Obj(id).inbox == Applied(st.End(c).Obj(id).inbox, Fetch)
    ensures SoloStep(st, Pull(c, id))
  {
    One(Step(st, Pull(c, id), version), Store(c, id, 0), version);
    assert [Pull(c, id), Store(c, id, 0)][1..] == [Store(c, id, 0)];
  }

  lemma {:induction false} AfterJoin(st: State, a: seq<Action>, b: seq<Action>, version: seq<byte> -> Option<int>)
    requires After(st, a, version).Some?
    ensures After(st, a + b, version) == After(After(st, a, version).value, b, version)
    decreases |a|
  {
    if a == [] {
      assert a + b == b;
    } else {
      ConsAppend(a, b);
      AfterJoin(Step(st, a[0], version), a[1..], b, version);
    }
  }

  function AllSteps(c: bool, id: Id, rs: seq<Round>): seq<Action> {
    if rs == [] then [] else AllSteps(c, id, rs[..|rs| - 1]) + StepsOf(c, id, rs[|rs| - 1])
  }

  /** A Read is steps of the model, as long as no chunk arrives meanwhile. */
  lemma {:induction false} ReadIsSteps(st: State, c: bool, id: Id, rs: seq<Round>, version: seq<byte> -> Option<int>)
    requires st.Has(c, id) && AfterAll(st.End(c).Obj(id).inbox, rs).Some?
    requires forall i :: 0 <= i < |rs| ==> !rs[i].Arrive?
    ensures var st' := After(st, AllSteps(c, id, rs), version);
            && st'.Some? && st'.value.Has(c, id)
            && st'.value.End(c).Obj(id).inbox == AfterAll(st.End(c).Obj(id).inbox, rs).value
  {
    if rs != [] {
      var front, r := rs[..|rs| - 1], rs[|rs| - 1];
      ReadIsSteps(st, c, id, front, version);
      var st1 := After(st, AllSteps(c, id, front), version).value;
      RoundIsSteps(st1, c, id, r, version);
      AfterJoin(st, AllSteps(c, id, front), StepsOf(c, id, r), version);
    }
  }

  // ---- The receive loop ----

  /** The steps by which a session takes the frames from i to n. */
  ghost function Receives(e: Endpoint, c: bool, fs: seq<Frame>, i: nat, picks: nat -> bool,
                          version: seq<byte> -> Option<int>): seq<Action>
    decreases |fs| - i
  {
    if i >= |fs| || !e.CanTake(fs[i], Sessions.Dropped(e, fs[i], picks(i))) then []
    else
      var drop := Sessions.Dropped(e, fs[i], picks(i));
      [Receive(c, drop)] + Receives(e.Take(fs[i], drop, version), c, fs, i + 1, picks, version)
  }

  lemma ReceiveIs(st: State, c: bool, drop: bool, version: seq<byte> -> Option<int>)
    requires Enabled(st, Receive(c, drop))
    ensures var st' := Step(st, Receive(c, drop), version);
            && st'.End(c) == st.End(c).Take(st.Wire(c)[0], drop, version) && st'.End(!c) == st.End(!c)
            && st'.Wire(c) == st.Wire(c)[1..]
            && st'.Wire(!c) == st.Wire(!c) + st.End(c).Answer(st.Wire(c)[0], version)
  {
  }

  /** What a receive loop does with the frames on its wire, as many as it takes, is that many steps of the model: the
    * session ends up the same, what it took is off its wire, and its answers are on the other. */
  lemma {:induction false} LoopIsSteps(st: State, c: bool, fs: seq<Frame>, i: nat, picks: nat -> bool,
                                       version: seq<byte> -> Option<int>)
    requires i <= |fs| && st.Wire(c) == fs[i..]
    ensures var (e, answers, n) := Sessions.TakeAll(st.End(c), fs, i, picks, version);
            var st' := After(st, Receives(st.End(c), c, fs, i, picks, version), version);
            && i <= n <= |fs| && st'.Some? && st'.value.End(c) == e && st'.value.End(!c) == st.End(!c)
            && st'.value.Wire(c) == fs[n..] && st'.value.Wire(!c) == st.Wire(!c) + answers
    decreases |fs| - i
  {
    if i < |fs| && st.End(c).CanTake(fs[i], Sessions.Dropped(st.End(c), fs[i], picks(i))) {
      var drop := Sessions.Dropped(st.End(c), fs[i], picks(i));
      assert fs[i..][0] == fs[i] && fs[i..][1..] == fs[i + 1..];
      ReceiveIs(st, c, drop, version);
      var st1 := Step(st, Receive(c, drop), version);
      LoopIsSteps(st1, c, fs, i + 1, picks, version);
      var more := Receives(st1.End(c), c, fs, i + 1, picks, version);
      assert ([Receive(c, drop)] + more)[0] == Receive(c, drop) && ([Receive(c, drop)] + more)[1..] == more;
      AppendAssoc(st.Wire(!c), st.End(c).Answer(fs[i], version),
        Sessions.TakeAll(st1.End(c), fs, i + 1, picks, version).1);
    } else {
      assert st.Wire(!c) + [] == st.Wire(!c);
    }
  }
}
