/** Packet handlers and relays around the mapping (server/shadowsocks/udp.go), one step under its lock at a time: for
  * each client address one handler dials, the others wait, and a relay later removes the entry. */
module Nat {
  import opened Options
  import opened NatMapping
  import opened Seqs

  type EntryId = nat
  type HandlerId = nat

  /** One UDPConn, inserted for the address a by the handler maker. */
  datatype Entry = Entry(a: Addr, conn: Option<Socket>, establishing: bool, maker: HandlerId)

  /** A handler before its look at the mapping; dialling, with its entry in place; waiting on another's entry; done,
    * with the socket it got from an entry or with none. */
  datatype Handler = Looking(a: Addr) | Building(a: Addr, e: EntryId)
    | Waiting(a: Addr, e: EntryId) | Done(a: Addr, e: EntryId, conn: Option<Socket>)

  datatype Relay = Relay(a: Addr, e: EntryId)

  /** entries holds every UDPConn ever made, nm the mapping. signals counts how often each entry's channel was closed,
    * closings says which relay's removal closed each socket; broken is set if a removal would close a socket that is
    * not there. */
  datatype Table = Table(
    entries: map<EntryId, Entry>, nm: map<Addr, EntryId>, signals: map<EntryId, nat>,
    closings: seq<(Socket, Option<Socket>)>, broken: bool)
  {
    function Insert(a: Addr, e: EntryId, conn: Option<Socket>, h: HandlerId): Table {
      this.(entries := entries[e := Entry(a, conn, conn.None?, h)], nm := nm[a := e],
            signals := signals[e := if conn.Some? then 1 else 0])
    }

    /** UDPConnMapping.Remove; closer is the relay that calls it, if it is one. */
    function Remove(a: Addr, closer: Option<Socket>): Table {
      if a !in nm || nm[a] !in entries then this
      else
        var e := nm[a];
        var t := this.(nm := nm - {a});
        if !entries[e].establishing then
          match entries[e].conn
          case Some(s) => t.(closings := closings + [(s, closer)])
          case None => t.(broken := true)
        else
          t.(entries := entries[e := entries[e].(establishing := false)],
             signals := signals[e := (if e in signals then signals[e] else 0) + 1])
    }
  }

  /** relays holds the running relays by their socket, abandoned the entries whose handler gave up before it
    * dialled. */
  datatype State = State(
    table: Table, handlers: map<HandlerId, Handler>, relays: map<Socket, Relay>, abandoned: map<EntryId, Addr>,
    dialled: set<Socket>)

  const INIT := State(Table(map[], map[], map[], [], false), map[], map[], map[], {})

  datatype Action =
    | Arrive(h: HandlerId, a: Addr)
    | Look(h: HandlerId, e: EntryId)                  // Get, and Insert of an empty entry if there is none
    | Abandon(h: HandlerId)                              // no header or no dialer
    | DialFails(h: HandlerId)
    | DialSucceeds(h: HandlerId, s: Socket, e: EntryId)
    | Wake(h: HandlerId)                                 // the channel is closed: use the socket, or start over
    | RelayEnds(s: Socket)

  predicate Enabled(st: State, a: Action) {
    match a
    case Arrive(h, _) => h !in st.handlers
    case Look(h, e) => h in st.handlers && st.handlers[h].Looking? && e !in st.table.entries
    case Abandon(h) => h in st.handlers && st.handlers[h].Building?
    case DialFails(h) => h in st.handlers && st.handlers[h].Building?
    case DialSucceeds(h, s, e) =>
      h in st.handlers && st.handlers[h].Building? && s !in st.dialled && e !in st.table.entries
    case Wake(h) =>
      && h in st.handlers && st.handlers[h].Waiting?
      && st.handlers[h].e in st.table.entries && !st.table.entries[st.handlers[h].e].establishing
    case RelayEnds(s) => s in st.relays
  }

  function Step(st: State, a: Action): State
    requires Enabled(st, a)
  {
    match a
    case Arrive(h, addr) => st.(handlers := st.handlers[h := Looking(addr)])
    case Look(h, e) =>
      var addr := st.handlers[h].a;
      if addr in st.table.nm then st.(handlers := st.handlers[h := Waiting(addr, st.table.nm[addr])])
      else st.(table := st.table.Insert(addr, e, None, h), handlers := st.handlers[h := Building(addr, e)])
    case Abandon(h) =>
      var x := st.handlers[h];
      st.(handlers := st.handlers[h := Done(x.a, x.e, None)], abandoned := st.abandoned[x.e := x.a])
    case DialFails(h) =>
      var x := st.handlers[h];
      st.(table := st.table.Remove(x.a, None), handlers := st.handlers[h := Done(x.a, x.e, None)])
    case DialSucceeds(h, s, e) =>
      var addr := st.handlers[h].a;
      st.(
        table := st.table.Remove(addr, None).Insert(addr, e, Some(s), h),
        handlers := st.handlers[h := Done(addr, e, Some(s))], relays := st.relays[s := Relay(addr, e)],
        dialled := st.dialled + {s})
    case Wake(h) =>
      var x := st.handlers[h];
      var conn := st.table.entries[x.e].conn;
      st.(handlers := st.handlers[h := if conn.None? then Looking(x.a) else Done(x.a, x.e, conn)])
    case RelayEnds(s) => st.(table := st.table.Remove(st.relays[s].a, Some(s)), relays := st.relays - {s})
  }

  function Run(acts: seq<Action>): Option<State> {
    if acts == [] then Some(INIT) else
      var st := Run(acts[..|acts| - 1]);
      if st.Some? && Enabled(st.value, acts[|acts| - 1]) then Some(Step(st.value, acts[|acts| - 1])) else None
  }

  // ---- Who is responsible for an address ----

  datatype Owner = Builder(h: HandlerId) | RelayOf(s: Socket) | Nobody(e: EntryId)

  /** The owner w holds an entry at address a: its handler is dialling for it, its relay serves it, or it is left
    * behind. */
  predicate Owns(st: State, w: Owner, a: Addr, e: EntryId) {
    match w
    case Builder(h) => h in st.handlers && st.handlers[h] == Building(a, e)
    case RelayOf(s) => s in st.relays && st.relays[s] == Relay(a, e)
    case Nobody(e') => e' == e && e in st.abandoned && st.abandoned[e] == a
  }

  predicate Holds(t: Table, a: Addr, e: EntryId, conn: Option<Socket>) {
    && a in t.nm && t.nm[a] == e && e in t.entries
    && t.entries[e].a == a && t.entries[e].conn == conn && t.entries[e].establishing == conn.None?
  }

  /** Whoever holds an entry holds the one that is mapped: still being established, or with its own socket. */
  predicate BuilderOk(st: State, h: HandlerId) {
    h in st.handlers && st.handlers[h].Building? ==>
      && Holds(st.table, st.handlers[h].a, st.handlers[h].e, None)
      && st.table.entries[st.handlers[h].e].maker == h && st.handlers[h].e !in st.abandoned
  }

  predicate AbandonedOk(st: State, e: EntryId) {
    e in st.abandoned ==> Holds(st.table, st.abandoned[e], e, None)
  }

  predicate RelayOk(st: State, s: Socket) {
    s in st.relays ==> Holds(st.table, st.relays[s].a, st.relays[s].e, Some(s)) && s in st.dialled
  }

  /** Who holds the entry that is mapped at a. */
  function OwnerOf(st: State, a: Addr): Owner
    requires a in st.table.nm && st.table.nm[a] in st.table.entries
  {
    var e := st.table.nm[a];
    match st.table.entries[e].conn
    case Some(s) => RelayOf(s)
    case None => if e in st.abandoned then Nobody(e) else Builder(st.table.entries[e].maker)
  }

  /** Whatever is mapped is held. */
  predicate MappedOk(st: State, a: Addr) {
    a in st.table.nm ==>
      && st.table.nm[a] in st.table.entries && st.table.entries[st.table.nm[a]].a == a
      && Owns(st, OwnerOf(st, a), a, st.table.nm[a])
  }

  /** An entry's channel is closed once, and one with a socket is not being established. */
  predicate EntryOk(t: Table, e: EntryId) {
    e in t.entries ==>
      && e in t.signals && t.signals[e] == (if t.entries[e].establishing then 0 else 1)
      && (t.entries[e].conn.Some? ==> !t.entries[e].establishing)
  }

  /** Whoever made an entry with a socket has that socket, which was dialled. */
  predicate MakerOk(st: State, e: EntryId) {
    e in st.table.entries && st.table.entries[e].conn.Some? ==>
      var x := st.table.entries[e];
      x.conn.value in st.dialled && x.maker in st.handlers && st.handlers[x.maker] == Done(x.a, e, x.conn)
  }

  /** A handler waits on an entry made for its own address. Once done it has the socket of such an entry, or it has
    * none: then it made the entry itself, and left it behind or closed its channel without a socket. */
  predicate HandlerOk(st: State, h: HandlerId) {
    h in st.handlers && !st.handlers[h].Looking? ==>
      var x := st.handlers[h];
      && x.e in st.table.entries && st.table.entries[x.e].a == x.a
      && (x.Done? ==> st.table.entries[x.e].conn == x.conn)
      && (x.Done? && x.conn.Some? ==> x.conn.value in st.dialled)
      && (x.Done? && x.conn.None? ==>
            st.table.entries[x.e].maker == h && (x.e in st.abandoned || !st.table.entries[x.e].establishing))
  }

  /** Sockets are closed once, by their own relay and no sooner than it ends. */
  ghost predicate Tidy(st: State) {
    && (forall c :: c in st.table.closings ==> c.1 == Some(c.0) && c.0 in st.dialled && c.0 !in st.relays)
    && Distinct(st.table.closings)
    && (forall s :: s in st.dialled && s !in st.relays ==> (s, Some(s)) in st.table.closings)
    && !st.table.broken
  }

  ghost predicate Inv(st: State) {
    && (forall h {:trigger BuilderOk(st, h)} :: BuilderOk(st, h))
    && (forall e {:trigger AbandonedOk(st, e)} :: AbandonedOk(st, e))
    && (forall s {:trigger RelayOk(st, s)} :: RelayOk(st, s))
    && (forall a {:trigger MappedOk(st, a)} :: MappedOk(st, a))
    && (forall e {:trigger EntryOk(st.table, e)} :: EntryOk(st.table, e))
    && (forall e {:trigger MakerOk(st, e)} :: MakerOk(st, e))
    && (forall h {:trigger HandlerOk(st, h)} :: HandlerOk(st, h))
    && Tidy(st)
  }

  /** What is known of the handler, relay or entry that a step is about. */
  predicate ActorOk(st: State, act: Action)
    requires Enabled(st, act)
  {
    match act
    case Look(h, e) => AbandonedOk(st, e) && MappedOk(st, st.handlers[h].a)
    case Abandon(h) => BuilderOk(st, h)
    case DialFails(h) => BuilderOk(st, h)
    case DialSucceeds(h, s, e) => BuilderOk(st, h) && RelayOk(st, s) && AbandonedOk(st, e)
    case Wake(h) => MakerOk(st, st.handlers[h].e)
    case RelayEnds(s) => RelayOk(st, s)
    case _ => true
  }

  lemma StepBuilder(st: State, act: Action, h: HandlerId)
    requires Enabled(st, act) && ActorOk(st, act) && BuilderOk(st, h)
    ensures BuilderOk(Step(st, act), h)
  {
  }

  lemma StepAbandoned(st: State, act: Action, e: EntryId)
    requires Enabled(st, act) && ActorOk(st, act) && AbandonedOk(st, e)
    ensures AbandonedOk(Step(st, act), e)
  {
  }

  lemma StepRelay(st: State, act: Action, s: Socket)
    requires Enabled(st, act) && ActorOk(st, act) && RelayOk(st, s)
    ensures RelayOk(Step(st, act), s)
  {
  }

  lemma StepMapped(st: State, act: Action, a: Addr)
    requires Enabled(st, act) && ActorOk(st, act) && MappedOk(st, a)
    ensures MappedOk(Step(st, act), a)
  {
    match act
    case Look(h, e) => MappedLook(st, h, e, a);
    case DialSucceeds(h, s, e) => MappedDialled(st, h, s, e, a);
    case DialFails(_) => MappedRemoved(st, act, a);
    case RelayEnds(_) => MappedRemoved(st, act, a);
    case _ => MappedSame(st, act, a);
  }

  lemma MappedSame(st: State, act: Action, a: Addr)
    requires Enabled(st, act) && ActorOk(st, act) && MappedOk(st, a) && (act.Arrive? || act.Abandon? || act.Wake?)
    ensures MappedOk(Step(st, act), a)
  {
  }

  lemma MappedLook(st: State, h: HandlerId, e: EntryId, a: Addr)
    requires Enabled(st, Look(h, e)) && AbandonedOk(st, e) && MappedOk(st, a)
    ensures MappedOk(Step(st, Look(h, e)), a)
  {
  }

  lemma MappedDialled(st: State, h: HandlerId, s: Socket, e: EntryId, a: Addr)
    requires Enabled(st, DialSucceeds(h, s, e)) && ActorOk(st, DialSucceeds(h, s, e)) && MappedOk(st, a)
    ensures MappedOk(Step(st, DialSucceeds(h, s, e)), a)
  {
  }

  lemma MappedRemoved(st: State, act: Action, a: Addr)
    requires Enabled(st, act) && ActorOk(st, act) && MappedOk(st, a) && (act.DialFails? || act.RelayEnds?)
    ensures MappedOk(Step(st, act), a)
  {
  }

  lemma StepEntry(st: State, act: Action, e: EntryId)
    requires Enabled(st, act) && ActorOk(st, act) && EntryOk(st.table, e)
    ensures EntryOk(Step(st, act).table, e)
  {
  }

  lemma StepMaker(st: State, act: Action, e: EntryId)
    requires Enabled(st, act) && ActorOk(st, act) && MakerOk(st, e)
    ensures MakerOk(Step(st, act), e)
  {
  }

  lemma StepHandler(st: State, act: Action, h: HandlerId)
    requires Enabled(st, act) && ActorOk(st, act) && HandlerOk(st, h)
    ensures HandlerOk(Step(st, act), h)
  {
  }

  lemma StepTidy(st: State, act: Action)
    requires Enabled(st, act) && ActorOk(st, act) && Tidy(st)
    ensures Tidy(Step(st, act))
  {
    if act.RelayEnds? {
      DistinctAppend(st.table.closings, (act.s, Some(act.s)));
    }
  }

  lemma StepInv(st: State, act: Action)
    requires Inv(st) && Enabled(st, act)
    ensures Inv(Step(st, act))
  {
    var st' := Step(st, act);
    assert ActorOk(st, act);
    forall h ensures BuilderOk(st', h) {
      StepBuilder(st, act, h);
    }
    forall e ensures AbandonedOk(st', e) {
      StepAbandoned(st, act, e);
    }
    forall s ensures RelayOk(st', s) {
      StepRelay(st, act, s);
    }
    forall a ensures MappedOk(st', a) {
      StepMapped(st, act, a);
    }
    forall e ensures EntryOk(st'.table, e) {
      StepEntry(st, act, e);
    }
    forall e ensures MakerOk(st', e) {
      StepMaker(st, act, e);
    }
    forall h ensures HandlerOk(st', h) {
      StepHandler(st, act, h);
    }
    StepTidy(st, act);
  }

  lemma {:induction false} RunInv(acts: seq<Action>)
    requires Run(acts).Some?
    ensures Inv(Run(acts).value)
  {
    if acts != [] {
      RunInv(acts[..|acts| - 1]);
      StepInv(Run(acts[..|acts| - 1]).value, acts[|acts| - 1]);
    } else {
      assert Inv(INIT);
    }
  }

  // ---- What holds in every run ----

  /** Every mapped address has exactly one owner, and every owner's entry is the one that is mapped: there is one
    * flight at a time for each client. */
  lemma SingleFlight(acts: seq<Action>, a: Addr)
    requires Run(acts).Some?
    ensures var st := Run(acts).value;
            && (a in st.table.nm ==> exists w :: Owns(st, w, a, st.table.nm[a]))
            && (forall w, e :: Owns(st, w, a, e) ==> a in st.table.nm && st.table.nm[a] == e)
            && (forall w, v, e, f :: Owns(st, w, a, e) && Owns(st, v, a, f) ==> w == v)
  {
    RunInv(acts);
    var st := Run(acts).value;
    assert MappedOk(st, a);
    forall w, e | Owns(st, w, a, e)
      ensures a in st.table.nm && st.table.nm[a] == e && e in st.table.entries && OwnerOf(st, a) == w
    {
      match w
      case Builder(h) => assert BuilderOk(st, h);
      case RelayOf(s) => assert RelayOk(st, s);
      case Nobody(f) => assert AbandonedOk(st, f);
    }
  }

  /** A mapped entry has no socket exactly while its channel is open; no channel is closed twice. */
  lemma ChannelsClosedOnce(acts: seq<Action>)
    requires Run(acts).Some?
    ensures var t := Run(acts).value.table;
            && (forall a :: a in t.nm ==> t.nm[a] in t.entries)
            && (forall a :: a in t.nm ==> (t.entries[t.nm[a]].conn == None <==> t.entries[t.nm[a]].establishing))
            && (forall e :: e in t.entries ==> e in t.signals && t.signals[e] <= 1)
  {
    RunInv(acts);
    var st := Run(acts).value;
    forall a | a in st.table.nm
      ensures st.table.nm[a] in st.table.entries
      ensures st.table.entries[st.table.nm[a]].conn == None <==> st.table.entries[st.table.nm[a]].establishing
    {
      assert MappedOk(st, a);
      match OwnerOf(st, a)
      case Builder(h) => assert BuilderOk(st, h);
      case RelayOf(s) => assert RelayOk(st, s);
      case Nobody(f) => assert AbandonedOk(st, f);
    }
    forall e | e in st.table.entries ensures e in st.table.signals && st.table.signals[e] <= 1 {
      assert EntryOk(st.table, e);
    }
  }

  /** A socket is closed exactly when its relay has ended: once, and by that relay's removal, never by a stale one. */
  lemma SocketsClosedByOwnRelay(acts: seq<Action>)
    requires Run(acts).Some?
    ensures var st := Run(acts).value;
            && !st.table.broken
            && (forall c :: c in st.table.closings ==> c.1 == Some(c.0) && c.0 in st.dialled && c.0 !in st.relays)
            && (forall s :: s in st.dialled && s !in st.relays ==> (s, Some(s)) in st.table.closings)
            && PairwiseDistinct(st.table.closings)
  {
    RunInv(acts);
    DistinctPairwise(Run(acts).value.table.closings);
  }

  /** What each handler has in the end. One with a socket has it from an entry made for its own address, and the
    * socket was dialled; one without made an entry itself and left it behind or failed to dial. Whoever made an entry
    * with a socket has that socket. */
  lemma {:induction false} WhatHandlersGet(acts: seq<Action>)
    requires Run(acts).Some?
    ensures var st := Run(acts).value;
            && (forall h :: h in st.handlers && st.handlers[h].Done? && st.handlers[h].conn.Some? ==>
                  var x := st.handlers[h];
                  && x.e in st.table.entries && st.table.entries[x.e].a == x.a
                  && st.table.entries[x.e].conn == x.conn && x.conn.value in st.dialled)
            && (forall h :: h in st.handlers && st.handlers[h].Done? && st.handlers[h].conn.None? ==>
                  var x := st.handlers[h];
                  && x.e in st.table.entries && st.table.entries[x.e].maker == h
                  && st.table.entries[x.e].a == x.a && st.table.entries[x.e].conn == None
                  && (x.e in st.abandoned || !st.table.entries[x.e].establishing))
            && (forall e :: e in st.table.entries && st.table.entries[e].conn.Some? ==>
                  var x := st.table.entries[e];
                  x.maker in st.handlers && st.handlers[x.maker] == Done(x.a, e, x.conn))
  {
    RunInv(acts);
    var st := Run(acts).value;
    forall h | h in st.handlers && st.handlers[h].Done? ensures HandlerOk(st, h) {
    }
    forall e | e in st.table.entries && st.table.entries[e].conn.Some? ensures MakerOk(st, e) {
    }
  }

  /** The handler h waits on the entry e for its address a, or it is done with the socket s of that entry. */
  predicate Served(st: State, h: HandlerId, a: Addr, e: EntryId, s: Socket) {
    && e in st.table.entries && st.table.entries[e].conn == Some(s) && h in st.handlers
    && (st.handlers[h] == Waiting(a, e) || st.handlers[h] == Done(a, e, Some(s)))
  }

  lemma StepServed(st: State, act: Action, h: HandlerId, a: Addr, e: EntryId, s: Socket)
    requires Enabled(st, act) && Served(st, h, a, e, s)
    ensures Served(Step(st, act), h, a, e, s)
  {
  }

  /** A handler that waits on an entry with a socket can go on at once, and whatever happens meanwhile it ends with
    * exactly that socket. */
  lemma {:induction false} WaitersGetTheSocket(acts: seq<Action>, more: seq<Action>, h: HandlerId, s: Socket)
    requires Run(acts).Some? && Run(acts + more).Some?
    requires var st := Run(acts).value;
             && h in st.handlers && st.handlers[h].Waiting? && st.handlers[h].e in st.table.entries
             && st.table.entries[st.handlers[h].e].conn == Some(s)
    ensures var x, st := Run(acts).value.handlers[h], Run(acts + more).value;
            && Served(st, h, x.a, x.e, s)
            && (st.handlers[h].Waiting? ==> Enabled(st, Wake(h)) && Step(st, Wake(h)).handlers[h].conn == Some(s))
    decreases |more|
  {
    var x := Run(acts).value.handlers[h];
    if more == [] {
      assert acts + more == acts;
    } else {
      var last := |more| - 1;
      assert (acts + more)[..|acts + more| - 1] == acts + more[..last];
      WaitersGetTheSocket(acts, more[..last], h, s);
      StepServed(Run(acts + more[..last]).value, more[last], h, x.a, x.e, s);
    }
    RunInv(acts + more);
    assert EntryOk(Run(acts + more).value.table, x.e);
  }

  /** An entry never gets a socket later: whoever waits for one without a socket goes on waiting for it until it
    * wakes, and then looks the address up again. On an entry that its handler left behind it never wakes. */
  lemma WaitersLookAgain(st: State, act: Action, h: HandlerId)
    requires Inv(st) && Enabled(st, act) && h in st.handlers && st.handlers[h].Waiting?
    requires st.handlers[h].e in st.table.entries && st.table.entries[st.handlers[h].e].conn == None
    ensures act == Wake(h) ==> Step(st, act).handlers[h] == Looking(st.handlers[h].a)
    ensures act != Wake(h) ==>
      var st' := Step(st, act);
      h in st'.handlers && st'.handlers[h] == st.handlers[h]
      && st.handlers[h].e in st'.table.entries && st'.table.entries[st.handlers[h].e].conn == None
  {
  }
}

/** What each step comes to, and the packets of a client that nothing interferes with. */
module NatPackets {
  import opened Options
  import opened NatMapping
  import opened Nat

  /** The channel of e is closed. */
  predicate Ended(t: Table, e: EntryId) {
    e in t.entries && !t.entries[e].establishing
  }

  /** What each step comes to. A look finds the entry there is, or puts a new one in place and leaves the rest to its
    * handler; a failed dial ends its entry and unmaps the address; a successful one puts an entry with the socket in
    * its place and starts the relay; in both cases whoever waits on the old entry can go on. The end of a relay
    * unmaps its address and closes its socket. */
  lemma StepOutcome(st: State, act: Action)
    requires Inv(st) && Enabled(st, act)
    ensures var st' := Step(st, act);
            match act
            case Arrive(h, a) => st' == st.(handlers := st'.handlers) && st'.handlers[h] == Looking(a)
            case Look(h, e) =>
              var a := st.handlers[h].a;
              if a in st.table.nm then st'.table == st.table && st'.handlers[h] == Waiting(a, st.table.nm[a])
              else Holds(st'.table, a, e, None) && Owns(st', Builder(h), a, e)
            case Abandon(h) =>
              var x := st.handlers[h];
              Holds(st'.table, x.a, x.e, None) && Owns(st', Nobody(x.e), x.a, x.e) && st'.handlers[h].Done?
            case DialFails(h) =>
              var x := st.handlers[h];
              && x.a !in st'.table.nm && Ended(st'.table, x.e) && st'.handlers[h] == Done(x.a, x.e, None)
            case DialSucceeds(h, s, e) =>
              var x := st.handlers[h];
              && Holds(st'.table, x.a, e, Some(s)) && Owns(st', RelayOf(s), x.a, e)
              && Ended(st'.table, x.e) && st'.handlers[h] == Done(x.a, e, Some(s))
            case RelayEnds(s) =>
              st.relays[s].a !in st'.table.nm && s !in st'.relays && (s, Some(s)) in st'.table.closings
            case Wake(_) => st'.table == st.table
    ensures forall g :: g in st.handlers && !ActsFor(act, g) ==>
              g in Step(st, act).handlers && Step(st, act).handlers[g] == st.handlers[g]
  {
    assert ActorOk(st, act);
  }

  predicate ActsFor(act: Action, g: HandlerId) {
    match act
    case Arrive(h, _) => h == g
    case Look(h, _) => h == g
    case Abandon(h) => h == g
    case DialFails(h) => h == g
    case DialSucceeds(h, _, _) => h == g
    case Wake(h) => h == g
    case RelayEnds(_) => false
  }

  /** The first packet of a client may dial: its handler puts an empty entry in place. */
  lemma FirstLook(st: State, h: HandlerId, a: Addr, e: EntryId)
    requires h !in st.handlers && a !in st.table.nm && e !in st.table.entries
    ensures var st1 := Step(st, Arrive(h, a));
            && Enabled(st1, Look(h, e))
            && Step(st1, Look(h, e)) ==
               st.(table := st.table.Insert(a, e, None, h), handlers := st.handlers[h := Building(a, e)])
  {
    assert st.handlers[h := Looking(a)][h := Building(a, e)] == st.handlers[h := Building(a, e)];
  }

  /** Left to itself, it is done with the socket it gets, the address is mapped and the relay runs; no socket is
    * closed. */
  lemma FirstPacket(st: State, h: HandlerId, a: Addr, e: EntryId, s: Socket, f: EntryId)
    requires h !in st.handlers && a !in st.table.nm && s !in st.dialled
    requires e != f && e !in st.table.entries && f !in st.table.entries
    ensures var st1 := Step(st, Arrive(h, a));
            && Enabled(st1, Look(h, e))
            && var st2 := Step(st1, Look(h, e));
               && Enabled(st2, DialFails(h)) && Enabled(st2, Abandon(h)) && Enabled(st2, DialSucceeds(h, s, f))
               && Dialled(st, Step(st2, DialSucceeds(h, s, f)), h, a, s, f)
  {
    FirstLook(st, h, a, e);
    var st2 := st.(table := st.table.Insert(a, e, None, h), handlers := st.handlers[h := Building(a, e)]);
    assert st2.handlers[h := Done(a, f, Some(s))] == st.handlers[h := Done(a, f, Some(s))];
  }

  predicate Dialled(st: State, now: State, h: HandlerId, a: Addr, s: Socket, f: EntryId) {
    && now.handlers == st.handlers[h := Done(a, f, Some(s))] && Holds(now.table, a, f, Some(s))
    && now.relays == st.relays[s := Relay(a, f)] && now.table.closings == st.table.closings
  }

  /** Every later packet of the client, while its relay runs, uses the socket that is mapped and changes nothing. */
  lemma NextPacket(st: State, h: HandlerId, a: Addr, s: Socket, e: EntryId)
    requires Inv(st) && h !in st.handlers && e !in st.table.entries
    requires s in st.relays && st.relays[s].a == a
    ensures var st1 := Step(st, Arrive(h, a));
            && Enabled(st1, Look(h, e))
            && var st2 := Step(st1, Look(h, e));
               && Enabled(st2, Wake(h))
               && Step(st2, Wake(h)) == st.(handlers := st.handlers[h := Done(a, st.relays[s].e, Some(s))])
  {
    assert RelayOk(st, s);
  }
}
