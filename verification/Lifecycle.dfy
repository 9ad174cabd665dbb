/** The anytls server from its first listener to Close (server/anytls/server.go): nothing it accepted stays open. */
module Lifecycle {
  import opened Options

  type ConnId = nat
  type ListenerId = nat

  /** What lifecycleMu guards. */
  datatype Books = Books(closed: bool, listener: Option<ListenerId>, active: set<ConnId>)

  const FRESH := Books(false, None, {})

  class Server {
    var closed: bool
    var listener: Option<ListenerId>
    var activeConns: set<ConnId>

    ghost function View(): Books
      reads this
    {
      Books(closed, listener, activeConns)
    }

    /** A closed server tracks nothing and has no listener. */
    ghost predicate Valid()
      reads this
    {
      closed ==> listener.None? && activeConns == {}
    }

    constructor ()
      ensures Valid() && View() == FRESH
    {
      closed, listener, activeConns := false, None, {};
    }

    method SetListener(l: ListenerId) returns (ok: bool)
      requires Valid()
      modifies this
      ensures Valid() && closed == old(closed) && listener == (if closed then None else Some(l))
      ensures ok <==> listener == Some(l)
      ensures View() == Listening(old(View()), l)
    {
      if closed {
        return false;
      }
      listener := Some(l);
      return true;
    }

    method ClearListener(l: ListenerId)
      requires Valid()
      modifies this
      ensures Valid() && listener != Some(l) && (old(listener) != Some(l) ==> listener == old(listener))
      ensures View() == Cleared(old(View()), l)
    {
      if listener == Some(l) {
        listener := None;
      }
    }

    method TrackConn(c: ConnId) returns (ok: bool)
      requires Valid()
      modifies this
      ensures Valid() && closed == old(closed) && (ok <==> c in activeConns) && (ok <==> !closed)
      ensures activeConns - {c} == old(activeConns) - {c}
      ensures View() == Tracked(old(View()), c)
    {
      if closed {
        return false;
      }
      activeConns := activeConns + {c};
      return true;
    }

    method UntrackConn(c: ConnId)
      requires Valid()
      modifies this
      ensures Valid() && closed == old(closed) && listener == old(listener)
      ensures c !in activeConns && activeConns + {c} == old(activeConns) + {c}
      ensures View() == Untracked(old(View()), c)
    {
      activeConns := activeConns - {c};
    }

    /** The part of Close under the lock: what it will close is what was tracked. */
    method BeginClose() returns (l: Option<ListenerId>, conns: set<ConnId>)
      requires Valid()
      modifies this
      ensures Valid() && (old(closed) ==> l == None && conns == {})
      ensures l == old(listener) && conns == old(activeConns)
      ensures View() == Books(true, None, {})
    {
      closed := true;
      l, conns := listener, activeConns;
      listener, activeConns := None, {};
    }
  }

  function Listening(b: Books, l: ListenerId): Books {
    if b.closed then b else b.(listener := Some(l))
  }

  function Cleared(b: Books, l: ListenerId): Books {
    if b.listener == Some(l) then b.(listener := None) else b
  }

  function Tracked(b: Books, c: ConnId): Books {
    if b.closed then b else b.(active := b.active + {c})
  }

  function Untracked(b: Books, c: ConnId): Books {
    b.(active := b.active - {c})
  }

  // ---- Serve loops, handlers and Close, interleaved ----

  /** pending are connections that a serve loop has accepted and not yet tracked, refused those it could not track and
    * is about to close, handled those with a running handler, leaving those whose handler has closed them and has yet
    * to untrack them, doomed those that Close has yet to close, shut those that are closed. */
  datatype State = State(
    books: Books, accepted: set<ConnId>, pending: set<ConnId>, refused: set<ConnId>, handled: set<ConnId>,
    leaving: set<ConnId>, doomed: set<ConnId>, shut: set<ConnId>)

  const INIT := State(FRESH, {}, {}, {}, {}, {}, {}, {})

  datatype Action =
    | Listen(l: ListenerId) | Unlisten(l: ListenerId)
    | Accept(c: ConnId) | Track(c: ConnId) | Refuse(c: ConnId)
    | Finish(c: ConnId) | Untrack(c: ConnId)
    | BeginClose | CloseOne(c: ConnId)

  predicate Enabled(st: State, a: Action) {
    match a
    case Listen(_) | Unlisten(_) => true
    case Accept(c) => c !in st.accepted
    case Track(c) => c in st.pending
    case Refuse(c) => c in st.refused
    case Finish(c) => c in st.handled
    case Untrack(c) => c in st.leaving
    case BeginClose => !st.books.closed
    case CloseOne(c) => c in st.doomed
  }

  function Step(st: State, a: Action): State
    requires Enabled(st, a)
  {
    match a
    case Listen(l) => st.(books := Listening(st.books, l))
    case Unlisten(l) => st.(books := Cleared(st.books, l))
    case Accept(c) => st.(accepted := st.accepted + {c}, pending := st.pending + {c})
    case Track(c) =>
      var st' := st.(books := Tracked(st.books, c), pending := st.pending - {c});
      if st.books.closed then st'.(refused := st.refused + {c}) else st'.(handled := st.handled + {c})
    case Refuse(c) => st.(refused := st.refused - {c}, shut := st.shut + {c})
    case Finish(c) => st.(handled := st.handled - {c}, leaving := st.leaving + {c}, shut := st.shut + {c})
    case Untrack(c) => st.(books := Untracked(st.books, c), leaving := st.leaving - {c})
    case BeginClose => st.(books := Books(true, None, {}), doomed := st.books.active)
    case CloseOne(c) => st.(doomed := st.doomed - {c}, shut := st.shut + {c})
  }

  function Run(acts: seq<Action>): Option<State> {
    if acts == [] then Some(INIT) else
      var st := Run(acts[..|acts| - 1]);
      if st.Some? && Enabled(st.value, acts[|acts| - 1]) then Some(Step(st.value, acts[|acts| - 1])) else None
  }

  ghost predicate Inv(st: State) {
    && st.accepted == st.pending + st.refused + st.books.active + st.doomed + st.shut
    && st.handled <= st.books.active + st.doomed + st.shut
    && st.leaving <= st.shut && st.handled !! st.leaving
    && (st.books.closed ==> st.books.active == {} && st.books.listener == None)
    && (!st.books.closed ==> st.doomed == {} && st.refused == {} && st.books.active == st.handled + st.leaving)
    && (forall c :: c in st.pending ==> c !in st.refused && c !in st.books.active && c !in st.doomed && c !in st.shut)
  }

  lemma StepInv(st: State, a: Action)
    requires Inv(st) && Enabled(st, a)
    ensures Inv(Step(st, a))
  {
  }

  lemma {:induction false} RunInv(acts: seq<Action>)
    requires Run(acts).Some?
    ensures Inv(Run(acts).value)
  {
    if acts != [] {
      RunInv(acts[..|acts| - 1]);
      StepInv(Run(acts[..|acts| - 1]).value, acts[|acts| - 1]);
    }
  }

  /** Every connection the server ever accepted is waiting to be tracked, tracked, waiting to be closed, or closed;
    * and once the server is closed nothing is tracked and no listener is installed. Until then it is tracked exactly
    * while its handler has yet to untrack it. */
  lemma EveryConnAccounted(acts: seq<Action>, c: ConnId)
    requires Run(acts).Some? && c in Run(acts).value.accepted
    ensures var st := Run(acts).value;
            c in st.pending || c in st.books.active || c in st.refused || c in st.doomed || c in st.shut
    ensures Run(acts).value.books.closed ==> Run(acts).value.books == Books(true, None, {})
    ensures var st := Run(acts).value;
            !st.books.closed ==> (c in st.books.active <==> c in st.handled || c in st.leaving)
  {
    RunInv(acts);
  }

  /** When Close has run and nothing is waiting, every connection is closed. */
  lemma ShutdownLeavesNothingOpen(acts: seq<Action>)
    requires Run(acts).Some?
    ensures var st := Run(acts).value;
            st.books.closed && st.pending == {} && st.refused == {} && st.doomed == {} ==> st.shut == st.accepted
  {
    RunInv(acts);
  }

  /** How many closings are still due once the server is closed. */
  ghost function Due(st: State): nat {
    2 * |st.pending| + |st.refused| + |st.doomed|
  }

  /** Once the server is closed it stays so, and as long as no more connections come in, every Track, Refuse and
    * CloseOne leaves fewer closings due, and nothing brings one back. */
  lemma ShutdownProgress(st: State, a: Action)
    requires Inv(st) && st.books.closed && Enabled(st, a) && !a.Accept?
    ensures Step(st, a).books.closed
    ensures Due(Step(st, a)) == Due(st) - if a.Track? || a.Refuse? || a.CloseOne? then 1 else 0
  {
    match a
    case Track(c) => TrackProgress(st, c);
    case Refuse(c) => OneLess(st.refused, c);
    case CloseOne(c) => OneLess(st.doomed, c);
    case _ =>
  }

  lemma TrackProgress(st: State, c: ConnId)
    requires st.books.closed && c in st.pending && c !in st.refused
    ensures Due(Step(st, Track(c))) == Due(st) - 1
  {
    OneLess(st.pending, c);
    OneLess(st.refused + {c}, c);
    assert st.refused + {c} - {c} == st.refused;
  }

  lemma OneLess(s: set<ConnId>, c: ConnId)
    requires c in s
    ensures |s - {c}| == |s| - 1
  {
  }

  /** While closings are due, one can be made. */
  lemma SomeStepIsDue(st: State)
    requires Due(st) > 0
    ensures exists a: Action :: (a.Track? || a.Refuse? || a.CloseOne?) && Enabled(st, a)
  {
    if c :| c in st.pending {
      assert Enabled(st, Track(c));
    } else if c :| c in st.refused {
      assert Enabled(st, Refuse(c));
    } else if c :| c in st.doomed {
      assert Enabled(st, CloseOne(c));
    }
  }
}
