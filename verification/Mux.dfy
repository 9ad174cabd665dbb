/** Many byte streams over one ordered connection: two sessions, the two directions of the wire between them, and any
  * interleaving of writers, readers, openers and closers (server/anytls/session.go, stream.go). */
module Mux {
  import opened Bytes
  import opened Options
  import opened WireFormat

  const CMD_WASTE: byte := 0
  const CMD_SYN: byte := 1
  const CMD_PSH: byte := 2
  const CMD_FIN: byte := 3
  const CMD_SETTINGS: byte := 4
  const CMD_ALERT: byte := 5
  const CMD_UPDATE_PADDING_SCHEME: byte := 6
  const CMD_SYNACK: byte := 7
  const CMD_HEART_REQUEST: byte := 8
  const CMD_HEART_RESPONSE: byte := 9
  const CMD_SERVER_SETTINGS: byte := 10

  /** What the receive loop does with a command; every other command stops it. */
  datatype FrameKind = Payload | Syn | Synack | Fin | Settings | ServerSettings | Idle | HeartRequest | Stop

  function Kind(cmd: byte): (k: FrameKind) {
    if cmd == CMD_PSH then Payload
    else if cmd == CMD_SYN then Syn
    else if cmd == CMD_SYNACK then Synack
    else if cmd == CMD_FIN then Fin
    else if cmd == CMD_SETTINGS then Settings
    else if cmd == CMD_SERVER_SETTINGS then ServerSettings
    else if cmd == CMD_WASTE || cmd == CMD_UPDATE_PADDING_SCHEME || cmd == CMD_HEART_RESPONSE then Idle
    else if cmd == CMD_HEART_REQUEST then HeartRequest
    else Stop
  }

  /** Chunks a stream may hold that nobody has read yet. */
  const QUEUE_LIMIT := 32

  type Id = uint32

  /** How far a local Close has got: it marks the stream, forgets it, then says so to the peer. */
  datatype Phase = Open | Deleting | SendingFin | Done

  /** What has reached a stream: the bytes Read has returned (a history), those it will return next, the chunks that
    * Read calls have taken from the queue and not yet stored, and the queue. */
  datatype Inbox = Inbox(delivered: seq<byte>, pending: seq<byte>, hands: seq<seq<byte>>, queue: seq<seq<byte>>)

  /** What a stream has sent, as histories: the bytes Write has put on the wire, those of them that went out before
    * this end's FIN, and whether that has gone out. */
  datatype Sent = Sent(written: seq<byte>, promised: seq<byte>, fin: bool)

  /** One end of a stream; local says that it was closed by a Close at this end, ended that the peer's FIN has
    * arrived. */
  datatype Stream = Stream(
    inbox: Inbox, sent: Sent, closed: bool, local: bool, ended: bool, phase: Phase, synack: Option<seq<byte>>)

  const NEW_STREAM := Stream(Inbox([], [], [], []), Sent([], [], false), false, false, false, Open, None)

  /** objs holds every stream that a session ever made, known those it still knows. */
  datatype Table = Table(objs: map<Id, Stream>, known: set<Id>) {
    function Obj(id: Id): Stream {
      if id in objs then objs[id] else NEW_STREAM
    }

    function Set(id: Id, s: Stream): Table {
      this.(objs := objs[id := s])
    }

    function Add(id: Id): Table {
      Table(objs[id := NEW_STREAM], known + {id})
    }

    function Forget(id: Id): Table {
      this.(known := known - {id})
    }

    function CloseAll(): Table {
      Table(map id | id in objs :: if id in known then objs[id].(closed := true) else objs[id], {})
    }

    /** A payload for a stream that is not known, or that is closed and drops it, is lost. */
    function Payload(id: Id, data: seq<byte>, drop: bool): Table {
      var o := Obj(id);
      if id !in known || (o.closed && drop) then this
      else Set(id, o.(inbox := o.inbox.(queue := o.inbox.queue + [data])))
    }

    /** The first answer counts; one with a message closes the stream. */
    function Synack(id: Id, message: seq<byte>): Table {
      if id !in known then this
      else
        var o := Obj(id);
        var o' := if o.synack.None? then o.(synack := Some(message)) else o;
        if message == [] then Set(id, o') else Set(id, o'.(closed := true)).Forget(id)
    }

    function Fin(id: Id): Table {
      if id !in known then this else Set(id, Obj(id).(closed := true, ended := true)).Forget(id)
    }
  }

  /** The settings exchange as one side sees it. refused says that a stream came before the client's settings. */
  datatype Handshake = Handshake(sent: bool, received: bool, version: nat, refused: bool)

  /** The streams a client has opened: the last id, the ids announced, the version each dial went by, the dials that
    * have returned their stream. */
  datatype Calls = Calls(nextID: nat, synSent: set<Id>, decided: map<Id, nat>, dialed: set<Id>)

  /** One session. accepted lists the streams it has handed to its handler. */
  datatype Endpoint = Endpoint(
    isClient: bool, closed: bool, table: Table, handshake: Handshake, calls: Calls, accepted: seq<Id>)
  {
    function Obj(id: Id): Stream {
      table.Obj(id)
    }

    function Set(id: Id, s: Stream): Endpoint {
      this.(table := table.Set(id, s))
    }

    /** Session.Close: every known stream is closed and forgotten. */
    function Shut(): Endpoint {
      this.(closed := true, table := table.CloseAll())
    }

    /** The receive loop can take f now: a full queue blocks it, unless the stream is closed and the chunk is
      * dropped. */
    predicate CanTake(f: Frame, drop: bool) {
      !closed && (Kind(f.cmd).Payload? && f.streamID in table.known ==>
        (Obj(f.streamID).closed && drop) || |Obj(f.streamID).inbox.queue| < QUEUE_LIMIT)
    }

    function Accept(id: Id): Endpoint {
      if !handshake.received then Shut().(handshake := handshake.(refused := true))
      else this.(table := if id in table.known then table else table.Add(id), accepted := accepted + [id])
    }

    function TakeSettings(v: Option<int>): Endpoint {
      if v.Some? && v.value >= 2 then this.(handshake := handshake.(received := true, version := v.value % 256))
      else this.(handshake := handshake.(received := true))
    }

    function TakeServerSettings(v: Option<int>): Endpoint {
      if handshake.version == 0
      then this.(handshake := handshake.(version := if v.Some? then v.value % 256 else 1)) else this
    }

    /** One round of the receive loop: the session after it. version reads a settings text. */
    function Take(f: Frame, drop: bool, version: seq<byte> -> Option<int>): Endpoint {
      match Kind(f.cmd)
      case Payload => this.(table := table.Payload(f.streamID, f.data, drop))
      case Syn => if isClient then this else Accept(f.streamID)
      case Synack => this.(table := table.Synack(f.streamID, f.data))
      case Fin => this.(table := table.Fin(f.streamID))
      case Settings => if isClient then this else TakeSettings(version(f.data))
      case ServerSettings => if isClient then TakeServerSettings(version(f.data)) else this
      case Idle | HeartRequest => this
      case Stop => Shut()
    }

    /** The frames that one round of the receive loop writes. */
    function Answer(f: Frame, version: seq<byte> -> Option<int>): seq<Frame> {
      match Kind(f.cmd)
      case Syn =>
        if isClient then []
        else if !handshake.received then [Frame(CMD_ALERT, 0, ALERT_TEXT)]
        else if handshake.version >= 2 then [Frame(CMD_SYNACK, f.streamID, [])] else []
      case Settings =>
        if !isClient && version(f.data).Some? && version(f.data).value >= 2
        then [Frame(CMD_SERVER_SETTINGS, 0, SERVER_SETTINGS_TEXT)] else []
      case HeartRequest => [Frame(CMD_HEART_RESPONSE, f.streamID, [])]
      case _ => []
    }
  }

  // The two settings texts, v=2 with the client's other lines and v=2 alone; their reading is left to a parameter.
  const CLIENT_SETTINGS_TEXT: seq<byte> := [
    118, 61, 50, 10, 99, 108, 105, 101, 110, 116, 61, 66, 105, 116, 116, 101, 114,
    74, 111, 104, 110, 10, 112, 97, 100, 100, 105, 110, 103, 45, 109, 100, 53, 61]
  const SERVER_SETTINGS_TEXT: seq<byte> := [118, 61, 50]
  const ALERT_TEXT: seq<byte> := [
    99, 108, 105, 101, 110, 116, 32, 100, 105, 100, 32, 110, 111, 116, 32, 115, 101, 110, 100,
    32, 105, 116, 115, 32, 115, 101, 116, 116, 105, 110, 103, 115]

  datatype State = State(client: Endpoint, server: Endpoint, toServer: seq<Frame>, toClient: seq<Frame>)
  {
    function End(atClient: bool): Endpoint {
      if atClient then client else server
    }

    function With(atClient: bool, e: Endpoint): State {
      if atClient then this.(client := e) else this.(server := e)
    }

    function SetObj(atClient: bool, id: Id, s: Stream): State {
      With(atClient, End(atClient).Set(id, s))
    }

    /** That end's callers hold the stream: a client's once its SYN is out. */
    predicate Has(atClient: bool, id: Id) {
      id in End(atClient).table.objs && (atClient ==> id in client.calls.synSent)
    }

    /** The frames on their way to one side. */
    function Wire(atClient: bool): seq<Frame> {
      if atClient then toClient else toServer
    }

    function Popped(atClient: bool): State
      requires Wire(atClient) != []
    {
      if atClient then this.(toClient := toClient[1..]) else this.(toServer := toServer[1..])
    }

    /** Frames written by one side go to the back of the other side's wire. */
    function Put(fromClient: bool, fs: seq<Frame>): State {
      if fromClient then this.(toServer := toServer + fs) else this.(toClient := toClient + fs)
    }
  }

  function NewEndpoint(isClient: bool): Endpoint {
    Endpoint(isClient, false, Table(map[], {}), Handshake(false, false, 0, false), Calls(0, {}, map[], {}), [])
  }

  const INIT := State(NewEndpoint(true), NewEndpoint(false), [], [])

  /** What can happen next, one step under the locks at a time. */
  datatype Action =
    | RunClient                                      // the client writes its settings
    | Register                                       // OpenStream takes the next id
    | SendSyn(id: Id)                                // and announces it
    | Write(atClient: bool, id: Id, data: seq<byte>) // one frame of a Write call
    | Receive(atClient: bool, drop: bool)            // one round of a receive loop
    | Pull(atClient: bool, id: Id)                   // Read takes a chunk from the queue
    | Store(atClient: bool, id: Id, k: nat)          // and makes it pending
    | Copy(atClient: bool, id: Id, n: nat)           // and returns n bytes of what is pending
    | Mark(atClient: bool, id: Id)                   // Close marks the stream
    | Forget(atClient: bool, id: Id)                 // forgets it
    | SendFin(atClient: bool, id: Id)                // and tells the peer
    | Shut(atClient: bool)                           // Session.Close
    | Decide(id: Id)                                 // a dial settles on the version it goes by
    | Dial(id: Id)                                   // and returns the stream

  predicate Enabled(st: State, a: Action) {
    match a
    case RunClient => !st.client.handshake.sent && !st.client.closed
    case Register => st.client.handshake.sent && !st.client.closed && st.client.calls.nextID + 1 < 0x1_0000_0000
    case SendSyn(id) => id in st.client.table.known && id !in st.client.calls.synSent && !st.client.closed
    case Write(c, id, data) => st.Has(c, id) && !st.End(c).closed && 0 < |data| <= MAX_FRAME_DATA
    case Receive(c, drop) => st.Wire(c) != [] && st.End(c).CanTake(st.Wire(c)[0], drop)
    case Pull(c, id) => st.Has(c, id) && st.End(c).Obj(id).inbox.queue != []
    case Store(c, id, k) => st.Has(c, id) && k < |st.End(c).Obj(id).inbox.hands|
    case Copy(c, id, n) => st.Has(c, id) && 0 < |st.End(c).Obj(id).inbox.pending|
      && n <= |st.End(c).Obj(id).inbox.pending|
    case Mark(c, id) => st.Has(c, id) && !st.End(c).Obj(id).closed
    case Forget(c, id) => st.Has(c, id) && st.End(c).Obj(id).phase == Deleting
    case SendFin(c, id) => st.Has(c, id) && st.End(c).Obj(id).phase == SendingFin && !st.End(c).closed
    case Shut(c) => !st.End(c).closed
    case Decide(id) => st.Has(true, id) && id !in st.client.calls.decided
    case Dial(id) =>
      id in st.client.calls.decided && (st.client.calls.decided[id] >= 2 ==> st.client.Obj(id).synack == Some([]))
  }

  function Pulled(b: Inbox): Inbox
    requires b.queue != []
  {
    b.(hands := b.hands + [b.queue[0]], queue := b.queue[1..])
  }

  function Stored(b: Inbox, k: nat): Inbox
    requires k < |b.hands|
  {
    b.(pending := b.hands[k], hands := b.hands[..k] + b.hands[k + 1..])
  }

  function Copied(b: Inbox, n: nat): Inbox
    requires n <= |b.pending|
  {
    b.(delivered := b.delivered + b.pending[..n], pending := b.pending[n..])
  }

  function Wrote(s: Sent, data: seq<byte>): Sent {
    s.(written := s.written + data, promised := if s.fin then s.promised else s.promised + data)
  }

  function Step(st: State, a: Action, version: seq<byte> -> Option<int>): State
    requires Enabled(st, a)
  {
    match a
    case RunClient =>
      st.(client := st.client.(handshake := st.client.handshake.(sent := true)))
        .Put(true, [Frame(CMD_SETTINGS, 0, CLIENT_SETTINGS_TEXT)])
    case Register =>
      var id := st.client.calls.nextID + 1;
      st.(client := st.client.(table := st.client.table.Add(id), calls := st.client.calls.(nextID := id)))
    case SendSyn(id) =>
      st.(client := st.client.(calls := st.client.calls.(synSent := st.client.calls.synSent + {id})))
        .Put(true, [Frame(CMD_SYN, id, [])])
    case Write(c, id, data) =>
      var o := st.End(c).Obj(id);
      st.SetObj(c, id, o.(sent := Wrote(o.sent, data))).Put(c, [Frame(CMD_PSH, id, data)])
    case Receive(c, drop) =>
      var f := st.Wire(c)[0];
      st.Popped(c).With(c, st.End(c).Take(f, drop, version)).Put(c, st.End(c).Answer(f, version))
    case Pull(c, id) => var o := st.End(c).Obj(id); st.SetObj(c, id, o.(inbox := Pulled(o.inbox)))
    case Store(c, id, k) => var o := st.End(c).Obj(id); st.SetObj(c, id, o.(inbox := Stored(o.inbox, k)))
    case Copy(c, id, n) => var o := st.End(c).Obj(id); st.SetObj(c, id, o.(inbox := Copied(o.inbox, n)))
    case Mark(c, id) => st.SetObj(c, id, st.End(c).Obj(id).(closed := true, local := true, phase := Deleting))
    case Forget(c, id) =>
      var e := st.End(c);
      var o := e.Obj(id).(phase := if e.closed then Done else SendingFin);
      st.With(c, e.(table := e.table.Set(id, o).Forget(id)))
    case SendFin(c, id) =>
      var o := st.End(c).Obj(id);
      st.SetObj(c, id, o.(phase := Done, sent := o.sent.(fin := true))).Put(c, [Frame(CMD_FIN, id, [])])
    case Shut(c) => st.With(c, st.End(c).Shut())
    case Decide(id) =>
      var v := if st.client.handshake.version == 0 then 1 else st.client.handshake.version;
      st.(client := st.client.(calls := st.client.calls.(decided := st.client.calls.decided[id := v])))
    case Dial(id) => st.(client := st.client.(calls := st.client.calls.(dialed := st.client.calls.dialed + {id})))
  }

  /** A run: its states, from the first, and the step from each to the next. */
  ghost predicate IsRun(sts: seq<State>, acts: seq<Action>, version: seq<byte> -> Option<int>) {
    && |sts| == |acts| + 1 && sts[0] == INIT
    && forall i {:trigger acts[i]} :: 0 <= i < |acts| ==>
        Enabled(sts[i], acts[i]) && sts[i + 1] == Step(sts[i], acts[i], version)
  }

  /** Read calls on one stream do not overlap: a call that goes to the queue found nothing pending, and no other call
    * holds a chunk. */
  predicate SoloStep(st: State, a: Action) {
    a.Pull? ==> st.End(a.atClient).Obj(a.id).inbox.pending == [] && st.End(a.atClient).Obj(a.id).inbox.hands == []
  }

  ghost predicate Solo(sts: seq<State>, acts: seq<Action>)
    requires |sts| == |acts| + 1
  {
    forall i {:trigger acts[i]} :: 0 <= i < |acts| ==> SoloStep(sts[i], acts[i])
  }
}
