/** What every step of the multiplexer keeps. */
module MuxFlow {
  import opened Bytes
  import opened Options
  import opened Seqs
  import opened WireFormat
  import opened Mux

  // ---- What has reached a stream ----

  ghost function Flat(q: seq<seq<byte>>): (s: seq<byte>) {
    if q == [] then [] else q[0] + Flat(q[1..])
  }

  lemma {:induction false} FlatAppend(q: seq<seq<byte>>, c: seq<byte>)
    ensures Flat(q + [c]) == Flat(q) + c
  {
    if q == [] {
      assert [] + [c] == [c];
    } else {
      assert (q + [c])[1..] == q[1..] + [c];
      FlatAppend(q[1..], c);
    }
  }

  lemma {:induction false} FlatConcat(a: seq<seq<byte>>, b: seq<seq<byte>>)
    ensures Flat(a + b) == Flat(a) + Flat(b)
  {
    if a == [] {
      assert a + b == b;
    } else {
      assert (a + b)[1..] == a[1..] + b;
      FlatConcat(a[1..], b);
    }
  }

  /** Everything that has reached a stream, in order: returned, pending, in a reader's hands, queued. */
  ghost function Received(b: Inbox): (s: seq<byte>) {
    b.delivered + b.pending + Flat(b.hands) + Flat(b.queue)
  }

  lemma QueueMore(b: Inbox, data: seq<byte>)
    ensures Received(b.(queue := b.queue + [data])) == Received(b) + data
  {
    FlatAppend(b.queue, data);
  }

  lemma PullKeeps(b: Inbox)
    requires b.queue != []
    ensures Received(Pulled(b)) == Received(b)
  {
    FlatAppend(b.hands, b.queue[0]);
  }

  lemma CopyKeeps(b: Inbox, n: nat)
    requires n <= |b.pending|
    ensures Received(Copied(b, n)) == Received(b)
  {
    assert b.pending == b.pending[..n] + b.pending[n..];
    AppendAssoc(b.delivered, b.pending[..n], b.pending[n..]);
  }

  lemma SwapExact(d: seq<byte>, p: seq<byte>, a: seq<byte>, h: seq<byte>, b: seq<byte>)
    ensures d + h + (a + b) == d + p + (a + h + b) <==> p == [] && h + a == a + h
  {
    var x, y := d + h + (a + b), d + p + (a + h + b);
    assert x == d + ((h + a) + b) && y == d + (p + ((a + h) + b));
    if x == y {
      assert |p| == 0;
      assert x[|d|..][..|h + a|] == h + a && y[|d|..][..|h + a|] == a + h;
    }
  }

  /** Making a chunk pending keeps the stream's bytes and their order exactly when nothing was pending and the chunk
    * was first in hand, or moving it there makes no difference. */
  lemma StoreKeeps(o: Inbox, k: nat)
    requires k < |o.hands|
    ensures Received(Stored(o, k)) == Received(o) <==> InPlace(o, k)
  {
    var h, a, b, q := o.hands[k], Flat(o.hands[..k]), Flat(o.hands[k + 1..]), Flat(o.queue);
    FlatConcat(o.hands[..k], o.hands[k + 1..]);
    FlatAppend(o.hands[..k], h);
    FlatConcat(o.hands[..k] + [h], o.hands[k + 1..]);
    assert o.hands == o.hands[..k] + [h] + o.hands[k + 1..];
    assert o.delivered + h + (a + b) + q == o.delivered + h + (a + (b + q));
    assert o.delivered + o.pending + (a + h + b) + q == o.delivered + o.pending + (a + h + (b + q));
    SwapExact(o.delivered, o.pending, a, h, b + q);
  }

  /** The chunk k in hand may become pending without loss or change of order. */
  ghost predicate InPlace(b: Inbox, k: nat) {
    k < |b.hands| && b.pending == [] && b.hands[k] + Flat(b.hands[..k]) == Flat(b.hands[..k]) + b.hands[k]
  }

  // ---- What is on a wire for one stream ----

  /** The payload before the stream's FIN, whether there is a FIN, how many SYNs, and whether nothing of the stream
    * comes before its SYN. */
  datatype Traffic = Traffic(live: seq<byte>, fin: bool, syns: nat, guarded: bool)

  /** A frame at the front of a wire. */
  ghost function Ahead(f: Frame, t: Traffic, id: Id): Traffic {
    if f.streamID != id then t
    else match Kind(f.cmd)
      case Payload => t.(live := f.data + t.live, guarded := false)
      case Fin => t.(live := [], fin := true, guarded := false)
      case Syn => t.(syns := t.syns + 1, guarded := true)
      case _ => t
  }

  /** A frame at the back of a wire. */
  ghost function Behind(t: Traffic, f: Frame, id: Id): Traffic {
    if f.streamID != id then t
    else match Kind(f.cmd)
      case Payload => t.(live := if t.fin then t.live else t.live + f.data, guarded := t.guarded && t.syns > 0)
      case Fin => t.(fin := true, guarded := t.guarded && t.syns > 0)
      case Syn => t.(syns := t.syns + 1)
      case _ => t
  }

  ghost function On(w: seq<Frame>, id: Id): Traffic {
    if w == [] then Traffic([], false, 0, true) else Ahead(w[0], On(w[1..], id), id)
  }

  lemma AheadBehind(f: Frame, t: Traffic, g: Frame, id: Id)
    ensures Ahead(f, Behind(t, g, id), id) == Behind(Ahead(f, t, id), g, id)
  {
    assert f.data + (t.live + g.data) == (f.data + t.live) + g.data;
  }

  lemma {:induction false} PutOne(w: seq<Frame>, f: Frame, id: Id)
    ensures On(w + [f], id) == Behind(On(w, id), f, id)
  {
    if w != [] {
      assert (w + [f])[1..] == w[1..] + [f];
      PutOne(w[1..], f, id);
      AheadBehind(w[0], On(w[1..], id), f, id);
    } else {
      assert w + [f] == [f] && [f][1..] == [];
    }
  }

  // ---- The invariant ----

  /** The receiving end still counts on the stream: it knows it, or has yet to hear of it. */
  ghost predicate Expecting(r: Endpoint, id: Id) {
    !r.closed && (id !in r.table.objs || id in r.table.known)
  }

  /** How much is said of what has reached a stream: nothing; that it is in balance as long as anything more is
    * expected and once the peer's FIN has arrived; and also that it is a prefix of what was promised after the
    * session is closed. */
  datatype Mode = Loose | Balanced | Whole

  /** One direction of one stream, over a wire with traffic t to an end that has got so many bytes: what was promised
    * is what has arrived and what is on the wire, unless that end is lax about it. */
  ghost predicate FlowAt(p: Sent, t: Traffic, got: seq<byte>, lax: bool, whole: bool, heard: bool, expecting: bool,
                         ended: bool) {
    && p.promised <= p.written && (!p.fin ==> p.promised == p.written)
    && (!lax && expecting ==> got + t.live == p.promised)
    && (!lax && ended ==> got == p.promised)
    && (!lax && whole ==> got <= p.promised)
    && (t.fin ==> p.fin)
    && (expecting && p.fin ==> t.fin)
    && (ended ==> p.fin && heard && !expecting)
    && (!heard ==> t.guarded)
  }

  /** An end is lax once it has closed the stream itself. */
  ghost predicate Flow(mode: Mode, p: Sent, t: Traffic, r: Endpoint, id: Id) {
    FlowAt(p, t, Received(r.Obj(id).inbox), r.Obj(id).local || mode.Loose?, mode.Whole?,
           id in r.table.objs, Expecting(r, id), r.Obj(id).ended)
  }

  ghost predicate Flows(mode: Mode, st: State, id: Id) {
    && Flow(mode, st.client.Obj(id).sent, On(st.toServer, id), st.server, id)
    && Flow(mode, st.server.Obj(id).sent, On(st.toClient, id), st.client, id)
  }

  /** What each session keeps of its own streams. */
  ghost predicate Kept(t: Table) {
    && (forall i :: i in t.known ==> i in t.objs && (t.objs[i].closed ==> t.objs[i].local))
    && (forall i :: i in t.objs && !t.objs[i].closed ==> i in t.known)
    && (forall i :: i in t.objs && !t.objs[i].phase.Open? ==> t.objs[i].closed && t.objs[i].local)
    && (forall i :: i in t.objs ==> |t.objs[i].inbox.queue| <= QUEUE_LIMIT)
  }

  /** A closed session knows no stream any more, and has none open. */
  ghost predicate Stopped(e: Endpoint) {
    e.closed ==> e.table.known == {} && forall id :: id in e.table.objs ==> e.table.objs[id].closed
  }

  /** Settings come first, and streams are numbered upwards. */
  ghost predicate Opening(st: State) {
    var c, s := st.client, st.server;
    && c.isClient && !s.isClient && !s.handshake.refused
    && (!c.handshake.sent ==> st.toServer == [] && c.table.objs == map[] && c.calls.synSent == {})
    && (!s.handshake.received && c.handshake.sent ==> st.toServer != [] && Kind(st.toServer[0].cmd).Settings?)
    && (forall id :: id in c.table.objs ==> id <= c.calls.nextID)
    && c.calls.synSent <= c.table.objs.Keys
  }

  /** A frame the client may send. */
  ghost predicate FromClient(f: Frame) {
    Kind(f.cmd).Settings? || Kind(f.cmd).Syn? || Kind(f.cmd).Payload? || Kind(f.cmd).Fin?
  }

  /** A frame the server may send once it has accepted the streams in acc. */
  ghost predicate FromServer(f: Frame, acc: seq<Id>) {
    || Kind(f.cmd).ServerSettings?
    || ((Kind(f.cmd).Payload? || Kind(f.cmd).Fin?) && f.streamID in acc)
    || (Kind(f.cmd).Synack? && f.data == [] && f.streamID in acc)
  }

  /** The streams the server has accepted, and the frames that speak of them. */
  ghost predicate Accepting(st: State) {
    && (forall id :: id in st.server.table.objs <==> id in st.server.accepted)
    && Distinct(st.server.accepted)
    && (forall f :: f in st.toServer ==> FromClient(f))
    && (forall f :: f in st.toClient ==> FromServer(f, st.server.accepted))
  }

  ghost predicate Announced(c: Endpoint, syns: nat, acc: seq<Id>, id: Id) {
    && (id in acc ==> id in c.calls.synSent)
    && syns == (if id in c.calls.synSent && id !in acc then 1 else 0)
    && (c.Obj(id).synack != None ==> c.Obj(id).synack == Some([]) && id in acc)
    && (id in c.calls.decided ==> id in c.table.objs)
    && (id in c.calls.dialed ==>
      id in c.calls.decided && (c.calls.decided[id] >= 2 ==> c.Obj(id).synack == Some([])))
  }

  /** All that the invariant says of one stream. */
  ghost predicate Sound(mode: Mode, st: State, id: Id) {
    Flows(mode, st, id) && Announced(st.client, On(st.toServer, id).syns, st.server.accepted, id)
  }

  ghost predicate Inv(mode: Mode, st: State) {
    && Kept(st.client.table) && Kept(st.server.table) && Stopped(st.client) && Stopped(st.server)
    && Opening(st) && Accepting(st)
    && forall id: Id {:trigger Sound(mode, st, id)} :: Sound(mode, st, id)
  }

  /** The end at c still counts on its stream, or has all of it, and has not closed it itself. */
  ghost predicate Counting(st: State, c: bool, id: Id) {
    !st.End(c).Obj(id).local && (Expecting(st.End(c), id) || st.End(c).Obj(id).ended)
  }

  /** A step that a mode asks for: whoever makes a chunk pending does it in place. */
  ghost predicate StepFits(mode: Mode, st: State, a: Action) {
    match mode
    case Loose => true
    case Balanced => a.Store? && Counting(st, a.atClient, a.id) ==> InPlace(st.End(a.atClient).Obj(a.id).inbox, a.k)
    case Whole => a.Store? ==> InPlace(st.End(a.atClient).Obj(a.id).inbox, a.k)
  }

  ghost predicate RunFits(mode: Mode, sts: seq<State>, acts: seq<Action>)
    requires |sts| == |acts| + 1
  {
    forall i {:trigger acts[i]} :: 0 <= i < |acts| ==> StepFits(mode, sts[i], acts[i])
  }

  lemma InitInv(mode: Mode)
    ensures Inv(mode, INIT)
  {
    forall id: Id ensures Sound(mode, INIT, id) {
    }
  }

  // ---- One stream, one direction: what the receiving end does ----

  /** A frame the receive loop of r is prepared for. */
  ghost predicate Proper(r: Endpoint, f: Frame) {
    && (Kind(f.cmd).Syn? ==> !r.isClient && r.handshake.received && f.streamID !in r.table.objs)
    && (Kind(f.cmd).Synack? ==> r.isClient && f.data == [])
    && !Kind(f.cmd).Stop?
  }

  lemma PayloadFlow(mode: Mode, p: Sent, f: Frame, t: Traffic, r: Endpoint, id: Id, drop: bool)
    requires Flow(mode, p, Ahead(f, t, id), r, id) && Kind(f.cmd).Payload? && Kept(r.table) && !r.closed
    ensures Flow(mode, p, t, r.(table := r.table.Payload(f.streamID, f.data, drop)), id)
  {
    var b := r.Obj(id).inbox;
    QueueMore(b, f.data);
    assert Received(b) + (f.data + t.live) == (Received(b) + f.data) + t.live;
  }

  lemma AcceptFlow(mode: Mode, p: Sent, f: Frame, t: Traffic, r: Endpoint, id: Id)
    requires Flow(mode, p, Ahead(f, t, id), r, id) && Kind(f.cmd).Syn? && Kept(r.table) && Proper(r, f)
    ensures Flow(mode, p, t, r.Accept(f.streamID), id)
  {
  }

  lemma SynackFlow(mode: Mode, p: Sent, f: Frame, t: Traffic, r: Endpoint, id: Id)
    requires Flow(mode, p, Ahead(f, t, id), r, id) && Kind(f.cmd).Synack? && f.data == [] && Kept(r.table)
    ensures Flow(mode, p, t, r.(table := r.table.Synack(f.streamID, [])), id)
  {
  }

  /** With the FIN of a known stream, all that was promised has arrived, unless this end has closed the stream
    * itself. */
  lemma FinFlow(mode: Mode, p: Sent, f: Frame, t: Traffic, r: Endpoint, id: Id)
    requires Flow(mode, p, Ahead(f, t, id), r, id) && Kind(f.cmd).Fin? && Kept(r.table) && !r.closed
    ensures Flow(mode, p, t, r.(table := r.table.Fin(f.streamID)), id)
    ensures f.streamID == id && id in r.table.known && !mode.Loose? && !r.Obj(id).local ==>
      Received(r.table.Fin(id).Obj(id).inbox) == p.promised && p.fin
  {
  }

  lemma TakeFlow(mode: Mode, p: Sent, f: Frame, t: Traffic, r: Endpoint, id: Id, drop: bool,
                 version: seq<byte> -> Option<int>)
    requires Flow(mode, p, Ahead(f, t, id), r, id) && Kept(r.table) && r.CanTake(f, drop) && Proper(r, f)
    ensures Flow(mode, p, t, r.Take(f, drop, version), id)
  {
    match Kind(f.cmd)
    case Payload => PayloadFlow(mode, p, f, t, r, id, drop);
    case Syn => AcceptFlow(mode, p, f, t, r, id);
    case Synack => SynackFlow(mode, p, f, t, r, id);
    case Fin => FinFlow(mode, p, f, t, r, id);
    case _ =>
  }

  lemma ShutFlow(mode: Mode, p: Sent, t: Traffic, r: Endpoint, id: Id)
    requires Flow(mode, p, t, r, id)
    ensures Flow(mode, p, t, r.Shut(), id)
  {
  }

  // ---- What the sending end does ----

  /** A payload goes to a receiver that has heard of the stream, or will before it gets there. */
  lemma SendPayloadFlow(mode: Mode, p: Sent, t: Traffic, f: Frame, r: Endpoint, id: Id)
    requires Flow(mode, p, t, r, id) && f.streamID == id && Kind(f.cmd).Payload? && (id in r.table.objs || t.syns > 0)
    ensures Flow(mode, Wrote(p, f.data), Behind(t, f, id), r, id)
  {
    var got := Received(r.Obj(id).inbox);
    assert got + (t.live + f.data) == (got + t.live) + f.data;
    assert got <= p.promised ==> got <= p.promised + f.data;
    assert p.promised <= p.written + f.data;
  }

  lemma SendFinFlow(mode: Mode, p: Sent, t: Traffic, f: Frame, r: Endpoint, id: Id)
    requires Flow(mode, p, t, r, id) && f.streamID == id && Kind(f.cmd).Fin? && (id in r.table.objs || t.syns > 0)
    ensures Flow(mode, p.(fin := true), Behind(t, f, id), r, id)
  {
  }

  lemma SendOtherFlow(mode: Mode, p: Sent, t: Traffic, f: Frame, r: Endpoint, id: Id)
    requires Flow(mode, p, t, r, id)
    requires f.streamID == id ==> !Kind(f.cmd).Payload? && !Kind(f.cmd).Fin?
    ensures Flow(mode, p, Behind(t, f, id), r, id)
  {
  }

  lemma AnswerFlow(mode: Mode, p: Sent, w: seq<Frame>, f: Frame, e: Endpoint, version: seq<byte> -> Option<int>,
                   r: Endpoint, id: Id)
    requires Flow(mode, p, On(w, id), r, id)
    ensures Flow(mode, p, On(w + e.Answer(f, version), id), r, id)
  {
    var out := e.Answer(f, version);
    if out == [] {
      assert w + out == w;
    } else {
      PutOne(w, out[0], id);
      assert out == [out[0]];
      SendOtherFlow(mode, p, On(w, id), out[0], r, id);
    }
  }

  // ---- One round of a receive loop ----

  lemma TakeSends(r: Endpoint, f: Frame, drop: bool, version: seq<byte> -> Option<int>, id: Id)
    requires Proper(r, f)
    ensures r.Take(f, drop, version).Obj(id).sent == r.Obj(id).sent
  {
  }

  lemma TakeKept(e: Endpoint, f: Frame, drop: bool, version: seq<byte> -> Option<int>)
    requires Kept(e.table) && e.CanTake(f, drop) && Proper(e, f)
    ensures Kept(e.Take(f, drop, version).table)
  {
  }

  lemma Prepared(mode: Mode, st: State, c: bool, drop: bool)
    requires Inv(mode, st) && Enabled(st, Receive(c, drop))
    ensures Proper(st.End(c), st.Wire(c)[0])
  {
    if c {
      assert FromServer(st.toClient[0], st.server.accepted);
    } else {
      assert FromClient(st.toServer[0]);
      assert Sound(mode, st, st.toServer[0].streamID);
    }
  }

  lemma ReceiveFlows(mode: Mode, st: State, c: bool, drop: bool, version: seq<byte> -> Option<int>, id: Id)
    requires Inv(mode, st) && Enabled(st, Receive(c, drop))
    ensures Flows(mode, Step(st, Receive(c, drop), version), id)
  {
    Prepared(mode, st, c, drop);
    assert Sound(mode, st, id);
    var e, w := st.End(c), st.Wire(c);
    TakeFlow(mode, st.End(!c).Obj(id).sent, w[0], On(w[1..], id), e, id, drop, version);
    TakeSends(e, w[0], drop, version, id);
    AnswerFlow(mode, e.Obj(id).sent, st.Wire(!c), w[0], e, version, st.End(!c), id);
  }
}
