/** A session as its own code runs it: the receive loop (server/anytls/session.go). */
module Sessions {
  import opened Bytes
  import opened Options
  import opened Seqs
  import opened WireFormat
  import opened Mux
  import Wire

  // ---- The receive loop ----

  /** What Stream.receive does with a payload: with room in the queue and the stream closed, either may come first,
    * and pick says whether the close does; with a full queue only the close is left. */
  predicate Dropped(e: Endpoint, f: Frame, pick: bool) {
    e.Obj(f.streamID).closed && (pick || |e.Obj(f.streamID).inbox.queue| >= QUEUE_LIMIT)
  }

  /** What the receive loop makes of the frames from the one at i on, one after the other, the frames it writes, and
    * how far it gets. picks says what comes first at each. It stops when the session is closed, or when the full
    * queue of an open stream blocks it. */
  ghost function TakeAll(e: Endpoint, fs: seq<Frame>, i: nat, picks: nat -> bool, version: seq<byte> -> Option<int>)
    : (Endpoint, seq<Frame>, nat)
    decreases |fs| - i
  {
    if i >= |fs| || !e.CanTake(fs[i], Dropped(e, fs[i], picks(i))) then (e, [], i)
    else
      var (e', out, n) := TakeAll(e.Take(fs[i], Dropped(e, fs[i], picks(i)), version), fs, i + 1, picks, version);
      (e', e.Answer(fs[i], version) + out, n)
  }

  /** The payload's stream is open and has no room. */
  predicate Full(t: Table, f: Frame) {
    f.cmd == CMD_PSH && f.streamID in t.known && !t.Obj(f.streamID).closed
    && |t.Obj(f.streamID).inbox.queue| >= QUEUE_LIMIT
  }

  /** Whatever comes first, only the full queue of an open stream blocks an open session. */
  lemma BlockedWhenFull(e: Endpoint, f: Frame, pick: bool)
    ensures e.CanTake(f, Dropped(e, f, pick)) <==> !e.closed && !Full(e.table, f)
  {
  }

  /** A stream that the end of its session closes, with nothing else of it changed. */
  ghost predicate OnlyClosed(was: Stream, now: Stream) {
    && now.closed && now.inbox == was.inbox && now.sent == was.sent && now.synack == was.synack
    && now.local == was.local && now.ended == was.ended && now.phase == was.phase
  }

  /** Every stream that was known is closed and forgotten, and the others are as they were. */
  ghost predicate AllClosed(was: Table, now: Table) {
    && now.known == {} && now.objs.Keys == was.objs.Keys
    && forall id :: id in was.objs ==>
      if id in was.known then OnlyClosed(was.objs[id], now.objs[id]) else now.objs[id] == was.objs[id]
  }

  /** All but one stream are as they were. */
  ghost predicate OnlyTouches(was: Table, now: Table, id: Id) {
    && was.objs.Keys <= now.objs.Keys <= was.objs.Keys + {id}
    && (forall i :: i in was.objs && i != id ==> now.objs[i] == was.objs[i])
    && (forall i :: i != id ==> (i in now.known <==> i in was.known))
  }

  class Session {
    const isClient: bool
    var closed: bool
    var table: Table
    var receivedSettings: bool
    var peerVersion: nat
    var refused: bool
    var accepted: seq<Id>
    const sentSettings: bool
    const calls: Calls
    /** The frames this session has written. */
    var out: seq<Frame>

    ghost function View(): Endpoint
      reads this
    {
      Endpoint(isClient, closed, table, Handshake(sentSettings, receivedSettings, peerVersion, refused),
        calls, accepted)
    }

    constructor (e: Endpoint)
      ensures View() == e && out == []
    {
      isClient, closed, table, accepted, calls := e.isClient, e.closed, e.table, e.accepted, e.calls;
      sentSettings, receivedSettings := e.handshake.sent, e.handshake.received;
      peerVersion, refused := e.handshake.version, e.handshake.refused;
      out := [];
    }

    method Close()
      modifies this`closed, this`table
      ensures View() == old(View()).Shut()
      ensures closed && AllClosed(old(table), table)
    {
      closed := true;
      table := table.CloseAll();
    }

    method ReceiveSyn(id: Id)
      modifies this
      ensures View() == old(View()).Take(Frame(CMD_SYN, id, []), false, _ => None)
      ensures out == old(out) + old(View()).Answer(Frame(CMD_SYN, id, []), _ => None)
      ensures isClient ==> View() == old(View()) && out == old(out)
      ensures !isClient && !receivedSettings ==>
        refused && closed && AllClosed(old(table), table) && out == old(out) + [Frame(CMD_ALERT, 0, ALERT_TEXT)]
      ensures !isClient && receivedSettings ==>
        && accepted == old(accepted) + [id] && closed == old(closed) && id in table.known
        && OnlyTouches(old(table), table, id)
        && (if id in old(table.known) then table == old(table) else id in table.objs && table.objs[id] == NEW_STREAM)
        && out == old(out) + if peerVersion >= 2 then [Frame(CMD_SYNACK, id, [])] else []
    {
      if !isClient && !receivedSettings {
        out := out + [Frame(CMD_ALERT, 0, ALERT_TEXT)];
        refused := true;
        Close();
        return;
      }
      if isClient {
        return;
      }
      if id !in table.known {
        table := table.Add(id);
      }
      if peerVersion >= 2 {
        out := out + [Frame(CMD_SYNACK, id, [])];
      }
      accepted := accepted + [id];
    }

    method ReceiveSettings(v: Option<int>)
      modifies this
      ensures View() == if isClient then old(View()) else old(View()).TakeSettings(v)
      ensures out == old(out) +
        if !isClient && v.Some? && v.value >= 2 then [Frame(CMD_SERVER_SETTINGS, 0, SERVER_SETTINGS_TEXT)] else []
    {
      if isClient {
        return;
      }
      receivedSettings := true;
      if v.Some? && v.value >= 2 {
        peerVersion := v.value % 256;
        out := out + [Frame(CMD_SERVER_SETTINGS, 0, SERVER_SETTINGS_TEXT)];
      }
    }

    method ReceiveServerSettings(v: Option<int>)
      modifies this
      ensures View() == if isClient then old(View()).TakeServerSettings(v) else old(View())
      ensures out == old(out)
    {
      if isClient && peerVersion == 0 {
        peerVersion := if v.Some? then v.value % 256 else 1;
      }
    }

    /** One frame, by the number of its command. */
    method Dispatch(f: Frame, pick: bool, version: seq<byte> -> Option<int>)
      modifies this
      ensures View() == old(View()).Take(f, Dropped(old(View()), f, pick), version)
      ensures out == old(out) + old(View()).Answer(f, version)
      // waste, padding schemes, heartbeats
      ensures f.cmd in {0, 6, 8, 9} ==> View() == old(View())
      ensures f.cmd in {0, 6, 9} ==> out == old(out)
      ensures f.cmd == 8 ==> out == old(out) + [Frame(9, f.streamID, [])]
      // a payload, an answer, a FIN
      ensures f.cmd in {2, 3, 7} ==>
        && OnlyTouches(old(table), table, f.streamID) && out == old(out) && closed == old(closed)
        && (f.streamID !in old(table.known) ==> table == old(table))
      ensures f.cmd == 2 && f.streamID in old(table.known) ==>
        var was, now := old(table).Obj(f.streamID), table.Obj(f.streamID);
        && table.known == old(table.known)
        && (was.closed && (pick || |was.inbox.queue| >= 32) ==> now == was)
        && (!(was.closed && (pick || |was.inbox.queue| >= 32)) ==>
             now == was.(inbox := now.inbox) && now.inbox == was.inbox.(queue := was.inbox.queue + [f.data]))
      ensures f.cmd == 3 && f.streamID in old(table.known) ==>
        var was, now := old(table).Obj(f.streamID), table.Obj(f.streamID);
        f.streamID !in table.known && now == was.(closed := true, ended := true)
      ensures f.cmd == 7 && f.streamID in old(table.known) ==>
        var was, now := old(table).Obj(f.streamID), table.Obj(f.streamID);
        && now == was.(synack := if was.synack.None? then Some(f.data) else was.synack, closed := now.closed)
        && (f.data != [] ==> now.closed && f.streamID !in table.known)
        && (f.data == [] ==> now.closed == was.closed && f.streamID in table.known)
      // settings
      ensures f.cmd in {4, 10} ==> table == old(table) && closed == old(closed) && accepted == old(accepted)
      ensures f.cmd == 4 && !isClient ==>
        var v := version(f.data);
        && receivedSettings && peerVersion == (if v.Some? && v.value >= 2 then v.value % 256 else old(peerVersion))
        && out == old(out) + if v.Some? && v.value >= 2 then [Frame(10, 0, SERVER_SETTINGS_TEXT)] else []
      ensures f.cmd == 10 && isClient && old(peerVersion) == 0 ==>
        var v := version(f.data); peerVersion == if v.Some? then v.value % 256 else 1
      ensures (f.cmd == 4 && isClient) || (f.cmd == 10 && (!isClient || old(peerVersion) != 0)) ==>
        View() == old(View()) && out == old(out)
      // an alert, or no command at all
      ensures f.cmd == 5 || f.cmd > 10 ==> closed && AllClosed(old(table), table) && out == old(out)
    {
      if f.cmd == CMD_WASTE {
      } else if f.cmd == CMD_PSH {
        var o := table.Obj(f.streamID);
        table := table.Payload(f.streamID, f.data, o.closed && (pick || |o.inbox.queue| >= QUEUE_LIMIT));
      } else if f.cmd == CMD_SYN {
        ReceiveSyn(f.streamID);
      } else if f.cmd == CMD_SYNACK {
        table := table.Synack(f.streamID, f.data);
      } else if f.cmd == CMD_FIN {
        table := table.Fin(f.streamID);
      } else if f.cmd == CMD_SETTINGS {
        ReceiveSettings(version(f.data));
      } else if f.cmd == CMD_SERVER_SETTINGS {
        ReceiveServerSettings(version(f.data));
      } else if f.cmd == CMD_UPDATE_PADDING_SCHEME || f.cmd == CMD_HEART_RESPONSE {
      } else if f.cmd == CMD_HEART_REQUEST {
        out := out + [Frame(CMD_HEART_RESPONSE, f.streamID, [])];
      } else {
        Close();
      }
    }

    /** Reads the connection to its end, in whatever pieces it comes, and closes the session; or is left waiting at
      * the full queue of an open stream. */
    method RecvLoop(r: Wire.Reader, picks: nat -> bool, version: seq<byte> -> Option<int>) returns (blocked: bool)
      modifies this, r
      ensures var fs := ParseFrames(old(r.rest)).0;
              var (e, answers, n) := TakeAll(old(View()), fs, 0, picks, version);
              && out == old(out) + answers && (blocked <==> n < |fs| && !e.closed)
              && View() == if blocked then e else e.Shut()
      ensures var fs := ParseFrames(old(r.rest)).0;
              var (e, answers, n) := TakeAll(old(View()), fs, 0, picks, version);
              && (blocked ==> n < |fs| && Full(table, fs[n]))
              && (!blocked ==> closed && AllClosed(e.table, table))
    {
      ghost var fs := ParseFrames(r.rest).0;
      ghost var all := TakeAll(View(), fs, 0, picks, version);
      ghost var before := out;
      var i := 0;
      while !closed
        invariant i <= |fs| && (!closed ==> ParseFrames(r.rest).0 == fs[i..])
        invariant Rest(all, before, out, TakeAll(View(), fs, i, picks, version))
        decreases |r.rest|
      {
        var f := Wire.ReadFrame(r);
        if f.None? {
          break;
        }
        assert fs[i..][0] == f.value && fs[i..][1..] == fs[i + 1..];
        BlockedWhenFull(View(), f.value, picks(i));
        if Full(table, f.value) {
          return true;
        }
        AppendAssoc(out, View().Answer(f.value, version), TakeAll(
          View().Take(f.value, Dropped(View(), f.value, picks(i)), version), fs, i + 1, picks, version).1);
        Dispatch(f.value, picks(i), version);
        i := i + 1;
      }
      Close();
      return false;
    }
  }

  /** What is left to do makes up for what has been written. */
  ghost predicate Rest(all: (Endpoint, seq<Frame>, nat), before: seq<Frame>, out: seq<Frame>,
                       left: (Endpoint, seq<Frame>, nat))
  {
    all.0 == left.0 && all.2 == left.2 && before + all.1 == out + left.1
  }
}
