/** The multiplexer's invariant over whole runs, and what it means for readers, writers, dials and the handshake. */
module MuxRuns {
  import opened Bytes
  import opened Options
  import opened Seqs
  import opened WireFormat
  import opened Mux
  import opened MuxFlow
  import opened MuxStays

  // ---- Runs ----

  /** Every step of either session keeps the invariant. */
  lemma StepInv(mode: Mode, st: State, a: Action, version: seq<byte> -> Option<int>)
    requires Inv(mode, st) && Enabled(st, a) && StepFits(mode, st, a)
    ensures Inv(mode, Step(st, a, version))
  {
    forall id: Id ensures Sound(mode, Step(st, a, version), id) {
      if a.Receive? {
        ReceiveFlows(mode, st, a.atClient, a.drop, version, id);
        ReceiveAnnounced(mode, st, a.atClient, a.drop, version, id);
      } else if Quiet(a) {
        QuietSound(mode, st, a, version, id);
      } else {
        SendSound(mode, st, a, version, id);
      }
    }
    StaysStopped(st, a, version, true);
    StaysStopped(st, a, version, false);
    if a.Receive? {
      ReceiveRest(mode, st, a.atClient, a.drop, version);
    } else {
      OtherKept(st, a, version, true);
      OtherKept(st, a, version, false);
      if Quiet(a) {
        StaysOpening(st, a, version);
        StaysAccepting(st, a, version);
      } else {
        SentOpening(st, a, version);
        SentAccepting(st, a, version);
      }
    }
  }

  /** Every state of a run satisfies the invariant, in each mode that the run fits. */
  lemma {:induction false} RunInv(mode: Mode, sts: seq<State>, acts: seq<Action>, version: seq<byte> -> Option<int>,
                                  k: nat)
    requires IsRun(sts, acts, version) && RunFits(mode, sts, acts) && k < |sts|
    ensures Inv(mode, sts[k])
  {
    if k == 0 {
      InitInv(mode);
    } else {
      RunInv(mode, sts, acts, version, k - 1);
      StepInv(mode, sts[k - 1], acts[k - 1], version);
    }
  }

  /** At each end at most one Read holds a chunk, and it found nothing pending. */
  ghost predicate OneReader(t: Table) {
    forall id :: id in t.objs ==> OneAtMost(t.objs[id].inbox)
  }

  ghost predicate OneAtMost(b: Inbox) {
    b.hands != [] ==> |b.hands| == 1 && b.pending == []
  }

  lemma OneReaderTable(t: Table, id: Id, data: seq<byte>, drop: bool)
    requires OneReader(t)
    ensures OneReader(t.Payload(id, data, drop)) && OneReader(t.Synack(id, data)) && OneReader(t.Fin(id))
    ensures OneReader(t.Add(id)) && OneReader(t.CloseAll())
  {
  }

  lemma OneReaderTake(e: Endpoint, f: Frame, drop: bool, version: seq<byte> -> Option<int>)
    requires OneReader(e.table)
    ensures OneReader(e.Take(f, drop, version).table)
  {
    OneReaderTable(e.table, f.streamID, f.data, drop);
  }

  lemma OneReaderSet(t: Table, id: Id, o: Stream)
    requires OneReader(t) && id in t.objs
    requires o.inbox == t.objs[id].inbox || OneAtMost(o.inbox)
    ensures OneReader(t.Set(id, o)) && OneReader(t.Set(id, o).Forget(id))
  {
  }

  lemma OneReaderReads(st: State, a: Action, version: seq<byte> -> Option<int>)
    requires Enabled(st, a) && SoloStep(st, a) && (a.Pull? || a.Store? || a.Copy?)
    requires OneReader(st.End(a.atClient).table)
    ensures OneReader(Step(st, a, version).End(a.atClient).table)
  {
    var e := st.End(a.atClient);
    var o := e.Obj(a.id);
    match a
    case Pull(c, i) => OneReaderSet(e.table, i, o.(inbox := Pulled(o.inbox)));
    case Store(c, i, k) => OneReaderSet(e.table, i, o.(inbox := Stored(o.inbox, k)));
    case Copy(c, i, n) => OneReaderSet(e.table, i, o.(inbox := Copied(o.inbox, n)));
  }

  lemma OneReaderRest(st: State, a: Action, version: seq<byte> -> Option<int>)
    requires Enabled(st, a) && (a.Mark? || a.Forget? || a.Write? || a.SendFin?)
    requires OneReader(st.End(a.atClient).table)
    ensures OneReader(Step(st, a, version).End(a.atClient).table)
  {
    var e := st.End(a.atClient);
    var o := e.Obj(a.id);
    match a
    case Mark(c, i) => OneReaderSet(e.table, i, o.(closed := true, local := true, phase := Deleting));
    case Forget(c, i) => OneReaderSet(e.table, i, o.(phase := if e.closed then Done else SendingFin));
    case Write(c, i, data) => OneReaderSet(e.table, i, o.(sent := Wrote(o.sent, data)));
    case SendFin(c, i) => OneReaderSet(e.table, i, o.(phase := Done, sent := o.sent.(fin := true)));
  }

  lemma OneReaderKept(st: State, a: Action, version: seq<byte> -> Option<int>, c: bool)
    requires Enabled(st, a) && OneReader(st.End(c).table) && SoloStep(st, a)
    ensures OneReader(Step(st, a, version).End(c).table)
  {
    if Untouching(a) {
      UntouchedTables(st, a, version, c);
    } else if a.Register? {
      OneReaderTable(st.End(c).table, st.client.calls.nextID + 1, [], false);
    } else if a.atClient != c {
      OtherEnd(st, a, version);
    } else if a.Receive? {
      OneReaderTake(st.End(c), st.Wire(c)[0], a.drop, version);
    } else if a.Shut? {
      OneReaderTable(st.End(c).table, 0, [], false);
    } else if a.Pull? || a.Store? || a.Copy? {
      OneReaderReads(st, a, version);
    } else {
      OneReaderRest(st, a, version);
    }
  }

  lemma {:induction false} OneReaderRun(sts: seq<State>, acts: seq<Action>, version: seq<byte> -> Option<int>, k: nat)
    requires IsRun(sts, acts, version) && Solo(sts, acts) && k < |sts|
    ensures OneReader(sts[k].client.table) && OneReader(sts[k].server.table)
  {
    if k > 0 {
      OneReaderRun(sts, acts, version, k - 1);
      OneReaderKept(sts[k - 1], acts[k - 1], version, true);
      OneReaderKept(sts[k - 1], acts[k - 1], version, false);
    }
  }

  /** Reads that do not overlap make every chunk pending in place. */
  lemma SoloIsOrderly(sts: seq<State>, acts: seq<Action>, version: seq<byte> -> Option<int>)
    requires IsRun(sts, acts, version) && Solo(sts, acts)
    ensures RunFits(Whole, sts, acts)
  {
    forall i | 0 <= i < |acts| ensures StepFits(Whole, sts[i], acts[i]) {
      OneReaderRun(sts, acts, version, i);
      if acts[i].Store? {
        var b := sts[i].End(acts[i].atClient).Obj(acts[i].id).inbox;
        assert b.hands[..0] == [] && Flat(b.hands[..0]) == [];
      }
    }
  }

  // ---- What readers and writers see ----

  /** Until an end closes the stream itself, what has reached it and what is on the wire for it are what the other end
    * has promised; with the other end's FIN, all of it has arrived. */
  ghost predicate Conserved(st: State, c: bool, id: Id) {
    var o, p := st.End(c).Obj(id), st.End(!c).Obj(id).sent;
    !o.local ==>
      && (Expecting(st.End(c), id) ==> Received(o.inbox) + On(st.Wire(c), id).live == p.promised)
      && (o.ended ==> Received(o.inbox) == p.promised)
  }

  /** Nothing is lost, doubled, reordered or mixed between streams. */
  lemma Conservation(sts: seq<State>, acts: seq<Action>, version: seq<byte> -> Option<int>, k: nat, c: bool, id: Id)
    requires IsRun(sts, acts, version) && RunFits(Balanced, sts, acts) && k < |sts|
    ensures Conserved(sts[k], c, id)
  {
    RunInv(Balanced, sts, acts, version, k);
    assert Sound(Balanced, sts[k], id);
  }

  lemma DeliveredIsPrefix(st: State, c: bool, id: Id)
    requires Inv(Whole, st)
    ensures !st.End(c).Obj(id).local ==> st.End(c).Obj(id).inbox.delivered <= st.End(!c).Obj(id).sent.written
  {
    assert Sound(Whole, st, id);
    var b, p := st.End(c).Obj(id).inbox, st.End(!c).Obj(id).sent;
    assert b.delivered <= Received(b);
    assert Received(b) <= p.promised && p.promised <= p.written ==> b.delivered <= p.written;
  }

  /** Reads return a prefix of the bytes the other end wrote, until the reader closes the stream itself. */
  lemma ReadsArePrefix(sts: seq<State>, acts: seq<Action>, version: seq<byte> -> Option<int>, k: nat, c: bool, id: Id)
    requires IsRun(sts, acts, version) && RunFits(Whole, sts, acts) && k < |sts|
    ensures var st := sts[k];
            !st.End(c).Obj(id).local ==> st.End(c).Obj(id).inbox.delivered <= st.End(!c).Obj(id).sent.written
  {
    RunInv(Whole, sts, acts, version, k);
    DeliveredIsPrefix(sts[k], c, id);
  }

  lemma QueueBounded(sts: seq<State>, acts: seq<Action>, version: seq<byte> -> Option<int>, k: nat, c: bool, id: Id)
    requires IsRun(sts, acts, version) && k < |sts|
    ensures |sts[k].End(c).Obj(id).inbox.queue| <= QUEUE_LIMIT
  {
    RunInv(Loose, sts, acts, version, k);
  }

  /** Once a session is closed all its streams are closed and forgotten, so that no Read waits on it for ever. */
  lemma ClosedSession(sts: seq<State>, acts: seq<Action>, version: seq<byte> -> Option<int>, k: nat, c: bool)
    requires IsRun(sts, acts, version) && k < |sts| && sts[k].End(c).closed
    ensures sts[k].End(c).table.known == {}
    ensures forall id :: id in sts[k].End(c).table.objs ==> sts[k].End(c).table.objs[id].closed
  {
    RunInv(Loose, sts, acts, version, k);
  }

  // ---- The handshake ----

  /** The server never meets a stream before the settings, and each stream that was announced has either been handed
    * to the handler once or has its one SYN still on the wire. */
  lemma AnnouncedOnce(sts: seq<State>, acts: seq<Action>, version: seq<byte> -> Option<int>, k: nat, id: Id)
    requires IsRun(sts, acts, version) && k < |sts|
    ensures var st := sts[k];
            && !st.server.handshake.refused && PairwiseDistinct(st.server.accepted)
            && (id in st.client.calls.synSent <==> id in st.server.accepted || On(st.toServer, id).syns == 1)
            && !(id in st.server.accepted && On(st.toServer, id).syns > 0)
  {
    RunInv(Loose, sts, acts, version, k);
    assert Sound(Loose, sts[k], id);
    DistinctPairwise(sts[k].server.accepted);
  }

  /** A payload that a receive loop meets belongs to a stream it has been told of, and is kept unless that stream has
    * been closed. */
  lemma PayloadIsKnown(sts: seq<State>, acts: seq<Action>, version: seq<byte> -> Option<int>, k: nat, c: bool)
    requires IsRun(sts, acts, version) && k < |sts|
    ensures var st := sts[k];
            st.Wire(c) != [] && Kind(st.Wire(c)[0].cmd).Payload? ==>
              var id := st.Wire(c)[0].streamID;
              id in st.End(c).table.objs && (!st.End(c).Obj(id).closed ==> id in st.End(c).table.known)
  {
    RunInv(Loose, sts, acts, version, k);
    var st := sts[k];
    if st.Wire(c) != [] {
      assert Sound(Loose, st, st.Wire(c)[0].streamID);
      if c {
        assert FromServer(st.toClient[0], st.server.accepted);
      }
    }
  }

  /** A dial that went by version 2 or later has returned only after the server's empty answer for that same
    * stream. */
  lemma DialAnswered(sts: seq<State>, acts: seq<Action>, version: seq<byte> -> Option<int>, k: nat, id: Id)
    requires IsRun(sts, acts, version) && k < |sts|
    requires id in sts[k].client.calls.dialed
    ensures var st := sts[k];
            && id in st.client.calls.decided
            && (st.client.calls.decided[id] >= 2 ==>
              st.client.Obj(id).synack == Some([]) && id in st.server.accepted)
  {
    RunInv(Loose, sts, acts, version, k);
    assert Sound(Loose, sts[k], id);
  }
}

/** The invariant step by step: what receiving, sending and every other step leave of it. */
module MuxStays {
  import opened Bytes
  import opened Options
  import opened Seqs
  import opened WireFormat
  import opened Mux
  import opened MuxFlow

  // ---- Receiving ----

  /** The client's receive loop writes nothing, and only takes streams, answers and the server's settings. */
  lemma ClientReceives(mode: Mode, st: State, drop: bool, version: seq<byte> -> Option<int>)
    requires Inv(mode, st) && Enabled(st, Receive(true, drop))
    ensures FromServer(st.toClient[0], st.server.accepted)
    ensures Step(st, Receive(true, drop), version)
      == st.(client := st.client.Take(st.toClient[0], drop, version), toClient := st.toClient[1..])
  {
    assert FromServer(st.toClient[0], st.server.accepted);
    assert st.toServer + st.client.Answer(st.toClient[0], version) == st.toServer;
  }

  lemma ClientOpening(st: State, f: Frame, drop: bool, version: seq<byte> -> Option<int>, w: seq<Frame>)
    requires Opening(st) && Kept(st.client.table) && Proper(st.client, f)
    ensures Opening(st.(client := st.client.Take(f, drop, version), toClient := w))
  {
  }

  lemma ServerOpening(st: State, drop: bool, version: seq<byte> -> Option<int>)
    requires Opening(st) && Enabled(st, Receive(false, drop)) && Proper(st.server, st.toServer[0])
    ensures Opening(Step(st, Receive(false, drop), version))
  {
  }

  lemma ServerAccepting(st: State, f: Frame, drop: bool, version: seq<byte> -> Option<int>, s: Endpoint)
    requires Accepting(st) && Proper(st.server, f) && FromClient(f) && !st.server.isClient && Kept(st.server.table)
    requires s == st.server.Take(f, drop, version)
    ensures forall id :: id in s.table.objs <==> id in s.accepted
    ensures Distinct(s.accepted)
    ensures forall g :: g in st.toClient ==> FromServer(g, s.accepted)
    ensures forall g :: g in st.server.Answer(f, version) ==> FromServer(g, s.accepted)
  {
    if Kind(f.cmd).Syn? {
      DistinctAppend(st.server.accepted, f.streamID);
      assert s.accepted == st.server.accepted + [f.streamID];
    } else {
      assert s.accepted == st.server.accepted;
      assert s.table.objs.Keys == st.server.table.objs.Keys;
    }
  }

  /** One round of a receive loop keeps what does not speak of one stream. */
  lemma ReceiveRest(mode: Mode, st: State, c: bool, drop: bool, version: seq<byte> -> Option<int>)
    requires Inv(mode, st) && Enabled(st, Receive(c, drop))
    ensures var st' := Step(st, Receive(c, drop), version);
            Kept(st'.client.table) && Kept(st'.server.table) && Opening(st') && Accepting(st')
  {
    Prepared(mode, st, c, drop);
    TakeKept(st.End(c), st.Wire(c)[0], drop, version);
    if c {
      ClientReceives(mode, st, drop, version);
      ClientOpening(st, st.toClient[0], drop, version, st.toClient[1..]);
    } else {
      ServerOpening(st, drop, version);
      ServerAccepting(st, st.toServer[0], drop, version, st.server.Take(st.toServer[0], drop, version));
    }
  }

  lemma ClientAnnounced(c: Endpoint, f: Frame, drop: bool, version: seq<byte> -> Option<int>, syns: nat, acc: seq<Id>,
                        id: Id)
    requires Announced(c, syns, acc, id) && FromServer(f, acc) && c.isClient && Kept(c.table)
    ensures Announced(c.Take(f, drop, version), syns, acc, id)
  {
  }

  lemma ServerAnnounced(c: Endpoint, f: Frame, t: Traffic, acc: seq<Id>, id: Id)
    requires Announced(c, Ahead(f, t, id).syns, acc, id) && (Kind(f.cmd).Syn? ==> f.streamID !in acc)
    ensures Announced(c, t.syns, if Kind(f.cmd).Syn? then acc + [f.streamID] else acc, id)
  {
  }

  lemma ReceiveAnnounced(mode: Mode, st: State, c: bool, drop: bool, version: seq<byte> -> Option<int>, id: Id)
    requires Inv(mode, st) && Enabled(st, Receive(c, drop))
    ensures var st' := Step(st, Receive(c, drop), version);
            Announced(st'.client, On(st'.toServer, id).syns, st'.server.accepted, id)
  {
    assert Sound(mode, st, id);
    var f, w, acc := st.Wire(c)[0], st.toServer, st.server.accepted;
    if c {
      ClientReceives(mode, st, drop, version);
      ClientAnnounced(st.client, f, drop, version, On(w, id).syns, acc, id);
    } else {
      Prepared(mode, st, c, drop);
      assert FromClient(f);
      ServerAnnounced(st.client, f, On(w[1..], id), acc, id);
    }
  }

  // ---- The other steps ----

  /** The steps that neither send nor receive. */
  predicate Quiet(a: Action) {
    !a.RunClient? && !a.SendSyn? && !a.Write? && !a.SendFin? && !a.Receive?
  }

  /** A stream may change as long as it stays closed once it is, and is closed here only by its own end. */
  lemma SetKept(t: Table, id: Id, o: Stream)
    requires Kept(t) && id in t.objs
    requires |o.inbox.queue| <= QUEUE_LIMIT && (o.closed ==> o.local || t.objs[id].closed)
    requires (t.objs[id].local ==> o.local) && (t.objs[id].closed ==> o.closed)
    requires o.phase.Open? || (o.closed && o.local)
    ensures Kept(t.Set(id, o)) && (o.closed ==> Kept(t.Set(id, o).Forget(id)))
  {
  }

  lemma TableKept(t: Table, id: Id)
    requires Kept(t)
    ensures Kept(t.Add(id)) && Kept(t.CloseAll())
  {
  }

  lemma StreamStepKept(st: State, a: Action, version: seq<byte> -> Option<int>)
    requires Enabled(st, a) && (a.Pull? || a.Store? || a.Copy? || a.Mark? || a.Forget?)
    requires Kept(st.End(a.atClient).table)
    ensures Kept(Step(st, a, version).End(a.atClient).table)
  {
    var e := st.End(a.atClient);
    var o := e.Obj(a.id);
    match a
    case Pull(c, i) => SetKept(e.table, i, o.(inbox := Pulled(o.inbox)));
    case Store(c, i, k) => SetKept(e.table, i, o.(inbox := Stored(o.inbox, k)));
    case Copy(c, i, n) => SetKept(e.table, i, o.(inbox := Copied(o.inbox, n)));
    case Mark(c, i) => SetKept(e.table, i, o.(closed := true, local := true, phase := Deleting));
    case Forget(c, i) => SetKept(e.table, i, o.(phase := if e.closed then Done else SendingFin));
  }

  lemma OtherEnd(st: State, a: Action, version: seq<byte> -> Option<int>)
    requires Enabled(st, a) && !a.RunClient? && !a.Register? && !a.SendSyn? && !a.Decide? && !a.Dial?
    ensures Step(st, a, version).End(!a.atClient) == st.End(!a.atClient)
  {
  }

  /** Any other step keeps what each session keeps of its own streams. */
  lemma OtherKept(st: State, a: Action, version: seq<byte> -> Option<int>, c: bool)
    requires Kept(st.End(c).table) && Enabled(st, a) && !a.Receive?
    ensures Kept(Step(st, a, version).End(c).table)
  {
    if Untouching(a) {
      UntouchedTables(st, a, version, c);
    } else if a.Register? {
      TableKept(st.End(c).table, st.client.calls.nextID + 1);
    } else if a.atClient != c {
      OtherEnd(st, a, version);
    } else if a.Shut? {
      TableKept(st.End(c).table, 0);
    } else if a.Write? {
      var o := st.End(c).Obj(a.id);
      SetKept(st.End(c).table, a.id, o.(sent := Wrote(o.sent, a.data)));
    } else if a.SendFin? {
      var o := st.End(c).Obj(a.id);
      SetKept(st.End(c).table, a.id, o.(phase := Done, sent := o.sent.(fin := true)));
    } else {
      StreamStepKept(st, a, version);
    }
  }

  lemma StaysOpening(st: State, a: Action, version: seq<byte> -> Option<int>)
    requires Opening(st) && Enabled(st, a) && Quiet(a)
    ensures Opening(Step(st, a, version))
  {
  }

  lemma StaysAccepting(st: State, a: Action, version: seq<byte> -> Option<int>)
    requires Accepting(st) && Enabled(st, a) && Quiet(a)
    ensures Accepting(Step(st, a, version))
  {
  }

  /** What is announced does not depend on the steps that move bytes or close streams. */
  lemma StreamAnnounced(mode: Mode, st: State, a: Action, version: seq<byte> -> Option<int>, id: Id)
    requires Sound(mode, st, id) && Enabled(st, a) && Quiet(a) && !a.Register? && !a.Decide? && !a.Dial?
    ensures Announced(Step(st, a, version).client, On(st.toServer, id).syns, st.server.accepted, id)
  {
    assert Step(st, a, version).client.Obj(id).synack == st.client.Obj(id).synack;
  }

  lemma QuietSilent(st: State, a: Action, version: seq<byte> -> Option<int>)
    requires Enabled(st, a) && Quiet(a)
    ensures var st' := Step(st, a, version);
            st'.toServer == st.toServer && st'.toClient == st.toClient && st'.server.accepted == st.server.accepted
  {
  }

  lemma CallAnnounced(mode: Mode, st: State, a: Action, version: seq<byte> -> Option<int>, id: Id)
    requires Inv(mode, st) && Enabled(st, a) && (a.Register? || a.Decide? || a.Dial?)
    ensures Announced(Step(st, a, version).client, On(st.toServer, id).syns, st.server.accepted, id)
  {
    assert Sound(mode, st, id);
  }

  /** Moving bytes about inside a stream: they stay what they are, or nothing is said of them. */
  lemma InboxFlow(mode: Mode, p: Sent, t: Traffic, r: Endpoint, i: Id, b: Inbox, id: Id)
    requires Flow(mode, p, t, r, id) && i in r.table.objs
    requires i == id ==>
      || mode.Loose? || Received(b) == Received(r.Obj(i).inbox)
      || (mode.Balanced? && (r.Obj(i).local || !(Expecting(r, i) || r.Obj(i).ended)))
    ensures Flow(mode, p, t, r.Set(i, r.Obj(i).(inbox := b)), id)
  {
  }

  lemma InboxFlows(mode: Mode, st: State, c: bool, i: Id, b: Inbox, id: Id)
    requires Flows(mode, st, id) && i in st.End(c).table.objs
    requires mode.Loose? || (mode.Balanced? && !Counting(st, c, i)) || Received(b) == Received(st.End(c).Obj(i).inbox)
    ensures Flows(mode, st.SetObj(c, i, st.End(c).Obj(i).(inbox := b)), id)
  {
    InboxFlow(mode, st.End(!c).Obj(id).sent, On(st.Wire(c), id), st.End(c), i, b, id);
  }

  lemma ReadFlows(mode: Mode, st: State, a: Action, version: seq<byte> -> Option<int>, id: Id)
    requires Flows(mode, st, id) && Enabled(st, a) && StepFits(mode, st, a) && (a.Pull? || a.Store? || a.Copy?)
    ensures Flows(mode, Step(st, a, version), id)
  {
    var b := st.End(a.atClient).Obj(a.id).inbox;
    match a
    case Pull(c, i) =>
      PullKeeps(b);
      InboxFlows(mode, st, c, i, Pulled(b), id);
    case Store(c, i, k) =>
      StoreKeeps(b, k);
      InboxFlows(mode, st, c, i, Stored(b, k), id);
    case Copy(c, i, n) =>
      CopyKeeps(b, n);
      InboxFlows(mode, st, c, i, Copied(b, n), id);
  }

  /** A stream that its own end marks as closed. */
  lemma MarkFlow(mode: Mode, p: Sent, t: Traffic, r: Endpoint, i: Id, id: Id)
    requires Flow(mode, p, t, r, id) && i in r.table.objs
    ensures Flow(mode, p, t, r.Set(i, r.Obj(i).(closed := true, local := true, phase := Deleting)), id)
  {
  }

  lemma MarkFlows(mode: Mode, st: State, c: bool, i: Id, version: seq<byte> -> Option<int>, id: Id)
    requires Flows(mode, st, id) && Enabled(st, Mark(c, i))
    ensures Flows(mode, Step(st, Mark(c, i), version), id)
  {
    MarkFlow(mode, st.End(!c).Obj(id).sent, On(st.Wire(c), id), st.End(c), i, id);
  }

  /** A stream that has been closed and is forgotten. */
  lemma ForgetFlow(mode: Mode, p: Sent, t: Traffic, r: Endpoint, i: Id, o: Stream, id: Id)
    requires Flow(mode, p, t, r, id) && i in r.table.objs && o == r.Obj(i).(phase := o.phase) && r.Obj(i).local
    ensures Flow(mode, p, t, r.(table := r.table.Set(i, o).Forget(i)), id)
  {
  }

  lemma ForgetFlows(mode: Mode, st: State, c: bool, i: Id, version: seq<byte> -> Option<int>, id: Id)
    requires Flows(mode, st, id) && Enabled(st, Forget(c, i)) && st.End(c).Obj(i).local
    ensures Flows(mode, Step(st, Forget(c, i), version), id)
  {
    var e := st.End(c);
    var o := e.Obj(i).(phase := if e.closed then Done else SendingFin);
    ForgetFlow(mode, st.End(!c).Obj(id).sent, On(st.Wire(c), id), e, i, o, id);
  }

  lemma StreamFlows(mode: Mode, st: State, a: Action, version: seq<byte> -> Option<int>, id: Id)
    requires a.Pull? || a.Store? || a.Copy? || a.Mark? || a.Forget? || a.Shut?
    requires Flows(mode, st, id) && Enabled(st, a) && StepFits(mode, st, a) && Kept(st.End(a.atClient).table)
    ensures Flows(mode, Step(st, a, version), id)
  {
    if a.Mark? {
      MarkFlows(mode, st, a.atClient, a.id, version, id);
    } else if a.Forget? {
      ForgetFlows(mode, st, a.atClient, a.id, version, id);
    } else if a.Shut? {
      ShutFlow(mode, st.End(!a.atClient).Obj(id).sent, On(st.Wire(a.atClient), id), st.End(a.atClient), id);
    } else {
      ReadFlows(mode, st, a, version, id);
    }
  }

  lemma CallFlows(mode: Mode, st: State, a: Action, version: seq<byte> -> Option<int>, id: Id)
    requires Flows(mode, st, id) && Opening(st) && Kept(st.client.table) && Enabled(st, a)
    requires a.Register? || a.Decide? || a.Dial?
    ensures Flows(mode, Step(st, a, version), id)
  {
    if a.Register? {
      RegisterFlows(mode, st, version, id);
    }
  }

  /** A stream that is registered is new to both ends. */
  lemma RegisterFlows(mode: Mode, st: State, version: seq<byte> -> Option<int>, id: Id)
    requires Flows(mode, st, id) && Opening(st) && Kept(st.client.table) && Enabled(st, Register)
    ensures Flows(mode, Step(st, Register, version), id)
  {
  }

  // ---- Sending ----

  lemma SentOpening(st: State, a: Action, version: seq<byte> -> Option<int>)
    requires Opening(st) && Kept(st.client.table) && Enabled(st, a) && !Quiet(a) && !a.Receive?
    ensures Opening(Step(st, a, version))
  {
  }

  lemma SentAccepting(st: State, a: Action, version: seq<byte> -> Option<int>)
    requires Accepting(st) && Enabled(st, a) && !Quiet(a) && !a.Receive?
    ensures Accepting(Step(st, a, version))
  {
  }

  lemma SynAnnounced(mode: Mode, st: State, i: Id, version: seq<byte> -> Option<int>, id: Id)
    requires Sound(mode, st, id) && Enabled(st, SendSyn(i)) && Kept(st.client.table)
    ensures var st' := Step(st, SendSyn(i), version);
            Announced(st'.client, On(st'.toServer, id).syns, st'.server.accepted, id)
  {
    PutOne(st.toServer, Frame(CMD_SYN, i, []), id);
  }

  lemma SendAnnounced(mode: Mode, st: State, a: Action, version: seq<byte> -> Option<int>, id: Id)
    requires Sound(mode, st, id) && Enabled(st, a) && (a.RunClient? || a.Write? || a.SendFin?)
    ensures var st' := Step(st, a, version);
            Announced(st'.client, On(st'.toServer, id).syns, st'.server.accepted, id)
  {
    match a
    case RunClient => SynsKept(st.toServer, Frame(CMD_SETTINGS, 0, CLIENT_SETTINGS_TEXT), id);
    case Write(c, i, data) => SynsKept(st.toServer, Frame(CMD_PSH, i, data), id);
    case SendFin(c, i) => SynsKept(st.toServer, Frame(CMD_FIN, i, []), id);
  }

  lemma SynsKept(w: seq<Frame>, f: Frame, id: Id)
    requires !Kind(f.cmd).Syn?
    ensures On(w + [f], id).syns == On(w, id).syns
  {
    PutOne(w, f, id);
  }

  /** Whoever writes on a stream writes to a peer that has heard of it, or will first. */
  lemma PeerHears(mode: Mode, st: State, c: bool, id: Id)
    requires Inv(mode, st) && st.Has(c, id)
    ensures id in st.End(!c).table.objs || On(st.Wire(!c), id).syns > 0
  {
    assert Sound(mode, st, id);
  }

  /** A frame sent on stream i touches only that stream's flow away from c. */
  lemma SentFlows(mode: Mode, st: State, c: bool, i: Id, o: Stream, f: Frame, id: Id)
    requires Flows(mode, st, id) && i in st.End(c).table.objs && f.streamID == i
    requires o == st.End(c).Obj(i).(sent := o.sent, phase := o.phase)
    requires i == id ==> Flow(mode, o.sent, Behind(On(st.Wire(!c), i), f, i), st.End(!c), i)
    ensures Flows(mode, st.SetObj(c, i, o).Put(c, [f]), id)
  {
    PutOne(st.Wire(!c), f, id);
  }

  lemma WriteFlows(mode: Mode, st: State, c: bool, i: Id, data: seq<byte>, version: seq<byte> -> Option<int>, id: Id)
    requires Inv(mode, st) && Enabled(st, Write(c, i, data))
    ensures Flows(mode, Step(st, Write(c, i, data), version), id)
  {
    assert Sound(mode, st, id);
    PeerHears(mode, st, c, i);
    var f, o := Frame(CMD_PSH, i, data), st.End(c).Obj(i);
    if i == id {
      SendPayloadFlow(mode, o.sent, On(st.Wire(!c), id), f, st.End(!c), id);
    }
    SentFlows(mode, st, c, i, o.(sent := Wrote(o.sent, data)), f, id);
  }

  lemma FinFlows(mode: Mode, st: State, c: bool, i: Id, version: seq<byte> -> Option<int>, id: Id)
    requires Inv(mode, st) && Enabled(st, SendFin(c, i))
    ensures Flows(mode, Step(st, SendFin(c, i), version), id)
  {
    assert Sound(mode, st, id);
    PeerHears(mode, st, c, i);
    var f, o := Frame(CMD_FIN, i, []), st.End(c).Obj(i);
    if i == id {
      SendFinFlow(mode, o.sent, On(st.Wire(!c), id), f, st.End(!c), id);
    }
    SentFlows(mode, st, c, i, o.(phase := Done, sent := o.sent.(fin := true)), f, id);
  }

  /** The settings and the SYNs carry no bytes. */
  lemma OpeningFlows(mode: Mode, st: State, a: Action, version: seq<byte> -> Option<int>, id: Id)
    requires Flows(mode, st, id) && Enabled(st, a) && (a.RunClient? || a.SendSyn?)
    ensures Flows(mode, Step(st, a, version), id)
  {
    var f := if a.RunClient? then Frame(CMD_SETTINGS, 0, CLIENT_SETTINGS_TEXT) else Frame(CMD_SYN, a.id, []);
    PutOne(st.toServer, f, id);
    SendOtherFlow(mode, st.client.Obj(id).sent, On(st.toServer, id), f, st.server, id);
  }

  /** The steps that leave every stream as it is. */
  predicate Untouching(a: Action) {
    a.RunClient? || a.SendSyn? || a.Decide? || a.Dial?
  }

  lemma UntouchedTables(st: State, a: Action, version: seq<byte> -> Option<int>, c: bool)
    requires Enabled(st, a) && Untouching(a)
    ensures Step(st, a, version).End(c).table == st.End(c).table
  {
  }

  /** Closing a session closes and forgets all its streams, and nothing opens one again. */
  lemma StaysStopped(st: State, a: Action, version: seq<byte> -> Option<int>, c: bool)
    requires Stopped(st.End(c)) && Kept(st.End(c).table) && Enabled(st, a)
    ensures Stopped(Step(st, a, version).End(c))
  {
    if a.Receive? && a.atClient == c {
      TakeStops(st.End(c), st.Wire(c)[0], a.drop, version);
    }
  }

  lemma TakeStops(e: Endpoint, f: Frame, drop: bool, version: seq<byte> -> Option<int>)
    requires !e.closed && Kept(e.table)
    ensures Stopped(e.Take(f, drop, version))
  {
  }

  // ---- Each stream ----

  lemma QuietSound(mode: Mode, st: State, a: Action, version: seq<byte> -> Option<int>, id: Id)
    requires Inv(mode, st) && Enabled(st, a) && Quiet(a) && StepFits(mode, st, a)
    ensures Sound(mode, Step(st, a, version), id)
  {
    assert Sound(mode, st, id);
    QuietSilent(st, a, version);
    if a.Register? || a.Decide? || a.Dial? {
      CallFlows(mode, st, a, version, id);
      CallAnnounced(mode, st, a, version, id);
    } else {
      StreamFlows(mode, st, a, version, id);
      StreamAnnounced(mode, st, a, version, id);
    }
  }

  lemma SendSound(mode: Mode, st: State, a: Action, version: seq<byte> -> Option<int>, id: Id)
    requires Inv(mode, st) && Enabled(st, a) && !Quiet(a) && !a.Receive?
    ensures Sound(mode, Step(st, a, version), id)
  {
    assert Sound(mode, st, id);
    match a
    case Write(c, i, data) =>
      WriteFlows(mode, st, c, i, data, version, id);
      SendAnnounced(mode, st, a, version, id);
    case SendFin(c, i) =>
      FinFlows(mode, st, c, i, version, id);
      SendAnnounced(mode, st, a, version, id);
    case RunClient =>
      OpeningFlows(mode, st, a, version, id);
      SendAnnounced(mode, st, a, version, id);
    case SendSyn(i) =>
      OpeningFlows(mode, st, a, version, id);
      SynAnnounced(mode, st, i, version, id);
  }
}
