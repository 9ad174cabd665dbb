/** What the reader makes of a datagram whose write failed between its two frames (server/anytls/uot.go). */
module MuxCuts {
  import opened Bytes
  import opened Options
  import opened Seqs
  import opened WireFormat
  import opened Mux
  import opened MuxDatagrams

  // ---- The bytes of calls that went out whole ----

  lemma {:induction false} ParseConcat(ps: seq<seq<byte>>, rest: seq<byte>)
    requires PayloadsOk(ps)
    ensures ParsePayloads(EncodePayloads(ps) + rest) == ps + ParsePayloads(rest)
  {
    if ps == [] {
      assert [] + rest == rest && [] + ParsePayloads(rest) == ParsePayloads(rest);
    } else {
      ParseConcat(ps[1..], rest);
      AppendAssoc(EncodePayload(ps[0]), EncodePayloads(ps[1..]), rest);
      ParsePayloadsCons(ps[0], EncodePayloads(ps[1..]) + rest);
      AppendAssoc([ps[0]], ps[1..], ParsePayloads(rest));
      assert ps == [ps[0]] + ps[1..];
    }
  }

  ghost predicate NoneCut(ks: seq<Call>) {
    forall i :: 0 <= i < |ks| ==> !IsCut(ks[i])
  }

  ghost predicate AllOk(ks: seq<Call>) {
    forall i :: 0 <= i < |ks| ==> CallOk(ks[i])
  }

  lemma {:induction false} WholeCalls(ks: seq<Call>)
    requires AllOk(ks) && NoneCut(ks)
    ensures PayloadsOk(Datagrams(ks)) && CallsOut(ks) == EncodePayloads(Datagrams(ks))
  {
    if ks != [] {
      var k, rest := ks[0], ks[1..];
      WholeCalls(rest);
      if k.out == [] {
        assert [] + Datagrams(rest) == Datagrams(rest) && [] + CallsOut(rest) == CallsOut(rest);
      } else {
        assert ([k.p] + Datagrams(rest))[1..] == Datagrams(rest);
      }
    }
  }

  // ---- A call that is cut ----

  /** How many bytes of a datagram are in its second frame. */
  function Lost(p: seq<byte>): nat
    requires |p| + 2 >= MAX_FRAME_DATA
  {
    |p| + 2 - MAX_FRAME_DATA
  }

  /** The first frame of a datagram that has two. */
  ghost function FirstFrame(p: seq<byte>): (f: seq<byte>)
    requires MAX_FRAME_DATA - 2 < |p| <= MAX_FRAME_DATA
  {
    EncodePayload(p)[..MAX_FRAME_DATA]
  }

  /** After a datagram that lost its second frame, the reader takes the next bytes of the stream for its end. */
  lemma CutReads(p: seq<byte>, rest: seq<byte>)
    requires MAX_FRAME_DATA - 2 < |p| <= MAX_FRAME_DATA && |rest| >= Lost(p)
    ensures var read := p[..MAX_FRAME_DATA - 2] + rest[..Lost(p)];
            && ParsePayload(FirstFrame(p) + rest) == Some((read, rest[Lost(p)..]))
            && (read == p <==> rest[..Lost(p)] == p[MAX_FRAME_DATA - 2..])
  {
    var m, cut := Lost(p), p[..MAX_FRAME_DATA - 2];
    assert FirstFrame(p) == PutUint16(|p|) + cut;
    assert PutUint16(|p|) + cut + rest == EncodePayload(cut + rest[..m]) + rest[m..] by {
      assert rest == rest[..m] + rest[m..];
      assert PutUint16(|p|) + cut + (rest[..m] + rest[m..]) == PutUint16(|p|) + (cut + rest[..m]) + rest[m..];
    }
    PayloadRoundTrip(cut + rest[..m], rest[m..]);
    assert p == cut + p[MAX_FRAME_DATA - 2..];
    assert (cut + rest[..m])[MAX_FRAME_DATA - 2..] == rest[..m];
  }

  /** A datagram that was cut and has q behind it: what is read is what was sent, in order, exactly when the length of
    * q ends as p does, and what is left of q's bytes holds no datagram. */
  lemma CutThenNext(p: seq<byte>, q: seq<byte>)
    requires MAX_FRAME_DATA - 2 < |p| <= MAX_FRAME_DATA && |q| <= MAX_FRAME_DATA
    ensures ParsePayloads(FirstFrame(p) + EncodePayload(q)) <= [p, q] <==>
      && PutUint16(|q|)[..Lost(p)] == p[MAX_FRAME_DATA - 2..]
      && ParsePayload(EncodePayload(q)[Lost(p)..]).None?
  {
    var e, m := EncodePayload(q), Lost(p);
    CutReads(p, e);
    assert e[..m] == PutUint16(|q|)[..m];
    ParsePayloadsStep(FirstFrame(p) + e);
    var read, more := p[..MAX_FRAME_DATA - 2] + e[..m], ParsePayloads(e[m..]);
    assert ([read] + more)[0] == read;
    if ParsePayload(e[m..]).Some? {
      ParsePayloadsStep(e[m..]);
      assert |more[0]| < |q| && ([read] + more)[1] == more[0];
    } else {
      assert [read] + more == [read];
    }
  }

  /** A next datagram that is misread after the cut one, whatever that is: its length does not go on as p does. */
  ghost function Breaking(p: seq<byte>): (q: seq<byte>)
    requires MAX_FRAME_DATA - 2 < |p| <= MAX_FRAME_DATA
    ensures |q| <= MAX_FRAME_DATA
  {
    if p[MAX_FRAME_DATA - 2] != 0 then [] else seq(256, i => 0)
  }

  lemma BreakingBreaks(p: seq<byte>)
    requires MAX_FRAME_DATA - 2 < |p| <= MAX_FRAME_DATA
    ensures var r := ParsePayload(FirstFrame(p) + EncodePayload(Breaking(p))); r.Some? && r.value.0 != p
  {
    var q := Breaking(p);
    CutReads(p, EncodePayload(q));
    assert EncodePayload(q)[..Lost(p)][0] == PutUint16(|q|)[0] == if |q| == 0 then 0 else 1;
    assert p[MAX_FRAME_DATA - 2..][0] == p[MAX_FRAME_DATA - 2];
  }

  // ---- When the next datagram is safe ----

  /** Whatever datagram goes out next and whole, what can be read of all of it is what was sent, in order. */
  ghost predicate NextIsSafe(bytes: seq<byte>, sent: seq<seq<byte>>) {
    forall q: seq<byte> :: |q| <= MAX_FRAME_DATA ==> ParsePayloads(bytes + EncodePayload(q)) <= sent + [q]
  }

  lemma ParseOneMore(ds: seq<seq<byte>>, q: seq<byte>)
    requires PayloadsOk(ds) && |q| <= MAX_FRAME_DATA
    ensures ParsePayloads(EncodePayloads(ds) + EncodePayload(q)) == ds + [q]
  {
    ParseConcat(ds, EncodePayload(q));
    ParsePayloadsCons(q, []);
    assert EncodePayload(q) + [] == EncodePayload(q) && [q] + ParsePayloads([]) == [q];
  }

  /** A call that was cut is the last of which anything has gone out: before it are whole datagrams, and then its
    * first frame. */
  lemma {:induction false} CutBytes(ks: seq<Call>) returns (ds: seq<seq<byte>>, p: seq<byte>)
    requires AllOk(ks) && NothingAfterCut(ks) && !NoneCut(ks)
    ensures PayloadsOk(ds) && MAX_FRAME_DATA - 2 < |p| <= MAX_FRAME_DATA
    ensures CallsOut(ks) == EncodePayloads(ds) + FirstFrame(p) && Datagrams(ks) == ds + [p]
  {
    var k, rest := ks[0], ks[1..];
    assert forall i :: 0 <= i < |rest| ==> rest[i] == ks[i + 1];
    if IsCut(k) {
      NothingOut(rest);
      ds, p := [], k.p;
      assert k.out + [] == k.out && [p] + [] == [p];
    } else {
      var more;
      more, p := CutBytes(rest);
      if k.out == [] {
        ds := more;
        assert [] + CallsOut(rest) == CallsOut(rest) && [] + Datagrams(rest) == Datagrams(rest);
      } else {
        ds := [k.p] + more;
        AppendAssoc(EncodePayload(k.p), EncodePayloads(more), FirstFrame(p));
        AppendAssoc([k.p], more, [p]);
        assert ds[1..] == more;
      }
    }
  }

  /** As long as nothing has gone out after a call that was cut, every next datagram is safe exactly when no call was
    * cut. */
  lemma SafeExactly(ks: seq<Call>)
    requires AllOk(ks) && NothingAfterCut(ks)
    ensures NextIsSafe(CallsOut(ks), Datagrams(ks)) <==> NoneCut(ks)
  {
    if NoneCut(ks) {
      WholeCalls(ks);
      forall q: seq<byte> | |q| <= MAX_FRAME_DATA
        ensures ParsePayloads(CallsOut(ks) + EncodePayload(q)) <= Datagrams(ks) + [q]
      {
        ParseOneMore(Datagrams(ks), q);
      }
    } else {
      var ds, p := CutBytes(ks);
      var q := Breaking(p);
      BreakingBreaks(p);
      var tail := FirstFrame(p) + EncodePayload(q);
      ParseConcat(ds, tail);
      AppendAssoc(EncodePayloads(ds), FirstFrame(p), EncodePayload(q));
      ParsePayloadsStep(tail);
      var read := ParsePayloads(tail);
      assert (ds + read)[|ds|] == read[0] && (ds + [p] + [q])[|ds|] == p;
      assert !(ds + read <= ds + [p] + [q]);
    }
  }

  /** With the bytes that the stream has put on the wire since the packet connection was made. */
  ghost predicate SafeUnlessCut(written: seq<byte>, head: seq<byte>, ks: seq<Call>) {
    && |head| <= |written|
    && (NextIsSafe(written[|head|..], Datagrams(ks)) <==> NoneCut(ks))
  }

  lemma SafeBehind(head: seq<byte>, ks: seq<Call>)
    requires AllOk(ks) && NothingAfterCut(ks)
    ensures SafeUnlessCut(head + CallsOut(ks), head, ks)
  {
    assert (head + CallsOut(ks))[|head|..] == CallsOut(ks);
    SafeExactly(ks);
  }

  /** So it is in every state of every run. */
  lemma SafeInRun(sts: seq<State>, ss: seq<Sender>, moves: seq<Move>, c: bool, id: Id,
                  version: seq<byte> -> Option<int>, k: nat)
    requires IsDatagramRun(sts, ss, moves, c, id, version) && k < |sts| && ss[k].Made?
    requires NothingAfterCut(ss[k].Calls())
    ensures SafeUnlessCut(sts[k].End(c).Obj(id).sent.written, ss[k].head, ss[k].Calls())
  {
    SenderRunOk(sts, ss, moves, c, id, version, k);
    CallsBytes(sts[k], ss[k], c, id);
    SafeBehind(ss[k].head, ss[k].Calls());
  }

  /** A datagram of the largest size, all ones, with an empty one after it: what is read was never sent. */
  lemma CutMisread() returns (p: seq<byte>, q: seq<byte>)
    ensures |p| == MAX_FRAME_DATA && q == []
    ensures var r := ParsePayload(FirstFrame(p) + EncodePayload(q)); r.Some? && r.value.0 != p && r.value.0 != q
    ensures !(ParsePayloads(FirstFrame(p) + EncodePayload(q)) <= [p, q])
  {
    p, q := seq(MAX_FRAME_DATA, i => 1), [];
    CutReads(p, EncodePayload(q));
    CutThenNext(p, q);
    assert PutUint16(0)[..2][0] == 0 && p[MAX_FRAME_DATA - 2..][0] == 1;
  }
}

/** Runs from the start in which the reader does not get what the writer wrote. */
module MuxExamples {
  import opened Bytes
  import opened Options
  import opened WireFormat
  import opened Mux
  import opened MuxFlow
  import opened MuxRuns
  import opened MuxReads
  import opened MuxDatagrams
  import opened MuxCuts
  import opened Streams

  // ---- Runs ----

  /** A run to last that fits the mode. */
  ghost predicate Leads(mode: Mode, last: State, s: Sender, version: seq<byte> -> Option<int>) {
    exists sts, ss, moves ::
      && IsDatagramRun(sts, ss, moves, true, 1, version) && MovesFit(mode, sts, moves)
      && sts[|moves|] == last && ss[|moves|] == s
  }

  /** One more move of a run. */
  lemma MoreMoves(mode: Mode, sts: seq<State>, ss: seq<Sender>, moves: seq<Move>, version: seq<byte> -> Option<int>,
                  m: Move, st': State, s': Sender)
    requires IsDatagramRun(sts, ss, moves, true, 1, version) && MovesFit(mode, sts, moves)
    requires Follows(sts[|moves|], ss[|moves|], m, st', s', true, 1, version) && MoveFits(mode, sts[|moves|], m)
    ensures IsDatagramRun(sts + [st'], ss + [s'], moves + [m], true, 1, version)
    ensures MovesFit(mode, sts + [st'], moves + [m])
  {
    var sts', ss', moves' := sts + [st'], ss + [s'], moves + [m];
    forall i | 0 <= i < |moves'|
      ensures Follows(sts'[i], ss'[i], moves'[i], sts'[i + 1], ss'[i + 1], true, 1, version)
      ensures MoveFits(mode, sts'[i], moves'[i])
    {
      if i < |moves| {
        assert moves'[i] == moves[i];
      }
    }
  }

  lemma LeadsNext(mode: Mode, st: State, s: Sender, version: seq<byte> -> Option<int>, m: Move)
    requires Leads(mode, st, s, version) && MayMove(st, s, m, true, 1) && MoveFits(mode, st, m)
    ensures Leads(mode, Next(st, m, version), Moved(st, s, m, true, 1), version)
  {
    var sts, ss, moves :| IsDatagramRun(sts, ss, moves, true, 1, version) && MovesFit(mode, sts, moves)
      && sts[|moves|] == st && ss[|moves|] == s;
    MoreMoves(mode, sts, ss, moves, version, m, Next(st, m, version), Moved(st, s, m, true, 1));
    var sts', ss' := sts + [Next(st, m, version)], ss + [Moved(st, s, m, true, 1)];
    assert sts'[|moves + [m]|] == Next(st, m, version) && ss'[|moves + [m]|] == Moved(st, s, m, true, 1);
  }

  /** A step that is no Write on the stream. */
  lemma LeadsBy(mode: Mode, st: State, s: Sender, version: seq<byte> -> Option<int>, a: Action)
    requires Leads(mode, st, s, version) && Enabled(st, a) && !WritesOn(a, true, 1) && StepFits(mode, st, a)
    ensures Leads(mode, Step(st, a, version), s, version)
  {
    LeadsNext(mode, st, s, version, Do(a));
  }

  /** One more step of a run. */
  lemma Extend(sts: seq<State>, acts: seq<Action>, version: seq<byte> -> Option<int>, a: Action)
    requires IsRun(sts, acts, version) && Enabled(sts[|acts|], a)
    ensures IsRun(sts + [Step(sts[|acts|], a, version)], acts + [a], version)
  {
    var sts', acts' := sts + [Step(sts[|acts|], a, version)], acts + [a];
    forall i | 0 <= i < |acts'|
      ensures Enabled(sts'[i], acts'[i]) && sts'[i + 1] == Step(sts'[i], acts'[i], version)
    {
      if i < |acts| {
        assert acts'[i] == acts[i] && sts'[i] == sts[i] && sts'[i + 1] == sts[i + 1];
      }
    }
  }

  /** A run of the two sessions to last. */
  ghost predicate Reaches(last: State, version: seq<byte> -> Option<int>) {
    exists sts, acts :: IsRun(sts, acts, version) && sts[|acts|] == last
  }

  /** A run with a packet connection is a run of the two sessions. */
  lemma {:induction false} SessionsRun(sts: seq<State>, ss: seq<Sender>, moves: seq<Move>,
                                       version: seq<byte> -> Option<int>, k: nat)
    requires IsDatagramRun(sts, ss, moves, true, 1, version) && k < |sts|
    ensures Reaches(sts[k], version)
  {
    if k == 0 {
      assert IsRun([INIT], [], version);
    } else {
      SessionsRun(sts, ss, moves, version, k - 1);
      assert Follows(sts[k - 1], ss[k - 1], moves[k - 1], sts[k], ss[k], true, 1, version);
      if moves[k - 1].Do? {
        var run, acts :| IsRun(run, acts, version) && run[|acts|] == sts[k - 1];
        Extend(run, acts, version, moves[k - 1].a);
        assert (run + [sts[k]])[|acts + [moves[k - 1].a]|] == sts[k];
      }
    }
  }

  // ---- A client that writes and a server that takes ----

  /** A client with stream 1 announced, and what it has put on the wire. */
  ghost predicate ClientAt(st: State, written: seq<byte>) {
    && st.client.calls.synSent == {1} && st.client.table.objs.Keys == {1} && !st.client.closed
    && st.client.Obj(1).sent == Sent(written, written, false)
  }

  /** A server that has been told of stream 1 and holds these chunks for it. */
  ghost predicate ServerAt(e: Endpoint, queue: seq<seq<byte>>) {
    ServerHas(e, Inbox([], [], [], queue))
  }

  ghost predicate ServerHas(e: Endpoint, b: Inbox) {
    && !e.closed && !e.isClient && e.table.known == {1} && e.table.objs.Keys == {1}
    && !e.Obj(1).closed && !e.Obj(1).local && e.Obj(1).inbox == b
  }

  lemma ServerTaking(e: Endpoint, f: Frame, version: seq<byte> -> Option<int>, queue: seq<seq<byte>>)
    ensures e == NewEndpoint(false) && Kind(f.cmd).Settings? ==>
      var e' := e.Take(f, false, version);
      e'.handshake.received && !e'.closed && !e'.isClient && e'.table == Table(map[], {})
    ensures
      (e.handshake.received && !e.closed && !e.isClient
       && e.table == Table(map[], {}) && f == Frame(CMD_SYN, 1, [])) ==>
        ServerAt(e.Take(f, false, version), [])
    ensures ServerAt(e, queue) && Kind(f.cmd).Payload? && f.streamID == 1 ==>
      ServerAt(e.Take(f, false, version), queue + [f.data])
  {
  }

  /** A call takes the lock, puts one frame on the wire, and gives the lock back. */
  lemma CallLeads(mode: Mode, st: State, past: seq<Call>, version: seq<byte> -> Option<int>, written: seq<byte>,
                  p: seq<byte>)
    returns (st': State, k: Call)
    requires Leads(mode, st, Made([], past, None), version) && ClientAt(st, written) && |p| <= MAX_FRAME_DATA
    ensures k == Call(p, Chunks(EncodePayload(p))[0], Chunks(EncodePayload(p))[1..])
    ensures Leads(mode, st', Made([], past + [k], None), version) && ClientAt(st', written + k.out)
    ensures st'.server == st.server && st'.toServer == st.toServer + [Frame(CMD_PSH, 1, k.out)]
  {
    var s, data := Made([], past, Some(Begun(p))), Chunks(EncodePayload(p))[0];
    LeadsNext(mode, st, Made([], past, None), version, Lock(p));
    LeadsNext(mode, st, s, version, Do(Write(true, 1, data)));
    assert [] + data == data;
    st', k := Step(st, Write(true, 1, data), version), Call(p, data, Chunks(EncodePayload(p))[1..]);
    LeadsNext(mode, st', Made([], past, Some(k)), version, Unlock);
  }

  /** The server takes a frame. */
  lemma TakeLeads(mode: Mode, st: State, s: Sender, version: seq<byte> -> Option<int>, written: seq<byte>)
    returns (st': State)
    requires Leads(mode, st, s, version) && ClientAt(st, written)
    requires st.toServer != [] && st.server.CanTake(st.toServer[0], false)
    ensures Leads(mode, st', s, version) && ClientAt(st', written) && st'.toServer == st.toServer[1..]
    ensures st'.server == st.server.Take(st.toServer[0], false, version)
  {
    LeadsBy(mode, st, s, version, Receive(false, false));
    st' := Step(st, Receive(false, false), version);
  }

  /** It takes the settings and the SYN. */
  lemma StreamLeads(mode: Mode, st: State, s: Sender, version: seq<byte> -> Option<int>, written: seq<byte>,
                    more: seq<Frame>)
    returns (st': State)
    requires Leads(mode, st, s, version) && ClientAt(st, written) && st.server == NewEndpoint(false)
    requires st.toServer == [Frame(CMD_SETTINGS, 0, CLIENT_SETTINGS_TEXT), Frame(CMD_SYN, 1, [])] + more
    ensures Leads(mode, st', s, version) && ClientAt(st', written) && ServerAt(st'.server, []) && st'.toServer == more
  {
    ServerTaking(st.server, st.toServer[0], version, []);
    st' := TakeLeads(mode, st, s, version, written);
    ServerTaking(st'.server, st'.toServer[0], version, []);
    st' := TakeLeads(mode, st', s, version, written);
  }

  /** It takes a payload. */
  lemma PayloadLeads(mode: Mode, st: State, s: Sender, version: seq<byte> -> Option<int>, written: seq<byte>,
                     queue: seq<seq<byte>>, data: seq<byte>, more: seq<Frame>)
    returns (st': State)
    requires Leads(mode, st, s, version) && ClientAt(st, written) && ServerAt(st.server, queue) && |queue| < QUEUE_LIMIT
    requires st.toServer == [Frame(CMD_PSH, 1, data)] + more
    ensures Leads(mode, st', s, version) && ClientAt(st', written) && ServerAt(st'.server, queue + [data])
    ensures st'.toServer == more
  {
    ServerTaking(st.server, st.toServer[0], version, queue);
    st' := TakeLeads(mode, st, s, version, written);
  }

  /** A Read at the server returns the first chunk of the queue. */
  lemma ReadLeads(st: State, s: Sender, version: seq<byte> -> Option<int>, got: seq<byte>, a: seq<byte>,
                  queue: seq<seq<byte>>)
    returns (st': State)
    requires Leads(Whole, st, s, version) && ServerHas(st.server, Inbox(got, [], [], [a] + queue)) && a != []
    ensures Leads(Whole, st', s, version) && ServerHas(st'.server, Inbox(got + a, [], [], queue))
  {
    LeadsBy(Whole, st, s, version, Pull(false, 1));
    st' := Step(st, Pull(false, 1), version);
    assert st'.server.Obj(1).inbox == Inbox(got, [], [a], queue);
    assert [a][..0] == [] && [a][1..] == [] && a + [] == a && [] + a == a;
    LeadsBy(Whole, st', s, version, Store(false, 1, 0));
    st' := Step(st', Store(false, 1, 0), version);
    assert st'.server.Obj(1).inbox == Inbox(got, a, [], queue);
    LeadsBy(Whole, st', s, version, Copy(false, 1, |a|));
    st' := Step(st', Copy(false, 1, |a|), version);
    assert a[..|a|] == a && a[|a|..] == [];
  }

  /** What two calls of the client put on the wire. */
  lemma TwoCallsSent(mode: Mode, version: seq<byte> -> Option<int>, p: seq<byte>, q: seq<byte>)
    returns (st: State, k: Call, l: Call)
    requires |p| <= MAX_FRAME_DATA && |q| <= MAX_FRAME_DATA
    ensures k == Call(p, Chunks(EncodePayload(p))[0], Chunks(EncodePayload(p))[1..])
    ensures l == Call(q, Chunks(EncodePayload(q))[0], Chunks(EncodePayload(q))[1..])
    ensures Leads(mode, st, Made([], [k, l], None), version) && ClientAt(st, k.out + l.out)
    ensures st.server == NewEndpoint(false)
    ensures st.toServer == [Frame(CMD_SETTINGS, 0, CLIENT_SETTINGS_TEXT), Frame(CMD_SYN, 1, [])]
      + [Frame(CMD_PSH, 1, k.out), Frame(CMD_PSH, 1, l.out)]
  {
    assert IsDatagramRun([INIT], [NotMade], [], true, 1, version) && MovesFit(mode, [INIT], []);
    assert Leads(mode, INIT, NotMade, version);
    LeadsBy(mode, INIT, NotMade, version, RunClient);
    st := Step(INIT, RunClient, version);
    LeadsBy(mode, st, NotMade, version, Register);
    st := Step(st, Register, version);
    LeadsBy(mode, st, NotMade, version, SendSyn(1));
    st := Step(st, SendSyn(1), version);
    LeadsNext(mode, st, NotMade, version, Make);
    st, k := CallLeads(mode, st, [], version, [], p);
    st, l := CallLeads(mode, st, [] + [k], version, [] + k.out, q);
    assert [] + [k] + [l] == [k, l] && [] + k.out == k.out;
  }

  /** They arrive. */
  lemma TwoCallsArrive(mode: Mode, version: seq<byte> -> Option<int>, st: State, s: Sender, a: seq<byte>, b: seq<byte>)
    returns (st': State)
    requires Leads(mode, st, s, version) && ClientAt(st, a + b) && st.server == NewEndpoint(false)
    requires st.toServer == [Frame(CMD_SETTINGS, 0, CLIENT_SETTINGS_TEXT), Frame(CMD_SYN, 1, [])]
      + [Frame(CMD_PSH, 1, a), Frame(CMD_PSH, 1, b)]
    ensures Leads(mode, st', s, version) && ClientAt(st', a + b) && ServerAt(st'.server, [a] + [b])
    ensures st'.toServer == []
  {
    var f, g := Frame(CMD_PSH, 1, a), Frame(CMD_PSH, 1, b);
    st' := StreamLeads(mode, st, s, version, a + b, [f, g]);
    assert [f, g] == [f] + [g] && [g] == [g] + [];
    st' := PayloadLeads(mode, st', s, version, a + b, [], a, [g]);
    assert [] + [a] == [a];
    st' := PayloadLeads(mode, st', s, version, a + b, [a], b, []);
  }

  // ---- Two Reads that overlap ----

  /** The server pulls both chunks and stores both. */
  lemma OverlapLeads(st: State, s: Sender, version: seq<byte> -> Option<int>, a: seq<byte>, b: seq<byte>)
    returns (st': State)
    requires Leads(Loose, st, s, version) && ServerAt(st.server, [a] + [b]) && b != []
    ensures Leads(Loose, st', s, version) && st'.client == st.client && st'.toServer == st.toServer
    ensures ServerHas(st'.server, Inbox([], b, [], []))
  {
    OverlapHappens(st, false, 1, version);
    LeadsBy(Loose, st, s, version, Pull(false, 1));
    st' := Step(st, Pull(false, 1), version);
    LeadsBy(Loose, st', s, version, Pull(false, 1));
    st' := Step(st', Pull(false, 1), version);
    LeadsBy(Loose, st', s, version, Store(false, 1, 0));
    st' := Step(st', Store(false, 1, 0), version);
    LeadsBy(Loose, st', s, version, Store(false, 1, 0));
    st' := Step(st', Store(false, 1, 0), version);
    assert st'.server.Obj(1).inbox == Inbox([], b, [], []);
  }

  /** A run from the start in which the client writes a and b and the server, which has not closed the stream, reads
    * only b: what was written first is lost. */
  lemma LossyRun(version: seq<byte> -> Option<int>) returns (st: State, a: seq<byte>, b: seq<byte>)
    ensures Reaches(st, version) && a != [] && b != []
    ensures st.client.Obj(1).sent.written == a + b && st.server.Obj(1).inbox == Inbox(b, [], [], [])
    ensures !st.server.Obj(1).local && !Conserved(st, false, 1)
  {
    var k, l;
    st, k, l := TwoCallsSent(Loose, version, [], []);
    a, b := k.out, l.out;
    var s := Made([], [k, l], None);
    st := TwoCallsArrive(Loose, version, st, s, a, b);
    st := OverlapLeads(st, s, version, a, b);
    LeadsBy(Loose, st, s, version, Copy(false, 1, |b|));
    st := Step(st, Copy(false, 1, |b|), version);
    assert [] + b == b && b[..|b|] == b && b[|b|..] == [];
    var sts, ss, moves :| IsDatagramRun(sts, ss, moves, true, 1, version) && sts[|moves|] == st;
    SessionsRun(sts, ss, moves, version, |moves|);
    assert Received(st.server.Obj(1).inbox) == b && On(st.toServer, 1).live == [];
  }

  // ---- A call that is cut ----

  /** The server reads both chunks. */
  lemma TwoCallsRead(version: seq<byte> -> Option<int>, st: State, s: Sender, a: seq<byte>, b: seq<byte>)
    returns (st': State)
    requires Leads(Whole, st, s, version) && ServerAt(st.server, [a] + [b]) && a != [] && b != []
    ensures Leads(Whole, st', s, version) && ServerHas(st'.server, Inbox(a + b, [], [], []))
  {
    st' := ReadLeads(st, s, version, [], a, [b]);
    assert [] + a == a && [b] == [b] + [];
    st' := ReadLeads(st', s, version, a, b, []);
  }

  /** A run from the start, every chunk pending in place, in which the first of two calls fails between its frames,
    * and the server reads a datagram that was never sent. */
  lemma MisreadRun(version: seq<byte> -> Option<int>) returns (st: State, s: Sender)
    ensures Leads(Whole, st, s, version) && s.Made? && s.head == [] && !st.server.Obj(1).local
    ensures |s.past| == 2 && IsCut(s.past[0]) && s.past[1].left == []
    ensures !(ParsePayloads(st.server.Obj(1).inbox.delivered) <= Datagrams(s.Calls()))
  {
    var p, q := CutMisread();
    var k, l;
    st, k, l := TwoCallsSent(Whole, version, p, q);
    s := Made([], [k, l], None);
    st := TwoCallsArrive(Whole, version, st, s, k.out, l.out);
    st := TwoCallsRead(version, st, s, k.out, l.out);
    assert k.out == FirstFrame(p) && l.out == EncodePayload(q);
    assert s.Calls() == [k, l] && [k, l][1..] == [l] && [l][1..] == [] && [p] + [q] == [p, q];
  }
}
