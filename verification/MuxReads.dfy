/** Exactly which Reads keep a stream's bytes, and what two that overlap do to them. */
module MuxReads {
  import opened Bytes
  import opened Options
  import opened Mux
  import opened MuxFlow
  import opened MuxRuns

  // ---- When a run conserves every stream ----

  /** A Store that is not in place breaks the balance of a stream that counts. */
  lemma StoreBreaks(st: State, c: bool, i: Id, k: nat, version: seq<byte> -> Option<int>)
    requires Enabled(st, Store(c, i, k)) && Counting(st, c, i) && Conserved(st, c, i)
    requires !InPlace(st.End(c).Obj(i).inbox, k)
    ensures !Conserved(Step(st, Store(c, i, k), version), c, i)
  {
    var b := st.End(c).Obj(i).inbox;
    StoreKeeps(b, k);
    SameEnd(Received(b), Received(Stored(b, k)), On(st.Wire(c), i).live);
  }

  lemma SameEnd(a: seq<byte>, b: seq<byte>, end: seq<byte>)
    ensures a + end == b + end ==> a == b
  {
    if a + end == b + end {
      assert |a| == |b|;
      assert a == (a + end)[..|a|] && b == (b + end)[..|b|];
    }
  }

  /** A run conserves every stream in every state exactly when each chunk that becomes pending, on a stream that
    * counts, does so in place. */
  lemma ConservedExactly(sts: seq<State>, acts: seq<Action>, version: seq<byte> -> Option<int>)
    requires IsRun(sts, acts, version)
    ensures (forall k, c, id :: 0 <= k < |sts| ==> Conserved(sts[k], c, id)) <==> RunFits(Balanced, sts, acts)
  {
    if RunFits(Balanced, sts, acts) {
      forall k, c, id | 0 <= k < |sts| ensures Conserved(sts[k], c, id) {
        Conservation(sts, acts, version, k, c, id);
      }
    }
    if !RunFits(Balanced, sts, acts) {
      var i :| 0 <= i < |acts| && !StepFits(Balanced, sts[i], acts[i]);
      var c, id := acts[i].atClient, acts[i].id;
      if Conserved(sts[i], c, id) {
        StoreBreaks(sts[i], c, id, acts[i].k, version);
        assert !Conserved(sts[i + 1], c, id);
      }
    }
  }

  // ---- Two Reads that overlap ----

  /** Two Reads that overlap: each takes a chunk from the queue, then each makes its own pending. */
  function Overlapped(b: Inbox): Inbox
    requires |b.queue| >= 2 && b.hands == []
  {
    Stored(Stored(Pulled(Pulled(b)), 0), 0)
  }

  /** The second to store overwrites the first: the older chunk is lost. */
  lemma OverlapLoses(b: Inbox)
    requires |b.queue| >= 2 && b.hands == [] && b.pending == []
    ensures Received(b) == b.delivered + b.queue[0] + b.queue[1] + Flat(b.queue[2..])
    ensures Received(Overlapped(b)) == b.delivered + b.queue[1] + Flat(b.queue[2..])
  {
    assert b.queue[1..][1..] == b.queue[2..];
    assert Flat(b.queue) == b.queue[0] + (b.queue[1] + Flat(b.queue[2..]));
    var h := Pulled(Pulled(b)).hands;
    assert h == [b.queue[0], b.queue[1]];
    assert h[..0] + h[1..] == [b.queue[1]] && [b.queue[1]][..0] + [b.queue[1]][1..] == [];
    assert Overlapped(b) == Inbox(b.delivered, b.queue[1], [], b.queue[2..]);
  }

  /** And the session lets it happen. */
  lemma OverlapHappens(st: State, c: bool, id: Id, version: seq<byte> -> Option<int>)
    requires st.Has(c, id) && |st.End(c).Obj(id).inbox.queue| >= 2 && st.End(c).Obj(id).inbox.hands == []
    ensures Enabled(st, Pull(c, id))
    ensures var st1 := Step(st, Pull(c, id), version);
            Enabled(st1, Pull(c, id)) &&
            var st2 := Step(st1, Pull(c, id), version);
            Enabled(st2, Store(c, id, 0)) &&
            var st3 := Step(st2, Store(c, id, 0), version);
            Enabled(st3, Store(c, id, 0)) &&
            Step(st3, Store(c, id, 0), version).End(c).Obj(id).inbox == Overlapped(st.End(c).Obj(id).inbox)
  {
  }
}

/** What the calls on a stream come to, step by step. */
module MuxCalls {
  import opened Bytes
  import opened Options
  import opened WireFormat
  import opened Mux
  import opened MuxFlow

  /** st' is st with a new stream id at the client, announced on the wire. */
  ghost predicate Opened(st: State, st': State, id: Id) {
    && st'.Has(true, id) && id in st'.client.table.known && st'.client.calls.nextID == id
    && st'.client.Obj(id).inbox == Inbox([], [], [], []) && st'.client.Obj(id).sent == Sent([], [], false)
    && !st'.client.Obj(id).closed && st'.client.Obj(id).synack == None
    && st'.toServer == st.toServer + [Frame(1, id, [])] && st'.toClient == st.toClient && st'.server == st.server
    && (forall o :: o != id && o in st.client.table.objs ==> st'.client.Obj(o) == st.client.Obj(o))
  }

  /** Opening a stream, in any state of any run: it gets the next id, which no stream had before, is there and new,
    * and its SYN is on the wire. */
  lemma OpenIsTwoSteps(st: State, version: seq<byte> -> Option<int>)
    requires Inv(Loose, st) && Enabled(st, Register)
    ensures var id := st.client.calls.nextID + 1;
            var st1 := Step(st, Register, version);
            && id !in st.client.table.objs && Enabled(st1, SendSyn(id))
            && Opened(st, Step(st1, SendSyn(id), version), id)
  {
    assert Opening(st);
  }

  /** A frame of a Write goes to the back of the wire and counts as written. */
  lemma WriteIsOneFrame(st: State, c: bool, id: Id, data: seq<byte>, version: seq<byte> -> Option<int>)
    requires Enabled(st, Write(c, id, data))
    ensures var st' := Step(st, Write(c, id, data), version);
            && st'.Wire(!c) == st.Wire(!c) + [Frame(2, id, data)] && st'.Wire(c) == st.Wire(c)
            && st'.End(c).Obj(id).sent.written == st.End(c).Obj(id).sent.written + data
            && st'.End(c).Obj(id).inbox == st.End(c).Obj(id).inbox && st'.End(!c) == st.End(!c)
  {
  }

  /** On an empty wire, a frame that is written can be received at once by an open peer that knows the stream and has
    * room for it; its bytes are then the last chunk of the queue. */
  lemma WriteArrives(st: State, c: bool, id: Id, data: seq<byte>, drop: bool, version: seq<byte> -> Option<int>)
    requires Enabled(st, Write(c, id, data)) && st.Wire(!c) == []
    requires var peer := st.End(!c);
             && !peer.closed && id in peer.table.known && id in peer.table.objs && !peer.Obj(id).closed
             && |peer.Obj(id).inbox.queue| < QUEUE_LIMIT
    ensures var st1 := Step(st, Write(c, id, data), version);
            && Enabled(st1, Receive(!c, drop))
            && Arrived(st, Step(st1, Receive(!c, drop), version), c, id, data)
  {
  }

  predicate Arrived(st: State, st': State, c: bool, id: Id, data: seq<byte>) {
    var b, b' := st.End(!c).Obj(id).inbox, st'.End(!c).Obj(id).inbox;
    && b' == b.(queue := b.queue + [data]) && st'.Wire(!c) == [] && st'.Wire(c) == st.Wire(c)
    && st'.End(!c).Obj(id) == st.End(!c).Obj(id).(inbox := b')
    && st'.End(c).Obj(id).sent.written == st.End(c).Obj(id).sent.written + data
  }

  /** Closing a stream takes three steps. After them it is closed and forgotten, the peer is told, and its bytes are
    * what they were; a second Close does nothing. */
  lemma CloseIsThreeSteps(st: State, c: bool, id: Id, version: seq<byte> -> Option<int>)
    requires st.Has(c, id) && !st.End(c).Obj(id).closed && !st.End(c).closed
    ensures Enabled(st, Mark(c, id))
    ensures var st1 := Step(st, Mark(c, id), version);
            && Enabled(st1, Forget(c, id))
            && var st2 := Step(st1, Forget(c, id), version);
               && Enabled(st2, SendFin(c, id))
               && Closed(st, Step(st2, SendFin(c, id), version), c, id)
  {
  }

  predicate Closed(st: State, st': State, c: bool, id: Id) {
    var o, o' := st.End(c).Obj(id), st'.End(c).Obj(id);
    && o'.closed && o'.local && o'.inbox == o.inbox && o'.sent == o.sent.(fin := true)
    && id !in st'.End(c).table.known && st'.End(c).table.known + {id} == st.End(c).table.known + {id}
    && st'.Wire(!c) == st.Wire(!c) + [Frame(3, id, [])] && st'.Wire(c) == st.Wire(c) && st'.End(!c) == st.End(!c)
    && !Enabled(st', Mark(c, id)) && !Enabled(st', Forget(c, id)) && !Enabled(st', SendFin(c, id))
  }

  /** When a session has closed in between, the peer is not told. */
  lemma CloseAfterShut(st: State, c: bool, id: Id, version: seq<byte> -> Option<int>)
    requires Enabled(st, Forget(c, id)) && st.End(c).closed
    ensures var st' := Step(st, Forget(c, id), version);
            id !in st'.End(c).table.known && !Enabled(st', SendFin(c, id)) && st'.Wire(!c) == st.Wire(!c)
  {
  }

  /** Closing a session closes and forgets the streams it knows, and touches nothing else of them. */
  lemma ShutClosesAll(st: State, c: bool, version: seq<byte> -> Option<int>)
    requires Enabled(st, Shut(c))
    ensures var st' := Step(st, Shut(c), version);
            && st'.End(c).closed && st'.End(c).table.known == {} && st'.End(!c) == st.End(!c)
            && st'.toServer == st.toServer && st'.toClient == st.toClient
            && st'.End(c).table.objs.Keys == st.End(c).table.objs.Keys
            && forall id :: id in st.End(c).table.objs ==>
                 var o := st.End(c).Obj(id);
                 st'.End(c).Obj(id) == o.(closed := o.closed || id in st.End(c).table.known)
  {
  }

  /** A dial goes by the version on record, or 1, and returns the stream once it may. */
  lemma DialIsTwoSteps(st: State, id: Id, version: seq<byte> -> Option<int>)
    requires Enabled(st, Decide(id))
    ensures var st' := Step(st, Decide(id), version);
            var v := if st.client.handshake.version == 0 then 1 else st.client.handshake.version;
            && id in st'.client.calls.decided && st'.client.calls.decided[id] == v
            && (Enabled(st', Dial(id)) <==> v < 2 || st.client.Obj(id).synack == Some([]))
            && (Enabled(st', Dial(id)) ==> id in Step(st', Dial(id), version).client.calls.dialed)
  {
  }
}
