/** Datagrams over one stream of the multiplexer, each written by a call that holds a lock (server/anytls/uot.go). */
module MuxDatagrams {
  import opened Bytes
  import opened Options
  import opened Seqs
  import opened WireFormat
  import opened Mux
  import opened MuxFlow
  import opened MuxRuns
  import opened Streams

  // ---- The calls ----

  /** A call of writePayload: its datagram, the bytes that have gone out, and the frames that have not. */
  datatype Call = Call(p: seq<byte>, out: seq<byte>, left: seq<seq<byte>>)

  /** The packet connection of a stream: what the stream had written when it was made, the calls that have returned,
    * and the one that holds the lock. */
  datatype Sender = NotMade | Made(head: seq<byte>, past: seq<Call>, current: Option<Call>)
  {
    function Calls(): seq<Call> {
      if NotMade? then [] else if current.None? then past else past + [current.value]
    }
  }

  /** A datagram that is too large is refused before anything goes out. */
  ghost function Begun(p: seq<byte>): Call {
    Call(p, [], if |p| > MAX_FRAME_DATA then [] else Chunks(EncodePayload(p)))
  }

  /** A step of either session, or of the packet connection: it is made, a call takes the lock, and gives it back,
    * with frames left if it fails. */
  datatype Move = Do(a: Action) | Make | Lock(p: seq<byte>) | Unlock

  predicate WritesOn(a: Action, c: bool, id: Id) {
    a.Write? && a.atClient == c && a.id == id
  }

  ghost predicate MayMove(st: State, s: Sender, m: Move, c: bool, id: Id) {
    match m
    case Do(a) =>
      Enabled(st, a) && (s.Made? && WritesOn(a, c, id) ==>
        s.current.Some? && s.current.value.left != [] && a.data == s.current.value.left[0])
    case Make => s.NotMade?
    case Lock(p) => s.Made? && s.current.None?
    case Unlock => s.Made? && s.current.Some?
  }

  ghost function Moved(st: State, s: Sender, m: Move, c: bool, id: Id): Sender
    requires MayMove(st, s, m, c, id)
  {
    match m
    case Do(a) =>
      if WritesOn(a, c, id) && s.Made?
      then s.(current := Some(Call(s.current.value.p, s.current.value.out + a.data, s.current.value.left[1..])))
      else s
    case Make => Made(st.End(c).Obj(id).sent.written, [], None)
    case Lock(p) => s.(current := Some(Begun(p)))
    case Unlock => Made(s.head, s.past + [s.current.value], None)
  }

  ghost function Next(st: State, m: Move, version: seq<byte> -> Option<int>): State
    requires m.Do? ==> Enabled(st, m.a)
  {
    if m.Do? then Step(st, m.a, version) else st
  }

  /** The move m from one state to the next. */
  ghost predicate Follows(st: State, s: Sender, m: Move, st': State, s': Sender, c: bool, id: Id,
                          version: seq<byte> -> Option<int>)
  {
    MayMove(st, s, m, c, id) && st' == Next(st, m, version) && s' == Moved(st, s, m, c, id)
  }

  /** A run of the two sessions with one packet connection, over the stream id of the end at c. */
  ghost predicate IsDatagramRun(sts: seq<State>, ss: seq<Sender>, moves: seq<Move>, c: bool, id: Id,
                                version: seq<byte> -> Option<int>)
  {
    && |sts| == |moves| + 1 && |ss| == |moves| + 1 && sts[0] == INIT && ss[0] == NotMade
    && forall i {:trigger moves[i]} :: 0 <= i < |moves| ==>
      Follows(sts[i], ss[i], moves[i], sts[i + 1], ss[i + 1], c, id, version)
  }

  ghost predicate MoveFits(mode: Mode, st: State, m: Move) {
    m.Do? ==> StepFits(mode, st, m.a)
  }

  ghost predicate MovesFit(mode: Mode, sts: seq<State>, moves: seq<Move>)
    requires |sts| == |moves| + 1
  {
    forall i {:trigger moves[i]} :: 0 <= i < |moves| ==> MoveFits(mode, sts[i], moves[i])
  }

  // ---- What the calls have written ----

  /** Nothing has gone out, or everything, or the first of two frames. */
  ghost predicate CallOk(k: Call) {
    if |k.p| > MAX_FRAME_DATA then k.out == [] && k.left == []
    else
      var e := EncodePayload(k.p);
      || (k.out == [] && k.left == Chunks(e)) || (k.out == e && k.left == [])
      || (|e| > MAX_FRAME_DATA && k.out == e[..MAX_FRAME_DATA] && k.left == [e[MAX_FRAME_DATA..]])
  }

  lemma PieceOk(k: Call)
    requires CallOk(k) && k.left != []
    ensures CallOk(Call(k.p, k.out + k.left[0], k.left[1..]))
  {
    var e := EncodePayload(k.p);
    assert [] + e == e && e == e[..|e|];
    if |e| > MAX_FRAME_DATA {
      assert e == e[..MAX_FRAME_DATA] + e[MAX_FRAME_DATA..];
      assert Chunks(e) == [e[..MAX_FRAME_DATA]] + [e[MAX_FRAME_DATA..]];
      assert [] + e[..MAX_FRAME_DATA] == e[..MAX_FRAME_DATA];
    }
  }

  ghost function CallsOut(ks: seq<Call>): seq<byte> {
    if ks == [] then [] else ks[0].out + CallsOut(ks[1..])
  }

  lemma {:induction false} CallsOutLast(ks: seq<Call>, k: Call)
    ensures CallsOut(ks + [k]) == CallsOut(ks) + k.out
  {
    if ks == [] {
      assert [] + [k] == [k];
    } else {
      assert (ks + [k])[1..] == ks[1..] + [k];
      CallsOutLast(ks[1..], k);
    }
  }

  ghost predicate SenderOk(st: State, s: Sender, c: bool, id: Id) {
    s.Made? ==>
      && (forall k :: k in s.past ==> CallOk(k)) && (s.current.Some? ==> CallOk(s.current.value))
      && st.End(c).Obj(id).sent.written
        == s.head + CallsOut(s.past) + (if s.current.Some? then s.current.value.out else [])
  }

  /** Only a Write on the stream adds to what it has written. */
  lemma WrittenKept(mode: Mode, st: State, a: Action, version: seq<byte> -> Option<int>, c: bool, id: Id)
    requires Inv(mode, st) && Enabled(st, a) && !WritesOn(a, c, id)
    ensures Step(st, a, version).End(c).Obj(id).sent.written == st.End(c).Obj(id).sent.written
  {
    if a.Receive? {
      Prepared(mode, st, a.atClient, a.drop);
      TakeSends(st.End(a.atClient), st.Wire(a.atClient)[0], a.drop, version, id);
    } else if !a.Register? {
      OtherWrites(st, a, version, c, id);
    }
  }

  lemma OtherWrites(st: State, a: Action, version: seq<byte> -> Option<int>, c: bool, id: Id)
    requires Enabled(st, a) && !WritesOn(a, c, id) && !a.Receive? && !a.Register?
    ensures Step(st, a, version).End(c).Obj(id).sent.written == st.End(c).Obj(id).sent.written
  {
  }

  lemma WriteAdds(st: State, c: bool, id: Id, data: seq<byte>, version: seq<byte> -> Option<int>)
    requires Enabled(st, Write(c, id, data))
    ensures Step(st, Write(c, id, data), version).End(c).Obj(id).sent.written == st.End(c).Obj(id).sent.written + data
  {
  }

  /** A Write of the call that holds the lock. */
  lemma PieceWritten(st: State, s: Sender, data: seq<byte>, c: bool, id: Id, version: seq<byte> -> Option<int>)
    requires SenderOk(st, s, c, id) && MayMove(st, s, Do(Write(c, id, data)), c, id)
    ensures SenderOk(Step(st, Write(c, id, data), version), Moved(st, s, Do(Write(c, id, data)), c, id), c, id)
  {
    WriteAdds(st, c, id, data, version);
    if s.Made? {
      PieceOk(s.current.value);
      AppendAssoc(s.head + CallsOut(s.past), s.current.value.out, data);
    }
  }

  lemma ActionWritten(mode: Mode, st: State, s: Sender, a: Action, c: bool, id: Id, version: seq<byte> -> Option<int>)
    requires Inv(mode, st) && SenderOk(st, s, c, id) && MayMove(st, s, Do(a), c, id)
    ensures SenderOk(Step(st, a, version), Moved(st, s, Do(a), c, id), c, id)
  {
    if WritesOn(a, c, id) {
      PieceWritten(st, s, a.data, c, id, version);
    } else {
      WrittenKept(mode, st, a, version, c, id);
    }
  }

  /** Taking the lock and giving it back writes nothing. */
  lemma LockWritten(st: State, s: Sender, m: Move, c: bool, id: Id)
    requires SenderOk(st, s, c, id) && MayMove(st, s, m, c, id) && !m.Do?
    ensures SenderOk(st, Moved(st, s, m, c, id), c, id)
  {
    if m.Unlock? {
      CallsOutLast(s.past, s.current.value);
      AppendAssoc(s.head, CallsOut(s.past), s.current.value.out);
    }
  }

  lemma {:induction false} DatagramRunOk(mode: Mode, sts: seq<State>, ss: seq<Sender>, moves: seq<Move>, c: bool,
                                         id: Id, version: seq<byte> -> Option<int>, k: nat)
    requires IsDatagramRun(sts, ss, moves, c, id, version) && MovesFit(mode, sts, moves) && k < |sts|
    ensures Inv(mode, sts[k]) && SenderOk(sts[k], ss[k], c, id)
  {
    if k == 0 {
      InitInv(mode);
    } else {
      DatagramRunOk(mode, sts, ss, moves, c, id, version, k - 1);
      var st, s, m := sts[k - 1], ss[k - 1], moves[k - 1];
      assert Follows(st, s, m, sts[k], ss[k], c, id, version);
      if m.Do? {
        StepInv(mode, st, m.a, version);
        ActionWritten(mode, st, s, m.a, c, id, version);
      } else {
        LockWritten(st, s, m, c, id);
      }
    }
  }

  lemma SenderRunOk(sts: seq<State>, ss: seq<Sender>, moves: seq<Move>, c: bool, id: Id,
                    version: seq<byte> -> Option<int>, k: nat)
    requires IsDatagramRun(sts, ss, moves, c, id, version) && k < |sts|
    ensures SenderOk(sts[k], ss[k], c, id)
  {
    DatagramRunOk(Loose, sts, ss, moves, c, id, version, k);
  }

  // ---- What the other end reads ----

  /** Some of the datagram has gone out, and some has not. */
  predicate IsCut(k: Call) {
    k.out != [] && k.left != []
  }

  /** The datagrams of which anything has gone out. */
  function Datagrams(ks: seq<Call>): seq<seq<byte>> {
    if ks == [] then [] else (if ks[0].out == [] then [] else [ks[0].p]) + Datagrams(ks[1..])
  }

  /** No call after a cut one has put anything out. */
  ghost predicate NothingAfterCut(ks: seq<Call>) {
    forall i, j :: 0 <= i < j < |ks| && IsCut(ks[i]) ==> ks[j].out == []
  }

  lemma {:induction false} NothingOut(ks: seq<Call>)
    requires forall i :: 0 <= i < |ks| ==> ks[i].out == []
    ensures CallsOut(ks) == [] && Datagrams(ks) == []
  {
    if ks != [] {
      NothingOut(ks[1..]);
    }
  }

  lemma {:induction false} CallsPrefix(ks: seq<Call>)
    requires NothingAfterCut(ks) && forall k :: k in ks ==> CallOk(k)
    ensures PayloadsOk(Datagrams(ks)) && CallsOut(ks) <= EncodePayloads(Datagrams(ks))
  {
    if ks != [] {
      var k, rest := ks[0], ks[1..];
      assert forall i :: 0 <= i < |rest| ==> rest[i] == ks[i + 1];
      CallsPrefix(rest);
      if IsCut(k) {
        NothingOut(rest);
      }
      OneCall(k, rest);
    }
  }

  lemma OneCall(k: Call, rest: seq<Call>)
    requires CallOk(k) && (IsCut(k) ==> CallsOut(rest) == [] && Datagrams(rest) == [])
    requires PayloadsOk(Datagrams(rest)) && CallsOut(rest) <= EncodePayloads(Datagrams(rest))
    ensures PayloadsOk(Datagrams([k] + rest)) && CallsOut([k] + rest) <= EncodePayloads(Datagrams([k] + rest))
  {
    assert ([k] + rest)[1..] == rest;
    if k.out == [] {
      assert [] + Datagrams(rest) == Datagrams(rest) && [] + CallsOut(rest) == CallsOut(rest);
    } else {
      var ds, e := [k.p] + Datagrams(rest), EncodePayload(k.p);
      assert ds[1..] == Datagrams(rest);
      assert EncodePayloads(ds) == e + EncodePayloads(Datagrams(rest));
      if IsCut(k) {
        assert k.out + [] == k.out && k.out <= e;
        PrefixOfSum(k.out, e, EncodePayloads(Datagrams(rest)));
      }
    }
  }

  lemma PrefixOfSum(a: seq<byte>, b: seq<byte>, c: seq<byte>)
    requires a <= b
    ensures a <= b + c
  {
  }

  /** Reading the bytes of the calls, from any prefix: the first datagrams of those written. */
  lemma ReadsOfCalls(ks: seq<Call>, got: seq<byte>)
    requires NothingAfterCut(ks) && forall k :: k in ks ==> CallOk(k)
    requires got <= CallsOut(ks)
    ensures ParsePayloads(got) <= Datagrams(ks)
  {
    CallsPrefix(ks);
    var n := PayloadsPrefix(Datagrams(ks), |got|);
    assert got == EncodePayloads(Datagrams(ks))[..|got|];
  }

  /** However the calls are cut into frames and the frames into Reads, and whatever else goes over the connection: the
    * datagrams that can be read from what was delivered are the first of those written, in order, until the reader
    * closes the stream itself; unless a call that was cut is followed by one that puts something out. */
  lemma DatagramsArePrefix(sts: seq<State>, ss: seq<Sender>, moves: seq<Move>, c: bool, id: Id,
                           version: seq<byte> -> Option<int>, k: nat)
    requires IsDatagramRun(sts, ss, moves, c, id, version) && MovesFit(Whole, sts, moves) && k < |sts| && ss[k].Made?
    requires NothingAfterCut(ss[k].Calls())
    ensures var o := sts[k].End(!c).Obj(id);
            !o.local && |ss[k].head| <= |o.inbox.delivered| ==>
              ParsePayloads(o.inbox.delivered[|ss[k].head|..]) <= Datagrams(ss[k].Calls())
  {
    DatagramRunOk(Whole, sts, ss, moves, c, id, version, k);
    DeliveredDatagrams(sts[k], ss[k], c, id);
  }

  lemma DeliveredDatagrams(st: State, s: Sender, c: bool, id: Id)
    requires Inv(Whole, st) && SenderOk(st, s, c, id) && s.Made?
    requires NothingAfterCut(s.Calls())
    ensures var o := st.End(!c).Obj(id);
            !o.local && |s.head| <= |o.inbox.delivered| ==>
              ParsePayloads(o.inbox.delivered[|s.head|..]) <= Datagrams(s.Calls())
  {
    DeliveredIsPrefix(st, !c, id);
    CallsBytes(st, s, c, id);
    var got := st.End(!c).Obj(id).inbox.delivered;
    if !st.End(!c).Obj(id).local && |s.head| <= |got| {
      PastHead(s.head, CallsOut(s.Calls()), got);
      ReadsOfCalls(s.Calls(), got[|s.head|..]);
    }
  }

  lemma PastHead(head: seq<byte>, tail: seq<byte>, got: seq<byte>)
    requires got <= head + tail && |head| <= |got|
    ensures got[|head|..] <= tail
  {
    assert got == (head + tail)[..|got|];
    assert got[|head|..] == tail[..|got| - |head|];
  }

  lemma CallsBytes(st: State, s: Sender, c: bool, id: Id)
    requires SenderOk(st, s, c, id) && s.Made?
    ensures forall k :: k in s.Calls() ==> CallOk(k)
    ensures st.End(c).Obj(id).sent.written == s.head + CallsOut(s.Calls())
  {
    if s.current.Some? {
      CallsOutLast(s.past, s.current.value);
      AppendAssoc(s.head, CallsOut(s.past), s.current.value.out);
    } else {
      assert s.head + CallsOut(s.past) + [] == s.head + CallsOut(s.past);
    }
  }

  /** A datagram that fits in one frame is never cut. */
  lemma SmallNeverCut(sts: seq<State>, ss: seq<Sender>, moves: seq<Move>, c: bool, id: Id,
                      version: seq<byte> -> Option<int>, k: nat)
    requires IsDatagramRun(sts, ss, moves, c, id, version) && k < |sts|
    ensures forall call :: call in ss[k].Calls() && IsCut(call) ==> MAX_FRAME_DATA - 2 < |call.p| <= MAX_FRAME_DATA
  {
    SenderRunOk(sts, ss, moves, c, id, version, k);
  }
}
