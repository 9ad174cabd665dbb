/** A stream as its own code runs it: the chunks of Write, the rounds of Read (server/anytls/stream.go). */
module Streams {
  import opened Bytes
  import opened Options
  import opened Seqs
  import opened WireFormat
  import opened Mux
  import opened MuxFlow

  type Time = nat

  /** The pieces that Write cuts its argument into. */
  ghost function Chunks(b: seq<byte>): (cs: seq<seq<byte>>)
    decreases |b|
  {
    if b == [] then [] else if |b| <= MAX_FRAME_DATA then [b] else [b[..MAX_FRAME_DATA]] + Chunks(b[MAX_FRAME_DATA..])
  }

  lemma {:induction false} ChunksJoin(b: seq<byte>)
    ensures Flat(Chunks(b)) == b
    ensures forall c :: c in Chunks(b) ==> 0 < |c| <= MAX_FRAME_DATA
    ensures |Chunks(b)| == (|b| + MAX_FRAME_DATA - 1) / MAX_FRAME_DATA
    decreases |b|
  {
    if b != [] && |b| <= MAX_FRAME_DATA {
      assert Flat([b]) == b by { assert [b][1..] == []; }
    } else if b != [] {
      ChunksJoin(b[MAX_FRAME_DATA..]);
      assert b == b[..MAX_FRAME_DATA] + b[MAX_FRAME_DATA..];
    }
  }

  /** Cutting may be done piece by piece, as long as every piece but the last is full. */
  lemma {:induction false} ChunksMore(b: seq<byte>, k: nat, n: nat)
    requires k * MAX_FRAME_DATA == n < |b|
    ensures var end := if n + MAX_FRAME_DATA > |b| then |b| else n + MAX_FRAME_DATA;
            Chunks(b[..end]) == Chunks(b[..n]) + [b[n..end]]
    decreases k
  {
    var end := if n + MAX_FRAME_DATA > |b| then |b| else n + MAX_FRAME_DATA;
    if k == 0 {
      assert b[..end] == b[n..end];
    } else {
      ChunksMore(b[MAX_FRAME_DATA..], k - 1, n - MAX_FRAME_DATA);
      assert b[..end][..MAX_FRAME_DATA] == b[..MAX_FRAME_DATA] == b[..n][..MAX_FRAME_DATA];
      assert b[..end][MAX_FRAME_DATA..] == b[MAX_FRAME_DATA..][..end - MAX_FRAME_DATA];
      assert b[..n][MAX_FRAME_DATA..] == b[MAX_FRAME_DATA..][..n - MAX_FRAME_DATA];
      assert b[n..end] == b[MAX_FRAME_DATA..][n - MAX_FRAME_DATA..end - MAX_FRAME_DATA];
      if n == MAX_FRAME_DATA {
        assert Chunks(b[..n]) == [b[..n]];
      }
    }
  }

  ghost function PshFrames(id: Id, cs: seq<seq<byte>>): (fs: seq<Frame>) {
    if cs == [] then [] else PshFrames(id, cs[..|cs| - 1]) + [Frame(CMD_PSH, id, cs[|cs| - 1])]
  }

  /** On the wire, one Write adds its bytes to its own stream's traffic and nothing to any other's. */
  lemma {:induction false} WriteCarries(w: seq<Frame>, id: Id, cs: seq<seq<byte>>, other: Id)
    requires !On(w, id).fin
    ensures var w' := w + PshFrames(id, cs);
            On(w', id).live == On(w, id).live + Flat(cs) && !On(w', id).fin
            && (other != id ==> On(w', other) == On(w, other))
  {
    if cs == [] {
      assert w + PshFrames(id, cs) == w;
    } else {
      var front, c := cs[..|cs| - 1], cs[|cs| - 1];
      WriteCarries(w, id, front, other);
      assert cs == front + [c];
      FlatAppend(front, c);
      assert w + PshFrames(id, cs) == (w + PshFrames(id, front)) + [Frame(CMD_PSH, id, c)];
      PutOne(w + PshFrames(id, front), Frame(CMD_PSH, id, c), id);
      PutOne(w + PshFrames(id, front), Frame(CMD_PSH, id, c), other);
    }
  }

  /** The session's connection: takes whole frames until it fails or the deadline passes. */
  class Conn {
    var out: seq<Frame>
    var room: Option<nat>

    constructor (room: Option<nat>)
      ensures out == []
    {
      out, this.room := [], room;
    }

    method WriteFrame(f: Frame) returns (ok: bool)
      modifies this
      ensures ok <==> old(room) != Some(0)
      ensures out == if ok then old(out) + [f] else old(out)
      ensures room == if ok && old(room).Some? then Some(old(room).value - 1) else old(room)
    {
      ok := room != Some(0);
      if ok {
        out := out + [f];
        room := if room.None? then None else Some(room.value - 1);
      }
    }
  }

  /** The first k pieces of b, its first n bytes, have gone out; the connection had out0 and room0 before. */
  ghost predicate GoneOut(out0: seq<Frame>, room0: Option<nat>, out: seq<Frame>, room: Option<nat>, id: Id,
                          b: seq<byte>, n: nat, k: nat)
  {
    && n <= |b| && (n < |b| ==> n == k * MAX_FRAME_DATA) && |Chunks(b[..n])| == k
    && out == out0 + PshFrames(id, Chunks(b[..n]))
    && (if room0.None? then room == None else room.Some? && room.value + k == room0.value)
  }

  lemma SentNone(out: seq<Frame>, room: Option<nat>, id: Id, b: seq<byte>)
    ensures GoneOut(out, room, out, room, id, b, 0, 0)
  {
    assert out + PshFrames(id, Chunks(b[..0])) == out;
  }

  /** The next piece goes out if there is room for it; if not, there is none for all of b. */
  lemma SentMore(out0: seq<Frame>, room0: Option<nat>, out: seq<Frame>, room: Option<nat>, id: Id, b: seq<byte>,
                 n: nat, k: nat)
    requires GoneOut(out0, room0, out, room, id, b, n, k) && n < |b|
    ensures var end := if n + MAX_FRAME_DATA > |b| then |b| else n + MAX_FRAME_DATA;
            if room == Some(0) then
              room0 == Some(k) && k < |Chunks(b)| && n == k * MAX_FRAME_DATA && n % MAX_FRAME_DATA == 0
            else
              var room' := if room.Some? then Some(room.value - 1) else None;
              GoneOut(out0, room0, out + [Frame(CMD_PSH, id, b[n..end])], room', id, b, end, k + 1)
  {
    var end := if n + MAX_FRAME_DATA > |b| then |b| else n + MAX_FRAME_DATA;
    ChunksJoin(b);
    ChunksMore(b, k, n);
    var cs := Chunks(b[..n]);
    assert (cs + [b[n..end]])[..|cs|] == cs;
    AppendAssoc(out0, PshFrames(id, cs), [Frame(CMD_PSH, id, b[n..end])]);
  }

  /** What a round of Read meets when nothing is pending: a chunk in the queue, the stream's close, a new read
    * deadline, the deadline; or a chunk comes into the queue meanwhile. */
  datatype Event = Chunk | Closed | NewDeadline(t: Time) | Timer | Arrival(data: seq<byte>)

  datatype ReadResult = Got(bytes: seq<byte>) | Eof | TimedOut | Waiting

  /** What happens to a stream's bytes during a Read: it takes a chunk from the queue and makes it pending, returns
    * the first n of the pending bytes, or the receive loop adds a chunk. */
  datatype Round = Fetch | Return(n: nat) | Arrive(data: seq<byte>)

  predicate Possible(b: Inbox, r: Round) {
    match r
    case Fetch => b.queue != [] && b.pending == [] && b.hands == []
    case Return(n) => 0 < |b.pending| && n <= |b.pending|
    case Arrive(_) => |b.queue| < QUEUE_LIMIT
  }

  function Applied(b: Inbox, r: Round): Inbox
    requires Possible(b, r)
  {
    match r
    case Fetch => Stored(Pulled(b), 0)
    case Return(n) => Copied(b, n)
    case Arrive(data) => b.(queue := b.queue + [data])
  }

  function AfterAll(b: Inbox, rs: seq<Round>): Option<Inbox> {
    if rs == [] then Some(b) else
      var last := AfterAll(b, rs[..|rs| - 1]);
      if last.Some? && Possible(last.value, rs[|rs| - 1]) then Some(Applied(last.value, rs[|rs| - 1])) else None
  }

  lemma OneMoreRound(b: Inbox, rs: seq<Round>, r: Round)
    requires AfterAll(b, rs).Some? && Possible(AfterAll(b, rs).value, r)
    ensures AfterAll(b, rs + [r]) == Some(Applied(AfterAll(b, rs).value, r))
  {
    assert (rs + [r])[..|rs|] == rs;
  }

  ghost function Arrived(rs: seq<Round>): seq<byte> {
    if rs == [] then [] else Arrived(rs[..|rs| - 1]) + (if rs[|rs| - 1].Arrive? then rs[|rs| - 1].data else [])
  }

  /** No round loses or moves a byte: what has reached the stream is what had, and what has come since. */
  lemma {:induction false} RoundsKeep(b: Inbox, rs: seq<Round>)
    requires AfterAll(b, rs).Some? && b.hands == []
    ensures AfterAll(b, rs).value.hands == []
    ensures Received(AfterAll(b, rs).value) == Received(b) + Arrived(rs)
  {
    if rs == [] {
      assert Received(b) + [] == Received(b);
    } else {
      var front, r := rs[..|rs| - 1], rs[|rs| - 1];
      RoundsKeep(b, front);
      RoundKeeps(AfterAll(b, front).value, r);
      AppendAssoc(Received(b), Arrived(front), if r.Arrive? then r.data else []);
    }
  }

  lemma RoundKeeps(b: Inbox, r: Round)
    requires Possible(b, r) && b.hands == []
    ensures Applied(b, r).hands == []
    ensures Received(Applied(b, r)) == Received(b) + (if r.Arrive? then r.data else [])
  {
    assert Received(b) + [] == Received(b);
    match r
    case Fetch =>
      var p := Pulled(b);
      PullKeeps(b);
      assert p.hands == [b.queue[0]] && p.hands[..0] == [] && p.hands[1..] == [];
      assert b.queue[0] + [] == b.queue[0] && [] + b.queue[0] == b.queue[0];
      StoreKeeps(p, 0);
    case Return(n) => CopyKeeps(b, n);
    case Arrive(data) => QueueMore(b, data);
  }

  /** How many chunks of a queue of k are left after these events, and which read deadline is set, when nothing is
    * pending after any of them. */
  ghost function Left(k: nat, deadline: Time, events: seq<Event>): (nat, Time) {
    if events == [] then (k, deadline) else LeftOne(Left(k, deadline, events[..|events| - 1]), events[|events| - 1])
  }

  ghost function LeftOne(left: (nat, Time), e: Event): (nat, Time) {
    match e
    case Chunk => (if left.0 > 0 then left.0 - 1 else 0, left.1)
    case Arrival(_) => (if left.0 < QUEUE_LIMIT then left.0 + 1 else left.0, left.1)
    case NewDeadline(t) => (left.0, t)
    case _ => left
  }

  /** What the first i events did that a Read goes on waiting after: queue and readDeadline, chunks from the front of
    * queue0 among them. */
  ghost predicate Waited(queue0: seq<seq<byte>>, deadline0: Time, queue: seq<seq<byte>>, deadline: Time,
                         pending: seq<byte>, closed: bool, events: seq<Event>, i: nat)
  {
    && i <= |events| && (|queue|, deadline) == Left(|queue0|, deadline0, events[..i])
    && (forall j :: 0 <= j < i && events[j] == Closed ==> !closed)
    && ((queue0 <= queue && forall j :: 0 <= j < i ==> events[j] != Chunk)
        || (queue0 != [] ==> queue0[0] == [] || pending != []))
  }

  lemma WaitedOne(queue0: seq<seq<byte>>, deadline0: Time, queue: seq<seq<byte>>, deadline: Time, closed: bool,
                  events: seq<Event>, i: nat, queue': seq<seq<byte>>, deadline': Time, pending': seq<byte>)
    requires Waited(queue0, deadline0, queue, deadline, [], closed, events, i) && i < |events|
    requires events[i] == Closed ==> !closed
    requires events[i].Chunk? && queue != [] ==> queue' == queue[1..] && pending' == queue[0]
    requires events[i].Arrival? && |queue| < QUEUE_LIMIT ==> queue' == queue + [events[i].data]
    requires !(events[i].Chunk? && queue != []) && !(events[i].Arrival? && |queue| < QUEUE_LIMIT) ==> queue' == queue
    requires deadline' == if events[i].NewDeadline? then events[i].t else deadline
    ensures Waited(queue0, deadline0, queue', deadline', pending', closed, events, i + 1)
  {
    assert events[..i + 1][..i] == events[..i];
  }

  class Stream {
    const id: Id
    var pending: seq<byte>
    var readCh: seq<seq<byte>>
    var closed: bool
    var readDeadline: Time
    var writeDeadline: Time

    /** What Reads have returned. */
    ghost var delivered: seq<byte>

    ghost function View(): Inbox
      reads this
    {
      Inbox(delivered, pending, [], readCh)
    }

    constructor (id: Id)
      ensures this.id == id && View() == NEW_STREAM.inbox && !closed && readDeadline == 0 && writeDeadline == 0
    {
      this.id, pending, readCh, closed, readDeadline, writeDeadline := id, [], [], false, 0, 0;
      delivered := [];
    }

    /** Past its deadline a Write sends nothing. Before it, a Write succeeds exactly when the connection has room for
      * all its pieces; one that fails has sent as many full frames as there was room for. */
    method Write(b: seq<byte>, conn: Conn, now: Time) returns (n: nat, ok: bool)
      modifies conn
      ensures n <= |b| && (ok ==> n == |b|) && (!ok ==> n % MAX_FRAME_DATA == 0)
      ensures !ok && n == |b| ==> b == []
      ensures conn.out == old(conn.out) + PshFrames(id, Chunks(b[..n]))
      ensures writeDeadline != 0 && writeDeadline <= now ==> !ok && n == 0 && conn.room == old(conn.room)
      ensures writeDeadline == 0 || now < writeDeadline ==>
        && (ok <==> old(conn.room).None? || |Chunks(b)| <= old(conn.room).value)
        && (ok && old(conn.room).Some? ==> conn.room == Some(old(conn.room).value - |Chunks(b)|))
        && (!ok ==> n == old(conn.room).value * MAX_FRAME_DATA && conn.room == Some(0))
    {
      SentNone(conn.out, conn.room, id, b);
      if writeDeadline != 0 && writeDeadline <= now {
        return 0, false;
      }
      n := 0;
      ghost var k, out0, room0 := 0, conn.out, conn.room;
      while n < |b|
        invariant GoneOut(out0, room0, conn.out, conn.room, id, b, n, k)
      {
        var end := n + MAX_FRAME_DATA;
        if end > |b| {
          end := |b|;
        }
        SentMore(out0, room0, conn.out, conn.room, id, b, n, k);
        ok := conn.WriteFrame(Frame(CMD_PSH, id, b[n..end]));
        if !ok {
          return;
        }
        n := end;
        k := k + 1;
      }
      assert b[..n] == b;
      ok := true;
    }

    /** What Read does about one event when nothing is pending. */
    method Select(e: Event) returns (r: Option<ReadResult>, ghost rs: seq<Round>)
      requires pending == []
      modifies this`pending, this`readCh, this`readDeadline
      ensures AfterAll(old(View()), rs) == Some(View()) && |rs| <= 1
      ensures r.Some? ==> r == Some(if e == Closed then Eof else TimedOut) && View() == old(View())
      ensures r.Some? <==> (e == Closed && closed) || (e == Timer && readDeadline != 0)
      ensures e.Chunk? && old(readCh) != [] ==> pending == old(readCh)[0] && readCh == old(readCh)[1..]
      ensures !(e.Chunk? && old(readCh) != []) ==> pending == []
      ensures e.Arrival? && |old(readCh)| < QUEUE_LIMIT ==> readCh == old(readCh) + [e.data]
      ensures !(e.Chunk? && old(readCh) != []) && !(e.Arrival? && |old(readCh)| < QUEUE_LIMIT) ==>
        readCh == old(readCh)
      ensures readDeadline == if e.NewDeadline? then e.t else old(readDeadline)
    {
      r, rs := None, [];
      match e {
        case Chunk =>
          if readCh != [] {
            OneMoreRound(View(), [], Fetch);
            rs := [] + [Fetch];
            FetchIs(View());
            pending := readCh[0];
            readCh := readCh[1..];
          }
        case Closed =>
          if closed {
            r := Some(Eof);
          }
        case NewDeadline(t) => readDeadline := t;
        case Timer =>
          if readDeadline != 0 {
            r := Some(TimedOut);
          }
        case Arrival(data) =>
          if |readCh| < QUEUE_LIMIT {
            OneMoreRound(View(), [], Arrive(data));
            rs := [] + [Arrive(data)];
            readCh := readCh + [data];
          }
      }
    }

    /** Read into a buffer of n bytes, as a sequence of rounds. Whatever they are, no byte is lost or moved; what is
      * returned comes off the front. It waits on only while nothing is pending, no chunk with bytes was met in the
      * queue, the stream's close was not met and the deadline is ahead. */
    method Read(n: nat, now: Time, events: seq<Event>) returns (r: ReadResult, ghost rs: seq<Round>)
      modifies this`pending, this`readCh, this`readDeadline, this`delivered
      ensures AfterAll(old(View()), rs) == Some(View())
      ensures delivered == if r.Got? then old(delivered) + r.bytes else old(delivered)
      ensures (if r.Got? then r.bytes else []) + (pending + Flat(readCh))
        == old(pending + Flat(readCh)) + Arrived(rs)
      ensures r.Got? ==> |r.bytes| <= n && (|r.bytes| < n ==> pending == []) && (r.bytes == [] ==> n == 0)
      ensures r.Eof? ==> closed && pending == [] && Closed in events
      ensures r.TimedOut? ==> readDeadline != 0 && pending == [] && (readDeadline <= now || Timer in events)
      ensures r.Waiting? ==> pending == [] && (readDeadline == 0 || now < readDeadline)
      ensures r.Waiting? ==> (closed ==> Closed !in events)
      ensures r.Waiting? ==> (|readCh|, readDeadline) == Left(|old(readCh)|, old(readDeadline), events)
      ensures r.Waiting? && old(readCh) != [] && Chunk in events ==> old(readCh)[0] == []
      ensures old(pending) != [] ==> r.Got?
      ensures old(pending) == [] && old(readDeadline != 0 && readDeadline <= now) ==> r.TimedOut?
    {
      var i := 0;
      rs := [];
      ghost var b0, deadline0 := View(), readDeadline;
      while true
        invariant 0 <= i <= |events| && delivered == b0.delivered
        invariant AfterAll(b0, rs) == Some(View())
        invariant i == 0 ==> pending == b0.pending && readDeadline == deadline0
        invariant i > 0 ==> b0.pending == [] && !(deadline0 != 0 && deadline0 <= now)
        invariant b0.pending == [] ==>
          Waited(b0.queue, deadline0, readCh, readDeadline, pending, closed, events, i)
        decreases |events| - i
      {
        if |pending| > 0 {
          var k := if n < |pending| then n else |pending|;
          r := Got(pending[..k]);
          OneMoreRound(b0, rs, Return(k));
          rs := rs + [Return(k)];
          pending, delivered := pending[k..], delivered + pending[..k];
          break;
        }
        if readDeadline != 0 && readDeadline <= now {
          r := TimedOut;
          break;
        }
        if i == |events| {
          assert events[..i] == events;
          r := Waiting;
          break;
        }
        ghost var queue, deadline := readCh, readDeadline;
        var met, round := Select(events[i]);
        if met.Some? {
          r := met.value;
          break;
        }
        MoreRounds(b0, rs, round);
        rs := rs + round;
        WaitedOne(b0.queue, deadline0, queue, deadline, closed, events, i, readCh, readDeadline, pending);
        i := i + 1;
      }
      UnreadIs(b0, rs, View(), if r.Got? then r.bytes else []);
    }
  }

  lemma MoreRounds(b: Inbox, rs: seq<Round>, more: seq<Round>)
    requires AfterAll(b, rs).Some? && AfterAll(AfterAll(b, rs).value, more).Some? && |more| <= 1
    ensures AfterAll(b, rs + more) == AfterAll(AfterAll(b, rs).value, more)
  {
    if more == [] {
      assert rs + more == rs;
    } else {
      assert more == [more[0]] && more[..0] == [];
      OneMoreRound(b, rs, more[0]);
    }
  }

  lemma FetchIs(b: Inbox)
    requires Possible(b, Fetch)
    ensures Applied(b, Fetch) == b.(pending := b.queue[0], queue := b.queue[1..])
  {
    var p := Pulled(b);
    assert p.hands == [b.queue[0]] && p.hands[..0] + p.hands[1..] == [];
  }

  lemma UnreadIs(b: Inbox, rs: seq<Round>, now: Inbox, bytes: seq<byte>)
    requires b.hands == [] && AfterAll(b, rs) == Some(now) && now.delivered == b.delivered + bytes
    ensures bytes + (now.pending + Flat(now.queue)) == b.pending + Flat(b.queue) + Arrived(rs)
  {
    RoundsKeep(b, rs);
    ReceivedIs(b);
    ReceivedIs(now);
    var d, rest, unread := b.delivered, now.pending + Flat(now.queue), b.pending + Flat(b.queue);
    AppendAssoc(d, bytes, rest);
    AppendAssoc(d, unread, Arrived(rs));
    SameFront(d, bytes + rest, unread + Arrived(rs));
  }

  lemma ReceivedIs(b: Inbox)
    requires b.hands == []
    ensures Received(b) == b.delivered + (b.pending + Flat(b.queue))
  {
    assert b.delivered + b.pending + [] == b.delivered + b.pending;
    AppendAssoc(b.delivered, b.pending, Flat(b.queue));
  }

  lemma SameFront(d: seq<byte>, a: seq<byte>, b: seq<byte>)
    requires d + a == d + b
    ensures a == b
  {
    assert (d + a)[|d|..] == a && (d + b)[|d|..] == b;
  }
}
