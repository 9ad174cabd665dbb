/** Reading and writing those formats, over streams that come and go in pieces (server/anytls/frame.go, addr.go,
  * uot.go). */
module Wire {
  import opened Bytes
  import opened Options
  import opened Seqs
  import opened WireFormat

  function Min(a: nat, b: nat): (m: nat) {
    if a <= b then a else b
  }

  /** A byte stream that yields what it holds in pieces and then its end. sizes fixes how the pieces are cut. */
  class Reader {
    var rest: seq<byte>
    var sizes: seq<nat>

    constructor (bytes: seq<byte>, sizes: seq<nat>)
      ensures rest == bytes
    {
      this.rest, this.sizes := bytes, sizes;
    }

    /** At least one byte, unless the stream has ended or none is asked for. */
    method Read(n: nat) returns (chunk: seq<byte>)
      modifies this
      ensures |chunk| <= |old(rest)| && |chunk| <= n
      ensures chunk == old(rest)[..|chunk|] && rest == old(rest)[|chunk|..]
      ensures chunk == [] ==> n == 0 || rest == []
    {
      var piece := if sizes == [] then |rest| else sizes[0] + 1;
      var k := Min(Min(n, |rest|), piece);
      chunk := rest[..k];
      rest := rest[k..];
      sizes := if sizes == [] then [] else sizes[1..];
    }
  }

  /** Exactly n bytes, however the stream is cut; a stream that ends sooner is used up. */
  method ReadFull(r: Reader, n: nat) returns (buf: Option<seq<byte>>)
    modifies r
    ensures buf.Some? <==> n <= |old(r.rest)|
    ensures buf.Some? ==> buf.value == old(r.rest)[..n] && r.rest == old(r.rest)[n..]
    ensures buf.None? ==> r.rest == []
  {
    var got: seq<byte> := [];
    while |got| < n
      invariant |got| <= n && |got| <= |old(r.rest)|
      invariant got == old(r.rest)[..|got|] && r.rest == old(r.rest)[|got|..]
      decreases n - |got|
    {
      var chunk := r.Read(n - |got|);
      if chunk == [] {
        return None;
      }
      assert old(r.rest)[..|got|] + old(r.rest)[|got|..][..|chunk|] == old(r.rest)[..|got| + |chunk|];
      got := got + chunk;
    }
    return Some(got);
  }

  method ReadFrame(r: Reader) returns (f: Option<Frame>)
    modifies r
    ensures match ParseFrame(old(r.rest))
            case None => f == None
            case Some((g, rest)) => f == Some(g) && r.rest == rest
  {
    ghost var s := r.rest;
    var header := ReadFull(r, FRAME_HEADER_LEN);
    if header.None? {
      return None;
    }
    var h := header.value;
    var length := Uint16(h[5..7]);
    assert h[5..7] == s[5..7] && h[1..5] == s[1..5];
    var data: seq<byte> := [];
    if length > 0 {
      var body := ReadFull(r, length);
      if body.None? {
        return None;
      }
      data := body.value;
    }
    assert data == s[7..7 + length];
    return Some(Frame(h[0], Uint32(h[1..5]), data));
  }

  method ReadPort(r: Reader, host: Host) returns (a: Option<SocksAddr>)
    modifies r
    ensures match ParsePort(host, old(r.rest))
            case None => a == None
            case Some((b, rest)) => a == Some(b) && r.rest == rest
  {
    var port := ReadFull(r, 2);
    if port.None? {
      return None;
    }
    return Some(SocksAddr(host, Uint16(port.value)));
  }

  method ReadSocksAddr(r: Reader) returns (a: Option<SocksAddr>)
    modifies r
    ensures match ParseAddr(old(r.rest))
            case None => a == None
            case Some((b, rest)) => a == Some(b) && r.rest == rest
  {
    ghost var s := r.rest;
    var typ := ReadFull(r, 1);
    if typ.None? {
      return None;
    }
    var host: Host;
    if typ.value[0] == SOCKS_ADDR_IPV4 {
      var b := ReadFull(r, 4);
      if b.None? {
        return None;
      }
      assert s[1..][..4] == s[1..5] && s[1..][4..] == s[5..];
      host := V4(b.value);
    } else if typ.value[0] == SOCKS_ADDR_IPV6 {
      var b := ReadFull(r, 16);
      if b.None? {
        return None;
      }
      assert s[1..][..16] == s[1..17] && s[1..][16..] == s[17..];
      host := V6(b.value);
    } else if typ.value[0] == SOCKS_ADDR_DOMAIN {
      var l := ReadFull(r, 1);
      if l.None? {
        return None;
      }
      ghost var k := l.value[0] as nat;
      assert s[1..][1..] == s[2..] && l.value[0] == s[1];
      var b := ReadFull(r, l.value[0] as nat);
      if b.None? {
        return None;
      }
      assert s[2..][..k] == s[2..2 + k] && s[2..][k..] == s[2 + k..];
      host := Domain(b.value);
    } else {
      return None;
    }
    a := ReadPort(r, host);
  }

  method ReadUOTRequest(r: Reader) returns (req: Option<UotRequest>)
    modifies r
    ensures match ParseRequest(old(r.rest))
            case None => req == None
            case Some((q, rest)) => req == Some(q) && r.rest == rest
  {
    var isConnect := ReadFull(r, 1);
    if isConnect.None? {
      return None;
    }
    var destination := ReadSocksAddr(r);
    if destination.None? {
      return None;
    }
    return Some(UotRequest(isConnect.value[0] != 0, destination.value));
  }

  datatype PayloadResult = Payload(bytes: seq<byte>) | ShortBuffer | Ended

  /** One datagram into a buffer of `capacity` bytes. A datagram that does not fit loses its length and keeps its
    * bytes, so only a buffer of MAX_FRAME_DATA bytes keeps the reader in step with the writer. */
  method ReadUOTPayload(r: Reader, capacity: nat) returns (p: PayloadResult)
    modifies r
    ensures p.Payload? <==> ParsePayload(old(r.rest)).Some? && |ParsePayload(old(r.rest)).value.0| <= capacity
    ensures p.Payload? ==> (p.bytes, r.rest) == ParsePayload(old(r.rest)).value
    ensures p.ShortBuffer? <==> 2 <= |old(r.rest)| && Uint16(old(r.rest)[..2]) > capacity
    ensures p.ShortBuffer? ==> r.rest == old(r.rest)[2..]
    ensures p.Ended? ==> r.rest == []
  {
    ghost var s := r.rest;
    var lenBuf := ReadFull(r, 2);
    if lenBuf.None? {
      return Ended;
    }
    var length := Uint16(lenBuf.value);
    if length > capacity {
      return ShortBuffer;
    }
    assert lenBuf.value == s[..2] && r.rest == s[2..];
    var body := ReadFull(r, length);
    if body.None? {
      return Ended;
    }
    assert s[2..][..length] == s[2..2 + length] && s[2..][length..] == s[2 + length..];
    return Payload(body.value);
  }

  /** The loop of relayUOTToPacketConn up to the end of the stream: the datagrams it hands on, in order. */
  method RelayDatagrams(r: Reader) returns (ps: seq<seq<byte>>)
    modifies r
    ensures ps == ParsePayloads(old(r.rest))
  {
    ps := [];
    while true
      invariant ps + ParsePayloads(r.rest) == ParsePayloads(old(r.rest))
      decreases |r.rest|
    {
      ghost var s := r.rest;
      var p := ReadUOTPayload(r, MAX_FRAME_DATA);
      if !p.Payload? {
        break;
      }
      ParsePayloadsStep(s);
      AppendAssoc(ps, [p.bytes], ParsePayloads(r.rest));
      ps := ps + [p.bytes];
    }
  }

  /** A connection that takes bytes until it fails: it accepts `room` more bytes, or any number. */
  class Writer {
    var out: seq<byte>
    var room: Option<nat>

    constructor (room: Option<nat>)
      ensures out == []
    {
      this.out, this.room := [], room;
    }

    /** Takes the first n bytes of b; fewer than all of them only when the connection fails. */
    method Write(b: seq<byte>) returns (n: nat)
      modifies this
      ensures n == Fitting(old(room), |b|) && out == old(out) + b[..n]
      ensures room == if old(room).None? then None else Some(old(room).value - n)
    {
      n := if room.None? then |b| else Min(|b|, room.value);
      out := out + b[..n];
      room := if room.None? then None else Some(room.value - n);
    }
  }

  /** How many of n bytes a connection with this room takes. */
  ghost function Fitting(room: Option<nat>, n: nat): (k: nat)
    ensures k <= n && (room.None? ==> k == n)
    ensures room.Some? ==> k <= room.value && (k == n || k == room.value)
  {
    if room.None? then n else Min(n, room.value)
  }

  /** As much of e has gone out as there was room for; ok says whether that was all of it. */
  ghost predicate Wrote(out0: seq<byte>, room0: Option<nat>, out: seq<byte>, room: Option<nat>, e: seq<byte>, ok: bool)
  {
    var n := Fitting(room0, |e|);
    && out == out0 + e[..n] && room == (if room0.None? then None else Some(room0.value - n))
    && (ok <==> n == |e|)
  }

  /** Writing b after a, if all of a went out, is writing a + b. */
  lemma WroteBoth(out0: seq<byte>, room0: Option<nat>, out1: seq<byte>, room1: Option<nat>, a: seq<byte>, all: bool,
                  out: seq<byte>, room: Option<nat>, b: seq<byte>, ok: bool)
    requires Wrote(out0, room0, out1, room1, a, all)
    requires if all then Wrote(out1, room1, out, room, b, ok) else out == out1 && room == room1 && (b == [] || !ok)
    requires !all ==> !ok
    ensures Wrote(out0, room0, out, room, a + b, ok)
  {
    var n := Fitting(room0, |a + b|);
    if all {
      assert a[..|a|] == a;
      AppendAssoc(out0, a, b[..n - |a|]);
      assert (a + b)[..n] == a + b[..n - |a|];
    } else {
      assert (a + b)[..n] == a[..n];
    }
  }

  /** A frame that is too large is refused before anything goes out. */
  method WriteFrame(w: Writer, f: Frame) returns (ok: bool)
    modifies w
    ensures !FrameOk(f) ==> !ok && w.out == old(w.out) && w.room == old(w.room)
    ensures FrameOk(f) ==> Wrote(old(w.out), old(w.room), w.out, w.room, EncodeFrame(f), ok)
  {
    if |f.data| > MAX_FRAME_DATA {
      return false;
    }
    ghost var out0, room0, h := w.out, w.room, Header(f);
    var k := w.Write(Header(f));
    ghost var out1, room1 := w.out, w.room;
    if k < FRAME_HEADER_LEN {
      WroteBoth(out0, room0, out1, room1, h, false, out1, room1, f.data, false);
      return false;
    }
    if |f.data| == 0 {
      WroteNothing(w.out, w.room);
      WroteBoth(out0, room0, out1, room1, h, true, out1, room1, f.data, true);
      return true;
    }
    var j := w.Write(f.data);
    WroteBoth(out0, room0, out1, room1, h, true, w.out, w.room, f.data, j == |f.data|);
    return j == |f.data|;
  }

  lemma WroteNothing(out: seq<byte>, room: Option<nat>)
    ensures Wrote(out, room, out, room, [], true)
  {
    assert out + [] == out;
  }

  /** An address in one Write; a domain that is too long is refused before anything goes out. */
  method WriteSocksAddr(w: Writer, a: SocksAddr) returns (ok: bool)
    requires HostOk(a.host)
    modifies w
    ensures EncodeAddr(a).None? ==> !ok && w.out == old(w.out) && w.room == old(w.room)
    ensures EncodeAddr(a).Some? ==> Wrote(old(w.out), old(w.room), w.out, w.room, EncodeAddr(a).value, ok)
  {
    var e := EncodeAddr(a);
    if e.None? {
      return false;
    }
    var n := w.Write(e.value);
    return n == |e.value|;
  }

  /** The flag goes out in a Write of its own before the address is looked at, so that a request that cannot be
    * written leaves a byte on the stream. */
  method WriteUOTRequest(w: Writer, req: UotRequest) returns (ok: bool)
    requires HostOk(req.destination.host)
    modifies w
    ensures match EncodeRequest(req)
            case Some(e) => Wrote(old(w.out), old(w.room), w.out, w.room, e, ok)
            case None => !ok && w.out == if old(w.room) == Some(0) then old(w.out)
                                         else old(w.out) + [if req.isConnect then 1 else 0]
  {
    ghost var out0, room0 := w.out, w.room;
    var flag: seq<byte> := [if req.isConnect then 1 else 0];
    var n := w.Write(flag);
    ghost var out1, room1 := w.out, w.room;
    if n < 1 {
      if EncodeAddr(req.destination).Some? {
        WroteBoth(out0, room0, out1, room1, flag, false, out1, room1, EncodeAddr(req.destination).value, false);
      }
      return false;
    }
    ok := WriteSocksAddr(w, req.destination);
    if EncodeAddr(req.destination).Some? {
      WroteBoth(out0, room0, out1, room1, flag, true, w.out, w.room, EncodeAddr(req.destination).value, ok);
    }
  }

  /** One datagram in one Write; one that is too large is refused before anything goes out. */
  method WriteUOTPayload(w: Writer, p: seq<byte>) returns (ok: bool)
    modifies w
    ensures |p| > MAX_FRAME_DATA ==> !ok && w.out == old(w.out) && w.room == old(w.room)
    ensures |p| <= MAX_FRAME_DATA ==> Wrote(old(w.out), old(w.room), w.out, w.room, EncodePayload(p), ok)
  {
    if |p| > MAX_FRAME_DATA {
      return false;
    }
    var n := w.Write(EncodePayload(p));
    ok := n == |EncodePayload(p)|;
  }

  /** The loop of relayPacketConnToUOT: what goes out is the datagrams in order, or as much of them as the stream
    * took. */
  method RelayPackets(w: Writer, ps: seq<seq<byte>>) returns (ok: bool)
    requires PayloadsOk(ps)
    modifies w
    ensures Wrote(old(w.out), old(w.room), w.out, w.room, EncodePayloads(ps), ok)
  {
    ghost var out0, room0 := w.out, w.room;
    assert ps[..0] == [];
    WroteNothing(w.out, w.room);
    for i := 0 to |ps|
      invariant Wrote(out0, room0, w.out, w.room, EncodePayloads(ps[..i]), true)
    {
      ghost var out1, room1, done := w.out, w.room, EncodePayloads(ps[..i]);
      ok := WriteUOTPayload(w, ps[i]);
      WroteBoth(out0, room0, out1, room1, done, true, w.out, w.room, EncodePayload(ps[i]), ok);
      EncodeNext(ps, i);
      EncodeOneMore(ps, i);
      if !ok {
        ghost var e, rest := EncodePayload(ps[i]), EncodePayloads(ps[i + 1..]);
        WroteBoth(out0, room0, w.out, w.room, done + e, false, w.out, w.room, rest, false);
        AppendAssoc(done, e, rest);
        return;
      }
    }
    assert ps[..|ps|] == ps;
    ok := true;
  }

  lemma {:induction false} EncodeNext(ps: seq<seq<byte>>, i: nat)
    requires PayloadsOk(ps) && i < |ps|
    ensures EncodePayloads(ps) == EncodePayloads(ps[..i]) + (EncodePayload(ps[i]) + EncodePayloads(ps[i + 1..]))
  {
    if i == 0 {
      assert ps[..0] == [];
    } else {
      var rest := ps[1..];
      EncodeNext(rest, i - 1);
      assert rest[..i - 1] == ps[..i][1..] && rest[i..] == ps[i + 1..] && rest[i - 1] == ps[i];
      AppendAssoc(EncodePayload(ps[0]), EncodePayloads(rest[..i - 1]),
        EncodePayload(ps[i]) + EncodePayloads(rest[i..]));
    }
  }

  lemma EncodeOneMore(ps: seq<seq<byte>>, i: nat)
    requires PayloadsOk(ps) && i < |ps|
    ensures EncodePayloads(ps[..i + 1]) == EncodePayloads(ps[..i]) + EncodePayload(ps[i])
  {
    EncodeNext(ps[..i + 1], i);
    assert ps[..i + 1][..i] == ps[..i] && ps[..i + 1][i + 1..] == [];
    assert EncodePayload(ps[i]) + [] == EncodePayload(ps[i]);
  }
}
