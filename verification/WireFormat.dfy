/** The formats of the anytls connection (server/anytls/frame.go, addr.go, uot.go). */
module WireFormat {
  import opened Bytes
  import opened Options
  import opened Seqs

  const MAX_FRAME_DATA := 65535
  const FRAME_HEADER_LEN := 7

  /** One message on the connection. */
  datatype Frame = Frame(cmd: byte, streamID: uint32, data: seq<byte>)

  ghost predicate FrameOk(f: Frame) {
    |f.data| <= MAX_FRAME_DATA
  }

  function Header(f: Frame): (h: seq<byte>)
    requires |f.data| <= MAX_FRAME_DATA
    ensures |h| == FRAME_HEADER_LEN
  {
    [f.cmd] + PutUint32(f.streamID) + PutUint16(|f.data|)
  }

  function EncodeFrame(f: Frame): (s: seq<byte>)
    requires |f.data| <= MAX_FRAME_DATA
    ensures |s| == FRAME_HEADER_LEN + |f.data|
  {
    Header(f) + f.data
  }

  /** The first frame of a byte stream and what follows it; None when the stream ends too early. */
  ghost function ParseFrame(s: seq<byte>): (r: Option<(Frame, seq<byte>)>) {
    if |s| < FRAME_HEADER_LEN then None else
      var length := Uint16(s[5..7]);
      if |s| < FRAME_HEADER_LEN + length then None
      else Some((Frame(s[0], Uint32(s[1..5]), s[7..7 + length]), s[7 + length..]))
  }

  /** Where the bytes of a frame lie: the command, the stream id and the length with their highest byte first, the
    * data. */
  lemma FrameBytes(f: Frame)
    requires FrameOk(f)
    ensures var s := EncodeFrame(f);
            && s[0] == f.cmd && s[7..] == f.data
            && f.streamID == ((s[1] as nat * 256 + s[2] as nat) * 256 + s[3] as nat) * 256 + s[4] as nat
            && |f.data| == s[5] as nat * 256 + s[6] as nat
  {
    var s := EncodeFrame(f);
    assert s[1..5] == PutUint32(f.streamID) && s[5..7] == PutUint16(|f.data|);
    Uint32RoundTrip(f.streamID, s[1..5]);
    assert s[1..5][..2] == s[1..3] && s[1..5][2..] == s[3..5];
  }

  /** A written frame is read back, whatever follows it. */
  lemma FrameRoundTrip(f: Frame, rest: seq<byte>)
    requires FrameOk(f)
    ensures ParseFrame(EncodeFrame(f) + rest) == Some((f, rest))
  {
    var s, id, len := EncodeFrame(f) + rest, PutUint32(f.streamID), PutUint16(|f.data|);
    Uint32RoundTrip(f.streamID, id);
    Uint16RoundTrip(|f.data|, len);
    assert s[1..5] == id && s[5..7] == len;
    assert s[7..7 + |f.data|] == f.data && s[7 + |f.data|..] == rest;
  }

  /** A parsed frame encodes to the very bytes it was parsed from. */
  lemma FrameReencodes(s: seq<byte>)
    requires ParseFrame(s).Some?
    ensures var (f, rest) := ParseFrame(s).value; FrameOk(f) && EncodeFrame(f) + rest == s
  {
    Uint32RoundTrip(0, s[1..5]);
    Uint16RoundTrip(0, s[5..7]);
    var (f, rest) := ParseFrame(s).value;
    assert Header(f) == [s[0]] + s[1..5] + s[5..7];
    assert s == [s[0]] + s[1..5] + s[5..7] + s[7..7 + |f.data|] + s[7 + |f.data|..];
  }

  /** A frame cut short by the end of the stream is not read. */
  lemma CutFrameIsNone(f: Frame, n: nat)
    requires FrameOk(f) && n < |EncodeFrame(f)|
    ensures ParseFrame(EncodeFrame(f)[..n]) == None
  {
    var s, len := EncodeFrame(f), PutUint16(|f.data|);
    if n >= FRAME_HEADER_LEN {
      Uint16RoundTrip(|f.data|, len);
      assert s[..n][5..7] == s[5..7] == len;
    }
  }

  ghost predicate FramesOk(fs: seq<Frame>) {
    forall i :: 0 <= i < |fs| ==> FrameOk(fs[i])
  }

  ghost function EncodeFrames(fs: seq<Frame>): (s: seq<byte>)
    requires FramesOk(fs)
  {
    if fs == [] then [] else EncodeFrame(fs[0]) + EncodeFrames(fs[1..])
  }

  /** The frames that repeated reading finds, and the bytes left over. */
  ghost function ParseFrames(s: seq<byte>): (r: (seq<Frame>, seq<byte>))
    decreases |s|
  {
    match ParseFrame(s)
    case None => ([], s)
    case Some((f, rest)) =>
      var (fs, left) := ParseFrames(rest);
      ([f] + fs, left)
  }

  lemma ParseFramesStep(f: Frame, rest: seq<byte>)
    requires FrameOk(f)
    ensures ParseFrames(EncodeFrame(f) + rest) == ([f] + ParseFrames(rest).0, ParseFrames(rest).1)
  {
    FrameRoundTrip(f, rest);
  }

  /** Repeated reading recovers any sequence of written frames, up to a last frame of which only n bytes have
    * arrived. */
  lemma {:induction false} FramesRoundTrip(fs: seq<Frame>, last: Frame, n: nat)
    requires FrameOk(last) && n < |EncodeFrame(last)| && FramesOk(fs)
    ensures ParseFrames(EncodeFrames(fs) + EncodeFrame(last)[..n]) == (fs, EncodeFrame(last)[..n])
  {
    var tail := EncodeFrame(last)[..n];
    if fs == [] {
      CutFrameIsNone(last, n);
      assert EncodeFrames(fs) + tail == tail;
    } else {
      FramesRoundTrip(fs[1..], last, n);
      ParseFramesStep(fs[0], EncodeFrames(fs[1..]) + tail);
      AppendAssoc(EncodeFrame(fs[0]), EncodeFrames(fs[1..]), tail);
      assert fs == [fs[0]] + fs[1..];
    }
  }

  // ---- Addresses in the form of section 5 of RFC 1928 ----

  const SOCKS_ADDR_IPV4: byte := 0x01
  const SOCKS_ADDR_DOMAIN: byte := 0x03
  const SOCKS_ADDR_IPV6: byte := 0x04

  datatype Host = V4(addr: seq<byte>) | V6(addr: seq<byte>) | Domain(name: seq<byte>)

  datatype SocksAddr = SocksAddr(host: Host, port: uint16)

  ghost predicate HostOk(h: Host) {
    match h
    case V4(addr) => |addr| == 4
    case V6(addr) => |addr| == 16
    case Domain(name) => true
  }

  /** None when a domain name is too long for its length byte. */
  function EncodeAddr(a: SocksAddr): (r: Option<seq<byte>>)
    requires HostOk(a.host)
    ensures r.None? <==> a.host.Domain? && |a.host.name| > 255
  {
    var port := PutUint16(a.port);
    match a.host
    case V4(addr) => Some([SOCKS_ADDR_IPV4] + addr + port)
    case V6(addr) => Some([SOCKS_ADDR_IPV6] + addr + port)
    case Domain(name) => if |name| > 255 then None else Some([SOCKS_ADDR_DOMAIN, |name| as byte] + name + port)
  }

  /** Where the bytes of an address lie: its type, for a domain the length, the host, the port with its high byte
    * first. */
  lemma AddrBytes(a: SocksAddr)
    requires HostOk(a.host) && EncodeAddr(a).Some?
    ensures var s, k := EncodeAddr(a).value, |EncodeAddr(a).value| - 2;
            && k >= 0 && a.port == s[k] as nat * 256 + s[k + 1] as nat
            && match a.host
               case V4(addr) => k == 5 && s[0] == 1 && s[1..k] == addr
               case V6(addr) => k == 17 && s[0] == 4 && s[1..k] == addr
               case Domain(name) => k == 2 + |name| && s[0] == 3 && s[1] as nat == |name| && s[2..k] == name
  {
    var s, port := EncodeAddr(a).value, PutUint16(a.port);
    assert s[|s| - 2] == port[0] && s[|s| - 1] == port[1];
  }

  ghost function ParsePort(h: Host, s: seq<byte>): (r: Option<(SocksAddr, seq<byte>)>) {
    if |s| < 2 then None else Some((SocksAddr(h, Uint16(s[..2])), s[2..]))
  }

  ghost function ParseAddr(s: seq<byte>): (r: Option<(SocksAddr, seq<byte>)>) {
    if s == [] then None
    else if s[0] == SOCKS_ADDR_IPV4 then (if |s| < 5 then None else ParsePort(V4(s[1..5]), s[5..]))
    else if s[0] == SOCKS_ADDR_IPV6 then (if |s| < 17 then None else ParsePort(V6(s[1..17]), s[17..]))
    else if s[0] == SOCKS_ADDR_DOMAIN then
      (if |s| < 2 || |s| < 2 + s[1] as nat then None else
        ParsePort(Domain(s[2..2 + s[1] as nat]), s[2 + s[1] as nat..]))
    else None
  }

  /** Where the parts of an address lie. */
  lemma PartsJoined(head: seq<byte>, host: seq<byte>, port: seq<byte>, rest: seq<byte>)
    ensures var s := head + host + port + rest;
            && s[..|head|] == head && s[|head|..|head| + |host|] == host
            && s[|head| + |host|..][..|port|] == port && s[|head| + |host|..][|port|..] == rest
  {
    var s := head + host + port + rest;
    assert s[|head| + |host|..] == port + rest;
  }

  lemma PartsTaken(s: seq<byte>, h: nat, k: nat)
    requires h <= k && k + 2 <= |s|
    ensures s == s[..h] + s[h..k] + s[k..][..2] + s[k..][2..]
  {
    assert s[k..] == s[k..][..2] + s[k..][2..];
    assert s == s[..h] + s[h..k] + s[k..];
  }

  lemma AddrRoundTrip(a: SocksAddr, rest: seq<byte>)
    requires HostOk(a.host) && EncodeAddr(a).Some?
    ensures ParseAddr(EncodeAddr(a).value + rest) == Some((a, rest))
  {
    var port := PutUint16(a.port);
    Uint16RoundTrip(a.port, port);
    match a.host
    case V4(addr) => PartsJoined([SOCKS_ADDR_IPV4], addr, port, rest);
    case V6(addr) => PartsJoined([SOCKS_ADDR_IPV6], addr, port, rest);
    case Domain(name) =>
      var head := [SOCKS_ADDR_DOMAIN, |name| as byte];
      PartsJoined(head, name, port, rest);
      assert (head + name + port + rest)[1] == head[1];
  }

  lemma AddrReencodes(s: seq<byte>)
    requires ParseAddr(s).Some?
    ensures var (a, rest) := ParseAddr(s).value;
            HostOk(a.host) && EncodeAddr(a).Some? && EncodeAddr(a).value + rest == s
  {
    var (a, rest) := ParseAddr(s).value;
    match a.host
    case V4(addr) =>
      PartsTaken(s, 1, 5);
      Uint16RoundTrip(0, s[5..][..2]);
      assert s[..1] == [s[0]];
    case V6(addr) =>
      PartsTaken(s, 1, 17);
      Uint16RoundTrip(0, s[17..][..2]);
      assert s[..1] == [s[0]];
    case Domain(name) =>
      PartsTaken(s, 2, 2 + |name|);
      Uint16RoundTrip(0, s[2 + |name|..][..2]);
      assert s[..2] == [s[0], s[1]];
  }

  // ---- UDP over a stream ----

  datatype UotRequest = UotRequest(isConnect: bool, destination: SocksAddr)

  function EncodeRequest(req: UotRequest): (r: Option<seq<byte>>)
    requires HostOk(req.destination.host)
  {
    match EncodeAddr(req.destination)
    case None => None
    case Some(addr) => Some([if req.isConnect then 1 else 0] + addr)
  }

  /** The flag is 1 for a connection and 0 otherwise, and the address follows. */
  lemma RequestBytes(req: UotRequest)
    requires HostOk(req.destination.host)
    ensures EncodeRequest(req).Some? <==> EncodeAddr(req.destination).Some?
    ensures EncodeRequest(req).Some? ==>
      var s := EncodeRequest(req).value;
      s != [] && (s[0] == 1 <==> req.isConnect) && s[0] <= 1 && s[1..] == EncodeAddr(req.destination).value
  {
  }

  ghost function ParseRequest(s: seq<byte>): (r: Option<(UotRequest, seq<byte>)>) {
    if s == [] then None else
      match ParseAddr(s[1..])
      case None => None
      case Some((a, rest)) => Some((UotRequest(s[0] != 0, a), rest))
  }

  lemma RequestRoundTrip(req: UotRequest, rest: seq<byte>)
    requires HostOk(req.destination.host) && EncodeRequest(req).Some?
    ensures ParseRequest(EncodeRequest(req).value + rest) == Some((req, rest))
  {
    var addr := EncodeAddr(req.destination).value;
    AddrRoundTrip(req.destination, rest);
    assert (EncodeRequest(req).value + rest)[1..] == addr + rest;
  }

  /** A parsed request encodes to the bytes it came from exactly when its flag byte was 0 or 1. */
  lemma RequestReencodes(s: seq<byte>)
    requires ParseRequest(s).Some?
    ensures var (req, rest) := ParseRequest(s).value;
            HostOk(req.destination.host) && EncodeRequest(req).Some?
            && (EncodeRequest(req).value + rest == s <==> s[0] <= 1)
  {
    AddrReencodes(s[1..]);
    var (req, rest) := ParseRequest(s).value;
    FlagDecides(if req.isConnect then 1 else 0, EncodeAddr(req.destination).value, rest, s);
  }

  lemma FlagDecides(flag: byte, addr: seq<byte>, rest: seq<byte>, s: seq<byte>)
    requires s != [] && addr + rest == s[1..]
    ensures [flag] + addr + rest == s <==> flag == s[0]
  {
    assert [flag] + addr + rest == [flag] + (addr + rest);
    assert s == [s[0]] + s[1..];
  }

  /** A datagram on the stream: its length, then its bytes. */
  function EncodePayload(p: seq<byte>): (s: seq<byte>)
    requires |p| <= MAX_FRAME_DATA
    ensures |s| == 2 + |p|
  {
    PutUint16(|p|) + p
  }

  /** The length of a datagram has its high byte first. */
  lemma PayloadBytes(p: seq<byte>)
    requires |p| <= MAX_FRAME_DATA
    ensures var s := EncodePayload(p); |p| == s[0] as nat * 256 + s[1] as nat && s[2..] == p
  {
  }

  ghost function ParsePayload(s: seq<byte>): (r: Option<(seq<byte>, seq<byte>)>) {
    if |s| < 2 then None else
      var length := Uint16(s[..2]);
      if |s| < 2 + length then None else Some((s[2..2 + length], s[2 + length..]))
  }

  lemma PayloadRoundTrip(p: seq<byte>, rest: seq<byte>)
    requires |p| <= MAX_FRAME_DATA
    ensures ParsePayload(EncodePayload(p) + rest) == Some((p, rest))
  {
    var s := EncodePayload(p) + rest;
    Uint16RoundTrip(|p|, PutUint16(|p|));
    assert s[..2] == PutUint16(|p|);
    assert s[2..2 + |p|] == p && s[2 + |p|..] == rest;
  }

  lemma CutPayloadIsNone(p: seq<byte>, n: nat)
    requires |p| <= MAX_FRAME_DATA && n < |EncodePayload(p)|
    ensures ParsePayload(EncodePayload(p)[..n]) == None
  {
    if n >= 2 {
      Uint16RoundTrip(|p|, PutUint16(|p|));
      assert EncodePayload(p)[..n][..2] == PutUint16(|p|);
    }
  }

  ghost predicate PayloadsOk(ps: seq<seq<byte>>) {
    forall i :: 0 <= i < |ps| ==> |ps[i]| <= MAX_FRAME_DATA
  }

  ghost function EncodePayloads(ps: seq<seq<byte>>): (s: seq<byte>)
    requires PayloadsOk(ps)
  {
    if ps == [] then [] else EncodePayload(ps[0]) + EncodePayloads(ps[1..])
  }

  /** The datagrams that repeated reading takes from a byte stream. */
  ghost function ParsePayloads(s: seq<byte>): (ps: seq<seq<byte>>)
    decreases |s|
  {
    match ParsePayload(s)
    case None => []
    case Some((p, rest)) => [p] + ParsePayloads(rest)
  }

  lemma ParsePayloadsStep(s: seq<byte>)
    requires ParsePayload(s).Some?
    ensures ParsePayloads(s) == [ParsePayload(s).value.0] + ParsePayloads(ParsePayload(s).value.1)
  {
  }

  lemma ParsePayloadsCons(p: seq<byte>, rest: seq<byte>)
    requires |p| <= MAX_FRAME_DATA
    ensures ParsePayloads(EncodePayload(p) + rest) == [p] + ParsePayloads(rest)
  {
    PayloadRoundTrip(p, rest);
    ParsePayloadsStep(EncodePayload(p) + rest);
  }

  lemma EncodeTake(ps: seq<seq<byte>>, k: nat)
    requires PayloadsOk(ps) && 0 < k <= |ps|
    ensures PayloadsOk(ps[1..]) && PayloadsOk(ps[..k]) && PayloadsOk(ps[1..][..k - 1])
    ensures EncodePayloads(ps[..k]) == EncodePayload(ps[0]) + EncodePayloads(ps[1..][..k - 1])
    ensures ps[..k] == [ps[0]] + ps[1..][..k - 1]
  {
    assert ps[..k][1..] == ps[1..][..k - 1];
  }

  lemma PrefixOfFirst(ps: seq<seq<byte>>, n: nat)
    requires PayloadsOk(ps) && ps != [] && n < |EncodePayload(ps[0])|
    ensures n <= |EncodePayloads(ps)| && ParsePayloads(EncodePayloads(ps)[..n]) == []
  {
    assert EncodePayloads(ps)[..n] == EncodePayload(ps[0])[..n];
    CutPayloadIsNone(ps[0], n);
  }

  lemma PrefixPastFirst(ps: seq<seq<byte>>, n: nat)
    requires PayloadsOk(ps) && ps != [] && |EncodePayload(ps[0])| <= n <= |EncodePayloads(ps)|
    ensures ParsePayloads(EncodePayloads(ps)[..n])
      == [ps[0]] + ParsePayloads(EncodePayloads(ps[1..])[..n - |EncodePayload(ps[0])|])
  {
    var e, tail := EncodePayload(ps[0]), EncodePayloads(ps[1..]);
    assert (e + tail)[..n] == e + tail[..n - |e|];
    ParsePayloadsCons(ps[0], tail[..n - |e|]);
  }

  /** From any prefix of the written bytes, reading takes exactly the first datagrams: those that lie wholly in it. */
  lemma {:induction false} PayloadsPrefix(ps: seq<seq<byte>>, n: nat) returns (k: nat)
    requires PayloadsOk(ps) && n <= |EncodePayloads(ps)|
    ensures k <= |ps| && ParsePayloads(EncodePayloads(ps)[..n]) == ps[..k]
    ensures |EncodePayloads(ps[..k])| <= n
    ensures k < |ps| ==> n < |EncodePayloads(ps[..k + 1])|
  {
    if ps == [] {
      k := 0;
    } else if n < |EncodePayload(ps[0])| {
      k := 0;
      PrefixOfFirst(ps, n);
      EncodeTake(ps, 1);
    } else {
      var j := PayloadsPrefix(ps[1..], n - |EncodePayload(ps[0])|);
      k := j + 1;
      PrefixPastFirst(ps, n);
      EncodeTake(ps, k);
      if k < |ps| {
        EncodeTake(ps, k + 1);
      }
    }
  }
}
