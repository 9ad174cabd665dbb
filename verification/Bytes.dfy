/** Bytes and big-endian numbers. */
module Bytes {
  newtype byte = b: int | 0 <= b < 256
  type uint16 = n: nat | n < 0x1_0000
  type uint32 = n: nat | n < 0x1_0000_0000

  function PutUint16(n: uint16): (s: seq<byte>)
    ensures |s| == 2
  {
    [(n / 256) as byte, (n % 256) as byte]
  }

  function Uint16(s: seq<byte>): (n: uint16)
    requires |s| == 2
  {
    s[0] as nat * 256 + s[1] as nat
  }

  function PutUint32(n: uint32): (s: seq<byte>)
    ensures |s| == 4
  {
    PutUint16(n / 0x1_0000) + PutUint16(n % 0x1_0000)
  }

  function Uint32(s: seq<byte>): (n: uint32)
    requires |s| == 4
  {
    Uint16(s[..2]) * 0x1_0000 + Uint16(s[2..])
  }

  lemma Uint16RoundTrip(n: uint16, s: seq<byte>)
    ensures Uint16(PutUint16(n)) == n
    ensures |s| == 2 ==> PutUint16(Uint16(s)) == s
  {
  }

  lemma Uint32RoundTrip(n: uint32, s: seq<byte>)
    ensures Uint32(PutUint32(n)) == n
    ensures |s| == 4 ==> PutUint32(Uint32(s)) == s
  {
    var hi, lo := PutUint16(n / 0x1_0000), PutUint16(n % 0x1_0000);
    assert (hi + lo)[..2] == hi && (hi + lo)[2..] == lo;
    Uint16RoundTrip(n / 0x1_0000, hi);
    Uint16RoundTrip(n % 0x1_0000, lo);
    if |s| == 4 {
      assert s == s[..2] + s[2..];
      Uint16RoundTrip(0, s[..2]);
      Uint16RoundTrip(0, s[2..]);
      assert Uint32(s) / 0x1_0000 == Uint16(s[..2]) && Uint32(s) % 0x1_0000 == Uint16(s[2..]);
    }
  }
}
