/** What the index from addresses to interface MTUs answers (infra/ip_mtu_trie/ip_mtu_trie.go). */
module IpMtuSpec {
  import opened Bytes
  import opened Options
  import opened TrieSpec

  type IP = seq<byte>

  const MTU := 65535
  const ZERO: Symbol := 48
  const ONE: Symbol := 49

  ghost function Pow2(n: nat): (p: nat)
    ensures p > 0
  {
    if n == 0 then 1 else 2 * Pow2(n - 1)
  }

  function Digit(b: nat): Symbol {
    if b % 2 == 0 then ZERO else ONE
  }

  /** The w lowest binary digits of n, most significant first. */
  ghost function Bits(n: nat, w: nat): (s: Word)
    ensures |s| == w
  {
    if w == 0 then [] else Bits(n / 2, w - 1) + [Digit(n % 2)]
  }

  /** The number an address stands for, big-endian. */
  ghost function Num(ip: IP): (n: nat) {
    if ip == [] then 0 else 256 * Num(ip[..|ip| - 1]) + ip[|ip| - 1] as nat
  }

  /** The IPv4 form of an address that has one. */
  function To4(ip: IP): (r: Option<IP>)
    ensures r.Some? ==> |r.value| == 4
  {
    if |ip| == 4 then Some(ip)
    else if |ip| == 16 && ip[..10] == seq(10, _ => 0) && ip[10] == 255 && ip[11] == 255 then Some(ip[12..])
    else None
  }

  /** The form whose bytes are written out: IPv4 if there is one, else sixteen bytes, else nothing. */
  function Canonical(ip: IP): (r: IP)
    ensures |r| == 4 || |r| == 16 || |r| == 0
    ensures To4(ip).Some? <==> |r| == 4
  {
    match To4(ip)
    case Some(v4) => v4
    case None => if |ip| == 16 then ip else []
  }

  // ---- Binary digits ----

  /** n without its u lowest binary digits. */
  ghost function Shift(n: nat, u: nat): (r: nat) {
    if u == 0 then n else Shift(n / 2, u - 1)
  }

  lemma {:induction false} ShiftIsDiv(n: nat, u: nat)
    ensures Shift(n, u) == n / Pow2(u)
  {
    if u > 0 {
      ShiftIsDiv(n / 2, u - 1);
      DivTwice(n, Pow2(u - 1));
    }
  }

  lemma {:induction false} ShiftBound(n: nat, w: nat, k: nat)
    requires k <= w && n < Pow2(w)
    ensures Shift(n, w - k) < Pow2(k)
    decreases w
  {
    if k < w {
      ShiftBound(n / 2, w - 1, k);
    }
  }

  lemma {:induction false} BitsPrefix(n: nat, w: nat, k: nat)
    requires k <= w
    ensures Bits(n, w)[..k] == Bits(Shift(n, w - k), k)
    decreases w - k
  {
    if k < w {
      BitsPrefix(n / 2, w - 1, k);
      assert Bits(n, w)[..k] == Bits(n / 2, w - 1)[..k];
    } else {
      assert Bits(n, w)[..k] == Bits(n, w);
    }
  }

  lemma DivTwice(n: nat, p: nat)
    requires p > 0
    ensures n / 2 / p == n / (2 * p)
  {
    var q, r := n / (2 * p), n % (2 * p);
    var x := p * q;
    assert 2 * p * q == 2 * x;
    assert n == 2 * x + r;
    assert n / 2 == x + r / 2;
    DivUnique(n / 2, p, q, r / 2);
  }

  lemma DivUnique(n: nat, p: nat, q: nat, r: nat)
    requires p > 0 && n == p * q + r && r < p
    ensures n / p == q
  {
    var t := n / p;
    assert n == p * t + n % p;
    MulGap(p, q, t);
    MulGap(p, t, q);
  }

  lemma {:induction false} MulGap(p: nat, a: nat, b: nat)
    ensures a < b ==> p * a + p <= p * b
  {
    if a < b {
      var c := b - 1;
      assert p * (c + 1) == p * c + p;
      MulGap(p, a, c);
    }
  }

  lemma {:induction false} BitsInjective(m: nat, n: nat, w: nat)
    requires m < Pow2(w) && n < Pow2(w) && Bits(m, w) == Bits(n, w)
    ensures m == n
  {
    if w > 0 {
      var a, b := Bits(m / 2, w - 1), Bits(n / 2, w - 1);
      assert Bits(m, w)[..w - 1] == a && Bits(n, w)[..w - 1] == b;
      assert Bits(m, w)[w - 1] == Digit(m % 2) && Bits(n, w)[w - 1] == Digit(n % 2);
      BitsInjective(m / 2, n / 2, w - 1);
    }
  }

  lemma {:induction false} BitsAppend(n: nat, b: nat, w: nat, k: nat)
    requires b < Pow2(k)
    ensures Bits(n * Pow2(k) + b, w + k) == Bits(n, w) + Bits(b, k)
    decreases k
  {
    if k == 0 {
      assert Bits(n, w) + Bits(b, 0) == Bits(n, w);
    } else {
      var p := Pow2(k - 1);
      assert n * Pow2(k) + b == 2 * (n * p) + b by {
        assert n * (2 * p) == 2 * (n * p);
      }
      assert (n * Pow2(k) + b) / 2 == n * p + b / 2;
      assert (n * Pow2(k) + b) % 2 == b % 2;
      BitsAppend(n, b / 2, w, k - 1);
      assert Bits(n, w) + (Bits(b / 2, k - 1) + [Digit(b % 2)]) == Bits(n, w) + Bits(b / 2, k - 1) + [Digit(b % 2)];
    }
  }

  lemma ByteBound(b: nat)
    requires b < 256
    ensures Pow2(8) == 256 && b < Pow2(8)
  {
    assert Pow2(4) == 16;
    Pow2Add(4, 4);
  }

  lemma {:induction false} NumBound(ip: IP)
    ensures Num(ip) < Pow2(8 * |ip|)
  {
    if ip != [] {
      NumBound(ip[..|ip| - 1]);
      Pow2Add(8 * |ip| - 8, 8);
      ByteBound(ip[|ip| - 1] as nat);
    }
  }

  lemma {:induction false} Pow2Add(a: nat, b: nat)
    ensures Pow2(a + b) == Pow2(a) * Pow2(b)
  {
    if b > 0 {
      Pow2Add(a, b - 1);
      TwiceProduct(Pow2(a), Pow2(b - 1));
    }
  }

  lemma TwiceProduct(x: nat, y: nat)
    ensures 2 * (x * y) == x * (2 * y)
  {
  }

  // ---- Addresses as strings of digits ----

  /** The digits of the canonical form, a byte after the other. */
  ghost function Bin(ip: IP): (s: Word)
    ensures |s| == 8 * |Canonical(ip)|
  {
    BytesBin(Canonical(ip))
  }

  ghost function BytesBin(bytes: IP): (s: Word)
    ensures |s| == 8 * |bytes|
  {
    if bytes == [] then [] else BytesBin(bytes[..|bytes| - 1]) + Bits(bytes[|bytes| - 1] as nat, 8)
  }

  lemma {:induction false} BytesBinIsNum(bytes: IP)
    ensures BytesBin(bytes) == Bits(Num(bytes), 8 * |bytes|)
  {
    if bytes != [] {
      var init, last := bytes[..|bytes| - 1], bytes[|bytes| - 1] as nat;
      BytesBinIsNum(init);
      ByteAppend(Num(init), last, 8 * |init|);
    }
  }

  lemma ByteAppend(n: nat, b: nat, w: nat)
    requires b < 256
    ensures Bits(256 * n + b, w + 8) == Bits(n, w) + Bits(b, 8)
  {
    ByteBound(b);
    BitsAppend(n, b, w, 8);
  }

  /** ip lies in the network of the first `ones` binary digits of net. */
  ghost predicate InNet(net: IP, ones: nat, ip: IP)
  {
    && |Canonical(net)| == |Canonical(ip)| && ones <= 8 * |Canonical(net)|
    && var p := Pow2(8 * |Canonical(net)| - ones);
       Num(Canonical(net)) / p == Num(Canonical(ip)) / p
  }

  /** Two w-digit numbers share their first k digits exactly when they agree after dropping the other w - k. */
  lemma SamePrefix(m: nat, n: nat, w: nat, k: nat)
    requires k <= w && m < Pow2(w) && n < Pow2(w)
    ensures Bits(m, w)[..k] == Bits(n, w)[..k] <==> Shift(m, w - k) == Shift(n, w - k)
  {
    BitsPrefix(m, w, k);
    BitsPrefix(n, w, k);
    ShiftBound(m, w, k);
    ShiftBound(n, w, k);
    SameDigits(Shift(m, w - k), Shift(n, w - k), k);
  }

  lemma SameDigits(a: nat, b: nat, k: nat)
    requires a < Pow2(k) && b < Pow2(k)
    ensures Bits(a, k) == Bits(b, k) <==> a == b
  {
    if Bits(a, k) == Bits(b, k) {
      BitsInjective(a, b, k);
    }
  }

  /** Being in a network is agreeing after dropping the digits that are not its own. */
  lemma InNetIsShift(net: IP, ones: nat, ip: IP)
    requires |Canonical(net)| == |Canonical(ip)| && ones <= 8 * |Canonical(net)|
    ensures var u := 8 * |Canonical(net)| - ones;
            InNet(net, ones, ip) <==> Shift(Num(Canonical(net)), u) == Shift(Num(Canonical(ip)), u)
  {
    var u := 8 * |Canonical(net)| - ones;
    ShiftIsDiv(Num(Canonical(net)), u);
    ShiftIsDiv(Num(Canonical(ip)), u);
  }

  /** Being in a network is having its digits as a prefix. */
  lemma InNetIsPrefix(net: IP, ones: nat, ip: IP)
    requires |Canonical(net)| == |Canonical(ip)| && ones <= 8 * |Canonical(net)|
    ensures InNet(net, ones, ip) <==> Bin(net)[..ones] <= Bin(ip)
  {
    var c, d := Canonical(net), Canonical(ip);
    BytesBinIsNum(c);
    BytesBinIsNum(d);
    NumBound(c);
    NumBound(d);
    SamePrefix(Num(c), Num(d), 8 * |c|, ones);
    InNetIsShift(net, ones, ip);
    PrefixIsTake(Bin(net)[..ones], Bin(ip));
  }

  lemma PrefixIsTake(p: Word, s: Word)
    ensures p <= s <==> |p| <= |s| && s[..|p|] == p
  {
  }

  // ---- Which interface an address belongs to ----

  /** One address of an interface: a network in which the first `ones` of `bits` digits are fixed, or something
    * else. */
  datatype Addr = IPNet(ip: IP, ones: nat, bits: nat) | OtherAddr

  datatype Ifce = Ifce(mtu: int, addrs: seq<Addr>)

  datatype Net = Net(ip: IP, ones: nat, bits: nat, mtu: int)

  ghost predicate NetOk(n: Net) {
    n.ones <= 8 * |Canonical(n.ip)| && (n.bits == 32 || n.bits == 128 ==> n.bits == 8 * |Canonical(n.ip)|)
  }

  /** Mask and address have matching widths; a mask that is not a run of ones has no size and fits any address. */
  ghost predicate AddrOk(a: Addr) {
    a.IPNet? ==> NetOk(Net(a.ip, a.ones, a.bits, 0))
  }

  /** The networks of the interfaces, in the order in which they are met. */
  ghost function AddrNets(mtu: int, addrs: seq<Addr>): (ns: seq<Net>) {
    if addrs == [] then [] else
      var a := addrs[|addrs| - 1];
      AddrNets(mtu, addrs[..|addrs| - 1]) + (if a.IPNet? then [Net(a.ip, a.ones, a.bits, mtu)] else [])
  }

  ghost function Nets(ifces: seq<Ifce>): (ns: seq<Net>) {
    if ifces == [] then [] else
      var last := ifces[|ifces| - 1];
      Nets(ifces[..|ifces| - 1]) + AddrNets(last.mtu, last.addrs)
  }

  /** Scanning all networks of one family: the one with the most fixed digits that holds ip wins, the last one on a
    * tie. */
  ghost function Scan(ns: seq<Net>, bits: nat, ip: IP): (best: Option<Net>) {
    if ns == [] then None else
      var best, n := Scan(ns[..|ns| - 1], bits, ip), ns[|ns| - 1];
      if n.bits == bits && InNet(n.ip, n.ones, ip) && (best.None? || n.ones >= best.value.ones) then Some(n) else best
  }

  ghost function Prefix(n: Net): Word
    requires NetOk(n)
  {
    Bin(n.ip)[..n.ones]
  }

  ghost predicate NetsOk(ns: seq<Net>) {
    forall n :: n in ns ==> NetOk(n)
  }

  /** The dictionary and the table built from the networks of one family. */
  ghost function Prefixes(ns: seq<Net>, bits: nat): (d: seq<Word>)
    requires NetsOk(ns)
  {
    if ns == [] then [] else
      var n := ns[|ns| - 1];
      Prefixes(ns[..|ns| - 1], bits) + (if n.bits == bits then [Prefix(n)] else [])
  }

  ghost function Table(ns: seq<Net>, bits: nat): (t: map<Word, int>)
    requires NetsOk(ns)
  {
    if ns == [] then map[] else
      var n := ns[|ns| - 1];
      if n.bits == bits then Table(ns[..|ns| - 1], bits)[Prefix(n) := n.mtu] else Table(ns[..|ns| - 1], bits)
  }

  lemma {:induction false} TableKeys(ns: seq<Net>, bits: nat)
    requires NetsOk(ns)
    ensures forall p :: p in Table(ns, bits) <==> p in Prefixes(ns, bits)
  {
    if ns != [] {
      TableKeys(ns[..|ns| - 1], bits);
    }
  }

  /** The scan finds the table's longest key that is a prefix of the address, with its entry. */
  lemma {:induction false} ScanIsLongestKey(ns: seq<Net>, bits: nat, ip: IP)
    requires NetsOk(ns) && |Bin(ip)| == bits && (bits == 32 || bits == 128)
    ensures var best, t := Scan(ns, bits, ip), Table(ns, bits);
      match best
      case None => forall p :: p in t ==> !Under(p, Bin(ip))
      case Some(n) =>
        && n.ones <= bits && Bin(ip)[..n.ones] in t && t[Bin(ip)[..n.ones]] == n.mtu
        && forall p :: p in t && Under(p, Bin(ip)) ==> |p| <= n.ones
  {
    if ns != [] {
      var n, init := ns[|ns| - 1], ns[..|ns| - 1];
      ScanIsLongestKey(init, bits, ip);
      assert n in ns && |BytesBin(Canonical(ip))| == 8 * |Canonical(ip)|;
      if n.bits == bits {
        InNetIsPrefix(n.ip, n.ones, ip);
        PrefixIsTake(Prefix(n), Bin(ip));
        assert InNet(n.ip, n.ones, ip) <==> Under(Prefix(n), Bin(ip));
        assert |Prefix(n)| == n.ones;
        var t, best := Table(init, bits), Scan(init, bits, ip);
        assert Table(ns, bits) == t[Prefix(n) := n.mtu];
        if best.Some? && Bin(ip)[..best.value.ones] == Prefix(n) {
          assert best.value.ones == n.ones;
        }
      }
    }
  }

  /** Longest-prefix search on the dictionary followed by a look in the table is the scan. */
  lemma LookupIsScan(ns: seq<Net>, bits: nat, ip: IP)
    requires NetsOk(ns) && |Bin(ip)| == bits && (bits == 32 || bits == 128)
    ensures var w, t, best := Longest(WordsOf(Prefixes(ns, bits)), Bin(ip)), Table(ns, bits), Scan(ns, bits, ip);
      && (w in t <==> best.Some?)
      && (w in t ==> t[w] == best.value.mtu)
  {
    var q, words := Bin(ip), WordsOf(Prefixes(ns, bits));
    var w := Longest(words, q);
    TableKeys(ns, bits);
    ScanIsLongestKey(ns, bits, ip);
    LongestIsLongest(words, q, |q|);
    var best := Scan(ns, bits, ip);
    if best.Some? {
      var p := q[..best.value.ones];
      PrefixIsTake(p, q);
      assert p == [] || p in words;
      assert |w| >= |p|;
      assert w == [] || w in Table(ns, bits);
      PrefixIsTake(w, q);
      assert w == p;
    } else {
      assert Under([], q);
      PrefixIsTake(w, q);
    }
  }

  /** No prefix is longer than an address of its family. */
  lemma {:induction false} PrefixesShort(ns: seq<Net>, bits: nat)
    requires NetsOk(ns) && (bits == 32 || bits == 128)
    ensures forall p :: p in Prefixes(ns, bits) ==> |p| <= bits
  {
    if ns != [] {
      assert ns[|ns| - 1] in ns;
      PrefixesShort(ns[..|ns| - 1], bits);
    }
  }
}

/** What the index comes to, in terms of bytes, bits and interfaces. */
module MtuAnswers {
  import opened Seqs
  import opened IpMtuSpec

  /** An address is taken for IPv4 when it has four bytes, or sixteen that are ten zeros, twice 255 and the four. */
  lemma MappedIsV4(ip: IP)
    ensures To4(ip).Some? <==>
      |ip| == 4 || (|ip| == 16 && (forall i :: 0 <= i < 10 ==> ip[i] == 0) && ip[10] == 255 && ip[11] == 255)
    ensures To4(ip).Some? ==> To4(ip).value == ip[|ip| - 4..] && Bin(ip) == BytesBin(ip[|ip| - 4..])
    ensures To4(ip).None? && |ip| == 16 ==> Bin(ip) == BytesBin(ip)
  {
    if |ip| == 16 {
      var zeros: IP := seq(10, _ => 0);
      if ip[..10] == zeros {
        assert forall i :: 0 <= i < 10 ==> ip[i] == zeros[i];
      }
    }
  }

  lemma {:induction false} BitAt(n: nat, w: nat, k: nat)
    requires k < w
    ensures Bits(n, w)[k] == Digit(Shift(n, w - 1 - k))
    decreases w
  {
    if k < w - 1 {
      BitAt(n / 2, w - 1, k);
    }
  }

  /** Digit 8 * i + j of an address is bit 7 - j of its byte i. */
  lemma {:induction false} BinAt(bytes: IP, i: nat, j: nat)
    requires i < |bytes| && j < 8
    ensures BytesBin(bytes)[8 * i + j] == if bytes[i] as nat / Pow2(7 - j) % 2 == 0 then 48 else 49
  {
    var last := |bytes| - 1;
    if i < last {
      BinAt(bytes[..last], i, j);
    } else {
      BitAt(bytes[i] as nat, 8, j);
      ShiftIsDiv(bytes[i] as nat, 7 - j);
    }
  }

  /** n is one of these addresses of an interface with this MTU. */
  ghost predicate Of(mtu: int, addrs: seq<Addr>, n: Net) {
    n.mtu == mtu && IPNet(n.ip, n.ones, n.bits) in addrs
  }

  lemma {:induction false} AddrNetsAre(mtu: int, addrs: seq<Addr>, n: Net)
    ensures n in AddrNets(mtu, addrs) <==> Of(mtu, addrs, n)
  {
    if addrs != [] {
      AddrNetsAre(mtu, addrs[..|addrs| - 1], n);
      assert addrs == addrs[..|addrs| - 1] + [addrs[|addrs| - 1]];
    }
  }

  /** The networks are those of all addresses of all interfaces. */
  lemma {:induction false} NetsAre(ifces: seq<Ifce>, n: Net)
    ensures n in Nets(ifces) <==> OfAny(ifces, n)
  {
    if ifces != [] {
      var init, last := ifces[..|ifces| - 1], |ifces| - 1;
      NetsAre(init, n);
      AddrNetsAre(ifces[last].mtu, ifces[last].addrs, n);
      OfOneMore(init, ifces[last], n);
      assert ifces == init + [ifces[last]];
    }
  }

  ghost predicate OfAny(ifces: seq<Ifce>, n: Net) {
    exists i :: 0 <= i < |ifces| && Of(ifces[i].mtu, ifces[i].addrs, n)
  }

  lemma OfOneMore(init: seq<Ifce>, f: Ifce, n: Net)
    ensures OfAny(init + [f], n) <==> OfAny(init, n) || Of(f.mtu, f.addrs, n)
  {
    var all := init + [f];
    assert all[|init|] == f && forall i :: 0 <= i < |init| ==> all[i] == init[i];
  }

  /** In the order of the interfaces, and of the addresses of each. */
  lemma {:induction false} NetsInOrder(f: Ifce, rest: seq<Ifce>)
    ensures Nets([f] + rest) == AddrNets(f.mtu, f.addrs) + Nets(rest)
  {
    if rest == [] {
      assert [f] + rest == [f] && [f][..0] == [];
    } else {
      var init := rest[..|rest| - 1];
      NetsInOrder(f, init);
      assert ([f] + rest)[..|rest|] == [f] + init && ([f] + rest)[|rest|] == rest[|rest| - 1];
      AppendAssoc(AddrNets(f.mtu, f.addrs), Nets(init), AddrNets(rest[|rest| - 1].mtu, rest[|rest| - 1].addrs));
    }
  }

  lemma {:induction false} AddrNetsInOrder(mtu: int, a: Addr, rest: seq<Addr>)
    ensures AddrNets(mtu, [a] + rest)
      == (if a.IPNet? then [Net(a.ip, a.ones, a.bits, mtu)] else []) + AddrNets(mtu, rest)
  {
    if rest == [] {
      assert [a] + rest == [a] && [a][..0] == [];
    } else {
      var init := rest[..|rest| - 1];
      AddrNetsInOrder(mtu, a, init);
      assert ([a] + rest)[..|rest|] == [a] + init;
    }
  }

  /** ip lies in network i of the family with this many bits. */
  ghost predicate Hit(ns: seq<Net>, bits: nat, ip: IP, i: nat)
    requires i < |ns|
  {
    ns[i].bits == bits && InNet(ns[i].ip, ns[i].ones, ip)
  }

  /** ip lies in network i; every other one it lies in has fewer fixed digits, or as many and comes before. */
  ghost predicate Best(ns: seq<Net>, bits: nat, ip: IP, i: nat)
    requires i < |ns|
  {
    Hit(ns, bits, ip, i) && forall j :: 0 <= j < |ns| && Hit(ns, bits, ip, j) ==>
      ns[j].ones < ns[i].ones || (ns[j].ones == ns[i].ones && j <= i)
  }

  lemma BestOfMore(ns: seq<Net>, bits: nat, ip: IP, i: nat)
    requires i < |ns| - 1 && Best(ns[..|ns| - 1], bits, ip, i)
    ensures if Hit(ns, bits, ip, |ns| - 1) && ns[|ns| - 1].ones >= ns[i].ones then Best(ns, bits, ip, |ns| - 1)
            else Best(ns, bits, ip, i)
  {
    var init, last := ns[..|ns| - 1], |ns| - 1;
    forall j | 0 <= j < last ensures Hit(ns, bits, ip, j) == Hit(init, bits, ip, j) {
    }
  }

  /** The scan finds the best network that ip lies in, if there is one. */
  lemma {:induction false} ScanIsBest(ns: seq<Net>, bits: nat, ip: IP)
    ensures match Scan(ns, bits, ip)
            case None => forall i :: 0 <= i < |ns| ==> !Hit(ns, bits, ip, i)
            case Some(n) => exists i :: 0 <= i < |ns| && ns[i] == n && Best(ns, bits, ip, i)
  {
    if ns != [] {
      var init, last := ns[..|ns| - 1], |ns| - 1;
      ScanIsBest(init, bits, ip);
      if Scan(init, bits, ip).Some? {
        var i :| 0 <= i < last && init[i] == Scan(init, bits, ip).value && Best(init, bits, ip, i);
        BestOfMore(ns, bits, ip, i);
        assert ns[last] == ns[|ns| - 1] && ns[i] == init[i];
      } else {
        forall j | 0 <= j < last ensures !Hit(ns, bits, ip, j) {
          assert !Hit(init, bits, ip, j);
        }
      }
    }
  }
}
