/** The index as the program builds and searches it (infra/ip_mtu_trie/ip_mtu_trie.go). */
module IpMtu {
  import opened TrieSpec
  import opened Trie
  import opened IpMtuSpec

  /** strconv.FormatInt(b, 2): no leading zeros. */
  function FormatBinary(n: nat): (s: Word) {
    if n < 2 then [Digit(n)] else FormatBinary(n / 2) + [Digit(n % 2)]
  }

  function Zeros(n: nat): (s: Word)
    ensures |s| == n && forall i :: 0 <= i < n ==> s[i] == ZERO
  {
    seq(n, _ => ZERO)
  }

  /** Padding with zeros to eight places gives the eight binary digits. */
  lemma {:induction false} PaddedBits(n: nat, w: nat)
    requires n < Pow2(w) && w > 0
    ensures |FormatBinary(n)| <= w && Zeros(w - |FormatBinary(n)|) + FormatBinary(n) == Bits(n, w)
  {
    if n < 2 {
      ZeroBits(w - 1);
    } else {
      PaddedBits(n / 2, w - 1);
      var f := FormatBinary(n / 2);
      assert Zeros(w - 1 - |f|) + (f + [Digit(n % 2)]) == Zeros(w - 1 - |f|) + f + [Digit(n % 2)];
    }
  }

  lemma {:induction false} ZeroBits(w: nat)
    ensures Bits(0, w) == Zeros(w)
  {
    if w > 0 {
      ZeroBits(w - 1);
      assert Zeros(w) == Zeros(w - 1) + [ZERO];
    }
  }

  method IPToBin(ip: IP) returns (s: Word)
    ensures s == Bin(ip)
  {
    var bytes := Canonical(ip);
    s := [];
    for i := 0 to |bytes|
      invariant s == BytesBin(bytes[..i])
    {
      ByteBound(bytes[i] as nat);
      PaddedBits(bytes[i] as nat, 8);
      var tmp := FormatBinary(bytes[i] as nat);
      s := s + (Zeros(8 - |tmp|) + tmp);
      assert bytes[..i + 1][..i] == bytes[..i];
    }
    assert bytes[..|bytes|] == bytes;
  }

  class IPMTUTrie {
    var v4Trie: Trie?
    var v4Prefix2MTU: map<Word, int>
    var v6Trie: Trie?
    var v6Prefix2MTU: map<Word, int>

    /** What was made of the networks ns. */
    ghost predicate Indexes(ns: seq<Net>)
      reads this, v4Trie, v6Trie, (if v4Trie != null then v4Trie.m.nodes else {}),
        (if v4Trie != null then v4Trie.m.edges else {}),
        (if v6Trie != null then v6Trie.m.nodes else {}), (if v6Trie != null then v6Trie.m.edges else {})
    {
      && NetsOk(ns)
      && v4Trie != null && v4Trie.Ready() && v4Trie.m.words == WordsOf(Prefixes(ns, 32))
      && v4Prefix2MTU == Table(ns, 32)
      && v6Trie != null && v6Trie.Ready() && v6Trie.m.words == WordsOf(Prefixes(ns, 128))
      && v6Prefix2MTU == Table(ns, 128)
    }

    /** An index without tries, used when the interfaces cannot be read. */
    constructor Empty()
      ensures v4Trie == null && v6Trie == null
    {
      v4Trie, v6Trie := null, null;
      v4Prefix2MTU, v6Prefix2MTU := map[], map[];
    }

    constructor FromInterfaces(ifces: seq<Ifce>)
      requires forall f :: f in ifces ==> forall a :: a in f.addrs ==> AddrOk(a)
      ensures Indexes(Nets(ifces))
    {
      var v4dict: seq<Word>, v4m: map<Word, int> := [], map[];
      var v6dict: seq<Word>, v6m: map<Word, int> := [], map[];
      ghost var ns: seq<Net> := [];
      for i := 0 to |ifces|
        invariant ns == Nets(ifces[..i]) && Collected(ns, v4dict, v4m, v6dict, v6m)
      {
        var ifce := ifces[i];
        ghost var before := ns;
        for j := 0 to |ifce.addrs|
          invariant ns == before + AddrNets(ifce.mtu, ifce.addrs[..j]) && Collected(ns, v4dict, v4m, v6dict, v6m)
        {
          var addr := ifce.addrs[j];
          AddrNetsNext(ifce.mtu, ifce.addrs, j, before);
          assert addr in ifce.addrs && ifce in ifces && AddrOk(addr);
          if addr.IPNet? {
            var bin := IPToBin(addr.ip);
            var prefix := bin[..addr.ones];
            ghost var n := Net(addr.ip, addr.ones, addr.bits, ifce.mtu);
            CollectNext(ns, n);
            if addr.bits == 32 {
              v4dict := v4dict + [prefix];
              v4m := v4m[prefix := ifce.mtu];
            } else if addr.bits == 128 {
              v6dict := v6dict + [prefix];
              v6m := v6m[prefix := ifce.mtu];
            }
            ns := ns + [n];
          }
        }
        assert ifce.addrs[..|ifce.addrs|] == ifce.addrs && ifces[..i + 1][..i] == ifces[..i];
      }
      assert ifces[..|ifces|] == ifces;
      var v4, v6 := BothTries(v4dict, v6dict);
      v4Trie, v4Prefix2MTU := v4, v4m;
      v6Trie, v6Prefix2MTU := v6, v6m;
    }

    /** The MTU of the network ip belongs to, never more than the default. An ip of no valid length is looked up as
      * the empty string among the IPv6 prefixes. */
    method GetMTU(ip: IP, ghost ns: seq<Net>) returns (mtu: int)
      requires (v4Trie == null && v6Trie == null) || Indexes(ns)
      ensures v4Trie == null && v6Trie == null ==> mtu == MTU
      ensures v4Trie != null && Canonical(ip) != [] ==>
        mtu == match Scan(ns, 8 * |Canonical(ip)|, ip)
               case None => MTU
               case Some(n) => if n.mtu < MTU then n.mtu else MTU
      ensures v4Trie != null && Canonical(ip) == [] ==>
        mtu == if [] in Table(ns, 128) && Table(ns, 128)[[]] < MTU then Table(ns, 128)[[]] else MTU
    {
      mtu := MTU;
      var q := IPToBin(ip);
      if To4(ip).Some? {
        if v4Trie == null {
          return;
        }
        LookupIsScan(ns, 32, ip);
        PrefixesShort(ns, 32);
        var prefix := v4Trie.Match(q, []);
        if prefix.prefix in v4Prefix2MTU && v4Prefix2MTU[prefix.prefix] < mtu {
          mtu := v4Prefix2MTU[prefix.prefix];
        }
      } else {
        if v6Trie == null {
          return;
        }
        if q != [] {
          LookupIsScan(ns, 128, ip);
          PrefixesShort(ns, 128);
        }
        var prefix := v6Trie.Match(q, []);
        if prefix.prefix in v6Prefix2MTU && v6Prefix2MTU[prefix.prefix] < mtu {
          mtu := v6Prefix2MTU[prefix.prefix];
        }
      }
    }
  }

  ghost predicate Collected(ns: seq<Net>, v4dict: seq<Word>, v4m: map<Word, int>, v6dict: seq<Word>,
                            v6m: map<Word, int>) {
    && NetsOk(ns)
    && v4dict == Prefixes(ns, 32) && v4m == Table(ns, 32)
    && v6dict == Prefixes(ns, 128) && v6m == Table(ns, 128)
  }

  lemma CollectNext(ns: seq<Net>, n: Net)
    requires NetsOk(ns) && NetOk(n)
    ensures NetsOk(ns + [n])
    ensures forall bits :: Prefixes(ns + [n], bits) == Prefixes(ns, bits) + (if n.bits == bits then [Prefix(n)] else [])
    ensures forall bits ::
      Table(ns + [n], bits) == if n.bits == bits then Table(ns, bits)[Prefix(n) := n.mtu] else Table(ns, bits)
  {
    assert (ns + [n])[..|ns|] == ns;
  }

  lemma AddrNetsNext(mtu: int, addrs: seq<Addr>, j: nat, before: seq<Net>)
    requires j < |addrs|
    ensures var a := addrs[j];
      before + AddrNets(mtu, addrs[..j + 1]) ==
        before + AddrNets(mtu, addrs[..j]) + (if a.IPNet? then [Net(a.ip, a.ones, a.bits, mtu)] else [])
  {
    assert addrs[..j + 1][..j] == addrs[..j];
  }

  method BothTries(v4dict: seq<Word>, v6dict: seq<Word>) returns (v4: Trie, v6: Trie)
    ensures v4.Ready() && v4.m.words == WordsOf(v4dict)
    ensures v6.Ready() && v6.m.words == WordsOf(v6dict)
    ensures fresh(v4) && fresh(v6)
  {
    v4 := Trie.New(v4dict);
    v6 := Trie.New(v6dict);
  }
}
