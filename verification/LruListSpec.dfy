/** A list of nodes kept roughly by weight (infra/lrulist). */
module LruListSpec {
  import opened Bytes
  import opened Seqs

  /** The weights of new nodes, as the source computes them in 32 bits. */
  function Heavier(w: uint32): (h: uint32)
    ensures w < 0xFFFF_FFFF ==> h == w + 1
    ensures w == 0xFFFF_FFFF ==> h == 0
  {
    (w + 1) % 0x1_0000_0000
  }

  /** The first position whose weight is less than w, or the end. */
  function FirstLighter(weights: seq<uint32>, w: uint32): (k: nat)
    ensures k <= |weights|
    ensures forall i :: 0 <= i < k ==> weights[i] >= w
    ensures k < |weights| ==> weights[k] < w
  {
    if weights == [] || weights[0] < w then 0 else 1 + FirstLighter(weights[1..], w)
  }

  /** It is the only position with heavier weights before it and a lighter one, or the end, at it. */
  lemma {:induction false} FirstLighterAt(weights: seq<uint32>, w: uint32, k: nat)
    ensures k == FirstLighter(weights, w) <==>
      k <= |weights| && (forall i :: 0 <= i < k ==> weights[i] >= w) && (k < |weights| ==> weights[k] < w)
  {
  }

  function Spliced<T>(s: seq<T>, k: nat, more: seq<T>): (r: seq<T>)
    requires k <= |s|
  {
    s[..k] + more + s[k..]
  }

  /** What was before position k, the new elements, and the rest. */
  lemma SplicedAt<T>(s: seq<T>, k: nat, more: seq<T>, i: nat)
    requires k <= |s| && i < |s| + |more|
    ensures |Spliced(s, k, more)| == |s| + |more|
    ensures Spliced(s, k, more)[i] == if i < k then s[i] else if i < k + |more| then more[i - k] else s[i - |more|]
  {
  }

  lemma SplicedDistinct<T>(s: seq<T>, k: nat, more: seq<T>)
    requires k <= |s| && Distinct(s) && Distinct(more) && forall x :: x in more ==> x !in s
    ensures Distinct(Spliced(s, k, more))
  {
    DistinctPairwise(s);
    DistinctPairwise(more);
    var r, n := Spliced(s, k, more), |more|;
    forall i, j | 0 <= i < j < |r| ensures r[i] != r[j] {
      if k <= i < k + n {
        assert r[i] == more[i - k] && more[i - k] in more;
      } else if k <= j < k + n {
        assert r[j] == more[j - k] && more[j - k] in more;
      }
    }
    DistinctPairwise(r);
  }
}
