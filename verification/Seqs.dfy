/** Facts about sequences that several components share. */
module Seqs {

  /** No element occurs twice. Recursive, so that the pairwise form enters a proof only through the two lemmas
    * below. */
  ghost predicate Distinct<T>(s: seq<T>) {
    s == [] || (s[0] !in s[1..] && Distinct(s[1..]))
  }

  ghost predicate PairwiseDistinct<T>(s: seq<T>) {
    forall i, j :: 0 <= i < j < |s| ==> s[i] != s[j]
  }

  lemma {:induction false} DistinctPairwise<T>(s: seq<T>)
    ensures Distinct(s) <==> PairwiseDistinct(s)
  {
    if s != [] {
      DistinctPairwise(s[1..]);
      if PairwiseDistinct(s) {
        assert forall j :: 0 <= j < |s[1..]| ==> s[1..][j] != s[0];
      }
      if Distinct(s) {
        forall i, j | 0 <= i < j < |s| ensures s[i] != s[j] {
          assert s[j] == s[1..][j - 1];
          assert i > 0 ==> s[i] == s[1..][i - 1];
        }
      }
    }
  }

  lemma DistinctAt<T>(s: seq<T>, k: nat)
    requires Distinct(s) && k < |s|
    ensures forall i :: 0 <= i < |s| && i != k ==> s[i] != s[k]
  {
    DistinctPairwise(s);
  }

  lemma {:induction false} DistinctAppend<T>(s: seq<T>, x: T)
    requires Distinct(s) && x !in s
    ensures Distinct(s + [x])
  {
    if s == [] {
      assert s + [x] == [x];
    } else {
      assert (s + [x])[1..] == s[1..] + [x];
      DistinctAppend(s[1..], x);
    }
  }

  /** The sequence s with the first occurrence of x taken out. */
  ghost function Without<T>(s: seq<T>, x: T): seq<T> {
    if s == [] then [] else if s[0] == x then s[1..] else [s[0]] + Without(s[1..], x)
  }

  ghost function Cut<T>(s: seq<T>, k: nat): (r: seq<T>)
    requires k < |s|
  {
    s[..k] + s[k + 1..]
  }

  ghost function Paste<T>(s: seq<T>, k: nat, x: T): (r: seq<T>)
    requires k <= |s|
  {
    s[..k] + [x] + s[k..]
  }

  lemma {:induction false} WithoutFirst<T>(s: seq<T>, k: nat)
    requires k < |s| && s[k] !in s[..k]
    ensures Without(s, s[k]) == Cut(s, k)
  {
    if k > 0 {
      assert s[0] == s[..k][0];
      assert forall x :: x in s[1..][..k - 1] ==> x in s[..k];
      WithoutFirst(s[1..], k - 1);
      assert s[..k] == [s[0]] + s[1..][..k - 1];
    }
  }

  lemma {:induction false} WithoutAt<T>(s: seq<T>, k: nat)
    requires k < |s| && Distinct(s)
    ensures Without(s, s[k]) == Cut(s, k)
  {
    if k > 0 {
      WithoutAt(s[1..], k - 1);
      assert s[..k] == [s[0]] + s[1..][..k - 1];
    }
  }

  lemma LastStays<T>(s: seq<T>)
    requires s != [] && Distinct(s)
    ensures Without(s, s[|s| - 1]) + [s[|s| - 1]] == s
  {
    WithoutAt(s, |s| - 1);
  }

  lemma {:induction false} WithoutAbsent<T>(s: seq<T>, x: T)
    requires x !in s
    ensures Without(s, x) == s
  {
    if s != [] {
      WithoutAbsent(s[1..], x);
    }
  }

  lemma CutDistinct<T>(s: seq<T>, k: nat)
    requires k < |s| && Distinct(s)
    ensures Distinct(Cut(s, k)) && s[k] !in Cut(s, k)
  {
    DistinctPairwise(s);
    DistinctPairwise(Cut(s, k));
  }

  lemma PasteDistinct<T>(s: seq<T>, k: nat, x: T)
    requires k <= |s| && Distinct(s) && x !in s
    ensures Distinct(Paste(s, k, x))
  {
    DistinctPairwise(s);
    DistinctPairwise(Paste(s, k, x));
  }

  /** The elements of s that satisfy p, in order. */
  function Filter<T>(s: seq<T>, p: T -> bool): (r: seq<T>) {
    if s == [] then [] else
      var rest := Filter(s[1..], p);
      if p(s[0]) then [s[0]] + rest else rest
  }

  lemma {:induction false} FilterAppend<T>(s: seq<T>, t: seq<T>, p: T -> bool)
    ensures Filter(s + t, p) == Filter(s, p) + Filter(t, p)
  {
    if s == [] {
      assert s + t == t;
    } else {
      ConsAppend(s, t);
      FilterAppend(s[1..], t, p);
      if p(s[0]) {
        AppendAssoc([s[0]], Filter(s[1..], p), Filter(t, p));
      }
    }
  }

  lemma ConsAppend<T>(s: seq<T>, t: seq<T>)
    requires s != []
    ensures (s + t)[0] == s[0] && (s + t)[1..] == s[1..] + t
  {
  }

  lemma AppendAssoc<T>(a: seq<T>, b: seq<T>, c: seq<T>)
    ensures a + b + c == a + (b + c)
  {
  }

  lemma {:induction false} FilterMember<T>(s: seq<T>, p: T -> bool, x: T)
    ensures x in Filter(s, p) <==> x in s && p(x)
  {
    if s != [] {
      FilterMember(s[1..], p, x);
      assert x in s <==> x == s[0] || x in s[1..];
    }
  }

  lemma {:induction false} FilterAll<T>(s: seq<T>, p: T -> bool)
    requires forall x :: x in s ==> p(x)
    ensures Filter(s, p) == s
  {
    if s != [] {
      FilterAll(s[1..], p);
    }
  }

  lemma {:induction false} FilterNone<T>(s: seq<T>, p: T -> bool)
    requires forall x :: x in s ==> !p(x)
    ensures Filter(s, p) == []
  {
    if s != [] {
      FilterNone(s[1..], p);
    }
  }

  lemma {:induction false} FilterCongruent<T>(s: seq<T>, p: T -> bool, q: T -> bool)
    requires forall x :: x in s ==> (p(x) <==> q(x))
    ensures Filter(s, p) == Filter(s, q)
  {
    if s != [] {
      FilterCongruent(s[1..], p, q);
    }
  }

  ghost function Members<T>(s: seq<T>): (m: set<T>) {
    set x | x in s
  }

  lemma MembersCut<T>(s: seq<T>, k: nat)
    requires k < |s|
    ensures Members(s) == Members(Cut(s, k)) + {s[k]}
  {
    forall x | x in s ensures x in Cut(s, k) || x == s[k] {
      var i :| 0 <= i < |s| && s[i] == x;
      assert i != k ==> Cut(s, k)[if i < k then i else i - 1] == x;
    }
  }

  /** Cutting or pasting away from the ends commutes with dropping them. */
  lemma CutMiddle<T>(s: seq<T>, k: nat)
    requires 1 <= k < |s| - 1
    ensures Cut(s, k)[1..|s| - 2] == Cut(s[1..|s| - 1], k - 1)
  {
  }

  lemma PasteMiddle<T>(s: seq<T>, k: nat, x: T)
    requires 1 <= k < |s|
    ensures Paste(s, k, x)[1..|s|] == Paste(s[1..|s| - 1], k - 1, x)
    ensures k == 1 ==> Paste(s[1..|s| - 1], k - 1, x) == [x] + s[1..|s| - 1]
    ensures k == |s| - 1 ==> Paste(s[1..|s| - 1], k - 1, x) == s[1..|s| - 1] + [x]
  {
  }

  lemma CutLast<T>(s: seq<T>)
    requires s != []
    ensures Cut(s, |s| - 1) == s[..|s| - 1]
  {
  }

  /** Every element of s is in m. Recursive for the same reason as Distinct. */
  ghost predicate Within<T>(s: seq<T>, m: set<T>) {
    s == [] || (s[0] in m && Within(s[1..], m))
  }

  lemma {:induction false} WithinPoints<T>(s: seq<T>, m: set<T>)
    ensures Within(s, m) <==> forall i :: 0 <= i < |s| ==> s[i] in m
  {
    if s != [] {
      WithinPoints(s[1..], m);
      assert forall i :: 0 <= i < |s[1..]| ==> s[1..][i] == s[i + 1];
      assert forall i :: 1 <= i < |s| ==> s[i] == s[1..][i - 1];
    }
  }

  lemma WithinCut<T>(s: seq<T>, m: set<T>, k: nat)
    requires k < |s| && Within(s, m)
    ensures Within(Cut(s, k), m)
  {
    WithinPoints(s, m);
    WithinPoints(Cut(s, k), m);
  }

  lemma WithinPaste<T>(s: seq<T>, m: set<T>, k: nat, x: T)
    requires k <= |s| && Within(s, m) && x in m
    ensures Within(Paste(s, k, x), m)
  {
    WithinPoints(s, m);
    WithinPoints(Paste(s, k, x), m);
  }
}
