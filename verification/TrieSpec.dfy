/** What the static trie answers, stated on its dictionary alone. */
module TrieSpec {

  /** Symbols occupy one byte each, so lengths in bytes and in symbols agree. */
  newtype Symbol = c: int | 0 <= c < 0x80
  type Word = seq<Symbol>

  /** The nonempty words of a dictionary. */
  ghost function WordsOf(dict: seq<Word>): set<Word> {
    set d | d in dict && d != []
  }

  lemma SliceNext(d: Word, i: nat)
    requires i < |d|
    ensures d[..i + 1] == d[..i] + [d[i]] && (i == |d| - 1 ==> d[..i + 1] == d)
  {
  }

  lemma WordsOfNext(dict: seq<Word>, k: nat)
    requires k < |dict|
    ensures WordsOf(dict[..k + 1]) == WordsOf(dict[..k]) + (if dict[k] == [] then {} else {dict[k]})
  {
    assert dict[..k + 1] == dict[..k] + [dict[k]];
  }

  /** The longest element of words among q[..0], ..., q[..n], or the empty word. */
  ghost function LongestUpTo(words: set<Word>, q: Word, n: nat): (w: Word)
    requires n <= |q|
  {
    if n == 0 then [] else if q[..n] in words then q[..n] else LongestUpTo(words, q, n - 1)
  }

  ghost function Longest(words: set<Word>, q: Word): (w: Word) {
    LongestUpTo(words, q, |q|)
  }

  /** Longest really is the longest dictionary word that is a prefix of the query. */
  lemma {:induction false} LongestIsLongest(words: set<Word>, q: Word, n: nat)
    requires n <= |q|
    ensures var w := LongestUpTo(words, q, n);
            && w <= q && |w| <= n && (w == [] || w in words)
            && forall v :: v in words && v <= q && |v| <= n ==> |v| <= |w|
  {
    if n > 0 && q[..n] !in words {
      LongestIsLongest(words, q, n - 1);
      forall v | v in words && v <= q && |v| <= n ensures |v| <= n - 1 {
        assert v == q[..|v|];
      }
    }
  }

  /** Nothing between m and n: the answer stays what it was at m. */
  lemma {:induction false} LongestSkips(words: set<Word>, q: Word, m: nat, n: nat)
    requires m <= n <= |q| && forall i :: m < i <= n ==> q[..i] !in words
    ensures LongestUpTo(words, q, n) == LongestUpTo(words, q, m)
  {
    if n > m {
      LongestSkips(words, q, m, n - 1);
    }
  }

  ghost predicate PrefixClosed(paths: set<Word>) {
    [] in paths && forall p, n {:trigger p in paths, p[..n]} :: p in paths && 0 <= n <= |p| ==> p[..n] in paths
  }

  ghost predicate HasChild(paths: set<Word>, p: Word) {
    exists a :: p + [a] in paths
  }

  ghost predicate Fork(paths: set<Word>, p: Word) {
    exists a, b :: a != b && p + [a] in paths && p + [b] in paths
  }

  /** Where compression stops: word ends and forks. */
  ghost predicate Stop(words: set<Word>, paths: set<Word>, p: Word) {
    p in words || Fork(paths, p)
  }

  /** From p down to t the trie is a single branch that passes no stop before t. */
  ghost predicate Chain(words: set<Word>, paths: set<Word>, p: Word, t: Word) {
    && p <= t && t in paths
    && forall i :: |p| <= i < |t| ==> !Stop(words, paths, t[..i])
  }

  ghost predicate Under(f: Word, x: Word) {
    |f| <= |x| && x[..|f|] == f
  }

  /** The paths at or below p. */
  ghost function Below(paths: set<Word>, p: Word): set<Word> {
    set x | x in paths && Under(p, x)
  }

  lemma BelowShrinks(paths: set<Word>, p: Word, k: Symbol)
    requires p in paths
    ensures Below(paths, p + [k]) < Below(paths, p)
  {
    forall x | x in Below(paths, p + [k]) ensures x in Below(paths, p) {
      assert x[..|p|] == (p + [k])[..|p|] == p;
    }
    assert p in Below(paths, p) && p !in Below(paths, p + [k]);
  }

  /** Whatever lies below the top of a chain lies on the chain or below its end. */
  lemma {:induction false} ChainCovers(words: set<Word>, paths: set<Word>, f: Word, p: Word, x: Word, n: nat)
    requires PrefixClosed(paths) && Chain(words, paths, f, p) && f <= x && x in paths
    requires |f| <= n <= |p| && n <= |x| && p[..n] == x[..n]
    ensures x <= p || p <= x
    decreases |p| - n
  {
    if n == |p| {
      assert p[..n] == p;
    } else if n == |x| {
      assert x[..n] == x;
    } else {
      var u := p[..n];
      assert p[..n + 1] == u + [p[n]] && x[..n + 1] == u + [x[n]];
      assert p[..n + 1] in paths && x[..n + 1] in paths;
      if p[n] != x[n] {
        assert false;
      }
      ChainCovers(words, paths, f, p, x, n + 1);
    }
  }

  /** A chain goes on through a node that is no stop. */
  lemma ChainExtends(words: set<Word>, paths: set<Word>, f: Word, p: Word, k: Symbol)
    requires Chain(words, paths, f, p) && !Stop(words, paths, p) && p + [k] in paths
    ensures Chain(words, paths, f, p + [k])
  {
    forall i | |f| <= i < |p + [k]| ensures !Stop(words, paths, (p + [k])[..i]) {
      if i < |p| {
        assert (p + [k])[..i] == p[..i];
      } else {
        assert (p + [k])[..i] == p;
      }
    }
  }
}
