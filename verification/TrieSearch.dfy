/** The search of the compressed trie, as a walk over the paths, and when it finds the longest word. */
module TrieSearch {
  import opened TrieSpec

  /** What a search returns; Panicked stands for a slice taken beyond the capacity of the query's symbols. */
  datatype Outcome = Matched(prefix: Word) | Panicked

  datatype Dict = Dict(words: set<Word>, paths: set<Word>)
  {
    /** The words and all their prefixes. */
    ghost predicate Sound() {
      && PrefixClosed(paths) && words <= paths && [] !in words
      && forall p {:trigger HasChild(paths, p)} :: p in paths && p != [] && p !in words ==> HasChild(paths, p)
    }

    ghost predicate StopBelow(p: Word, t: Word) {
      Chain(words, paths, p, t) && Stop(words, paths, t)
    }

    /** Where the edge into p leads once the trie is compressed. */
    ghost function Next(p: Word): (t: Word)
      ensures (exists t :: StopBelow(p, t)) ==> StopBelow(p, t)
    {
      if exists t :: StopBelow(p, t) then (var t :| StopBelow(p, t); t) else p
    }

    /** The search from node `at` with symbol i next; spare is what follows the query's symbols in their buffer. */
    ghost function Walk(q: Word, spare: Word, i: nat, at: Word, b: Word, prefix: Word): (r: Outcome)
      decreases |q| - i, 1
    {
      if i >= |q| || at + [q[i]] !in paths then Matched(prefix)
      else
        var t := Next(at + [q[i]]);
        var n := |t| - |at|;
        if n <= 1 then Land(q, spare, i + 1, t, b + [q[i]], prefix)
        else if |b| + n > |q| then Land(q, spare, i + 1, t, b, prefix)
        else if i + n > |q| + |spare| then Panicked
        else if (q + spare)[i..i + n] != t[|at|..] then Matched(prefix)
        else Land(q, spare, i + n, t, b + t[|at|..], prefix)
    }

    /** The search has moved to t: a word end there makes the builder the answer so far. */
    ghost function Land(q: Word, spare: Word, i: nat, t: Word, b: Word, prefix: Word): (r: Outcome)
      decreases |q| - i, 2
    {
      if t !in words then Walk(q, spare, i, t, b, prefix)
      else if |b| > |q| then Matched(prefix)
      else if |b| == |q| then Matched(b)
      else Walk(q, spare, i, t, b, b)
    }
  }

  lemma NextUnique(d: Dict, p: Word, t: Word)
    requires d.Sound() && d.StopBelow(p, t)
    ensures d.Next(p) == t
  {
    var u := d.Next(p);
    assert u[..|p|] == p == t[..|p|];
    ChainCovers(d.words, d.paths, p, t, u, |p|);
    assert u <= t ==> t[..|u|] == u;
    assert t <= u ==> u[..|t|] == t;
  }

  /** Below every path the trie has a next stop. */
  lemma {:induction false} NextExists(d: Dict, p: Word)
    requires d.Sound() && p in d.paths && p != []
    ensures d.StopBelow(p, d.Next(p))
    decreases Below(d.paths, p)
  {
    if Stop(d.words, d.paths, p) {
      assert d.StopBelow(p, p);
    } else {
      assert HasChild(d.paths, p);
      var a :| p + [a] in d.paths;
      BelowShrinks(d.paths, p, a);
      NextExists(d, p + [a]);
      var t := d.Next(p + [a]);
      forall i | |p| <= i < |t| ensures !Stop(d.words, d.paths, t[..i]) {
        if i == |p| {
          assert t[..i] == (p + [a])[..i] == p;
        }
      }
      assert p <= t;
      assert d.StopBelow(p, t);
    }
  }

  /** Every path is a prefix of some word. */
  lemma {:induction false} PathExtends(d: Dict, p: Word) returns (w: Word)
    requires d.Sound() && p in d.paths && p != []
    ensures w in d.words && p <= w
    decreases Below(d.paths, p)
  {
    if p in d.words {
      w := p;
    } else {
      assert HasChild(d.paths, p);
      var a :| p + [a] in d.paths;
      BelowShrinks(d.paths, p, a);
      w := PathExtends(d, p + [a]);
      assert p <= p + [a];
    }
  }

  /** If the search stands on a stop at q[..i], the next edge does not stick out past the end of q. */
  ghost predicate FitsAt(d: Dict, q: Word, i: nat)
    requires i < |q|
  {
    (i == 0 || Stop(d.words, d.paths, q[..i])) && q[..i + 1] in d.paths ==> |d.Next(q[..i + 1])| <= |q|
  }

  ghost predicate Fits(d: Dict, q: Word) {
    forall i :: 0 <= i < |q| ==> FitsAt(d, q, i)
  }

  /** No dictionary word longer than the query: then nothing sticks out. */
  lemma ShortWordsFit(d: Dict, q: Word)
    requires d.Sound() && forall w :: w in d.words ==> |w| <= |q|
    ensures Fits(d, q)
  {
    forall i | 0 <= i < |q| ensures FitsAt(d, q, i) {
      if q[..i + 1] in d.paths {
        NextExists(d, q[..i + 1]);
        var w := PathExtends(d, d.Next(q[..i + 1]));
      }
    }
  }

  /** Every word below p lies at or below the next stop. */
  lemma WordBelowNext(d: Dict, p: Word, t: Word, x: Word)
    requires d.Sound() && d.StopBelow(p, t) && x in d.words && p <= x
    ensures t <= x
  {
    assert t[..|p|] == p == x[..|p|];
    ChainCovers(d.words, d.paths, p, t, x, |p|);
    assert x <= t ==> t[..|x|] == x;
  }

  /** Between a stop and the next one, and off the next edge, there is no word. */
  lemma NoWordBetween(d: Dict, q: Word, i: nat, t: Word, n: nat)
    requires d.Sound() && i < |q| && d.StopBelow(q[..i + 1], t) && i + 1 <= n <= |q|
    requires !(t <= q[..n])
    ensures q[..n] !in d.words
  {
    assert q[..n][..i + 1] == q[..i + 1];
    if q[..n] in d.words {
      WordBelowNext(d, q[..i + 1], t, q[..n]);
    }
  }

  /** The edge into t: on the query nothing lies before t, and off the query nothing at all. */
  lemma EdgeAnswer(d: Dict, q: Word, i: nat, t: Word)
    requires d.Sound() && i < |q| && d.StopBelow(q[..i + 1], t) && |t| <= |q|
    ensures t[..i] == q[..i] && q[i..|t|] == t[i..] <==> q[..|t|] == t
    ensures q[..|t|] == t ==> LongestUpTo(d.words, q, |t| - 1) == LongestUpTo(d.words, q, i)
    ensures q[..|t|] != t ==> Longest(d.words, q) == LongestUpTo(d.words, q, i)
  {
    assert t[..i] == t[..i + 1][..i] == q[..i];
    assert t == q[..i] + t[i..] && q[..|t|] == q[..i] + q[i..|t|];
    if q[..|t|] == t {
      forall k | i < k < |t| ensures q[..k] !in d.words {
        NoWordBetween(d, q, i, t, k);
      }
      LongestSkips(d.words, q, i, |t| - 1);
    } else {
      forall k | i < k <= |q| ensures q[..k] !in d.words {
        assert |t| <= k ==> q[..k][..|t|] == q[..|t|];
        NoWordBetween(d, q, i, t, k);
      }
      LongestSkips(d.words, q, i, |q|);
    }
  }

  /** No path and no edge that fits: no word longer than q[..i] matches. */
  lemma NoLongerWord(d: Dict, q: Word, i: nat)
    requires d.Sound() && i < |q|
    requires q[..i + 1] !in d.paths || |d.Next(q[..i + 1])| > |q|
    ensures Longest(d.words, q) == LongestUpTo(d.words, q, i)
  {
    forall k | i < k <= |q| ensures q[..k] !in d.words {
      if q[..i + 1] in d.paths {
        NextExists(d, q[..i + 1]);
        NoWordBetween(d, q, i, d.Next(q[..i + 1]), k);
      } else {
        assert q[..k][..i + 1] == q[..i + 1];
      }
    }
    LongestSkips(d.words, q, i, |q|);
  }

  ghost predicate AtStop(d: Dict, q: Word, i: nat) {
    i < |q| && q[..i] in d.paths && (i == 0 || Stop(d.words, d.paths, q[..i])) && q[..i + 1] in d.paths
  }

  /** A slice within the query's symbols. */
  lemma Buffered(q: Word, spare: Word, i: nat, j: nat)
    requires i <= j <= |q|
    ensures (q + spare)[i..j] == q[i..j]
  {
  }

  /** The search moves along an edge that lies on the query. */
  lemma MoveOn(d: Dict, q: Word, spare: Word, i: nat, t: Word, best: Word)
    requires i < |t| <= |q| && q[..|t|] == t && q[..i + 1] in d.paths && t == d.Next(q[..i + 1])
    ensures d.Walk(q, spare, i, q[..i], q[..i], best) == d.Land(q, spare, |t|, t, t, best)
  {
    assert q[..i] + [q[i]] == q[..i + 1];
    Buffered(q, spare, i, |t|);
    assert q[i..|t|] == t[i..];
    assert q[..i] + t[i..] == t;
  }

  lemma LandOn(d: Dict, q: Word, spare: Word, t: Word, best: Word)
    requires |t| <= |q|
    ensures d.Land(q, spare, |t|, t, t, best) == d.Walk(q, spare, |t|, t, t, if t in d.words then t else best)
  {
  }

  /** What an edge that lies on the query leads to. */
  lemma StopOn(d: Dict, q: Word, i: nat, t: Word)
    requires d.Sound() && AtStop(d, q, i) && t == d.Next(q[..i + 1]) && |t| <= |q| && q[..|t|] == t
    ensures i < |t| && (|t| == |q| || q[..|t|] in d.paths) && Stop(d.words, d.paths, t)
    ensures LongestUpTo(d.words, q, |t|) == if t in d.words then t else LongestUpTo(d.words, q, i)
  {
    StopReached(d, q, i, t);
    EdgeAnswer(d, q, i, t);
    LongestStep(d.words, q, |t|);
  }

  lemma StopReached(d: Dict, q: Word, i: nat, t: Word)
    requires d.Sound() && AtStop(d, q, i) && t == d.Next(q[..i + 1]) && |t| <= |q| && q[..|t|] == t
    ensures i < |t| && q[..|t|] in d.paths && Stop(d.words, d.paths, t) && d.StopBelow(q[..i + 1], t)
  {
    NextExists(d, q[..i + 1]);
  }

  lemma LongestStep(words: set<Word>, q: Word, n: nat)
    requires 0 < n <= |q|
    ensures LongestUpTo(words, q, n) == if q[..n] in words then q[..n] else LongestUpTo(words, q, n - 1)
  {
  }

  /** One step of the search along an edge that lies on the query. */
  lemma StepOn(d: Dict, q: Word, spare: Word, i: nat, t: Word)
    requires d.Sound() && AtStop(d, q, i) && t == d.Next(q[..i + 1]) && |t| <= |q| && q[..|t|] == t
    ensures i < |t| && (|t| == |q| || q[..|t|] in d.paths) && Stop(d.words, d.paths, t)
    ensures d.Walk(q, spare, i, q[..i], q[..i], LongestUpTo(d.words, q, i))
      == d.Walk(q, spare, |t|, q[..|t|], q[..|t|], LongestUpTo(d.words, q, |t|))
  {
    StopOn(d, q, i, t);
    MoveOn(d, q, spare, i, t, LongestUpTo(d.words, q, i));
    LandOn(d, q, spare, t, LongestUpTo(d.words, q, i));
  }

  /** One step along an edge that is off the query or sticks out past its end. */
  lemma StepOff(d: Dict, q: Word, spare: Word, i: nat, t: Word)
    requires d.Sound() && AtStop(d, q, i) && t == d.Next(q[..i + 1]) && (|t| > |q| || q[..|t|] != t)
    ensures Longest(d.words, q) == LongestUpTo(d.words, q, i)
    ensures d.Walk(q, spare, i, q[..i], q[..i], LongestUpTo(d.words, q, i))
      == if |t| > |q| then d.Land(q, spare, i + 1, t, q[..i], LongestUpTo(d.words, q, i))
         else Matched(LongestUpTo(d.words, q, i))
  {
    assert q[..i] + [q[i]] == q[..i + 1];
    NextExists(d, q[..i + 1]);
    if |t| > |q| {
      NoLongerWord(d, q, i);
    } else {
      EdgeAnswer(d, q, i, t);
      Buffered(q, spare, i, |t|);
    }
  }

  // ---- Queries shorter than an edge ----

  /** From here on every word end the search lands on finds the builder equal to best, and no slice leaves the
    * buffer. */
  ghost predicate Harmless(d: Dict, q: Word, spare: Word, i: nat, at: Word, b: Word, best: Word)
    decreases |q| - i, 1
  {
    if i >= |q| || at + [q[i]] !in d.paths then true
    else
      var t := d.Next(at + [q[i]]);
      var n := |t| - |at|;
      if n <= 1 then HarmlessLand(d, q, spare, i + 1, t, b + [q[i]], best)
      else if |b| + n > |q| then HarmlessLand(d, q, spare, i + 1, t, b, best)
      else if i + n > |q| + |spare| then false
      else if (q + spare)[i..i + n] != t[|at|..] then true
      else HarmlessLand(d, q, spare, i + n, t, b + t[|at|..], best)
  }

  ghost predicate HarmlessLand(d: Dict, q: Word, spare: Word, i: nat, t: Word, b: Word, best: Word)
    decreases |q| - i, 2
  {
    if t !in d.words then Harmless(d, q, spare, i, t, b, best)
    else |b| > |q| || (b == best && (|b| == |q| || Harmless(d, q, spare, i, t, b, best)))
  }

  /** The builder only grows, so an answer other than the one so far extends the builder. */
  lemma {:induction false} WalkGrows(d: Dict, q: Word, spare: Word, i: nat, at: Word, b: Word, prefix: Word)
    ensures var r := d.Walk(q, spare, i, at, b, prefix); r.Matched? ==> r.prefix == prefix || b <= r.prefix
    decreases |q| - i, 1
  {
    if i < |q| && at + [q[i]] in d.paths {
      var t := d.Next(at + [q[i]]);
      var n := |t| - |at|;
      if n <= 1 {
        LandGrows(d, q, spare, i + 1, t, b + [q[i]], prefix);
      } else if |b| + n > |q| {
        LandGrows(d, q, spare, i + 1, t, b, prefix);
      } else if i + n <= |q| + |spare| && (q + spare)[i..i + n] == t[|at|..] {
        LandGrows(d, q, spare, i + n, t, b + t[|at|..], prefix);
      }
    }
  }

  lemma {:induction false} LandGrows(d: Dict, q: Word, spare: Word, i: nat, t: Word, b: Word, prefix: Word)
    ensures var r := d.Land(q, spare, i, t, b, prefix); r.Matched? ==> r.prefix == prefix || b <= r.prefix
    decreases |q| - i, 2
  {
    WalkGrows(d, q, spare, i, t, b, if t in d.words then b else prefix);
  }

  /** An answer no longer than the builder survives the rest of the search exactly when the rest is harmless. */
  lemma {:induction false} Settled(d: Dict, q: Word, spare: Word, i: nat, at: Word, b: Word, best: Word)
    requires |best| <= |b|
    ensures d.Walk(q, spare, i, at, b, best) == Matched(best) <==> Harmless(d, q, spare, i, at, b, best)
    decreases |q| - i, 1
  {
    if i < |q| && at + [q[i]] in d.paths {
      var t := d.Next(at + [q[i]]);
      var n := |t| - |at|;
      if n <= 1 {
        SettledLand(d, q, spare, i + 1, t, b + [q[i]], best);
      } else if |b| + n > |q| {
        SettledLand(d, q, spare, i + 1, t, b, best);
      } else if i + n <= |q| + |spare| && (q + spare)[i..i + n] == t[|at|..] {
        SettledLand(d, q, spare, i + n, t, b + t[|at|..], best);
      }
    }
  }

  lemma {:induction false} SettledLand(d: Dict, q: Word, spare: Word, i: nat, t: Word, b: Word, best: Word)
    requires |best| <= |b|
    ensures d.Land(q, spare, i, t, b, best) == Matched(best) <==> HarmlessLand(d, q, spare, i, t, b, best)
    decreases |q| - i, 2
  {
    if t !in d.words || b == best {
      Settled(d, q, spare, i, t, b, best);
    } else {
      WalkGrows(d, q, spare, i, t, b, b);
    }
  }

  /** The search from the stop q[..i] meets no edge that sticks out past q, or what follows that edge is harmless. */
  ghost predicate NoStray(d: Dict, q: Word, spare: Word, i: nat)
    requires i <= |q|
    decreases |q| - i
  {
    if i == |q| || q[..i + 1] !in d.paths then true
    else
      var t := d.Next(q[..i + 1]);
      if |t| > |q| then HarmlessLand(d, q, spare, i + 1, t, q[..i], LongestUpTo(d.words, q, i))
      else if |t| > i && q[..|t|] == t then NoStray(d, q, spare, |t|)
      else true
  }

  /** The search returns the longest matching word exactly when it never strays. */
  lemma {:induction false} WalkExact(d: Dict, q: Word, spare: Word, i: nat)
    requires d.Sound() && i <= |q| && (i == 0 || Stop(d.words, d.paths, q[..i])) && q[..i] in d.paths
    ensures d.Walk(q, spare, i, q[..i], q[..i], LongestUpTo(d.words, q, i)) == Matched(Longest(d.words, q))
      <==> NoStray(d, q, spare, i)
    decreases |q| - i
  {
    if i < |q| {
      if q[..i + 1] !in d.paths {
        assert q[..i] + [q[i]] == q[..i + 1];
        NoLongerWord(d, q, i);
      } else {
        var t := d.Next(q[..i + 1]);
        if |t| <= |q| && q[..|t|] == t {
          StepOn(d, q, spare, i, t);
          WalkExact(d, q, spare, |t|);
        } else {
          StepOff(d, q, spare, i, t);
          LongestIsLongest(d.words, q, i);
          SettledLand(d, q, spare, i + 1, t, q[..i], LongestUpTo(d.words, q, i));
        }
      }
    }
  }

  /** When no edge sticks out past the query, the search cannot stray. */
  lemma {:induction false} FitsNoStray(d: Dict, q: Word, spare: Word, i: nat)
    requires d.Sound() && Fits(d, q) && i <= |q| && (i == 0 || Stop(d.words, d.paths, q[..i]))
    ensures NoStray(d, q, spare, i)
    decreases |q| - i
  {
    if i < |q| && q[..i + 1] in d.paths {
      assert FitsAt(d, q, i);
      NextExists(d, q[..i + 1]);
      var t := d.Next(q[..i + 1]);
      if q[..|t|] == t {
        FitsNoStray(d, q, spare, |t|);
      }
    }
  }

  /** The whole search: exact when it never strays; it never strays when no edge sticks out past the query, as when no
    * word is longer than the query. */
  lemma SearchExact(d: Dict, q: Word, spare: Word)
    requires d.Sound()
    ensures d.Walk(q, spare, 0, [], [], []) == Matched(Longest(d.words, q)) <==> NoStray(d, q, spare, 0)
    ensures (forall w :: w in d.words ==> |w| <= |q|) ==> Fits(d, q)
    ensures Fits(d, q) ==> NoStray(d, q, spare, 0)
  {
    assert q[..0] == [];
    WalkExact(d, q, spare, 0);
    if forall w :: w in d.words ==> |w| <= |q| {
      ShortWordsFit(d, q);
    }
    if Fits(d, q) {
      FitsNoStray(d, q, spare, 0);
    }
  }

  /** On its way to a stop that lies on the query the search does not stray. */
  lemma {:induction false} NoStrayBefore(d: Dict, q: Word, spare: Word, i: nat, n: nat)
    requires d.Sound() && i <= n <= |q| && q[..n] in d.paths && (i == n || Stop(d.words, d.paths, q[..n]))
    ensures NoStray(d, q, spare, i) <==> NoStray(d, q, spare, n)
    decreases n - i
  {
    if i < n {
      var p := q[..i + 1];
      assert p == q[..n][..i + 1];
      NextExists(d, p);
      var t := d.Next(p);
      StopCovers(d, p, t, q[..n]);
      assert q[..n][..|t|] == q[..|t|];
      NoStrayBefore(d, q, spare, |t|, n);
    }
  }

  /** No stop lies before the next one. */
  lemma StopCovers(d: Dict, p: Word, t: Word, x: Word)
    requires d.Sound() && d.StopBelow(p, t) && x in d.paths && p <= x && Stop(d.words, d.paths, x)
    ensures t <= x
  {
    assert t[..|p|] == p == x[..|p|];
    ChainCovers(d.words, d.paths, p, t, x, |p|);
    assert x <= t ==> t[..|x|] == x;
  }

  /** A query that ends one symbol into a longer edge is answered right exactly when the edge does not lead to a word,
    * or starts where the answer so far ends. */
  lemma OneSymbolIn(d: Dict, q: Word, spare: Word)
    requires d.Sound() && q != [] && q in d.paths && |d.Next(q)| > |q|
    requires |q| == 1 || Stop(d.words, d.paths, q[..|q| - 1])
    ensures var n := |q| - 1;
            d.Walk(q, spare, 0, [], [], []) == Matched(Longest(d.words, q)) <==>
              (d.Next(q) in d.words ==> q[..n] == LongestUpTo(d.words, q, n))
  {
    var n := |q| - 1;
    assert q[..n + 1] == q && q[..0] == [];
    SearchExact(d, q, spare);
    assert n > 0 ==> q[..n][..n] == q[..n];
    NoStrayBefore(d, q, spare, 0, n);
    var best := LongestUpTo(d.words, q, n);
    assert Harmless(d, q, spare, n + 1, d.Next(q), q[..n], best);
    assert HarmlessLand(d, q, spare, n + 1, d.Next(q), q[..n], best)
      <==> (d.Next(q) in d.words ==> q[..n] == best);
  }

  /** The words of a trie fix its paths. */
  lemma SamePaths(d: Dict, e: Dict)
    requires d.Sound() && e.Sound() && d.words == e.words && d.words != {}
    ensures d == e
  {
    WithinPaths(d, e);
    WithinPaths(e, d);
  }

  lemma WithinPaths(d: Dict, e: Dict)
    requires d.Sound() && e.Sound() && d.words == e.words && d.words != {}
    ensures d.paths <= e.paths
  {
    forall p | p in d.paths ensures p in e.paths {
      var w :| w in d.words;
      if p != [] {
        w := PathExtends(d, p);
      }
      assert w in e.paths && w[..|p|] == p;
    }
  }

  // The words ab and acde.
  const A: Symbol := 97
  const B: Symbol := 98
  const C: Symbol := 99
  const D: Symbol := 100
  const E: Symbol := 101

  ghost const AbAcde := Dict({[A, B], [A, C, D, E]}, {[], [A], [A, B], [A, C], [A, C, D], [A, C, D, E]})

  lemma AbAcdeSound()
    ensures AbAcde.Sound()
  {
    forall p, n | p in AbAcde.paths && 0 <= n <= |p| ensures p[..n] in AbAcde.paths {
      if n == 0 {
        assert p[..n] == [];
      } else if n == |p| {
        assert p[..n] == p;
      } else if n == 1 {
        assert p[..n] == [A];
      } else if n == 2 {
        assert p[..n] == [A, C];
      } else {
        assert p[..n] == [A, C, D];
      }
    }
    assert [A] + [B] == [A, B] && [A, C] + [D] == [A, C, D] && [A, C, D] + [E] == [A, C, D, E];
  }

  lemma AbAcdeChildren(k: Symbol)
    ensures [A, C] + [k] in AbAcde.paths ==> k == D
    ensures [A, C, D] + [k] in AbAcde.paths ==> k == E
  {
    assert ([A, C] + [k])[2] == k && ([A, C, D] + [k])[3] == k;
    assert |[A, C] + [k]| == 3 && |[A, C, D] + [k]| == 4;
  }

  lemma AbAcdeNext()
    ensures AbAcde.Next([A]) == [A] && AbAcde.Next([A, C]) == [A, C, D, E]
  {
    AbAcdeSound();
    assert Fork(AbAcde.paths, [A]) by {
      assert [A] + [B] == [A, B] && [A] + [C] == [A, C];
    }
    assert AbAcde.StopBelow([A], [A]);
    NextUnique(AbAcde, [A], [A]);
    var t := [A, C, D, E];
    forall k ensures ([A, C] + [k] in AbAcde.paths ==> k == D) && ([A, C, D] + [k] in AbAcde.paths ==> k == E) {
      AbAcdeChildren(k);
    }
    assert t[..2] == [A, C] && t[..3] == [A, C, D];
    forall i | 2 <= i < 4 ensures !Stop(AbAcde.words, AbAcde.paths, t[..i]) {
      assert i == 2 || i == 3;
    }
    assert AbAcde.StopBelow([A, C], t);
    NextUnique(AbAcde, [A, C], t);
  }

  /** The query acd is shorter than the edge to acde, and is answered with a, which is no word. */
  lemma StrayAnswer()
    ensures AbAcde.Sound() && [A] !in AbAcde.words && Longest(AbAcde.words, [A, C, D]) == []
    ensures AbAcde.Walk([A, C, D], [], 0, [], [], []) == Matched([A])
  {
    var q := [A, C, D];
    AbAcdeSound();
    AbAcdeNext();
    LongestIsLongest(AbAcde.words, q, 3);
    forall w | w in AbAcde.words ensures !(w <= q) {
      if w == [A, B] {
        assert w[1] == B && q[1] == C;
      } else {
        assert |w| == 4;
      }
    }
    assert [] + [q[0]] == [A] && [A] + [q[1]] == [A, C];
    assert AbAcde.Walk(q, [], 0, [], [], []) == AbAcde.Land(q, [], 1, [A], [A], []);
    assert AbAcde.Land(q, [], 1, [A], [A], []) == AbAcde.Walk(q, [], 1, [A], [A], []);
    assert AbAcde.Walk(q, [], 1, [A], [A], []) == AbAcde.Land(q, [], 2, [A, C, D, E], [A], []);
    assert AbAcde.Land(q, [], 2, [A, C, D, E], [A], []) == AbAcde.Walk(q, [], 2, [A, C, D, E], [A], [A]);
  }
}
