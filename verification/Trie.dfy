/** The static trie and its compression in place (infra/trie/trie.go). */
module Trie {
  import opened Options
  import opened TrieSpec
  import opened TrieSearch

  class Node {
    ghost const path: Word
    var c: map<Symbol, Edge>
    var end: bool

    constructor (ghost path: Word)
      ensures this.path == path && c == map[] && !end
    {
      this.path := path;
      c, end := map[], false;
    }
  }

  class Edge {
    ghost const path: Word
    var node: Node
    var str: Option<Word>

    constructor (ghost path: Word, node: Node)
      ensures this.path == path && this.node == node && str == None
    {
      this.path := path;
      this.node, str := node, None;
    }
  }

  datatype Link = Link(node: Node, str: Option<Word>)

  /** The trie as a set of paths, with the object that stands for each path and for the edge into it. */
  datatype Model = Model(words: set<Word>, paths: set<Word>, node: map<Word, Node>, edge: map<Word, Edge>,
                         nodes: set<Node>, edges: set<Edge>)
  {
    ghost predicate Sound() {
      && PrefixClosed(paths) && words <= paths && [] !in words
      && node.Keys == paths && edge.Keys == paths - {[]}
      && (forall p :: p in node ==> node[p] in nodes && node[p].path == p)
      && (forall p :: p in edge ==> edge[p] in edges && edge[p].path == p)
    }

    /** The node of path p has exactly the edges to the paths one symbol longer. */
    ghost predicate NodeOk(p: Word)
      requires p in node && node[p] in nodes
      reads nodes
    {
      (node[p].end <==> p in words) && KidsOk(node[p].c, p)
    }

    ghost predicate KidsOk(c: map<Symbol, Edge>, p: Word) {
      && (forall a :: a in c <==> p + [a] in paths)
      && (forall a :: a in c ==> p + [a] in edge && c[a] == edge[p + [a]])
    }

    ghost predicate NodesOk()
      requires Sound()
      reads nodes
    {
      forall p {:trigger NodeOk(p)} :: p in node ==> NodeOk(p)
    }

    /** Sound speaks of what never changes, NodesOk of the objects' fields. */
    ghost predicate Shape()
      reads nodes
    {
      Sound() && NodesOk()
    }

    /** Edges as New links them: each leads to the node of its own path. */
    ghost predicate Linked(p: Word)
      requires p in edge && p in node && edge[p] in edges
      reads edges
    {
      edge[p].node == node[p] && edge[p].str == None
    }

    ghost predicate Built()
      reads nodes, edges
    {
      Shape() && forall p {:trigger Linked(p)} :: p in edge ==> Linked(p)
    }

    ghost function Dict(): Dict {
      TrieSearch.Dict.Dict(words, paths)
    }

    /** Where each edge leads and how it is labelled. */
    ghost function View(): (v: map<Word, Link>)
      requires Sound()
      reads edges
    {
      map x | x in edge :: Link(edge[x].node, edge[x].str)
    }

    /** Where an edge may be cut: below the root, below a word end, below a fork. */
    ghost predicate Inner(p: Word) {
      p == [] || Stop(words, paths, p)
    }

    ghost predicate Pristine(v: map<Word, Link>, p: Word) {
      p in v && p in node && v[p] == Link(node[p], None)
    }

    /** The edge into p leads to the next stop t at or below p, and is labelled with the branch up to t. */
    ghost predicate Jumps(v: map<Word, Link>, p: Word, t: Word)
      requires p != []
    {
      && Chain(words, paths, p, t) && Stop(words, paths, t)
      && p in v && t in node && v[p] == Link(node[t], if t == p then None else Some(t[|p| - 1..]))
    }

    /** An edge as compression leaves it. */
    ghost predicate Compressed(v: map<Word, Link>, p: Word)
      requires p != []
    {
      if Inner(p[..|p| - 1]) then exists t :: Jumps(v, p, t) else Pristine(v, p)
    }

    ghost predicate OnChain(f: Word, p: Word) {
      && f in edge && p in edge && f != [] && Inner(f[..|f| - 1]) && Chain(words, paths, f, p)
    }

    ghost predicate AllPristine(v: map<Word, Link>, f: Word) {
      forall x {:trigger Pristine(v, x)} :: x in edge && Under(f, x) ==> Pristine(v, x)
    }

    ghost predicate AllCompressed(v: map<Word, Link>, f: Word) {
      forall x {:trigger Compressed(v, x)} :: x in edge && x != [] && Under(f, x) ==> Compressed(v, x)
    }

    /** The edges of the branch from f to p are as compression leaves them. */
    ghost predicate BranchCompressed(v: map<Word, Link>, f: Word, p: Word) {
      forall n {:trigger p[..n]} :: |f| <= n <= |p| && n > 0 ==> Compressed(v, p[..n])
    }

    ghost predicate Done(v: map<Word, Link>) {
      forall x {:trigger Compressed(v, x)} :: x in edge && x != [] ==> Compressed(v, x)
    }

    /** The children of the root among c are done except those in keys. */
    ghost predicate RootProgress(v: map<Word, Link>, c: set<Symbol>, keys: set<Symbol>) {
      && v.Keys == edge.Keys
      && (forall k :: k in keys ==> AllPristine(v, [k]))
      && (forall k :: k in c - keys ==> AllCompressed(v, [k]))
    }

    /** Outside the part below f nothing has changed. */
    ghost predicate SameOutside(v: map<Word, Link>, v': map<Word, Link>, f: Word) {
      v.Keys == v'.Keys && forall x {:trigger Under(f, x)} :: x in v && !Under(f, x) ==> v'[x] == v[x]
    }

    /** The children of the stop p among c are done except those in keys. */
    ghost predicate Progress(v: map<Word, Link>, w: map<Word, Link>, f: Word, p: Word, c: set<Symbol>,
                             keys: set<Symbol>) {
      && SameOutside(v, w, f) && BranchCompressed(w, f, p)
      && (forall k :: k in keys ==> AllPristine(w, p + [k]))
      && (forall k :: k in c - keys ==> AllCompressed(w, p + [k]))
    }

    /** Every path other than [] and x leads to a word. */
    ghost predicate LivelyBut(x: Word) {
      forall p {:trigger HasChild(paths, p)} ::
        p in paths && p != [] && p != x && p !in words ==> HasChild(paths, p)
    }

    ghost function Grown(q: Word, child: Node, n: Edge): Model {
      Model(words, paths + {q}, node[q := child], edge[q := n], nodes + {child}, edges + {n})
    }
  }

  class Trie {
    const root: Node
    ghost var m: Model

    /** Links the nodes of every dictionary word. */
    constructor (dict: seq<Word>)
      ensures m.Built() && m.LivelyBut([]) && m.node[[]] == root
      ensures m.words == WordsOf(dict)
      ensures fresh(m.nodes) && fresh(m.edges)
    {
      var r := new Node([]);
      root := r;
      m := Model({}, {[]}, map[[] := r], map[], {r}, {});
      new;
      for k := 0 to |dict|
        invariant m.Built() && m.node[[]] == root && m.LivelyBut([])
        invariant m.words == WordsOf(dict[..k])
        invariant fresh(m.nodes) && fresh(m.edges)
      {
        WordsOfNext(dict, k);
        Add(dict[k]);
      }
      assert dict[..|dict|] == dict;
    }

    /** Links the nodes of one dictionary word; the empty word leaves no mark. */
    method Add(d: Word)
      requires m.Built() && m.LivelyBut([]) && m.node[[]] == root
      modifies this, m.nodes
      ensures m.Built() && m.LivelyBut([]) && m.node[[]] == root
      ensures m.words == old(m).words + (if d == [] then {} else {d})
      ensures forall o :: o in m.nodes ==> o in old(m).nodes || fresh(o)
      ensures forall o :: o in m.edges ==> o in old(m).edges || fresh(o)
    {
      var p := root;
      assert d[..0] == [] && d[..|d|] == d;
      for i := 0 to |d|
        invariant m.Built() && m.node[[]] == root
        invariant d[..i] in m.paths && p == m.node[d[..i]]
        invariant m.words == old(m).words + (if 0 < i == |d| then {d} else {})
        invariant m.LivelyBut(d[..i])
        invariant forall o :: o in m.nodes ==> o in old(m).nodes || fresh(o)
        invariant forall o :: o in m.edges ==> o in old(m).edges || fresh(o)
      {
        SliceNext(d, i);
        p := Descend(p, d[i]);
        if i == |d| - 1 {
          MarkEnd(p);
        }
      }
    }

    /** Adds a leaf under an existing path. */
    method Grow(p: Node, r: Symbol)
      requires m.Shape() && p.path in m.paths && m.node[p.path] == p && r !in p.c
      modifies this, p
      ensures m.Shape() && r in p.c && fresh(p.c[r]) && fresh(p.c[r].node)
      ensures m == old(m).Grown(p.path + [r], p.c[r].node, p.c[r]) && p.c[r].str == None
    {
      ghost var q := p.path + [r];
      var child := new Node(q);
      var n := new Edge(q, child);
      ghost var m0 := m;
      assert m0.NodeOk(p.path);
      GrownSound(m0, p.path, r, child, n);
      p.c := p.c[r := n];
      m := m0.Grown(q, child, n);
      forall x | x in m.node ensures m.NodeOk(x) {
        if x == q {
          KidsNew(m0, p.path, r, child, n);
        } else {
          assert old(m0.NodeOk(x));
          KidsGrown(m0, p.path, r, child, n, old(m0.node[x].c), x);
        }
      }
    }

    method GrowBuilt(p: Node, r: Symbol)
      requires m.Built() && p.path in m.paths && m.node[p.path] == p && r !in p.c
      modifies this, p
      ensures m.Built() && r in p.c && fresh(p.c[r]) && fresh(p.c[r].node)
      ensures m == old(m).Grown(p.path + [r], p.c[r].node, p.c[r])
    {
      ghost var m0 := m;
      Grow(p, r);
      forall x | x in m.edge ensures m.Linked(x) {
        assert x != p.path + [r] ==> old(m0.Linked(x));
      }
    }

    /** Follows symbol r down from p, adding the edge if it is missing. */
    method Descend(p: Node, r: Symbol) returns (child: Node)
      requires m.Built() && p.path in m.paths && m.node[p.path] == p && m.LivelyBut(p.path)
      modifies this, p
      ensures m.Built() && p.path + [r] in m.paths && child == m.node[p.path + [r]] && m.LivelyBut(p.path + [r])
      ensures m.words == old(m).words && m.node[[]] == old(m).node[[]]
      ensures forall o :: o in m.nodes ==> o in old(m).nodes || fresh(o)
      ensures forall o :: o in m.edges ==> o in old(m).edges || fresh(o)
    {
      ghost var m0 := m;
      assert m.NodeOk(p.path);
      if r !in p.c {
        GrowBuilt(p, r);
        GrownLively(m0, p.path, r, p.c[r].node, p.c[r]);
      }
      assert m.NodeOk(p.path) && m.Linked(p.path + [r]);
      child := p.c[r].node;
    }

    method MarkEnd(p: Node)
      requires m.Built() && p.path in m.paths && m.node[p.path] == p && p.path != []
      modifies this, p`end
      ensures m.Built() && m == old(m).(words := old(m).words + {p.path})
    {
      ghost var m0 := m;
      p.end := true;
      m := m0.(words := m0.words + {p.path});
      forall x | x in m.node ensures m.NodeOk(x) {
        assert old(m0.NodeOk(x));
      }
      forall x | x in m.edge ensures m.Linked(x) {
        assert old(m0.Linked(x));
      }
    }

    /** Makes an edge lead where another leads, past what str spells. */
    method FastJump(from: Edge, to: Edge, str: Word, ghost f: Word)
      requires m.Shape() && f in m.edge && from == m.edge[f]
      modifies from`node, from`str
      ensures m.NodesOk() && m.View() == old(m.View())[f := Link(old(to.node), Some(str))]
    {
      ghost var v := m.View();
      from.node := to.node;
      from.str := Some(str);
      forall x | x in m.edge ensures m.View()[x] == v[f := Link(old(to.node), Some(str))][x] {
        assert m.edge[x].path == x;
      }
      assert m.View().Keys == v.Keys;
    }

    /** When p is a stop, makes the edge into f lead straight to p. */
    method JumpHere(cur: Edge, from: Edge, builder: Word, ghost f: Word, ghost p: Word) returns (fork: bool)
      requires m.Shape() && m.OnChain(f, p) && from == m.edge[f] && cur == m.edge[p] && builder == p[|f| - 1..]
      requires m.AllPristine(m.View(), f)
      modifies m.edges`node, m.edges`str
      ensures m.NodesOk() && (fork <==> Stop(m.words, m.paths, p))
      ensures !fork ==> m.View() == old(m.View())
      ensures fork ==> m.View() == old(m.View())[f := Link(m.node[p], if f == p then None else Some(builder))]
    {
      fork := false;
      ghost var v := m.View();
      AtNode(m, v, f, p);
      assert cur.node == v[p].node && cur.node == m.node[p];
      StopHere(p);
      if cur.node.end || |cur.node.c| > 1 {
        if |builder| > 1 {
          FastJump(from, cur, builder, f);
        } else {
          assert v[f := v[f]] == v;
        }
        fork := true;
      }
    }

    /** A stop shows in its node's fields. */
    lemma StopHere(p: Word)
      requires m.Shape() && p in m.paths && p != []
      ensures m.node[p].end || |m.node[p].c| > 1 <==> Stop(m.words, m.paths, p)
    {
      assert m.NodeOk(p);
      KidsFork(m, m.node[p].c, p);
    }

    /** Compresses everything reached through the edge `from` into f; the walk stands at p, on the branch below f.
      * Every child of a stop starts a branch of its own; a node that is no stop has exactly one child, which
      * continues the branch with the builder grown by its symbol. */
    method MakeJumpAt(cur: Edge, from: Edge, builder: Word, ghost f: Word, ghost p: Word)
      requires m.Shape() && m.LivelyBut([]) && m.OnChain(f, p)
      requires from == m.edge[f] && cur == m.edge[p] && builder == p[|f| - 1..]
      requires m.AllPristine(m.View(), f)
      modifies m.edges`node, m.edges`str
      ensures m.NodesOk() && m.AllCompressed(m.View(), f) && m.SameOutside(old(m.View()), m.View(), f)
      decreases Below(m.paths, p), 1, 0
    {
      ghost var v := m.View();
      KidsHere(f, p);
      var kids := cur.node.c;
      var fork := JumpHere(cur, from, builder, f, p);
      if fork {
        BelowStop(kids, f, p, v);
      } else {
        AlongOnlyChild(kids, from, builder, f, p);
      }
    }

    /** The edges that lead on from an untouched one. */
    lemma KidsHere(f: Word, p: Word)
      requires m.Shape() && m.OnChain(f, p) && m.AllPristine(m.View(), f)
      ensures m.KidsOk(m.edge[p].node.c, p)
    {
      AtNode(m, m.View(), f, p);
      assert m.edge[p].node == m.View()[p].node;
      assert m.NodeOk(p);
    }

    /** The walk below a stop, once the edge into f leads to it. */
    method BelowStop(kids: map<Symbol, Edge>, ghost f: Word, ghost p: Word, ghost v: map<Word, Link>)
      requires m.Shape() && m.LivelyBut([]) && m.OnChain(f, p) && Stop(m.words, m.paths, p) && m.KidsOk(kids, p)
      requires m.AllPristine(v, f) && v.Keys == m.edge.Keys
      requires m.View() == v[f := Link(m.node[p], if f == p then None else Some(p[|f| - 1..]))]
      modifies m.edges`node, m.edges`str
      ensures m.NodesOk() && m.AllCompressed(m.View(), f) && m.SameOutside(v, m.View(), f)
      decreases Below(m.paths, p), 0, 2
    {
      JumpDone(m, v, f, p);
      EachChild(kids, f, p, v);
    }

    /** The walk through a node that is no stop: its one child continues the branch. */
    method AlongOnlyChild(kids: map<Symbol, Edge>, from: Edge, builder: Word, ghost f: Word, ghost p: Word)
      requires m.Shape() && m.LivelyBut([]) && m.OnChain(f, p) && !Stop(m.words, m.paths, p) && m.KidsOk(kids, p)
      requires from == m.edge[f] && builder == p[|f| - 1..] && m.AllPristine(m.View(), f)
      modifies m.edges`node, m.edges`str
      ensures m.NodesOk() && m.AllCompressed(m.View(), f) && m.SameOutside(old(m.View()), m.View(), f)
      decreases Below(m.paths, p), 0, 1
    {
      NotLeaf(m, kids, p);
      var k :| k in kids;
      OnlyChild(m, kids, f, p, k);
      BelowShrinks(m.paths, p, k);
      MakeJumpAt(kids[k], from, builder + [k], f, p + [k]);
    }

    /** The walk below a stop. */
    method EachChild(kids: map<Symbol, Edge>, ghost f: Word, ghost p: Word, ghost v: map<Word, Link>)
      requires m.Shape() && m.LivelyBut([]) && m.OnChain(f, p) && Stop(m.words, m.paths, p) && m.KidsOk(kids, p)
      requires m.Progress(v, m.View(), f, p, kids.Keys, kids.Keys)
      modifies m.edges`node, m.edges`str
      ensures m.NodesOk() && m.AllCompressed(m.View(), f) && m.SameOutside(v, m.View(), f)
      decreases Below(m.paths, p), 0, 1
    {
      var keys := kids.Keys;
      while keys != {}
        invariant m.Shape() && keys <= kids.Keys
        invariant m.Progress(v, m.View(), f, p, kids.Keys, keys)
      {
        var k :| k in keys;
        OneChild(kids, k, f, p, v, keys);
        keys := keys - {k};
      }
      ForkDone(m, kids, m.View(), f, p);
    }

    method OneChild(kids: map<Symbol, Edge>, k: Symbol, ghost f: Word, ghost p: Word, ghost v: map<Word, Link>,
                    ghost keys: set<Symbol>)
      requires m.Shape() && m.LivelyBut([]) && m.OnChain(f, p) && Stop(m.words, m.paths, p) && m.KidsOk(kids, p)
      requires k in keys && keys <= kids.Keys && m.Progress(v, m.View(), f, p, kids.Keys, keys)
      modifies m.edges`node, m.edges`str
      ensures m.NodesOk() && m.Progress(v, m.View(), f, p, kids.Keys, keys - {k})
      decreases Below(m.paths, p), 0, 0
    {
      ghost var u := m.View();
      KidAt(m, kids, p, k);
      SubtreeAt(m, p, k);
      BelowShrinks(m.paths, p, k);
      MakeJumpAt(kids[k], kids[k], [k], p + [k], p + [k]);
      ProgressStep(m, v, u, m.View(), f, p, kids.Keys, keys, k);
    }

    /** Compresses the whole trie, one child of the root after the other. */
    method MakeJump()
      requires m.Built() && m.LivelyBut([]) && m.node[[]] == root
      modifies m.edges`node, m.edges`str
      ensures m.Shape() && m.Done(m.View())
    {
      assert m.NodeOk([]);
      AllLinked(m);
      var kids := root.c;
      var keys := kids.Keys;
      while keys != {}
        invariant m.Shape() && m.KidsOk(kids, []) && keys <= kids.Keys
        invariant m.RootProgress(m.View(), kids.Keys, keys)
      {
        var k :| k in keys;
        RootChild(kids, k, keys);
        keys := keys - {k};
      }
      RootDone(m, kids, m.View());
    }

    method RootChild(kids: map<Symbol, Edge>, k: Symbol, ghost keys: set<Symbol>)
      requires m.Shape() && m.LivelyBut([]) && m.KidsOk(kids, [])
      requires k in keys && keys <= kids.Keys && m.RootProgress(m.View(), kids.Keys, keys)
      modifies m.edges`node, m.edges`str
      ensures m.NodesOk() && m.RootProgress(m.View(), kids.Keys, keys - {k})
    {
      ghost var u := m.View();
      RootKid(m, kids, k);
      MakeJumpAt(kids[k], kids[k], [k], [k], [k]);
      RootStep(m, u, m.View(), kids.Keys, keys, k);
    }

    /** The compressed trie of a dictionary. */
    ghost predicate Ready()
      reads this, m.nodes, m.edges
    {
      && m.Shape() && m.LivelyBut([]) && m.node[[]] == root
      && m.Done(m.View())
    }

    static method New(dict: seq<Word>) returns (t: Trie)
      ensures fresh(t) && t.Ready() && t.m.words == WordsOf(dict)
    {
      t := new Trie(dict);
      t.MakeJump();
    }

    /** What an edge below a stop holds. */
    lemma EdgeBelow(at: Word, r: Symbol)
      requires Ready() && at in m.paths && m.Inner(at)
      ensures r in m.node[at].c <==> at + [r] in m.paths
      ensures r in m.node[at].c ==>
        var e, t := m.node[at].c[r], m.Dict().Next(at + [r]);
        && t in m.paths && m.Inner(t) && at + [r] <= t && e.node == m.node[t] && (e.node.end <==> t in m.words)
        && e.str == if |t| == |at| + 1 then None else Some(t[|at|..])
    {
      assert m.NodeOk(at);
      if r in m.node[at].c {
        var x := at + [r];
        assert m.Compressed(m.View(), x) && x[..|x| - 1] == at;
        var t :| m.Jumps(m.View(), x, t);
        assert m.Dict().StopBelow(x, t);
        NextUnique(m.Dict(), x, t);
        assert m.NodeOk(t);
        assert |t| == |x| ==> t == x;
      }
    }

    /** The longest word that is a prefix of q, whenever no word is longer than q; in general, whenever no edge on the
      * query's way sticks out past its end; and exactly when what follows such an edge does no harm. */
    method Match(q: Word, spare: Word) returns (r: Outcome)
      requires Ready()
      ensures r == m.Dict().Walk(q, spare, 0, [], [], [])
      ensures (forall w :: w in m.words ==> |w| <= |q|) ==> r == Matched(Longest(m.words, q))
      ensures Fits(m.Dict(), q) ==> r == Matched(Longest(m.words, q))
      ensures r == Matched(Longest(m.words, q)) <==> NoStray(m.Dict(), q, spare, 0)
    {
      SearchExact(m.Dict(), q, spare);
      r := Search(q, spare);
    }

    /** The search, step by step. spare is what lies behind the query's symbols in their buffer. */
    method Search(q: Word, spare: Word) returns (r: Outcome)
      requires Ready()
      ensures r == m.Dict().Walk(q, spare, 0, [], [], [])
    {
      var builder: Word, prefix: Word := [], [];
      var p, i := root, 0;
      ghost var at: Word := [];
      ghost var d := m.Dict();
      while i < |q|
        invariant at in m.paths && m.Inner(at) && p == m.node[at]
        invariant d.Walk(q, spare, i, at, builder, prefix) == d.Walk(q, spare, 0, [], [], [])
        decreases |q| - i
      {
        var c := q[i];
        EdgeBelow(at, c);
        if c !in p.c {
          return Matched(prefix);
        }
        var tmp := p.c[c];
        ghost var t := d.Next(at + [c]);
        if tmp.str.None? {
          builder := builder + [c];
        } else {
          var s := tmp.str.value;
          if |builder| + |s| <= |q| {
            if i + |s| > |q| + |spare| {
              return Panicked;
            }
            if (q + spare)[i..i + |s|] != s {
              break;
            }
            builder := builder + s;
            i := i + |s| - 1;
          }
        }
        if tmp.node.end {
          if |builder| > |q| {
            break;
          }
          prefix := builder;
          if |prefix| == |q| {
            break;
          }
        }
        p := tmp.node;
        at := t;
        i := i + 1;
      }
      return Matched(prefix);
    }
  }

  /** The trie that is built of the words ab and acde answers the query acd with a, which is no word. */
  method StrayOnTrie() returns (r: Outcome)
    ensures r == Matched([A]) && [A] !in WordsOf([[A, B], [A, C, D, E]])
    ensures Longest(WordsOf([[A, B], [A, C, D, E]]), [A, C, D]) == []
  {
    var dict := [[A, B], [A, C, D, E]];
    var t := Trie.New(dict);
    assert dict[0] in dict && dict[1] in dict;
    assert t.m.words == AbAcde.words;
    StrayAnswer();
    SamePaths(t.m.Dict(), AbAcde);
    r := t.Match([A, C, D], []);
  }

  lemma AllLinked(g: Model)
    requires g.Built()
    ensures forall f :: g.AllPristine(g.View(), f)
  {
    forall f, x | x in g.edge && Under(f, x) ensures g.Pristine(g.View(), x) {
      assert g.Linked(x);
    }
  }

  lemma RootKid(g: Model, kids: map<Symbol, Edge>, k: Symbol)
    requires g.Sound() && g.KidsOk(kids, []) && k in kids
    ensures g.OnChain([k], [k]) && kids[k] == g.edge[[k]]
  {
    assert [] + [k] == [k];
  }

  lemma RootSiblings(g: Model, u: map<Word, Link>, v: map<Word, Link>, k: Symbol)
    requires g.Sound() && g.SameOutside(u, v, [k]) && u.Keys == g.edge.Keys
    ensures forall j :: j != k && g.AllPristine(u, [j]) ==> g.AllPristine(v, [j])
    ensures forall j :: j != k && g.AllCompressed(u, [j]) ==> g.AllCompressed(v, [j])
  {
    forall j, x | j != k && x in g.edge && Under([j], x) ensures v[x] == u[x] {
      assert x[..1][0] == j;
      assert !Under([k], x);
    }
    forall j | j != k && g.AllPristine(u, [j]) ensures g.AllPristine(v, [j]) {
      forall x | x in g.edge && Under([j], x) ensures g.Pristine(v, x) {
        assert g.Pristine(u, x);
      }
    }
    forall j | j != k && g.AllCompressed(u, [j]) ensures g.AllCompressed(v, [j]) {
      forall x | x in g.edge && x != [] && Under([j], x) ensures g.Compressed(v, x) {
        assert g.Compressed(u, x);
        SameLink(g, u, v, x);
      }
    }
  }

  lemma RootStep(g: Model, u: map<Word, Link>, v: map<Word, Link>, c: set<Symbol>, keys: set<Symbol>, k: Symbol)
    requires g.Sound() && g.RootProgress(u, c, keys) && k in keys
    requires g.SameOutside(u, v, [k]) && g.AllCompressed(v, [k])
    ensures g.RootProgress(v, c, keys - {k})
  {
    RootSiblings(g, u, v, k);
  }

  lemma RootDone(g: Model, kids: map<Symbol, Edge>, v: map<Word, Link>)
    requires g.Sound() && g.KidsOk(kids, []) && g.RootProgress(v, kids.Keys, {})
    ensures g.Done(v)
  {
    forall x | x in g.edge ensures g.Compressed(v, x) {
      var k := x[0];
      assert x[..1] == [k] && [] + [k] == [k];
      assert x in g.paths && [k] in g.paths;
      assert Under([k], x);
    }
  }

  lemma KidAt(m: Model, c: map<Symbol, Edge>, p: Word, k: Symbol)
    requires m.KidsOk(c, p) && k in c
    ensures p + [k] in m.paths && p + [k] in m.edge && c[k] == m.edge[p + [k]]
  {
  }

  lemma NotLeaf(m: Model, c: map<Symbol, Edge>, p: Word)
    requires m.KidsOk(c, p) && m.LivelyBut([]) && p in m.paths && p != [] && !Stop(m.words, m.paths, p)
    ensures c.Keys != {}
  {
    assert HasChild(m.paths, p);
  }

  lemma ProgressStep(m: Model, v: map<Word, Link>, u: map<Word, Link>, w: map<Word, Link>, f: Word, p: Word,
                     c: set<Symbol>, keys: set<Symbol>, k: Symbol)
    requires m.Sound() && m.OnChain(f, p) && u.Keys == m.edge.Keys
    requires m.Progress(v, u, f, p, c, keys) && k in keys
    requires m.SameOutside(u, w, p + [k]) && m.AllCompressed(w, p + [k])
    ensures m.Progress(v, w, f, p, c, keys - {k})
  {
    SiblingsKept(m, u, w, f, p, k);
  }

  /** The ends of an untouched branch. */
  lemma AtNode(m: Model, v: map<Word, Link>, f: Word, p: Word)
    requires m.OnChain(f, p) && m.AllPristine(v, f)
    ensures m.Pristine(v, p) && m.Pristine(v, f)
  {
    UnderRefl(f, p);
  }

  lemma UnderRefl(f: Word, p: Word)
    requires f <= p
    ensures Under(f, f) && Under(f, p) && Under(p, p)
  {
  }

  /** After the jump to the stop p, the branch above p is done and what lies below p is still untouched. */
  lemma JumpDone(m: Model, v: map<Word, Link>, f: Word, p: Word)
    requires m.Sound() && m.OnChain(f, p) && Stop(m.words, m.paths, p) && m.AllPristine(v, f) && v.Keys == m.edge.Keys
    ensures var v' := v[f := Link(m.node[p], if f == p then None else Some(p[|f| - 1..]))];
            && m.BranchCompressed(v', f, p) && m.SameOutside(v, v', f)
            && forall k :: p + [k] in m.paths ==> m.AllPristine(v', p + [k])
  {
    var v' := v[f := Link(m.node[p], if f == p then None else Some(p[|f| - 1..]))];
    UnderRefl(f, p);
    assert m.Jumps(v', f, p);
    forall n | |f| <= n <= |p| && n > 0 ensures m.Compressed(v', p[..n]) {
      if n == |f| {
        assert p[..n] == f;
      } else {
        assert p[..n][..n - 1] == p[..n - 1];
        assert p[..n] in m.paths && Under(f, p[..n]) && m.Pristine(v, p[..n]);
      }
    }
    forall k, x | p + [k] in m.paths && x in m.edge && Under(p + [k], x) ensures m.Pristine(v', x) {
      assert Under(f, x) by {
        assert x[..|f|] == (p + [k])[..|f|] == p[..|f|];
      }
      assert m.Pristine(v, x);
    }
  }

  /** A child of a stop starts a branch of its own. */
  lemma SubtreeAt(m: Model, p: Word, k: Symbol)
    requires m.Sound() && Stop(m.words, m.paths, p) && p + [k] in m.paths
    ensures m.OnChain(p + [k], p + [k]) && (p + [k])[|p + [k]| - 1..] == [k]
  {
    assert (p + [k])[..|p|] == p;
  }

  /** A node that is no stop hands the branch on to its only child. */
  lemma OnlyChild(m: Model, c: map<Symbol, Edge>, f: Word, p: Word, k: Symbol)
    requires m.Sound() && m.KidsOk(c, p) && !Stop(m.words, m.paths, p) && k in c && m.OnChain(f, p)
    ensures m.OnChain(f, p + [k]) && (p + [k])[|f| - 1..] == p[|f| - 1..] + [k] && c.Keys - {k} == {}
  {
    ChainExtends(m.words, m.paths, f, p, k);
    forall b | b in c ensures b == k {
      assert p + [b] in m.paths && p + [k] in m.paths;
    }
  }

  lemma UnderChild(f: Word, p: Word, k: Symbol, x: Word)
    requires f <= p
    ensures Under(p + [k], x) ==> Under(f, x) && x[|p|] == k
  {
    if Under(p + [k], x) {
      assert x[..|f|] == (p + [k])[..|f|] == p[..|f|] == f;
    }
  }

  /** Work below one child leaves its siblings and the branch above alone. */
  lemma SiblingsKept(m: Model, u: map<Word, Link>, v: map<Word, Link>, f: Word, p: Word, k: Symbol)
    requires m.Sound() && m.OnChain(f, p) && m.SameOutside(u, v, p + [k]) && u.Keys == m.edge.Keys
    ensures m.SameOutside(u, v, f)
    ensures m.BranchCompressed(u, f, p) ==> m.BranchCompressed(v, f, p)
    ensures forall j :: j != k && m.AllPristine(u, p + [j]) ==> m.AllPristine(v, p + [j])
    ensures forall j :: j != k && m.AllCompressed(u, p + [j]) ==> m.AllCompressed(v, p + [j])
  {
    forall x | x in u && !Under(f, x) ensures v[x] == u[x] {
      UnderChild(f, p, k, x);
    }
    if m.BranchCompressed(u, f, p) {
      forall n | |f| <= n <= |p| && n > 0 ensures m.Compressed(v, p[..n]) {
        assert !Under(p + [k], p[..n]) && m.Compressed(u, p[..n]);
        assert p[..n] in m.paths;
        SameLink(m, u, v, p[..n]);
      }
    }
    forall j, x | j != k && x in m.edge && Under(p + [j], x) ensures v[x] == u[x] {
      UnderChild(f, p, j, x);
      UnderChild(f, p, k, x);
    }
    forall j | j != k && m.AllCompressed(u, p + [j]) ensures m.AllCompressed(v, p + [j]) {
      forall x | x in m.edge && x != [] && Under(p + [j], x) ensures m.Compressed(v, x) {
        assert m.Compressed(u, x);
        SameLink(m, u, v, x);
      }
    }
    forall j | j != k && m.AllPristine(u, p + [j]) ensures m.AllPristine(v, p + [j]) {
      forall x | x in m.edge && Under(p + [j], x) ensures m.Pristine(v, x) {
        assert m.Pristine(u, x);
      }
    }
  }

  lemma SameLink(m: Model, u: map<Word, Link>, v: map<Word, Link>, x: Word)
    requires x in u && x in v && u[x] == v[x] && x != [] && m.Compressed(u, x)
    ensures m.Compressed(v, x)
  {
    if m.Inner(x[..|x| - 1]) {
      var t :| m.Jumps(u, x, t);
      assert m.Jumps(v, x, t);
    } else {
      assert m.Pristine(u, x);
    }
  }

  /** The branch to a fork and everything below its children make up all that lies below f. */
  lemma ForkDone(m: Model, c: map<Symbol, Edge>, v: map<Word, Link>, f: Word, p: Word)
    requires m.Sound() && m.OnChain(f, p) && m.BranchCompressed(v, f, p) && m.KidsOk(c, p)
    requires forall k :: k in c ==> m.AllCompressed(v, p + [k])
    ensures m.AllCompressed(v, f)
  {
    forall x | x in m.edge && x != [] && Under(f, x) ensures m.Compressed(v, x) {
      assert p[..|f|] == f == x[..|f|];
      ChainCovers(m.words, m.paths, f, p, x, |f|);
      if x <= p {
        assert p[..|x|] == x;
      } else {
        var k := x[|p|];
        assert x[..|p| + 1] == p + [k];
        assert x in m.paths && p + [k] in m.paths;
        assert Under(p + [k], x);
      }
    }
  }

  lemma KidsFork(m: Model, c: map<Symbol, Edge>, p: Word)
    requires m.KidsOk(c, p)
    ensures |c| > 1 <==> Fork(m.paths, p)
  {
    if Fork(m.paths, p) {
      var a, b :| a != b && p + [a] in m.paths && p + [b] in m.paths;
      assert {a, b} <= c.Keys;
      assert |c.Keys - {a}| == |c.Keys| - 1 && b in c.Keys - {a};
    }
    if |c| > 1 {
      assert |c| == |c.Keys|;
      var a :| a in c.Keys;
      assert |c.Keys - {a}| > 0;
      var b :| b in c.Keys - {a};
      assert p + [a] in m.paths && p + [b] in m.paths;
    }
  }

  lemma GrownLively(m: Model, p: Word, r: Symbol, child: Node, n: Edge)
    requires m.Sound() && m.LivelyBut(p) && p in m.paths
    ensures m.Grown(p + [r], child, n).LivelyBut(p + [r])
  {
    var m' := m.Grown(p + [r], child, n);
    forall x | x in m'.paths && x != [] && x != p + [r] && x !in m'.words ensures HasChild(m'.paths, x) {
      if x == p {
        assert x + [r] in m'.paths;
      } else {
        assert HasChild(m.paths, x);
        var a :| x + [a] in m.paths;
        assert x + [a] in m'.paths;
      }
    }
  }

  lemma GrownSound(m: Model, p: Word, r: Symbol, child: Node, n: Edge)
    requires m.Sound() && p in m.paths && p + [r] !in m.paths && child.path == p + [r] == n.path
    ensures m.Grown(p + [r], child, n).Sound()
  {
    var q := p + [r];
    forall x, n | x in m.paths + {q} && 0 <= n <= |x| ensures x[..n] in m.paths + {q} {
      if x == q {
        assert n <= |p| ==> q[..n] == p[..n];
        assert n == |q| ==> q[..n] == q;
      }
    }
    assert m.Grown(q, child, n).node.Keys == m.paths + {q};
  }

  /** The children of x once p + [r] has been added. */
  lemma ExtendInto(paths: set<Word>, x: Word, p: Word, r: Symbol)
    requires PrefixClosed(paths) && p in paths && p + [r] !in paths
    ensures forall a :: x + [a] in paths + {p + [r]} <==> x + [a] in paths || (x == p && a == r)
    ensures x == p + [r] ==> forall a :: x + [a] !in paths + {p + [r]}
    ensures forall a :: x == p + [r] || (x != p || a != r) ==> x + [a] != p + [r]
  {
    forall a ensures x + [a] == p + [r] <==> x == p && a == r {
      if x + [a] == p + [r] {
        assert (x + [a])[..|x|] == x && (p + [r])[..|p|] == p;
        assert (x + [a])[|x|] == a && (p + [r])[|p|] == r;
      }
    }
    if x == p + [r] {
      forall a ensures x + [a] !in paths {
        assert (x + [a])[..|x|] == x;
      }
    }
  }

  lemma KidsNew(m: Model, p: Word, r: Symbol, child: Node, n: Edge)
    requires m.Sound() && p in m.paths && p + [r] !in m.paths
    ensures m.Grown(p + [r], child, n).KidsOk(map[], p + [r])
  {
    ExtendInto(m.paths, p + [r], p, r);
  }

  lemma KidsGrown(m: Model, p: Word, r: Symbol, child: Node, n: Edge, c: map<Symbol, Edge>, x: Word)
    requires m.Sound() && p in m.paths && p + [r] !in m.paths && m.KidsOk(c, x)
    ensures m.Grown(p + [r], child, n).KidsOk(if x == p then c[r := n] else c, x)
  {
    ExtendInto(m.paths, x, p, r);
  }
}
