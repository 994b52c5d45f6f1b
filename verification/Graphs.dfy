/** Finite directed graphs over names, as the run queue and the dependency report use them:
    `g[n]` is the set of nodes that `n` depends on.  Paths follow dependency edges. */
module Graphs {
  type Node = string

  type Graph = map<Node, set<Node>>

  ghost predicate Closed(g: Graph) {
    forall n, d :: n in g && d in g[n] ==> d in g
  }

  /** `m` has a value for every node. */
  ghost predicate Covers<V>(g: Graph, m: map<Node, V>) {
    forall n :: n in g ==> n in m
  }

  ghost predicate IsPath(g: Graph, p: seq<Node>) {
    && |p| > 0
    && p[0] in g
    && (|p| > 1 ==> p[1] in g[p[0]] && IsPath(g, p[1..]))
  }

  ghost predicate PathBetween(g: Graph, p: seq<Node>, a: Node, b: Node) {
    IsPath(g, p) && |p| >= 2 && p[0] == a && p[|p| - 1] == b
  }

  /** `a` transitively depends on `b`. */
  ghost predicate Reaches(g: Graph, a: Node, b: Node) {
    exists p :: PathBetween(g, p, a, b)
  }

  ghost predicate Acyclic(g: Graph) {
    forall n :: n in g ==> !Reaches(g, n, n)
  }

  ghost function ReachSet(g: Graph, a: Node): set<Node> {
    set b | b in g && Reaches(g, a, b)
  }

  /** On an acyclic graph this strictly decreases along every edge (RankDecreases). */
  ghost function Rank(g: Graph, n: Node): nat {
    |ReachSet(g, n)|
  }

  /** The nodes that depend directly on `n`. */
  ghost function Dependents(g: Graph, n: Node): set<Node> {
    set m | m in g && n in g[m]
  }

  /** The graph with every edge turned round. */
  ghost function Inverse(g: Graph): Graph {
    map n | n in g :: Dependents(g, n)
  }

  // ---- Paths ------------------------------------------------------------------------------

  lemma {:induction false} PathNodes(g: Graph, p: seq<Node>, i: nat)
    requires IsPath(g, p) && i < |p|
    ensures p[i] in g && IsPath(g, p[i..])
    ensures i + 1 < |p| ==> p[i + 1] in g[p[i]]
  {
    if i > 0 {
      PathNodes(g, p[1..], i - 1);
      assert p[1..][i - 1..] == p[i..];
    } else {
      assert p[0..] == p;
    }
  }

  lemma {:induction false} PathPrefix(g: Graph, p: seq<Node>, k: nat)
    requires IsPath(g, p) && 0 < k <= |p|
    ensures IsPath(g, p[..k])
  {
    if k > 1 {
      PathPrefix(g, p[1..], k - 1);
      assert p[..k][1..] == p[1..][..k - 1];
    }
  }

  lemma {:induction false} PathJoin(g: Graph, p: seq<Node>, q: seq<Node>)
    requires IsPath(g, p) && IsPath(g, q) && q[0] in g[PathEnd(g, p)]
    ensures IsPath(g, p + q)
  {
    if |p| == 1 {
      assert (p + q)[1..] == q;
    } else {
      PathJoin(g, p[1..], q);
      assert (p + q)[1..] == p[1..] + q;
    }
  }

  ghost function PathEnd(g: Graph, p: seq<Node>): (n: Node)
    requires IsPath(g, p)
    ensures n in g && n == p[|p| - 1]
  {
    PathNodes(g, p, |p| - 1);
    p[|p| - 1]
  }

  lemma EdgeReaches(g: Graph, a: Node, b: Node)
    requires Closed(g) && a in g && b in g[a]
    ensures Reaches(g, a, b)
  {
    assert IsPath(g, [a, b][1..]);
    assert PathBetween(g, [a, b], a, b);
  }

  lemma EdgeThenReaches(g: Graph, a: Node, b: Node, c: Node)
    requires a in g && b in g[a] && Reaches(g, b, c)
    ensures Reaches(g, a, c)
  {
    var p :| PathBetween(g, p, b, c);
    assert ([a] + p)[1..] == p;
    assert PathBetween(g, [a] + p, a, c);
  }

  lemma ReachesThenEdge(g: Graph, a: Node, b: Node, c: Node)
    requires Closed(g) && Reaches(g, a, b) && b in g && c in g[b]
    ensures Reaches(g, a, c)
  {
    var p :| PathBetween(g, p, a, b);
    PathJoin(g, p, [c]);
    assert PathBetween(g, p + [c], a, c);
  }

  /** The first step of a transitive dependency. */
  lemma ReachesFirstStep(g: Graph, a: Node, c: Node) returns (b: Node)
    requires Reaches(g, a, c)
    ensures a in g && b in g[a] && b in g && (b == c || Reaches(g, b, c))
  {
    var p :| PathBetween(g, p, a, c);
    b := p[1];
    assert IsPath(g, p[1..]);
    if |p| > 2 {
      assert PathBetween(g, p[1..], b, c);
    }
  }

  lemma ReachesNodes(g: Graph, a: Node, b: Node)
    requires Reaches(g, a, b)
    ensures a in g && b in g
  {
    var p :| PathBetween(g, p, a, b);
    PathNodes(g, p, |p| - 1);
  }

  lemma ReachesTransitive(g: Graph, a: Node, b: Node, c: Node)
    requires Closed(g) && Reaches(g, a, b) && Reaches(g, b, c)
    ensures Reaches(g, a, c)
  {
    var p :| PathBetween(g, p, a, b);
    var q :| PathBetween(g, q, b, c);
    PathJoin(g, p, q[1..]);
    assert PathBetween(g, p + q[1..], a, c);
  }

  // ---- Acyclicity and rank ----------------------------------------------------------------

  lemma RankDecreases(g: Graph, n: Node, d: Node)
    requires Closed(g) && Acyclic(g) && n in g && d in g[n]
    ensures Rank(g, d) < Rank(g, n)
  {
    EdgeDescends(g, n, d);
  }

  lemma EdgeDescends(g: Graph, n: Node, d: Node)
    requires Closed(g) && n in g && d in g[n] && !Reaches(g, d, d)
    ensures Rank(g, d) < Rank(g, n)
  {
    EdgeReaches(g, n, d);
    forall b | b in ReachSet(g, d) ensures b in ReachSet(g, n) {
      EdgeThenReaches(g, n, d, b);
    }
    assert d in ReachSet(g, n) && d !in ReachSet(g, d);
    ProperSubsetSize(ReachSet(g, d), ReachSet(g, n));
  }

  lemma RankFalls(g: Graph, a: Node, b: Node)
    requires Closed(g) && Acyclic(g) && Reaches(g, a, b)
    ensures Rank(g, b) < Rank(g, a) <= |g|
  {
    ReachesNodes(g, a, b);
    forall c | c in ReachSet(g, b) ensures c in ReachSet(g, a) {
      ReachesTransitive(g, a, b, c);
    }
    assert b in ReachSet(g, a) && b !in ReachSet(g, b);
    ProperSubsetSize(ReachSet(g, b), ReachSet(g, a));
    RankBounded(g, a);
  }

  lemma RankBounded(g: Graph, n: Node)
    ensures Rank(g, n) <= |g|
  {
    SubsetSize(ReachSet(g, n), g.Keys);
  }

  lemma {:induction false} SubgraphPath(small: Graph, big: Graph, p: seq<Node>)
    requires IsPath(small, p) && forall n :: n in small ==> n in big && small[n] <= big[n]
    ensures IsPath(big, p)
  {
    if |p| > 1 {
      SubgraphPath(small, big, p[1..]);
    }
  }

  lemma SubgraphAcyclic(small: Graph, big: Graph)
    requires Acyclic(big) && forall n :: n in small ==> n in big && small[n] <= big[n]
    ensures Acyclic(small)
  {
    forall n | n in small ensures !Reaches(small, n, n) {
      if p :| PathBetween(small, p, n, n) {
        SubgraphPath(small, big, p);
        assert PathBetween(big, p, n, n);
      }
    }
  }

  lemma SubsetSize<T>(a: set<T>, b: set<T>)
    requires a <= b
    ensures |a| <= |b|
  {
    assert b == a + (b - a);
  }

  lemma ProperSubsetSize<T>(a: set<T>, b: set<T>)
    requires a < b
    ensures |a| < |b|
  {
    var x :| x in b && x !in a;
    SubsetSize(a + {x}, b);
  }

  /** Any numbering that decreases along every edge shows that there is no cycle. */
  lemma NumberedIsAcyclic(g: Graph, number: map<Node, int>)
    requires Closed(g) && g.Keys <= number.Keys
    requires forall n, d :: n in g && d in g[n] ==> number[d] < number[n]
    ensures Acyclic(g)
  {
    forall n | n in g ensures !Reaches(g, n, n) {
      forall p | PathBetween(g, p, n, n) ensures false {
        PathDescends(g, number, p);
      }
    }
  }

  lemma {:induction false} PathDescends(g: Graph, number: map<Node, int>, p: seq<Node>)
    requires Closed(g) && g.Keys <= number.Keys && IsPath(g, p)
    requires forall n, d :: n in g && d in g[n] ==> number[d] < number[n]
    ensures PathEnd(g, p) == p[|p| - 1] && number[p[|p| - 1]] <= number[p[0]]
    ensures |p| > 1 ==> number[p[|p| - 1]] < number[p[0]]
  {
    if |p| > 1 {
      PathDescends(g, number, p[1..]);
    }
  }

  /** A non-empty set of nodes of an acyclic graph has a member with no dependency in the set. */
  lemma {:induction false} LowestIn(g: Graph, s: set<Node>) returns (m: Node)
    requires Closed(g) && Acyclic(g) && s != {} && s <= g.Keys
    ensures m in s && g[m] !! s
  {
    m :| m in s;
    if d :| d in g[m] && d in s {
      var s' := set x | x in s && Rank(g, x) < Rank(g, m);
      RankDecreases(g, m, d);
      assert d in s' && m !in s';
      ProperSubsetSize(s', s);
      m := LowestIn(g, s');
      forall e | e in g[m] && e in s ensures false {
        RankDecreases(g, m, e);
      }
    }
  }

  /** A non-empty set of nodes of an acyclic graph has a member that no other member depends on. */
  lemma {:induction false} HighestIn(g: Graph, s: set<Node>) returns (m: Node)
    requires Closed(g) && Acyclic(g) && s != {} && s <= g.Keys
    ensures m in s && forall n :: n in s ==> m !in g[n]
    decreases |s|
  {
    m :| m in s;
    if n :| n in s && m in g[n] {
      var s' := set x | x in s && Rank(g, x) > Rank(g, m);
      RankDecreases(g, n, m);
      assert n in s' && m !in s';
      ProperSubsetSize(s', s);
      m := HighestIn(g, s');
      forall e | e in s && m in g[e] ensures false {
        RankDecreases(g, e, m);
      }
    }
  }
}
