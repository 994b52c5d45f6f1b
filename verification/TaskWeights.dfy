/** What the weights computed for the run queue mean, and facts about them that do not depend on
    how they are computed. */
module TaskWeights {
  import opened Graphs

  /** The sum of the weights of a set of tasks. */
  ghost function Sum(w: map<Node, int>, s: set<Node>): int
    requires s <= w.Keys
    decreases |s|
  {
    if s == {} then 0
    else
      var x :| x in s;
      w[x] + Sum(w, s - {x})
  }

  lemma {:induction false} SumAdd(w: map<Node, int>, s: set<Node>, x: Node)
    requires s <= w.Keys && x in w && x !in s
    ensures Sum(w, s + {x}) == Sum(w, s) + w[x]
    decreases |s|
  {
    var t := s + {x};
    var y :| y in t && Sum(w, t) == w[y] + Sum(w, t - {y});
    if y == x {
      assert t - {y} == s;
    } else {
      SumAdd(w, s - {y}, x);
      assert t - {y} == (s - {y}) + {x};
      SumAdd(w, s - {y}, y);
      assert (s - {y}) + {y} == s;
    }
  }

  lemma {:induction false} SumAgrees(w: map<Node, int>, w': map<Node, int>, s: set<Node>)
    requires s <= w.Keys && s <= w'.Keys
    requires forall x :: x in s ==> w[x] == w'[x]
    ensures Sum(w, s) == Sum(w', s)
    decreases |s|
  {
    if s != {} {
      var x :| x in s && Sum(w, s) == w[x] + Sum(w, s - {x});
      SumAgrees(w, w', s - {x});
      SumAdd(w', s - {x}, x);
      assert (s - {x}) + {x} == s;
    }
  }

  lemma {:induction false} SumAtLeast(w: map<Node, int>, s: set<Node>, x: Node)
    requires s <= w.Keys && x in s
    requires forall y :: y in s ==> w[y] >= 0
    ensures Sum(w, s) >= w[x]
  {
    SumNonNegative(w, s - {x});
    SumAdd(w, s - {x}, x);
    assert (s - {x}) + {x} == s;
  }

  lemma {:induction false} SumNonNegative(w: map<Node, int>, s: set<Node>)
    requires s <= w.Keys
    requires forall y :: y in s ==> w[y] >= 0
    ensures Sum(w, s) >= 0
    decreases |s|
  {
    if s != {} {
      var x :| x in s && Sum(w, s) == w[x] + Sum(w, s - {x});
      SumNonNegative(w, s - {x});
    }
  }

  /** What weighting promises: a task nothing depends on weighs 10; every other task weighs one
      more than all its direct dependents together, each counted once. */
  ghost predicate Weighted(g: Graph, w: map<Node, int>) {
    && Closed(g)
    && Covers(g, w)
    && forall n :: n in g ==>
         w[n] == if Dependents(g, n) == {} then 10 else 1 + Sum(w, Dependents(g, n))
  }

  lemma {:induction false} WeightsPositive(g: Graph, w: map<Node, int>, n: Node)
    requires Weighted(g, w) && Acyclic(g) && n in g
    ensures w[n] > 0
  {
    var bad := set x | x in g && w[x] <= 0;
    if bad != {} {
      var h := HighestIn(g, bad);
      SumNonNegative(w, Dependents(g, h));
      assert false;
    }
    assert n !in bad;
  }

  /** A dependency always weighs strictly more than its dependents. */
  lemma DependencyWeighsMore(g: Graph, w: map<Node, int>, n: Node, d: Node)
    requires Weighted(g, w) && Acyclic(g) && n in g && d in g[n]
    ensures w[d] > w[n]
  {
    forall y | y in Dependents(g, d) ensures w[y] >= 0 {
      WeightsPositive(g, w, y);
    }
    assert n in Dependents(g, d);
    SumAtLeast(w, Dependents(g, d), n);
  }

  /** On an acyclic graph the weights are determined by what they mean. */
  lemma WeightsUnique(g: Graph, w: map<Node, int>, w': map<Node, int>)
    requires Acyclic(g) && Weighted(g, w) && Weighted(g, w')
    ensures forall n :: n in g ==> w[n] == w'[n]
  {
    var differ := set n | n in g && w[n] != w'[n];
    if differ != {} {
      var h := HighestIn(g, differ);
      WeightFollows(g, w, w', h);
      assert false;
    }
    forall n | n in g ensures w[n] == w'[n] {
      assert n !in differ;
    }
  }

  lemma WeightFollows(g: Graph, w: map<Node, int>, w': map<Node, int>, n: Node)
    requires Weighted(g, w) && Weighted(g, w') && n in g
    requires forall m :: m in g && n in g[m] ==> w[m] == w'[m]
    ensures w[n] == w'[n]
  {
    SumAgrees(w, w', Dependents(g, n));
  }

  // ---- Below a cycle ------------------------------------------------------------------------

  lemma PrependPath(g: Graph, r: Node, p: seq<Node>)
    requires IsPath(g, p) && r in g && p[0] in g[r]
    ensures IsPath(g, [r] + p)
  {
    assert ([r] + p)[1..] == p;
  }

  lemma ClosesLoop(g: Graph, p: seq<Node>, i: nat)
    requires IsPath(g, p) && i < |p| && p[i] in g && p[0] in g[p[i]]
    ensures Reaches(g, p[i], p[i]) && (i == |p| - 1 || Reaches(g, p[i], p[|p| - 1]))
  {
    PathPrefix(g, p, i + 1);
    PrependPath(g, p[i], p[..i + 1]);
    assert PathBetween(g, [p[i]] + p[..i + 1], p[i], p[i]);
    PathNodes(g, p, i);
    if i < |p| - 1 {
      assert PathBetween(g, p[i..], p[i], p[|p| - 1]);
    }
  }

  ghost predicate Distinct(p: seq<Node>) {
    forall i, j :: 0 <= i < j < |p| ==> p[i] != p[j]
  }

  ghost predicate Within(p: seq<Node>, s: set<Node>) {
    forall i :: 0 <= i < |p| ==> p[i] in s
  }

  ghost predicate HasDependentIn(g: Graph, s: set<Node>, n: Node)
    requires s <= g.Keys
  {
    exists m :: m in s && n in g[m]
  }

  /** A set in which every node has a dependent inside the set lies below a cycle. */
  lemma {:induction false} DependentsLoop(g: Graph, s: set<Node>, p: seq<Node>) returns (c: Node)
    requires s <= g.Keys
    requires forall n {:trigger HasDependentIn(g, s, n)} :: n in s ==> HasDependentIn(g, s, n)
    requires IsPath(g, p) && Within(p, s) && Distinct(p)
    ensures c in s && Reaches(g, c, c) && (c == p[|p| - 1] || Reaches(g, c, p[|p| - 1]))
    decreases |s| - |p|
  {
    assert HasDependentIn(g, s, p[0]);
    var r :| r in s && p[0] in g[r];
    if i :| 0 <= i < |p| && p[i] == r {
      c := r;
      ClosesLoop(g, p, i);
    } else {
      PrependPath(g, r, p);
      DistinctFits([r] + p, s);
      c := DependentsLoop(g, s, [r] + p);
    }
  }

  lemma {:induction false} DistinctFits(q: seq<Node>, s: set<Node>)
    requires Within(q, s) && Distinct(q)
    ensures |q| <= |s|
  {
    if q != [] {
      var k := |q| - 1;
      assert forall i :: 0 <= i < k ==> q[..k][i] in s - {q[k]};
      DistinctFits(q[..k], s - {q[k]});
    }
  }
}
