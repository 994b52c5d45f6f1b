/** The task graph of a run queue and its preparation: marking, pruning, reverse dependencies,
    weighting and hashing. */
module RunQueuePrepare {
  import opened Graphs
  import opened TaskWeights

  /** A requested task; `parentsOnly` is the `task-` notation: only what the task depends on. */
  datatype Target = Target(tid: Node, parentsOnly: bool)

  datatype PrepareResult =
    | Prepared
    | UnknownTarget(tid: Node)
    | NoActiveTasks
    | MutualDependency(tid: Node, dep: Node)
    | Unbuildable(problems: set<Node>)

  ghost function WithoutSelf(g: Graph): Graph {
    map n | n in g :: g[n] - {n}
  }

  ghost predicate Wanted(g: Graph, t: Target, n: Node) {
    Reaches(g, t.tid, n) || (n == t.tid && !t.parentsOnly)
  }

  /** Exactly the tasks the targets need. */
  ghost function Needed(g: Graph, targets: seq<Target>): set<Node> {
    set n | n in g && exists i :: 0 <= i < |targets| && Wanted(g, targets[i], n)
  }

  ghost function Pruned(g: Graph, keep: set<Node>): Graph {
    map n | n in g && n in keep :: g[n]
  }

  /** The preparation's view of the graph: no self references, only needed tasks. */
  ghost function PreparedGraph(g: Graph, targets: seq<Target>): Graph {
    Pruned(WithoutSelf(g), Needed(WithoutSelf(g), targets))
  }

  ghost predicate AllKnown(g: Graph, targets: seq<Target>) {
    forall i :: 0 <= i < |targets| ==> targets[i].tid in g
  }

  /** The first of the targets that is no task. */
  ghost predicate FirstUnknown(g: Graph, targets: seq<Target>, tid: Node) {
    exists i :: 0 <= i < |targets| && targets[i].tid == tid && tid !in g && AllKnown(g, targets[..i])
  }

  ghost predicate Mutual(g: Graph, tid: Node, dep: Node) {
    tid in g && dep in g[tid] && dep in g && tid in g[dep]
  }

  /** Every task appears once, after everything it depends on. */
  ghost predicate DependenciesFirst(g: Graph, order: seq<Node>) {
    && Distinct(order)
    && (forall n :: n in order <==> n in g)
    && forall i, d :: 0 <= i < |order| && order[i] in g && d in g[order[i]] ==> d in order[..i]
  }

  lemma {:induction false} NeededClosed(g: Graph, targets: seq<Target>)
    requires Closed(g)
    ensures forall n, d :: n in Needed(g, targets) && d in g[n] ==> d in Needed(g, targets)
    ensures Closed(Pruned(g, Needed(g, targets)))
  {
    var needed := Needed(g, targets);
    forall n, d | n in needed && d in g[n] ensures d in needed {
      var i :| 0 <= i < |targets| && Wanted(g, targets[i], n);
      if n == targets[i].tid {
        EdgeReaches(g, n, d);
      }
      if Reaches(g, targets[i].tid, n) {
        ReachesThenEdge(g, targets[i].tid, n, d);
      }
      assert Wanted(g, targets[i], d);
    }
  }

  // ---- The counting argument behind the weights ---------------------------------------------

  ghost function Base(g: Graph, n: Node): int
    requires n in g
  {
    if Dependents(g, n) == {} then 10 else 1
  }

  /** `counted[n]` are the dependents of `n` whose weight has been added to it so far. */
  ghost predicate Counting(g: Graph, w: map<Node, int>, left: map<Node, int>, done: map<Node, bool>,
                           counted: map<Node, set<Node>>)
  {
    && Covers(g, w) && Covers(g, left) && Covers(g, done) && Covers(g, counted)
    && forall n :: n in g ==> CountedAt(g, w, left, done, counted, n)
  }

  ghost predicate CountedAt(g: Graph, w: map<Node, int>, left: map<Node, int>, done: map<Node, bool>,
                            counted: map<Node, set<Node>>, n: Node)
    requires n in g && Covers(g, w) && Covers(g, left) && Covers(g, done) && Covers(g, counted)
  {
    && counted[n] <= Dependents(g, n)
    && (forall m :: m in counted[n] ==> done[m])
    && left[n] == |Dependents(g, n)| - |counted[n]|
    && (done[n] <==> counted[n] == Dependents(g, n))
    && w[n] == Base(g, n) + Sum(w, counted[n])
  }

  /** `height` falls along every edge into a finished task and is above `low` on all of them. */
  ghost predicate Falling(g: Graph, done: map<Node, bool>, height: map<Node, int>, low: int) {
    && Covers(g, done) && Covers(g, height)
    && (forall n :: n in g && done[n] ==> height[n] > low)
    && forall n, m :: n in g && done[n] && m in Dependents(g, n) ==> done[m] && height[m] > height[n]
  }

  /** Adding the weight of `tid` to its dependency `dep` keeps the count of every task. */
  lemma CountEdge(g: Graph, w: map<Node, int>, left: map<Node, int>, done: map<Node, bool>,
                  counted: map<Node, set<Node>>, tid: Node, dep: Node)
    requires Counting(g, w, left, done, counted)
    requires tid in g && dep in g && tid in Dependents(g, dep) && done[tid] && tid !in counted[dep]
    ensures !done[dep]
    ensures Counting(g, w[dep := w[dep] + w[tid]], left[dep := left[dep] - 1],
                     done[dep := left[dep] - 1 == 0], counted[dep := counted[dep] + {tid}])
    ensures left[dep] == 1 <==> counted[dep] + {tid} == Dependents(g, dep)
  {
    hide Sum, Dependents;
    assert CountedAt(g, w, left, done, counted, dep);
    CountEdgeHere(g, w, left, done, counted, tid, dep);
    hide CountedAt;
    var w', left' := w[dep := w[dep] + w[tid]], left[dep := left[dep] - 1];
    var done', counted' := done[dep := left[dep] - 1 == 0], counted[dep := counted[dep] + {tid}];
    forall n | n in g && n != dep ensures CountedAt(g, w', left', done', counted', n) {
      CountEdgeElsewhere(g, w, left, done, counted, tid, dep, n);
    }
  }

  lemma CountEdgeHere(g: Graph, w: map<Node, int>, left: map<Node, int>, done: map<Node, bool>,
                      counted: map<Node, set<Node>>, tid: Node, dep: Node)
    requires dep in g && Covers(g, w) && Covers(g, left) && Covers(g, done) && Covers(g, counted)
    requires CountedAt(g, w, left, done, counted, dep)
    requires tid in Dependents(g, dep) && tid in g && done[tid] && tid !in counted[dep]
    ensures !done[dep]
    ensures CountedAt(g, w[dep := w[dep] + w[tid]], left[dep := left[dep] - 1],
                      done[dep := left[dep] - 1 == 0], counted[dep := counted[dep] + {tid}], dep)
    ensures left[dep] == 1 <==> counted[dep] + {tid} == Dependents(g, dep)
  {
    var all, old', new' := Dependents(g, dep), counted[dep], counted[dep] + {tid};
    CountSizes(all, old', tid);
    var w' := w[dep := w[dep] + w[tid]];
    assert old' <= w.Keys;
    SumAgrees(w, w', old');
    SumAdd(w', old', tid);
    hide Sum, Dependents;
  }

  lemma CountSizes(all: set<Node>, some: set<Node>, tid: Node)
    requires some <= all && tid in all && tid !in some
    ensures |some + {tid}| == |some| + 1 && some != all
    ensures |all| - |some| == 1 <==> some + {tid} == all
  {
    if some + {tid} != all {
      ProperSubsetSize(some + {tid}, all);
    }
  }

  lemma CountEdgeElsewhere(g: Graph, w: map<Node, int>, left: map<Node, int>, done: map<Node, bool>,
                           counted: map<Node, set<Node>>, tid: Node, dep: Node, n: Node)
    requires n in g && dep in g && n != dep
    requires Covers(g, w) && Covers(g, left) && Covers(g, done) && Covers(g, counted)
    requires CountedAt(g, w, left, done, counted, n)
    requires !done[dep] && tid in g
    ensures CountedAt(g, w[dep := w[dep] + w[tid]], left[dep := left[dep] - 1],
                      done[dep := left[dep] - 1 == 0], counted[dep := counted[dep] + {tid}], n)
  {
    var w' := w[dep := w[dep] + w[tid]];
    SumAgrees(w, w', counted[n]);
  }

  lemma {:induction false} FinishedAbove(g: Graph, done: map<Node, bool>, height: map<Node, int>, low: int,
                                         p: seq<Node>)
    requires Closed(g) && Falling(g, done, height, low) && IsPath(g, p)
    requires p[|p| - 1] in g && done[p[|p| - 1]]
    ensures done[p[0]] && height[p[0]] >= height[p[|p| - 1]]
    ensures |p| > 1 ==> height[p[0]] > height[p[|p| - 1]]
  {
    if |p| > 1 {
      FinishedAbove(g, done, height, low, p[1..]);
      assert p[0] in Dependents(g, p[1]);
    }
  }

  /** A finished task is not on a cycle and not below one. */
  lemma FinishedIsSound(g: Graph, done: map<Node, bool>, height: map<Node, int>, low: int, n: Node, c: Node)
    requires Closed(g) && Falling(g, done, height, low) && n in g && done[n]
    ensures !(Reaches(g, c, c) && (c == n || Reaches(g, c, n)))
  {
    if c == n || Reaches(g, c, n) {
      if c != n {
        var p :| PathBetween(g, p, c, n);
        FinishedAbove(g, done, height, low, p);
      }
      forall q | PathBetween(g, q, c, c) ensures false {
        FinishedAbove(g, done, height, low, q);
      }
    }
  }

  ghost predicate HasUnfinishedDependent(g: Graph, done: map<Node, bool>, n: Node)
    requires Covers(g, done) && n in g
  {
    exists r :: r in Dependents(g, n) && !done[r]
  }

  /** An unfinished task is on a cycle or below one. */
  lemma UnfinishedIsBelowCycle(g: Graph, done: map<Node, bool>, n: Node) returns (c: Node)
    requires Closed(g) && Covers(g, done) && n in g && !done[n]
    requires forall m {:trigger HasUnfinishedDependent(g, done, m)} ::
               m in g && !done[m] ==> HasUnfinishedDependent(g, done, m)
    ensures Reaches(g, c, c) && (c == n || Reaches(g, c, n))
  {
    var s := set m | m in g && !done[m];
    forall m | m in s ensures HasDependentIn(g, s, m) {
      assert HasUnfinishedDependent(g, done, m);
      var r :| r in Dependents(g, m) && !done[r];
      assert r in s;
    }
    c := DependentsLoop(g, s, [n]);
  }

  ghost predicate BelowCycle(g: Graph, n: Node) {
    exists c :: Reaches(g, c, c) && (c == n || Reaches(g, c, n))
  }

  /** `fin` are the tasks whose weight went to all their dependencies, `todo` the rest of the current
      layer, `next` the layer being built. */
  ghost predicate Frontier(g: Graph, done: map<Node, bool>, fin: set<Node>, todo: seq<Node>, next: seq<Node>)
  {
    && Covers(g, done)
    && Distinct(todo)
    && Distinct(next)
    && (forall n :: n in todo ==> n in g && done[n] && n !in fin && n !in next)
    && (forall n :: n in next ==> n in g && done[n] && n !in fin)
    && (forall n :: n in fin ==> n in g && done[n])
    && (forall n :: n in g && done[n] ==> n in fin || n in todo || n in next)
  }

  ghost predicate CountedFrom(g: Graph, counted: map<Node, set<Node>>, fin: set<Node>, tid: Node, seen: set<Node>)
  {
    && Covers(g, counted)
    && forall n :: n in g ==> counted[n] == Dependents(g, n) * fin + (if n in seen then {tid} else {})
  }

  lemma FrontierGrows(g: Graph, done: map<Node, bool>, fin: set<Node>, todo: seq<Node>, next: seq<Node>, dep: Node,
                      full: bool)
    requires Covers(g, done) && Frontier(g, done, fin, todo, next)
    requires dep in g && !done[dep]
    ensures Frontier(g, done[dep := full], fin, todo, if full then next + [dep] else next)
  {
  }

  lemma FallingGrows(g: Graph, done: map<Node, bool>, height: map<Node, int>, low: int, dep: Node, full: bool)
    requires Falling(g, done, height, low) && dep in g && !done[dep]
    requires full ==> forall m :: m in Dependents(g, dep) ==> m in g && done[m]
    ensures Falling(g, done[dep := full], height[dep := low], low - 1)
  {
  }

  ghost predicate Spreading(g: Graph, fin: set<Node>, tid: Node, rest: seq<Node>, seen: set<Node>,
                            w: map<Node, int>, left: map<Node, int>, done: map<Node, bool>, next: seq<Node>,
                            counted: map<Node, set<Node>>, height: map<Node, int>, low: int) {
    && Counting(g, w, left, done, counted)
    && Falling(g, done, height, low)
    && Frontier(g, done, fin, [tid] + rest, next)
    && CountedFrom(g, counted, fin, tid, seen)
  }

  lemma SpreadCounts(g: Graph, fin: set<Node>, tid: Node, rest: seq<Node>, seen: set<Node>,
                     w: map<Node, int>, left: map<Node, int>, done: map<Node, bool>, next: seq<Node>,
                     counted: map<Node, set<Node>>, height: map<Node, int>, low: int, dep: Node)
    requires Closed(g) && tid in g && tid !in fin && dep in g[tid] && dep !in seen
    requires Spreading(g, fin, tid, rest, seen, w, left, done, next, counted, height, low)
    ensures tid in w && dep in w && dep in left && dep in done && dep in counted && dep in height
    ensures tid in counted && tid !in counted[dep] && !done[dep] && dep in g
    ensures Counting(g, w[dep := w[dep] + w[tid]], left[dep := left[dep] - 1],
                     done[dep := left[dep] - 1 == 0], counted[dep := counted[dep] + {tid}])
    ensures left[dep] == 1 ==> forall m :: m in Dependents(g, dep) ==> m in g && done[m]
  {
    SpreadStarts(g, done, fin, tid, rest, next);
    NotYetCounted(g, counted, fin, tid, seen, dep);
    CountEdge(g, w, left, done, counted, tid, dep);
    LastDependent(g, w, left, done, counted, tid, dep);
  }

  lemma SpreadStep(g: Graph, fin: set<Node>, tid: Node, rest: seq<Node>, seen: set<Node>,
                   w: map<Node, int>, left: map<Node, int>, done: map<Node, bool>, next: seq<Node>,
                   counted: map<Node, set<Node>>, height: map<Node, int>, low: int, dep: Node)
    requires Closed(g) && tid in g && tid !in fin && dep in g[tid] && dep !in seen
    requires Spreading(g, fin, tid, rest, seen, w, left, done, next, counted, height, low)
    ensures tid in w && dep in w && dep in left && dep in done && dep in counted && dep in height
    ensures Spreading(g, fin, tid, rest, seen + {dep}, w[dep := w[dep] + w[tid]], left[dep := left[dep] - 1],
                      done[dep := left[dep] - 1 == 0], if left[dep] - 1 == 0 then next + [dep] else next,
                      counted[dep := counted[dep] + {tid}], height[dep := low], low - 1)
  {
    SpreadCounts(g, fin, tid, rest, seen, w, left, done, next, counted, height, low, dep);
    hide Counting, CountedAt, Falling, CountedFrom, Frontier, Closed, Inverse;
    FallingGrows(g, done, height, low, dep, left[dep] - 1 == 0);
    FrontierGrows(g, done, fin, [tid] + rest, next, dep, left[dep] - 1 == 0);
    CountedStep(g, counted, counted[dep := counted[dep] + {tid}], fin, tid, dep, seen);
  }

  lemma SpreadEnds(g: Graph, fin: set<Node>, tid: Node, rest: seq<Node>,
                   w: map<Node, int>, left: map<Node, int>, done: map<Node, bool>, next: seq<Node>,
                   counted: map<Node, set<Node>>, height: map<Node, int>, low: int)
    requires Closed(g) && tid in g
    requires Spreading(g, fin, tid, rest, g[tid], w, left, done, next, counted, height, low)
    ensures Layered(g, w, left, done, fin + {tid}, rest, next, counted, height, low)
  {
    hide Counting, Falling;
    FrontierAdvances(g, done, fin, tid, rest, next);
    CountedAdvances(g, counted, fin, tid);
  }

  lemma SpreadStarts(g: Graph, done: map<Node, bool>, fin: set<Node>, tid: Node, rest: seq<Node>, next: seq<Node>)
    requires tid in g && Frontier(g, done, fin, [tid] + rest, next)
    ensures Covers(g, done) && done[tid]
  {
    assert ([tid] + rest)[0] == tid;
  }

  lemma NotYetCounted(g: Graph, counted: map<Node, set<Node>>, fin: set<Node>, tid: Node, seen: set<Node>, dep: Node)
    requires Closed(g) && tid in g && dep in g[tid] && tid !in fin && dep !in seen
    requires CountedFrom(g, counted, fin, tid, seen)
    ensures dep in g && tid in Dependents(g, dep) && dep in counted && tid !in counted[dep]
  {
  }

  lemma LastDependent(g: Graph, w: map<Node, int>, left: map<Node, int>, done: map<Node, bool>,
                      counted: map<Node, set<Node>>, tid: Node, dep: Node)
    requires Counting(g, w, left, done, counted) && tid in g && dep in g && done[tid]
    requires left[dep] == 1 <==> counted[dep] + {tid} == Dependents(g, dep)
    ensures left[dep] == 1 ==> forall m :: m in Dependents(g, dep) ==> m in g && done[m]
  {
    assert CountedAt(g, w, left, done, counted, dep);
  }

  lemma CountedStep(g: Graph, counted: map<Node, set<Node>>, counted': map<Node, set<Node>>, fin: set<Node>,
                    tid: Node, dep: Node, seen: set<Node>)
    requires dep !in seen && dep in g && CountedFrom(g, counted, fin, tid, seen)
    requires counted' == counted[dep := counted[dep] + {tid}]
    ensures CountedFrom(g, counted', fin, tid, seen + {dep})
  {
  }

  lemma CountedAdvances(g: Graph, counted: map<Node, set<Node>>, fin: set<Node>, tid: Node)
    requires Closed(g) && tid in g && Covers(g, counted)
    requires CountedFrom(g, counted, fin, tid, g[tid])
    ensures CountedFrom(g, counted, fin + {tid}, tid, {})
  {
    forall n | n in g ensures counted[n] == Dependents(g, n) * (fin + {tid}) {
      assert n in g[tid] <==> tid in Dependents(g, n);
    }
  }

  lemma FrontierAdvances(g: Graph, done: map<Node, bool>, fin: set<Node>, tid: Node, rest: seq<Node>, next: seq<Node>)
    requires Covers(g, done) && Frontier(g, done, fin, [tid] + rest, next)
    ensures Frontier(g, done, fin + {tid}, rest, next)
  {
    var todo := [tid] + rest;
    assert todo[1..] == rest && todo[0] == tid;
    forall i | 0 <= i < |rest| ensures rest[i] != tid {
      assert todo[i + 1] == rest[i];
    }
    assert forall i, j :: 0 <= i < j < |rest| ==> rest[i] == todo[i + 1] && rest[j] == todo[j + 1];
    assert forall n :: n in todo <==> n == tid || n in rest;
  }

  // ---- Layers -------------------------------------------------------------------------------

  ghost predicate Layered(g: Graph, w: map<Node, int>, left: map<Node, int>, done: map<Node, bool>,
                          fin: set<Node>, todo: seq<Node>, next: seq<Node>,
                          counted: map<Node, set<Node>>, height: map<Node, int>, low: int) {
    && Counting(g, w, left, done, counted)
    && Falling(g, done, height, low)
    && Frontier(g, done, fin, todo, next)
    && Covers(g, counted)
    && forall n :: n in g ==> counted[n] == Dependents(g, n) * fin
  }

  lemma StartCounting(g: Graph, w: map<Node, int>, left: map<Node, int>, done: map<Node, bool>,
                      counted: map<Node, set<Node>>)
    requires Covers(g, w) && Covers(g, left) && Covers(g, done) && Covers(g, counted)
    requires forall n :: n in g ==> w[n] == Base(g, n) && left[n] == |Dependents(g, n)|
    requires forall n :: n in g ==> counted[n] == {} && done[n] == (Dependents(g, n) == {})
    ensures Counting(g, w, left, done, counted)
  {
    forall n | n in g ensures CountedAt(g, w, left, done, counted, n) {
      hide Dependents;
    }
  }

  lemma StartFalling(g: Graph, done: map<Node, bool>, height: map<Node, int>)
    requires Covers(g, done) && Covers(g, height)
    requires forall n :: n in g ==> height[n] == 1 && done[n] == (Dependents(g, n) == {})
    ensures Falling(g, done, height, 0)
  {
    hide Dependents;
  }

  lemma LayersStart(g: Graph, endpoints: seq<Node>, w: map<Node, int>, left: map<Node, int>, done: map<Node, bool>,
                    counted: map<Node, set<Node>>, height: map<Node, int>)
    requires Covers(g, w) && Covers(g, left) && Covers(g, done) && Covers(g, counted) && Covers(g, height)
    requires Distinct(endpoints) && forall n :: n in endpoints <==> n in g && Dependents(g, n) == {}
    requires forall n :: n in g ==> w[n] == if n in endpoints then 10 else 1
    requires forall n :: n in g ==> left[n] == |Dependents(g, n)| && done[n] == (n in endpoints)
    requires forall n :: n in g ==> counted[n] == {} && height[n] == 1
    ensures Layered(g, w, left, done, {}, endpoints, [], counted, height, 0)
  {
    hide Dependents;
    StartCounting(g, w, left, done, counted);
    StartFalling(g, done, height);
    hide Counting, Falling;
  }

  lemma LayerFirst(g: Graph, w: map<Node, int>, left: map<Node, int>, done: map<Node, bool>,
                   fin: set<Node>, tid: Node, rest: seq<Node>, next: seq<Node>,
                   counted: map<Node, set<Node>>, height: map<Node, int>, low: int)
    requires Layered(g, w, left, done, fin, [tid] + rest, next, counted, height, low)
    ensures tid in g && tid !in fin
    ensures Spreading(g, fin, tid, rest, {}, w, left, done, next, counted, height, low)
  {
    assert ([tid] + rest)[0] == tid;
  }

  lemma LayerTurns(g: Graph, w: map<Node, int>, left: map<Node, int>, done: map<Node, bool>,
                   fin: set<Node>, next: seq<Node>, counted: map<Node, set<Node>>, height: map<Node, int>, low: int)
    requires Layered(g, w, left, done, fin, [], next, counted, height, low)
    ensures Layered(g, w, left, done, fin, next, [], counted, height, low)
  {
  }

  lemma CountedOver(g: Graph, w: map<Node, int>, left: map<Node, int>, done: map<Node, bool>,
                    counted: map<Node, set<Node>>, n: Node)
    requires Counting(g, w, left, done, counted) && n in g
    ensures Covers(g, done) && Covers(g, left) && Covers(g, w) && Covers(g, counted)
    ensures counted[n] <= Dependents(g, n) && (done[n] <==> counted[n] == Dependents(g, n))
    ensures done[n] ==> left[n] == 0 && w[n] == Base(g, n) + Sum(w, Dependents(g, n))
  {
    hide Sum, Dependents;
    assert CountedAt(g, w, left, done, counted, n);
  }

  lemma LayersOver(g: Graph, w: map<Node, int>, left: map<Node, int>, done: map<Node, bool>,
                   fin: set<Node>, counted: map<Node, set<Node>>, height: map<Node, int>, low: int, n: Node)
    requires Layered(g, w, left, done, fin, [], [], counted, height, low) && n in g
    ensures Covers(g, done) && Covers(g, left) && Covers(g, w) && (done[n] ==> left[n] == 0)
    ensures !done[n] ==> HasUnfinishedDependent(g, done, n)
    ensures done[n] ==> w[n] == Base(g, n) + Sum(w, Dependents(g, n))
  {
    hide Counting, Falling, Sum;
    CountedOver(g, w, left, done, counted, n);
    if !done[n] {
      var r :| r in Dependents(g, n) && r !in counted[n];
      assert r !in fin;
    }
  }

  lemma FinishedNotBelow(g: Graph, done: map<Node, bool>, height: map<Node, int>, low: int, n: Node)
    requires Closed(g) && Falling(g, done, height, low) && n in g && done[n]
    ensures !BelowCycle(g, n)
  {
    forall c ensures !(Reaches(g, c, c) && (c == n || Reaches(g, c, n))) {
      FinishedIsSound(g, done, height, low, n, c);
    }
  }

  /** When no layer is left, the tasks without a finished mark are those on or below a cycle. */
  lemma LayersEnd(g: Graph, w: map<Node, int>, left: map<Node, int>, done: map<Node, bool>,
                  fin: set<Node>, counted: map<Node, set<Node>>, height: map<Node, int>, low: int, n: Node)
    requires Closed(g) && Layered(g, w, left, done, fin, [], [], counted, height, low) && n in g
    ensures n in done && n in left && (done[n] ==> left[n] == 0)
    ensures !done[n] <==> BelowCycle(g, n)
  {
    hide HasUnfinishedDependent, Counting, Frontier, Reaches, Closed, Sum, Dependents;
    LayersOver(g, w, left, done, fin, counted, height, low, n);
    if done[n] {
      FinishedNotBelow(g, done, height, low, n);
    } else {
      forall m | m in g && !done[m] ensures HasUnfinishedDependent(g, done, m) {
        LayersOver(g, w, left, done, fin, counted, height, low, m);
      }
      var c := UnfinishedIsBelowCycle(g, done, n);
      assert BelowCycle(g, n);
    }
  }

  lemma LayersWeigh(g: Graph, w: map<Node, int>, left: map<Node, int>, done: map<Node, bool>,
                    fin: set<Node>, counted: map<Node, set<Node>>, height: map<Node, int>, low: int)
    requires Closed(g) && Layered(g, w, left, done, fin, [], [], counted, height, low)
    requires forall n :: n in g ==> n in done && done[n]
    ensures Weighted(g, w)
  {
    forall n | n in g ensures w[n] == Base(g, n) + Sum(w, Dependents(g, n)) {
      LayersOver(g, w, left, done, fin, counted, height, low, n);
    }
    hide Layered;
  }

  /** `r` holds every reverse dependency except those of the tasks `todo` and of `tid` on `deps`. */
  ghost predicate RevdepsFrom(g: Graph, r: Graph, todo: set<Node>, tid: Node, deps: set<Node>) {
    && (forall n :: n in r <==> n in g)
    && forall d, m :: d in g && d in r ==>
         (m in r[d] <==> m in g && d in g[m] && m !in todo && !(m == tid && d in deps))
  }

  lemma RevdepsStart(g: Graph, r: Graph)
    requires r == map n | n in g :: {}
    ensures RevdepsFrom(g, r, g.Keys, "", {})
  {
  }

  lemma RevdepsTask(g: Graph, r: Graph, todo: set<Node>, tid: Node, deps: set<Node>)
    requires tid in g && tid !in todo
    ensures deps == g[tid] && RevdepsFrom(g, r, todo + {tid}, "", {}) ==> RevdepsFrom(g, r, todo, tid, deps)
    ensures RevdepsFrom(g, r, todo, tid, {}) ==> RevdepsFrom(g, r, todo, "", {})
  {
  }

  lemma RevdepsStep(g: Graph, r: Graph, todo: set<Node>, tid: Node, deps: set<Node>, dep: Node)
    requires Closed(g) && tid in g && tid !in todo && deps <= g[tid] && dep in deps
    requires RevdepsFrom(g, r, todo, tid, deps)
    ensures dep in r && RevdepsFrom(g, r[dep := r[dep] + {tid}], todo, tid, deps - {dep})
  {
  }

  lemma RevdepsEnd(g: Graph, r: Graph)
    requires RevdepsFrom(g, r, {}, "", {})
    ensures r == Inverse(g)
  {
    forall d | d in g ensures r[d] == Dependents(g, d) {
    }
    assert r.Keys == g.Keys;
    hide RevdepsFrom;
  }

  lemma InverseAt(g: Graph)
    ensures forall n :: n in g ==> n in Inverse(g) && Inverse(g)[n] == Dependents(g, n)
  {
  }

  lemma AcyclicIffNoneBelow(g: Graph)
    requires Closed(g)
    ensures Acyclic(g) <==> forall n :: n in g ==> !BelowCycle(g, n)
  {
    forall n | n in g && BelowCycle(g, n) ensures !Acyclic(g) {
      var c :| Reaches(g, c, c) && (c == n || Reaches(g, c, n));
      ReachesNodes(g, c, c);
    }
  }

  lemma LayersVerdict(g: Graph, w: map<Node, int>, left: map<Node, int>, done: map<Node, bool>,
                      fin: set<Node>, counted: map<Node, set<Node>>, height: map<Node, int>, low: int)
    requires Closed(g) && Layered(g, w, left, done, fin, [], [], counted, height, low)
    ensures Covers(g, done) && Covers(g, left)
    ensures (set n | n in g && (!done[n] || left[n] != 0)) == set n | n in g && BelowCycle(g, n)
    ensures (set n | n in g && BelowCycle(g, n)) == {} <==> Acyclic(g)
    ensures Acyclic(g) ==> Weighted(g, w)
  {
    hide Layered, BelowCycle, Acyclic, Closed, Weighted;
    forall n | n in g
      ensures n in done && n in left && (!done[n] || left[n] != 0 <==> BelowCycle(g, n))
      ensures !done[n] <==> BelowCycle(g, n)
    {
      LayersEnd(g, w, left, done, fin, counted, height, low, n);
    }
    AcyclicIffNoneBelow(g);
    if Acyclic(g) {
      LayersWeigh(g, w, left, done, fin, counted, height, low);
    }
    var bad := set n | n in g && BelowCycle(g, n);
    if bad == {} {
      forall n | n in g ensures !BelowCycle(g, n) {
        assert n !in bad;
      }
    } else {
      var n :| n in bad;
    }
  }

  class RunQueueData {
    var depends: Graph
    var revdeps: Graph
    var weight: map<Node, int>
    var active: set<Node>
    var hashOrder: seq<Node>

    constructor (depends: Graph)
      ensures this.depends == depends
    {
      this.depends, revdeps, weight, active, hashOrder := depends, map[], map[], {}, [];
    }

    /** One task of a layer: its weight goes to everything it depends on; the dependencies for which
        it was the last one join the next layer. */
    static method SpreadWeight(g: Graph, tid: Node, w0: map<Node, int>, left0: map<Node, int>, done0: map<Node, bool>,
                               next0: seq<Node>, ghost fin: set<Node>, ghost rest: seq<Node>,
                               ghost counted0: map<Node, set<Node>>, ghost height0: map<Node, int>, ghost low0: int)
      returns (w: map<Node, int>, left: map<Node, int>, done: map<Node, bool>, next: seq<Node>,
               ghost counted: map<Node, set<Node>>, ghost height: map<Node, int>, ghost low: int)
      requires Closed(g) && tid in g && tid !in fin
      requires Spreading(g, fin, tid, rest, {}, w0, left0, done0, next0, counted0, height0, low0)
      ensures Layered(g, w, left, done, fin + {tid}, rest, next, counted, height, low)
    {
      hide Spreading, Closed, Layered;
      w, left, done, next := w0, left0, done0, next0;
      counted, height, low := counted0, height0, low0;
      var todo := g[tid];
      ghost var seen: set<Node> := {};
      while todo != {}
        invariant seen !! todo && seen + todo == g[tid]
        invariant Spreading(g, fin, tid, rest, seen, w, left, done, next, counted, height, low)
        decreases todo
      {
        var dep :| dep in todo;
        SpreadStep(g, fin, tid, rest, seen, w, left, done, next, counted, height, low, dep);
        seen, counted, height, low := seen + {dep}, counted[dep := counted[dep] + {tid}], height[dep := low], low - 1;
        w := w[dep := w[dep] + w[tid]];
        left := left[dep := left[dep] - 1];
        done := done[dep := left[dep] == 0];
        if left[dep] == 0 {
          next := next + [dep];
        }
        todo := todo - {dep};
      }
      assert seen == g[tid];
      SpreadEnds(g, fin, tid, rest, w, left, done, next, counted, height, low);
    }

    /** One layer of the weighting: everything in it is finished, and the next layer is returned. */
    static method SpreadLayer(g: Graph, layer: seq<Node>, w0: map<Node, int>, left0: map<Node, int>,
                              done0: map<Node, bool>,
                              ghost fin0: set<Node>, ghost counted0: map<Node, set<Node>>,
                              ghost height0: map<Node, int>,
                              ghost low0: int)
      returns (w: map<Node, int>, left: map<Node, int>, done: map<Node, bool>, next: seq<Node>, ghost fin: set<Node>,
               ghost counted: map<Node, set<Node>>, ghost height: map<Node, int>, ghost low: int)
      requires Closed(g) && fin0 <= g.Keys
      requires Layered(g, w0, left0, done0, fin0, layer, [], counted0, height0, low0)
      ensures Layered(g, w, left, done, fin, next, [], counted, height, low)
      ensures fin0 <= fin <= g.Keys && (layer != [] ==> fin0 < fin) && (layer == [] ==> next == [])
    {
      hide Layered, Spreading, Closed;
      w, left, done, next := w0, left0, done0, [];
      fin, counted, height, low := fin0, counted0, height0, low0;
      var todo := layer;
      while todo != []
        invariant fin0 <= fin <= g.Keys && (todo != layer ==> fin0 < fin) && (todo == layer ==> next == [])
        invariant |todo| <= |layer|
        invariant Layered(g, w, left, done, fin, todo, next, counted, height, low)
      {
        var tid := todo[0];
        assert todo == [tid] + todo[1..];
        todo := todo[1..];
        LayerFirst(g, w, left, done, fin, tid, todo, next, counted, height, low);
        w, left, done, next, counted, height, low :=
          SpreadWeight(g, tid, w, left, done, next, fin, todo, counted, height, low);
        fin := fin + {tid};
      }
      LayerTurns(g, w, left, done, fin, next, counted, height, low);
    }

    /** Every task weighs 1 and waits for all its dependents; the endpoints weigh 10 and are done. */
    method FirstWeights(endpoints: seq<Node>)
      returns (w: map<Node, int>, left: map<Node, int>, done: map<Node, bool>,
               ghost counted: map<Node, set<Node>>, ghost height: map<Node, int>)
      requires Closed(depends) && revdeps == Inverse(depends)
      requires Distinct(endpoints) && forall n :: n in endpoints <==> n in depends && revdeps[n] == {}
      ensures Layered(depends, w, left, done, {}, endpoints, [], counted, height, 0)
    {
      hide Layered, Closed, Inverse, Dependents, Distinct;
      InverseAt(depends);
      w := map n | n in depends :: if n in endpoints then 10 else 1;
      left := map n | n in depends :: |revdeps[n]|;
      done := map n | n in depends :: n in endpoints;
      counted := map n | n in depends :: {};
      height := map n | n in depends :: 1;
      LayersStart(depends, endpoints, w, left, done, counted, height);
    }

    /** The tasks that can never be built: none exactly if the graph has no cycle. */
    method CalculateTaskWeights(endpoints: seq<Node>) returns (problems: set<Node>)
      requires Closed(depends) && revdeps == Inverse(depends)
      requires Distinct(endpoints) && forall n :: n in endpoints <==> n in depends && revdeps[n] == {}
      modifies this`weight
      ensures problems == set n | n in depends && BelowCycle(depends, n)
      ensures problems == {} <==> Acyclic(depends)
      ensures Acyclic(depends) ==> Weighted(depends, weight)
    {
      hide Layered, Closed, BelowCycle, Acyclic, Inverse, Dependents, Weighted, Distinct, Reaches;
      ghost var counted, height, low, fin := map[], map[], 0, {};
      var w, left, done;
      w, left, done, counted, height := FirstWeights(endpoints);
      var layer := endpoints;
      while true
        invariant Layered(depends, w, left, done, fin, layer, [], counted, height, low)
        invariant fin <= depends.Keys
        decreases depends.Keys - fin, |layer|
      {
        w, left, done, layer, fin, counted, height, low :=
          SpreadLayer(depends, layer, w, left, done, fin, counted, height, low);
        if |layer| == 0 {
          break;
        }
      }
      LayersVerdict(depends, w, left, done, fin, counted, height, low);
      problems := set n | n in depends && (!done[n] || left[n] != 0);
      weight := w;
    }

    method RemoveSelfReferences()
      modifies this`depends
      ensures depends == WithoutSelf(old(depends))
    {
      ghost var g := depends;
      var todo := depends.Keys;
      while todo != {}
        invariant todo <= g.Keys == depends.Keys
        invariant forall n :: n in g ==> depends[n] == if n in todo then g[n] else g[n] - {n}
        decreases todo
      {
        var tid :| tid in todo;
        if tid in depends[tid] {
          depends := depends[tid := depends[tid] - {tid}];
        }
        todo := todo - {tid};
      }
    }

    /** Marks `tid` and everything it depends on that is not marked yet. */
    method MarkActive(tid: Node)
      requires Closed(depends) && tid in depends && active <= depends.Keys
      modifies this`active
      ensures old(active) + {tid} <= active <= depends.Keys
      ensures forall n :: n in active - old(active) ==> MarkedFrom(depends, tid, n) && depends[n] <= active
      decreases depends.Keys - active
    {
      if tid in active {
        return;
      }
      active := active + {tid};
      var todo := depends[tid];
      while todo != {}
        invariant todo <= depends[tid]
        invariant old(active) + {tid} + (depends[tid] - todo) <= active <= depends.Keys
        invariant forall n :: n in active - old(active) ==>
          MarkedFrom(depends, tid, n) && (n == tid || depends[n] <= active)
        decreases todo
      {
        var dep :| dep in todo;
        assert dep in depends;
        ghost var before := active;
        MarkActive(dep);
        forall n | n in active - before ensures MarkedFrom(depends, tid, n) {
          MarkedThrough(depends, tid, dep, n);
        }
        todo := todo - {dep};
      }
    }

    /** One target: itself, or only its dependencies, with everything these need. */
    method MarkTarget(t: Target)
      requires Closed(depends) && t.tid in depends && active <= depends.Keys
      requires forall n :: n in active ==> depends[n] <= active
      modifies this`active
      ensures old(active) <= active <= depends.Keys && Rooted(depends, t, active)
      ensures forall n :: n in active - old(active) ==> Wanted(depends, t, n) && depends[n] <= active
    {
      hide Wanted, Reaches;
      if t.parentsOnly {
        var todo := depends[t.tid];
        while todo != {}
          invariant todo <= depends[t.tid]
          invariant old(active) + (depends[t.tid] - todo) <= active <= depends.Keys
          invariant forall n :: n in active - old(active) ==> Wanted(depends, t, n) && depends[n] <= active
          decreases todo
        {
          var dep :| dep in todo;
          assert dep in depends;
          ghost var was := active;
          MarkActive(dep);
          forall n | n in active - was ensures Wanted(depends, t, n) {
            WantedThrough(depends, t, dep, n);
          }
          todo := todo - {dep};
        }
      } else {
        ghost var was := active;
        MarkActive(t.tid);
        forall n | n in active - was ensures Wanted(depends, t, n) {
          WantedItself(depends, t, n);
        }
      }
    }

    /** Step B: the targets decide which tasks are active; an unknown target is fatal. */
    method MarkTargets(targets: seq<Target>) returns (r: PrepareResult)
      requires Closed(depends) && active == {}
      modifies this`active
      ensures r.Prepared? || r.UnknownTarget?
      ensures r.Prepared? <==> AllKnown(depends, targets)
      ensures r.UnknownTarget? ==> FirstUnknown(depends, targets, r.tid)
      ensures r.Prepared? ==> active == Needed(depends, targets)
    {
      var i := 0;
      while i < |targets|
        invariant 0 <= i <= |targets|
        invariant AllKnown(depends, targets[..i])
        invariant MarkedSoFar(depends, targets[..i], active)
      {
        var t := targets[i];
        hide Wanted, Rooted, MarkedSoFar, Closed, Needed;
        if t.tid !in depends {
          return UnknownTarget(t.tid);
        }
        ghost var before := active;
        SoFarClosed(depends, targets[..i], active);
        MarkTarget(t);
        MarkedOneMore(depends, targets[..i], t, before, active);
        i := i + 1;
        assert targets[..i] == targets[..i - 1] + [t];
      }
      assert targets[..i] == targets;
      MarkedIsNeeded(depends, targets, active);
      r := Prepared;
    }

    /** Step C: drop what is not active. */
    method PruneInactive()
      modifies this`depends
      ensures depends == Pruned(old(depends), active)
    {
      ghost var before := depends;
      var todo := depends.Keys;
      while todo != {}
        invariant todo <= depends.Keys
        invariant forall n :: n in depends <==> n in before && (n in active || n in todo)
        invariant forall n :: n in depends ==> depends[n] == before[n]
        decreases todo
      {
        var tid :| tid in todo;
        todo := todo - {tid};
        if tid !in active {
          depends := depends - {tid};
        }
      }
    }

    /** Every edge of the graph, turned round. */
    static method Reverse(g: Graph) returns (r: Graph)
      requires Closed(g)
      ensures r == Inverse(g)
    {
      hide RevdepsFrom, Inverse;
      r := map n | n in g :: {};
      var todo := g.Keys;
      RevdepsStart(g, r);
      while todo != {}
        invariant todo <= g.Keys
        invariant RevdepsFrom(g, r, todo, "", {})
        decreases todo
      {
        var tid :| tid in todo;
        var deps := g[tid];
        assert todo == (todo - {tid}) + {tid};
        todo := todo - {tid};
        RevdepsTask(g, r, todo, tid, deps);
        while deps != {}
          invariant deps <= g[tid]
          invariant RevdepsFrom(g, r, todo, tid, deps)
          decreases deps
        {
          var dep :| dep in deps;
          RevdepsStep(g, r, todo, tid, deps, dep);
          r := r[dep := r[dep] + {tid}];
          deps := deps - {dep};
        }
        RevdepsTask(g, r, todo, tid, {});
      }
      RevdepsEnd(g, r);
    }

    method BuildReverseDependencies()
      requires Closed(depends)
      modifies this`revdeps
      ensures revdeps == Inverse(depends)
    {
      revdeps := Reverse(depends);
    }

    /** The tasks nothing depends on; two tasks that depend on each other are fatal. */
    method FindEndpoints() returns (endpoints: seq<Node>, r: PrepareResult)
      requires Closed(depends) && revdeps == Inverse(depends)
      ensures r.Prepared? || r.MutualDependency?
      ensures r.MutualDependency? ==> Mutual(depends, r.tid, r.dep)
      ensures r.Prepared? ==> Distinct(endpoints) && forall n :: n in endpoints <==> n in depends && revdeps[n] == {}
      ensures r.Prepared? ==> forall n, d :: !Mutual(depends, n, d)
    {
      endpoints, r := [], Prepared;
      var todo := depends.Keys;
      while todo != {}
        invariant todo <= depends.Keys
        invariant Distinct(endpoints)
        invariant forall n :: n in endpoints <==> n in depends && n !in todo && revdeps[n] == {}
        invariant forall n :: n in depends && n !in todo ==> revdeps[n] !! depends[n]
        decreases todo
      {
        var tid :| tid in todo;
        if revdeps[tid] == {} {
          endpoints := endpoints + [tid];
        }
        if dep :| dep in revdeps[tid] && dep in depends[tid] {
          return [], MutualDependency(tid, dep);
        }
        todo := todo - {tid};
      }
    }

    /** Hashes every task once, after everything it depends on. */
    method HashTasks()
      requires Closed(depends) && Acyclic(depends)
      modifies this`hashOrder
      ensures DependenciesFirst(depends, hashOrder)
    {
      hide Acyclic, Closed, Dealt;
      DealtNothing(depends);
      hashOrder := [];
      var dealtwith: set<Node> := {};
      var todeal := depends.Keys;
      while |todeal| > 0
        invariant todeal !! dealtwith && todeal + dealtwith == depends.Keys
        invariant Dealt(depends, hashOrder, dealtwith)
        decreases todeal
      {
        ghost var before := todeal;
        ghost var lowest := LowestRest(depends, todeal, dealtwith);
        var copy := todeal;
        while copy != {}
          invariant todeal !! dealtwith && todeal + dealtwith == depends.Keys
          invariant copy <= todeal <= before
          invariant Dealt(depends, hashOrder, dealtwith)
          invariant lowest in dealtwith || (lowest in copy && depends[lowest] <= dealtwith)
          decreases copy
        {
          var tid :| tid in copy;
          copy := copy - {tid};
          if |depends[tid] - dealtwith| == 0 {
            DealtGrows(depends, hashOrder, dealtwith, tid);
            dealtwith := dealtwith + {tid};
            todeal := todeal - {tid};
            hashOrder := hashOrder + [tid];
          }
        }
        assert lowest !in todeal;
      }
      DealtAll(depends, hashOrder, dealtwith);
    }

    /** The whole preparation from a resolved dependency graph. */
    method Prepare(targets: seq<Target>) returns (r: PrepareResult)
      requires Closed(depends)
      modifies this
      ensures r.Prepared? <==>
                AllKnown(old(depends), targets) && PreparedGraph(old(depends), targets) != map[] &&
                Acyclic(PreparedGraph(old(depends), targets))
      ensures r.UnknownTarget? <==> !AllKnown(old(depends), targets)
      ensures r.UnknownTarget? ==> FirstUnknown(old(depends), targets, r.tid)
      ensures r.NoActiveTasks? <==> AllKnown(old(depends), targets) && PreparedGraph(old(depends), targets) == map[]
      ensures r.MutualDependency? ==> Mutual(PreparedGraph(old(depends), targets), r.tid, r.dep)
      ensures r.Unbuildable? ==>
                var g := PreparedGraph(old(depends), targets);
                (forall n, d :: !Mutual(g, n, d)) &&
                r.problems != {} && r.problems == set n | n in g && BelowCycle(g, n)
      ensures r.Prepared? ==> depends == PreparedGraph(old(depends), targets) && Closed(depends)
      ensures r.Prepared? ==>
        revdeps == Inverse(depends) && Weighted(depends, weight) && DependenciesFirst(depends, hashOrder)
    {
      hide Acyclic, Inverse, Weighted, DependenciesFirst, BelowCycle, Needed, Dependents;
      RemoveSelfReferences();
      ghost var g0 := depends;
      assert Closed(g0);
      active := {};
      r := MarkTargets(targets);
      if !r.Prepared? {
        return;
      }
      PruneInactive();
      NeededClosed(g0, targets);
      assert depends == PreparedGraph(old(depends), targets);
      hide PreparedGraph, Closed, Pruned;
      if depends == map[] {
        return NoActiveTasks;
      }
      BuildReverseDependencies();
      var endpoints;
      endpoints, r := FindEndpoints();
      if !r.Prepared? {
        MutualIsCycle(depends, r.tid, r.dep);
        return;
      }
      var problems := CalculateTaskWeights(endpoints);
      if problems != {} {
        return Unbuildable(problems);
      }
      HashTasks();
      r := Prepared;
    }
  }

  ghost predicate Dealt(g: Graph, order: seq<Node>, dealtwith: set<Node>) {
    && Distinct(order)
    && dealtwith <= g.Keys
    && (forall n :: n in order <==> n in dealtwith)
    && forall i, d :: 0 <= i < |order| && order[i] in g && d in g[order[i]] ==> d in order[..i]
  }

  lemma DealtNothing(g: Graph)
    ensures Dealt(g, [], {})
  {
  }

  lemma DealtAll(g: Graph, order: seq<Node>, dealtwith: set<Node>)
    requires Dealt(g, order, dealtwith) && dealtwith == g.Keys
    ensures DependenciesFirst(g, order)
  {
  }

  lemma LowestRest(g: Graph, rest: set<Node>, dealtwith: set<Node>) returns (m: Node)
    requires Closed(g) && Acyclic(g) && rest != {} && rest + dealtwith == g.Keys
    ensures m in rest && m in g && g[m] <= dealtwith
  {
    m := LowestIn(g, rest);
    forall d | d in g[m] ensures d in dealtwith {
      assert d in g && d !in rest;
    }
  }

  lemma DealtGrows(g: Graph, order: seq<Node>, dealtwith: set<Node>, tid: Node)
    requires Dealt(g, order, dealtwith) && tid in g && tid !in dealtwith && |g[tid] - dealtwith| == 0
    ensures Dealt(g, order + [tid], dealtwith + {tid})
  {
    var order' := order + [tid];
    assert g[tid] - dealtwith == {};
    forall i, d | 0 <= i < |order'| && order'[i] in g && d in g[order'[i]] ensures d in order'[..i] {
      if i < |order| {
        assert order'[..i] == order[..i];
      } else {
        assert order'[..i] == order;
        assert d !in g[tid] - dealtwith;
      }
    }
  }

  lemma MutualIsCycle(g: Graph, tid: Node, dep: Node)
    requires Closed(g) && tid in g && dep in g[tid] && dep in g && tid in g[dep]
    ensures !Acyclic(g)
  {
    EdgeReaches(g, dep, tid);
    EdgeThenReaches(g, tid, dep, tid);
  }

  ghost predicate MarkedFrom(g: Graph, tid: Node, n: Node) {
    n == tid || Reaches(g, tid, n)
  }

  lemma MarkedThrough(g: Graph, tid: Node, dep: Node, n: Node)
    requires Closed(g) && tid in g && dep in g[tid] && MarkedFrom(g, dep, n)
    ensures Reaches(g, tid, n)
  {
    if n == dep {
      EdgeReaches(g, tid, dep);
    } else {
      EdgeThenReaches(g, tid, dep, n);
    }
  }

  lemma WantedThrough(g: Graph, t: Target, dep: Node, n: Node)
    requires Closed(g) && t.tid in g && dep in g[t.tid] && MarkedFrom(g, dep, n)
    ensures Wanted(g, t, n)
  {
    MarkedThrough(g, t.tid, dep, n);
  }

  lemma SoFarClosed(g: Graph, targets: seq<Target>, active: set<Node>)
    requires MarkedSoFar(g, targets, active)
    ensures active <= g.Keys && forall n :: n in active ==> g[n] <= active
  {
  }

  lemma WantedItself(g: Graph, t: Target, n: Node)
    requires !t.parentsOnly && MarkedFrom(g, t.tid, n)
    ensures Wanted(g, t, n)
  {
  }

  ghost predicate MarkedSoFar(g: Graph, targets: seq<Target>, active: set<Node>) {
    && active <= g.Keys
    && (forall n :: n in active ==> g[n] <= active && exists i :: 0 <= i < |targets| && Wanted(g, targets[i], n))
    && forall i :: 0 <= i < |targets| && targets[i].tid in g ==> Rooted(g, targets[i], active)
  }

  ghost predicate Rooted(g: Graph, t: Target, active: set<Node>)
    requires t.tid in g
  {
    g[t.tid] <= active && (t.parentsOnly || t.tid in active)
  }

  lemma MarkedOneMore(g: Graph, targets: seq<Target>, t: Target, before: set<Node>, active: set<Node>)
    requires Closed(g) && t.tid in g && before <= active <= g.Keys
    requires MarkedSoFar(g, targets, before) && AllKnown(g, targets)
    requires forall n :: n in active - before ==> Wanted(g, t, n) && g[n] <= active
    requires Rooted(g, t, active)
    ensures MarkedSoFar(g, targets + [t], active) && AllKnown(g, targets + [t])
  {
    var ts := targets + [t];
    forall n | n in active ensures g[n] <= active && exists i :: 0 <= i < |ts| && Wanted(g, ts[i], n) {
      if n in before {
        var i :| 0 <= i < |targets| && Wanted(g, targets[i], n);
        assert ts[i] == targets[i];
      } else {
        assert ts[|targets|] == t;
      }
    }
  }

  lemma MarkedIsNeeded(g: Graph, targets: seq<Target>, active: set<Node>)
    requires Closed(g) && AllKnown(g, targets) && MarkedSoFar(g, targets, active)
    ensures active == Needed(g, targets)
  {
    forall n | n in Needed(g, targets) ensures n in active {
      var i :| 0 <= i < |targets| && Wanted(g, targets[i], n);
      assert Rooted(g, targets[i], active);
      if Reaches(g, targets[i].tid, n) {
        var b := ReachesFirstStep(g, targets[i].tid, n);
        ClosedSetKeeps(g, active, b, n);
      }
    }
  }

  /** A set closed under dependencies contains whatever its members depend on transitively. */
  lemma ClosedSetKeeps(g: Graph, s: set<Node>, a: Node, b: Node)
    requires s <= g.Keys && (forall n :: n in s ==> g[n] <= s) && a in s && MarkedFrom(g, a, b)
    ensures b in s
  {
    if a != b {
      var p :| PathBetween(g, p, a, b);
      PathStays(g, s, p);
    }
  }

  lemma {:induction false} PathStays(g: Graph, s: set<Node>, p: seq<Node>)
    requires s <= g.Keys && (forall n :: n in s ==> g[n] <= s) && IsPath(g, p) && p[0] in s
    ensures p[|p| - 1] in s
  {
    if |p| > 1 {
      PathStays(g, s, p[1..]);
    }
  }
}
