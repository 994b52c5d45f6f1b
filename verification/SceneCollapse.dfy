/** Collapsing the task graph onto the tasks that have a setscene variant. */
module SceneCollapse {
  import opened Graphs
  import opened TaskWeights
  import opened RunQueuePrepare

  ghost predicate InsideClear(p: seq<Node>, ss: set<Node>) {
    forall i :: 0 < i < |p| - 1 ==> p[i] !in ss
  }

  /** `a` depends on `b` by a path with no setscene task strictly inside. */
  ghost predicate Directly(g: Graph, ss: set<Node>, a: Node, b: Node) {
    exists p :: PathBetween(g, p, a, b) && InsideClear(p, ss)
  }

  ghost predicate AllClear(p: seq<Node>, ss: set<Node>) {
    forall i :: 0 <= i < |p| ==> p[i] !in ss
  }

  ghost predicate OpenPath(g: Graph, ss: set<Node>, p: seq<Node>, n: Node) {
    IsPath(g, p) && AllClear(p, ss) && p[|p| - 1] == n && Dependents(g, p[0]) == {}
  }

  /** `n` is an endpoint, or an endpoint depends on it, with no setscene task on the way. */
  ghost predicate Open(g: Graph, ss: set<Node>, n: Node) {
    exists p :: OpenPath(g, ss, p, n)
  }

  /** A setscene task that a task outside the setscene tasks, itself wanted by nobody, depends on
      without another setscene task in between. */
  ghost predicate Unskippable(g: Graph, ss: set<Node>, t: Node) {
    exists e :: e in g && e !in ss && Dependents(g, e) == {} && Directly(g, ss, e, t)
  }

  // ---- Where the setscene ancestors of a task have got to ---------------------------------------

  /** Everything recorded for `n` is a setscene task that transitively depends on it. */
  ghost predicate Ancestors(g: Graph, ss: set<Node>, m: map<Node, set<Node>>) {
    forall n, s :: n in m && s in m[n] ==> s in ss && Reaches(g, s, n)
  }

  /** `s` is recorded at `n`, or went through `n`, or is about to arrive there. */
  ghost predicate Arrived(ss: set<Node>, anc: map<Node, set<Node>>, seen: set<(Node, Node)>, rest: map<Node, set<Node>>,
                          s: Node, n: Node)
  {
    || (n in anc && s in anc[n])
    || (n !in ss && (s, n) in seen)
    || (n in rest && s in rest[n])
  }

  /** Nothing waits at an ordinary task that is not due to be processed. */
  ghost predicate Waiting(ss: set<Node>, anc: map<Node, set<Node>>, rest: map<Node, set<Node>>,
                          next: map<Node, set<Node>>)
  {
    forall n :: n in anc && n !in ss && anc[n] != {} ==> n in rest || n in next
  }

  ghost predicate Sent(g: Graph, ss: set<Node>, anc: map<Node, set<Node>>, seen: set<(Node, Node)>,
                       rest: map<Node, set<Node>>)
  {
    && (forall s, d :: s in ss && s in g && d in g[s] ==> Arrived(ss, anc, seen, rest, s, d))
    && (forall s, n, d :: (s, n) in seen && n in g && d in g[n] ==> Arrived(ss, anc, seen, map[], s, d))
  }

  ghost predicate Flow(g: Graph, ss: set<Node>, anc: map<Node, set<Node>>, seen: set<(Node, Node)>,
                       rest: map<Node, set<Node>>, next: map<Node, set<Node>>)
  {
    && anc.Keys == g.Keys
    && rest.Keys <= g.Keys
    && next.Keys <= g.Keys
    && Ancestors(g, ss, anc)
    && Ancestors(g, ss, rest)
    && Ancestors(g, ss, next)
    && Waiting(ss, anc, rest, next)
    && Sent(g, ss, anc, seen, rest)
    && forall n :: n in next ==> n !in ss
  }

  ghost predicate RanksBelow(g: Graph, m: map<Node, set<Node>>, bound: nat) {
    forall n :: n in m ==> n in g && Rank(g, n) < bound
  }

  /** What the collapse promises about the ancestors it leaves recorded. */
  ghost predicate Collapsed(g: Graph, ss: set<Node>, anc: map<Node, set<Node>>) {
    && anc.Keys == g.Keys
    && (forall t, s :: t in ss && t in g && s in anc[t] ==> s in ss && Reaches(g, s, t))
    && (forall t, s :: t in ss && t in g && s in ss && Directly(g, ss, s, t) ==> s in anc[t])
    && (forall n :: n in g && n !in ss ==> anc[n] == {})
  }

  lemma {:induction false} SeenAlong(g: Graph, ss: set<Node>, anc: map<Node, set<Node>>, seen: set<(Node, Node)>,
                                     p: seq<Node>, k: nat)
    requires Closed(g) && Sent(g, ss, anc, seen, map[])
    requires forall n :: n in anc && n !in ss ==> anc[n] == {}
    requires IsPath(g, p) && p[0] in ss && InsideClear(p, ss) && 0 < k < |p|
    ensures Arrived(ss, anc, seen, map[], p[0], p[k])
  {
    PathNodes(g, p, k - 1);
    if k > 1 {
      SeenAlong(g, ss, anc, seen, p, k - 1);
    }
  }

  lemma FlowEnds(g: Graph, ss: set<Node>, anc: map<Node, set<Node>>, seen: set<(Node, Node)>)
    requires Closed(g) && Flow(g, ss, anc, seen, map[], map[])
    ensures Collapsed(g, ss, anc)
  {
    forall t, s | t in ss && t in g && s in ss && Directly(g, ss, s, t) ensures s in anc[t] {
      var p :| PathBetween(g, p, s, t) && InsideClear(p, ss);
      SeenAlong(g, ss, anc, seen, p, |p| - 1);
    }
  }

  // ---- One point ---------------------------------------------------------------------------------

  /** The state while the dependencies `deps` of `point` still have to be sent `tasks`; `task` is what
      the point itself was sent. */
  ghost predicate Sending(g: Graph, ss: set<Node>, anc: map<Node, set<Node>>, seen: set<(Node, Node)>,
                          rest: map<Node, set<Node>>, next: map<Node, set<Node>>,
                          point: Node, tasks: set<Node>, deps: set<Node>) {
    && anc.Keys == g.Keys
    && rest.Keys <= g.Keys
    && next.Keys <= g.Keys
    && Ancestors(g, ss, anc)
    && Ancestors(g, ss, rest)
    && Ancestors(g, ss, next)
    && Waiting(ss, anc, rest, next)
    && (forall s, d :: s in ss && s in g && d in g[s] ==> Arrived(ss, anc, seen, rest, s, d))
    && (forall s, n, d :: (s, n) in seen && n in g && d in g[n] && !(n == point && d in deps && s in tasks) ==>
          Arrived(ss, anc, seen, map[], s, d))
    && (forall n :: n in next ==> n !in ss)
  }

  lemma PointTaken(g: Graph, ss: set<Node>, anc: map<Node, set<Node>>, seen: set<(Node, Node)>,
                   rest: map<Node, set<Node>>, next: map<Node, set<Node>>, point: Node)
    requires Flow(g, ss, anc, seen, rest, next) && point in rest
    ensures point in g && point in anc
    ensures var tasks := rest[point] + anc[point];
            if point in ss then Sending(g, ss, anc[point := tasks], seen, rest - {point}, next, point, {}, g[point])
            else Sending(g, ss, anc[point := {}], seen + (set s | s in tasks :: (s, point)), rest - {point}, next,
                         point, tasks, g[point])
    ensures forall s :: s in rest[point] + anc[point] ==> s in ss && Reaches(g, s, point)
  {
    hide Reaches, Arrived;
    var tasks := rest[point] + anc[point];
    var anc' := if point in ss then anc[point := tasks] else anc[point := {}];
    var seen' := if point in ss then seen else seen + set s | s in tasks :: (s, point);
    assert anc'.Keys == anc.Keys;
    forall s, n
      ensures Arrived(ss, anc, seen, rest, s, n) ==> Arrived(ss, anc', seen', rest - {point}, s, n)
      ensures Arrived(ss, anc, seen, map[], s, n) ==> Arrived(ss, anc', seen', map[], s, n)
    {
      ArrivedStill(ss, anc, seen, rest, point, s, n);
    }
  }

  lemma ArrivedStill(ss: set<Node>, anc: map<Node, set<Node>>, seen: set<(Node, Node)>, rest: map<Node, set<Node>>,
                     point: Node, s: Node, n: Node)
    requires point in rest && point in anc
    ensures var tasks := rest[point] + anc[point];
            var anc' := if point in ss then anc[point := tasks] else anc[point := {}];
            var seen' := if point in ss then seen else seen + set t | t in tasks :: (t, point);
            && (Arrived(ss, anc, seen, rest, s, n) ==> Arrived(ss, anc', seen', rest - {point}, s, n))
            && (Arrived(ss, anc, seen, map[], s, n) ==> Arrived(ss, anc', seen', map[], s, n))
  {
  }

  lemma DepSent(g: Graph, ss: set<Node>, anc: map<Node, set<Node>>, seen: set<(Node, Node)>,
                rest: map<Node, set<Node>>, next: map<Node, set<Node>>,
                point: Node, task: set<Node>, tasks: set<Node>, deps: set<Node>, dep: Node, again: bool)
    requires Closed(g) && point in g && dep in deps && deps <= g[point]
    requires Sending(g, ss, anc, seen, rest, next, point, tasks, deps)
    requires forall s :: s in task || s in tasks ==> s in ss && Reaches(g, s, point)
    requires dep in g && dep in anc
    requires !again ==> dep in ss || anc[dep] + tasks == {}
    requires again ==> dep !in ss
    ensures Sending(g, ss, anc[dep := anc[dep] + tasks], seen, rest, if again then next[dep := task] else next,
                    point, tasks, deps - {dep})
  {
    forall s | s in task || s in tasks ensures Reaches(g, s, dep) {
      ReachesThenEdge(g, s, point, dep);
    }
    var anc', next' := anc[dep := anc[dep] + tasks], if again then next[dep := task] else next;
    hide Reaches, Closed;
    assert Ancestors(g, ss, anc');
    assert Ancestors(g, ss, next');
    assert Waiting(ss, anc', rest, next');
    assert forall s, n :: Arrived(ss, anc, seen, rest, s, n) ==> Arrived(ss, anc', seen, rest, s, n);
    assert forall s, n :: Arrived(ss, anc, seen, map[], s, n) ==> Arrived(ss, anc', seen, map[], s, n);
    assert forall s :: s in tasks ==> Arrived(ss, anc', seen, map[], s, dep);
    hide Ancestors, Waiting, Arrived;
  }

  lemma PointDone(g: Graph, ss: set<Node>, anc: map<Node, set<Node>>, seen: set<(Node, Node)>,
                  rest: map<Node, set<Node>>, next: map<Node, set<Node>>, point: Node, tasks: set<Node>)
    requires Sending(g, ss, anc, seen, rest, next, point, tasks, {})
    ensures Flow(g, ss, anc, seen, rest, next)
  {
    hide Ancestors, Waiting;
  }

  lemma RoundTurns(g: Graph, ss: set<Node>, anc: map<Node, set<Node>>, seen: set<(Node, Node)>,
                   next: map<Node, set<Node>>)
    requires Flow(g, ss, anc, seen, map[], next)
    ensures Flow(g, ss, anc, seen, next, map[])
  {
    hide Ancestors;
    assert Ancestors(g, ss, map[]) by { EmptyAncestors(g, ss); }
  }

  lemma EmptyAncestors(g: Graph, ss: set<Node>)
    ensures Ancestors(g, ss, map[])
  {
  }

  lemma DepRanksLower(g: Graph, rest: map<Node, set<Node>>, next: map<Node, set<Node>>, point: Node, dep: Node,
                      task: set<Node>, bound: nat)
    requires Closed(g) && Acyclic(g) && point in g && dep in g[point] && Rank(g, point) < bound
    requires RanksBelow(g, next, bound - 1)
    ensures dep in g && RanksBelow(g, next[dep := task], bound - 1)
  {
    RankDecreases(g, point, dep);
  }

  /** The books after `point` has sent `tasks` to the tasks `told`, which no longer wait for it. */
  ghost predicate Entered(point: Node, tasks: set<Node>, told: set<Node>, waits: Graph, got: Graph,
                          waits': Graph, got': Graph) {
    && waits'.Keys == waits.Keys && got'.Keys == got.Keys
    && (forall d :: d in waits ==> waits'[d] == if d in told then waits[d] - {point} else waits[d])
    && (forall d :: d in got ==> got'[d] == if d in told then got[d] + tasks else got[d])
  }

  /** The points of the next round: the told ones that are no setscene tasks and either wait for nobody
      or have something to pass on, with `task`, whatever they were to be sent before. */
  ghost predicate Called(ss: set<Node>, task: set<Node>, told: set<Node>, next: Graph, waits': Graph, got': Graph,
                         next': Graph) {
    && (forall d :: d in next' <==> d in next || PointNext(ss, told, waits', got', d))
    && (forall d :: d in next' ==> next'[d] == if PointNext(ss, told, waits', got', d) then task else next[d])
  }

  ghost predicate PointNext(ss: set<Node>, told: set<Node>, waits: Graph, got: Graph, d: Node) {
    d in told && d !in ss && d in waits && d in got && (waits[d] == {} || got[d] != {})
  }

  ghost predicate Told(ss: set<Node>, point: Node, task: set<Node>, tasks: set<Node>, told: set<Node>,
                       waits: Graph, got: Graph, next: Graph, waits': Graph, got': Graph, next': Graph) {
    Entered(point, tasks, told, waits, got, waits', got') && Called(ss, task, told, next, waits', got', next')
  }

  lemma ToldNobody(ss: set<Node>, point: Node, task: set<Node>, tasks: set<Node>, waits: Graph, got: Graph, next: Graph)
    ensures Told(ss, point, task, tasks, {}, waits, got, next, waits, got, next)
  {
  }

  lemma EnteredMore(point: Node, tasks: set<Node>, told: set<Node>, waits: Graph, got: Graph,
                    waits': Graph, got': Graph, dep: Node)
    requires Entered(point, tasks, told, waits, got, waits', got') && dep !in told && dep in waits && dep in got
    ensures Entered(point, tasks, told + {dep}, waits, got,
                    waits'[dep := waits'[dep] - {point}], got'[dep := got'[dep] + tasks])
  {
    assert waits'[dep := waits'[dep] - {point}].Keys == waits'.Keys;
    assert got'[dep := got'[dep] + tasks].Keys == got'.Keys;
  }

  lemma CalledMore(ss: set<Node>, task: set<Node>, told: set<Node>, next: Graph, waits': Graph, got': Graph,
                   next': Graph, w: Graph, a: Graph, dep: Node)
    requires Called(ss, task, told, next, waits', got', next') && dep !in told && dep in w && dep in a
    requires w.Keys == waits'.Keys && forall d :: d in w && d != dep ==> w[d] == waits'[d]
    requires a.Keys == got'.Keys && forall d :: d in a && d != dep ==> a[d] == got'[d]
    ensures Called(ss, task, told + {dep}, next, w, a,
                   if dep !in ss && (w[dep] == {} || a[dep] != {}) then next'[dep := task] else next')
  {
    forall d ensures PointNext(ss, told + {dep}, w, a, d) <==>
        PointNext(ss, told, waits', got', d) || (d == dep && dep !in ss && (w[dep] == {} || a[dep] != {}))
    {
    }
    hide PointNext;
  }

  lemma ToldMore(ss: set<Node>, point: Node, task: set<Node>, tasks: set<Node>, told: set<Node>,
                 waits: Graph, got: Graph, next: Graph, waits': Graph, got': Graph, next': Graph, dep: Node)
    requires Told(ss, point, task, tasks, told, waits, got, next, waits', got', next')
    requires dep !in told && dep in waits && dep in got
    ensures dep in waits' && dep in got'
    ensures var w, a := waits'[dep := waits'[dep] - {point}], got'[dep := got'[dep] + tasks];
            Told(ss, point, task, tasks, told + {dep}, waits, got, next, w, a,
                 if dep !in ss && (w[dep] == {} || a[dep] != {}) then next'[dep := task] else next')
  {
    var w, a := waits'[dep := waits'[dep] - {point}], got'[dep := got'[dep] + tasks];
    EnteredMore(point, tasks, told, waits, got, waits', got', dep);
    assert w.Keys == waits'.Keys && a.Keys == got'.Keys;
    CalledMore(ss, task, told, next, waits', got', next', w, a, dep);
    hide Entered, Called;
  }

  lemma ToldKeys(ss: set<Node>, point: Node, task: set<Node>, tasks: set<Node>, told: set<Node>,
                 waits: Graph, got: Graph, next: Graph, waits': Graph, got': Graph, next': Graph)
    requires Told(ss, point, task, tasks, told, waits, got, next, waits', got', next')
    ensures waits'.Keys == waits.Keys && got'.Keys == got.Keys
  {
  }

  lemma NotThere(m: Graph, n: Node, x: Node)
    ensures n in m && x !in m[n] ==> m[n := m[n] - {x}] == m
  {
    if n in m && x !in m[n] {
      assert m[n] - {x} == m[n];
    }
  }

  class SceneQueue {
    const depends: Graph
    const revdeps: Graph
    const setscene: set<Node>
    var sqRevdeps: map<Node, set<Node>>
    var sqRevdepsNew: map<Node, set<Node>>
    var sqRevdeps2: map<Node, set<Node>>
    var sqRevdepsNew2: map<Node, set<Node>>

    ghost predicate Configured() {
      Closed(depends) && Acyclic(depends) && revdeps == Inverse(depends) && setscene <= depends.Keys
    }

    constructor (depends: Graph, revdeps: Graph, setscene: set<Node>)
      requires Closed(depends) && Acyclic(depends) && revdeps == Inverse(depends) && setscene <= depends.Keys
      ensures Configured() && this.depends == depends && this.setscene == setscene
    {
      this.depends, this.revdeps, this.setscene := depends, revdeps, setscene;
      sqRevdeps, sqRevdepsNew, sqRevdeps2, sqRevdepsNew2 := map[], map[], map[], map[];
    }

    /** Sends `tasks` to everything `point` depends on; whatever now has nothing more to wait for, or
        something to pass on, is a point of the next round, with the points' own `task`. */
    method SendOn(point: Node, task: set<Node>, tasks: set<Node>, newendpoints0: map<Node, set<Node>>,
                  ghost seen: set<(Node, Node)>, ghost rest: map<Node, set<Node>>, ghost bound: nat)
      returns (newendpoints: map<Node, set<Node>>)
      requires Configured() && sqRevdeps.Keys == depends.Keys && point in depends
      requires Sending(depends, setscene, sqRevdepsNew, seen, rest, newendpoints0, point, tasks, depends[point])
      requires forall s :: s in task || s in tasks ==> s in setscene && Reaches(depends, s, point)
      requires Rank(depends, point) < bound && RanksBelow(depends, newendpoints0, bound - 1)
      modifies `sqRevdeps, `sqRevdepsNew
      ensures sqRevdeps.Keys == depends.Keys
      ensures Flow(depends, setscene, sqRevdepsNew, seen, rest, newendpoints)
      ensures RanksBelow(depends, newendpoints, bound - 1)
      ensures Told(setscene, point, task, tasks, depends[point], old(sqRevdeps), old(sqRevdepsNew), newendpoints0,
                   sqRevdeps, sqRevdepsNew, newendpoints)
    {
      hide Flow, Sending, Closed, Acyclic, Inverse, RanksBelow, Rank, Reaches, Told;
      newendpoints := newendpoints0;
      var deps := depends[point];
      ghost var waits, got := sqRevdeps, sqRevdepsNew;
      ToldNobody(setscene, point, task, tasks, sqRevdeps, sqRevdepsNew, newendpoints);
      assert depends[point] - deps == {};
      while deps != {}
        invariant deps <= depends[point] && sqRevdeps.Keys == depends.Keys
        invariant Sending(depends, setscene, sqRevdepsNew, seen, rest, newendpoints, point, tasks, deps)
        invariant RanksBelow(depends, newendpoints, bound - 1)
        invariant Told(setscene, point, task, tasks, depends[point] - deps, waits, got, newendpoints0,
                       sqRevdeps, sqRevdepsNew, newendpoints)
        decreases deps
      {
        var dep :| dep in deps;
        DepRanksLower(depends, rest, newendpoints, point, dep, task, bound);
        SendingKeys(depends, setscene, sqRevdepsNew, seen, rest, newendpoints, point, tasks, deps, dep);
        ToldKeys(setscene, point, task, tasks, depends[point] - deps, waits, got, newendpoints0,
                 sqRevdeps, sqRevdepsNew, newendpoints);
        ToldMore(setscene, point, task, tasks, depends[point] - deps, waits, got, newendpoints0,
                 sqRevdeps, sqRevdepsNew, newendpoints, dep);
        assert depends[point] - deps + {dep} == depends[point] - (deps - {dep});
        NotThere(sqRevdeps, dep, point);
        if point in sqRevdeps[dep] {
          sqRevdeps := sqRevdeps[dep := sqRevdeps[dep] - {point}];
        }
        var received := sqRevdepsNew[dep] + tasks;
        var again := (sqRevdeps[dep] == {} || received != {}) && dep !in setscene;
        DepSent(depends, setscene, sqRevdepsNew, seen, rest, newendpoints, point, task, tasks, deps, dep, again);
        sqRevdepsNew := sqRevdepsNew[dep := received];
        if again {
          newendpoints := newendpoints[dep := task];
        }
        deps := deps - {dep};
      }
      assert depends[point] - deps == depends[point];
      PointDone(depends, setscene, sqRevdepsNew, seen, rest, newendpoints, point, tasks);
    }

    /** One point: what it received goes on to its dependencies, unless it is a setscene task. */
    method ProcessPoint(point: Node, task: set<Node>, newendpoints0: map<Node, set<Node>>,
                        ghost seen0: set<(Node, Node)>, ghost rest: map<Node, set<Node>>, ghost bound: nat)
      returns (newendpoints: map<Node, set<Node>>, ghost seen: set<(Node, Node)>)
      requires Configured() && sqRevdeps.Keys == depends.Keys
      requires point in rest && rest[point] == task
      requires Flow(depends, setscene, sqRevdepsNew, seen0, rest, newendpoints0)
      requires RanksBelow(depends, rest, bound) && bound > 0 && RanksBelow(depends, newendpoints0, bound - 1)
      modifies `sqRevdeps, `sqRevdepsNew
      ensures sqRevdeps.Keys == depends.Keys
      ensures Flow(depends, setscene, sqRevdepsNew, seen, rest - {point}, newendpoints)
      ensures RanksBelow(depends, newendpoints, bound - 1)
      ensures var tasks := task + old(sqRevdepsNew)[point];
              point in depends &&
              Told(setscene, point, task, if point in setscene then {} else tasks, depends[point], old(sqRevdeps),
                   old(sqRevdepsNew)[point := if point in setscene then tasks else {}], newendpoints0,
                   sqRevdeps, sqRevdepsNew, newendpoints)
    {
      hide Flow, Sending, Configured, Rank, Reaches, Told;
      PointTaken(depends, setscene, sqRevdepsNew, seen0, rest, newendpoints0, point);
      assert point in depends && Rank(depends, point) < bound;
      hide RanksBelow;
      var tasks := task + sqRevdepsNew[point];
      seen := seen0;
      if point in setscene {
        sqRevdepsNew := sqRevdepsNew[point := tasks];
        tasks := {};
      } else {
        sqRevdepsNew := sqRevdepsNew[point := {}];
        seen := seen + (set s | s in tasks :: (s, point));
      }
      newendpoints := SendOn(point, task, tasks, newendpoints0, seen, rest - {point}, bound);
    }

    /** Round after round, until no point is left. */
    method ProcessEndpoints(endpoints: map<Node, set<Node>>, ghost seen0: set<(Node, Node)>, ghost bound: nat)
      requires Configured() && sqRevdeps.Keys == depends.Keys
      requires Flow(depends, setscene, sqRevdepsNew, seen0, endpoints, map[]) && RanksBelow(depends, endpoints, bound)
      modifies `sqRevdeps, `sqRevdepsNew
      ensures Collapsed(depends, setscene, sqRevdepsNew)
      decreases bound
    {
      hide Flow, Closed, Acyclic, Inverse, Collapsed, Rank;
      var newendpoints: map<Node, set<Node>> := map[];
      ghost var seen := seen0;
      var rest := endpoints;
      ghost var lower: nat := if bound > 0 then bound - 1 else 0;
      while rest != map[]
        invariant sqRevdeps.Keys == depends.Keys && rest.Keys <= endpoints.Keys
        invariant Flow(depends, setscene, sqRevdepsNew, seen, rest, newendpoints)
        invariant RanksBelow(depends, rest, bound) && RanksBelow(depends, newendpoints, lower)
        decreases rest.Keys
      {
        var point :| point in rest;
        newendpoints, seen := ProcessPoint(point, rest[point], newendpoints, seen, rest, bound);
        rest := rest - {point};
      }
      if |newendpoints| != 0 {
        assert bound > 0;
        RoundTurns(depends, setscene, sqRevdepsNew, seen, newendpoints);
        ProcessEndpoints(newendpoints, seen, lower);
      } else {
        FlowEnds(depends, setscene, sqRevdepsNew, seen);
      }
    }

    /** The first points: what nobody wants, and what the setscene tasks depend on directly. */
    method FirstEndpoints() returns (endpoints: map<Node, set<Node>>)
      requires Configured()
      ensures First(depends, setscene, endpoints)
    {
      hide Closed, Acyclic, FirstSoFar, Inverse, Dependents;
      InverseAt(depends);
      endpoints := map tid | tid in depends && revdeps[tid] == {} && tid !in setscene :: {};
      FirstStart(depends, setscene, endpoints);
      var todo := setscene;
      while todo != {}
        invariant todo <= setscene
        invariant FirstSoFar(depends, setscene, endpoints, todo, "", {})
        decreases todo
      {
        var tid :| tid in todo;
        var deps := depends[tid];
        FirstNext(depends, setscene, endpoints, todo, tid);
        todo := todo - {tid};
        while deps != {}
          invariant deps <= depends[tid]
          invariant FirstSoFar(depends, setscene, endpoints, todo, tid, deps)
          decreases deps
        {
          var dep :| dep in deps;
          FirstAdds(depends, setscene, endpoints, todo, tid, deps, dep);
          ghost var more := endpoints[dep := (if dep in endpoints then endpoints[dep] else {}) + {tid}];
          if dep !in endpoints {
            endpoints := endpoints[dep := {}];
          }
          endpoints := endpoints[dep := endpoints[dep] + {tid}];
          assert endpoints == more;
          deps := deps - {dep};
        }
        FirstTaskDone(depends, setscene, endpoints, todo, tid);
      }
    }

    /** Visits what is open from the endpoints and marks the setscene tasks it meets. */
    method ProcessEndpoints2(endpoints: map<Node, set<Node>>, ghost visited0: set<Node>, ghost bound: nat)
      requires Configured() && sqRevdeps2.Keys == depends.Keys
      requires Visit(depends, setscene, sqRevdepsNew2, visited0, endpoints, map[]) &&
        RanksBelow(depends, endpoints, bound)
      modifies `sqRevdeps2, `sqRevdepsNew2
      ensures sqRevdepsNew2.Keys == depends.Keys
      ensures forall t :: t in setscene && t in sqRevdepsNew2 ==>
        (sqRevdepsNew2[t] != {} <==> Unskippable(depends, setscene, t))
      decreases bound
    {
      hide Visit, Closed, Acyclic, Inverse, Rank, Unskippable;
      var newendpoints: map<Node, set<Node>> := map[];
      ghost var visited := visited0;
      var rest := endpoints;
      ghost var lower: nat := if bound > 0 then bound - 1 else 0;
      while rest != map[]
        invariant sqRevdeps2.Keys == depends.Keys && rest.Keys <= endpoints.Keys
        invariant Visit(depends, setscene, sqRevdepsNew2, visited, rest, newendpoints)
        invariant RanksBelow(depends, rest, bound) && RanksBelow(depends, newendpoints, lower)
        decreases rest.Keys
      {
        var point :| point in rest;
        newendpoints := VisitPoint(point, rest[point], newendpoints, visited, rest, bound);
        visited := visited + {point};
        rest := rest - {point};
      }
      if |newendpoints| != 0 {
        assert bound > 0;
        VisitTurns(depends, setscene, sqRevdepsNew2, visited, newendpoints);
        ProcessEndpoints2(newendpoints, visited, lower);
      } else {
        VisitEnds(depends, setscene, sqRevdepsNew2, visited);
      }
    }

    method VisitPoint(point: Node, task: set<Node>, newendpoints0: map<Node, set<Node>>,
                      ghost visited: set<Node>, ghost rest: map<Node, set<Node>>, ghost bound: nat)
      returns (newendpoints: map<Node, set<Node>>)
      requires Configured() && sqRevdeps2.Keys == depends.Keys && point in rest
      requires Visit(depends, setscene, sqRevdepsNew2, visited, rest, newendpoints0)
      requires RanksBelow(depends, rest, bound) && bound > 0 && RanksBelow(depends, newendpoints0, bound - 1)
      modifies `sqRevdeps2, `sqRevdepsNew2
      ensures sqRevdeps2.Keys == depends.Keys
      ensures Visit(depends, setscene, sqRevdepsNew2, visited + {point}, rest - {point}, newendpoints)
      ensures RanksBelow(depends, newendpoints, bound - 1)
    {
      hide Visit, Visiting, Closed, Acyclic, Inverse, Rank;
      newendpoints := newendpoints0;
      VisitStart(depends, setscene, sqRevdepsNew2, visited, rest, newendpoints, point);
      assert point in depends && Rank(depends, point) < bound;
      hide RanksBelow;
      var tasks := {point} + task + sqRevdepsNew2[point];
      sqRevdepsNew2 := sqRevdepsNew2[point := {}];
      var deps := depends[point];
      while deps != {}
        invariant deps <= depends[point] && sqRevdeps2.Keys == depends.Keys
        invariant Visiting(depends, setscene, sqRevdepsNew2, visited, rest - {point}, newendpoints, point, deps)
        invariant RanksBelow(depends, newendpoints, bound - 1)
        decreases deps
      {
        var dep :| dep in deps;
        DepRanksLower(depends, rest, newendpoints, point, dep, tasks, bound);
        VisitingKeys(depends, setscene, sqRevdepsNew2, visited, rest - {point}, newendpoints, point, deps, dep);
        VisitDep(depends, setscene, sqRevdepsNew2, visited, rest - {point}, newendpoints, point, deps, dep, tasks);
        if point in sqRevdeps2[dep] {
          sqRevdeps2 := sqRevdeps2[dep := sqRevdeps2[dep] - {point}];
        }
        var received := sqRevdepsNew2[dep] + tasks;
        sqRevdepsNew2 := sqRevdepsNew2[dep := received];
        if (sqRevdeps2[dep] == {} || received != {}) && dep !in setscene {
          newendpoints := newendpoints[dep := tasks];
        }
        deps := deps - {dep};
      }
      VisitDone(depends, setscene, sqRevdepsNew2, visited, rest - {point}, newendpoints, point);
    }

    /** The whole collapse: the graph on setscene tasks and the unskippable ones.  `wrong` is the check
        for something left at an ordinary task, which is fatal. */
    method Collapse() returns (squash: map<Node, set<Node>>, unskippable: set<Node>, wrong: bool)
      requires Configured()
      modifies this
      ensures !wrong && Squashed(depends, setscene, squash)
      ensures unskippable == set t | t in setscene && Unskippable(depends, setscene, t)
    {
      var endpoints := FirstEndpoints();
      InverseAt(depends);
      hide Inverse, Acyclic, Flow, RanksBelow, First, Reaches, Directly, Unskippable, Collapsed, Squashed;
      sqRevdeps := map tid | tid in depends :: revdeps[tid];
      sqRevdepsNew := map tid | tid in depends :: {};
      assert sqRevdeps.Keys == depends.Keys;
      assert setscene <= depends.Keys;
      FlowStarts(depends, setscene, endpoints, sqRevdepsNew);
      FirstKnown(depends, setscene, endpoints);
      RanksStart(depends, endpoints);
      hide Closed;
      ProcessEndpoints(endpoints, {}, |depends| + 1);
      CollapsedMeans(depends, setscene, sqRevdepsNew);
      wrong := exists tid | tid in depends && tid !in setscene :: sqRevdepsNew[tid] != {};
      squash := map tid | tid in setscene :: sqRevdepsNew[tid];
      unskippable := FindUnskippable();
    }

    method FindUnskippable() returns (unskippable: set<Node>)
      requires Configured()
      modifies `sqRevdeps2, `sqRevdepsNew2
      ensures unskippable == set t | t in setscene && Unskippable(depends, setscene, t)
    {
      hide Closed, Acyclic, Inverse, Unskippable, Dependents, Visit, RanksBelow;
      var endpoints2 := FirstEndpoints2();
      ProcessEndpoints2(endpoints2, {}, |depends| + 1);
      assert setscene <= depends.Keys;
      unskippable := set tid | tid in setscene && sqRevdepsNew2[tid] != {};
    }

    method FirstEndpoints2() returns (endpoints2: map<Node, set<Node>>)
      requires Configured()
      modifies `sqRevdeps2, `sqRevdepsNew2
      ensures sqRevdeps2.Keys == depends.Keys
      ensures Visit(depends, setscene, sqRevdepsNew2, {}, endpoints2, map[]) &&
        RanksBelow(depends, endpoints2, |depends| + 1)
    {
      InverseAt(depends);
      hide Closed, Acyclic, Inverse, Dependents, Visit, RanksBelow;
      sqRevdeps2 := map tid | tid in depends :: revdeps[tid];
      sqRevdepsNew2 := map tid | tid in depends :: {};
      endpoints2 := map tid | tid in depends && revdeps[tid] == {} && tid !in setscene :: {};
      assert endpoints2 == map n | n in depends && Dependents(depends, n) == {} && n !in setscene :: {};
      VisitStarts(depends, setscene, endpoints2, sqRevdepsNew2);
      RanksStart(depends, endpoints2);
    }
  }

  /** What the collapse promises of the squashed graph: between the setscene tasks that depend on a task
      directly and all that depend on it. */
  ghost predicate Squashed(g: Graph, ss: set<Node>, squash: map<Node, set<Node>>) {
    && squash.Keys == ss
    && (forall t, s :: t in ss && s in squash[t] ==> s in ss && Reaches(g, s, t))
    && (forall t, s :: t in ss && s in ss && Directly(g, ss, s, t) ==> s in squash[t])
  }

  lemma CollapsedMeans(g: Graph, ss: set<Node>, anc: map<Node, set<Node>>)
    requires Collapsed(g, ss, anc) && ss <= g.Keys
    ensures anc.Keys == g.Keys && forall n :: n in g && n !in ss ==> anc[n] == {}
    ensures Squashed(g, ss, map t | t in ss :: anc[t])
  {
    hide Reaches, Directly;
    assert (map t | t in ss :: anc[t]).Keys == ss;
  }

  lemma FirstKnown(g: Graph, ss: set<Node>, endpoints: map<Node, set<Node>>)
    requires First(g, ss, endpoints)
    ensures forall n :: n in endpoints ==> n in g
  {
  }

  lemma VisitStarts(g: Graph, ss: set<Node>, endpoints: map<Node, set<Node>>, got: map<Node, set<Node>>)
    requires endpoints == map n | n in g && Dependents(g, n) == {} && n !in ss :: {}
    requires got == map n | n in g :: {}
    ensures Visit(g, ss, got, {}, endpoints, map[])
  {
    hide Dependents;
    assert got.Keys == g.Keys;
    forall n | n in endpoints ensures Open(g, ss, n) {
      OpenEndpoint(g, ss, n);
    }
    hide Open;
  }

  // ---- The first points --------------------------------------------------------------------------

  ghost predicate First(g: Graph, ss: set<Node>, endpoints: map<Node, set<Node>>) {
    FirstSoFar(g, ss, endpoints, {}, "", {})
  }

  /** All but the tasks `todo` and the dependencies `deps` of `tid` have been entered. */
  ghost predicate FirstSoFar(g: Graph, ss: set<Node>, endpoints: map<Node, set<Node>>, todo: set<Node>,
                             tid: Node, deps: set<Node>)
  {
    && (forall n :: n in endpoints ==> n in g && forall s :: s in endpoints[n] ==> s in ss && s in g && n in g[s])
    && (forall n :: n in endpoints && endpoints[n] == {} ==> Dependents(g, n) == {} && n !in ss)
    && (forall n :: n in g && Dependents(g, n) == {} && n !in ss ==> n in endpoints)
    && (forall n, s :: s in ss && s in g && n in g[s] && s !in todo && !(s == tid && n in deps) ==>
          n in endpoints && s in endpoints[n])
  }

  lemma FirstStart(g: Graph, ss: set<Node>, endpoints: map<Node, set<Node>>)
    requires endpoints == map n | n in g && Dependents(g, n) == {} && n !in ss :: {}
    ensures FirstSoFar(g, ss, endpoints, ss, "", {})
  {
  }

  lemma FirstNext(g: Graph, ss: set<Node>, endpoints: map<Node, set<Node>>, todo: set<Node>, tid: Node)
    requires FirstSoFar(g, ss, endpoints, todo, "", {}) && tid in g
    ensures FirstSoFar(g, ss, endpoints, todo - {tid}, tid, g[tid])
  {
    hide Dependents;
  }

  lemma FirstAdds(g: Graph, ss: set<Node>, endpoints: map<Node, set<Node>>, todo: set<Node>, tid: Node,
                  deps: set<Node>, dep: Node)
    requires Closed(g) && FirstSoFar(g, ss, endpoints, todo, tid, deps) && tid in g && tid in ss && dep in g[tid] &&
      dep in deps
    ensures FirstSoFar(g, ss, endpoints[dep := (if dep in endpoints then endpoints[dep] else {}) + {tid}],
                       todo, tid, deps - {dep})
  {
    hide Dependents;
  }

  lemma FirstTaskDone(g: Graph, ss: set<Node>, endpoints: map<Node, set<Node>>, todo: set<Node>, tid: Node)
    requires FirstSoFar(g, ss, endpoints, todo, tid, {})
    ensures FirstSoFar(g, ss, endpoints, todo, "", {})
  {
    hide Dependents;
  }

  /** From the first points the flow starts with nothing recorded. */
  lemma FlowStarts(g: Graph, ss: set<Node>, endpoints: map<Node, set<Node>>, anc: map<Node, set<Node>>)
    requires Closed(g) && First(g, ss, endpoints) && anc == map n | n in g :: {}
    ensures Flow(g, ss, anc, {}, endpoints, map[])
  {
    hide Reaches, Dependents;
    assert anc.Keys == g.Keys;
    assert endpoints.Keys <= g.Keys;
    forall n, s | n in endpoints && s in endpoints[n] ensures s in ss && Reaches(g, s, n) {
      EdgeReaches(g, s, n);
    }
    EmptyAncestors(g, ss);
    assert Ancestors(g, ss, anc);
    assert Ancestors(g, ss, endpoints);
    assert Waiting(ss, anc, endpoints, map[]);
    assert Sent(g, ss, anc, {}, endpoints);
    hide Ancestors, Waiting, Sent, First, FirstSoFar, Closed;
  }

  lemma RanksStart(g: Graph, endpoints: map<Node, set<Node>>)
    requires forall n :: n in endpoints ==> n in g
    ensures RanksBelow(g, endpoints, |g| + 1)
  {
    forall n | n in g ensures Rank(g, n) < |g| + 1 {
      SubsetSize(ReachSet(g, n), g.Keys);
    }
  }

  // ---- The second traversal ----------------------------------------------------------------------

  ghost predicate Touched(g: Graph, visited: set<Node>, t: Node) {
    exists n :: n in visited && n in g && t in g[n]
  }

  ghost predicate Visit(g: Graph, ss: set<Node>, got: map<Node, set<Node>>, visited: set<Node>,
                        rest: map<Node, set<Node>>, next: map<Node, set<Node>>)
  {
    && got.Keys == g.Keys
    && (forall n :: n in visited || n in rest || n in next ==> n in g && n !in ss && Open(g, ss, n))
    && (forall n :: n in g && n !in ss && Dependents(g, n) == {} ==> n in visited || n in rest)
    && (forall n, d :: n in visited && n in g && d in g[n] && d !in ss ==> d in visited || d in rest || d in next)
    && (forall t :: t in g && t in ss ==> (got[t] != {} <==> Touched(g, visited, t)))
  }

  ghost predicate Visiting(g: Graph, ss: set<Node>, got: map<Node, set<Node>>, visited: set<Node>,
                           rest: map<Node, set<Node>>, next: map<Node, set<Node>>, point: Node, deps: set<Node>)
  {
    && got.Keys == g.Keys
    && point in g && point !in ss && Open(g, ss, point)
    && (forall n :: n in visited || n in rest || n in next ==> n in g && n !in ss && Open(g, ss, n))
    && (forall n :: n in g && n !in ss && Dependents(g, n) == {} ==> n in visited || n == point || n in rest)
    && (forall n, d :: n in visited && n in g && d in g[n] && d !in ss ==>
      d in visited || d == point || d in rest || d in next)
    && (forall d :: d in g[point] && d !in deps && d !in ss ==> d in visited || d == point || d in rest || d in next)
    && (forall t :: t in g && t in ss ==> (got[t] != {} <==> Touched(g, visited, t) || (t in g[point] && t !in deps)))
  }

  lemma VisitStart(g: Graph, ss: set<Node>, got: map<Node, set<Node>>, visited: set<Node>,
                   rest: map<Node, set<Node>>, next: map<Node, set<Node>>, point: Node)
    requires Visit(g, ss, got, visited, rest, next) && point in rest
    ensures point in g && point in got
    ensures Visiting(g, ss, got[point := {}], visited, rest - {point}, next, point, g[point])
  {
    hide Open, Touched, Dependents;
  }

  lemma VisitingKeys(g: Graph, ss: set<Node>, got: map<Node, set<Node>>, visited: set<Node>,
                     rest: map<Node, set<Node>>, next: map<Node, set<Node>>, point: Node, deps: set<Node>, dep: Node)
    requires Visiting(g, ss, got, visited, rest, next, point, deps)
    ensures dep in g ==> dep in got
  {
  }

  lemma VisitDep(g: Graph, ss: set<Node>, got: map<Node, set<Node>>, visited: set<Node>,
                 rest: map<Node, set<Node>>, next: map<Node, set<Node>>, point: Node, deps: set<Node>, dep: Node,
                 tasks: set<Node>)
    requires Visiting(g, ss, got, visited, rest, next, point, deps)
    requires dep in g && dep in got && dep in g[point] && dep in deps && point in tasks
    ensures var received := got[dep] + tasks;
            received != {} &&
            Visiting(g, ss, got[dep := received], visited, rest, if dep !in ss then next[dep := tasks] else next,
                     point, deps - {dep})
  {
    hide Open, Touched, Dependents;
    if dep !in ss {
      OpenStep(g, ss, point, dep);
    }
  }

  lemma VisitDone(g: Graph, ss: set<Node>, got: map<Node, set<Node>>, visited: set<Node>,
                  rest: map<Node, set<Node>>, next: map<Node, set<Node>>, point: Node)
    requires Visiting(g, ss, got, visited, rest, next, point, {})
    ensures Visit(g, ss, got, visited + {point}, rest, next)
  {
    hide Open, Touched, Dependents;
    forall t ensures Touched(g, visited + {point}, t) <==> Touched(g, visited, t) || t in g[point] {
      TouchedMore(g, visited, point, t);
    }
  }

  lemma TouchedMore(g: Graph, visited: set<Node>, point: Node, t: Node)
    requires point in g
    ensures Touched(g, visited + {point}, t) <==> Touched(g, visited, t) || t in g[point]
  {
    if t in g[point] {
      assert point in visited + {point};
    }
  }

  lemma VisitTurns(g: Graph, ss: set<Node>, got: map<Node, set<Node>>, visited: set<Node>, next: map<Node, set<Node>>)
    requires Visit(g, ss, got, visited, map[], next)
    ensures Visit(g, ss, got, visited, next, map[])
  {
    hide Open, Touched, Dependents;
  }

  lemma OpenStep(g: Graph, ss: set<Node>, n: Node, d: Node)
    requires Open(g, ss, n) && n in g && d in g[n] && d in g && d !in ss
    ensures Open(g, ss, d)
  {
    var p :| OpenPath(g, ss, p, n);
    PathJoin(g, p, [d]);
    assert OpenPath(g, ss, p + [d], d);
  }

  lemma OpenEndpoint(g: Graph, ss: set<Node>, n: Node)
    requires n in g && n !in ss && Dependents(g, n) == {}
    ensures Open(g, ss, n)
  {
    assert OpenPath(g, ss, [n], n);
  }

  lemma VisitEnds(g: Graph, ss: set<Node>, got: map<Node, set<Node>>, visited: set<Node>)
    requires Closed(g) && Visit(g, ss, got, visited, map[], map[])
    ensures got.Keys == g.Keys
    ensures forall t :: t in ss && t in got ==> (got[t] != {} <==> Unskippable(g, ss, t))
  {
    forall t | t in ss && t in got ensures Touched(g, visited, t) <==> Unskippable(g, ss, t) {
      if Touched(g, visited, t) {
        var n :| n in visited && n in g && t in g[n];
        OpenLeads(g, ss, n, t);
      }
      if Unskippable(g, ss, t) {
        var e :| e in g && e !in ss && Dependents(g, e) == {} && Directly(g, ss, e, t);
        var p :| PathBetween(g, p, e, t) && InsideClear(p, ss);
        VisitedAlong(g, ss, got, visited, p, |p| - 2);
        PathNodes(g, p, |p| - 2);
      }
    }
  }

  lemma OpenLeads(g: Graph, ss: set<Node>, n: Node, t: Node)
    requires Closed(g) && Open(g, ss, n) && n in g && t in g[n]
    ensures Unskippable(g, ss, t)
  {
    var p :| OpenPath(g, ss, p, n);
    PathJoin(g, p, [t]);
    assert PathBetween(g, p + [t], p[0], t) && InsideClear(p + [t], ss);
  }

  lemma VisitedStep(g: Graph, ss: set<Node>, got: map<Node, set<Node>>, visited: set<Node>, n: Node, d: Node)
    requires Visit(g, ss, got, visited, map[], map[])
    ensures n in visited && n in g && d in g[n] && d !in ss ==> d in visited
    ensures n in g && n !in ss && Dependents(g, n) == {} ==> n in visited
  {
    hide Open, Touched, Dependents;
  }

  lemma {:induction false} VisitedAlong(g: Graph, ss: set<Node>, got: map<Node, set<Node>>, visited: set<Node>,
                                        p: seq<Node>, k: nat)
    requires Visit(g, ss, got, visited, map[], map[])
    requires IsPath(g, p) && p[0] !in ss && Dependents(g, p[0]) == {} && InsideClear(p, ss) && k < |p| - 1
    ensures p[k] in visited
  {
    hide Visit, Dependents;
    PathNodes(g, p, k);
    if k > 0 {
      PathNodes(g, p, k - 1);
      hide IsPath;
      VisitedAlong(g, ss, got, visited, p, k - 1);
      VisitedStep(g, ss, got, visited, p[k - 1], p[k]);
    } else {
      VisitedStep(g, ss, got, visited, p[0], p[0]);
    }
  }

  lemma SendingKeys(g: Graph, ss: set<Node>, anc: map<Node, set<Node>>, seen: set<(Node, Node)>,
                    rest: map<Node, set<Node>>, next: map<Node, set<Node>>,
                    point: Node, tasks: set<Node>, deps: set<Node>, dep: Node)
    requires Sending(g, ss, anc, seen, rest, next, point, tasks, deps)
    ensures dep in g ==> dep in anc
  {
  }
}
