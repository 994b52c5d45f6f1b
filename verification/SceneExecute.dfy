/** Running the setscene tasks: hard dependencies, counters, and what was covered in the end. */
module SceneExecute {
  import opened Graphs
  import opened TaskWeights
  import opened RunQueuePrepare
  import opened ExecuteTasks

  // ---- Hard dependencies --------------------------------------------------------------------------

  /** Every hard dependency has been recorded: `h[p]` are the tasks that need the setscene variant of `p`. */
  ghost predicate HardOf(idepends: Graph, h: Graph) {
    && (forall p :: p in h ==> h[p] != {})
    && forall p, t :: Needs(h, p, t) <==> (t in idepends && p in idepends[t])
  }

  ghost predicate Needs(h: Graph, p: Node, t: Node) {
    p in h && t in h[p]
  }

  /** The requirements after the hard dependencies have been resolved: a task that something needs hard
      keeps only its own hard requirements, every other task adds them to what it required before. */
  ghost predicate Resolved(squash: Graph, h: Graph, req: Graph) {
    && req.Keys == squash.Keys + h.Keys
    && forall t, p :: t in req ==>
         (p in req[t] <==> Needs(h, p, t) || (t in squash && t !in h && p in squash[t]))
  }

  /** The dependency of `t` on `p` has been entered: `t` is not waiting, and it is not one of the
      `pending` ones of the current task. */
  ghost predicate Entered(idepends: Graph, todo: set<Node>, tid: Node, pending: set<Node>, t: Node, p: Node) {
    t in idepends && p in idepends[t] && t !in todo && !(t == tid && p in pending)
  }

  ghost predicate HalfResolved(idepends: Graph, squash: Graph, todo: set<Node>, tid: Node, pending: set<Node>, h: Graph,
                               req: Graph)
  {
    && (forall t :: t in req <==> t in squash || t in h)
    && (forall p :: p in h ==> h[p] != {})
    && (forall p, t :: Needs(h, p, t) <==> Entered(idepends, todo, tid, pending, t, p))
    && (forall t, p :: t in req && p in req[t] ==>
          Entered(idepends, todo, tid, pending, t, p) || (t in squash && t !in h && p in squash[t]))
    && (forall t, p :: t in req && t !in h && t in squash && p in squash[t] ==> p in req[t])
  }

  lemma HalfStart(idepends: Graph, squash: Graph)
    ensures HalfResolved(idepends, squash, idepends.Keys, "", {}, map[], squash)
  {
  }

  lemma HalfTask(idepends: Graph, squash: Graph, todo: set<Node>, tid: Node, pending: set<Node>, h: Graph, req: Graph)
    requires tid in idepends && tid !in todo
    ensures pending == idepends[tid] && HalfResolved(idepends, squash, todo + {tid}, "", {}, h, req) ==>
              HalfResolved(idepends, squash, todo, tid, pending, h, req)
    ensures HalfResolved(idepends, squash, todo, tid, {}, h, req) ==>
      HalfResolved(idepends, squash, todo, "", {}, h, req)
  {
    forall t, p
      ensures pending == idepends[tid] ==>
                (Entered(idepends, todo + {tid}, "", {}, t, p) <==> Entered(idepends, todo, tid, pending, t, p))
      ensures Entered(idepends, todo, tid, {}, t, p) <==> Entered(idepends, todo, "", {}, t, p)
    {
    }
    hide Entered;
  }

  lemma HalfStep(idepends: Graph, squash: Graph, todo: set<Node>, tid: Node, pending: set<Node>, h: Graph, req: Graph,
                 dep: Node)
    requires tid in idepends && tid !in todo && pending <= idepends[tid] && dep in pending && tid in squash
    requires HalfResolved(idepends, squash, todo, tid, pending, h, req)
    ensures tid in req
    ensures HalfResolved(idepends, squash, todo, tid, pending - {dep},
                         h[dep := (if dep in h then h[dep] else {}) + {tid}],
                         req[tid := req[tid] + {dep}][dep := {}])
  {
    var h', req' := h[dep := (if dep in h then h[dep] else {}) + {tid}], req[tid := req[tid] + {dep}][dep := {}];
    forall t, p
      ensures Entered(idepends, todo, tid, pending - {dep}, t, p) <==>
                Entered(idepends, todo, tid, pending, t, p) || (t == tid && p == dep)
      ensures Needs(h', p, t) <==> Needs(h, p, t) || (t == tid && p == dep)
    {
    }
    hide Entered, Needs;
  }

  /** The second pass has added the hard requirements of all tasks but those of `todo` and, of the current
      task, those on `deps`. */
  ghost predicate Filling(squash: Graph, h: Graph, req: Graph, todo: set<Node>, task: Node, deps: set<Node>) {
    && (forall t :: t in req <==> t in squash || t in h)
    && (forall t, p :: t in req && p in req[t] ==> Needs(h, p, t) || (t in squash && t !in h && p in squash[t]))
    && (forall t, p :: t in req && t !in h && t in squash && p in squash[t] ==> p in req[t])
    && (forall t, p :: Needs(h, p, t) ==> t in squash)
    && (forall t, p :: Needs(h, p, t) && p !in todo && !(p == task && t in deps) ==> t in req && p in req[t])
  }

  lemma FillingStart(idepends: Graph, squash: Graph, h: Graph, req: Graph)
    requires HalfResolved(idepends, squash, {}, "", {}, h, req) && idepends.Keys <= squash.Keys
    ensures Filling(squash, h, req, h.Keys, "", {}) && HardOf(idepends, h)
  {
    forall t, p ensures Entered(idepends, {}, "", {}, t, p) <==> t in idepends && p in idepends[t] {
    }
    forall t, p ensures Needs(h, p, t) <==> t in idepends && p in idepends[t] {
      assert Needs(h, p, t) <==> Entered(idepends, {}, "", {}, t, p);
    }
    hide Entered;
  }

  lemma FillingTask(squash: Graph, h: Graph, req: Graph, todo: set<Node>, task: Node, deps: set<Node>)
    requires task in h && task !in todo
    ensures deps == h[task] && Filling(squash, h, req, todo + {task}, "", {}) ==>
      Filling(squash, h, req, todo, task, deps)
    ensures Filling(squash, h, req, todo, task, {}) ==> Filling(squash, h, req, todo, "", {})
  {
    forall t ensures Needs(h, task, t) <==> t in h[task] {
    }
    hide Needs;
  }

  lemma FillingStep(squash: Graph, h: Graph, req: Graph, todo: set<Node>, task: Node, deps: set<Node>, dep: Node)
    requires task in h && dep in h[task] && dep in deps && Filling(squash, h, req, todo, task, deps)
    ensures dep in req
    ensures Filling(squash, h, req[dep := req[dep] + {task}], todo, task, deps - {dep})
  {
    assert Needs(h, task, dep);
    hide Needs;
  }

  lemma FillingEnd(squash: Graph, h: Graph, req: Graph)
    requires Filling(squash, h, req, {}, "", {})
    ensures Resolved(squash, h, req)
  {
    hide Needs;
    assert req.Keys == squash.Keys + h.Keys;
  }

  /** Resolves the dependencies between setscene tasks; one on a task that does not exist is fatal. */
  method ResolveHardDeps(squash: Graph, idepends: Graph, tasks: set<Node>) returns (h: Graph, req: Graph, ok: bool)
    requires idepends.Keys <= squash.Keys
    ensures ok <==> forall t, p :: t in idepends && p in idepends[t] ==> p in tasks
    ensures ok ==> HardOf(idepends, h) && Resolved(squash, h, req)
  {
    hide HalfResolved, Filling, Resolved, HardOf;
    h, req, ok := map[], squash, true;
    HalfStart(idepends, squash);
    var todo := idepends.Keys;
    while todo != {}
      invariant todo <= idepends.Keys
      invariant HalfResolved(idepends, squash, todo, "", {}, h, req)
      invariant forall t, p :: t in idepends && t !in todo && p in idepends[t] ==> p in tasks
      decreases todo
    {
      var tid :| tid in todo;
      var deps := idepends[tid];
      assert todo == (todo - {tid}) + {tid};
      todo := todo - {tid};
      HalfTask(idepends, squash, todo, tid, deps, h, req);
      while deps != {}
        invariant deps <= idepends[tid]
        invariant HalfResolved(idepends, squash, todo, tid, deps, h, req)
        invariant forall p :: p in idepends[tid] && p !in deps ==> p in tasks
        decreases deps
      {
        var deptid :| deptid in deps;
        if deptid !in tasks {
          ok := false;
          return;
        }
        HalfStep(idepends, squash, todo, tid, deps, h, req, deptid);
        h := h[deptid := (if deptid in h then h[deptid] else {}) + {tid}];
        req := req[tid := req[tid] + {deptid}];
        req := req[deptid := {}];
        deps := deps - {deptid};
      }
      HalfTask(idepends, squash, todo, tid, {}, h, req);
    }
    FillingStart(idepends, squash, h, req);
    req := FillHard(squash, h, req);
  }

  method FillHard(squash: Graph, h: Graph, half: Graph) returns (req: Graph)
    requires Filling(squash, h, half, h.Keys, "", {})
    ensures Resolved(squash, h, req)
  {
    hide Filling, Resolved;
    req := half;
    var todo := h.Keys;
    while todo != {}
      invariant todo <= h.Keys && Filling(squash, h, req, todo, "", {})
      decreases todo
    {
      var task :| task in todo;
      var deps := h[task];
      assert todo == (todo - {task}) + {task};
      todo := todo - {task};
      FillingTask(squash, h, req, todo, task, deps);
      while deps != {}
        invariant deps <= h[task] && Filling(squash, h, req, todo, task, deps)
        decreases deps
      {
        var dep :| dep in deps;
        FillingStep(squash, h, req, todo, task, deps, dep);
        req := req[dep := req[dep] + {task}];
        deps := deps - {dep};
      }
      FillingTask(squash, h, req, todo, task, {});
    }
    FillingEnd(squash, h, req);
  }

  // ---- The counters ---------------------------------------------------------------------------------

  /** `x` has been given up: its setscene variant failed, or it needs, through hard dependencies, one that did. */
  ghost predicate GivenUp(hard: Graph, notcovered: set<Node>, x: Node) {
    x in notcovered || exists f :: f in notcovered && Reaches(hard, f, x)
  }

  /** `p` no longer holds `d` back: it is covered, or it was given up and `d` does not need it hard. */
  ghost predicate Released(hard: Graph, covered: set<Node>, notcovered: set<Node>, p: Node, d: Node) {
    p in covered || (GivenUp(hard, notcovered, p) && !Needs(hard, p, d))
  }

  /** The counters are exact: a task waits for precisely the required tasks that still hold it back. */
  ghost predicate Exact(req: Graph, hard: Graph, covered: set<Node>, notcovered: set<Node>, waits: Graph) {
    && (forall d :: d in waits <==> d in req)
    && forall d, p :: d in req ==> (p in waits[d] <==> p in req[d] && !Released(hard, covered, notcovered, p, d))
  }

  /** What one update takes away: `task` itself and, on failure, everything that needs it hard. */
  ghost predicate Hit(hard: Graph, task: Node, fail: bool, x: Node) {
    x == task || (fail && Reaches(hard, task, x))
  }

  ghost predicate Dropped(hard: Graph, task: Node, fail: bool, x: Node, d: Node) {
    Hit(hard, task, fail, x) && !(fail && Needs(hard, x, d))
  }

  /** The counters after an update. */
  ghost predicate Updated(req: Graph, hard: Graph, task: Node, fail: bool, waits: Graph, waits': Graph) {
    && (forall d :: d in waits' <==> d in waits)
    && forall d, x :: d in waits && d in waits' ==>
      (x in waits'[d] <==> x in waits[d] && !Dropped(hard, task, fail, x, d))
  }

  /** The same while the dependents `todo` still have to be looked at. */
  ghost predicate UpdatedBut(hard: Graph, task: Node, fail: bool, deps: set<Node>, todo: set<Node>, waits: Graph,
                             waits': Graph)
  {
    && (forall d :: d in waits' <==> d in waits)
    && forall d, x :: d in waits && d in waits' ==>
         (x in waits'[d] <==> x in waits[d] && !DroppedVia(hard, task, fail, deps - todo, x, d))
  }

  ghost predicate DroppedVia(hard: Graph, task: Node, fail: bool, done: set<Node>, x: Node, d: Node) {
    || (x == task && d in done && !(fail && Needs(hard, x, d)))
    || (fail && !Needs(hard, x, d) && exists h :: h in done && Needs(hard, task, h) && Hit(hard, h, true, x))
  }

  /** The tasks that became free: nothing holds them back any more, something did before. */
  ghost predicate Freed(waits: Graph, waits': Graph, before: set<Node>, after: set<Node>) {
    forall d :: d in after <==> d in before || (d in waits && d in waits' && waits[d] != {} && waits'[d] == {})
  }

  lemma FreedMore(waits: Graph, waits': Graph, before: set<Node>, after: set<Node>)
    requires Freed(waits, waits', before, after)
    ensures before <= after
  {
  }

  lemma UpdateStart(hard: Graph, task: Node, fail: bool, deps: set<Node>, waits: Graph, buildable: set<Node>)
    ensures UpdatedBut(hard, task, fail, deps, deps, waits, waits) && Freed(waits, waits, buildable, buildable)
  {
    assert deps - deps == {};
  }

  /** A dependent that does not need the task hard stops waiting for it. */
  lemma UpdateSoft(hard: Graph, task: Node, fail: bool, deps: set<Node>, todo: set<Node>, waits0: Graph, waits: Graph,
                   before: set<Node>, buildable: set<Node>, dep: Node)
    requires UpdatedBut(hard, task, fail, deps, todo, waits0, waits) && Freed(waits0, waits, before, buildable)
    requires dep in todo && dep in deps && dep in waits && !(fail && Needs(hard, task, dep))
    ensures var waits' := waits[dep := waits[dep] - {task}];
            UpdatedBut(hard, task, fail, deps, todo - {dep}, waits0, waits') &&
            (task in waits[dep] ==>
              Freed(waits0, waits', before, if waits'[dep] == {} then buildable + {dep} else buildable)) &&
            (task !in waits[dep] ==> waits' == waits)
  {
    assert deps - (todo - {dep}) == (deps - todo) + {dep};
    forall x, d
      ensures DroppedVia(hard, task, fail, (deps - todo) + {dep}, x, d) <==>
                DroppedVia(hard, task, fail, deps - todo, x, d) || (x == task && d == dep)
    {
      SoftVia(hard, task, fail, deps - todo, dep, x, d);
    }
    if task !in waits[dep] {
      assert waits[dep] - {task} == waits[dep];
      assert waits[dep := waits[dep] - {task}] == waits;
    }
    hide DroppedVia, Needs;
  }

  lemma SoftVia(hard: Graph, task: Node, fail: bool, done: set<Node>, dep: Node, x: Node, d: Node)
    requires !(fail && Needs(hard, task, dep))
    ensures DroppedVia(hard, task, fail, done + {dep}, x, d) <==>
              DroppedVia(hard, task, fail, done, x, d) || (x == task && d == dep)
  {
    hide Hit;
  }

  /** A dependent that needs the failed task hard is given up itself. */
  lemma UpdateHard(req: Graph, hard: Graph, task: Node, deps: set<Node>, todo: set<Node>, waits0: Graph, waits: Graph,
                   waits': Graph, dep: Node)
    requires UpdatedBut(hard, task, true, deps, todo, waits0, waits)
    requires Updated(req, hard, dep, true, waits, waits')
    requires dep in todo && dep in deps && Needs(hard, task, dep)
    ensures UpdatedBut(hard, task, true, deps, todo - {dep}, waits0, waits')
  {
    assert deps - (todo - {dep}) == (deps - todo) + {dep};
    forall x, d
      ensures DroppedVia(hard, task, true, (deps - todo) + {dep}, x, d) <==>
                DroppedVia(hard, task, true, deps - todo, x, d) || Dropped(hard, dep, true, x, d)
    {
      HardVia(hard, task, deps - todo, dep, x, d);
    }
    hide DroppedVia, Needs, Dropped;
  }

  lemma HardVia(hard: Graph, task: Node, done: set<Node>, dep: Node, x: Node, d: Node)
    requires Needs(hard, task, dep)
    ensures DroppedVia(hard, task, true, done + {dep}, x, d) <==>
              DroppedVia(hard, task, true, done, x, d) || Dropped(hard, dep, true, x, d)
  {
    hide Hit;
    if Dropped(hard, dep, true, x, d) {
      assert dep in done + {dep};
    }
  }

  lemma FreedThrough(waits0: Graph, waits: Graph, waits': Graph, before: set<Node>, mid: set<Node>, after: set<Node>)
    requires Freed(waits0, waits, before, mid) && Freed(waits, waits', mid, after)
    requires forall d :: d in waits <==> d in waits0
    requires forall d :: d in waits' <==> d in waits
    requires forall d, x :: d in waits0 && d in waits && x in waits[d] ==> x in waits0[d]
    requires forall d, x :: d in waits && d in waits' && x in waits'[d] ==> x in waits[d]
    ensures Freed(waits0, waits', before, after)
  {
    forall d | d in waits0 ensures waits[d] <= waits0[d] && waits'[d] <= waits[d] {
    }
  }

  lemma UpdateEnds(req: Graph, hard: Graph, task: Node, fail: bool, deps: set<Node>, waits0: Graph, waits: Graph)
    requires Closed(hard) && UpdatedBut(hard, task, fail, deps, {}, waits0, waits)
    requires deps == Dependents(req, task)
    requires forall d :: d in waits0 ==> d in req && waits0[d] <= req[d]
    requires forall d :: Needs(hard, task, d) ==> d in deps
    ensures Updated(req, hard, task, fail, waits0, waits)
  {
    assert deps - {} == deps;
    forall x, d | d in waits0 && x in waits0[d]
      ensures DroppedVia(hard, task, fail, deps, x, d) <==> Dropped(hard, task, fail, x, d)
    {
      ViaAll(req, hard, task, fail, deps, x, d);
    }
    hide DroppedVia, Dropped, Needs, Dependents;
  }

  lemma ViaAll(req: Graph, hard: Graph, task: Node, fail: bool, deps: set<Node>, x: Node, d: Node)
    requires Closed(hard) && deps == Dependents(req, task) && d in req && x in req[d]
    requires forall e :: Needs(hard, task, e) ==> e in deps
    ensures DroppedVia(hard, task, fail, deps, x, d) <==> Dropped(hard, task, fail, x, d)
  {
    if fail && x != task && Reaches(hard, task, x) {
      var h := ReachesFirstStep(hard, task, x);
      assert Needs(hard, task, h) && Hit(hard, h, true, x);
    }
    if fail && exists h :: h in deps && Needs(hard, task, h) && Hit(hard, h, true, x) {
      var h :| h in deps && Needs(hard, task, h) && Hit(hard, h, true, x);
      if h == x {
        EdgeReaches(hard, task, x);
      } else {
        EdgeThenReaches(hard, task, h, x);
      }
    }
  }

  // ---- Where the recursive update ends -----------------------------------------------------------------

  /** Calls of the failing update, each made by the one before for a dependent that needs it hard. */
  ghost predicate Nested(req: Graph, hard: Graph, calls: seq<Node>) {
    forall i :: 0 <= i < |calls| - 1 ==>
      calls[i + 1] in Dependents(req, calls[i]) && Needs(hard, calls[i], calls[i + 1])
  }

  /** The task is on a cycle of hard dependencies, or they lead from it to one. */
  ghost predicate LeadsToCycle(hard: Graph, task: Node) {
    exists c :: (c == task || Reaches(hard, task, c)) && Reaches(hard, c, c)
  }

  lemma NoCycle(hard: Graph, task: Node)
    requires Acyclic(hard)
    ensures !LeadsToCycle(hard, task)
  {
    forall c | Reaches(hard, c, c) ensures c in hard {
      ReachesNodes(hard, c, c);
    }
  }

  lemma OnCycle(hard: Graph, task: Node)
    ensures Reaches(hard, task, task) ==> LeadsToCycle(hard, task)
  {
  }

  lemma LeadsOn(hard: Graph, task: Node) returns (d: Node)
    requires Closed(hard) && LeadsToCycle(hard, task)
    ensures Needs(hard, task, d) && LeadsToCycle(hard, d)
  {
    var c :| (c == task || Reaches(hard, task, c)) && Reaches(hard, c, c);
    d := ReachesFirstStep(hard, task, c);
    assert (c == d || Reaches(hard, d, c)) && Reaches(hard, c, c);
  }

  lemma LeadsFrom(hard: Graph, task: Node, d: Node)
    requires Closed(hard) && Needs(hard, task, d) && LeadsToCycle(hard, d)
    ensures LeadsToCycle(hard, task)
  {
    var c :| (c == d || Reaches(hard, d, c)) && Reaches(hard, c, c);
    if c == d {
      EdgeReaches(hard, task, d);
    } else {
      EdgeThenReaches(hard, task, d, c);
    }
    assert (c == task || Reaches(hard, task, c)) && Reaches(hard, c, c);
  }

  lemma HardDescends(hard: Graph, task: Node, dep: Node)
    requires Closed(hard) && task in hard && dep in hard[task]
    ensures dep in hard && Needs(hard, task, dep)
    ensures !LeadsToCycle(hard, task) ==> Rank(hard, dep) < Rank(hard, task) && !LeadsToCycle(hard, dep)
  {
    if LeadsToCycle(hard, dep) {
      LeadsFrom(hard, task, dep);
    }
    OnCycle(hard, dep);
    if !LeadsToCycle(hard, task) {
      EdgeDescends(hard, task, dep);
    }
  }

  lemma LeadsNowhere(hard: Graph, task: Node)
    requires Closed(hard) && forall d :: Needs(hard, task, d) ==> !LeadsToCycle(hard, d)
    ensures !LeadsToCycle(hard, task)
  {
    if LeadsToCycle(hard, task) {
      var d := LeadsOn(hard, task);
    }
  }

  /** Where every task of a set needs one of the set, each leads to a cycle. */
  lemma {:induction false} EndlessLeads(g: Graph, s: set<Node>, t: Node)
    requires Closed(g) && t in s && forall n :: n in s ==> n in g && exists d :: d in s && d in g[n]
    ensures LeadsToCycle(g, t)
    decreases Rank(g, t)
  {
    hide LeadsToCycle, Rank;
    if !LeadsToCycle(g, t) {
      var d :| d in s && d in g[t];
      HardDescends(g, t, d);
      EndlessLeads(g, s, d);
    }
  }

  /** No failed task leads to a cycle of hard dependencies. */
  ghost predicate Harmless(hard: Graph, failed: set<Node>) {
    forall t :: t in failed ==> !LeadsToCycle(hard, t)
  }

  /** From such a task the calls nest to any depth. */
  lemma {:induction false} CycleNests(req: Graph, hard: Graph, t: Node, depth: nat) returns (calls: seq<Node>)
    requires Closed(hard) && LeadsToCycle(hard, t)
    requires forall p, d :: Needs(hard, p, d) ==> d in req && p in req[d]
    ensures |calls| == depth + 1 && calls[0] == t && Nested(req, hard, calls)
    decreases depth
  {
    if depth == 0 {
      calls := [t];
    } else {
      var d := LeadsOn(hard, t);
      var rest := CycleNests(req, hard, d, depth - 1);
      calls := [t] + rest;
      hide LeadsToCycle;
      forall i | 0 <= i < |calls| - 1
        ensures calls[i + 1] in Dependents(req, calls[i]) && Needs(hard, calls[i], calls[i + 1])
      {
        if i > 0 {
          assert calls[i] == rest[i - 1] && calls[i + 1] == rest[i];
        }
      }
    }
  }

  /** From any other task they nest no deeper than its rank. */
  lemma {:induction false} NestingBounded(req: Graph, hard: Graph, calls: seq<Node>)
    requires Closed(hard) && calls != [] && !LeadsToCycle(hard, calls[0]) && Nested(req, hard, calls)
    ensures |calls| - 1 <= Rank(hard, calls[0])
  {
    if |calls| > 1 {
      assert Needs(hard, calls[0], calls[1]);
      HardDescends(hard, calls[0], calls[1]);
      forall i | 0 <= i < |calls[1..]| - 1
        ensures calls[1..][i + 1] in Dependents(req, calls[1..][i]) && Needs(hard, calls[1..][i], calls[1..][i + 1])
      {
        assert calls[1..][i] == calls[i + 1] && calls[1..][i + 1] == calls[i + 2];
      }
      NestingBounded(req, hard, calls[1..]);
    }
  }

  /** The failure of `task` makes calls that nest to this depth. */
  ghost predicate NestsTo(req: Graph, hard: Graph, task: Node, depth: nat) {
    exists calls :: |calls| == depth + 1 && calls[0] == task && Nested(req, hard, calls)
  }

  /** The failure of a task is passed on without end exactly if hard dependencies lead from it to a cycle;
      otherwise the calls nest no deeper than there are tasks. */
  lemma NestingEnds(req: Graph, hard: Graph, task: Node)
    requires Closed(hard) && forall p, d :: Needs(hard, p, d) ==> d in req && p in req[d]
    ensures LeadsToCycle(hard, task) ==> forall depth: nat :: NestsTo(req, hard, task, depth)
    ensures !LeadsToCycle(hard, task) ==> forall depth: nat :: NestsTo(req, hard, task, depth) ==> depth <= |hard|
  {
    if LeadsToCycle(hard, task) {
      forall depth: nat ensures NestsTo(req, hard, task, depth) {
        var calls := CycleNests(req, hard, task, depth);
      }
    } else {
      forall depth: nat | NestsTo(req, hard, task, depth) ensures depth <= |hard| {
        var calls :| |calls| == depth + 1 && calls[0] == task && Nested(req, hard, calls);
        NestingBounded(req, hard, calls);
        RankBounded(hard, calls[0]);
      }
    }
  }

  /** So it happens: `a` needs `p` and `b` hard, and `b` needs `a`.  Then `p` waits for nothing, and if it
      fails, the update never ends. */
  lemma FailureNeverEnds()
    ensures var idepends: Graph := map["a" := {"p", "b"}, "b" := {"a"}];
            var squash: Graph := map["p" := {}, "a" := {}, "b" := {}];
            var hard: Graph := map["p" := {"a"}, "b" := {"a"}, "a" := {"b"}];
            var req: Graph := map["p" := {}, "a" := {"p", "b"}, "b" := {"a"}];
            && HardOf(idepends, hard) && Resolved(squash, hard, req) && req["p"] == {}
            && forall depth: nat :: NestsTo(req, hard, "p", depth)
  {
    var hard: Graph := map["p" := {"a"}, "b" := {"a"}, "a" := {"b"}];
    var req: Graph := map["p" := {}, "a" := {"p", "b"}, "b" := {"a"}];
    assert ["a", "b", "a"][1..] == ["b", "a"] && ["b", "a"][1..] == ["a"];
    assert IsPath(hard, ["b", "a"]);
    assert PathBetween(hard, ["a", "b", "a"], "a", "a");
    EdgeReaches(hard, "p", "a");
    assert LeadsToCycle(hard, "p");
    NestingEnds(req, hard, "p");
  }

  /** What a run asks and is told.  Each answer is given once for each task: whether it is `present` before the
      run or else `valid` for the hash check, if there is one; whether the hook, if there is one, calls it
      `unneeded`; and whether the stamps of the task itself (`normal`) and of its setscene variant (`stamped`)
      are current when it is its turn. */
  datatype Policy = Policy(unskippable: set<Node>, targets: set<Node>, force: bool,
                           hashvalidate: bool, present: set<Node>, valid: set<Node>,
                           depvalidate: bool, unneeded: set<Node>, normal: set<Node>, stamped: set<Node>)
  {
    function Present(): set<Node> {
      if hashvalidate then present else {}
    }

    /** The task itself is to be run, whatever the cache holds. */
    predicate Rerun(t: Node) {
      t in normal || (force && t in targets)
    }

    /** Nothing stands against leaving the task out, if all that requires it is covered. */
    predicate Spare(t: Node) {
      t !in unskippable && t !in targets && depvalidate && t in unneeded
    }
  }

  /** The task can be left out now: everything it is required by is covered, and there is something. */
  predicate Unwanted(p: Policy, req: Graph, covered: set<Node>, t: Node) {
    p.Spare(t) && t in req && req[t] != {} && req[t] <= covered
  }

  predicate Refused(p: Policy, outrightfail: set<Node>, t: Node) {
    t in outrightfail || p.Rerun(t)
  }

  /** Why each task has ended up where it is: not needed; present before; already restored; or refused.
      Only what is none of these is handed to a worker. */
  ghost predicate Reasoned(p: Policy, req: Graph, hard: Graph, outrightfail: set<Node>, covered: set<Node>,
                           notcovered: set<Node>, notneeded: set<Node>, dispatched: seq<Node>, settled: set<Node>)
  {
    && (forall t :: t in notneeded ==> t in settled && Unwanted(p, req, covered, t))
    && (forall t :: t in settled && t in covered && t !in notneeded ==>
          t in p.Present() || (t in p.stamped && !Refused(p, outrightfail, t)))
    && (forall t :: t in settled && t in notcovered ==> Refused(p, outrightfail, t))
    && (forall t :: t in dispatched ==>
          !Refused(p, outrightfail, t) && t !in p.stamped && Kept(p, req, hard, notcovered, t))
  }

  /** If nothing stands against leaving the task out, it is not done because something it has waited for has
      been given up. */
  ghost predicate Kept(p: Policy, req: Graph, hard: Graph, notcovered: set<Node>, t: Node) {
    p.Spare(t) && t in req && req[t] != {} ==> exists q :: q in req[t] && GivenUp(hard, notcovered, q)
  }

  lemma KeptStill(p: Policy, req: Graph, hard: Graph, notcovered: set<Node>, more: set<Node>, t: Node)
    requires Kept(p, req, hard, notcovered, t) && notcovered <= more
    ensures Kept(p, req, hard, more, t)
  {
    hide Reaches;
    assert forall q :: GivenUp(hard, notcovered, q) ==> GivenUp(hard, more, q);
    hide GivenUp;
  }

  /** What a task that can start has waited for is covered or given up. */
  lemma KeptAtStart(p: Policy, req: Graph, hard: Graph, covered: set<Node>, notcovered: set<Node>, waits: Graph,
                    buildable: set<Node>, running: set<Node>, t: Node)
    requires Exact(req, hard, covered, notcovered, waits) && BuildableIff(req, waits, buildable, running)
    requires t in buildable && t !in running
    ensures !Unwanted(p, req, covered, t) ==> Kept(p, req, hard, notcovered, t)
  {
    hide GivenUp, Needs;
    assert t in req && waits[t] == {};
    assert forall q :: q in req[t] ==> Released(hard, covered, notcovered, q, t);
    if p.Spare(t) && req[t] != {} && !(req[t] <= covered) {
      var q :| q in req[t] && q !in covered;
      assert Released(hard, covered, notcovered, q, t);
    }
  }

  lemma ReasonSkip(p: Policy, req: Graph, hard: Graph, outrightfail: set<Node>, covered: set<Node>,
                   notcovered: set<Node>, notneeded: set<Node>, dispatched: seq<Node>, settled: set<Node>, t: Node)
    requires Reasoned(p, req, hard, outrightfail, covered, notcovered, notneeded, dispatched, settled)
    requires t !in covered && t !in notcovered && notneeded <= covered && t !in settled
    requires covered !! notcovered
    ensures t in p.Present() || (t in p.stamped && !Refused(p, outrightfail, t)) ==>
      Reasoned(p, req, hard, outrightfail, covered + {t}, notcovered, notneeded, dispatched, settled + {t})
    ensures Unwanted(p, req, covered, t) ==>
      Reasoned(p, req, hard, outrightfail, covered + {t}, notcovered, notneeded + {t}, dispatched, settled + {t})
    ensures Refused(p, outrightfail, t) ==>
      Reasoned(p, req, hard, outrightfail, covered, notcovered + {t}, notneeded, dispatched, settled + {t})
  {
    hide Refused;
    forall x | Kept(p, req, hard, notcovered, x) ensures Kept(p, req, hard, notcovered + {t}, x) {
      KeptStill(p, req, hard, notcovered, notcovered + {t}, x);
    }
    hide Kept;
  }

  lemma ReasonReport(p: Policy, req: Graph, hard: Graph, outrightfail: set<Node>, covered: set<Node>,
                     notcovered: set<Node>, notneeded: set<Node>, dispatched: seq<Node>, settled: set<Node>, t: Node)
    requires Reasoned(p, req, hard, outrightfail, covered, notcovered, notneeded, dispatched, settled) && t !in settled
    ensures Reasoned(p, req, hard, outrightfail, covered + {t}, notcovered, notneeded, dispatched, settled)
    ensures Reasoned(p, req, hard, outrightfail, covered, notcovered + {t}, notneeded, dispatched, settled)
    ensures !Refused(p, outrightfail, t) && t !in p.stamped && Kept(p, req, hard, notcovered, t) ==>
      Reasoned(p, req, hard, outrightfail, covered, notcovered, notneeded, dispatched + [t], settled)
  {
    hide Refused;
    forall x | Kept(p, req, hard, notcovered, x) ensures Kept(p, req, hard, notcovered + {t}, x) {
      KeptStill(p, req, hard, notcovered, notcovered + {t}, x);
    }
    hide Kept;
  }

  lemma ReasonRuleOut(p: Policy, req: Graph, hard: Graph, fails: set<Node>, fails': set<Node>, covered: set<Node>,
                      settled: set<Node>)
    requires Reasoned(p, req, hard, fails, covered, {}, {}, [], settled) && settled <= p.Present()
    ensures Reasoned(p, req, hard, fails', covered, {}, {}, [], settled)
  {
  }

  /** Of the tasks looked at, those that are neither present nor valid. */
  function Unaccepted(keys: set<Node>, todo: set<Node>, p: Policy): set<Node> {
    keys - todo - p.present - p.valid
  }

  function Accepted(keys: set<Node>, todo: set<Node>, p: Policy): set<Node> {
    (keys - todo) * p.present
  }

  lemma CheckedMore(keys: set<Node>, todo: set<Node>, p: Policy, t: Node)
    requires t in todo && todo <= keys
    ensures t !in Accepted(keys, todo, p)
    ensures Accepted(keys, todo - {t}, p) == Accepted(keys, todo, p) + if t in p.present then {t} else {}
    ensures Unaccepted(keys, todo - {t}, p) ==
            Unaccepted(keys, todo, p) + if t in p.present || t in p.valid then {} else {t}
  {
  }

  lemma CheckedAll(keys: set<Node>, p: Policy)
    ensures Accepted(keys, keys, p) == {} == Unaccepted(keys, keys, p)
    ensures Accepted(keys, {}, p) == keys * p.present && Unaccepted(keys, {}, p) == keys - p.present - p.valid
  {
  }

  lemma FirstIn(s: seq<Node>)
    ensures s != [] ==> s[0] in s
  {
  }

  lemma BooksOpen(req: Graph, hard: Graph, numberTasks: int, total: int)
    requires Closed(req) && numberTasks >= 1
    ensures Parted({}, {}, {}, {}, {}) && Tallied(Stats(0, 0, 0, 0, total), {}, {}, {}, numberTasks)
    ensures Exact(req, hard, {}, {}, req)
    ensures BuildableIff(req, req, set t | t in req && |req[t]| == 0, {})
    ensures LiveRevdeps(req, req, {}) && StartSafe(req, hard, {}, {}, {}, []) && Handled([], {}, {}, {})
  {
  }

  class RunQueueExecuteScenequeue {
    const setscene: seq<Node>
    const hard: Graph
    const sqDeps: Graph
    const numberTasks: int
    const policy: Policy
    const limit: nat
    ghost const req: Graph
    var sqRevdeps: Graph
    var sqRevdeps2: Graph
    var runqBuildable: set<Node>
    var runqRunning: set<Node>
    var covered: set<Node>
    var notcovered: set<Node>
    var notneeded: set<Node>
    var outrightfail: set<Node>
    var workers: set<Node>
    var stats: Stats
    var finished: bool
    ghost var dispatched: seq<Node>
    ghost var settled: set<Node>
    /** The tasks that the hook has been asked about. */
    ghost var asked: set<Node>

    /** How the tasks are wired, which may be in cycles. */
    ghost predicate Wired() {
      && Closed(req)
      && Closed(hard)
      && hard.Keys == req.Keys
      && sqDeps == Inverse(req)
      && (forall p, t :: Needs(hard, p, t) ==> t in req && p in req[t])
    }

    ghost predicate Configured() {
      && Wired()
      && numberTasks >= 1
      && (forall t :: t in setscene ==> t in req)
    }

    constructor (setscene: seq<Node>, req: Graph, hard: Graph, numberTasks: int, policy: Policy,
                 limit: nat)
      requires Closed(req) && numberTasks >= 1 && Closed(hard) && hard.Keys == req.Keys
      requires forall p, t :: Needs(hard, p, t) ==> t in req && p in req[t]
      requires forall t :: t in setscene ==> t in req
      ensures Valid() && this.req == req && this.hard == hard && this.setscene == setscene && this.limit == limit
      ensures this.policy == policy
      ensures !finished && runqRunning == {} && covered == {} && notcovered == {} && dispatched == [] && settled == {}
    {
      hide Closed, Inverse, Exact, BuildableIff, LiveRevdeps, StartSafe, Handled, Parted, Tallied, Needs;
      BooksOpen(req, hard, numberTasks, |setscene|);
      var deps := RunQueueData.Reverse(req);
      this.setscene, this.req, this.hard, this.numberTasks := setscene, req, hard, numberTasks;
      this.policy, this.limit := policy, limit;
      this.sqDeps := deps;
      sqRevdeps, sqRevdeps2 := req, req;
      runqBuildable := set t | t in req && |req[t]| == 0;
      runqRunning, covered, notcovered, notneeded, outrightfail, workers := {}, {}, {}, {}, {}, {};
      stats := Stats(0, 0, 0, 0, |setscene|);
      finished := false;
      dispatched, settled, asked := [], {}, {};
    }

    ghost function SceneTasks(): set<Node> {
      set t | t in setscene
    }

    /** Tells the dependents of a task that it is done or, with `fail`, given up, which is passed on along
        hard dependencies.  `depth` is what is left of the recursion limit, and `ok` is false where it is
        exceeded: whatever it is, if they lead to a cycle. */
    method UpdateCounters(task: Node, fail: bool, depth: nat) returns (ok: bool)
      requires Wired() && task in req
      requires forall d :: d in sqRevdeps2 <==> d in req
      requires forall d :: d in sqRevdeps2 ==> sqRevdeps2[d] <= req[d]
      modifies this`sqRevdeps2, this`runqBuildable
      ensures ok ==> Updated(req, hard, task, fail, old(sqRevdeps2), sqRevdeps2)
      ensures ok ==> Freed(old(sqRevdeps2), sqRevdeps2, old(runqBuildable), runqBuildable)
      ensures ok && fail ==> !LeadsToCycle(hard, task)
      ensures depth > 0 && (fail ==> !LeadsToCycle(hard, task) && Rank(hard, task) < depth) ==> ok
      decreases depth
    {
      hide Updated, UpdatedBut, Freed, Closed, LeadsToCycle, Inverse, Rank;
      if depth == 0 {
        return false;
      }
      ok := true;
      ghost var waits0, before := sqRevdeps2, runqBuildable;
      SceneDependents(req, task);
      var deps := sqDeps[task];
      UpdateStart(hard, task, fail, deps, waits0, before);
      var todo := deps;
      while todo != {}
        invariant todo <= deps
        invariant forall d :: d in sqRevdeps2 <==> d in req
        invariant forall d :: d in sqRevdeps2 ==> sqRevdeps2[d] <= req[d]
        invariant UpdatedBut(hard, task, fail, deps, todo, waits0, sqRevdeps2)
        invariant Freed(waits0, sqRevdeps2, before, runqBuildable)
        invariant fail ==> forall d :: d in deps - todo && Needs(hard, task, d) ==> !LeadsToCycle(hard, d)
        decreases todo
      {
        var dep :| dep in todo;
        ghost var waits, mid := sqRevdeps2, runqBuildable;
        if fail && task in hard && dep in hard[task] {
          HardDescends(hard, task, dep);
          ok := UpdateCounters(dep, fail, depth - 1);
          if !ok {
            return;
          }
          UpdateHard(req, hard, task, deps, todo, waits0, waits, sqRevdeps2, dep);
          Shrinking(req, hard, task, fail, deps, todo, waits0, waits, dep, sqRevdeps2);
          FreedThrough(waits0, waits, sqRevdeps2, before, mid, runqBuildable);
          todo := todo - {dep};
          continue;
        }
        UpdateSoft(hard, task, fail, deps, todo, waits0, waits, before, mid, dep);
        todo := todo - {dep};
        if task !in sqRevdeps2[dep] {
          continue;
        }
        sqRevdeps2 := sqRevdeps2[dep := sqRevdeps2[dep] - {task}];
        if |sqRevdeps2[dep]| == 0 {
          runqBuildable := runqBuildable + {dep};
        }
      }
      UpdateEnds(req, hard, task, fail, deps, waits0, sqRevdeps2);
      if fail {
        LeadsNowhere(hard, task);
      }
    }

    /** Everything but the statistics; `hand` is the task the current step is dealing with. */
    ghost predicate Holds(hand: set<Node>)
      reads `sqRevdeps, `sqRevdeps2, `runqBuildable, `runqRunning, `covered, `notcovered, `notneeded
      reads `workers, `dispatched, `settled, `asked
    {
      && Exact(req, hard, covered, notcovered, sqRevdeps2)
      && BuildableIff(req, sqRevdeps2, runqBuildable, runqRunning)
      && Parted(runqRunning, covered, notcovered, workers, hand)
      && runqRunning <= req.Keys
      && notneeded <= covered
      && LiveRevdeps(req, sqRevdeps, asked)
      && StartSafe(req, hard, covered, notcovered, runqRunning, dispatched)
      && Handled(dispatched, settled, runqRunning, workers)
      && Harmless(hard, notcovered)
    }

    ghost predicate Books()
      reads `sqRevdeps, `sqRevdeps2, `runqBuildable, `runqRunning, `covered, `notcovered, `notneeded
      reads `workers, `dispatched, `settled, `stats, `asked
    {
      && Configured()
      && Holds({})
      && Tallied(stats, covered, notcovered, workers, numberTasks)
    }

    ghost predicate Reasons()
      reads `covered, `notcovered, `notneeded, `dispatched, `settled, `outrightfail
    {
      && Reasoned(policy, req, hard, outrightfail, covered, notcovered, notneeded, dispatched, settled)
      && notneeded <= SceneTasks()
    }

    /** The hook is asked about a task only when that is about to be started or dealt with. */
    ghost predicate Valid()
      reads `sqRevdeps, `sqRevdeps2, `runqBuildable, `runqRunning, `covered, `notcovered, `notneeded
      reads `workers, `dispatched, `settled, `stats, `asked, `outrightfail
    {
      Books() && Reasons() && asked <= runqRunning
    }

    /** A task that is running, and so far neither covered nor given up, is covered. */
    method TaskCompleteOutright(task: Node)
      requires Configured() && Holds({task})
      modifies this`covered, this`sqRevdeps2, this`runqBuildable
      ensures Holds({}) && covered == old(covered) + {task} && task !in old(covered)
      ensures old(runqBuildable) <= runqBuildable
    {
      hide Exact, BuildableIff, StartSafe, Handled, LiveRevdeps, Inverse, Updated, Freed, Closed, Harmless,
        LeadsToCycle, Rank;
      WaitsKnown(req, hard, covered, notcovered, sqRevdeps2);
      ghost var waits, before, was := sqRevdeps2, runqBuildable, covered;
      StartSafeGrows(req, hard, covered, notcovered, runqRunning, dispatched, covered + {task}, notcovered);
      covered := covered + {task};
      var ok := UpdateCounters(task, false, limit + 1);
      CoverKeeps(req, hard, was, notcovered, waits, sqRevdeps2, task);
      FreedMore(waits, sqRevdeps2, before, runqBuildable);
      BuildableKeeps(req, hard, task, false, waits, sqRevdeps2, before, runqBuildable, runqRunning);
    }

    /** A running task is given up, and with it, through hard dependencies, whatever needs it; unless that
        exceeds the recursion limit. */
    method GiveUp(task: Node) returns (ok: bool)
      requires Configured() && Holds({task})
      modifies this`notcovered, this`sqRevdeps2, this`runqBuildable
      ensures notcovered == old(notcovered) + {task} && task !in old(notcovered)
      ensures ok ==> Holds({}) && old(runqBuildable) <= runqBuildable
      ensures |hard| <= limit ==> (ok <==> !LeadsToCycle(hard, task))
    {
      hide Exact, BuildableIff, StartSafe, Handled, LiveRevdeps, Inverse, Updated, Freed, Closed, Harmless,
        LeadsToCycle, Rank;
      WaitsKnown(req, hard, covered, notcovered, sqRevdeps2);
      ghost var waits, before, was := sqRevdeps2, runqBuildable, notcovered;
      StartSafeGrows(req, hard, covered, notcovered, runqRunning, dispatched, covered, notcovered + {task});
      notcovered := notcovered + {task};
      RankBounded(hard, task);
      ok := UpdateCounters(task, true, limit + 1);
      if ok {
        HarmlessMore(hard, was, task);
        GiveUpKeeps(req, hard, covered, was, waits, sqRevdeps2, task);
        FreedMore(waits, sqRevdeps2, before, runqBuildable);
        BuildableKeeps(req, hard, task, true, waits, sqRevdeps2, before, runqBuildable, runqRunning);
      }
    }

    method AddRunning(task: Node)
      requires Holds({}) && task in req && task !in runqRunning
      modifies this`runqRunning, this`runqBuildable, this`settled
      ensures Holds({task}) && runqRunning == old(runqRunning) + {task} && settled == old(settled) + {task}
      ensures task !in covered && task !in notcovered && task !in workers
    {
      hide Exact, LiveRevdeps, StartSafe, BuildableIff, Handled;
      HandledSettled(dispatched, settled, runqRunning, workers, task);
      settled := settled + {task};
      RunningMore(req, hard, covered, notcovered, sqRevdeps2, runqBuildable, runqRunning, dispatched, task);
      runqRunning := runqRunning + {task};
      runqBuildable := runqBuildable + {task};
    }

    /** How far the stage has come: starts and reports move it on, and nothing sets it back. */
    ghost function Work(): int
      reads `runqRunning, `workers
    {
      2 * |runqRunning| - |workers|
    }

    method TaskSkip(task: Node)
      requires Books() && task in req && task !in runqRunning
      modifies this`runqRunning, this`runqBuildable, this`covered, this`sqRevdeps2, this`stats, this`settled
      ensures Books() && covered == old(covered) + {task} && runqRunning == old(runqRunning) + {task}
      ensures settled == old(settled) + {task} && Work() > old(Work())
    {
      hide Holds, Configured;
      AddRunning(task);
      TaskCompleteOutright(task);
      stats := stats.TaskCompleted();
      stats := stats.TaskSkipped();
    }

    method TaskFailOutright(task: Node) returns (ok: bool)
      requires Books() && task in req && task !in runqRunning
      modifies this`runqRunning, this`runqBuildable, this`notcovered, this`sqRevdeps2, this`stats, this`settled
      ensures notcovered == old(notcovered) + {task} && runqRunning == old(runqRunning) + {task}
      ensures settled == old(settled) + {task} && Work() > old(Work())
      ensures ok ==> Books()
      ensures !ok ==> Overrun()
    {
      hide Holds, Configured, LeadsToCycle;
      AddRunning(task);
      stats := stats.TaskCompleted();
      stats := stats.TaskSkipped();
      ok := GiveUp(task);
      HardKeys();
    }

    /** Some failed task leads to a cycle, unless the recursion limit is less than the number of tasks. */
    ghost predicate Overrun()
      reads `notcovered
    {
      |req| <= limit ==> exists t :: t in notcovered && LeadsToCycle(hard, t)
    }

    lemma HardKeys()
      requires Configured()
      ensures |hard| == |req|
    {
      assert |hard.Keys| == |req.Keys|;
    }

    method TakeFromWorker(task: Node)
      requires Holds({}) && task in workers
      modifies this`workers
      ensures Holds({task}) && workers == old(workers) - {task} && task !in covered && task !in notcovered
    {
      hide Exact, BuildableIff, StartSafe, LiveRevdeps, Parted, Handled;
      HandledReports(dispatched, settled, runqRunning, workers, task);
      TakeOver(runqRunning, covered, notcovered, workers, task);
      workers := workers - {task};
    }

    /** A worker reports how a setscene task ended. */
    method RunqueueProcessWaitpid(task: Node, status: int) returns (ok: bool)
      requires Valid() && task in workers
      modifies this`workers, this`covered, this`notcovered, this`runqBuildable, this`sqRevdeps2, this`stats
      ensures workers == old(workers) - {task}
      ensures ok ==> old(runqBuildable) <= runqBuildable && stats.active == old(stats.active) - 1
      ensures if ok then Valid() else Overrun()
      ensures status == 0 ==> covered == old(covered) + {task} && notcovered == old(notcovered)
      ensures status != 0 ==> notcovered == old(notcovered) + {task} && covered == old(covered)
    {
      hide Books, Reasoned, Overrun;
      WorkerKnown(task);
      ReasonReport(policy, req, hard, outrightfail, covered, notcovered, notneeded, dispatched, settled, task);
      ok := Report(task, status);
    }

    method Report(task: Node, status: int) returns (ok: bool)
      requires Books() && task in workers
      modifies this`workers, this`covered, this`notcovered, this`runqBuildable, this`sqRevdeps2, this`stats
      ensures workers == old(workers) - {task}
      ensures ok ==> old(runqBuildable) <= runqBuildable && stats.active == old(stats.active) - 1
      ensures if ok then Books() else Overrun()
      ensures status == 0 ==> covered == old(covered) + {task} && notcovered == old(notcovered)
      ensures status != 0 ==> notcovered == old(notcovered) + {task} && covered == old(covered)
    {
      hide Holds, Configured, Tallied, LeadsToCycle;
      ok := true;
      TallyEnds(stats, covered, notcovered, workers, numberTasks, task);
      TakeFromWorker(task);
      if status != 0 {
        stats := stats.TaskFailed();
        ok := GiveUp(task);
        HardKeys();
      } else {
        stats := stats.TaskCompleted();
        TaskCompleteOutright(task);
      }
    }

    lemma WorkerKnown(task: Node)
      requires Books() && task in workers
      ensures task !in settled
    {
      hide Exact, BuildableIff, StartSafe, LiveRevdeps, Parted, Configured, Tallied;
    }

    /** Any number of workers report, in any order and with any status; if `prompt`, at least one of the
        busy ones does. */
    method ReadWorkers(prompt: bool) returns (ok: bool)
      requires Valid()
      modifies this`workers, this`covered, this`notcovered, this`runqBuildable, this`sqRevdeps2, this`stats
      ensures if ok then Valid() else Overrun()
      ensures ok ==> old(runqBuildable) <= runqBuildable && stats.active <= old(stats.active)
      ensures old(covered) <= covered && old(notcovered) <= notcovered
      ensures Work() >= old(Work()) && (prompt && old(workers) != {} ==> Work() > old(Work()))
    {
      hide Valid, Overrun;
      ok := true;
      if prompt && workers != {} {
        var task :| task in workers;
        var status: int := *;
        ok := RunqueueProcessWaitpid(task, status);
        if !ok {
          return;
        }
      }
      while *
        invariant ok && Valid()
        invariant old(runqBuildable) <= runqBuildable && stats.active <= old(stats.active)
        invariant old(covered) <= covered && old(notcovered) <= notcovered
        invariant Work() >= old(Work()) && (prompt && old(workers) != {} ==> Work() > old(Work()))
        decreases workers
      {
        if workers == {} {
          break;
        }
        var task :| task in workers;
        var status: int := *;
        ok := RunqueueProcessWaitpid(task, status);
        if !ok {
          return;
        }
      }
    }

    /** The check before the run, which is made only if a hash check is configured.  The tasks that are
        empty or already stamped are present and are covered at once; of the others the hash check
        accepts those that are valid. */
    method Prevalidate()
      requires Valid() && runqRunning == {}
      modifies this`runqRunning, this`runqBuildable, this`covered, this`sqRevdeps2, this`stats, this`outrightfail
      modifies this`settled
      ensures Valid()
      ensures covered == runqRunning == settled == req.Keys * policy.Present()
      ensures dispatched == []
      ensures outrightfail == if policy.hashvalidate then req.Keys - policy.present - policy.valid else {}
    {
      hide Valid;
      ValidBooks();
      NothingDispatched();
      RuleOut({});
      if policy.hashvalidate {
        var fails := CheckHashes();
        RuleOut(fails);
      }
    }

    /** The loop over the tasks; what the hash check has not accepted is to be ruled out. */
    method CheckHashes() returns (fails: set<Node>)
      requires Valid() && policy.hashvalidate && outrightfail == {}
      requires covered == notcovered == notneeded == runqRunning == settled == {} && dispatched == []
      modifies this`runqRunning, this`runqBuildable, this`covered, this`sqRevdeps2, this`stats, this`settled
      ensures Valid() && covered == runqRunning == settled == req.Keys * policy.present
      ensures fails == req.Keys - policy.present - policy.valid
    {
      hide Valid, Pending, Books, Accepted, Unaccepted;
      ValidBooks();
      CheckedAll(req.Keys, policy);
      var todo := ReqKeys();
      fails := {};
      while todo != {}
        invariant Valid() && todo <= req.Keys
        invariant covered == runqRunning == settled == Accepted(req.Keys, todo, policy)
        invariant fails == Unaccepted(req.Keys, todo, policy)
        decreases todo
      {
        var tid :| tid in todo;
        CheckedMore(req.Keys, todo, policy, tid);
        todo := todo - {tid};
        if tid in policy.present {
          ValidPending(tid);
          SkipFor(tid);
        } else if tid !in policy.valid {
          fails := fails + {tid};
        }
      }
    }

    lemma ValidBooks()
      requires Valid()
      ensures Books()
    {
    }

    lemma ValidPending(task: Node)
      requires Valid()
      ensures Pending(task)
    {
      hide Books, Reasons;
    }

    lemma NothingDispatched()
      requires Books() && runqRunning == {}
      ensures dispatched == [] && settled == covered == notcovered == notneeded == {}
    {
      FirstIn(dispatched);
      hide Exact, BuildableIff, StartSafe, LiveRevdeps, Configured, Tallied;
    }

    method RuleOut(fails: set<Node>)
      requires Valid() && dispatched == [] && notcovered == notneeded == {} && settled <= policy.Present()
      modifies this`outrightfail
      ensures Valid() && outrightfail == fails
    {
      hide Holds, Configured, Tallied, Reasoned;
      ReasonRuleOut(policy, req, hard, outrightfail, fails, covered, settled);
      outrightfail := fails;
    }

    /** The tasks of the setscene graph, in a form the run can iterate over. */
    method ReqKeys() returns (keys: set<Node>)
      requires Books()
      ensures keys == req.Keys && covered <= req.Keys && (runqRunning == {} ==> covered == {})
    {
      hide Exact, BuildableIff, StartSafe;
      assert forall d :: d in sqRevdeps2 <==> d in req by {
        WaitsKnown(req, hard, covered, notcovered, sqRevdeps2);
      }
      keys := sqRevdeps2.Keys;
    }

    /** Asks whether a task that only covered tasks want is needed at all; asking makes it a requirement
        of itself. */
    method CheckDependencies(task: Node) returns (unneeded: bool)
      requires Books() && task in req
      modifies this`sqRevdeps, this`asked
      ensures Books() && asked <= old(asked) + {task}
      ensures unneeded <==> policy.depvalidate && task in policy.unneeded
    {
      hide Exact, BuildableIff, StartSafe, Handled, Parted, Configured, Tallied;
      if !policy.depvalidate {
        return false;
      }
      sqRevdeps := sqRevdeps[task := sqRevdeps[task] + {task}];
      asked := asked + {task};
      unneeded := task in policy.unneeded;
    }

    /** Hands a task to a worker. */
    method Dispatch(task: Node)
      requires Books() && stats.active < numberTasks
      requires task in runqBuildable && task !in runqRunning
      modifies this`runqRunning, this`workers, this`stats, this`dispatched
      ensures Books() && dispatched == old(dispatched) + [task] && runqRunning == old(runqRunning) + {task}
      ensures stats == old(stats).TaskActive() && Work() > old(Work())
      ensures forall p :: Needs(hard, p, task) ==> p in covered
      ensures task in workers
    {
      hide Exact, BuildableIff, StartSafe, Handled, LiveRevdeps, Parted, Tallied, Closed, Inverse, Needs;
      PartMore(runqRunning, covered, notcovered, workers, stats, numberTasks, task);
      StartOnWorker(task);
      hide Configured, Holds;
      stats := stats.TaskActive();
    }

    method StartOnWorker(task: Node)
      requires Configured() && Holds({}) && task in runqBuildable && task !in runqRunning
      modifies this`runqRunning, this`workers, this`dispatched
      ensures Holds({}) && dispatched == old(dispatched) + [task]
      ensures runqRunning == old(runqRunning) + {task} && workers == old(workers) + {task}
      ensures forall p :: Needs(hard, p, task) ==> p in covered
    {
      hide Exact, BuildableIff, StartSafe, LiveRevdeps, Handled, Closed, Inverse, Needs;
      HandledDispatched(dispatched, settled, runqRunning, workers, task);
      StartIsSafe(req, hard, covered, notcovered, sqRevdeps2, runqBuildable, runqRunning, dispatched, task);
      runqRunning := runqRunning + {task};
      workers := workers + {task};
      dispatched := dispatched + [task];
    }

    /** The first setscene task in order that is free and not yet started. */
    ghost predicate Next(task: Node)
      reads `runqBuildable, `runqRunning
    {
      exists i :: 0 <= i < |setscene| && setscene[i] == task && task in runqBuildable && task !in runqRunning &&
        forall k :: 0 <= k < i ==> !(setscene[k] in runqBuildable && setscene[k] !in runqRunning)
    }

    ghost predicate NothingFree()
      reads `runqBuildable, `runqRunning
    {
      forall t :: t in setscene ==> t in runqBuildable ==> t in runqRunning
    }

    /** As `Valid`, but the hook may have been asked about a task that is still to be started. */
    ghost predicate Pending(task: Node)
      reads `sqRevdeps, `sqRevdeps2, `runqBuildable, `runqRunning, `covered, `notcovered, `notneeded
      reads `workers, `dispatched, `settled, `stats, `asked, `outrightfail
    {
      Books() && Reasons() && asked <= runqRunning + {task}
    }

    /** Looks at the next setscene task: it is left out if it is unwanted, given up if the check before the
        run has ruled it out (`acted`), and otherwise it is to be started (`found`). */
    method FindTask() returns (task: Node, found: bool, acted: bool, ok: bool)
      requires Valid() && stats.active < numberTasks
      modifies this`runqRunning, this`runqBuildable, this`covered, this`notcovered, this`notneeded, this`sqRevdeps,
               this`sqRevdeps2, this`stats, this`settled, this`asked
      ensures if !ok then Overrun() && acted else if found then Pending(task) else Valid()
      ensures if found || acted then old(Next(task)) && task in req else old(NothingFree()) && NothingFree()
      ensures !(found && acted)
      ensures found ==> task in runqBuildable && stats == old(stats)
      ensures !acted ==> runqRunning == old(runqRunning)
      ensures found ==> Kept(policy, req, hard, notcovered, task)
      ensures found <==> old(Next(task)) && task !in outrightfail && !old(Unwanted(policy, req, covered, task))
      ensures acted ==> runqRunning == old(runqRunning) + {task} && settled == old(settled) + {task}
      ensures acted ==>
        if old(Unwanted(policy, req, covered, task)) then
          covered == old(covered) + {task} && notneeded == old(notneeded) + {task} && notcovered == old(notcovered)
        else notcovered == old(notcovered) + {task} && covered == old(covered) && notneeded == old(notneeded)
      ensures !acted ==> workers == old(workers) && stats == old(stats) && settled == old(settled)
      ensures workers == old(workers) && Work() >= old(Work()) && (acted ==> Work() > old(Work()))
      ensures settled >= old(settled)
    {
      hide Holds, Tallied, Overrun, Reasoned, Configured, Kept;
      task, found, acted, ok := "", false, false, true;
      var i := 0;
      while i < |setscene|
        invariant 0 <= i <= |setscene| && ok && Valid() && stats == old(stats) && runqRunning == old(runqRunning)
        invariant unchanged(this)
        invariant forall k :: 0 <= k < i ==> setscene[k] in runqBuildable ==> setscene[k] in runqRunning
      {
        var nexttask := setscene[i];
        i := i + 1;
        if nexttask !in runqBuildable || nexttask in runqRunning {
          continue;
        }
        task := nexttask;
        TaskKnown(i - 1);
        assert Next(task);
        acted, ok := DealWith(task);
        found := !acted;
        return;
      }
    }

    lemma TaskKnown(i: nat)
      requires Books() && i < |setscene|
      ensures setscene[i] in req
    {
    }

    /** A task is covered because it was present before or its stamp is current. */
    method SkipFor(task: Node)
      requires Pending(task) && task in req && task !in runqRunning
      requires task in policy.Present() || (task in policy.stamped && !Refused(policy, outrightfail, task))
      modifies this`runqRunning, this`runqBuildable, this`covered, this`sqRevdeps2, this`stats, this`settled
      ensures Valid() && Work() > old(Work())
      ensures covered == old(covered) + {task} && runqRunning == old(runqRunning) + {task}
      ensures settled == old(settled) + {task}
    {
      hide Books, Reasoned, Refused, SceneTasks, Work, Kept;
      ReasonsKnown(task);
      ReasonSkip(policy, req, hard, outrightfail, covered, notcovered, notneeded, dispatched, settled, task);
      TaskSkip(task);
    }

    /** A task is left out, all that requires it being covered. */
    method LeaveOut(task: Node)
      requires Pending(task) && task in setscene && task in req && task !in runqRunning
      requires Unwanted(policy, req, covered, task)
      modifies this`runqRunning, this`runqBuildable, this`covered, this`notneeded, this`sqRevdeps2, this`stats,
               this`settled
      ensures Valid() && Work() > old(Work())
      ensures covered == old(covered) + {task} && runqRunning == old(runqRunning) + {task}
      ensures settled == old(settled) + {task} && notneeded == old(notneeded) + {task}
    {
      hide Books, Reasoned, Refused, Work, Unwanted;
      ReasonsKnown(task);
      ReasonSkip(policy, req, hard, outrightfail, covered, notcovered, notneeded, dispatched, settled, task);
      TaskSkip(task);
      NotNeeded(task);
    }

    /** A task is given up before it is tried. */
    method Refuse(task: Node) returns (ok: bool)
      requires Pending(task) && task in req && task !in runqRunning && Refused(policy, outrightfail, task)
      modifies this`runqRunning, this`runqBuildable, this`notcovered, this`sqRevdeps2, this`stats, this`settled
      ensures (if ok then Valid() else Overrun()) && Work() > old(Work())
      ensures notcovered == old(notcovered) + {task} && runqRunning == old(runqRunning) + {task}
      ensures settled == old(settled) + {task}
    {
      hide Books, Reasoned, Refused, SceneTasks, Overrun, Work;
      ReasonsKnown(task);
      ReasonSkip(policy, req, hard, outrightfail, covered, notcovered, notneeded, dispatched, settled, task);
      ok := TaskFailOutright(task);
    }

    /** A task is handed to a worker. */
    method Hand(task: Node)
      requires Pending(task) && stats.active < numberTasks && task in runqBuildable && task !in runqRunning
      requires !Refused(policy, outrightfail, task) && task !in policy.stamped
      requires Kept(policy, req, hard, notcovered, task)
      modifies this`runqRunning, this`workers, this`stats, this`dispatched
      ensures Valid() && Work() > old(Work())
      ensures runqRunning == old(runqRunning) + {task} && dispatched == old(dispatched) + [task]
      ensures task in workers
    {
      hide Books, Reasoned, Refused, SceneTasks, Work, Kept;
      ReasonsKnown(task);
      ReasonReport(policy, req, hard, outrightfail, covered, notcovered, notneeded, dispatched, settled, task);
      Dispatch(task);
    }

    /** What `FindTask` does with the task it has come to. */
    method DealWith(task: Node) returns (acted: bool, ok: bool)
      requires Valid() && stats.active < numberTasks && task in setscene && task in req
      requires task in runqBuildable && task !in runqRunning
      modifies this`runqRunning, this`runqBuildable, this`covered, this`notcovered, this`notneeded, this`sqRevdeps,
               this`sqRevdeps2, this`stats, this`settled, this`asked
      ensures if !ok then Overrun() && acted else if acted then Valid() else Pending(task)
      ensures acted <==> task in outrightfail || old(Unwanted(policy, req, covered, task))
      ensures !acted ==> Kept(policy, req, hard, notcovered, task)
      ensures acted ==> runqRunning == old(runqRunning) + {task} && settled == old(settled) + {task}
      ensures acted ==>
        if old(Unwanted(policy, req, covered, task)) then
          covered == old(covered) + {task} && notneeded == old(notneeded) + {task} && notcovered == old(notcovered)
        else notcovered == old(notcovered) + {task} && covered == old(covered) && notneeded == old(notneeded)
      ensures !acted ==>
        unchanged(`runqRunning) && unchanged(`runqBuildable) && unchanged(`stats) && unchanged(`settled)
      ensures Work() >= old(Work()) && (acted ==> Work() > old(Work()))
    {
      hide Holds, Tallied, Overrun, Reasoned, Configured, Refused, SceneTasks, Work, Kept;
      acted, ok := false, true;
      LiveKnown(task);
      RefusedIf(task);
      FreeIsKept(task);
      if task !in policy.unskippable && |sqRevdeps[task]| > 0 && sqRevdeps[task] <= covered {
        var unneeded := CheckDependencies(task);
        if unneeded && task !in policy.targets {
          LeaveOut(task);
          acted := true;
          return;
        }
      }
      if task in outrightfail {
        ok := Refuse(task);
        acted := true;
      }
    }

    lemma FreeIsKept(task: Node)
      requires Books() && task in runqBuildable && task !in runqRunning
      ensures !Unwanted(policy, req, covered, task) ==> Kept(policy, req, hard, notcovered, task)
    {
      hide Exact, BuildableIff, StartSafe, LiveRevdeps, Parted, Handled, Tallied, Unwanted, Kept;
      KeptAtStart(policy, req, hard, covered, notcovered, sqRevdeps2, runqBuildable, runqRunning, task);
    }

    lemma RefusedIf(task: Node)
      ensures Refused(policy, outrightfail, task) <==>
        task in outrightfail || task in policy.normal || (policy.force && task in policy.targets)
    {
    }

    lemma ReasonsKnown(task: Node)
      requires Books() && task !in runqRunning
      ensures covered !! notcovered && notneeded <= covered && task !in covered && task !in notcovered
      ensures task !in settled && task !in workers
    {
      hide Exact, BuildableIff, StartSafe, LiveRevdeps, Configured, Tallied;
    }

    lemma LiveKnown(task: Node)
      requires Books() && task in req
      ensures task in sqRevdeps && (task !in asked ==> sqRevdeps[task] == req[task])
    {
    }

    method NotNeeded(task: Node)
      requires Books() && task in covered
      modifies this`notneeded
      ensures Books() && notneeded == old(notneeded) + {task}
    {
      hide Exact, BuildableIff, StartSafe, Handled, LiveRevdeps, Parted, Configured, Tallied;
      notneeded := notneeded + {task};
    }

    /** Deals with the task found: it is given up if the task itself is to be run, covered if its stamp is
        current, and else handed to a worker. */
    method StartTask(task: Node) returns (handed: bool, ok: bool)
      requires Pending(task) && stats.active < numberTasks
      requires task in req && task in runqBuildable && task !in runqRunning && task !in outrightfail
      requires Kept(policy, req, hard, notcovered, task)
      modifies this`runqRunning, this`runqBuildable, this`covered, this`notcovered, this`sqRevdeps2, this`stats
      modifies this`workers, this`dispatched, this`settled
      ensures (if ok then Valid() else Overrun() && !handed) && Work() > old(Work()) && settled >= old(settled)
      ensures runqRunning == old(runqRunning) + {task}
      ensures handed <==> !policy.Rerun(task) && task !in policy.stamped
      ensures handed ==> task in workers
      ensures dispatched == old(dispatched) + if handed then [task] else []
      ensures policy.Rerun(task) ==> notcovered == old(notcovered) + {task} && covered == old(covered)
      ensures !policy.Rerun(task) && task in policy.stamped ==>
        covered == old(covered) + {task} && notcovered == old(notcovered)
    {
      hide Books, Overrun, Reasons, Refused, Work, Kept;
      handed, ok := false, true;
      RefusedIf(task);
      if task in policy.normal {
        ok := Refuse(task);
        return;
      }
      if policy.force && task in policy.targets {
        ok := Refuse(task);
        return;
      }
      if task in policy.stamped {
        SkipFor(task);
        return;
      }
      Hand(task);
      handed := true;
    }

    /** One call of `execute`: worker reports, at most one task dealt with, perhaps more reports. */
    method Execute(prompt: bool) returns (ok: bool)
      requires Valid() && !finished
      modifies this
      ensures if ok then Valid() else Overrun() && !finished
      ensures Work() >= old(Work()) && (prompt && ok ==> finished || Work() > old(Work()))
      ensures outrightfail == old(outrightfail) && settled >= old(settled)
      ensures finished ==> workers == {} && NothingFree()
      ensures runqRunning >= old(runqRunning) && |runqRunning - old(runqRunning)| <= 1
      ensures ok && old(stats.active) < numberTasks && old(!NothingFree()) ==> runqRunning > old(runqRunning)
    {
      hide Valid, Work, Overrun;
      ok := ReadWorkers(prompt);
      if !ok {
        return;
      }
      var started, handed;
      started, handed, ok := StartNext();
      if started && !(handed && stats.active >= numberTasks) {
        return;
      }
      ActiveKnown();
      if stats.active > 0 {
        ok := ReadWorkers(prompt);
        return;
      }
      finished := true;
    }

    /** The next setscene task, if there is room and one is free, is dealt with or started. */
    method StartNext() returns (started: bool, handed: bool, ok: bool)
      requires Valid()
      modifies this`runqRunning, this`runqBuildable, this`covered, this`notcovered, this`notneeded, this`sqRevdeps,
               this`sqRevdeps2, this`stats, this`settled, this`asked, this`workers, this`dispatched
      ensures if ok then Valid() else Overrun() && started && !handed
      ensures started <==> old(stats.active < numberTasks && !NothingFree())
      ensures started ==> Work() > old(Work()) && runqRunning > old(runqRunning)
      ensures |runqRunning - old(runqRunning)| == if started then 1 else 0
      ensures !started ==> (stats.active < numberTasks ==> NothingFree()) && runqRunning == old(runqRunning)
      ensures !started ==> workers == old(workers) && stats == old(stats)
      ensures handed ==> workers != {}
      ensures Work() >= old(Work()) && settled >= old(settled)
    {
      hide Holds, Tallied, Configured, Work, Overrun, Reasons, Unwanted, Kept;
      started, handed, ok := false, false, true;
      if stats.active < numberTasks {
        var task, found, acted;
        task, found, acted, ok := FindTask();
        NextIsFree(task);
        if found || acted {
          OneMore(old(runqRunning), task);
        }
        if found {
          handed, ok := StartTask(task);
        }
        started := found || acted;
      }
    }

    twostate lemma NextIsFree(task: Node)
      ensures old(Next(task)) ==> !old(NothingFree()) && task !in old(runqRunning)
    {
    }

    lemma ActiveKnown()
      requires Valid()
      ensures stats.active == |workers| && numberTasks >= 1
    {
    }

    lemma WorkBounded()
      requires Valid()
      ensures 0 <= Work() <= 2 * |req|
    {
      hide Exact, BuildableIff, LiveRevdeps, StartSafe, Handled, Configured, Tallied;
      SubsetSize(workers, runqRunning);
      SubsetSize(runqRunning, req.Keys);
    }

    /** Any number of calls of `execute`, with any worker reports and stamp checks in between.  If a busy
        worker reports whenever they are read, twice as many turns as there are tasks that others may
        require, and one more, are enough.  If the recursion limit is not less than the number of tasks, the
        run breaks off (`ok` is false) exactly if a task fails from which hard dependencies lead to a cycle. */
    method Run(turns: nat, prompt: bool) returns (ok: bool)
      requires Valid() && !finished
      modifies this
      ensures if ok then Valid() && Harmless(hard, notcovered) else Overrun() && !finished
      ensures prompt && ok && turns > 2 * |req| ==> finished
      ensures outrightfail == old(outrightfail) && settled >= old(settled)
      ensures ok ==> covered !! notcovered && covered + notcovered <= req.Keys
      ensures ok ==> forall t :: t in covered || t in notcovered ==> t in dispatched || t in settled
      ensures ok ==> Distinct(dispatched) && forall t :: t in dispatched ==> t in req
      ensures ok ==> forall t, p :: t in dispatched && Needs(hard, p, t) ==> p in covered && p !in notcovered
      ensures ok ==> forall d :: d in req && d !in runqRunning ==>
                (d in runqBuildable <==> forall p :: p in req[d] ==> Released(hard, covered, notcovered, p, d))
      ensures finished ==>
        forall t :: t in req ==> Settled(req, hard, SceneTasks(), covered, notcovered, t)
      ensures finished ==> forall t :: t in covered || t in notcovered <==> t in dispatched || t in settled
      ensures ok ==> forall t :: t in dispatched ==> t !in settled
      ensures ok ==> Reasons()
      ensures finished ==> forall t :: t in SceneTasks() && t !in settled && !GivenUp(hard, notcovered, t) ==>
        (Left(hard, covered, notcovered, t) <==> exists p :: p in req[t] && Left(hard, covered, notcovered, p))
    {
      hide Valid, Work, Overrun, Reasons, Harmless, Settled, Released, Left, GivenUp, Needs, Distinct;
      WorkBounded();
      ok := true;
      var i := 0;
      while i < turns && !finished
        invariant 0 <= i <= turns && ok && Valid()
        invariant prompt && !finished ==> Work() >= i
        invariant outrightfail == old(outrightfail) && settled >= old(settled)
        invariant finished ==> workers == {} && forall t :: t in setscene && t in runqBuildable ==> t in runqRunning
      {
        ok := Execute(prompt);
        if !ok {
          return;
        }
        i := i + 1;
      }
      WorkBounded();
      Outcome();
    }

    /** What a valid state says about the counters, the hard dependencies and, at the end, about every task. */
    lemma Outcome()
      requires Valid()
      requires finished ==> workers == {} && forall t :: t in setscene && t in runqBuildable ==> t in runqRunning
      ensures covered !! notcovered && covered + notcovered <= req.Keys && Harmless(hard, notcovered)
      ensures forall t :: t in covered || t in notcovered ==> t in dispatched || t in settled
      ensures Distinct(dispatched) && Reasons() && forall t :: t in dispatched ==> t in req
      ensures forall t, p :: t in dispatched && Needs(hard, p, t) ==> p in covered && p !in notcovered
      ensures forall d :: d in req && d !in runqRunning ==>
                (d in runqBuildable <==> forall p :: p in req[d] ==> Released(hard, covered, notcovered, p, d))
      ensures finished ==>
        forall t :: t in req ==> Settled(req, hard, SceneTasks(), covered, notcovered, t)
      ensures finished ==> forall t :: t in covered || t in notcovered <==> t in dispatched || t in settled
      ensures forall t :: t in dispatched ==> t !in settled
      ensures finished ==> forall t :: t in SceneTasks() && t !in settled && !GivenUp(hard, notcovered, t) ==>
        (Left(hard, covered, notcovered, t) <==> exists p :: p in req[t] && Left(hard, covered, notcovered, p))
    {
      forall d | d in req && d !in runqRunning
        ensures d in runqBuildable <==> forall p :: p in req[d] ==> Released(hard, covered, notcovered, p, d)
      {
        BuildableMeans(req, hard, covered, notcovered, sqRevdeps2, runqBuildable, runqRunning, d);
      }
      if finished {
        assert runqRunning == covered + notcovered;
        forall t | t in req ensures Settled(req, hard, SceneTasks(), covered, notcovered, t) {
          NothingLeft(req, hard, SceneTasks(), covered, notcovered, sqRevdeps2, runqBuildable, runqRunning, t);
        }
        forall t | t in SceneTasks() && t !in settled && !GivenUp(hard, notcovered, t)
          ensures Left(hard, covered, notcovered, t) <==> exists p :: p in req[t] && Left(hard, covered, notcovered, p)
        {
          LeftOver(req, hard, covered, notcovered, sqRevdeps2, runqBuildable, runqRunning, dispatched, settled, t);
        }
      }
    }
  }

  lemma StartIsSafe(req: Graph, hard: Graph, covered: set<Node>, notcovered: set<Node>, waits: Graph,
                    buildable: set<Node>,
                    running: set<Node>, dispatched: seq<Node>, task: Node)
    requires Exact(req, hard, covered, notcovered, waits) && BuildableIff(req, waits, buildable, running)
    requires StartSafe(req, hard, covered, notcovered, running, dispatched)
    requires task in buildable && task !in running
    requires forall p, t :: Needs(hard, p, t) ==> t in req && p in req[t]
    ensures task in req
    ensures BuildableIff(req, waits, buildable, running + {task})
    ensures StartSafe(req, hard, covered, notcovered, running + {task}, dispatched + [task])
    ensures forall p :: Needs(hard, p, task) ==> p in covered
  {
    assert waits[task] == {};
    forall p | Needs(hard, p, task) ensures p in covered {
      assert p !in waits[task];
      assert Released(hard, covered, notcovered, p, task);
    }
    hide Needs, Released, GivenUp, Exact;
  }

  lemma BuildableMeans(req: Graph, hard: Graph, covered: set<Node>, notcovered: set<Node>, waits: Graph,
                       buildable: set<Node>,
                       running: set<Node>, d: Node)
    requires Exact(req, hard, covered, notcovered, waits) && BuildableIff(req, waits, buildable, running)
    requires d in req && d !in running
    ensures d in buildable <==> forall p :: p in req[d] ==> Released(hard, covered, notcovered, p, d)
  {
    hide Released;
    assert waits[d] == {} <==> forall p :: p in req[d] ==> p !in waits[d] by {
      assert forall p :: p in waits[d] ==> p in req[d];
    }
  }

  /** `t` waits for ever: it is, or requires step by step, a task that has no setscene variant and that
      nothing has covered. */
  ghost predicate Stranded(req: Graph, setscene: set<Node>, covered: set<Node>, t: Node) {
    exists q :: q in req && q !in setscene && q !in covered && (q == t || Reaches(req, t, q))
  }

  lemma StrandedBelow(req: Graph, setscene: set<Node>, covered: set<Node>, t: Node, p: Node)
    requires Closed(req) && t in req && p in req[t] && Stranded(req, setscene, covered, p)
    ensures Stranded(req, setscene, covered, t)
  {
    var q :| q in req && q !in setscene && q !in covered && (q == p || Reaches(req, p, q));
    if q == p {
      EdgeReaches(req, t, p);
    } else {
      EdgeThenReaches(req, t, p, q);
    }
  }

  /** What the tasks that are not covered require of each other. */
  ghost function Uncovered(req: Graph, covered: set<Node>): Graph {
    map t | t in req && t !in covered :: set p | p in req[t] && p !in covered
  }

  /** The task is covered or given up, or it waits for ever: for a task without a setscene variant, or on a
      cycle of requirements none of which is covered. */
  ghost predicate Settled(req: Graph, hard: Graph, setscene: set<Node>, covered: set<Node>, notcovered: set<Node>,
                          t: Node)
  {
    || t in covered || GivenUp(hard, notcovered, t) || Stranded(req, setscene, covered, t)
    || LeadsToCycle(Uncovered(req, covered), t)
  }

  /** With nothing on workers and nothing left to start, every task is covered, was given up, or waits
      for a task that has no setscene variant or on a cycle. */
  lemma NothingLeft(req: Graph, hard: Graph, setscene: set<Node>, covered: set<Node>, notcovered: set<Node>,
                    waits: Graph, buildable: set<Node>, running: set<Node>, t: Node)
    requires Closed(req) && t in req
    requires Exact(req, hard, covered, notcovered, waits) && BuildableIff(req, waits, buildable, running)
    requires running == covered + notcovered
    requires forall d :: d in setscene && d in buildable ==> d in running
    requires Closed(hard) && hard.Keys == req.Keys
    ensures Settled(req, hard, setscene, covered, notcovered, t)
  {
    var open := set d | d in req && d !in covered && !GivenUp(hard, notcovered, d) &&
      !Stranded(req, setscene, covered, d);
    var g := Uncovered(req, covered);
    forall m | m in open ensures m in g && exists d :: d in open && d in g[m] {
      BuildableMeans(req, hard, covered, notcovered, waits, buildable, running, m);
      assert m in setscene && m !in buildable;
      var p :| p in req[m] && !Released(hard, covered, notcovered, p, m);
      if Stranded(req, setscene, covered, p) {
        StrandedBelow(req, setscene, covered, m, p);
      } else if GivenUp(hard, notcovered, p) {
        GivenUpBelow(hard, notcovered, p, m);
      }
      assert p in open && p in g[m];
    }
    if t in open {
      EndlessLeads(g, open, t);
    }
  }

  /** Requirements without a cycle keep nothing waiting on one. */
  lemma NoneCircling(req: Graph, covered: set<Node>, t: Node)
    requires Acyclic(req)
    ensures !LeadsToCycle(Uncovered(req, covered), t)
  {
    SubgraphAcyclic(Uncovered(req, covered), req);
    NoCycle(Uncovered(req, covered), t);
  }

  lemma GivenUpBelow(hard: Graph, notcovered: set<Node>, p: Node, d: Node)
    requires Closed(hard) && p in hard && GivenUp(hard, notcovered, p) && Needs(hard, p, d)
    ensures GivenUp(hard, notcovered, d)
  {
    if p in notcovered {
      EdgeReaches(hard, p, d);
    } else {
      var f :| f in notcovered && Reaches(hard, f, p);
      ReachesThenEdge(hard, f, p, d);
    }
  }



  lemma HarmlessMore(hard: Graph, failed: set<Node>, task: Node)
    requires Harmless(hard, failed) && !LeadsToCycle(hard, task)
    ensures Harmless(hard, failed + {task})
  {
  }

  ghost predicate BuildableIff(req: Graph, waits: Graph, buildable: set<Node>, running: set<Node>) {
    && (forall d :: d in waits <==> d in req)
    && (forall d :: d in buildable ==> d in req)
    && forall d :: d in req && d in waits ==> (d in buildable <==> waits[d] == {} || d in running)
  }

  /** Every started task is covered, given up, on a worker, or in the hands of the current step. */
  ghost predicate Parted(running: set<Node>, covered: set<Node>, notcovered: set<Node>, workers: set<Node>,
                         hand: set<Node>)
  {
    && running == covered + notcovered + workers + hand
    && covered !! notcovered !! workers !! hand
  }

  /** Checking whether a task is needed adds it to its own live requirements; nothing else changes them. */
  ghost predicate LiveRevdeps(req: Graph, live: Graph, asked: set<Node>) {
    forall d :: d in req ==> d in live && live[d] == if d in asked then req[d] + {d} else req[d]
  }

  /** Every setscene task handed to a worker was handed over once, when nothing held it back any more. */
  ghost predicate StartSafe(req: Graph, hard: Graph, covered: set<Node>, notcovered: set<Node>, running: set<Node>,
                            dispatched: seq<Node>)
  {
    && Distinct(dispatched)
    && (forall t :: t in dispatched ==> t in running)
    && forall t, p :: t in dispatched && t in req && p in req[t] ==> Released(hard, covered, notcovered, p, t)
  }

  /** Neither covered nor given up. */
  ghost predicate Left(hard: Graph, covered: set<Node>, notcovered: set<Node>, t: Node) {
    t !in covered && !GivenUp(hard, notcovered, t)
  }

  /** At the end a task that was not dealt with by itself is left over exactly if something it requires is. */
  lemma LeftOver(req: Graph, hard: Graph, covered: set<Node>, notcovered: set<Node>, waits: Graph, buildable: set<Node>,
                 running: set<Node>, dispatched: seq<Node>, settled: set<Node>, t: Node)
    requires Exact(req, hard, covered, notcovered, waits) && BuildableIff(req, waits, buildable, running)
    requires StartSafe(req, hard, covered, notcovered, running, dispatched) && Handled(dispatched, settled, running, {})
    requires Closed(hard) && running == covered + notcovered && t in req && (t in buildable ==> t in running)
    requires t !in settled && !GivenUp(hard, notcovered, t)
    ensures Left(hard, covered, notcovered, t) <==> exists p :: p in req[t] && Left(hard, covered, notcovered, p)
  {
    if Left(hard, covered, notcovered, t) {
      BuildableMeans(req, hard, covered, notcovered, waits, buildable, running, t);
      var p :| p in req[t] && !Released(hard, covered, notcovered, p, t);
      if GivenUp(hard, notcovered, p) {
        GivenUpBelow(hard, notcovered, p, t);
      }
      assert Left(hard, covered, notcovered, p);
    } else {
      assert t in running && t in dispatched;
      forall p | p in req[t] ensures !Left(hard, covered, notcovered, p) {
        assert Released(hard, covered, notcovered, p, t);
      }
    }
  }

  /** A started task was either handed to a worker or dealt with without one; workers hold no others. */
  ghost predicate Handled(dispatched: seq<Node>, settled: set<Node>, running: set<Node>, workers: set<Node>) {
    && (forall t :: t in running <==> t in dispatched || t in settled)
    && (forall t :: t in dispatched ==> t !in settled)
    && (forall t :: t in workers ==> t in dispatched)
  }

  lemma HandledSettled(dispatched: seq<Node>, settled: set<Node>, running: set<Node>, workers: set<Node>, task: Node)
    requires Handled(dispatched, settled, running, workers) && task !in running
    ensures Handled(dispatched, settled + {task}, running + {task}, workers)
  {
  }

  lemma HandledDispatched(dispatched: seq<Node>, settled: set<Node>, running: set<Node>, workers: set<Node>, task: Node)
    requires Handled(dispatched, settled, running, workers) && task !in running
    ensures Handled(dispatched + [task], settled, running + {task}, workers + {task})
  {
  }

  lemma HandledReports(dispatched: seq<Node>, settled: set<Node>, running: set<Node>, workers: set<Node>, task: Node)
    requires Handled(dispatched, settled, running, workers)
    ensures Handled(dispatched, settled, running, workers - {task})
  {
  }

  ghost predicate Tallied(stats: Stats, covered: set<Node>, notcovered: set<Node>, workers: set<Node>,
                          numberTasks: int)
  {
    && stats.completed + stats.failed == |covered| + |notcovered|
    && stats.active == |workers| <= numberTasks
  }

  lemma TakeOver(running: set<Node>, covered: set<Node>, notcovered: set<Node>, workers: set<Node>, task: Node)
    requires Parted(running, covered, notcovered, workers, {}) && task in workers
    ensures Parted(running, covered, notcovered, workers - {task}, {task}) && task !in covered && task !in notcovered
  {
  }

  lemma PartMore(running: set<Node>, covered: set<Node>, notcovered: set<Node>, workers: set<Node>, stats: Stats,
                 numberTasks: int, task: Node)
    requires Parted(running, covered, notcovered, workers, {}) && task !in running
    requires Tallied(stats, covered, notcovered, workers, numberTasks) && stats.active < numberTasks
    ensures Parted(running + {task}, covered, notcovered, workers + {task}, {})
    ensures Tallied(stats.TaskActive(), covered, notcovered, workers + {task}, numberTasks)
  {
  }

  lemma TallyEnds(stats: Stats, covered: set<Node>, notcovered: set<Node>, workers: set<Node>, numberTasks: int,
                  task: Node)
    requires Tallied(stats, covered, notcovered, workers, numberTasks) && task in workers
    ensures task !in covered ==>
      Tallied(stats.TaskCompleted(), covered + {task}, notcovered, workers - {task}, numberTasks)
    ensures task !in notcovered ==>
      Tallied(stats.TaskFailed(), covered, notcovered + {task}, workers - {task}, numberTasks)
  {
  }

  lemma WaitsKnown(req: Graph, hard: Graph, covered: set<Node>, notcovered: set<Node>, waits: Graph)
    requires Exact(req, hard, covered, notcovered, waits)
    ensures forall d :: d in waits <==> d in req
    ensures forall d :: d in waits ==> waits[d] <= req[d]
  {
    hide Released;
  }

  lemma StartSafeGrows(req: Graph, hard: Graph, covered: set<Node>, notcovered: set<Node>, running: set<Node>,
                       dispatched: seq<Node>, more: set<Node>, fails: set<Node>)
    requires StartSafe(req, hard, covered, notcovered, running, dispatched) && covered <= more && notcovered <= fails
    ensures StartSafe(req, hard, more, fails, running, dispatched)
  {
    forall p, d | Released(hard, covered, notcovered, p, d) ensures Released(hard, more, fails, p, d) {
      hide Reaches, Needs;
    }
    hide Released, Distinct;
  }

  lemma RunningMore(req: Graph, hard: Graph, covered: set<Node>, notcovered: set<Node>, waits: Graph,
                    buildable: set<Node>,
                    running: set<Node>, dispatched: seq<Node>, task: Node)
    requires BuildableIff(req, waits, buildable, running) && task in req
    requires StartSafe(req, hard, covered, notcovered, running, dispatched)
    ensures BuildableIff(req, waits, buildable + {task}, running + {task})
    ensures StartSafe(req, hard, covered, notcovered, running + {task}, dispatched)
  {
    hide Released, Distinct;
  }

  lemma CoverKeeps(req: Graph, hard: Graph, covered: set<Node>, notcovered: set<Node>, waits: Graph, waits': Graph,
                   task: Node)
    requires Exact(req, hard, covered, notcovered, waits) && Updated(req, hard, task, false, waits, waits')
    ensures Exact(req, hard, covered + {task}, notcovered, waits')
  {
    forall p, d
      ensures Released(hard, covered + {task}, notcovered, p, d) <==>
                Released(hard, covered, notcovered, p, d) || Dropped(hard, task, false, p, d)
    {
    }
    hide Released, Dropped;
  }

  lemma GiveUpKeeps(req: Graph, hard: Graph, covered: set<Node>, notcovered: set<Node>, waits: Graph, waits': Graph,
                    task: Node)
    requires Exact(req, hard, covered, notcovered, waits) && Updated(req, hard, task, true, waits, waits')
    ensures Exact(req, hard, covered, notcovered + {task}, waits')
  {
    forall p, d
      ensures Released(hard, covered, notcovered + {task}, p, d) <==>
                Released(hard, covered, notcovered, p, d) || Dropped(hard, task, true, p, d)
    {
      GivenUpMore(hard, notcovered, task, p);
      hide GivenUp, Hit, Needs;
    }
    hide Released, Dropped;
  }

  lemma GivenUpMore(hard: Graph, notcovered: set<Node>, task: Node, p: Node)
    ensures GivenUp(hard, notcovered + {task}, p) <==> GivenUp(hard, notcovered, p) || Hit(hard, task, true, p)
  {
    if Hit(hard, task, true, p) {
      assert task in notcovered + {task};
    }
    if GivenUp(hard, notcovered, p) && p !in notcovered {
      var f :| f in notcovered && Reaches(hard, f, p);
      assert f in notcovered + {task};
    }
    hide Reaches;
  }

  lemma BuildableKeeps(req: Graph, hard: Graph, task: Node, fail: bool, waits: Graph, waits': Graph,
                       before: set<Node>, after: set<Node>, running: set<Node>)
    requires BuildableIff(req, waits, before, running)
    requires Updated(req, hard, task, fail, waits, waits') && Freed(waits, waits', before, after)
    ensures BuildableIff(req, waits', after, running)
  {
    hide Dropped;
    forall d | d in waits ensures d in waits' && waits'[d] <= waits[d] {
    }
    hide Updated;
  }



  lemma SceneDependents(req: Graph, task: Node)
    requires task in req
    ensures task in Inverse(req) && Inverse(req)[task] == Dependents(req, task)
    ensures Dependents(req, task) <= req.Keys
  {
  }

  /** Updates only take away. */
  lemma Shrinking(req: Graph, hard: Graph, task: Node, fail: bool, deps: set<Node>, todo: set<Node>, waits0: Graph,
                  waits: Graph,
                  dep: Node, waits': Graph)
    requires UpdatedBut(hard, task, fail, deps, todo, waits0, waits) && Updated(req, hard, dep, fail, waits, waits')
    ensures forall d :: d in waits <==> d in waits0
    ensures forall d :: d in waits' <==> d in waits
    ensures forall d, x :: d in waits0 && d in waits && x in waits[d] ==> x in waits0[d]
    ensures forall d, x :: d in waits && d in waits' && x in waits'[d] ==> x in waits[d]
  {
  }
}
