/** Which tasks need not run because setscene tasks have covered for them. */
module SkipList {
  import opened Graphs
  import opened TaskWeights

  /** All dependents of `t`, and there are some, are covered. */
  ghost predicate Supported(g: Graph, covered: set<Node>, t: Node) {
    Dependents(g, t) != {} && Dependents(g, t) <= covered
  }

  /** Closed under covering whatever has only covered dependents. */
  ghost predicate ClosedUp(g: Graph, covered: set<Node>) {
    forall t :: t in g && Supported(g, covered, t) ==> t in covered
  }

  /** Closed under dropping the droppable dependencies of whatever is dropped. */
  ghost predicate ClosedDown(g: Graph, covered: set<Node>, initial: set<Node>, dropped: set<Node>) {
    forall t, d :: t in dropped && t in g && d in g[t] && d in covered && d !in initial ==> d in dropped
  }

  /** Every task of the graph once. */
  ghost predicate Enumerates(g: Graph, order: seq<Node>) {
    Distinct(order) && forall t :: t in order <==> t in g
  }

  /** The first pass, which goes over the tasks once and looks at what it has covered so far. */
  ghost function OnePass(g: Graph, initial: set<Node>, order: seq<Node>): set<Node> {
    if order == [] then initial
    else
      var last, before := order[|order| - 1], OnePass(g, initial, order[..|order| - 1]);
      if Supported(g, before, last) then before + {last} else before
  }

  ghost predicate FirstPass(g: Graph, initial: set<Node>, first: set<Node>) {
    exists order :: Enumerates(g, order) && first == OnePass(g, initial, order)
  }

  ghost predicate ClosedBut(g: Graph, notcovered: set<Node>, covered: set<Node>) {
    forall t :: t in g && Supported(g, covered, t) ==> t in covered || t in notcovered
  }

  ghost predicate LeastFrom(g: Graph, first: set<Node>, notcovered: set<Node>, covered: set<Node>) {
    first <= covered && forall s :: first <= s && ClosedBut(g, notcovered, s) ==> covered <= s
  }

  /** What covering promises: every task added has only covered dependents; every such task is covered
      unless its own setscene variant was tried in vain; and nothing outside the closure is added.  Beyond
      what the first pass covers in some order of the tasks, nothing is added that was tried in vain. */
  ghost predicate CoveredFrom(g: Graph, initial: set<Node>, notcovered: set<Node>, covered: set<Node>) {
    && initial <= covered <= g.Keys
    && (forall t :: t in covered && t !in initial ==> Supported(g, covered, t))
    && ClosedBut(g, notcovered, covered)
    && (forall s :: initial <= s && ClosedUp(g, s) ==> covered <= s)
    && exists first :: FirstPass(g, initial, first) && LeastFrom(g, first, notcovered, covered)
  }

  /** What removal promises: exactly the least set goes that contains the invalid tasks and is closed. */
  ghost predicate RemovedFrom(g: Graph, initial: set<Node>, covered: set<Node>, invalid: set<Node>, left: set<Node>) {
    && left <= covered
    && invalid <= covered - left
    && ClosedDown(g, covered, initial, covered - left)
    && forall s :: invalid <= s && ClosedDown(g, covered, initial, s) ==> covered - left <= s
  }

  /** The tasks to skip: the initial ones are covered from, the first pass adds whatever they support even
      if it was tried in vain, and then those that `named` invalidates are removed. */
  ghost predicate SkipSet(g: Graph, initial: set<Node>, notcovered: set<Node>, named: set<Node>, skipped: set<Node>) {
    exists full :: CoveredFrom(g, initial, notcovered, full) &&
      (forall t :: t in g && Supported(g, initial, t) ==> t in full) &&
      RemovedFrom(g, initial, full, named * full, skipped)
  }

  /** The order of the first pass is all that covering leaves open, and it matters only for what was tried
      in vain: a task of that kind is covered in the first pass or not at all. */
  lemma CoveredByFirst(g: Graph, initial: set<Node>, notcovered: set<Node>, covered: set<Node>, other: set<Node>,
                       first: set<Node>)
    requires covered <= g.Keys && other <= g.Keys
    requires LeastFrom(g, first, notcovered, covered) && ClosedBut(g, notcovered, covered)
    requires LeastFrom(g, first, notcovered, other) && ClosedBut(g, notcovered, other)
    ensures covered == other && forall t :: t in covered && t in notcovered ==> t in first
  {
    var kept := covered - (notcovered - first);
    assert ClosedBut(g, notcovered, kept) by {
      forall t | t in g && Supported(g, kept, t) ensures t in kept || t in notcovered {
        assert Supported(g, covered, t);
      }
    }
    assert covered <= kept;
  }

  /** The first pass covers what the initial tasks support, whatever its order. */
  lemma {:induction false} OnePassCovers(g: Graph, initial: set<Node>, order: seq<Node>, t: Node)
    ensures initial <= OnePass(g, initial, order)
    ensures t in order && Supported(g, initial, t) ==> t in OnePass(g, initial, order)
    ensures t in OnePass(g, initial, order) ==> t in initial || t in order
  {
    if order != [] {
      OnePassCovers(g, initial, order[..|order| - 1], t);
      assert order == order[..|order| - 1] + [order[|order| - 1]];
      forall u ensures u in initial ==> u in OnePass(g, initial, order[..|order| - 1]) {
      }
    }
  }

  /** With nothing tried in vain and nothing named, exactly the least set is skipped that contains the
      initial tasks and whatever has only skipped dependents. */
  lemma SkippedIsLeast(g: Graph, initial: set<Node>, skipped: set<Node>)
    requires SkipSet(g, initial, {}, {}, skipped)
    ensures initial <= skipped && ClosedUp(g, skipped)
    ensures forall s :: initial <= s && ClosedUp(g, s) ==> skipped <= s
  {
    hide FirstPass, LeastFrom, Supported;
    var full :| CoveredFrom(g, initial, {}, full) && RemovedFrom(g, initial, full, {} * full, skipped);
    var none: set<Node> := {};
    assert none * full == none && ClosedDown(g, full, initial, none);
    assert full - skipped <= none;
    forall t | t in full ensures t in skipped {
      assert t !in full - skipped;
    }
    assert skipped == full;
  }

  /** Skip safety: a task left to run depends only on tasks that are not skipped either, or that a
      setscene task itself provided. */
  lemma SkipSafety(g: Graph, initial: set<Node>, notcovered: set<Node>, covered: set<Node>, invalid: set<Node>,
                   left: set<Node>, t: Node, d: Node)
    requires CoveredFrom(g, initial, notcovered, covered) && RemovedFrom(g, initial, covered, invalid, left)
    requires t in g && t !in left && d in g[t]
    ensures d !in left || d in initial
  {
  }

  class CoveredTasks {
    var covered: set<Node>
    const depends: Graph
    const revdeps: Graph
    const notcovered: set<Node>

    constructor (depends: Graph, revdeps: Graph, covered: set<Node>, notcovered: set<Node>)
      ensures this.depends == depends && this.revdeps == revdeps && this.covered == covered &&
        this.notcovered == notcovered
    {
      this.depends, this.revdeps, this.covered, this.notcovered := depends, revdeps, covered, notcovered;
    }

    ghost predicate Valid()
      reads `covered
    {
      Closed(depends) && revdeps == Inverse(depends) && covered <= depends.Keys
    }

    /** The first pass, which does not look at `notcovered`. */
    method CoverOnce()
      requires Valid()
      modifies this`covered
      ensures Valid() && FirstPass(depends, old(covered), covered) && SoFar(depends, old(covered), covered)
      ensures forall t :: t in depends && Supported(depends, old(covered), t) ==> t in covered
    {
      hide Closed, Inverse, Dependents, Supported, OnePass, FirstPass, Passed;
      ghost var initial := covered;
      NonePassed(depends);
      SoFarStart(depends, initial);
      ghost var order: seq<Node> := [];
      OnePassGrows(depends, initial, order, "");
      var todo := depends.Keys;
      while todo != {}
        invariant Passed(depends, order, todo)
        invariant covered == OnePass(depends, initial, order)
        invariant todo <= depends.Keys && initial <= covered <= depends.Keys && SoFar(depends, initial, covered)
        decreases todo
      {
        var tid :| tid in todo;
        DependentsAre(depends, revdeps, tid);
        SoFarGrows(depends, initial, covered, tid);
        OnePassGrows(depends, initial, order, tid);
        PassedMore(depends, order, todo, tid);
        order := order + [tid];
        if |revdeps[tid]| > 0 && revdeps[tid] <= covered {
          covered := covered + {tid};
        }
        todo := todo - {tid};
      }
      FirstPassBy(depends, initial, order);
      AllPassed(depends, initial, order);
    }

    /** The first pass covers without looking at `notcovered`; the passes after it do look. */
    method Cover()
      requires Valid()
      modifies this`covered
      ensures Valid() && CoveredFrom(depends, old(covered), notcovered, covered)
      ensures forall t :: t in depends && Supported(depends, old(covered), t) ==> t in covered
    {
      hide Closed, Inverse, Dependents, Supported, CoveredFrom, FirstPass, LeastFrom;
      ghost var initial := covered;
      CoverOnce();
      ghost var first := covered;
      LeastFromStart(depends, notcovered, first);
      var found := true;
      while found
        invariant LeastFrom(depends, first, notcovered, covered)
        invariant first <= covered <= depends.Keys && SoFar(depends, initial, covered)
        invariant !found ==> Finished(depends, notcovered, covered, {})
        decreases depends.Keys - covered, found
      {
        found := false;
        var todo := depends.Keys;
        ghost var before := covered;
        FinishedStart(depends, notcovered, covered);
        while todo != {}
          invariant LeastFrom(depends, first, notcovered, covered)
          invariant todo <= depends.Keys && before <= covered <= depends.Keys && SoFar(depends, initial, covered)
          invariant !found ==> covered == before && Finished(depends, notcovered, covered, todo)
          invariant found ==> before < covered
          decreases todo
        {
          var tid :| tid in todo;
          DependentsAre(depends, revdeps, tid);
          SoFarGrows(depends, initial, covered, tid);
          FinishedOneMore(depends, notcovered, covered, todo, tid);
          todo := todo - {tid};
          if tid in covered {
            continue;
          }
          if |revdeps[tid]| > 0 && revdeps[tid] <= covered {
            if tid in notcovered {
              continue;
            }
            LeastFromGrows(depends, first, notcovered, covered, tid);
            found := true;
            covered := covered + {tid};
          }
        }
      }
      CoveredEnd(depends, initial, notcovered, covered, first);
    }

    /** `set.remove`, which fails for an absent element: the task has to be covered. */
    method RemoveCoveredTask(tid: Node)
      requires tid in covered
      modifies this`covered
      ensures covered == old(covered) - {tid}
    {
      covered := covered - {tid};
    }

    /** The invalid tasks are uncovered, and with them, layer by layer, the covered tasks they need. */
    method RemoveInvalid(initial: set<Node>, invalid: seq<Node>)
      requires Valid() && Distinct(invalid) && forall t :: t in invalid ==> t in covered
      modifies this`covered
      ensures Valid() && RemovedFrom(depends, initial, old(covered), Elements(invalid), covered)
    {
      hide Closed, Inverse, Distinct, Elements, Pending, RemovedFrom, ClosedDown;
      ghost var c0 := covered;
      var toremove := invalid;
      PendingStart(depends, c0, initial, invalid);
      while toremove != []
        invariant covered <= depends.Keys
        invariant Distinct(toremove) &&
          Pending(depends, c0, initial, Elements(invalid), covered, Elements(toremove), {})
        decreases covered, |toremove|
      {
        ghost var before := covered;
        var coveredRemove: seq<Node> := [];
        var i := 0;
        LayerStarts(toremove);
        while i < |toremove|
          invariant 0 <= i <= |toremove| && covered <= before && (i > 0 ==> covered < before)
          invariant before <= depends.Keys
          invariant Distinct(toremove) && Distinct(coveredRemove)
          invariant forall k :: 0 <= k < i ==> toremove[k] !in covered
          invariant Pending(depends, c0, initial, Elements(invalid), covered, Elements(toremove[i..]),
            Elements(coveredRemove))
        {
          var task := toremove[i];
          RestFirst(depends, c0, initial, Elements(invalid), covered, toremove, i, Elements(coveredRemove));
          RemoveCoveredTask(task);
          i := i + 1;
          ghost var now := covered;
          var deps := depends[task];
          while deps != {}
            invariant deps <= depends[task] && covered == now
            invariant Distinct(coveredRemove)
            invariant PendingBut(depends, c0, initial, Elements(invalid), covered, Elements(toremove[i..]),
                                 Elements(coveredRemove), task, deps)
            decreases deps
          {
            var deptask :| deptask in deps;
            deps := deps - {deptask};
            RestMember(toremove, i, covered, deptask);
            PendingDep(depends, c0, initial, Elements(invalid), covered, toremove, i, coveredRemove, task, deps,
              deptask);
            hide PendingBut;
            if deptask !in covered {
              continue;
            }
            if deptask in toremove || deptask in coveredRemove || deptask in initial {
              continue;
            }
            coveredRemove := coveredRemove + [deptask];
          }
          PendingTaskDone(depends, c0, initial, Elements(invalid), covered, Elements(toremove[i..]),
            Elements(coveredRemove), task);
        }
        LayerEnds(depends, c0, initial, Elements(invalid), covered, toremove, i, coveredRemove);
        toremove := coveredRemove;
      }
      PendingEnd(depends, c0, initial, Elements(invalid), covered, toremove);
    }

    /** Both stages together.  `named` are the tasks that the metadata's hook names as invalid, in which
        only covered ones count. */
    method Compute(named: set<Node>)
      requires Valid()
      modifies this`covered
      ensures Valid() && SkipSet(depends, old(covered), notcovered, named, covered)
      ensures forall t, d :: t in depends && t !in covered && d in depends[t] ==> d !in covered || d in old(covered)
    {
      var initial := covered;
      Cover();
      ghost var full := covered;
      var invalid := Listed(named * covered);
      RemoveInvalid(initial, invalid);
      assert Elements(invalid) == named * full;
      hide CoveredFrom, RemovedFrom, Closed, Inverse;
      forall t, d | t in depends && t !in covered && d in depends[t] ensures d !in covered || d in initial {
        SkipSafety(depends, initial, notcovered, full, Elements(invalid), covered, t, d);
      }
    }
  }

  /** The given tasks in some order. */
  method Listed(s: set<Node>) returns (list: seq<Node>)
    ensures Distinct(list) && forall t :: t in list <==> t in s
  {
    list := [];
    var rest := s;
    while rest != {}
      invariant rest <= s && Distinct(list) && forall t :: t in list <==> t in s && t !in rest
    {
      var t :| t in rest;
      list := list + [t];
      rest := rest - {t};
    }
  }

  ghost function Elements(s: seq<Node>): set<Node> {
    set t | t in s
  }

  /** `c0 - covered` is gone, `rest` and `next` are about to go, and nothing else has to. */
  ghost predicate Pending(g: Graph, c0: set<Node>, initial: set<Node>, invalid: set<Node>, covered: set<Node>,
                          rest: set<Node>, next: set<Node>)
  {
    PendingBut(g, c0, initial, invalid, covered, rest, next, "", {})
  }

  /** The same, while the dependencies `deps` of the removed task `task` still have to be looked at. */
  ghost predicate PendingBut(g: Graph, c0: set<Node>, initial: set<Node>, invalid: set<Node>, covered: set<Node>,
                             rest: set<Node>, next: set<Node>, task: Node, deps: set<Node>)
  {
    && covered <= c0
    && rest <= covered
    && next <= covered
    && rest !! next
    && invalid <= (c0 - covered) + rest + next
    && (forall t, d :: t in c0 && t !in covered && t in g && d in g[t] && d in c0 && d !in initial &&
                       !(t == task && d in deps) ==>
          d in (c0 - covered) + rest + next)
    && (forall t :: t in (c0 - covered) + rest + next ==> Forced(c0, initial, invalid, g, t))
  }

  /** `t` is in every closed set that contains the invalid tasks. */
  ghost predicate Forced(c0: set<Node>, initial: set<Node>, invalid: set<Node>, g: Graph, t: Node) {
    forall s :: invalid <= s && ClosedDown(g, c0, initial, s) ==> t in s
  }

  lemma ForcedDep(c0: set<Node>, initial: set<Node>, invalid: set<Node>, g: Graph, t: Node, d: Node)
    requires Forced(c0, initial, invalid, g, t) && t in g && d in g[t] && d in c0 && d !in initial
    ensures Forced(c0, initial, invalid, g, d)
  {
    forall s | invalid <= s && ClosedDown(g, c0, initial, s) ensures d in s {
      assert t in s;
    }
  }


  lemma PendingStart(g: Graph, c0: set<Node>, initial: set<Node>, invalid: seq<Node>)
    requires forall t :: t in invalid ==> t in c0
    ensures Pending(g, c0, initial, Elements(invalid), c0, Elements(invalid), {})
  {
    assert Elements(invalid) <= c0;
  }

  lemma LayerStarts(toremove: seq<Node>)
    ensures toremove[0..] == toremove && Elements([]) == {} && Distinct([])
  {
  }

  /** The next task of the layer is still covered; dropping it leaves its dependencies to be looked at. */
  lemma RestFirst(g: Graph, c0: set<Node>, initial: set<Node>, invalid: set<Node>, covered: set<Node>,
                  toremove: seq<Node>, i: nat, next: set<Node>)
    requires i < |toremove| && Distinct(toremove)
    requires Pending(g, c0, initial, invalid, covered, Elements(toremove[i..]), next)
    ensures toremove[i] in covered
    ensures toremove[i] in g ==>
              PendingBut(g, c0, initial, invalid, covered - {toremove[i]}, Elements(toremove[i + 1..]), next,
                toremove[i], g[toremove[i]])
  {
    var task, rest := toremove[i], Elements(toremove[i + 1..]);
    assert toremove[i..] == [task] + toremove[i + 1..];
    assert Elements(toremove[i..]) == rest + {task};
    assert task !in rest;
    hide Distinct, Elements;
    if task in g {
      DropOne(g, c0, initial, invalid, covered, rest, next, task);
    }
  }

  lemma DropOne(g: Graph, c0: set<Node>, initial: set<Node>, invalid: set<Node>, covered: set<Node>,
                rest: set<Node>, next: set<Node>, task: Node)
    requires task in g && task !in rest
    requires Pending(g, c0, initial, invalid, covered, rest + {task}, next)
    ensures PendingBut(g, c0, initial, invalid, covered - {task}, rest, next, task, g[task])
  {
    assert (c0 - (covered - {task})) + rest + next == (c0 - covered) + (rest + {task}) + next;
    hide Forced;
  }

  lemma RestMember(toremove: seq<Node>, i: nat, covered: set<Node>, d: Node)
    requires i <= |toremove| && forall k :: 0 <= k < i ==> toremove[k] !in covered
    ensures d in covered ==> (d in toremove <==> d in Elements(toremove[i..]))
  {
    if d in covered && d in toremove {
      var k :| 0 <= k < |toremove| && toremove[k] == d;
      assert toremove[i..][k - i] == d;
    }
  }

  lemma PendingDep(g: Graph, c0: set<Node>, initial: set<Node>, invalid: set<Node>, covered: set<Node>,
                   toremove: seq<Node>, i: nat, next: seq<Node>, task: Node, deps: set<Node>, d: Node)
    requires i <= |toremove| && Distinct(next) && task in g && d in g[task] && task !in covered && task in c0
    requires PendingBut(g, c0, initial, invalid, covered, Elements(toremove[i..]), Elements(next), task, deps + {d})
    ensures var rest := Elements(toremove[i..]);
            if d !in covered || d in rest || d in next || d in initial
            then PendingBut(g, c0, initial, invalid, covered, rest, Elements(next), task, deps)
            else Distinct(next + [d]) &&
                 PendingBut(g, c0, initial, invalid, covered, rest, Elements(next + [d]), task, deps)
  {
    var rest := Elements(toremove[i..]);
    assert d in next <==> d in Elements(next);
    assert Elements(next + [d]) == Elements(next) + {d};
    if d in covered && d !in rest && d !in next && d !in initial {
      assert Distinct(next + [d]);
      hide Elements, Distinct;
      NextGrows(g, c0, initial, invalid, covered, rest, Elements(next), task, deps, d);
    } else {
      hide Elements, Distinct, Forced;
    }
  }

  lemma NextGrows(g: Graph, c0: set<Node>, initial: set<Node>, invalid: set<Node>, covered: set<Node>,
                  rest: set<Node>, next: set<Node>, task: Node, deps: set<Node>, d: Node)
    requires task in g && d in g[task] && task !in covered && task in c0
    requires d in covered && d !in rest && d !in next && d !in initial
    requires PendingBut(g, c0, initial, invalid, covered, rest, next, task, deps + {d})
    ensures PendingBut(g, c0, initial, invalid, covered, rest, next + {d}, task, deps)
  {
    ForcedDep(c0, initial, invalid, g, task, d);
    hide Forced;
  }

  lemma PendingTaskDone(g: Graph, c0: set<Node>, initial: set<Node>, invalid: set<Node>, covered: set<Node>,
                        rest: set<Node>, next: set<Node>, task: Node)
    ensures PendingBut(g, c0, initial, invalid, covered, rest, next, task, {}) ==>
              Pending(g, c0, initial, invalid, covered, rest, next)
  {
    hide Forced;
  }

  lemma LayerEnds(g: Graph, c0: set<Node>, initial: set<Node>, invalid: set<Node>, covered: set<Node>,
                  toremove: seq<Node>, i: nat, next: seq<Node>)
    requires i == |toremove|
    requires Pending(g, c0, initial, invalid, covered, Elements(toremove[i..]), Elements(next))
    ensures Pending(g, c0, initial, invalid, covered, Elements(next), {})
  {
    assert Elements(toremove[i..]) == {};
    hide Forced, Elements;
  }

  lemma PendingEnd(g: Graph, c0: set<Node>, initial: set<Node>, invalid: set<Node>, covered: set<Node>,
                   toremove: seq<Node>)
    requires toremove == [] && Pending(g, c0, initial, invalid, covered, Elements(toremove), {})
    ensures RemovedFrom(g, initial, c0, invalid, covered)
  {
    assert Elements(toremove) == {};
  }

  ghost predicate SoFar(g: Graph, initial: set<Node>, covered: set<Node>) {
    && initial <= covered <= g.Keys
    && (forall t :: t in covered && t !in initial ==> Supported(g, covered, t))
    && forall s :: initial <= s && ClosedUp(g, s) ==> covered <= s
  }

  ghost predicate Finished(g: Graph, notcovered: set<Node>, covered: set<Node>, todo: set<Node>) {
    forall t :: t in g && t !in todo && Supported(g, covered, t) ==> t in covered || t in notcovered
  }

  lemma SoFarStart(g: Graph, initial: set<Node>)
    requires initial <= g.Keys
    ensures SoFar(g, initial, initial)
  {
  }

  lemma SoFarGrows(g: Graph, initial: set<Node>, covered: set<Node>, t: Node)
    requires SoFar(g, initial, covered) && t in g
    ensures Supported(g, covered, t) ==> SoFar(g, initial, covered + {t})
  {
    if Supported(g, covered, t) {
      forall s | initial <= s && ClosedUp(g, s) ensures covered + {t} <= s {
        assert Supported(g, s, t);
      }
      forall u | u in covered + {t} && u !in initial ensures Supported(g, covered + {t}, u) {
        assert Supported(g, covered, u);
      }
    }
  }

  lemma FinishedStart(g: Graph, notcovered: set<Node>, covered: set<Node>)
    ensures Finished(g, notcovered, covered, g.Keys)
  {
  }

  lemma FinishedOneMore(g: Graph, notcovered: set<Node>, covered: set<Node>, todo: set<Node>, t: Node)
    requires t in g
    ensures Finished(g, notcovered, covered, todo) && (t in covered || t in notcovered || !Supported(g, covered, t)) ==>
              Finished(g, notcovered, covered, todo - {t})
  {
  }

  lemma OnePassGrows(g: Graph, initial: set<Node>, order: seq<Node>, t: Node)
    ensures OnePass(g, initial, []) == initial
    ensures OnePass(g, initial, order + [t]) ==
      OnePass(g, initial, order) + if Supported(g, OnePass(g, initial, order), t) then {t} else {}
  {
    assert (order + [t])[..|order|] == order;
  }

  /** The pass has come to all tasks but `todo`. */
  ghost predicate Passed(g: Graph, order: seq<Node>, todo: set<Node>) {
    Distinct(order) && forall t :: t in order <==> t in g && t !in todo
  }

  lemma NonePassed(g: Graph)
    ensures Passed(g, [], g.Keys)
  {
  }

  lemma PassedMore(g: Graph, order: seq<Node>, todo: set<Node>, t: Node)
    requires Passed(g, order, todo) && t in todo && t in g
    ensures Passed(g, order + [t], todo - {t})
  {
  }

  lemma AllPassed(g: Graph, initial: set<Node>, order: seq<Node>)
    requires Passed(g, order, {})
    ensures forall t :: t in g && Supported(g, initial, t) ==> t in OnePass(g, initial, order)
  {
    hide Supported, OnePass;
    forall t | t in g && Supported(g, initial, t) ensures t in OnePass(g, initial, order) {
      OnePassCovers(g, initial, order, t);
    }
  }

  lemma FirstPassBy(g: Graph, initial: set<Node>, order: seq<Node>)
    requires Passed(g, order, {})
    ensures FirstPass(g, initial, OnePass(g, initial, order))
  {
    assert Enumerates(g, order);
  }

  lemma LeastFromStart(g: Graph, notcovered: set<Node>, first: set<Node>)
    ensures LeastFrom(g, first, notcovered, first)
  {
  }

  lemma LeastFromGrows(g: Graph, first: set<Node>, notcovered: set<Node>, covered: set<Node>, t: Node)
    requires LeastFrom(g, first, notcovered, covered) && t in g && t !in notcovered
    ensures Supported(g, covered, t) ==> LeastFrom(g, first, notcovered, covered + {t})
  {
    if Supported(g, covered, t) {
      forall s | first <= s && ClosedBut(g, notcovered, s) ensures covered + {t} <= s {
        assert Supported(g, s, t);
      }
    }
  }

  lemma CoveredEnd(g: Graph, initial: set<Node>, notcovered: set<Node>, covered: set<Node>, first: set<Node>)
    requires FirstPass(g, initial, first) && LeastFrom(g, first, notcovered, covered)
    requires SoFar(g, initial, covered) && Finished(g, notcovered, covered, {})
    ensures CoveredFrom(g, initial, notcovered, covered)
  {
  }

  lemma DependentsAre(g: Graph, revdeps: Graph, t: Node)
    requires revdeps == Inverse(g) && t in g
    ensures t in revdeps && revdeps[t] == Dependents(g, t)
    ensures forall c :: (|revdeps[t]| > 0 && revdeps[t] <= c) <==> Supported(g, c, t)
  {
  }
}
