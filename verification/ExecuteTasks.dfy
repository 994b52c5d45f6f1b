/** The executor of real tasks: which facts every step keeps, whatever the workers answer. */
module ExecuteTasks {
  import opened Graphs
  import opened TaskWeights
  import opened Schedulers
  import opened Wrappers
  import opened RunQueuePrepare

  datatype State = Running | CleanUp | Failed | Complete

  datatype Stats = Stats(completed: int, skipped: int, failed: int, active: int, total: int) {
    function TaskFailed(): Stats {
      this.(active := active - 1, failed := failed + 1)
    }

    function TaskCompleted(): Stats {
      this.(active := active - 1, completed := completed + 1)
    }

    function TaskSkipped(): Stats {
      this.(active := active + 1, skipped := skipped + 1)
    }

    function TaskActive(): Stats {
      this.(active := active + 1)
    }
  }

  // ---- The history of a run ---------------------------------------------------------------------

  datatype Event = Started(tid: Node) | Completed(tid: Node) | TaskFailed(tid: Node)

  /** What the executor promises about every run: a task starts at most once and only when everything
      it depends on has completed; it ends at most once, and only after it started. */
  ghost predicate SafeHistory(g: Graph, h: seq<Event>) {
    forall i :: 0 <= i < |h| ==> SafeEvent(g, h[..i], h[i])
  }

  ghost predicate SafeEvent(g: Graph, before: seq<Event>, e: Event) {
    && e.tid in g
    && match e
       case Started(t) => Started(t) !in before && forall d :: d in g[t] ==> Completed(d) in before
       case Completed(t) => Started(t) in before && Completed(t) !in before && TaskFailed(t) !in before
       case TaskFailed(t) => Started(t) in before && Completed(t) !in before && TaskFailed(t) !in before
  }

  lemma HistoryGrows(g: Graph, h: seq<Event>, e: Event)
    requires SafeHistory(g, h) && SafeEvent(g, h, e)
    ensures SafeHistory(g, h + [e])
  {
    var h' := h + [e];
    forall i | 0 <= i < |h'| ensures SafeEvent(g, h'[..i], h'[i]) {
      if i < |h| {
        assert h'[..i] == h[..i] && h'[i] == h[i];
      } else {
        assert h'[..i] == h;
      }
    }
  }

  /** When a task starts, everything it transitively depends on has completed. */
  lemma StartsAfterAllDependencies(g: Graph, h: seq<Event>, i: nat, d: Node)
    requires SafeHistory(g, h) && i < |h| && h[i].Started? && Reaches(g, h[i].tid, d)
    ensures Completed(d) in h[..i]
  {
    var p :| PathBetween(g, p, h[i].tid, d);
    CompletedAlong(g, h, i, p);
  }

  lemma {:induction false} CompletedAlong(g: Graph, h: seq<Event>, i: nat, p: seq<Node>)
    requires SafeHistory(g, h) && IsPath(g, p) && |p| >= 2 && i < |h| && h[i] == Started(p[0])
    ensures Completed(p[|p| - 1]) in h[..i]
    decreases |p|
  {
    assert SafeEvent(g, h[..i], h[i]);
    assert p[1] in g[p[0]];
    if |p| > 2 {
      var j := IndexOfEvent(h[..i], Completed(p[1]));
      assert SafeEvent(g, h[..j], h[j]) && h[j] == Completed(p[1]);
      var k := IndexOfEvent(h[..j], Started(p[1]));
      assert h[k] == Started(p[1]);
      CompletedAlong(g, h, k, p[1..]);
      var m := IndexOfEvent(h[..k], Completed(p[|p| - 1]));
      assert h[..i][m] == h[m] == h[..k][m];
    }
  }

  lemma IndexOfEvent(h: seq<Event>, e: Event) returns (i: nat)
    requires e in h
    ensures i < |h| && h[i] == e
  {
    i :| 0 <= i < |h| && h[i] == e;
  }

  /** In no safe history does anything start that transitively depends on a failed task. */
  lemma DependentsOfFailedNeverStart(g: Graph, h: seq<Event>, f: Node, t: Node)
    requires SafeHistory(g, h) && TaskFailed(f) in h && Reaches(g, t, f)
    ensures Started(t) !in h
  {
    NotBoth(g, h, f);
    forall i | 0 <= i < |h| && h[i] == Started(t) ensures false {
      assert forall k :: 0 <= k < i ==> h[..i][k] == h[k];
      assert Completed(f) !in h[..i];
      StartsAfterAllDependencies(g, h, i, f);
    }
  }

  lemma NotBoth(g: Graph, h: seq<Event>, t: Node)
    requires SafeHistory(g, h)
    ensures !(Completed(t) in h && TaskFailed(t) in h)
  {
    if Completed(t) in h && TaskFailed(t) in h {
      var c := IndexOfEvent(h, Completed(t));
      var x := IndexOfEvent(h, TaskFailed(t));
      EndsOnce(g, h, c, x);
    }
  }

  lemma EndsOnce(g: Graph, h: seq<Event>, c: nat, x: nat)
    requires SafeHistory(g, h) && c < |h| && x < |h| && h[c].Completed? && h[x].TaskFailed?
    ensures h[c].tid != h[x].tid
  {
    assert SafeEvent(g, h[..c], h[c]) && SafeEvent(g, h[..x], h[x]);
    assert x < c ==> h[..c][x] == h[x];
    assert c < x ==> h[..x][c] == h[c];
  }

  // ---- The invariant, part by part --------------------------------------------------------------

  /** A task is buildable exactly when all its dependencies are complete. */
  ghost predicate Ready(g: Graph, buildable: set<Node>, complete: set<Node>) {
    buildable <= g.Keys && forall n :: n in g ==> (n in buildable <==> g[n] <= complete)
  }

  /** The scheduler's list holds every task that could start now. */
  ghost predicate Queued(list: seq<Node>, buildable: set<Node>, running: set<Node>) {
    && (forall t :: t in list ==> t in buildable)
    && forall t :: t in buildable && t !in running ==> t in list
  }

  /** Every started task is complete, failed, on a worker, or in the hands of the current step. */
  ghost predicate Split(running: set<Node>, complete: set<Node>, failed: seq<Node>, workers: set<Node>,
                        hand: set<Node>)
  {
    && Distinct(failed)
    && running == complete + Failures(failed) + workers + hand
    && complete !! Failures(failed) !! workers !! hand
  }

  ghost function Failures(failed: seq<Node>): set<Node> {
    set t | t in failed
  }

  /** Dispatching adds a task to its own live dependencies; nothing else ever changes them. */
  ghost predicate Live(g: Graph, live: Graph, running: set<Node>) {
    && live.Keys == g.Keys
    && forall n :: n in g ==> g[n] <= live[n] <= g[n] + {n} && (n !in running ==> live[n] == g[n])
  }

  /** No two tasks on workers share a stamp. */
  ghost predicate Stamped(stamps: map<Node, string>, buildStamps: map<Node, string>, buildStamps2: seq<string>) {
    && (forall t :: t in buildStamps ==> t in stamps && buildStamps[t] == stamps[t])
    && (forall t, u :: t in buildStamps && u in buildStamps && buildStamps[t] == buildStamps[u] ==> t == u)
    && Distinct(buildStamps2)
    && (forall s :: s in buildStamps2 <==> s in buildStamps.Values)
  }

  ghost predicate Counted(stats: Stats, complete: set<Node>, failed: seq<Node>, workers: set<Node>, numberTasks: int) {
    && stats.completed == |complete|
    && stats.failed == |failed|
    && stats.active == |workers| <= numberTasks
    && 0 <= stats.skipped <= stats.completed
  }

  /** The state is what the history says. */
  ghost predicate Logged(g: Graph, h: seq<Event>, running: set<Node>, complete: set<Node>, failed: seq<Node>) {
    && SafeHistory(g, h)
    && (forall t :: t in running <==> Started(t) in h)
    && (forall t :: t in complete <==> Completed(t) in h)
    && (forall t :: t in failed <==> TaskFailed(t) in h)
  }

  /** Exactly the started tasks that need a worker have been handed to one, each once; `idle` are those that
      need none.  Workers are busy with, and failures come from, such tasks only. */
  ghost predicate Handed(handed: seq<Node>, running: set<Node>, workers: set<Node>, failed: seq<Node>,
                         idle: set<Node>)
  {
    && Distinct(handed)
    && (forall t :: t in handed <==> t in running && t !in idle)
    && (forall t :: t in workers ==> t in handed)
    && (forall t :: t in failed ==> t in handed)
  }

  /** The same in terms of the history; what has been started without a worker has completed. */
  ghost predicate HandedOnce(handed: seq<Node>, h: seq<Event>, idle: set<Node>) {
    && Distinct(handed)
    && (forall t :: t in handed <==> Started(t) in h && t !in idle)
    && (forall t :: TaskFailed(t) in h ==> t in handed)
    && (forall t :: Started(t) in h && t !in handed ==> Completed(t) in h)
  }

  lemma HandedReports(handed: seq<Node>, running: set<Node>, workers: set<Node>, failed: seq<Node>,
                      idle: set<Node>, t: Node)
    requires Handed(handed, running, workers, failed, idle) && t in workers
    ensures Handed(handed, running, workers - {t}, failed, idle)
    ensures Handed(handed, running, workers - {t}, failed + [t], idle)
  {
    hide Distinct;
  }

  lemma HandedStarts(handed: seq<Node>, running: set<Node>, workers: set<Node>, failed: seq<Node>,
                     idle: set<Node>, t: Node)
    requires Handed(handed, running, workers, failed, idle) && t !in running
    ensures t in idle ==> Handed(handed, running + {t}, workers, failed, idle)
    ensures t !in idle ==> Handed(handed + [t], running + {t}, workers + {t}, failed, idle)
  {
  }

  lemma CompletedStarted(g: Graph, h: seq<Event>, t: Node)
    requires SafeHistory(g, h) && Completed(t) in h
    ensures Started(t) in h
  {
    var i := IndexOfEvent(h, Completed(t));
    assert SafeEvent(g, h[..i], h[i]);
  }

  /** As many of the started tasks count as skipped as need not run at all. */
  ghost predicate Skipping(stats: Stats, running: set<Node>, skips: set<Node>) {
    stats.skipped == |running * skips|
  }

  lemma SkippingStarts(stats: Stats, running: set<Node>, skips: set<Node>, t: Node)
    requires Skipping(stats, running, skips) && t !in running
    ensures t in skips ==> Skipping(stats.TaskCompleted().TaskSkipped(), running + {t}, skips)
    ensures t !in skips ==> Skipping(stats.TaskActive().TaskCompleted(), running + {t}, skips)
    ensures t !in skips ==> Skipping(stats.TaskActive(), running + {t}, skips)
  {
    if t in skips {
      assert (running + {t}) * skips == running * skips + {t};
    } else {
      assert (running + {t}) * skips == running * skips;
    }
  }

  /** The tasks a failure leaves out: those that failed and those that depend on one that did. */
  ghost predicate Blocked(g: Graph, failed: seq<Node>, t: Node) {
    t in failed || exists f :: f in failed && Reaches(g, t, f)
  }

  /** With nothing on workers and nothing buildable left to start, exactly the tasks are complete that
      neither failed nor depend on a failed task. */
  lemma QuiescentIsComplete(g: Graph, h: seq<Event>, buildable: set<Node>, running: set<Node>, complete: set<Node>,
                            failed: seq<Node>, t: Node)
    requires Closed(g) && Acyclic(g)
    requires Ready(g, buildable, complete) && Split(running, complete, failed, {}, {}) && running <= g.Keys
    requires Logged(g, h, running, complete, failed)
    requires buildable <= running
    requires t in g
    ensures t in complete <==> !Blocked(g, failed, t)
  {
    if t in complete {
      CompleteIsUnblocked(g, h, running, complete, failed, t);
    } else if !Blocked(g, failed, t) {
      var open := set n | n in g && n !in complete && !Blocked(g, failed, n);
      var m := LowestIn(g, open);
      forall d | d in g[m] ensures d in complete {
        if Blocked(g, failed, d) {
          BlockedAbove(g, failed, m, d);
        }
        assert d !in open;
      }
      assert false;
    }
  }

  lemma CompleteIsUnblocked(g: Graph, h: seq<Event>, running: set<Node>, complete: set<Node>, failed: seq<Node>,
                            t: Node)
    requires Split(running, complete, failed, {}, {}) && Logged(g, h, running, complete, failed) && t in complete
    ensures !Blocked(g, failed, t)
  {
    assert t in running;
    forall f | f in failed && Reaches(g, t, f) ensures false {
      DependentsOfFailedNeverStart(g, h, f, t);
    }
    assert t !in Failures(failed);
  }

  lemma BlockedAbove(g: Graph, failed: seq<Node>, n: Node, d: Node)
    requires Closed(g) && n in g && d in g[n] && Blocked(g, failed, d)
    ensures Blocked(g, failed, n)
  {
    EdgeReaches(g, n, d);
    if d !in failed {
      var f :| f in failed && Reaches(g, d, f);
      EdgeThenReaches(g, n, d, f);
    }
  }

  // ---- How the parts move -----------------------------------------------------------------------

  lemma StartLogged(g: Graph, h: seq<Event>, buildable: set<Node>, running: set<Node>, complete: set<Node>,
                    failed: seq<Node>, t: Node)
    requires Ready(g, buildable, complete) && Logged(g, h, running, complete, failed)
    requires t in buildable && t !in running
    ensures Logged(g, h + [Started(t)], running + {t}, complete, failed)
  {
    assert SafeEvent(g, h, Started(t));
    HistoryGrows(g, h, Started(t));
  }

  lemma CompleteLogged(g: Graph, h: seq<Event>, running: set<Node>, complete: set<Node>, failed: seq<Node>, t: Node)
    requires Logged(g, h, running, complete, failed) && t in g
    requires t in running && t !in complete && t !in failed
    ensures Logged(g, h + [Completed(t)], running, complete + {t}, failed)
  {
    assert SafeEvent(g, h, Completed(t));
    HistoryGrows(g, h, Completed(t));
  }

  lemma FailLogged(g: Graph, h: seq<Event>, running: set<Node>, complete: set<Node>, failed: seq<Node>, t: Node)
    requires Logged(g, h, running, complete, failed) && t in g
    requires t in running && t !in complete && t !in failed
    ensures Logged(g, h + [TaskFailed(t)], running, complete, failed + [t])
  {
    assert SafeEvent(g, h, TaskFailed(t));
    HistoryGrows(g, h, TaskFailed(t));
  }

  lemma FailSplit(running: set<Node>, complete: set<Node>, failed: seq<Node>, workers: set<Node>, t: Node)
    requires Split(running, complete, failed, workers, {t})
    ensures Split(running, complete, failed + [t], workers, {})
  {
    assert Failures(failed + [t]) == Failures(failed) + {t};
    assert t !in Failures(failed);
  }

  lemma HandOver(running: set<Node>, complete: set<Node>, failed: seq<Node>, workers: set<Node>, t: Node)
    requires t in workers
    ensures Split(running, complete, failed, workers, {}) <==> Split(running, complete, failed, workers - {t}, {t})
  {
    hide Distinct;
    assert (workers - {t}) + {t} == workers;
  }

  lemma SplitMember(running: set<Node>, complete: set<Node>, failed: seq<Node>, workers: set<Node>, t: Node)
    requires Split(running, complete, failed, workers, {t})
    ensures t in running && t !in complete && t !in failed && t !in workers
  {
    assert t !in Failures(failed);
  }

  /** A worker that ends gives its stamp back. */
  lemma StampReturned(stamps: map<Node, string>, buildStamps: map<Node, string>, buildStamps2: seq<string>, t: Node,
                      k: nat)
    requires Stamped(stamps, buildStamps, buildStamps2) && t in buildStamps
    requires k < |buildStamps2| && buildStamps2[k] == buildStamps[t]
    ensures Stamped(stamps, buildStamps - {t}, buildStamps2[..k] + buildStamps2[k + 1..])
  {
    var left, list := buildStamps - {t}, buildStamps2[..k] + buildStamps2[k + 1..];
    forall s ensures s in list <==> s in left.Values {
      if s in list {
        assert s in buildStamps2 && s != buildStamps[t];
        var u :| u in buildStamps && buildStamps[u] == s;
        assert u in left && left[u] == s;
      }
      if s in left.Values {
        var u :| u in left && left[u] == s;
        assert s in buildStamps.Values && s != buildStamps[t];
        var i :| 0 <= i < |buildStamps2| && buildStamps2[i] == s;
        assert list[if i < k then i else i - 1] == s;
      }
    }
  }

  lemma StampTaken(stamps: map<Node, string>, buildStamps: map<Node, string>, buildStamps2: seq<string>, t: Node)
    requires Stamped(stamps, buildStamps, buildStamps2) && t in stamps && t !in buildStamps
    requires stamps[t] !in buildStamps.Values
    ensures Stamped(stamps, buildStamps[t := stamps[t]], buildStamps2 + [stamps[t]])
  {
    var more := buildStamps[t := stamps[t]];
    assert more[t] in more.Values;
    forall s | s in buildStamps.Values ensures s in more.Values {
      var u :| u in buildStamps && buildStamps[u] == s;
      assert more[u] == s;
    }
  }

  // ---- Completing one task ----------------------------------------------------------------------

  /** `Ready` while the dependents in `todo` still wait for their check. */
  ghost predicate ReadyBut(g: Graph, buildable: set<Node>, complete: set<Node>, todo: set<Node>) {
    && buildable <= g.Keys
    && (forall n :: n in buildable ==> n in g && g[n] <= complete)
    && forall n :: n in g && g[n] <= complete && n !in todo ==> n in buildable
  }

  lemma CompletionOpens(g: Graph, buildable: set<Node>, complete: set<Node>, t: Node)
    requires Ready(g, buildable, complete)
    ensures ReadyBut(g, buildable, complete + {t}, Dependents(g, t))
  {
    forall n | n in g && g[n] <= complete + {t} && n !in Dependents(g, t) ensures n in buildable {
      assert t !in g[n];
      assert g[n] <= complete;
    }
  }

  lemma DependentChecked(g: Graph, buildable: set<Node>, complete: set<Node>, todo: set<Node>, r: Node)
    requires ReadyBut(g, buildable, complete, todo) && r in g
    ensures r in buildable || !(g[r] <= complete) ==> ReadyBut(g, buildable, complete, todo - {r})
    ensures g[r] <= complete ==> ReadyBut(g, buildable + {r}, complete, todo - {r})
  {
  }

  lemma AllChecked(g: Graph, buildable: set<Node>, complete: set<Node>)
    requires ReadyBut(g, buildable, complete, {})
    ensures Ready(g, buildable, complete)
  {
  }

  /** The number of tasks started after the first failure. */
  ghost function LateStarts(h: seq<Event>): nat {
    if h == [] then 0
    else
      var k := |h| - 1;
      LateStarts(h[..k]) + (if h[k].Started? && FailureIn(h[..k]) then 1 else 0)
  }

  ghost predicate FailureIn(h: seq<Event>) {
    exists t :: TaskFailed(t) in h
  }

  lemma {:induction false} NoFailureNoLateStart(h: seq<Event>)
    requires !FailureIn(h)
    ensures LateStarts(h) == 0
  {
    if h != [] {
      var k := |h| - 1;
      assert h == h[..k] + [h[k]];
      assert forall t :: TaskFailed(t) in h[..k] ==> TaskFailed(t) in h;
      NoFailureNoLateStart(h[..k]);
    }
  }

  lemma LateStartsAppend(h: seq<Event>, e: Event)
    ensures LateStarts(h + [e]) <= LateStarts(h) + 1
    ensures !e.Started? ==> LateStarts(h + [e]) == LateStarts(h)
  {
    assert (h + [e])[..|h|] == h;
  }

  lemma BooksStart(g: Graph, buildable: set<Node>, stamps: map<Node, string>, none: map<Node, string>,
                   stats: Stats, numberTasks: int)
    requires buildable == (set t | t in g && |g[t]| == 0) && none == map[]
    requires stats == Stats(0, 0, 0, 0, |g|) && numberTasks >= 1
    ensures Ready(g, buildable, {}) && Split({}, {}, [], none.Keys, {}) && Live(g, g, {})
    ensures Stamped(stamps, none, []) && Logged(g, [], {}, {}, [])
    ensures Counted(stats, {}, [], none.Keys, numberTasks)
  {
    assert Failures([]) == {} && none.Keys == {};
  }

  lemma WeightsKnown(g: Graph, weight: map<Node, int>)
    requires Weighted(g, weight)
    ensures forall t :: t in g ==> t in weight
  {
  }

  lemma QueueStart(list: seq<Node>, buildable: set<Node>)
    requires forall t :: t in list <==> t in buildable
    ensures Queued(list, buildable, {})
  {
  }

  lemma NothingStarted(idle: set<Node>, skips: set<Node>, total: int)
    ensures LateStarts([]) == 0
    ensures Handed([], {}, {}, [], idle) && Skipping(Stats(0, 0, 0, 0, total), {}, skips)
  {
    assert {} * skips == {};
  }

  class RunQueueExecuteTasks {
    ghost const prepared: Graph
    const revdeps: Graph
    const numberTasks: int
    const abort: bool
    /** The tasks whose stamps are current when they are looked at, which happens once for each. */
    const current: set<Node>
    const noexec: set<Node>
    const covered: set<Node>
    const sched: RunQueueScheduler
    var depends: Graph
    var runqBuildable: set<Node>
    var runqRunning: set<Node>
    var runqComplete: set<Node>
    var buildStamps: map<Node, string>
    var buildStamps2: seq<string>
    var failedTids: seq<Node>
    var stats: Stats
    var state: State
    ghost var history: seq<Event>
    /** The tasks that have been handed to workers, in order. */
    ghost var handed: seq<Node>

    /** The tasks that need no worker. */
    ghost function Idle(): set<Node> {
      covered + current + noexec
    }

    ghost predicate Configured() {
      Closed(prepared) && Acyclic(prepared) && revdeps == Inverse(prepared) && numberTasks >= 1
    }

    /** Everything but the statistics; `hand` is the task the current step is dealing with. */
    ghost predicate Holds(hand: set<Node>)
      reads `depends, `runqBuildable, `runqRunning, `runqComplete, `buildStamps, `buildStamps2, `failedTids, `history,
        sched
    {
      && sched.Valid()
      && (forall t :: t in sched.prioMap <==> t in prepared)
      && Ready(prepared, runqBuildable, runqComplete)
      && Queued(sched.buildable, runqBuildable, runqRunning)
      && Split(runqRunning, runqComplete, failedTids, buildStamps.Keys, hand)
      && runqRunning <= runqBuildable
      && Live(prepared, depends, runqRunning)
      && Stamped(sched.stamps, buildStamps, buildStamps2)
      && Logged(prepared, history, runqRunning, runqComplete, failedTids)
    }

    ghost predicate Valid()
      reads this, sched
    {
      && Configured()
      && Holds({})
      && Counted(stats, runqComplete, failedTids, buildStamps.Keys, numberTasks)
      && stats.total == |prepared|
      && Handed(handed, runqRunning, buildStamps.Keys, failedTids, Idle())
      && Skipping(stats, runqRunning, covered + current)
      && (abort ==> LateStarts(history) <= 1 && (state.Running? ==> failedTids == []))
    }

    /** Takes over a prepared graph: its reverse dependencies, the weights and the stamps of its tasks. */
    constructor (depends: Graph, revdeps: Graph, weight: map<Node, int>, tasks: seq<Node>, stamps: map<Node, string>,
                 kind: SchedulerKind, numberTasks: int, abort: bool, noexec: set<Node>, covered: set<Node>,
                 current: set<Node>)
      requires Closed(depends) && Acyclic(depends) && revdeps == Inverse(depends) && Weighted(depends, weight)
      requires Distinct(tasks) && (forall t :: t in tasks <==> t in depends)
      requires forall t :: t in depends ==> t in stamps
      requires numberTasks >= 1
      ensures Valid() && fresh(sched) && state == Running && history == [] && handed == []
      ensures prepared == depends == this.depends && this.covered == covered && this.noexec == noexec
      ensures this.current == current
      ensures this.abort == abort && this.numberTasks == numberTasks && sched.stamps == stamps
    {
      hide Closed, Acyclic, Inverse, Weighted, Distinct, SpeedOrder, Grouped, RunQueueScheduler.Valid, Holds;
      hide Ready, Split, Live, Stamped, Logged, Counted, Queued, LateStarts, Handed, Skipping;
      WeightsKnown(depends, weight);
      var buildable := set t | t in depends && |depends[t]| == 0;
      this.prepared, this.depends, this.revdeps := depends, depends, revdeps;
      this.numberTasks, this.abort := numberTasks, abort;
      this.noexec, this.covered, this.current := noexec, covered, current;
      this.sched := new RunQueueScheduler(kind, tasks, weight, stamps, buildable);
      runqBuildable, runqRunning, runqComplete := buildable, {}, {};
      buildStamps, buildStamps2, failedTids := map[], [], [];
      stats := Stats(0, 0, 0, 0, |depends|);
      state := Running;
      history, handed := [], [];
      BooksStart(depends, buildable, stamps, map[], Stats(0, 0, 0, 0, |depends|), numberTasks);
      NothingStarted(covered + current + noexec, covered + current, |depends|);
      new;
      QueueStart(sched.buildable, buildable);
      Assemble({});
    }

    lemma Assemble(hand: set<Node>)
      requires sched.Valid()
      requires forall t :: t in sched.prioMap <==> t in prepared
      requires Ready(prepared, runqBuildable, runqComplete)
      requires Queued(sched.buildable, runqBuildable, runqRunning)
      requires Split(runqRunning, runqComplete, failedTids, buildStamps.Keys, hand)
      requires runqRunning <= runqBuildable
      requires Live(prepared, depends, runqRunning)
      requires Stamped(sched.stamps, buildStamps, buildStamps2)
      requires Logged(prepared, history, runqRunning, runqComplete, failedTids)
      ensures Holds(hand)
    {
      hide Ready, Queued, Split, Live, Stamped, Logged;
    }

    method SetBuildable(task: Node)
      requires sched.Valid() && task in sched.prioMap
      modifies this`runqBuildable, sched`buildable
      ensures sched.Valid() && sched.buildable == old(sched.buildable) + [task]
      ensures runqBuildable == old(runqBuildable) + {task}
    {
      runqBuildable := runqBuildable + {task};
      sched.NewBuildable(task);
    }

    /** Looks at the dependents of a task that has just completed and marks those buildable whose
        dependencies are now all complete. */
    method CheckDependents(dependents: set<Node>)
      requires sched.Valid() && (forall t :: t in sched.prioMap <==> t in prepared) && dependents <= prepared.Keys
      requires ReadyBut(prepared, runqBuildable, runqComplete, dependents)
      requires Queued(sched.buildable, runqBuildable, runqRunning) && runqRunning <= runqBuildable
      requires Live(prepared, depends, runqRunning)
      modifies this`runqBuildable, sched`buildable
      ensures sched.Valid() && Ready(prepared, runqBuildable, runqComplete)
      ensures Queued(sched.buildable, runqBuildable, runqRunning) && runqRunning <= runqBuildable
    {
      hide ReadyBut, Ready, Live, Queued;
      var todo := dependents;
      while todo != {}
        invariant todo <= prepared.Keys
        invariant ReadyBut(prepared, runqBuildable, runqComplete, todo)
        invariant sched.Valid() && Queued(sched.buildable, runqBuildable, runqRunning)
        invariant runqRunning <= runqBuildable
        decreases todo
      {
        var revdep :| revdep in todo;
        DependentChecked(prepared, runqBuildable, runqComplete, todo, revdep);
        LiveAt(prepared, depends, runqRunning, revdep);
        todo := todo - {revdep};
        if revdep in runqRunning {
          continue;
        }
        if revdep in runqBuildable {
          continue;
        }
        if depends[revdep] <= runqComplete {
          QueueGrows(sched.buildable, runqBuildable, runqRunning, revdep);
          SetBuildable(revdep);
        }
      }
      AllChecked(prepared, runqBuildable, runqComplete);
    }

    /** Marks a task complete and every dependent whose dependencies are now complete buildable. */
    method TaskCompleteOutright(task: Node)
      requires Configured() && Holds({task})
      modifies this`runqComplete, this`runqBuildable, this`history, sched`buildable
      ensures Holds({})
      ensures runqComplete == old(runqComplete) + {task} && task !in old(runqComplete)
      ensures history == old(history) + [Completed(task)]
    {
      hide Split, Logged, Stamped, Ready, ReadyBut, Live, Queued, Acyclic, Closed, Inverse, Dependents;
      HandKnown(prepared, runqBuildable, runqRunning, runqComplete, failedTids, buildStamps.Keys, task);
      CompletionKeeps(prepared, history, runqBuildable, runqRunning, runqComplete, failedTids, buildStamps.Keys, task);
      InverseAt(prepared);
      DependentsKnown(prepared, task);
      runqComplete := runqComplete + {task};
      history := history + [Completed(task)];
      CheckDependents(revdeps[task]);
    }

    method TaskComplete(task: Node)
      requires Configured() && Holds({task})
      modifies this`stats, this`runqComplete, this`runqBuildable, this`history, sched`buildable
      ensures Holds({}) && stats == old(stats).TaskCompleted()
      ensures runqComplete == old(runqComplete) + {task} && task !in old(runqComplete)
      ensures history == old(history) + [Completed(task)]
    {
      stats := stats.TaskCompleted();
      hide Holds, Configured;
      TaskCompleteOutright(task);
    }

    method TaskFail(task: Node)
      requires Configured() && Holds({task})
      modifies this`stats, this`failedTids, this`state, this`history
      ensures Holds({}) && stats == old(stats).TaskFailed()
      ensures failedTids == old(failedTids) + [task]
      ensures history == old(history) + [TaskFailed(task)]
      ensures state == if abort then CleanUp else old(state)
    {
      hide Split, Logged, Stamped, Ready, Live, Queued, Configured;
      HandKnown(prepared, runqBuildable, runqRunning, runqComplete, failedTids, buildStamps.Keys, task);
      FailSplit(runqRunning, runqComplete, failedTids, buildStamps.Keys, task);
      FailLogged(prepared, history, runqRunning, runqComplete, failedTids, task);
      stats := stats.TaskFailed();
      failedTids := failedTids + [task];
      history := history + [TaskFailed(task)];
      if abort {
        state := CleanUp;
      }
    }

    /** The stamp of a task that has ended is free again. */
    method ReturnStamp(task: Node)
      requires Holds({}) && task in buildStamps
      modifies this`buildStamps, this`buildStamps2
      ensures Holds({task}) && buildStamps == old(buildStamps) - {task}
      ensures buildStamps.Keys == old(buildStamps.Keys) - {task} && task !in runqComplete
    {
      hide Split, Logged, Stamped, Ready, Live, Queued, RunQueueScheduler.Valid;
      HandOver(runqRunning, runqComplete, failedTids, buildStamps.Keys, task);
      if task in buildStamps {
        StampHeld(sched.stamps, buildStamps, buildStamps2, task);
        var k := IndexOf(buildStamps2, buildStamps[task]);
        StampReturned(sched.stamps, buildStamps, buildStamps2, task, k);
        buildStamps2 := buildStamps2[..k] + buildStamps2[k + 1..];
        buildStamps := buildStamps - {task};
      }
      assert buildStamps.Keys == old(buildStamps.Keys) - {task};
      HandKnown(prepared, runqBuildable, runqRunning, runqComplete, failedTids, buildStamps.Keys, task);
      Assemble({task});
    }

    /** A worker reports how a task ended. */
    method RunqueueProcessWaitpid(task: Node, status: int)
      requires Valid() && task in buildStamps
      modifies this`buildStamps, this`buildStamps2, this`stats, this`failedTids, this`state, this`history,
               this`runqComplete, this`runqBuildable, sched`buildable
      ensures Valid() && buildStamps == old(buildStamps) - {task}
      ensures status == 0 ==>
        runqComplete == old(runqComplete) + {task} && failedTids == old(failedTids) && state == old(state)
      ensures status != 0 ==> failedTids == old(failedTids) + [task] && runqComplete == old(runqComplete)
      ensures status != 0 ==> state == if abort then CleanUp else old(state)
      ensures LateStarts(history) == LateStarts(old(history)) && old(history) <= history
    {
      hide Holds, Counted, Configured, LateStarts, RunQueueScheduler.Valid, Handed;
      HandedReports(handed, runqRunning, buildStamps.Keys, failedTids, Idle(), task);
      CountedEnds(stats, runqComplete, failedTids, buildStamps.Keys, numberTasks, task);
      LateStartsAppend(history, Completed(task));
      LateStartsAppend(history, TaskFailed(task));
      ReturnStamp(task);
      if status != 0 {
        TaskFail(task);
      } else {
        TaskComplete(task);
      }
    }

    /** How far the queue has come: starts and reports move it on, and nothing sets it back. */
    ghost function Work(): int
      reads `runqRunning, `buildStamps
    {
      2 * |runqRunning| - |buildStamps|
    }

    /** Any number of workers report, in any order and with any status; if `prompt`, at least one of the
        busy ones does. */
    method ReadWorkers(prompt: bool)
      requires Valid()
      modifies this`buildStamps, this`buildStamps2, this`stats, this`failedTids, this`state, this`history,
               this`runqComplete, this`runqBuildable, sched`buildable
      ensures Valid()
      ensures state == old(state) || (abort && state == CleanUp && failedTids != [])
      ensures old(failedTids) <= failedTids && old(runqComplete) <= runqComplete
      ensures forall t :: t in buildStamps ==> t in old(buildStamps)
      ensures LateStarts(history) == LateStarts(old(history)) && old(history) <= history
      ensures old(buildStamps) == map[] ==> unchanged(this)
      ensures Work() >= old(Work())
      ensures prompt && old(buildStamps) != map[] ==> Work() > old(Work())
    {
      hide Valid, LateStarts;
      if prompt && buildStamps != map[] {
        var task :| task in buildStamps;
        var status: int := *;
        FewerStamps(buildStamps, task);
        RunqueueProcessWaitpid(task, status);
      }
      while *
        invariant Valid()
        invariant state == old(state) || (abort && state == CleanUp && failedTids != [])
        invariant old(failedTids) <= failedTids && old(runqComplete) <= runqComplete
        invariant forall t :: t in buildStamps ==> t in old(buildStamps)
        invariant LateStarts(history) == LateStarts(old(history)) && old(history) <= history
        invariant old(buildStamps) == map[] ==> unchanged(this)
        invariant Work() >= old(Work()) && (prompt && old(buildStamps) != map[] ==> Work() > old(Work()))
        decreases |buildStamps|
      {
        if buildStamps == map[] {
          break;
        }
        var task :| task in buildStamps;
        var status: int := *;
        FewerStamps(buildStamps, task);
        RunqueueProcessWaitpid(task, status);
      }
    }

    /** `self.runq_running.add(task)` */
    method AddRunning(task: Node)
      requires Configured() && Holds({}) && task in runqBuildable && task !in runqRunning
      modifies this`runqRunning, this`history
      ensures Holds({task}) && task in prepared && task !in runqComplete && task !in failedTids && task !in buildStamps
      ensures runqRunning == old(runqRunning) + {task} && history == old(history) + [Started(task)]
    {
      hide Split, Logged, Stamped, Ready, Live, Queued, Configured;
      StartKeeps(prepared, depends, history, sched.buildable, runqBuildable, runqRunning, runqComplete, failedTids,
                 buildStamps.Keys, task);
      runqRunning := runqRunning + {task};
      history := history + [Started(task)];
      Assemble({task});
    }

    method SetRunningBuildable(task: Node)
      requires Holds({task})
      modifies this`runqBuildable, sched`buildable
      ensures Holds({task}) && runqBuildable == old(runqBuildable)
    {
      hide Split, Logged, Stamped, Ready, Live, Queued, Configured;
      HandKnown(prepared, runqBuildable, runqRunning, runqComplete, failedTids, buildStamps.Keys, task);
      QueueGrows(sched.buildable, runqBuildable, runqRunning, task);
      SetBuildable(task);
      assert runqBuildable == old(runqBuildable);
      Assemble({task});
    }

    method StartOutright(task: Node)
      requires Configured() && Holds({}) && task in runqBuildable && task !in runqRunning
      modifies this`runqRunning, this`runqBuildable, this`runqComplete, this`history, sched`buildable
      ensures Configured() && Holds({}) && task in prepared
      ensures runqRunning == old(runqRunning) + {task}
      ensures runqComplete == old(runqComplete) + {task} && task !in old(runqComplete)
      ensures history == old(history) + [Started(task), Completed(task)]
    {
      hide Holds, Configured;
      AddRunning(task);
      SetRunningBuildable(task);
      TaskCompleteOutright(task);
    }

    /** A task that need not run is started and completed in one go. */
    method TaskSkip(task: Node)
      requires Valid() && task in runqBuildable && task !in runqRunning && task in covered + current
      modifies this`runqRunning, this`runqBuildable, this`runqComplete, this`stats, this`history, sched`buildable
      ensures Valid0(old(state), old(history))
      ensures runqRunning == old(runqRunning) + {task} && runqComplete == old(runqComplete) + {task}
      ensures history == old(history) + [Started(task), Completed(task)]
      ensures stats.skipped == old(stats.skipped) + 1
    {
      hide Holds, Counted, Configured, LateStarts, RunQueueScheduler.Valid, Handed, Skipping, Idle;
      SkipIsIdle(task);
      SkippingStarts(stats, runqRunning, covered + current, task);
      HandedStarts(handed, runqRunning, buildStamps.Keys, failedTids, Idle(), task);
      ghost var complete := runqComplete;
      StartOutright(task);
      CountedSkip(stats, complete, failedTids, buildStamps.Keys, numberTasks, task);
      stats := stats.TaskCompleted();
      stats := stats.TaskSkipped();
      AtOnce(old(history), task);
    }

    /** `Valid` within a step that began in state `s` with history `h`: it may have started one task. */
    ghost predicate Valid0(s: State, h: seq<Event>)
      reads this, sched
    {
      && Configured()
      && Holds({})
      && Counted(stats, runqComplete, failedTids, buildStamps.Keys, numberTasks)
      && stats.total == |prepared|
      && Handed(handed, runqRunning, buildStamps.Keys, failedTids, Idle())
      && Skipping(stats, runqRunning, covered + current)
      && LateStarts(history) <= LateStarts(h) + 1
      && (abort && s.Running? ==> failedTids == [])
    }

    /** What the worker is told about the task's dependencies: the task and everything it transitively
        depends on.  As a side effect the task joins its own live dependencies. */
    method BuildTaskDepData(task: Node) returns (data: map<Node, set<Node>>)
      requires Configured() && task in prepared && Live(prepared, depends, runqRunning + {task})
      modifies this`depends
      ensures Live(prepared, depends, runqRunning + {task})
      ensures depends == old(depends)[task := old(depends)[task] + {task}]
      ensures data.Keys == {task} + ReachSet(prepared, task)
      ensures forall n :: n in data ==> n in depends && data[n] == depends[n]
    {
      depends := depends[task := depends[task] + {task}];
      ghost var running := runqRunning + {task};
      LiveGrows(prepared, old(depends), running, task);
      hide Live, Acyclic, Closed, Inverse, DataSoFar;
      data := map[];
      var next := depends[task];
      ghost var live, bound := depends, Rank(prepared, task) + 1;
      DataStart(prepared, depends, running, task);
      while next != {}
        invariant depends == live
        invariant DataSoFar(prepared, depends, task, data, next, {})
        invariant RankBelow(prepared, next, bound)
        decreases bound
      {
        var additional: set<Node> := {};
        ghost var lower := bound - 1;
        RankPositive(prepared, next, bound);
        DataSwap(prepared, depends, task, data, next);
        while next != {}
          invariant depends == live
          invariant DataSoFar(prepared, depends, task, data, next, additional)
          invariant RankBelow(prepared, next, bound) && RankBelow(prepared, additional, lower)
          decreases next
        {
          var revdep :| revdep in next;
          DataStep(prepared, depends, running, task, data, next, additional, revdep, bound);
          var deps := depends[revdep];
          data := data[revdep := deps];
          additional := additional + (set d | d in deps && d !in data);
          next := next - {revdep};
        }
        next := additional;
        bound := lower;
        DataSwap(prepared, depends, task, data, next);
      }
      DataEnd(prepared, depends, running, task, data);
    }

    /** A task whose execution is empty: it starts and completes in one go, as an active task. */
    method RunNoexec(task: Node)
      requires Valid() && task in runqBuildable && task !in runqRunning
      requires task in noexec && task !in covered + current
      modifies this`runqRunning, this`runqBuildable, this`runqComplete, this`stats, this`history, sched`buildable
      ensures Valid0(old(state), old(history))
      ensures runqRunning == old(runqRunning) + {task} && runqComplete == old(runqComplete) + {task}
      ensures history == old(history) + [Started(task), Completed(task)]
      ensures stats.skipped == old(stats.skipped)
    {
      hide Holds, Counted, Configured, LateStarts, Handed, Skipping, Idle;
      SkipIsIdle(task);
      SkippingStarts(stats, runqRunning, covered + current, task);
      HandedStarts(handed, runqRunning, buildStamps.Keys, failedTids, Idle(), task);
      AddRunning(task);
      CountedSkip(stats, runqComplete, failedTids, buildStamps.Keys, numberTasks, task);
      stats := stats.TaskActive();
      TaskComplete(task);
      AtOnce(old(history), task);
    }

    /** Hands a task to a worker, with what it has to know about its dependencies. */
    method Dispatch(task: Node) returns (data: map<Node, set<Node>>)
      requires Valid() && stats.active < numberTasks
      requires task in runqBuildable && task !in runqRunning && task in sched.stamps
      requires sched.stamps[task] !in buildStamps.Values && task !in Idle()
      modifies this`depends, this`buildStamps, this`buildStamps2, this`runqRunning, this`stats, this`history,
               this`handed
      ensures Valid0(old(state), old(history))
      ensures buildStamps == old(buildStamps)[task := sched.stamps[task]] && task !in old(buildStamps)
      ensures runqRunning == old(runqRunning) + {task} && stats == old(stats).TaskActive()
      ensures history == old(history) + [Started(task)] && handed == old(handed) + [task]
      ensures data.Keys == {task} + ReachSet(prepared, task)
    {
      hide Holds, Counted, Configured, LateStarts, RunQueueScheduler.Valid, Handed, Skipping, Idle;
      LateStartsAppend(history, Started(task));
      IdleKnown(task);
      SkipIsIdle(task);
      BooksDispatch(stats, runqComplete, failedTids, buildStamps, numberTasks, handed, runqRunning, Idle(),
                    covered + current, task, sched.stamps[task]);
      data := StartOnWorker(task);
      stats := stats.TaskActive();
      handed := handed + [task];
    }

    lemma IdleKnown(task: Node)
      requires Holds({}) && task !in runqRunning
      ensures task !in buildStamps
    {
    }

    method StartOnWorker(task: Node) returns (data: map<Node, set<Node>>)
      requires Configured() && Holds({})
      requires task in runqBuildable && task !in runqRunning && task in sched.stamps
      requires sched.stamps[task] !in buildStamps.Values
      modifies this`depends, this`buildStamps, this`buildStamps2, this`runqRunning, this`history
      ensures Holds({})
      ensures buildStamps == old(buildStamps)[task := sched.stamps[task]] && task !in old(buildStamps)
      ensures runqRunning == old(runqRunning) + {task} && history == old(history) + [Started(task)]
      ensures data.Keys == {task} + ReachSet(prepared, task)
    {
      hide Split, Logged, Stamped, Ready, Live, Queued, Configured, RunQueueScheduler.Valid;
      DispatchKeeps(prepared, depends, history, sched.buildable, runqBuildable, runqRunning, runqComplete, failedTids,
                    sched.stamps, buildStamps, buildStamps2, task);
      data := BuildTaskDepData(task);
      buildStamps := buildStamps[task := sched.stamps[task]];
      buildStamps2 := buildStamps2 + [buildStamps[task]];
      runqRunning := runqRunning + {task};
      history := history + [Started(task)];
      Assemble({});
      hide Holds;
    }

    /** The scheduler's choice: the first task in priority order that can start now, if one can. */
    method PickNext() returns (next: Option<Node>)
      requires Valid()
      modifies sched`buildable, sched`revPrioMap
      ensures Valid()
      ensures next.None? <==>
        stats.active >= numberTasks || forall t :: t in runqBuildable && t !in runqRunning ==> Held(t)
      ensures next.Some? ==>
                && next.value in runqBuildable && next.value !in runqRunning && !Held(next.value)
                && forall t :: t in runqBuildable && t !in runqRunning && !Held(t) ==>
                     Position(sched.prioMap, next.value) <= Position(sched.prioMap, t)
      ensures next.Some? ==> forall t :: old(Free(t)) ==> NotAfter(sched.prioMap, next.value, t)
    {
      hide Split, Logged, Stamped, Ready, Live, Counted, Configured, LateStarts;
      next := sched.Next(stats.active, numberTasks, runqRunning, buildStamps);
      Assemble({});
      assert forall t :: t in runqBuildable && t !in runqRunning ==> t in sched.buildable;
    }

    /** A worker is busy with the stamp of `t`. */
    ghost predicate Held(t: Node)
      requires sched.Valid() && (t in sched.prioMap || t in sched.buildable)
      reads this, sched
    {
      sched.stamps[t] in buildStamps.Values
    }

    /** The task could start now, were there room on the workers. */
    ghost predicate Free(t: Node)
      reads this, sched
    {
      t in runqBuildable && t !in runqRunning && t in sched.stamps && sched.stamps[t] !in buildStamps.Values
    }

    /** Exactly the tasks are complete that neither failed nor depend on a failed task. */
    ghost predicate AllPossibleComplete()
      reads this
    {
      forall t :: t in prepared ==> (t in runqComplete <==> !Blocked(prepared, failedTids, t))
    }

    /** The task picked is skipped because a setscene task has covered it or its stamp is current, or it
        is completed at once because it is empty, or else it is handed to a worker. */
    method StartTask(task: Node) returns (dispatched: bool)
      requires Valid() && stats.active < numberTasks
      requires task in runqBuildable && task !in runqRunning && !Held(task)
      modifies this`depends, this`runqRunning, this`runqBuildable, this`runqComplete, this`stats, this`history,
               this`buildStamps, this`buildStamps2, this`handed, sched`buildable
      ensures Valid0(old(state), old(history))
      ensures runqRunning == old(runqRunning) + {task}
      ensures dispatched <==> task !in covered && task !in current && task !in noexec
      ensures dispatched ==> task in buildStamps && task !in runqComplete
      ensures stats.skipped == old(stats.skipped) + if task in covered || task in current then 1 else 0
      ensures handed == old(handed) + if dispatched then [task] else []
      ensures Work() > old(Work())
      ensures !dispatched ==> task in runqComplete && buildStamps == old(buildStamps)
    {
      hide Holds, Counted, Configured, LateStarts, RunQueueScheduler.Valid, Handed, Skipping, Idle;
      CanDispatch(task);
      SkipIsIdle(task);
      StartedIncomplete(task);
      dispatched := false;
      if task in covered || task in current {
        TaskSkip(task);
      } else if task in noexec {
        RunNoexec(task);
      } else {
        MoreStamps(buildStamps, task, sched.stamps[task]);
        var data := Dispatch(task);
        dispatched := true;
      }
      assert |runqRunning| == |old(runqRunning)| + 1;
    }

    lemma StartedIncomplete(task: Node)
      requires Valid() && task !in runqRunning
      ensures task !in runqComplete
    {
    }

    lemma NothingToDo()
      requires Valid()
      ensures prepared == map[] ==> failedTids == [] && runqComplete == {}
    {
      assert failedTids == [] || failedTids[0] in failedTids;
      hide Ready, Queued, Live, Stamped, Logged, RunQueueScheduler.Valid;
    }

    /** What the state of the queue says: it is being cleaned up only after a failure in abort mode or if
        there was nothing to do; it is complete only if every task is; and it has failed only if a task
        has, and then in continue mode everything else that was possible is complete. */
    ghost predicate Verdict()
      reads this
    {
      && (state == CleanUp ==> prepared == map[] || (abort && failedTids != []))
      && (state == Complete ==> failedTids == [] && runqComplete == prepared.Keys)
      && (state == Failed ==> failedTids != [] && (abort || AllPossibleComplete()))
    }

    ghost predicate Cleaning()
      reads this
    {
      state == CleanUp && (prepared == map[] || (abort && failedTids != []))
    }

    /** There is room on the workers, and a task that could start now. */
    ghost predicate CanStart()
      reads this, sched
    {
      stats.active < numberTasks && Startable(runqBuildable, runqRunning, sched.stamps, buildStamps)
    }

    lemma BooksKnown()
      requires Valid()
      ensures Ready(prepared, runqBuildable, runqComplete) && stats.active == |buildStamps|
      ensures Stamped(sched.stamps, buildStamps, buildStamps2)
    {
      hide Split, Logged, Live, Queued, LateStarts, Handed, Skipping, Acyclic, Ready, Stamped;
    }

    lemma SkipIsIdle(task: Node)
      ensures task in covered + current || task in noexec ==> task in Idle()
      ensures task !in covered && task !in current && task !in noexec ==> task !in Idle()
    {
    }

    /** One call of `execute`: worker reports, at most one task started, perhaps more reports. */
    method Execute(prompt: bool)
      requires Valid() && state == Running
      modifies this, sched`buildable, sched`revPrioMap
      ensures Work() >= old(Work()) && (prompt ==> state in {Failed, Complete} || Work() > old(Work()))
      ensures Valid() && Verdict()
      ensures state in {Failed, Complete} ==> buildStamps == map[] && AllPossibleComplete()
      ensures state == Complete ==> failedTids == [] && runqComplete == runqRunning == runqBuildable == prepared.Keys
      ensures state == Failed ==> failedTids != []
      ensures runqRunning >= old(runqRunning) && |runqRunning - old(runqRunning)| <= 1
      ensures old(CanStart()) ==> runqRunning != old(runqRunning)
    {
      hide Holds, Counted, Configured, LateStarts, AllPossibleComplete, Work, Held, Handed, RunQueueScheduler.Valid;
      hide Skipping, Startable;
      NoLateStartsYet();
      ReadFirst(prompt);
      if stats.total == 0 {
        assert prepared == map[];
        state := CleanUp;
      }
      ActiveNatural();
      var started, dispatched := StartNext();
      if started && (!dispatched || stats.active < numberTasks) {
        return;
      }
      WaitOrEnd(prompt);
    }

    /** The reading with which a call of `execute` begins. */
    method ReadFirst(prompt: bool)
      requires Valid()
      modifies this`buildStamps, this`buildStamps2, this`stats, this`failedTids, this`state, this`history,
               this`runqComplete, this`runqBuildable, sched`buildable
      ensures Valid()
      ensures state == old(state) || (abort && state == CleanUp && failedTids != [])
      ensures LateStarts(history) == LateStarts(old(history))
      ensures Work() >= old(Work())
      ensures prompt && old(buildStamps) != map[] ==> Work() > old(Work())
      ensures old(CanStart()) ==> CanStart()
    {
      hide Valid, LateStarts, Ready, Stamped, Startable, Work;
      ghost var b, c, held, held2 := runqBuildable, runqComplete, buildStamps, buildStamps2;
      BooksKnown();
      ReadWorkers(prompt);
      BooksKnown();
      if old(CanStart()) {
        StartableStill(prepared, b, c, runqBuildable, runqComplete, runqRunning, sched.stamps, held, held2, buildStamps,
                       buildStamps2);
      }
    }

    /** The scheduler's choice, if there is one, is started. */
    method StartNext() returns (started: bool, dispatched: bool)
      requires Valid()
      modifies this`depends, this`runqRunning, this`runqBuildable, this`runqComplete, this`stats, this`history,
               this`buildStamps, this`buildStamps2, this`handed, sched`buildable, sched`revPrioMap
      ensures Valid0(old(state), old(history))
      ensures started <==> old(CanStart())
      ensures started ==> |runqRunning - old(runqRunning)| == 1 && Work() > old(Work())
      ensures !started ==> Valid() && !dispatched && unchanged(this)
      ensures !started ==>
        stats.active >= numberTasks || forall t :: t in runqBuildable && t !in runqRunning ==> Held(t)
      ensures forall t, u :: t in runqRunning && t !in old(runqRunning) && old(Free(u)) ==>
        NotAfter(sched.prioMap, t, u)
      ensures runqRunning >= old(runqRunning)
      ensures dispatched ==> buildStamps != map[]
    {
      hide Holds, Counted, Configured, LateStarts, Work, Handed, Skipping, Startable, RunQueueScheduler.Valid;
      started, dispatched := false, false;
      FirstStart();
      var next := PickNext();
      if next.Some? {
        OneMore(runqRunning, next.value);
        dispatched := StartTask(next.value);
        started := true;
        assert forall t :: t in runqRunning && t !in old(runqRunning) ==> t == next.value;
      }
    }

    /** The scheduler finds something exactly if something could start. */
    lemma FirstStart()
      requires Valid()
      ensures CanStart() <==>
        !(stats.active >= numberTasks || forall t :: t in runqBuildable && t !in runqRunning ==> Held(t))
    {
      hide Split, Logged, Stamped, Ready, Live, LateStarts, Handed, Skipping, Acyclic, RunQueueScheduler.Valid;
      forall t | t in runqBuildable ensures t in sched.stamps {
        CanDispatch(t);
      }
    }

    /** Under way, or being cleaned up for a good reason. */
    ghost predicate Going()
      reads this
    {
      state == Running || Cleaning()
    }

    /** The rest of `execute`: waits for busy workers or, if there are none, ends the queue. */
    method WaitOrEnd(prompt: bool)
      requires Valid() && Going()
      requires stats.active > 0 || forall t :: t in runqBuildable && t !in runqRunning ==> Held(t)
      modifies this, sched`buildable
      ensures Valid() && Verdict() && runqRunning == old(runqRunning)
      ensures Work() >= old(Work()) && (prompt ==> state in {Failed, Complete} || Work() > old(Work()))
      ensures state in {Failed, Complete} ==> buildStamps == map[] && AllPossibleComplete()
      ensures state == Complete ==> failedTids == [] && runqComplete == runqRunning == runqBuildable == prepared.Keys
      ensures state == Failed ==> failedTids != []
    {
      hide Holds, Counted, Configured, LateStarts, AllPossibleComplete, Work, Held, Handed, RunQueueScheduler.Valid;
      ActiveNatural();
      if stats.active > 0 {
        BusyWorkers();
        ReadWorkers(prompt);
        return;
      }
      Conclude();
    }

    /** The end of `execute`: no worker is busy and nothing can start. */
    method Conclude()
      requires Valid() && stats.active == 0
      requires forall t :: t in runqBuildable && t !in runqRunning ==> Held(t)
      modifies this`state
      ensures Valid() && Verdict()
      ensures state in {Failed, Complete} && buildStamps == map[] && AllPossibleComplete()
      ensures state == Complete ==> failedTids == [] && runqComplete == runqRunning == runqBuildable == prepared.Keys
      ensures state == Failed ==> failedTids != []
    {
      hide Holds, Counted, Configured, LateStarts, Held;
      Quiescent();
      state := if |failedTids| != 0 then Failed else Complete;
    }

    /** In abort mode a running queue has seen no failure. */
    lemma NoLateStartsYet()
      requires Valid()
      ensures abort && state == Running ==> LateStarts(history) == 0
    {
      if abort && state == Running {
        forall t ensures TaskFailed(t) !in history {
          assert t !in failedTids;
        }
        NoFailureNoLateStart(history);
      }
    }

    lemma ActiveNatural()
      requires Valid()
      ensures 0 <= stats.active && 1 <= numberTasks
    {
    }

    lemma CanDispatch(task: Node)
      requires Valid() && task in runqBuildable
      ensures task in sched.stamps
    {
      assert task in sched.prioMap;
    }

    /** With no worker busy and nothing to pick, everything possible is complete. */
    lemma Quiescent()
      requires Valid() && stats.active == 0
      requires forall t :: t in runqBuildable && t !in runqRunning ==> Held(t)
      ensures buildStamps == map[] && AllPossibleComplete()
      ensures failedTids == [] ==> runqComplete == runqRunning == runqBuildable == prepared.Keys
    {
      assert buildStamps.Keys == {};
      assert buildStamps == map[];
      assert runqBuildable <= runqRunning <= prepared.Keys;
      forall t | t in prepared ensures t in runqComplete <==> !Blocked(prepared, failedTids, t) {
        QuiescentIsComplete(prepared, history, runqBuildable, runqRunning, runqComplete, failedTids, t);
      }
      if failedTids == [] {
        assert Failures(failedTids) == {};
        forall t | t in prepared ensures t in runqComplete {
          assert !Blocked(prepared, failedTids, t);
        }
      }
    }

    /** `finish`: wait for the workers that are still busy, then report. */
    method Finish(prompt: bool)
      requires Valid()
      modifies this, sched`buildable
      ensures Work() >= old(Work()) && (prompt ==> state in {Failed, Complete} || Work() > old(Work()))
      ensures Valid() && state != Running
      ensures runqRunning == old(runqRunning)
      ensures old(Cleaning()) ==> Verdict()
      ensures state in {Failed, Complete} ==> buildStamps == map[] && (state == Failed <==> failedTids != [])
    {
      hide Holds, Configured, LateStarts, Counted, AllPossibleComplete, Handed, Skipping, Idle, RunQueueScheduler.Valid;
      NothingToDo();
      state := CleanUp;
      if stats.active > 0 {
        BusyWorkers();
        ReadWorkers(prompt);
      } else {
        NoWorkers();
        state := if |failedTids| != 0 then Failed else Complete;
      }
    }

    lemma VerdictCleans()
      requires state == CleanUp
      ensures Verdict() ==> Cleaning()
    {
    }

    lemma BusyWorkers()
      requires Valid() && stats.active > 0
      ensures buildStamps != map[]
    {
      assert |buildStamps.Keys| > 0;
    }

    lemma WorkBounded()
      requires Valid()
      ensures 0 <= Work() <= 2 * |prepared|
    {
      Accounting(stats, runqRunning, runqComplete, failedTids, buildStamps, numberTasks);
      hide Ready, Live, Queued, LateStarts, RunQueueScheduler.Valid, Configured, SafeHistory;
      SubsetSize(runqRunning, prepared.Keys);
    }

    lemma NoWorkers()
      requires Counted(stats, runqComplete, failedTids, buildStamps.Keys, numberTasks) && stats.active <= 0
      ensures buildStamps == map[]
    {
      assert buildStamps.Keys == {};
    }

    /** What the invariant says to the outside. */
    lemma Balanced()
      requires Valid()
      ensures SafeHistory(prepared, history)
      ensures stats.completed + stats.failed + stats.active == |runqRunning|
      ensures stats.completed == |runqComplete| && stats.failed == |failedTids|
      ensures 0 <= stats.active == |buildStamps| <= numberTasks
      ensures forall t, u :: t in buildStamps && u in buildStamps && t != u ==> buildStamps[t] != buildStamps[u]
      ensures forall t :: t in runqComplete <==> Completed(t) in history
      ensures forall t :: t in failedTids <==> TaskFailed(t) in history
      ensures forall t :: t in runqRunning <==> Started(t) in history
      ensures abort ==> LateStarts(history) <= 1
      ensures HandedOnce(handed, history, Idle()) && Skipping(stats, runqRunning, covered + current)
    {
      hide Ready, Live, Queued, LateStarts, RunQueueScheduler.Valid, Configured, SafeHistory;
      Accounting(stats, runqRunning, runqComplete, failedTids, buildStamps, numberTasks);
    }

    /** Any number of turns of the main loop, with any worker reports and stamp checks in between.  If a
        busy worker reports whenever they are read, twice as many turns as there are tasks, and one more,
        are enough. */
    method Run(turns: nat, prompt: bool)
      requires Valid()
      modifies this, sched`buildable, sched`revPrioMap
      ensures Valid()
      ensures SafeHistory(prepared, history)
      ensures stats.completed + stats.failed + stats.active == |runqRunning|
      ensures stats.completed == |runqComplete| && stats.failed == |failedTids|
      ensures 0 <= stats.active == |buildStamps| <= numberTasks
      ensures forall t, u :: t in buildStamps && u in buildStamps && t != u ==> buildStamps[t] != buildStamps[u]
      ensures forall t :: t in runqComplete <==> Completed(t) in history
      ensures forall t :: t in failedTids <==> TaskFailed(t) in history
      ensures forall t :: t in runqRunning <==> Started(t) in history
      ensures abort ==> LateStarts(history) <= 1
      ensures HandedOnce(handed, history, Idle()) && Skipping(stats, runqRunning, covered + current)
      ensures old(Verdict()) ==> Verdict()
      ensures prompt && turns > 2 * |prepared| ==> state in {Failed, Complete}
    {
      hide Valid, AllPossibleComplete, Work, Verdict, SafeHistory, LateStarts;
      WorkBounded();
      for i := 0 to turns
        invariant Valid()
        invariant old(Verdict()) ==> Verdict()
        invariant prompt ==> state in {Failed, Complete} || Work() >= i
      {
        if state == Running {
          Execute(prompt);
        }
        if state == CleanUp {
          VerdictCleans();
          Finish(prompt);
        }
      }
      WorkBounded();
      Balanced();
    }
  }

  /** Some task could start: it is buildable, has not started, and no worker is busy with its stamp. */
  ghost predicate Startable(buildable: set<Node>, running: set<Node>, stamps: map<Node, string>,
                            buildStamps: map<Node, string>)
  {
    exists t :: t in buildable && t !in running && t in stamps && stamps[t] !in buildStamps.Values
  }

  /** Reports of workers do not take that away. */
  lemma StartableStill(g: Graph, b: set<Node>, c: set<Node>, b': set<Node>, c': set<Node>, running: set<Node>,
                       stamps: map<Node, string>, held: map<Node, string>, held2: seq<string>,
                       held': map<Node, string>, held2': seq<string>)
    requires Ready(g, b, c) && Ready(g, b', c') && c <= c'
    requires Stamped(stamps, held, held2) && Stamped(stamps, held', held2')
    requires forall t :: t in held' ==> t in held
    requires Startable(b, running, stamps, held)
    ensures Startable(b', running, stamps, held') && |held'| <= |held|
  {
    var t :| t in b && t !in running && t in stamps && stamps[t] !in held.Values;
    assert t in b';
    SubsetSize(held'.Keys, held.Keys);
    assert |held'.Keys| == |held'| && |held.Keys| == |held|;
  }

  ghost predicate NotAfter(order: seq<Node>, t: Node, u: Node) {
    t in order && u in order && Position(order, t) <= Position(order, u)
  }

  lemma OneMore(running: set<Node>, t: Node)
    requires t !in running
    ensures |(running + {t}) - running| == 1
  {
    assert (running + {t}) - running == {t};
  }

  lemma FewerStamps(stamps: map<Node, string>, task: Node)
    requires task in stamps
    ensures |stamps - {task}| == |stamps| - 1
  {
    assert (stamps - {task}).Keys == stamps.Keys - {task};
  }

  lemma MoreStamps(stamps: map<Node, string>, task: Node, stamp: string)
    ensures |stamps[task := stamp]| <= |stamps| + 1
  {
    assert stamps[task := stamp].Keys == stamps.Keys + {task};
  }

  lemma Accounting(stats: Stats, running: set<Node>, complete: set<Node>, failed: seq<Node>, workers: map<Node, string>,
                   numberTasks: int)
    requires Split(running, complete, failed, workers.Keys, {})
    requires Counted(stats, complete, failed, workers.Keys, numberTasks)
    ensures stats.completed + stats.failed + stats.active == |running|
    ensures stats.active == |workers|
  {
    FailuresSize(failed);
    var f := Failures(failed);
    assert running == (complete + f) + workers.Keys;
  }

  lemma {:induction false} FailuresSize(failed: seq<Node>)
    requires Distinct(failed)
    ensures |Failures(failed)| == |failed|
  {
    if failed != [] {
      var k := |failed| - 1;
      FailuresSize(failed[..k]);
      assert failed == failed[..k] + [failed[k]];
      assert Failures(failed) == Failures(failed[..k]) + {failed[k]};
      assert failed[k] !in failed[..k];
    }
  }


  lemma CountedDispatch(stats: Stats, complete: set<Node>, failed: seq<Node>, workers: map<Node, string>,
                        numberTasks: int,
                        t: Node, stamp: string)
    requires Counted(stats, complete, failed, workers.Keys, numberTasks) && t !in workers && stats.active < numberTasks
    ensures Counted(stats.TaskActive(), complete, failed, workers[t := stamp].Keys, numberTasks)
  {
    assert workers[t := stamp].Keys == workers.Keys + {t};
  }

  lemma BooksDispatch(stats: Stats, complete: set<Node>, failed: seq<Node>, workers: map<Node, string>,
                      numberTasks: int, handed: seq<Node>, running: set<Node>, idle: set<Node>, skips: set<Node>,
                      t: Node, stamp: string)
    requires Counted(stats, complete, failed, workers.Keys, numberTasks) && t !in workers && stats.active < numberTasks
    requires Handed(handed, running, workers.Keys, failed, idle) && Skipping(stats, running, skips)
    requires t !in running && t !in idle && t !in skips
    ensures var workers' := workers[t := stamp];
            && Counted(stats.TaskActive(), complete, failed, workers'.Keys, numberTasks)
            && Handed(handed + [t], running + {t}, workers'.Keys, failed, idle)
            && Skipping(stats.TaskActive(), running + {t}, skips)
  {
    hide Counted, Handed, Skipping;
    CountedDispatch(stats, complete, failed, workers, numberTasks, t, stamp);
    HandedStarts(handed, running, workers.Keys, failed, idle, t);
    SkippingStarts(stats, running, skips, t);
    assert workers[t := stamp].Keys == workers.Keys + {t};
  }

  lemma DispatchKeeps(g: Graph, live: Graph, h: seq<Event>, list: seq<Node>, buildable: set<Node>, running: set<Node>,
                      complete: set<Node>, failed: seq<Node>, stamps: map<Node, string>, workers: map<Node, string>,
                      stamps2: seq<string>, t: Node)
    requires Ready(g, buildable, complete) && Queued(list, buildable, running) && Live(g, live, running)
    requires Logged(g, h, running, complete, failed) && Split(running, complete, failed, workers.Keys, {})
    requires Stamped(stamps, workers, stamps2) && t in stamps && stamps[t] !in workers.Values
    requires t in buildable && t !in running
    ensures t in g && t !in workers
    ensures Queued(list, buildable, running + {t}) && Live(g, live, running + {t})
    ensures Logged(g, h + [Started(t)], running + {t}, complete, failed)
    ensures Split(running + {t}, complete, failed, workers[t := stamps[t]].Keys, {})
    ensures Stamped(stamps, workers[t := stamps[t]], stamps2 + [stamps[t]])
  {
    hide Split, Logged, Stamped, Ready, Live, Queued;
    StartKeeps(g, live, h, list, buildable, running, complete, failed, workers.Keys, t);
    StampTaken(stamps, workers, stamps2, t);
    var more := workers[t := stamps[t]].Keys;
    assert more - {t} == workers.Keys;
    HandOver(running + {t}, complete, failed, more, t);
  }

  ghost predicate RankBelow(g: Graph, s: set<Node>, bound: int) {
    forall n :: n in s ==> n in g && Rank(g, n) < bound
  }

  lemma RankPositive(g: Graph, s: set<Node>, bound: int)
    requires RankBelow(g, s, bound) && s != {}
    ensures bound > 0
  {
  }

  /** Everything recorded so far belongs to the task's dependencies; what a recorded task depends on is
      recorded or waits in `next` or `additional`. */
  ghost predicate DataSoFar(g: Graph, live: Graph, task: Node, data: map<Node, set<Node>>, next: set<Node>,
                            additional: set<Node>)
  {
    && (task in data || task in next)
    && (forall n :: n in data ==> n in g && n in live && data[n] == live[n])
    && (forall n :: n in data || n in next || n in additional ==> n in g && MarkedFrom(g, task, n))
    && forall n, d :: n in data && d in data[n] ==> d in data || d in next || d in additional
  }

  lemma LiveGrows(g: Graph, live: Graph, running: set<Node>, t: Node)
    requires Live(g, live, running) && t in running && t in g
    ensures Live(g, live[t := live[t] + {t}], running)
  {
  }

  lemma DataStart(g: Graph, live: Graph, running: set<Node>, task: Node)
    requires Closed(g) && Acyclic(g) && Live(g, live, running) && task in g && task in live[task]
    ensures DataSoFar(g, live, task, map[], live[task], {})
    ensures RankBelow(g, live[task], Rank(g, task) + 1)
  {
    forall n | n in live[task] ensures n in g && MarkedFrom(g, task, n) && Rank(g, n) < Rank(g, task) + 1 {
      if n != task {
        EdgeReaches(g, task, n);
        RankDecreases(g, task, n);
      }
    }
  }

  lemma DataSwap(g: Graph, live: Graph, task: Node, data: map<Node, set<Node>>, next: set<Node>)
    ensures DataSoFar(g, live, task, data, {}, next) ==> DataSoFar(g, live, task, data, next, {})
  {
  }

  lemma DataStep(g: Graph, live: Graph, running: set<Node>, task: Node, data: map<Node, set<Node>>,
                 next: set<Node>, additional: set<Node>, r: Node, bound: int)
    requires Closed(g) && Acyclic(g) && Live(g, live, running)
    requires DataSoFar(g, live, task, data, next, additional) && r in next
    requires RankBelow(g, next, bound) && RankBelow(g, additional, bound - 1)
    ensures r in live
    ensures var data' := data[r := live[r]];
            var more := additional + (set d | d in live[r] && d !in data');
            DataSoFar(g, live, task, data', next - {r}, more) && RankBelow(g, more, bound - 1)
  {
    forall d | d in live[r] && d != r ensures d in g && Rank(g, d) < bound - 1 && MarkedFrom(g, task, d) {
      RankDecreases(g, r, d);
      if r == task {
        EdgeReaches(g, task, d);
      } else {
        ReachesThenEdge(g, task, r, d);
      }
    }
  }

  lemma DataEnd(g: Graph, live: Graph, running: set<Node>, task: Node, data: map<Node, set<Node>>)
    requires Closed(g) && Live(g, live, running) && DataSoFar(g, live, task, data, {}, {})
    ensures data.Keys == {task} + ReachSet(g, task)
    ensures forall n :: n in data ==> n in live && data[n] == live[n]
  {
    forall n | n in data.Keys ensures n in {task} + ReachSet(g, task) {
      assert MarkedFrom(g, task, n);
    }
    forall n | n in ReachSet(g, task) ensures n in data.Keys {
      assert forall m :: m in data.Keys ==> g[m] <= data.Keys;
      ClosedSetKeeps(g, data.Keys, task, n);
    }
  }

  lemma MoreRunning(g: Graph, live: Graph, list: seq<Node>, buildable: set<Node>, running: set<Node>, t: Node)
    requires Queued(list, buildable, running) && Live(g, live, running)
    ensures Queued(list, buildable, running + {t}) && Live(g, live, running + {t})
  {
  }

  lemma SplitStart(running: set<Node>, complete: set<Node>, failed: seq<Node>, workers: set<Node>, t: Node)
    requires Split(running, complete, failed, workers, {}) && t !in running
    ensures t !in complete && t !in failed && t !in workers
    ensures Split(running + {t}, complete, failed, workers, {t})
  {
    hide Distinct;
    assert t !in Failures(failed);
  }

  /** Starting a buildable task that is not running. */
  lemma StartKeeps(g: Graph, live: Graph, h: seq<Event>, list: seq<Node>, buildable: set<Node>, running: set<Node>,
                   complete: set<Node>, failed: seq<Node>, workers: set<Node>, t: Node)
    requires Ready(g, buildable, complete) && Queued(list, buildable, running) && Live(g, live, running)
    requires Logged(g, h, running, complete, failed) && Split(running, complete, failed, workers, {})
    requires t in buildable && t !in running
    ensures t in g && t !in complete && t !in failed && t !in workers
    ensures Queued(list, buildable, running + {t}) && Live(g, live, running + {t})
    ensures Logged(g, h + [Started(t)], running + {t}, complete, failed)
    ensures Split(running + {t}, complete, failed, workers, {t})
  {
    StartLogged(g, h, buildable, running, complete, failed, t);
    assert t in g;
    hide Logged, Queued, Live, Split, Ready;
    MoreRunning(g, live, list, buildable, running, t);
    SplitStart(running, complete, failed, workers, t);
  }

  lemma AtOnce(h: seq<Event>, t: Node)
    ensures h + [Started(t)] + [Completed(t)] == h + [Started(t), Completed(t)]
    ensures LateStarts(h + [Started(t), Completed(t)]) <= LateStarts(h) + 1
  {
    LateStartsAppend(h, Started(t));
    LateStartsAppend(h + [Started(t)], Completed(t));
    assert h + [Started(t)] + [Completed(t)] == h + [Started(t), Completed(t)];
  }

  lemma CountedSkip(stats: Stats, complete: set<Node>, failed: seq<Node>, workers: set<Node>, numberTasks: int, t: Node)
    requires Counted(stats, complete, failed, workers, numberTasks) && t !in complete
    ensures Counted(stats.TaskCompleted().TaskSkipped(), complete + {t}, failed, workers, numberTasks)
    ensures Counted(stats.TaskActive().TaskCompleted(), complete + {t}, failed, workers, numberTasks)
  {
  }


  lemma StampHeld(stamps: map<Node, string>, buildStamps: map<Node, string>, buildStamps2: seq<string>, t: Node)
    requires Stamped(stamps, buildStamps, buildStamps2) && t in buildStamps
    ensures buildStamps[t] in buildStamps2
  {
    assert buildStamps[t] in buildStamps.Values;
  }

  lemma CountedEnds(stats: Stats, complete: set<Node>, failed: seq<Node>, workers: set<Node>, numberTasks: int, t: Node)
    requires Counted(stats, complete, failed, workers, numberTasks) && t in workers
    ensures t !in complete ==> Counted(stats.TaskCompleted(), complete + {t}, failed, workers - {t}, numberTasks)
    ensures Counted(stats.TaskFailed(), complete, failed + [t], workers - {t}, numberTasks)
  {
  }


  lemma HandKnown(g: Graph, buildable: set<Node>, running: set<Node>, complete: set<Node>,
                  failed: seq<Node>, workers: set<Node>, t: Node)
    requires Ready(g, buildable, complete) && running <= buildable
    requires Split(running, complete, failed, workers, {t})
    ensures t in g && t in running && t !in complete && t !in failed
  {
    SplitMember(running, complete, failed, workers, t);
  }

  lemma CompletionKeeps(g: Graph, h: seq<Event>, buildable: set<Node>, running: set<Node>, complete: set<Node>,
                        failed: seq<Node>, workers: set<Node>, t: Node)
    requires Ready(g, buildable, complete) && Logged(g, h, running, complete, failed) && t in g
    requires Split(running, complete, failed, workers, {t})
    ensures ReadyBut(g, buildable, complete + {t}, Dependents(g, t))
    ensures Split(running, complete + {t}, failed, workers, {})
    ensures Logged(g, h + [Completed(t)], running, complete + {t}, failed)
  {
    hide Ready, Logged, Dependents, ReadyBut, Split;
    SplitMember(running, complete, failed, workers, t);
    SplitCompletes(running, complete, failed, workers, t);
    CompletionOpens(g, buildable, complete, t);
    CompleteLogged(g, h, running, complete, failed, t);
  }

  lemma SplitCompletes(running: set<Node>, complete: set<Node>, failed: seq<Node>, workers: set<Node>, t: Node)
    requires Split(running, complete, failed, workers, {t})
    ensures Split(running, complete + {t}, failed, workers, {})
  {
    hide Distinct;
  }

  lemma DependentsKnown(g: Graph, t: Node)
    ensures Dependents(g, t) <= g.Keys
  {
  }

  lemma LiveAt(g: Graph, live: Graph, running: set<Node>, n: Node)
    requires Live(g, live, running) && n in g
    ensures n in live && g[n] <= live[n] <= g[n] + {n} && (n !in running ==> live[n] == g[n])
  {
  }

  lemma QueueGrows(list: seq<Node>, buildable: set<Node>, running: set<Node>, t: Node)
    requires Queued(list, buildable, running)
    ensures Queued(list + [t], buildable + {t}, running)
  {
  }
}
