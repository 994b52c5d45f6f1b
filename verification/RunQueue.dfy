/** A whole build: prepare the task graph, restore what setscene tasks can, work out what need not run,
    and run the rest. */
module RunQueue {
  import opened Graphs
  import opened TaskWeights
  import opened RunQueuePrepare
  import opened Schedulers
  import opened ExecuteTasks
  import opened SceneCollapse
  import opened SceneExecute
  import opened SkipList

  /** What the configuration and the metadata say.  `idepends` names, for the setscene variant of a task,
      the tasks whose setscene variants it needs.  `hashvalidate`, `present` and `valid` stand for the
      check made before setscene tasks run, and `invalid` for what the hook names that may veto skipping.
      With `prompt` a busy worker reports whenever they are read. */
  datatype Config = Config(numberTasks: int, kind: SchedulerKind, abort: bool, force: bool, noexec: set<Node>,
                           current: set<Node>, stamps: map<Node, string>, hasSetscene: set<Node>, idepends: Graph,
                           hashvalidate: bool, present: set<Node>, valid: set<Node>,
                           depvalidate: bool, unneeded: set<Node>, normal: set<Node>, stamped: set<Node>,
                           invalid: set<Node>, prompt: bool, limit: nat)

  datatype Outcome =
    | NotPrepared(why: PrepareResult)
    | BadHardDependency
    | RestoringOverran
    | StillRestoring
    | Built(state: State)

  /** How the setscene stage has ended: a hard dependency is on no task, the recursion limit has been
      exceeded, or the turns are over with the stage finished or not. */
  datatype SceneEnd = BadHard | Overran | Ended(finished: bool)

  /** The tasks restored from the cache, and those whose setscene variants were tried in vain. */
  datatype Restored = Restored(covered: set<Node>, notcovered: set<Node>)

  /** What the setscene stage did: the tasks it handed to workers, in order, those it dealt with by
      itself, and what each task had to wait for. */
  datatype SceneLog = SceneLog(dispatched: seq<Node>, settled: set<Node>, notneeded: set<Node>, req: Graph)

  /** What the run of setscene tasks is told. */
  function PolicyOf(config: Config, unskippable: set<Node>, targets: set<Node>): Policy {
    Policy(unskippable, targets, config.force, config.hashvalidate, config.present, config.valid, config.depvalidate,
           config.unneeded, config.normal, config.stamped)
  }

  /** The hash check has ruled the task out, the task's own stamp is current, or it is a target to be run again:
      its setscene variant is not wanted. */
  predicate NotWanted(config: Config, targets: set<Node>, t: Node) {
    || (config.hashvalidate && t !in config.present && t !in config.valid)
    || t in config.normal
    || (config.force && t in targets)
  }

  /** Why each setscene task has ended as it has.  What is restored was handed to a worker, had a stamp, or is
      not needed: no target, no unskippable task, and something requires it, all of which is restored.  What
      has failed was handed to a worker or was not wanted.  What was handed to a worker was wanted, and nothing
      spoke for it; if it could have been left out, something that requires it was given up. */
  ghost predicate Fates(g: Graph, ss: set<Node>, idepends: Graph, config: Config, targets: set<Node>, r: Restored,
                        log: SceneLog)
  {
    && (forall t :: t in log.notneeded ==>
          t !in targets && !Unskippable(g, ss, t) && config.depvalidate && t in config.unneeded &&
          t in log.req && log.req[t] != {} && log.req[t] <= r.covered)
    && (forall t :: t in r.covered && t !in log.dispatched && t !in log.notneeded ==>
          (config.hashvalidate && t in config.present) ||
          (t in config.stamped && !NotWanted(config, targets, t)))
    && (forall t :: t in r.notcovered && t !in log.dispatched ==> NotWanted(config, targets, t))
    && (forall t :: t in log.dispatched ==>
          !NotWanted(config, targets, t) && t !in config.stamped && !(config.hashvalidate && t in config.present))
    && (forall t :: t in log.dispatched && t !in targets && !Unskippable(g, ss, t) && config.depvalidate &&
                    t in config.unneeded && t in log.req && log.req[t] != {} ==>
          exists q :: q in log.req[t] && GivenUp(HardGraph(idepends, g.Keys), r.notcovered, q))
  }

  /** So a target or an unskippable task that no stamp speaks for is restored only by a worker, and with
      `force` a target not at all. */
  lemma TargetsAreRestored(g: Graph, ss: set<Node>, idepends: Graph, config: Config, targets: set<Node>, r: Restored,
                           log: SceneLog, t: Node)
    requires Fates(g, ss, idepends, config, targets, r, log) && t in r.covered
    requires t in targets || Unskippable(g, ss, t)
    requires !(config.hashvalidate && t in config.present)
    ensures t !in config.stamped ==> t in log.dispatched
    ensures !(config.force && t in targets)
  {
    hide Unskippable;
  }

  /** The hard dependencies of the setscene tasks of a build; those of other tasks are not looked at. */
  function SceneDepends(idepends: Graph, ss: set<Node>): Graph {
    map t | t in idepends && t in ss :: idepends[t]
  }

  /** Which tasks need the setscene variant of a task hard, for the given tasks. */
  ghost function HardGraph(idepends: Graph, nodes: set<Node>): Graph {
    map p | p in nodes :: set t | t in nodes && t in idepends && p in idepends[t]
  }

  /** The recorded hard dependencies, with an entry for every task that takes part. */
  function Total(h: Graph, nodes: set<Node>): (r: Graph)
    ensures r.Keys == nodes
  {
    map n | n in nodes :: if n in h then h[n] else {}
  }

  ghost predicate NeededHard(idepends: Graph, t: Node) {
    exists x :: x in idepends && t in idepends[x]
  }

  /** What setscene tasks wait for: their hard dependencies, and only setscene tasks that depend on them.
      Whatever takes part without being a setscene task is a hard dependency of one. */
  ghost predicate Requirements(g: Graph, ss: set<Node>, idepends: Graph, req: Graph) {
    && ss <= req.Keys <= g.Keys
    && (forall t, p :: t in idepends && p in idepends[t] ==> p in req && t in req && p in req[t])
    && (forall t, p :: t in req && p in req[t] ==>
          (t in idepends && p in idepends[t]) ||
          (t in ss && p in ss && Reaches(g, p, t) && !NeededHard(idepends, t)))
    && (forall q :: q in req && q !in ss ==> exists t :: t in idepends && q in idepends[t])
  }

  /** Without a cycle of hard dependencies the requirements have none: those of a task that something
      needs hard are hard themselves, and all other ones lead from a task to one that depends on it. */
  lemma RequirementsAcyclic(g: Graph, ss: set<Node>, idepends: Graph, req: Graph)
    requires Closed(g) && Acyclic(g) && Requirements(g, ss, idepends, req)
    requires Acyclic(HardGraph(idepends, g.Keys))
    ensures Acyclic(req)
  {
    hide Acyclic, Rank, Reaches, NeededHard;
    var hard := HardGraph(idepends, g.Keys);
    var number := map n | n in req :: if NeededHard(idepends, n) then 0 - Rank(hard, n) else |g| + 1 - Rank(g, n);
    forall n, d | n in req && d in req[n] ensures d in req && number[d] < number[n] {
      RequiredKnown(g, ss, idepends, req, n, d);
      RankBounded(g, n);
      if n in idepends && d in idepends[n] {
        assert d in hard && n in hard[d];
        RankDecreases(hard, d, n);
      } else {
        RankFalls(g, d, n);
      }
    }
    NumberedIsAcyclic(req, number);
  }

  lemma RequiredKnown(g: Graph, ss: set<Node>, idepends: Graph, req: Graph, n: Node, d: Node)
    requires Requirements(g, ss, idepends, req) && n in req && d in req[n]
    ensures d in req && d in g && n in g
    ensures n in idepends && d in idepends[n] ==> NeededHard(idepends, d)
  {
    hide Reaches;
  }

  /** What resolving the hard dependencies yields is what the setscene run starts from. */
  lemma ResolvedFits(g: Graph, ss: set<Node>, squash: Graph, idepends: Graph, h: Graph, req: Graph)
    requires Closed(g) && Acyclic(g) && ss <= g.Keys && Squashed(g, ss, squash) && idepends.Keys <= ss
    requires forall t, p :: t in idepends && p in idepends[t] ==> p in g
    requires HardOf(idepends, h) && Resolved(squash, h, req)
    ensures var hard := Total(h, req.Keys);
            Closed(req) && Closed(hard)
            && (forall p, t :: Needs(hard, p, t) ==> t in req && p in req[t])
            && (forall t, p :: t in idepends && p in idepends[t] ==> Needs(hard, p, t))
            && SameEdges(hard, HardGraph(idepends, g.Keys))
    ensures Requirements(g, ss, idepends, req)
  {
    hide Acyclic, Reaches, Requirements;
    var hard := Total(h, req.Keys);
    ResolvedKnown(g, ss, squash, idepends, h, req);
    RequirementKeys(g, ss, idepends, req);
    forall t, p | t in idepends && p in idepends[t] ensures Needs(hard, p, t) {
      assert Needs(h, p, t);
    }
    forall p, t | Needs(hard, p, t) ensures t in req && p in req[t] && t in g && t in idepends && p in idepends[t] {
      assert Needs(h, p, t);
    }
    forall n | n in hard ensures n in HardGraph(idepends, g.Keys) && hard[n] <= HardGraph(idepends, g.Keys)[n] {
      forall t | t in hard[n] ensures t in HardGraph(idepends, g.Keys)[n] {
        assert Needs(hard, n, t);
      }
    }
    forall p, t | p in hard && t in hard[p] ensures t in hard {
      assert Needs(hard, p, t);
    }
    forall p, t | p in HardGraph(idepends, g.Keys) && t in HardGraph(idepends, g.Keys)[p] ensures Needs(hard, p, t) {
    }
  }

  /** The graphs differ at most in tasks without edges. */
  ghost predicate SameEdges(small: Graph, big: Graph) {
    && (forall n :: n in small ==> n in big && small[n] <= big[n])
    && Closed(small)
    && forall n, d :: n in big && d in big[n] ==> n in small && d in small[n]
  }

  lemma {:induction false} SameEdgesPath(small: Graph, big: Graph, p: seq<Node>)
    requires SameEdges(small, big) && IsPath(big, p) && p[0] in small
    ensures IsPath(small, p)
  {
    if |p| > 1 {
      assert p[1] in big[p[0]];
      SameEdgesPath(small, big, p[1..]);
    }
  }

  lemma SameEdgesReach(small: Graph, big: Graph, a: Node, b: Node)
    requires SameEdges(small, big)
    ensures Reaches(small, a, b) <==> Reaches(big, a, b)
  {
    if p :| PathBetween(small, p, a, b) {
      SubgraphPath(small, big, p);
      assert PathBetween(big, p, a, b);
    }
    if p :| PathBetween(big, p, a, b) {
      assert p[1] in big[p[0]];
      SameEdgesPath(small, big, p);
      assert PathBetween(small, p, a, b);
    }
  }

  /** So failures are passed on in both alike, and lead to the same cycles. */
  lemma SameEdgesLead(small: Graph, big: Graph, failed: set<Node>, t: Node)
    requires SameEdges(small, big)
    ensures LeadsToCycle(small, t) <==> LeadsToCycle(big, t)
    ensures GivenUp(small, failed, t) <==> GivenUp(big, failed, t)
  {
    hide Reaches;
    forall a, b ensures Reaches(small, a, b) <==> Reaches(big, a, b) {
      SameEdgesReach(small, big, a, b);
    }
  }

  lemma ResolvedKnown(g: Graph, ss: set<Node>, squash: Graph, idepends: Graph, h: Graph, req: Graph)
    requires Closed(g) && ss <= g.Keys && Squashed(g, ss, squash) && idepends.Keys <= ss
    requires forall t, p :: t in idepends && p in idepends[t] ==> p in g
    requires HardOf(idepends, h) && Resolved(squash, h, req)
    ensures Closed(req) && Requirements(g, ss, idepends, req)
  {
    hide Reaches;
    forall p | p in h ensures p in g && exists t :: t in idepends && p in idepends[t] {
      var t :| t in h[p];
      assert Needs(h, p, t);
    }
    forall t, p | t in idepends && p in idepends[t] ensures p in req && t in req && p in req[t] {
      assert Needs(h, p, t);
    }
    forall p | NeededHard(idepends, p) ensures p in h {
      var t :| t in idepends && p in idepends[t];
      assert Needs(h, p, t);
    }
  }

  lemma SquashedTasks(g: Graph, ss: set<Node>, squash: Graph)
    requires Squashed(g, ss, squash)
    ensures squash.Keys == ss
  {
  }

  /** How the setscene stage has ended for every setscene task: restored, given up because it or
      something it needs hard failed, or left waiting for a task without a setscene variant or on a cycle. */
  ghost predicate AllSettled(g: Graph, ss: set<Node>, idepends: Graph, r: Restored, req: Graph) {
    forall t :: t in ss ==> Settled(req, HardGraph(idepends, g.Keys), ss, r.covered, r.notcovered, t)
  }

  /** If all hard dependencies have setscene variants and no cycle, nothing is left waiting. */
  lemma NoneStranded(g: Graph, ss: set<Node>, idepends: Graph, r: Restored, req: Graph)
    requires Closed(g) && Acyclic(g) && Acyclic(HardGraph(idepends, g.Keys))
    requires AllSettled(g, ss, idepends, r, req) && Requirements(g, ss, idepends, req)
    requires forall t, p :: t in idepends && p in idepends[t] ==> p in ss
    ensures forall t :: t in ss ==> t in r.covered || GivenUp(HardGraph(idepends, g.Keys), r.notcovered, t)
  {
    hide GivenUp, Reaches, LeadsToCycle, Uncovered, Acyclic, Closed;
    RequirementsAcyclic(g, ss, idepends, req);
    forall t | t in ss ensures !LeadsToCycle(Uncovered(req, r.covered), t) {
      NoneCircling(req, r.covered, t);
    }
  }

  /** The stage has not broken off, and then no failed task leads to a cycle of hard dependencies; or it
      has, and then some failed task does, unless the recursion limit is less than the number of tasks. */
  ghost predicate BreaksOff(nodes: set<Node>, hard: Graph, limit: nat, r: Restored, broken: bool) {
    && (!broken ==> Harmless(hard, r.notcovered))
    && (broken && |nodes| <= limit ==> exists t :: t in r.notcovered && LeadsToCycle(hard, t))
  }

  /** The log accounts for what was restored and what failed, each task handed to a worker only once
      and only with everything it needs hard restored.  With a hash check these are only tasks that it accepts. */
  ghost predicate Logs(idepends: Graph, config: Config, finished: bool, r: Restored, log: SceneLog) {
    && Distinct(log.dispatched)
    && (config.hashvalidate ==> forall t :: t in log.dispatched ==> t in config.valid && t !in config.present)
    && (forall t :: t in log.dispatched ==> t !in log.settled)
    && (finished ==> forall t :: t in r.covered || t in r.notcovered <==> t in log.dispatched || t in log.settled)
    && forall t, p :: t in log.dispatched && t in idepends && p in idepends[t] ==> p in r.covered && p !in r.notcovered
  }

  ghost predicate SceneFates(ss: set<Node>, hard: Graph, config: Config, unskippable: set<Node>, targets: set<Node>,
                             r: Restored, log: SceneLog)
  {
    && log.notneeded <= ss
    && (forall t :: t in log.notneeded ==> Unwanted(PolicyOf(config, unskippable, targets), log.req, r.covered, t))
    && (forall t :: t in r.covered && t !in log.dispatched && t !in log.notneeded ==>
          (config.hashvalidate && t in config.present) ||
          (t in config.stamped && !NotWanted(config, targets, t)))
    && (forall t :: t in r.notcovered && t !in log.dispatched ==> NotWanted(config, targets, t))
    && (forall t :: t in log.dispatched ==>
          !NotWanted(config, targets, t) && t !in config.stamped && !(config.hashvalidate && t in config.present))
    && (forall t :: t in log.dispatched ==>
          Kept(PolicyOf(config, unskippable, targets), log.req, hard, r.notcovered, t))
  }

  lemma FatesFound(ss: set<Node>, hard: Graph, config: Config, unskippable: set<Node>, targets: set<Node>,
                   fails: set<Node>, nodes: set<Node>, r: Restored, log: SceneLog)
    requires log.notneeded <= ss && r.covered <= nodes && r.notcovered <= nodes
    requires forall t :: t in log.dispatched ==> t in nodes
    requires Reasoned(PolicyOf(config, unskippable, targets), log.req, hard, fails, r.covered, r.notcovered,
                      log.notneeded, log.dispatched, log.settled)
    requires forall t :: t in log.dispatched ==> t !in log.settled
    requires config.hashvalidate ==> nodes * config.present <= log.settled
    requires fails == if config.hashvalidate then nodes - config.present - config.valid else {}
    requires forall t :: t in r.covered || t in r.notcovered ==> t in log.dispatched || t in log.settled
    ensures SceneFates(ss, hard, config, unskippable, targets, r, log)
  {
    var p := PolicyOf(config, unskippable, targets);
    assert forall t :: t in nodes ==> (Refused(p, fails, t) <==> NotWanted(config, targets, t));
    hide Unwanted, Refused, NotWanted, Kept;
  }

  /** The same in terms of the graph of hard dependencies that the queue of setscene tasks is given, with
      how each task has ended up. */
  ghost predicate SceneRun(ss: set<Node>, hard: Graph, config: Config, unskippable: set<Node>, targets: set<Node>,
                           finished: bool, r: Restored, log: SceneLog)
  {
    && SceneFates(ss, hard, config, unskippable, targets, r, log)
    && Distinct(log.dispatched)
    && (forall t :: t in log.dispatched ==> t !in log.settled)
    && (finished ==> forall t :: t in r.covered || t in r.notcovered <==> t in log.dispatched || t in log.settled)
    && (forall t, p :: t in log.dispatched && Needs(hard, p, t) ==> p in r.covered && p !in r.notcovered)
    && (finished ==> forall t :: t in ss ==> Settled(log.req, hard, ss, r.covered, r.notcovered, t))
  }

  /** The queue of setscene tasks, set up and run. */
  method RunScene(ss: set<Node>, req: Graph, hard: Graph, unskippable: set<Node>, targets: set<Node>, config: Config,
                  turns: nat)
    returns (o: SceneEnd, r: Restored, ghost log: SceneLog)
    requires Closed(req) && config.numberTasks >= 1 && ss <= req.Keys && Closed(hard) && hard.Keys == req.Keys
    requires forall p, t :: Needs(hard, p, t) ==> t in req && p in req[t]
    ensures !o.BadHard? && BreaksOff(req.Keys, hard, config.limit, r, o.Overran?)
    ensures o.Ended? ==> r.covered <= req.Keys && r.covered !! r.notcovered && log.req == req
    ensures o.Ended? ==> SceneRun(ss, hard, config, unskippable, targets, o.finished, r, log)
    ensures o.Ended? && config.prompt && turns > 2 * |req| ==> o.finished
  {
    hide Unwanted, Refused, Reasoned, SceneFates, NotWanted, GivenUp, Kept;
    hide Closed, Distinct, Released, Settled, Needs, Left, LeadsToCycle, Harmless;
    hide RunQueueExecuteScenequeue.Valid, RunQueueExecuteScenequeue.Work;
    var list := Listed(ss);
    var scene := new RunQueueExecuteScenequeue(list, req, hard, config.numberTasks,
                                               PolicyOf(config, unskippable, targets), config.limit);
    scene.Prevalidate();
    var ok := scene.Run(turns, config.prompt);
    o, r := if ok then Ended(scene.finished) else Overran, Restored(scene.covered, scene.notcovered);
    log := SceneLog(scene.dispatched, scene.settled, scene.notneeded, req);
    assert scene.SceneTasks() == ss;
    if ok {
      FatesFound(ss, hard, config, unskippable, targets, scene.outrightfail, req.Keys, r, log);
    }
    assert |req.Keys| == |req|;
  }

  lemma SceneMeans(g: Graph, ss: set<Node>, idepends: Graph, req: Graph, hard: Graph, config: Config, finished: bool,
                   unskippable: set<Node>, targets: set<Node>, r: Restored, log: SceneLog)
    requires SceneRun(ss, hard, config, unskippable, targets, finished, r, log) && log.req == req
    requires unskippable == set t | t in ss && Unskippable(g, ss, t)
    requires forall t, p :: t in idepends && p in idepends[t] ==> Needs(hard, p, t)
    requires SameEdges(hard, HardGraph(idepends, g.Keys))
    ensures Logs(idepends, config, finished, r, log) && Fates(g, ss, idepends, config, targets, r, log)
    ensures finished ==> AllSettled(g, ss, idepends, r, req)
  {
    hide GivenUp, Stranded, Needs, HardGraph, Distinct, LeadsToCycle, SameEdges;
    forall q ensures GivenUp(hard, r.notcovered, q) ==> GivenUp(HardGraph(idepends, g.Keys), r.notcovered, q) {
      SameEdgesLead(hard, HardGraph(idepends, g.Keys), r.notcovered, q);
    }
    if finished {
      forall t | t in ss ensures Settled(req, HardGraph(idepends, g.Keys), ss, r.covered, r.notcovered, t) {
        SameEdgesLead(hard, HardGraph(idepends, g.Keys), r.notcovered, t);
      }
    }
  }

  lemma BreaksOffLikewise(small: Graph, big: Graph, few: set<Node>, many: set<Node>, limit: nat, r: Restored,
                          broken: bool)
    requires SameEdges(small, big) && few <= many && BreaksOff(few, small, limit, r, broken)
    ensures BreaksOff(many, big, limit, r, broken)
  {
    hide LeadsToCycle, GivenUp, SameEdges;
    SubsetSize(few, many);
    forall t ensures LeadsToCycle(small, t) <==> LeadsToCycle(big, t) {
      SameEdgesLead(small, big, {}, t);
    }
  }

  /** The setscene stage, on a prepared graph. */
  method Restore(depends: Graph, revdeps: Graph, config: Config, targets: set<Node>, turns: nat)
    returns (o: SceneEnd, r: Restored, ghost log: SceneLog)
    requires Closed(depends) && Acyclic(depends) && revdeps == Inverse(depends) && config.numberTasks >= 1
    ensures var own := SceneDepends(config.idepends, config.hasSetscene * depends.Keys);
            o.BadHard? <==> exists t, p :: t in own && p in own[t] && p !in depends
    ensures var own := SceneDepends(config.idepends, config.hasSetscene * depends.Keys);
            !o.BadHard? ==>
              BreaksOff(depends.Keys, HardGraph(own, depends.Keys), config.limit, r, o.Overran?)
    ensures o.Ended? ==> r.covered <= depends.Keys && r.covered !! r.notcovered
    ensures var own := SceneDepends(config.idepends, config.hasSetscene * depends.Keys);
            o.Ended? ==>
              Requirements(depends, config.hasSetscene * depends.Keys, own, log.req) &&
              Logs(own, config, o.finished, r, log) &&
              Fates(depends, config.hasSetscene * depends.Keys, own, config, targets, r, log)
    ensures var own := SceneDepends(config.idepends, config.hasSetscene * depends.Keys);
            o.Ended? && o.finished ==> AllSettled(depends, config.hasSetscene * depends.Keys, own, r, log.req)
    ensures o.Ended? && config.prompt && turns > 2 * |depends| ==> o.finished
  {
    hide Closed, Acyclic, Inverse, Squashed, HardOf, Resolved, HardGraph, Total, Distinct, Unskippable, Released,
      Settled, SameEdges, BreaksOff;
    hide SceneQueue.Configured, Requirements, Stranded, Needs, Reaches, SceneRun, AllSettled, Logs;
    o, r, log := BadHard, Restored({}, {}), SceneLog([], {}, {}, map[]);
    var ss := config.hasSetscene * depends.Keys;
    var own := SceneDepends(config.idepends, ss);
    var queue := new SceneQueue(depends, revdeps, ss);
    var squash, unskippable, wrong := queue.Collapse();
    SquashedTasks(depends, ss, squash);
    var h, req, ok;
    h, req, ok := ResolveHardDeps(squash, own, depends.Keys);
    if !ok {
      return;
    }
    ResolvedFits(depends, ss, squash, own, h, req);
    RequirementKeys(depends, ss, own, req);
    RequirementsFewer(depends, ss, own, req);
    var hard := Total(h, req.Keys);
    o, r, log := RunScene(ss, req, hard, unskippable, targets, config, turns);
    BreaksOffLikewise(hard, HardGraph(own, depends.Keys), req.Keys, depends.Keys, config.limit, r, o.Overran?);
    if o.Ended? {
      SceneMeans(depends, ss, own, req, hard, config, o.finished, unskippable, targets, r, log);
    }
  }

  lemma RequirementKeys(g: Graph, ss: set<Node>, idepends: Graph, req: Graph)
    requires Requirements(g, ss, idepends, req)
    ensures ss <= req.Keys <= g.Keys
  {
  }

  lemma RequirementsFewer(g: Graph, ss: set<Node>, idepends: Graph, req: Graph)
    requires Requirements(g, ss, idepends, req)
    ensures |req| <= |g|
  {
    SubsetSize(req.Keys, g.Keys);
  }

  /** What running the tasks promises: a safe history that accounts for exactly the complete and the
      failed tasks; each task handed to a worker at most once, and never a skipped or empty one; success
      means that every task is complete; and a failure in continue mode that exactly the tasks are
      complete that neither failed nor depend on a failed one. */
  ghost predicate TasksRun(g: Graph, config: Config, skipped: set<Node>, state: State, history: seq<Event>,
                           handed: seq<Node>, complete: set<Node>, failed: seq<Node>)
  {
    && SafeHistory(g, history)
    && HandedOnce(handed, history, skipped + config.current + config.noexec)
    && (forall t :: t in complete <==> Completed(t) in history)
    && (forall t :: t in failed <==> TaskFailed(t) in history)
    && (config.abort ==> LateStarts(history) <= 1)
    && (state == Complete ==> failed == [] && complete == g.Keys)
    && (state == Failed && !config.abort ==> forall t :: t in g ==> (t in complete <==> !Blocked(g, failed, t)))
  }

  /** A build that succeeds has handed to workers exactly the tasks that are neither skipped nor empty nor
      have a current stamp, each once. */
  lemma SuccessRunsAll(g: Graph, config: Config, skipped: set<Node>, state: State, history: seq<Event>,
                       handed: seq<Node>, complete: set<Node>, failed: seq<Node>)
    requires TasksRun(g, config, skipped, state, history, handed, complete, failed) && state == Complete
    ensures Distinct(handed)
    ensures forall t :: t in handed <==>
      t in g && t !in skipped && t !in config.current && t !in config.noexec
  {
    hide Distinct, SafeHistory, LateStarts;
    forall t ensures Started(t) in history <==> t in g {
      if t in g {
        CompletedStarted(g, history, t);
      } else {
        StartedKnown(g, history, t);
      }
    }
  }

  lemma StartedKnown(g: Graph, h: seq<Event>, t: Node)
    requires SafeHistory(g, h)
    ensures Started(t) in h ==> t in g
  {
    if Started(t) in h {
      var i := IndexOfEvent(h, Started(t));
      assert SafeEvent(g, h[..i], h[i]);
    }
  }

  /** The setscene variant of a prepared task needs those of prepared tasks only. */
  ghost predicate HardKnown(idepends: Graph, hasSetscene: set<Node>, p: Graph) {
    forall t, d :: t in idepends && t in hasSetscene && t in p && d in idepends[t] ==> d in p
  }

  lemma OwnKnown(idepends: Graph, hasSetscene: set<Node>, p: Graph)
    ensures var own := SceneDepends(idepends, hasSetscene * p.Keys);
            HardKnown(idepends, hasSetscene, p) <==> forall t, d :: t in own && d in own[t] ==> d in p
  {
    var own := SceneDepends(idepends, hasSetscene * p.Keys);
    assert forall t :: t in own <==> t in idepends && t in hasSetscene && t in p;
  }

  /** The tasks that the requested targets need are prepared, restored, covered and run.  Whatever the
      workers, the stamps and the hooks answer: tasks start only after everything they depend on, no
      dependent of a failed task starts, a build that is complete has completed every needed task, and
      in continue mode a failed one has completed exactly those that do not depend on a failed task.  A
      prepared build is refused exactly if a hard dependency leads out of the prepared tasks. */
  method Build(g: Graph, targets: seq<Target>, config: Config, sceneTurns: nat, turns: nat)
    returns (o: Outcome, complete: set<Node>, failedTids: seq<Node>, r: Restored, skipped: set<Node>,
             ghost history: seq<Event>, ghost handed: seq<Node>, ghost log: SceneLog)
    requires Closed(g) && config.numberTasks >= 1 && forall t :: t in g ==> t in config.stamps
    ensures o.NotPrepared? <==>
      !(AllKnown(g, targets) && PreparedGraph(g, targets) != map[] && Acyclic(PreparedGraph(g, targets)))
    ensures !o.NotPrepared? ==>
      (o.BadHardDependency? <==> !HardKnown(config.idepends, config.hasSetscene, PreparedGraph(g, targets)))
    ensures o.Built? ==>
      TasksRun(PreparedGraph(g, targets), config, skipped, o.state, history, handed, complete, failedTids)
    ensures o.Built? ==> SkipSet(PreparedGraph(g, targets), r.covered, r.notcovered, config.invalid, skipped)
    ensures !o.NotPrepared? && !o.BadHardDependency? ==>
      var p := PreparedGraph(g, targets);
      var own := SceneDepends(config.idepends, config.hasSetscene * p.Keys);
      BreaksOff(p.Keys, HardGraph(own, p.Keys), config.limit, r, o.RestoringOverran?)
    ensures config.prompt && sceneTurns > 2 * |PreparedGraph(g, targets)| ==> !o.StillRestoring?
    ensures o.Built? && config.prompt && turns > 2 * |PreparedGraph(g, targets)| ==> o.state in {Failed, Complete}
    ensures o.Built? ==>
      forall t, d :: t in PreparedGraph(g, targets) && t !in skipped && d in PreparedGraph(g, targets)[t] ==>
        d !in skipped || d in r.covered
    ensures o.Built? ==>
      var p := PreparedGraph(g, targets);
      var ss := config.hasSetscene * p.Keys;
      var own := SceneDepends(config.idepends, ss);
      Requirements(p, ss, own, log.req) && Logs(own, config, true, r, log) && AllSettled(p, ss, own, r, log.req) &&
      Fates(p, ss, own, config, set i | 0 <= i < |targets| :: targets[i].tid, r, log)
  {
    hide Closed, Acyclic, Inverse, Weighted, HardGraph, PreparedGraph, AllKnown, DependenciesFirst, BelowCycle,
      Distinct;
    hide TasksRun, Requirements, Logs, AllSettled, SkipSet, HardKnown, SceneDepends, BreaksOff;
    complete, failedTids, r, skipped := {}, [], Restored({}, {}), {};
    history, handed, log := [], [], SceneLog([], {}, {}, map[]);
    var rqdata := new RunQueueData(g);
    var prepared := rqdata.Prepare(targets);
    if !prepared.Prepared? {
      o := NotPrepared(prepared);
      return;
    }
    var names := TargetSet(targets);
    var scene;
    scene, r, log := Restore(rqdata.depends, rqdata.revdeps, config, names, sceneTurns);
    OwnKnown(config.idepends, config.hasSetscene, rqdata.depends);
    if scene.BadHard? {
      o := BadHardDependency;
      return;
    }
    if scene.Overran? {
      o := RestoringOverran;
      return;
    }
    if !scene.finished {
      o := StillRestoring;
      return;
    }
    var skip := new CoveredTasks(rqdata.depends, rqdata.revdeps, r.covered, r.notcovered);
    skip.Compute(config.invalid);
    skipped := skip.covered;
    PreparedKnown(g, targets);
    var state;
    state, history, handed, complete, failedTids :=
      RunTasks(rqdata.depends, rqdata.revdeps, rqdata.weight, config, skipped, turns);
    o := Built(state);
  }

  function TargetSet(targets: seq<Target>): set<Node> {
    set i | 0 <= i < |targets| :: targets[i].tid
  }

  /** The last stage: every task that is not skipped is run. */
  method RunTasks(depends: Graph, revdeps: Graph, weight: map<Node, int>, config: Config, skipped: set<Node>,
                  turns: nat)
    returns (state: State, ghost history: seq<Event>, ghost handed: seq<Node>, complete: set<Node>,
             failedTids: seq<Node>)
    requires Closed(depends) && Acyclic(depends) && revdeps == Inverse(depends) && Weighted(depends, weight)
    requires config.numberTasks >= 1 && forall t :: t in depends ==> t in config.stamps
    ensures TasksRun(depends, config, skipped, state, history, handed, complete, failedTids)
    ensures config.prompt && turns > 2 * |depends| ==> state in {Failed, Complete}
  {
    hide Closed, Acyclic, Inverse, Weighted, Distinct, SafeHistory, Blocked;
    hide RunQueueExecuteTasks.Valid, RunQueueScheduler.Valid, LateStarts;
    var tasks := Listed(depends.Keys);
    var exec := new RunQueueExecuteTasks(depends, revdeps, weight, tasks, config.stamps, config.kind,
                                         config.numberTasks, config.abort, config.noexec, skipped, config.current);
    exec.Run(turns, config.prompt);
    state, history, handed := exec.state, exec.history, exec.handed;
    complete, failedTids := exec.runqComplete, exec.failedTids;
  }

  lemma PreparedKnown(g: Graph, targets: seq<Target>)
    ensures PreparedGraph(g, targets).Keys <= g.Keys
  {
  }
}
