/** Whether a task's stamp is current, looked up through a cache. */
module StampCheck {
  import opened Graphs
  import opened Wrappers
  import NameCodecs

  /** How far a task's dependencies count. */
  datatype Policy = PerFile | Full | Whitelist(fns: map<string, set<string>>)

  /** The files as they are during the checks: modification times of stamps, None for a missing file. */
  datatype Snapshot = Snapshot(stamp: map<Node, int>, sceneStamp: map<Node, int>, nostamp: set<Node>,
                               sceneNostamp: set<Node>, sceneNamed: set<Node>, policy: Policy)
  {
    function Time(t: Node): Option<int> {
      if t in stamp then Some(stamp[t]) else None
    }

    function SceneTime(t: Node): Option<int> {
      if t in sceneStamp then Some(sceneStamp[t]) else None
    }
  }

  function FnOf(tid: Node): string {
    match NameCodecs.SplitTidMcfn(tid)
    case Some(p) => p.fn
    case None => tid
  }

  function McOf(tid: Node): string {
    match NameCodecs.SplitTidMcfn(tid)
    case Some(p) => p.mc
    case None => ""
  }

  /** A missing time and the time 0 are both false. */
  predicate Truthy(t: Option<int>) {
    t.Some? && t.value != 0
  }

  /** The setscene stamp of `d` stands in for its own stamp. */
  predicate Overridden(s: Snapshot, d: Node) {
    Truthy(s.SceneTime(d)) && (!Truthy(s.Time(d)) || s.SceneTime(d).value > s.Time(d).value)
  }

  predicate InScope(s: Snapshot, t: Node, d: Node) {
    FnOf(t) == FnOf(d) ||
    match s.policy
    case PerFile => false
    case Full => true
    case Whitelist(fns) => !(McOf(t) in fns && FnOf(d) in fns[McOf(t)])
  }

  /** The stamp of `d` counts for `t`. */
  predicate Relevant(s: Snapshot, t: Node, d: Node) {
    !Overridden(s, d) && InScope(s, t, d)
  }

  /** As far as the files tell, `t` is not older than `d`. */
  predicate NotOlder(s: Snapshot, t: Node, d: Node) {
    Truthy(s.Time(d)) && s.Time(t).Some? && !(s.Time(t).value < s.Time(d).value)
  }

  predicate HasStamp(s: Snapshot, t: Node) {
    t in s.stamp && t !in s.nostamp
  }

  /** What the check says about one task, not looking further than its dependencies' stamps. */
  ghost predicate LocallyCurrent(g: Graph, s: Snapshot, t: Node)
    requires t in g
  {
    HasStamp(s, t) && (t in s.sceneNamed || forall d :: d in g[t] && Relevant(s, t, d) ==> NotOlder(s, t, d))
  }

  /** The uncached recursive definition. */
  ghost predicate Current(g: Graph, s: Snapshot, t: Node)
    requires Closed(g) && Acyclic(g) && t in g
    decreases Rank(g, t)
  {
    LocallyCurrent(g, s, t) &&
    (t in s.sceneNamed ||
     forall d :: d in g[t] && Relevant(s, t, d) ==> (RankDecreases(g, t, d); Current(g, s, d)))
  }

  /** A chain of tasks each of whose stamps counts for the one before. */
  ghost predicate RelevantPath(g: Graph, s: Snapshot, p: seq<Node>) {
    && |p| > 0
    && p[0] in g
    && (|p| > 1 ==> p[0] !in s.sceneNamed && p[1] in g[p[0]] && Relevant(s, p[0], p[1]) && RelevantPath(g, s, p[1..]))
  }

  ghost predicate StaleBelow(g: Graph, s: Snapshot, t: Node) {
    exists p :: RelevantPath(g, s, p) && p[0] == t && p[|p| - 1] in g && !LocallyCurrent(g, s, p[|p| - 1])
  }

  lemma StaleAbove(g: Graph, s: Snapshot, t: Node, d: Node)
    requires Closed(g) && t in g && d in g[t] && t !in s.sceneNamed && Relevant(s, t, d) && StaleBelow(g, s, d)
    ensures StaleBelow(g, s, t)
  {
    hide LocallyCurrent, Relevant;
    var p :| RelevantPath(g, s, p) && p[0] == d && p[|p| - 1] in g && !LocallyCurrent(g, s, p[|p| - 1]);
    assert ([t] + p)[1..] == p;
    assert RelevantPath(g, s, [t] + p);
    assert ([t] + p)[|p|] == p[|p| - 1];
  }

  lemma StaleStep(g: Graph, s: Snapshot, t: Node) returns (d: Node)
    requires Closed(g) && t in g && StaleBelow(g, s, t) && LocallyCurrent(g, s, t)
    ensures d in g[t] && t !in s.sceneNamed && Relevant(s, t, d) && StaleBelow(g, s, d)
  {
    hide LocallyCurrent, Relevant;
    var p :| RelevantPath(g, s, p) && p[0] == t && p[|p| - 1] in g && !LocallyCurrent(g, s, p[|p| - 1]);
    d := p[1];
    assert RelevantPath(g, s, p[1..]) && p[1..][|p| - 2] == p[|p| - 1];
  }

  /** A task is current exactly if no chain of stamps that count leads from it to a stale task. */
  lemma {:induction false} CurrentMeans(g: Graph, s: Snapshot, t: Node)
    requires Closed(g) && Acyclic(g) && t in g
    ensures Current(g, s, t) <==> !StaleBelow(g, s, t)
    decreases Rank(g, t)
  {
    forall d | d in g[t] ensures Current(g, s, d) <==> !StaleBelow(g, s, d) {
      RankDecreases(g, t, d);
      CurrentMeans(g, s, d);
    }
    if !LocallyCurrent(g, s, t) {
      assert RelevantPath(g, s, [t]) && StaleBelow(g, s, t);
    } else if StaleBelow(g, s, t) {
      var d := StaleStep(g, s, t);
    } else {
      forall d | d in g[t] && t !in s.sceneNamed && Relevant(s, t, d) ensures !StaleBelow(g, s, d) {
        if StaleBelow(g, s, d) {
          StaleAbove(g, s, t, d);
        }
      }
    }
    hide LocallyCurrent, StaleBelow, Relevant, RelevantPath, Acyclic, Rank;
  }

  // ---- What the policies amount to -----------------------------------------------------------------

  /** The file and the configuration of a task are those that its id has been made of. */
  lemma FileOfBuilt(mc: string, fn: string, taskname: string)
    requires NameCodecs.TidPartsOk(mc, fn, taskname)
    ensures FnOf(NameCodecs.BuildTid(mc, fn, taskname)) == fn && McOf(NameCodecs.BuildTid(mc, fn, taskname)) == mc
  {
    NameCodecs.SplitBuildTid(mc, fn, taskname);
  }

  /** The whitelist of the configuration of `t` names the file of `d`. */
  predicate Listed(fns: map<string, set<string>>, t: Node, d: Node) {
    McOf(t) in fns && FnOf(d) in fns[McOf(t)]
  }

  /** A dependency without a setscene stamp must have a stamp that is not newer if it belongs to the file of
      the task; under `Full` always; and under a whitelist if its file is not listed. */
  lemma MustBeFresh(g: Graph, s: Snapshot, t: Node, d: Node)
    requires t in g && d in g[t] && LocallyCurrent(g, s, t) && t !in s.sceneNamed && d !in s.sceneStamp
    requires FnOf(d) == FnOf(t) || s.policy.Full? || (s.policy.Whitelist? && !Listed(s.policy.fns, t, d))
    ensures t in s.stamp && d in s.stamp && s.stamp[d] != 0 && s.stamp[d] <= s.stamp[t]
  {
    assert Relevant(s, t, d);
  }

  /** The files say the same about a task. */
  predicate SameFiles(s: Snapshot, s': Snapshot, t: Node) {
    && s.Time(t) == s'.Time(t) && s.SceneTime(t) == s'.SceneTime(t)
    && (t in s.nostamp <==> t in s'.nostamp) && (t in s.sceneNamed <==> t in s'.sceneNamed)
  }

  /** Dependencies of another file do not matter under `PerFile`, and under a whitelist if that file is listed:
      the answer is the same for any two states of the files that agree on all tasks but such. */
  lemma {:induction false} DoesNotMatter(g: Graph, s: Snapshot, s': Snapshot, tasks: set<Node>, t: Node)
    requires Closed(g) && Acyclic(g) && t in g && t in tasks
    requires s'.policy == s.policy && forall x :: x in tasks ==> SameFiles(s, s', x)
    requires forall x, d :: x in tasks && x in g && d in g[x] && d !in tasks ==>
      FnOf(d) != FnOf(x) && (s.policy.PerFile? || (s.policy.Whitelist? && Listed(s.policy.fns, x, d)))
    ensures LocallyCurrent(g, s, t) <==> LocallyCurrent(g, s', t)
    ensures Current(g, s, t) <==> Current(g, s', t)
    decreases Rank(g, t)
  {
    forall d | d in g[t]
      ensures d in tasks ==> (Relevant(s, t, d) <==> Relevant(s', t, d))
      ensures d in tasks ==> (NotOlder(s, t, d) <==> NotOlder(s', t, d))
      ensures d in tasks ==> (Current(g, s, d) <==> Current(g, s', d))
      ensures d !in tasks ==> !Relevant(s, t, d) && !Relevant(s', t, d)
    {
      if d in tasks {
        assert SameFiles(s, s', t) && SameFiles(s, s', d);
        RankDecreases(g, t, d);
        DoesNotMatter(g, s, s', tasks, d);
      }
    }
    assert SameFiles(s, s', t);
    hide Relevant, NotOlder, Acyclic, Rank;
  }

  /** Under `PerFile`, the default, only the tasks of the task's own file matter. */
  lemma PerFileIsOwn(g: Graph, s: Snapshot, s': Snapshot, t: Node)
    requires Closed(g) && Acyclic(g) && t in g && s.policy == s'.policy == PerFile
    requires forall x :: x in g && FnOf(x) == FnOf(t) ==> SameFiles(s, s', x)
    ensures Current(g, s, t) <==> Current(g, s', t)
  {
    var own := set x | x in g && FnOf(x) == FnOf(t);
    DoesNotMatter(g, s, s', own, t);
  }

  /** With `Full` and no setscene stamps a task is current exactly if it and all that it needs have stamps, and
      none of them is older than that of a dependency. */
  lemma {:induction false} FullMeans(g: Graph, s: Snapshot, t: Node)
    requires Closed(g) && Acyclic(g) && t in g && s.policy.Full? && s.sceneStamp == map[] && s.sceneNamed == {}
    ensures Current(g, s, t) <==> forall x :: (x == t || Reaches(g, t, x)) && x in g ==> Stamped(g, s, x)
    decreases Rank(g, t)
  {
    hide Acyclic, Rank, Reaches;
    forall d | d in g[t]
      ensures d in g && Relevant(s, t, d)
      ensures Current(g, s, d) <==> forall x :: (x == d || Reaches(g, d, x)) && x in g ==> Stamped(g, s, x)
      ensures forall x :: x == d || Reaches(g, d, x) ==> Reaches(g, t, x)
    {
      RankDecreases(g, t, d);
      FullMeans(g, s, d);
      forall x | x == d || Reaches(g, d, x) ensures Reaches(g, t, x) {
        if x == d {
          EdgeReaches(g, t, d);
        } else {
          EdgeThenReaches(g, t, d, x);
        }
      }
    }
    forall x | Reaches(g, t, x) ensures exists d :: d in g[t] && (x == d || Reaches(g, d, x)) {
      var d := ReachesFirstStep(g, t, x);
    }
    LocallyStamped(g, s, t);
    hide Relevant, LocallyCurrent, Stamped;
  }

  /** The task has a stamp, and none of its dependencies lacks one or has a newer one, but those whose setscene
      stamp is newer than their own or stands alone. */
  predicate Stamped(g: Graph, s: Snapshot, t: Node)
    requires t in g
  {
    && t in s.stamp && t !in s.nostamp
    && forall d :: d in g[t] ==>
         || (d in s.stamp && s.stamp[d] != 0 && s.stamp[d] <= s.stamp[t])
         || (d in s.sceneStamp && s.sceneStamp[d] != 0 &&
             (d in s.stamp && s.stamp[d] != 0 ==> s.stamp[d] < s.sceneStamp[d]))
  }

  /** With `Full`, what the check says without looking further. */
  lemma LocallyStamped(g: Graph, s: Snapshot, t: Node)
    requires t in g && s.policy.Full? && t !in s.sceneNamed
    ensures LocallyCurrent(g, s, t) <==> Stamped(g, s, t)
  {
    assert forall d :: InScope(s, t, d);
  }

  class StampChecker {
    const depends: Graph
    const files: Snapshot
    var cache: map<Node, bool>

    ghost predicate Valid()
      reads this
    {
      && Closed(depends)
      && Acyclic(depends)
      && forall t :: t in cache ==> t in depends && cache[t] == Current(depends, files, t)
    }

    constructor (depends: Graph, files: Snapshot)
      requires Closed(depends) && Acyclic(depends)
      ensures Valid() && this.depends == depends && this.files == files && cache == map[]
    {
      this.depends, this.files, this.cache := depends, files, map[];
    }

    /** The stamp of a task or, with `variant`, of its setscene variant; `recurse` also checks what the
        task depends on, and remembers the answers. */
    method CheckStampTask(tid: Node, variant: bool, recurse: bool) returns (current: bool)
      requires Valid() && tid in depends
      modifies this`cache
      ensures Valid()
      ensures variant ==> current == (tid in files.sceneStamp && tid !in files.sceneNostamp)
      ensures !variant && recurse ==> current == Current(depends, files, tid)
      ensures !variant && !recurse ==> current == LocallyCurrent(depends, files, tid)
      ensures variant || !recurse ==> cache == old(cache)
      decreases Rank(depends, tid)
    {
      hide Acyclic, Closed, Rank, Relevant, NotOlder;
      if variant {
        return tid in files.sceneStamp && tid !in files.sceneNostamp;
      }
      if tid !in files.stamp {
        return false;
      }
      if tid in files.nostamp {
        return false;
      }
      if tid in files.sceneNamed {
        return true;
      }
      current := true;
      var todo := depends[tid];
      while todo != {}
        invariant todo <= depends[tid] && Valid()
        invariant !recurse ==> cache == old(cache)
        invariant current ==> forall d :: d in depends[tid] && d !in todo ==> Passes(tid, d, recurse)
        invariant !current ==> exists d :: d in depends[tid] && !Passes(tid, d, recurse)
        decreases todo
      {
        var dep :| dep in todo;
        todo := todo - {dep};
        if current {
          DepKnown(tid, dep, recurse);
          if Truthy(files.SceneTime(dep)) && !Truthy(files.Time(dep)) {
            continue;
          }
          if Truthy(files.SceneTime(dep)) && files.SceneTime(dep).value > files.Time(dep).value {
            continue;
          }
          if InScope(files, tid, dep) {
            if !Truthy(files.Time(dep)) {
              current := false;
              break;
            }
            if files.stamp[tid] < files.Time(dep).value {
              current := false;
              break;
            }
            if recurse && current {
              if dep in cache {
                current := cache[dep];
              } else {
                current := CheckStampTask(dep, false, true);
                cache := cache[dep := current];
              }
            }
          }
        }
      }
      Verdict(tid, recurse, current);
      if recurse {
        cache := cache[tid := current];
      }
    }

    /** What a dependency must be for the task's stamp to stand. */
    ghost predicate Passes(tid: Node, d: Node, recurse: bool)
      requires Closed(depends) && Acyclic(depends) && tid in depends
    {
      d in depends && (Relevant(files, tid, d) ==> NotOlder(files, tid, d) && (recurse ==> Current(depends, files, d)))
    }

    lemma DepKnown(tid: Node, dep: Node, recurse: bool)
      requires Closed(depends) && Acyclic(depends) && tid in depends && dep in depends[tid] && tid in files.stamp
      ensures dep in depends && Rank(depends, dep) < Rank(depends, tid)
      ensures Relevant(files, tid, dep) <==> !Overridden(files, dep) && InScope(files, tid, dep)
      ensures NotOlder(files, tid, dep) <==> Truthy(files.Time(dep)) && !(files.stamp[tid] < files.Time(dep).value)
    {
      RankDecreases(depends, tid, dep);
    }

    lemma Verdict(tid: Node, recurse: bool, current: bool)
      requires Closed(depends) && Acyclic(depends) && tid in depends
      requires HasStamp(files, tid) && tid !in files.sceneNamed
      requires current ==> forall d :: d in depends[tid] ==> Passes(tid, d, recurse)
      requires !current ==> exists d :: d in depends[tid] && !Passes(tid, d, recurse)
      ensures recurse ==> current == Current(depends, files, tid)
      ensures !recurse ==> current == LocallyCurrent(depends, files, tid)
    {
      assert forall d :: d in depends[tid] ==> d in depends;
      hide Relevant, NotOlder, Acyclic;
    }
  }
}
