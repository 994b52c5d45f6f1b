/** The report of the paths that lead to unsupported recipes: `dump_dependencies` in
    meta-ostro's `supportedrecipes.py`. */
module DependencyReport {
  import opened Graphs

  type Line = seq<Node>

  // ---- Python's order on strings and `sorted` of a set ----------------------------------------

  predicate Before(a: string, b: string) {
    if b == "" then false
    else if a == "" then true
    else a[0] < b[0] || (a[0] == b[0] && Before(a[1..], b[1..]))
  }

  lemma {:induction false} BeforeTotal(a: string, b: string)
    ensures Before(a, b) || Before(b, a) || a == b
    ensures !(Before(a, b) && Before(b, a)) && !Before(a, a)
  {
    if a != "" && b != "" {
      BeforeTotal(a[1..], b[1..]);
      assert a == [a[0]] + a[1..] && b == [b[0]] + b[1..];
    }
    if a != "" {
      BeforeTotal(a[1..], a[1..]);
    }
  }

  lemma {:induction false} BeforeTransitive(a: string, b: string, c: string)
    requires Before(a, b) && Before(b, c)
    ensures Before(a, c)
  {
    if a != "" && a[0] == b[0] && b[0] == c[0] {
      BeforeTransitive(a[1..], b[1..], c[1..]);
    }
  }

  /** That is the lexicographic order: where they first differ, the smaller character or the end comes first. */
  lemma {:induction false} BeforeMeans(a: string, b: string)
    ensures Before(a, b) <==>
      exists i: nat :: i <= |a| && i < |b| && a[..i] == b[..i] && (i == |a| || a[i] < b[i])
  {
    if a != "" && b != "" && a[0] == b[0] {
      BeforeMeans(a[1..], b[1..]);
      if Before(a, b) {
        var i: nat :| i <= |a[1..]| && i < |b[1..]| && a[1..][..i] == b[1..][..i] &&
          (i == |a[1..]| || a[1..][i] < b[1..][i]);
        assert a[..i + 1] == [a[0]] + a[1..][..i] && b[..i + 1] == [b[0]] + b[1..][..i];
      }
      if i: nat :| i <= |a| && i < |b| && a[..i] == b[..i] && (i == |a| || a[i] < b[i]) {
        assert i > 0;
        assert a[1..][..i - 1] == a[..i][1..] && b[1..][..i - 1] == b[..i][1..];
      }
    } else if b != "" {
      assert a[..0] == b[..0];
      assert forall i: nat :: 0 < i <= |a| && i < |b| ==> a[..i][0] == a[0] && b[..i][0] == b[0];
    }
  }

  predicate Least(m: string, s: set<string>) {
    m in s && forall x :: x in s ==> x == m || Before(m, x)
  }

  lemma {:induction false} HasLeast(s: set<string>)
    requires s != {}
    ensures exists m :: Least(m, s)
  {
    var x :| x in s;
    if s == {x} {
      assert Least(x, s);
    } else {
      var t := s - {x};
      assert s == t + {x};
      HasLeast(t);
      var m :| Least(m, t);
      BeforeTotal(x, m);
      if Before(x, m) {
        forall y | y in s ensures y == x || Before(x, y) {
          if y != x && y != m { BeforeTransitive(x, m, y); }
        }
        assert Least(x, s);
      } else {
        assert Least(m, s);
      }
    }
  }

  lemma LeastUnique(m: string, n: string, s: set<string>)
    requires Least(m, s) && Least(n, s)
    ensures m == n
  {
    BeforeTotal(m, n);
  }

  predicate Increasing(s: seq<string>) {
    forall i, j :: 0 <= i < j < |s| ==> Before(s[i], s[j])
  }

  function Sorted(s: set<string>): (r: seq<string>)
    ensures Increasing(r)
    ensures forall x :: x in r <==> x in s
  {
    if s == {} then []
    else
      HasLeast(s);
      assert forall m, n :: Least(m, s) && Least(n, s) ==> m == n by {
        forall m, n | Least(m, s) && Least(n, s) ensures m == n { LeastUnique(m, n, s); }
      }
      var m :| Least(m, s);
      [m] + Sorted(s - {m})
  }

  // ---- The recipe graph -------------------------------------------------------------------------

  /** `task.split('.')[0]`. */
  function RecipeOf(task: string): string {
    if task == "" || task[0] == '.' then "" else [task[0]] + RecipeOf(task[1..])
  }

  type TaskDepends = map<string, seq<string>>

  /** The recipes of the tasks in `taskdeps`, apart from `pn` itself. */
  ghost function Others(taskdeps: seq<string>, pn: Node): set<Node> {
    set k | 0 <= k < |taskdeps| && RecipeOf(taskdeps[k]) != pn :: RecipeOf(taskdeps[k])
  }

  ghost function NeededBy(tdepends: TaskDepends, tasks: set<string>, r: Node): set<Node> {
    set t, d | t in tasks && t in tdepends && RecipeOf(t) == r && d in Others(tdepends[t], r) :: d
  }

  ghost function NeededByAny(tdepends: TaskDepends, tasks: set<string>): set<Node> {
    set t, d | t in tasks && t in tdepends && d in Others(tdepends[t], RecipeOf(t)) :: d
  }

  ghost function AllRecipes(pns: set<Node>, tdepends: TaskDepends): set<Node> {
    pns + (set t | t in tdepends :: RecipeOf(t)) + NeededByAny(tdepends, tdepends.Keys)
  }

  /** Which recipes each recipe needs through any of its tasks. */
  ghost function RecipeGraph(pns: set<Node>, tdepends: TaskDepends): (g: Graph)
    ensures Closed(g)
  {
    map r | r in AllRecipes(pns, tdepends) :: NeededBy(tdepends, tdepends.Keys, r)
  }

  /** The name of the task is that of the recipe, alone or with a dot and more behind it. */
  predicate TaskOfRecipe(task: string, pn: Node) {
    '.' !in pn && (task == pn || pn + "." <= task)
  }

  /** The recipe of a task is the one that its name begins with. */
  lemma {:induction false} RecipeOfIff(task: string, pn: Node)
    ensures RecipeOf(task) == pn <==> TaskOfRecipe(task, pn)
  {
    assert pn != "" ==> pn[0] in pn;
    if task != "" && task[0] != '.' {
      RecipeOfIff(task[1..], if pn == "" then "" else pn[1..]);
      assert task == [task[0]] + task[1..];
      if pn != "" {
        FirstOfRecipe(task, pn);
      }
    }
  }

  lemma FirstOfRecipe(task: string, pn: Node)
    requires task != "" && task[0] != '.' && pn != ""
    ensures TaskOfRecipe(task, pn) <==> task[0] == pn[0] && TaskOfRecipe(task[1..], pn[1..])
  {
    assert pn == [pn[0]] + pn[1..] && task == [task[0]] + task[1..];
    assert (pn + ".")[1..] == pn[1..] + "." && (pn + ".")[0] == pn[0];
    assert '.' in pn <==> pn[0] == '.' || '.' in pn[1..];
  }

  /** Some task of `r` depends on a task of `d`. */
  ghost predicate TaskEdge(tdepends: TaskDepends, r: Node, d: Node) {
    exists t, k :: t in tdepends && 0 <= k < |tdepends[t]| && TaskOfRecipe(t, r) && TaskOfRecipe(tdepends[t][k], d)
  }

  /** The recipe graph in terms of the names of the tasks: one recipe needs another exactly if a task of the one
      depends on a task of the other. */
  lemma RecipeEdges(pns: set<Node>, tdepends: TaskDepends, r: Node, d: Node)
    ensures var g := RecipeGraph(pns, tdepends);
            r in g && d in g[r] <==> r != d && TaskEdge(tdepends, r, d)
  {
    hide RecipeOf, TaskOfRecipe;
    var g := RecipeGraph(pns, tdepends);
    forall t, pn ensures RecipeOf(t) == pn <==> TaskOfRecipe(t, pn) {
      RecipeOfIff(t, pn);
    }
    if r in g && d in g[r] {
      var t :| t in tdepends && RecipeOf(t) == r && d in Others(tdepends[t], r);
      var k :| 0 <= k < |tdepends[t]| && RecipeOf(tdepends[t][k]) == d;
      assert TaskOfRecipe(t, r) && TaskOfRecipe(tdepends[t][k], d);
    }
    if r != d && TaskEdge(tdepends, r, d) {
      var t, k :| t in tdepends && 0 <= k < |tdepends[t]| && TaskOfRecipe(t, r) && TaskOfRecipe(tdepends[t][k], d);
      assert RecipeOf(tdepends[t][k]) != r && d in Others(tdepends[t], r);
      assert d in NeededBy(tdepends, tdepends.Keys, r);
    }
  }

  /** A root is a recipe that no task of another one depends on. */
  lemma RootsMean(pns: set<Node>, tdepends: TaskDepends, r: Node)
    ensures r in Roots(RecipeGraph(pns, tdepends), pns) <==>
      r in pns && forall q :: q != r ==> !TaskEdge(tdepends, q, r)
  {
    hide RecipeGraph, TaskEdge;
    forall q ensures q in Dependents(RecipeGraph(pns, tdepends), r) <==> q != r && TaskEdge(tdepends, q, r) {
      RecipeEdges(pns, tdepends, q, r);
    }
  }

  // ---- What the report should hold ----------------------------------------------------------------

  /** `p` depends step by step from its first recipe to an unsupported one below which no
      unsupported recipe can be reached. */
  ghost predicate Final(g: Graph, unsupported: set<Node>, p: Line) {
    IsPath(g, p) && p[|p| - 1] in unsupported && !ReachesAny(g, p[|p| - 1], unsupported)
  }

  ghost predicate ReachesAny(g: Graph, a: Node, s: set<Node>) {
    exists u :: u in s && Reaches(g, a, u)
  }

  ghost predicate Clear(g: Graph, unsupported: set<Node>, pn: Node) {
    pn !in unsupported && !ReachesAny(g, pn, unsupported)
  }

  lemma ClearDependencies(g: Graph, unsupported: set<Node>, pn: Node)
    requires Closed(g) && pn in g
    ensures !ReachesAny(g, pn, unsupported) <==> forall d :: d in g[pn] ==> Clear(g, unsupported, d)
  {
    forall d | d in g[pn] && !Clear(g, unsupported, d) ensures ReachesAny(g, pn, unsupported) {
      if d in unsupported {
        EdgeReaches(g, pn, d);
      } else {
        var u :| u in unsupported && Reaches(g, d, u);
        EdgeThenReaches(g, pn, d, u);
      }
    }
    if u :| u in unsupported && Reaches(g, pn, u) {
      var d := ReachesFirstStep(g, pn, u);
      assert !Clear(g, unsupported, d);
    }
  }

  /** Recipes on cycles do not matter: they are not unsupported, nor do they need an unsupported one. */
  ghost predicate Tame(g: Graph, unsupported: set<Node>) {
    forall n :: n in g && Reaches(g, n, n) ==> Clear(g, unsupported, n)
  }

  lemma AcyclicIsTame(g: Graph, unsupported: set<Node>)
    requires Acyclic(g)
    ensures Tame(g, unsupported)
  {
  }

  lemma TameDescends(g: Graph, unsupported: set<Node>, n: Node, d: Node)
    requires Closed(g) && Tame(g, unsupported) && n in g && d in g[n] && !Clear(g, unsupported, d)
    ensures Rank(g, d) < Rank(g, n)
  {
    EdgeDescends(g, n, d);
  }

  /** The lines below `pn` when `prefix` leads to it, in depth-first sorted order. */
  ghost function Below(g: Graph, unsupported: set<Node>, prefix: Line, pn: Node): seq<Line>
    requires Closed(g) && Tame(g, unsupported) && pn in g
    decreases Rank(g, pn), |Sorted(g[pn])| + 1
  {
    var line := prefix + [pn];
    var deeper := BelowFrom(g, unsupported, line, pn, 0);
    if deeper == [] && pn in unsupported && |line| > 1 then [line] else deeper
  }

  ghost function BelowFrom(g: Graph, unsupported: set<Node>, line: Line, pn: Node, k: nat): seq<Line>
    requires Closed(g) && Tame(g, unsupported) && pn in g && k <= |Sorted(g[pn])|
    decreases Rank(g, pn), |Sorted(g[pn])| - k
  {
    var deps := Sorted(g[pn]);
    if k == |deps| then []
    else
      assert deps[k] in g[pn];
      if Clear(g, unsupported, deps[k]) then BelowFrom(g, unsupported, line, pn, k + 1)
      else
        TameDescends(g, unsupported, pn, deps[k]);
        Below(g, unsupported, line, deps[k]) + BelowFrom(g, unsupported, line, pn, k + 1)
  }

  ghost function Report(g: Graph, unsupported: set<Node>, roots: seq<Node>): seq<Line>
    requires Closed(g) && Tame(g, unsupported) && forall r :: r in roots ==> r in g
  {
    if roots == [] then []
    else Below(g, unsupported, [], roots[0]) + Report(g, unsupported, roots[1..])
  }

  lemma NoneInTwo<T>(a: seq<T>, b: seq<T>)
    ensures a + b == [] <==> a == [] && b == []
  {
    assert |a + b| == |a| + |b|;
  }

  /** Nothing is reported below a recipe exactly if there is nothing unsupported to report. */
  lemma {:induction false} BelowEmpty(g: Graph, unsupported: set<Node>, prefix: Line, pn: Node)
    requires Closed(g) && Tame(g, unsupported) && pn in g
    ensures Below(g, unsupported, prefix, pn) == [] <==>
            !ReachesAny(g, pn, unsupported) && (pn in unsupported ==> prefix == [])
    decreases Rank(g, pn), |Sorted(g[pn])| + 1
  {
    BelowFromEmpty(g, unsupported, prefix + [pn], pn, 0);
    ClearDependencies(g, unsupported, pn);
    hide BelowFrom, Clear, ReachesAny;
    forall d | d in g[pn] ensures d in Sorted(g[pn])[0..] {
    }
  }

  lemma {:induction false} BelowFromEmpty(g: Graph, unsupported: set<Node>, line: Line, pn: Node, k: nat)
    requires Closed(g) && Tame(g, unsupported) && pn in g && k <= |Sorted(g[pn])| && line != []
    ensures BelowFrom(g, unsupported, line, pn, k) == [] <==>
            forall d :: d in Sorted(g[pn])[k..] ==> Clear(g, unsupported, d)
    decreases Rank(g, pn), |Sorted(g[pn])| - k
  {
    hide Below, Tame, Rank, ReachesAny, Clear;
    var deps := Sorted(g[pn]);
    if k < |deps| {
      assert deps[k] in g[pn];
      BelowFromEmpty(g, unsupported, line, pn, k + 1);
      assert deps[k..] == [deps[k]] + deps[k + 1..];
      if !Clear(g, unsupported, deps[k]) {
        TameDescends(g, unsupported, pn, deps[k]);
        BelowEmpty(g, unsupported, line, deps[k]);
        ClearMeans(g, unsupported, deps[k]);
        NoneInTwo(Below(g, unsupported, line, deps[k]), BelowFrom(g, unsupported, line, pn, k + 1));
      }
    }
  }

  lemma ClearMeans(g: Graph, unsupported: set<Node>, pn: Node)
    ensures Clear(g, unsupported, pn) <==> pn !in unsupported && !ReachesAny(g, pn, unsupported)
  {
  }

  /** One more dependency; below a clear one there is nothing. */
  lemma BelowFromUnfolds(g: Graph, unsupported: set<Node>, line: Line, pn: Node, k: nat)
    requires Closed(g) && Tame(g, unsupported) && pn in g && k < |Sorted(g[pn])| && Sorted(g[pn])[k] in g
    ensures BelowFrom(g, unsupported, line, pn, k) ==
            Below(g, unsupported, line, Sorted(g[pn])[k]) + BelowFrom(g, unsupported, line, pn, k + 1)
  {
    hide Tame, Sorted, Below, ReachesAny, Clear;
    var d := Sorted(g[pn])[k];
    if Clear(g, unsupported, d) {
      ClearMeans(g, unsupported, d);
      BelowEmpty(g, unsupported, line, d);
    }
  }

  /** `l` is listed below one of the recipes in `ds`. */
  ghost predicate UnderOne(g: Graph, unsupported: set<Node>, line: Line, ds: set<Node>, l: Line)
    requires Closed(g) && Tame(g, unsupported)
  {
    exists d :: d in ds && d in g && l in Below(g, unsupported, line, d)
  }

  lemma {:induction false} BelowFromHolds(g: Graph, unsupported: set<Node>, line: Line, pn: Node, k: nat, l: Line)
    requires Closed(g) && Tame(g, unsupported) && pn in g && k <= |Sorted(g[pn])|
    ensures l in BelowFrom(g, unsupported, line, pn, k) <==>
            UnderOne(g, unsupported, line, (set d | d in Sorted(g[pn])[k..]), l)
    decreases |Sorted(g[pn])| - k
  {
    hide Below, Tame, Rank;
    var deps := Sorted(g[pn]);
    if k < |deps| {
      BelowFromHolds(g, unsupported, line, pn, k + 1, l);
      assert deps[k] in g[pn];
      assert deps[k..] == [deps[k]] + deps[k + 1..];
      BelowFromUnfolds(g, unsupported, line, pn, k);
      assert l in BelowFrom(g, unsupported, line, pn, k) <==>
        l in Below(g, unsupported, line, deps[k]) || l in BelowFrom(g, unsupported, line, pn, k + 1);
      hide BelowFrom, Sorted;
    }
  }

  /** What is listed below `pn`, one step unfolded. */
  lemma BelowStep(g: Graph, unsupported: set<Node>, prefix: Line, pn: Node, l: Line)
    requires Closed(g) && Tame(g, unsupported) && pn in g
    ensures l in Below(g, unsupported, prefix, pn) <==>
            if ReachesAny(g, pn, unsupported) || pn !in unsupported || prefix == []
            then UnderOne(g, unsupported, prefix + [pn], g[pn], l) else l == prefix + [pn]
  {
    var line := prefix + [pn];
    BelowFromHolds(g, unsupported, line, pn, 0, l);
    BelowFromEmpty(g, unsupported, line, pn, 0);
    ClearDependencies(g, unsupported, pn);
    hide Tame, Rank, ReachesAny, Clear, BelowFrom;
    var deps := Sorted(g[pn]);
    assert deps[0..] == deps;
    assert (set d | d in deps[0..]) == g[pn];
    assert (forall d :: d in deps[0..] ==> Clear(g, unsupported, d)) <==> !ReachesAny(g, pn, unsupported);
    assert l in BelowFrom(g, unsupported, line, pn, 0) <==> UnderOne(g, unsupported, line, g[pn], l);
    hide UnderOne, Sorted;
  }

  /** `l` goes on from `prefix` through `pn` to a recipe that has to be reported. */
  ghost predicate Continues(g: Graph, unsupported: set<Node>, prefix: Line, pn: Node, l: Line) {
    |l| > |prefix| && l[..|prefix|] == prefix && l[|prefix|] == pn && Final(g, unsupported, l[|prefix|..])
  }

  lemma ContinuesFurther(g: Graph, unsupported: set<Node>, prefix: Line, pn: Node, d: Node, l: Line)
    requires Closed(g) && pn in g && d in g[pn] && Continues(g, unsupported, prefix + [pn], d, l)
    ensures Continues(g, unsupported, prefix, pn, l)
  {
    hide ReachesAny;
    var n := |prefix|;
    assert l[..n + 1] == prefix + [pn];
    assert l[..n] == l[..n + 1][..n] && l[n] == l[..n + 1][n];
    assert l[n..] == [pn] + l[n + 1..] && l[n..][1..] == l[n + 1..];
  }

  lemma ContinuesThrough(g: Graph, unsupported: set<Node>, prefix: Line, pn: Node, l: Line) returns (d: Node)
    requires Closed(g) && Continues(g, unsupported, prefix, pn, l) && |l| > |prefix| + 1
    ensures pn in g && d in g[pn] && Continues(g, unsupported, prefix + [pn], d, l)
  {
    hide ReachesAny;
    var n := |prefix|;
    d := l[n + 1];
    assert l[n..][1..] == l[n + 1..] && l[n..][1] == d;
    assert l[..n + 1] == l[..n] + [l[n]];
  }

  lemma StopsHere(g: Graph, unsupported: set<Node>, prefix: Line, pn: Node, l: Line)
    requires pn in g && |l| <= |prefix| + 1
    ensures Continues(g, unsupported, prefix, pn, l) <==>
            l == prefix + [pn] && pn in unsupported && !ReachesAny(g, pn, unsupported)
  {
    hide ReachesAny;
    if |l| == |prefix| + 1 {
      assert l == l[..|prefix|] + [l[|prefix|]];
      assert l[|prefix|..] == [l[|prefix|]];
    }
  }

  lemma FinalStart(g: Graph, unsupported: set<Node>, prefix: Line, pn: Node, l: Line)
    requires Closed(g) && Continues(g, unsupported, prefix, pn, l) && |l| > |prefix| + 1
    ensures pn in g && ReachesAny(g, pn, unsupported)
  {
    var p := l[|prefix|..];
    PathNodes(g, p, 0);
    assert PathBetween(g, p, pn, p[|p| - 1]);
  }

  /** Nothing that has to be reported continues through a clear recipe. */
  lemma ClearEndsNothing(g: Graph, unsupported: set<Node>, prefix: Line, pn: Node, l: Line)
    requires Closed(g) && pn in g && Clear(g, unsupported, pn)
    ensures !Continues(g, unsupported, prefix, pn, l)
  {
    if |l| <= |prefix| + 1 {
      StopsHere(g, unsupported, prefix, pn, l);
    } else if Continues(g, unsupported, prefix, pn, l) {
      FinalStart(g, unsupported, prefix, pn, l);
    }
  }

  /** Exactly the continuations of `prefix` to a recipe that has to be reported are listed. */
  lemma {:induction false} BelowMeans(g: Graph, unsupported: set<Node>, prefix: Line, pn: Node, l: Line)
    requires Closed(g) && Tame(g, unsupported) && pn in g
    ensures l in Below(g, unsupported, prefix, pn) <==> |l| >= 2 && Continues(g, unsupported, prefix, pn, l)
    decreases Rank(g, pn)
  {
    var line := prefix + [pn];
    BelowStep(g, unsupported, prefix, pn, l);
    forall d | d in g[pn]
      ensures l in Below(g, unsupported, line, d) <==> |l| >= 2 && Continues(g, unsupported, line, d, l)
    {
      ClearMeans(g, unsupported, d);
      if Clear(g, unsupported, d) {
        BelowEmpty(g, unsupported, line, d);
        ClearEndsNothing(g, unsupported, line, d, l);
      } else {
        TameDescends(g, unsupported, pn, d);
        BelowMeans(g, unsupported, line, d, l);
      }
    }
    hide Tame, Rank, ReachesAny, Below;
    if |l| <= |prefix| + 1 {
      StopsHere(g, unsupported, prefix, pn, l);
      hide Continues;
      forall d | d in g[pn] ensures !Continues(g, unsupported, line, d, l) {
        ContinuesLength(g, unsupported, line, d, l);
      }
    } else {
      hide Continues;
      if Continues(g, unsupported, prefix, pn, l) {
        FinalStart(g, unsupported, prefix, pn, l);
        var d := ContinuesThrough(g, unsupported, prefix, pn, l);
      }
      if d :| d in g[pn] && Continues(g, unsupported, line, d, l) {
        ContinuesFurther(g, unsupported, prefix, pn, d, l);
        FinalStart(g, unsupported, prefix, pn, l);
      }
    }
  }

  lemma ContinuesLength(g: Graph, unsupported: set<Node>, prefix: Line, pn: Node, l: Line)
    ensures Continues(g, unsupported, prefix, pn, l) ==> |l| > |prefix|
  {
  }

  /** `p` and `q` part at some recipe, where `p` takes the one that sorts first. */
  ghost predicate Earlier(p: Line, q: Line) {
    exists i :: 0 <= i < |p| && i < |q| && p[..i] == q[..i] && Before(p[i], q[i])
  }

  ghost predicate Ordered(lines: seq<Line>) {
    forall i, j :: 0 <= i < j < |lines| ==> Earlier(lines[i], lines[j])
  }

  lemma OrderedJoin(a: seq<Line>, b: seq<Line>)
    requires Ordered(a) && Ordered(b)
    requires forall p, q :: p in a && q in b ==> Earlier(p, q)
    ensures Ordered(a + b)
  {
    hide Earlier;
    forall i, j | 0 <= i < j < |a + b| ensures Earlier((a + b)[i], (a + b)[j]) {
      if i < |a| <= j {
        assert a[i] in a && b[j - |a|] in b;
      }
    }
  }

  /** In an ordered report no line occurs twice or continues another. */
  lemma OrderedDistinct(lines: seq<Line>, i: nat, j: nat)
    requires Ordered(lines) && i < |lines| && j < |lines| && i != j
    ensures !(lines[i] <= lines[j])
  {
    var p, q := if i < j then lines[i] else lines[j], if i < j then lines[j] else lines[i];
    assert Earlier(p, q);
    var k :| 0 <= k < |p| && k < |q| && p[..k] == q[..k] && Before(p[k], q[k]);
    BeforeTotal(p[k], q[k]);
    BeforeTotal(p[k], p[k]);
    assert p[k] != q[k];
  }

  lemma {:induction false} BelowOrdered(g: Graph, unsupported: set<Node>, prefix: Line, pn: Node)
    requires Closed(g) && Tame(g, unsupported) && pn in g
    ensures Ordered(Below(g, unsupported, prefix, pn))
    decreases Rank(g, pn), |Sorted(g[pn])| + 1
  {
    BelowFromOrdered(g, unsupported, prefix + [pn], pn, 0);
    hide Earlier, Tame, Rank;
  }

  lemma {:induction false} BelowFromOrdered(g: Graph, unsupported: set<Node>, line: Line, pn: Node, k: nat)
    requires Closed(g) && Tame(g, unsupported) && pn in g && k <= |Sorted(g[pn])|
    ensures Ordered(BelowFrom(g, unsupported, line, pn, k))
    decreases Rank(g, pn), |Sorted(g[pn])| - k
  {
    hide Tame, Rank, Below, Clear, Sorted, Earlier;
    var deps := Sorted(g[pn]);
    if k < |deps| {
      assert deps[k] in g[pn];
      BelowFromOrdered(g, unsupported, line, pn, k + 1);
      if !Clear(g, unsupported, deps[k]) {
        TameDescends(g, unsupported, pn, deps[k]);
        BelowOrdered(g, unsupported, line, deps[k]);
        SiblingsOrdered(g, unsupported, line, pn, k);
      }
    }
  }

  lemma SiblingsOrdered(g: Graph, unsupported: set<Node>, line: Line, pn: Node, k: nat)
    requires Closed(g) && Tame(g, unsupported) && pn in g && k < |Sorted(g[pn])| && Sorted(g[pn])[k] in g
    requires Ordered(Below(g, unsupported, line, Sorted(g[pn])[k]))
    requires Ordered(BelowFrom(g, unsupported, line, pn, k + 1))
    ensures Ordered(BelowFrom(g, unsupported, line, pn, k))
  {
    hide Tame, Rank, Below, BelowFrom, Ordered, Earlier, Sorted, Closed;
    BelowFromUnfolds(g, unsupported, line, pn, k);
    var a, b := Below(g, unsupported, line, Sorted(g[pn])[k]), BelowFrom(g, unsupported, line, pn, k + 1);
    forall p, q | p in a && q in b ensures Earlier(p, q) {
      SiblingsEarlier(g, unsupported, line, pn, k, p, q);
    }
    OrderedJoin(a, b);
  }

  lemma SiblingsEarlier(g: Graph, unsupported: set<Node>, line: Line, pn: Node, k: nat, p: Line, q: Line)
    requires Closed(g) && Tame(g, unsupported) && pn in g && k < |Sorted(g[pn])| && Sorted(g[pn])[k] in g[pn]
    requires p in Below(g, unsupported, line, Sorted(g[pn])[k])
    requires q in BelowFrom(g, unsupported, line, pn, k + 1)
    ensures Earlier(p, q)
  {
    hide Tame, Rank, Below, BelowFrom, Final, Sorted;
    var deps := Sorted(g[pn]);
    BelowMeans(g, unsupported, line, deps[k], p);
    BelowFromHolds(g, unsupported, line, pn, k + 1, q);
    var d :| d in deps[k + 1..] && d in g && q in Below(g, unsupported, line, d);
    BelowMeans(g, unsupported, line, d, q);
    var j :| 0 <= j < |deps[k + 1..]| && deps[k + 1..][j] == d;
    assert deps[k + 1 + j] == d && Before(deps[k], d);
    assert p[..|line|] == line == q[..|line|];
  }

  // ---- The whole report -----------------------------------------------------------------------

  /** A line of the report: a dependency path of at least two recipes from a root to an
      unsupported recipe from which no further unsupported recipe can be reached. */
  ghost predicate Reported(g: Graph, unsupported: set<Node>, roots: seq<Node>, l: Line) {
    |l| >= 2 && l[0] in roots && Final(g, unsupported, l)
  }

  lemma ContinuesNothing(g: Graph, unsupported: set<Node>, pn: Node, l: Line)
    requires |l| >= 2
    ensures Continues(g, unsupported, [], pn, l) <==> l[0] == pn && Final(g, unsupported, l)
  {
    hide Final;
    assert l[0..] == l;
  }

  lemma {:induction false} ReportMeans(g: Graph, unsupported: set<Node>, roots: seq<Node>, l: Line)
    requires Closed(g) && Tame(g, unsupported) && forall r :: r in roots ==> r in g
    ensures l in Report(g, unsupported, roots) <==> Reported(g, unsupported, roots, l)
  {
    hide Below, Tame, Rank, Continues, Final;
    if roots != [] {
      ReportMeans(g, unsupported, roots[1..], l);
      BelowMeans(g, unsupported, [], roots[0], l);
      assert roots == [roots[0]] + roots[1..];
      if |l| >= 2 {
        ContinuesNothing(g, unsupported, roots[0], l);
      }
    }
  }

  lemma {:induction false} ReportOrdered(g: Graph, unsupported: set<Node>, roots: seq<Node>)
    requires Closed(g) && Tame(g, unsupported) && (forall r :: r in roots ==> r in g) && Increasing(roots)
    ensures Ordered(Report(g, unsupported, roots))
  {
    if roots != [] {
      ReportOrdered(g, unsupported, roots[1..]);
      BelowOrdered(g, unsupported, [], roots[0]);
      var a, b := Below(g, unsupported, [], roots[0]), Report(g, unsupported, roots[1..]);
      hide Below, Tame, Rank, Ordered;
      forall p, q | p in a && q in b ensures Earlier(p, q) {
        BelowMeans(g, unsupported, [], roots[0], p);
        ContinuesNothing(g, unsupported, roots[0], p);
        ReportMeans(g, unsupported, roots[1..], q);
        hide Continues, Final, Report;
        assert q[0] in roots[1..] && Before(p[0], q[0]) && p[..0] == q[..0];
      }
      OrderedJoin(a, b);
    }
  }

  // ---- The code ---------------------------------------------------------------------------------

  function DepsOf(deps: map<Node, seq<Node>>, pn: Node): seq<Node> {
    if pn in deps then deps[pn] else []
  }

  /** A line is worth printing only if it runs along dependencies without repeating a recipe. */
  ghost predicate SimplePath(g: Graph, p: Line) {
    IsPath(g, p) && forall i, j :: 0 <= i < j < |p| ==> p[i] != p[j]
  }

  ghost predicate Sound(g: Graph, unsupported: set<Node>, prefix: Line, l: Line) {
    |l| >= 2 && prefix <= l && SimplePath(g, l) && l[|l| - 1] in unsupported
  }

  lemma Extended(g: Graph, p: Line, pn: Node)
    requires Closed(g) && pn in g && pn !in p
    requires p == [] || (SimplePath(g, p) && pn in g[PathEnd(g, p)])
    ensures SimplePath(g, p + [pn]) && PathEnd(g, p + [pn]) == pn
  {
    if p != [] {
      PathJoin(g, p, [pn]);
    } else {
      assert IsPath(g, [pn]);
    }
  }

  /** A recipe that its own dependencies lead back to is on a cycle, and so clear. */
  lemma OnOwnPathIsClear(g: Graph, unsupported: set<Node>, p: Line, pn: Node)
    requires Closed(g) && Tame(g, unsupported) && pn in g && IsPath(g, p) && pn in g[PathEnd(g, p)] && pn in p
    ensures Clear(g, unsupported, pn)
  {
    var i :| 0 <= i < |p| && p[i] == pn;
    PathNodes(g, p, i);
    PathJoin(g, p[i..], [pn]);
    assert PathBetween(g, p[i..] + [pn], pn, pn);
  }

  /** What the lines are after listing all of `full`, or as much of it as there is room for. */
  ghost predicate Listed(before: seq<Line>, after: seq<Line>, full: seq<Line>, room: nat, truncated: bool) {
    if truncated then |before| + |full| > room && after == (before + full)[..room] else after == before + full
  }

  ghost predicate ListedBelow(g: Graph, unsupported: set<Node>, prefix: Line, pn: Node,
                              before: seq<Line>, after: seq<Line>, room: nat, truncated: bool)
    requires Closed(g) && pn in g
  {
    Tame(g, unsupported) ==> Listed(before, after, Below(g, unsupported, prefix, pn), room, truncated)
  }

  ghost predicate ListedFrom(g: Graph, unsupported: set<Node>, line: Line, pn: Node,
                             before: seq<Line>, after: seq<Line>, room: nat, truncated: bool)
    requires Closed(g) && pn in g
  {
    Tame(g, unsupported) ==> Listed(before, after, BelowFrom(g, unsupported, line, pn, 0), room, truncated)
  }

  /** The lines of the first `k` dependencies have been listed. */
  ghost predicate ListedUpTo(g: Graph, unsupported: set<Node>, line: Line, pn: Node, k: nat,
                             before: seq<Line>, after: seq<Line>)
    requires Closed(g) && pn in g && k <= |Sorted(g[pn])|
  {
    Tame(g, unsupported) ==>
      after + BelowFrom(g, unsupported, line, pn, k) == before + BelowFrom(g, unsupported, line, pn, 0)
  }

  ghost predicate NewSound(g: Graph, unsupported: set<Node>, prefix: Line, before: seq<Line>, after: seq<Line>) {
    before <= after && forall i :: |before| <= i < |after| ==> Sound(g, unsupported, prefix, after[i])
  }

  ghost predicate OkaySound(g: Graph, unsupported: set<Node>, okay: set<Node>) {
    Tame(g, unsupported) ==> forall r :: r in okay ==> r in g && Clear(g, unsupported, r)
  }

  lemma SkipOkay(g: Graph, unsupported: set<Node>, prefix: Line, pn: Node, lines: seq<Line>, okay: set<Node>, room: nat)
    requires Closed(g) && pn in g && OkaySound(g, unsupported, okay) && pn in okay
    ensures ListedBelow(g, unsupported, prefix, pn, lines, lines, room, false)
  {
    if Tame(g, unsupported) {
      BelowEmpty(g, unsupported, prefix, pn);
      hide Below, Tame, ReachesAny;
    }
  }

  lemma SkipRepeated(g: Graph, unsupported: set<Node>, prefix: Line, pn: Node, lines: seq<Line>, room: nat)
    requires Closed(g) && pn in g && SimplePath(g, prefix) && pn in g[PathEnd(g, prefix)] && pn in prefix
    ensures ListedBelow(g, unsupported, prefix, pn, lines, lines, room, false)
  {
    if Tame(g, unsupported) {
      OnOwnPathIsClear(g, unsupported, prefix, pn);
      BelowEmpty(g, unsupported, prefix, pn);
    }
  }

  /** One more dependency of the loop has been visited. */
  lemma UpToStep(g: Graph, unsupported: set<Node>, line: Line, pn: Node, k: nat,
                 before: seq<Line>, middle: seq<Line>, after: seq<Line>, room: nat, truncated: bool)
    requires Closed(g) && pn in g && k < |Sorted(g[pn])| && Sorted(g[pn])[k] in g
    requires ListedUpTo(g, unsupported, line, pn, k, before, middle)
    requires ListedBelow(g, unsupported, line, Sorted(g[pn])[k], middle, after, room, truncated)
    ensures truncated ==> ListedFrom(g, unsupported, line, pn, before, after, room, true)
    ensures !truncated ==> ListedUpTo(g, unsupported, line, pn, k + 1, before, after)
  {
    hide Below, BelowFrom, Tame, Sorted;
    if Tame(g, unsupported) {
      BelowFromUnfolds(g, unsupported, line, pn, k);
      var next, rest := Below(g, unsupported, line, Sorted(g[pn])[k]), BelowFrom(g, unsupported, line, pn, k + 1);
      assert middle + (next + rest) == middle + next + rest;
    }
  }

  lemma SoundStep(g: Graph, unsupported: set<Node>, line: Line, dep: Node,
                  before: seq<Line>, middle: seq<Line>, after: seq<Line>)
    requires NewSound(g, unsupported, line, before, middle)
    requires NewSound(g, unsupported, line + [dep], middle, after)
    ensures NewSound(g, unsupported, line, before, after)
    ensures |after| > |before| <==> |after| > |middle| || |middle| > |before|
  {
    hide SimplePath;
    assert forall l :: (line + [dep]) <= l ==> l[..|line|] == (line + [dep])[..|line|] == line;
  }

  lemma UpToEnds(g: Graph, unsupported: set<Node>, line: Line, pn: Node,
                 before: seq<Line>, after: seq<Line>, room: nat)
    requires Closed(g) && pn in g
    requires ListedUpTo(g, unsupported, line, pn, |Sorted(g[pn])|, before, after)
    ensures ListedFrom(g, unsupported, line, pn, before, after, room, false)
  {
  }

  /** The recipe itself ends the line if nothing was listed below it. */
  lemma LineEnds(g: Graph, unsupported: set<Node>, prefix: Line, pn: Node,
                 before: seq<Line>, after: seq<Line>, room: nat, truncated: bool)
    requires Closed(g) && pn in g && |before| <= room
    requires ListedFrom(g, unsupported, prefix + [pn], pn, before, after, room, truncated)
    ensures truncated || after != before || pn !in unsupported || prefix == [] ==>
      ListedBelow(g, unsupported, prefix, pn, before, after, room, truncated)
    ensures !truncated && after == before && pn in unsupported && prefix != [] ==>
      if |after| < room then ListedBelow(g, unsupported, prefix, pn, before, after + [prefix + [pn]], room, false)
      else ListedBelow(g, unsupported, prefix, pn, before, after, room, true)
  {
    if Tame(g, unsupported) {
      var deeper := BelowFrom(g, unsupported, prefix + [pn], pn, 0);
      var full := Below(g, unsupported, prefix, pn);
      assert full == if deeper == [] && pn in unsupported && prefix != [] then [prefix + [pn]] else deeper;
      hide Below, BelowFrom, Tame;
    }
  }

  lemma OkayGrows(g: Graph, unsupported: set<Node>, prefix: Line, pn: Node, lines: seq<Line>,
                  okay: set<Node>, room: nat)
    requires Closed(g) && pn in g && OkaySound(g, unsupported, okay) && pn !in unsupported
    requires ListedFrom(g, unsupported, prefix + [pn], pn, lines, lines, room, false)
    ensures OkaySound(g, unsupported, okay + {pn})
  {
    if Tame(g, unsupported) {
      BelowFromEmpty(g, unsupported, prefix + [pn], pn, 0);
      ClearDependencies(g, unsupported, pn);
      hide BelowFrom, Tame, ReachesAny;
    }
  }

  lemma LineSound(g: Graph, unsupported: set<Node>, line: Line, before: seq<Line>, lines: seq<Line>)
    requires SimplePath(g, line) && |line| != 1 && line[|line| - 1] in unsupported
    requires NewSound(g, unsupported, line, before, lines)
    ensures NewSound(g, unsupported, line, before, lines + [line])
  {
  }

  lemma NoneNew(g: Graph, unsupported: set<Node>, line: Line, before: seq<Line>, after: seq<Line>)
    requires NewSound(g, unsupported, line, before, after)
    ensures |before| <= |after| && (|after| == |before| ==> after == before)
  {
  }

  lemma NewNothing(g: Graph, unsupported: set<Node>, line: Line, before: seq<Line>)
    ensures NewSound(g, unsupported, line, before, before)
  {
  }

  /** The lists of sorted dependencies that the walk uses. */
  ghost predicate DepsMatch(g: Graph, deps: map<Node, seq<Node>>) {
    Closed(g) && forall r :: r in g ==> DepsOf(deps, r) == Sorted(g[r])
  }

  lemma Shrinks(g: Graph, p: Line, pn: Node)
    requires pn in g && pn !in p
    ensures |g.Keys - (set n | n in p + [pn])| < |g.Keys - (set n | n in p)|
  {
    var a, b := g.Keys - (set n | n in p), g.Keys - (set n | n in p + [pn]);
    assert pn in a && pn !in b;
    ProperSubsetSize(g.Keys - (set n | n in p + [pn]), g.Keys - (set n | n in p));
  }

  /** The recipes that no other recipe depends on. */
  ghost function Roots(g: Graph, pns: set<Node>): set<Node> {
    set r | r in pns && Dependents(g, r) == {}
  }

  // ---- The walk itself, on any graph ---------------------------------------------------------------

  /** The state of the walk after a visit: the lines, the recipes known to be clear, whether the visit has
      added lines, and whether it was cut short for want of room. */
  datatype Walked = Walked(lines: seq<Line>, okay: set<Node>, printed: bool, truncated: bool)

  /** What visiting `pn` does when `line` leads to it. */
  ghost function Walk(g: Graph, unsupported: set<Node>, room: nat, line: Line, pn: Node,
                      lines: seq<Line>, okay: set<Node>): Walked
    requires Closed(g) && pn in g
    decreases |g.Keys - (set n | n in line)|, 0
  {
    if pn in okay || pn in line then Walked(lines, okay, false, false)
    else
      Shrinks(g, line, pn);
      WalkEnds(unsupported, room, line, pn,
               WalkFrom(g, unsupported, room, line + [pn], pn, 0, Walked(lines, okay, false, false)))
  }

  /** After the dependencies of `pn`. */
  function WalkEnds(unsupported: set<Node>, room: nat, line: Line, pn: Node, w: Walked): Walked {
    if w.truncated || w.printed then w
    else if pn !in unsupported then w.(okay := w.okay + {pn})
    else if line == [] then w
    else if |w.lines| >= room then w.(truncated := true)
    else w.(lines := w.lines + [line + [pn]], printed := true)
  }

  /** From the `k`-th dependency of `pn` on. */
  ghost function WalkFrom(g: Graph, unsupported: set<Node>, room: nat, line: Line, pn: Node, k: nat, w: Walked): Walked
    requires Closed(g) && pn in g && k <= |Sorted(g[pn])|
    decreases |g.Keys - (set n | n in line)|, |Sorted(g[pn])| - k + 1
  {
    if w.truncated || k == |Sorted(g[pn])| then w
    else
      var v := Walk(g, unsupported, room, line, Sorted(g[pn])[k], w.lines, w.okay);
      WalkFrom(g, unsupported, room, line, pn, k + 1, v.(printed := w.printed || v.printed))
  }

  /** One root after the other, each from an empty line. */
  ghost function WalkRoots(g: Graph, unsupported: set<Node>, room: nat, roots: seq<Node>, k: nat, w: Walked): Walked
    requires Closed(g) && k <= |roots| && forall r :: r in roots ==> r in g
    decreases |roots| - k
  {
    if w.truncated || k == |roots| then w
    else WalkRoots(g, unsupported, room, roots, k + 1, Walk(g, unsupported, room, [], roots[k], w.lines, w.okay))
  }

  lemma WalkSkips(g: Graph, unsupported: set<Node>, room: nat, line: Line, pn: Node, lines: seq<Line>, okay: set<Node>)
    requires Closed(g) && pn in g && (pn in okay || pn in line)
    ensures Walk(g, unsupported, room, line, pn, lines, okay) == Walked(lines, okay, false, false)
  {
  }

  lemma WalkGoesOn(g: Graph, unsupported: set<Node>, room: nat, line: Line, pn: Node, lines: seq<Line>, okay: set<Node>)
    requires Closed(g) && pn in g && pn !in okay && pn !in line
    ensures Walk(g, unsupported, room, line, pn, lines, okay) == WalkEnds(unsupported, room, line, pn,
              WalkFrom(g, unsupported, room, line + [pn], pn, 0, Walked(lines, okay, false, false)))
  {
  }

  lemma WalkFromStep(g: Graph, unsupported: set<Node>, room: nat, line: Line, pn: Node, k: nat, w: Walked)
    requires Closed(g) && pn in g && k < |Sorted(g[pn])| && !w.truncated
    ensures Sorted(g[pn])[k] in g
    ensures var v := Walk(g, unsupported, room, line, Sorted(g[pn])[k], w.lines, w.okay);
            var x := v.(printed := w.printed || v.printed);
            WalkFrom(g, unsupported, room, line, pn, k, w) ==
              (if v.truncated then x else WalkFrom(g, unsupported, room, line, pn, k + 1, x))
  {
    assert Sorted(g[pn])[k] in g[pn];
  }

  lemma WalkFromEnds(g: Graph, unsupported: set<Node>, room: nat, line: Line, pn: Node, w: Walked)
    requires Closed(g) && pn in g
    ensures WalkFrom(g, unsupported, room, line, pn, |Sorted(g[pn])|, w) == w
  {
  }

  ghost function WalkAll(g: Graph, pns: set<Node>, unsupported: set<Node>, room: nat): Walked
    requires Closed(g) && pns <= g.Keys
  {
    WalkRoots(g, unsupported, room, Sorted(Roots(g, pns)), 0, Walked([], {}, false, false))
  }

  lemma WalkRootsStep(g: Graph, unsupported: set<Node>, room: nat, roots: seq<Node>, k: nat, w: Walked)
    requires Closed(g) && k < |roots| && (forall r :: r in roots ==> r in g) && !w.truncated && roots[k] in g
    ensures WalkRoots(g, unsupported, room, roots, k, w) ==
            WalkRoots(g, unsupported, room, roots, k + 1, Walk(g, unsupported, room, [], roots[k], w.lines, w.okay))
  {
  }

  lemma WalkRootsEnds(g: Graph, unsupported: set<Node>, room: nat, roots: seq<Node>, k: nat, w: Walked)
    requires Closed(g) && k <= |roots| && (forall r :: r in roots ==> r in g) && (w.truncated || k == |roots|)
    ensures WalkRoots(g, unsupported, room, roots, k, w) == w
  {
  }

  // ---- What is listed on every graph ----------------------------------------------------------------

  /** An unsupported recipe that needs no other unsupported one. */
  ghost predicate Culprit(g: Graph, unsupported: set<Node>, n: Node) {
    n in unsupported && !ReachesAny(g, n, unsupported)
  }

  /** Some line ends in `n`. */
  ghost predicate EndsLine(lines: seq<Line>, n: Node) {
    exists i :: 0 <= i < |lines| && lines[i] != [] && lines[i][|lines[i]| - 1] == n
  }

  /** Every culprit that a root needs ends some line. */
  ghost predicate CulpritsListed(g: Graph, unsupported: set<Node>, roots: set<Node>, lines: seq<Line>) {
    forall r, n :: r in roots && Reaches(g, r, n) && Culprit(g, unsupported, n) ==> EndsLine(lines, n)
  }

  /** The recipes visited so far: what they need has been visited, too, or is on the current line, and each
      culprit among them, but for the recipes that the walk begins with, ends some line. */
  ghost predicate SeenSoFar(g: Graph, unsupported: set<Node>, line: Line, okay: set<Node>, seen: set<Node>,
                            tops: set<Node>, lines: seq<Line>)
  {
    && okay <= seen <= g.Keys
    && (forall n, d :: n in seen && d in g[n] ==> d in seen || d in line)
    && (forall n :: n in seen && n !in tops && Culprit(g, unsupported, n) ==> EndsLine(lines, n))
  }

  lemma SeenEnters(g: Graph, unsupported: set<Node>, line: Line, okay: set<Node>, seen: set<Node>, tops: set<Node>,
                   lines: seq<Line>, pn: Node)
    requires SeenSoFar(g, unsupported, line, okay, seen, tops, lines)
    ensures SeenSoFar(g, unsupported, line + [pn], okay, seen, tops, lines)
    ensures pn in okay ==> pn in seen
  {
    hide Culprit, EndsLine;
  }

  lemma SeenLeaves(g: Graph, unsupported: set<Node>, line: Line, okay: set<Node>, okay': set<Node>, seen: set<Node>,
                   tops: set<Node>, lines: seq<Line>, lines': seq<Line>, pn: Node)
    requires SeenSoFar(g, unsupported, line + [pn], okay, seen, tops, lines) && pn in g
    requires forall d :: d in g[pn] ==> d in seen || d in line + [pn]
    requires okay' <= okay + {pn} && lines <= lines'
    requires Culprit(g, unsupported, pn) && pn !in tops ==> EndsLine(lines', pn)
    ensures SeenSoFar(g, unsupported, line, okay', seen + {pn}, tops, lines')
  {
    forall n | EndsLine(lines, n) ensures EndsLine(lines', n) {
      var i :| 0 <= i < |lines| && lines[i] != [] && lines[i][|lines[i]| - 1] == n;
      assert lines'[i] == lines[i];
    }
    hide Culprit, EndsLine;
  }

  lemma LastEnds(lines: seq<Line>, line: Line, pn: Node)
    ensures EndsLine(lines + [line + [pn]], pn)
  {
    assert (lines + [line + [pn]])[|lines|] == line + [pn];
  }

  /** Below clear recipes nothing is listed. */
  lemma {:induction false} WalkClear(g: Graph, unsupported: set<Node>, room: nat, line: Line, pn: Node,
                                     lines: seq<Line>, okay: set<Node>)
    requires Closed(g) && pn in g && Clear(g, unsupported, pn)
    ensures var w := Walk(g, unsupported, room, line, pn, lines, okay);
            w.lines == lines && !w.printed && !w.truncated
    decreases |g.Keys - (set n | n in line)|, 0
  {
    if pn in okay || pn in line {
      WalkSkips(g, unsupported, room, line, pn, lines, okay);
    } else {
      WalkGoesOn(g, unsupported, room, line, pn, lines, okay);
      Shrinks(g, line, pn);
      ClearMeans(g, unsupported, pn);
      ClearDependencies(g, unsupported, pn);
      hide Walk, WalkFrom, Clear, ReachesAny, Sorted;
      WalkFromClear(g, unsupported, room, line + [pn], pn, 0, Walked(lines, okay, false, false));
    }
  }

  lemma {:induction false} WalkFromClear(g: Graph, unsupported: set<Node>, room: nat, line: Line, pn: Node, k: nat,
                                         w: Walked)
    requires Closed(g) && pn in g && k <= |Sorted(g[pn])| && !w.truncated
    requires forall d :: d in g[pn] ==> Clear(g, unsupported, d)
    ensures var v := WalkFrom(g, unsupported, room, line, pn, k, w);
            v.lines == w.lines && v.printed == w.printed && !v.truncated
    decreases |g.Keys - (set n | n in line)|, |Sorted(g[pn])| - k + 1
  {
    if k < |Sorted(g[pn])| {
      WalkFromStep(g, unsupported, room, line, pn, k, w);
      hide Walk, WalkFrom, Clear, Sorted;
      var dep := Sorted(g[pn])[k];
      assert dep in g[pn];
      WalkClear(g, unsupported, room, line, dep, w.lines, w.okay);
      var v := Walk(g, unsupported, room, line, dep, w.lines, w.okay);
      WalkFromClear(g, unsupported, room, line, pn, k + 1, v.(printed := w.printed || v.printed));
    }
  }

  lemma {:induction false} WalkSees(g: Graph, unsupported: set<Node>, room: nat, line: Line, pn: Node,
                                    lines: seq<Line>, okay: set<Node>, seen: set<Node>, tops: set<Node>)
    returns (seen': set<Node>)
    requires Closed(g) && pn in g && SeenSoFar(g, unsupported, line, okay, seen, tops, lines)
    requires line == [] ==> pn in tops
    ensures var w := Walk(g, unsupported, room, line, pn, lines, okay);
            !w.truncated ==>
              SeenSoFar(g, unsupported, line, w.okay, seen', tops, w.lines) &&
              seen <= seen' && (pn in seen' || pn in line)
    decreases |g.Keys - (set n | n in line)|, 0
  {
    hide Walk, WalkFrom, Sorted, SeenSoFar, Culprit, EndsLine;
    seen' := seen;
    SeenEnters(g, unsupported, line, okay, seen, tops, lines, pn);
    if pn in okay || pn in line {
      WalkSkips(g, unsupported, room, line, pn, lines, okay);
      return;
    }
    WalkGoesOn(g, unsupported, room, line, pn, lines, okay);
    Shrinks(g, line, pn);
    var start := Walked(lines, okay, false, false);
    var w := WalkFrom(g, unsupported, room, line + [pn], pn, 0, start);
    seen' := WalkFromSees(g, unsupported, room, line + [pn], pn, 0, start, seen, tops);
    if !w.truncated {
      var v := WalkEnds(unsupported, room, line, pn, w);
      CulpritPrinted(g, unsupported, room, line, pn, start, tops);
      if !v.truncated {
        SeenLeaves(g, unsupported, line, w.okay, v.okay, seen', tops, w.lines, v.lines, pn);
      }
      seen' := seen' + {pn};
    }
  }

  /** A culprit is the end of the line that leads to it. */
  lemma CulpritPrinted(g: Graph, unsupported: set<Node>, room: nat, line: Line, pn: Node, start: Walked,
                       tops: set<Node>)
    requires Closed(g) && pn in g && (line == [] ==> pn in tops) && !start.truncated && !start.printed
    ensures var v := WalkEnds(unsupported, room, line, pn, WalkFrom(g, unsupported, room, line + [pn], pn, 0, start));
            Culprit(g, unsupported, pn) && pn !in tops && !v.truncated ==> EndsLine(v.lines, pn)
  {
    hide WalkFrom, Sorted, EndsLine, ReachesAny;
    if Culprit(g, unsupported, pn) {
      ClearDependencies(g, unsupported, pn);
      WalkFromClear(g, unsupported, room, line + [pn], pn, 0, start);
      LastEnds(start.lines, line, pn);
    }
  }

  lemma {:induction false} WalkFromSees(g: Graph, unsupported: set<Node>, room: nat, line: Line, pn: Node, k: nat,
                                        w: Walked, seen: set<Node>, tops: set<Node>)
    returns (seen': set<Node>)
    requires Closed(g) && pn in g && k <= |Sorted(g[pn])| && line != [] && !w.truncated
    requires SeenSoFar(g, unsupported, line, w.okay, seen, tops, w.lines)
    requires forall i :: 0 <= i < k ==> Sorted(g[pn])[i] in seen || Sorted(g[pn])[i] in line
    ensures var v := WalkFrom(g, unsupported, room, line, pn, k, w);
            !v.truncated ==>
              SeenSoFar(g, unsupported, line, v.okay, seen', tops, v.lines) && seen <= seen' &&
              forall d :: d in g[pn] ==> d in seen' || d in line
    decreases |g.Keys - (set n | n in line)|, |Sorted(g[pn])| - k + 1
  {
    hide Walk, WalkFrom, Sorted, SeenSoFar;
    var deps := Sorted(g[pn]);
    seen' := seen;
    if k == |deps| {
      WalkFromEnds(g, unsupported, room, line, pn, w);
      forall d | d in g[pn] ensures d in seen || d in line {
        assert d in deps;
      }
    } else {
      WalkFromStep(g, unsupported, room, line, pn, k, w);
      var v := Walk(g, unsupported, room, line, deps[k], w.lines, w.okay);
      seen' := WalkSees(g, unsupported, room, line, deps[k], w.lines, w.okay, seen, tops);
      if !v.truncated {
        var start' := v.(printed := w.printed || v.printed);
        seen' := WalkFromSees(g, unsupported, room, line, pn, k + 1, start', seen', tops);
      }
    }
  }

  lemma {:induction false} WalkRootsSees(g: Graph, unsupported: set<Node>, room: nat, roots: seq<Node>, k: nat,
                                         w: Walked, seen: set<Node>, tops: set<Node>)
    returns (seen': set<Node>)
    requires Closed(g) && k <= |roots| && (forall r :: r in roots ==> r in g && r in tops) && !w.truncated
    requires SeenSoFar(g, unsupported, [], w.okay, seen, tops, w.lines) && forall i :: 0 <= i < k ==> roots[i] in seen
    ensures var v := WalkRoots(g, unsupported, room, roots, k, w);
            !v.truncated ==>
              SeenSoFar(g, unsupported, [], v.okay, seen', tops, v.lines) && forall r :: r in roots ==> r in seen'
    decreases |roots| - k
  {
    hide Walk, SeenSoFar;
    seen' := seen;
    if k < |roots| {
      WalkRootsStep(g, unsupported, room, roots, k, w);
      var v := Walk(g, unsupported, room, [], roots[k], w.lines, w.okay);
      seen' := WalkSees(g, unsupported, room, [], roots[k], w.lines, w.okay, seen, tops);
      if !v.truncated {
        seen' := WalkRootsSees(g, unsupported, room, roots, k + 1, v, seen', tops);
      } else {
        WalkRootsEnds(g, unsupported, room, roots, k + 1, v);
      }
    }
  }

  lemma {:induction false} ClosedSet(g: Graph, seen: set<Node>, p: Line)
    requires IsPath(g, p) && p[0] in seen && seen <= g.Keys
    requires forall n, d :: n in seen && d in g[n] ==> d in seen
    ensures p[|p| - 1] in seen
  {
    if |p| > 1 {
      ClosedSet(g, seen, p[1..]);
    }
  }

  lemma SeenEnds(g: Graph, unsupported: set<Node>, okay: set<Node>, seen: set<Node>, roots: set<Node>,
                 lines: seq<Line>)
    requires SeenSoFar(g, unsupported, [], okay, seen, roots, lines) && roots <= seen
    requires forall r :: r in roots ==> Dependents(g, r) == {}
    ensures CulpritsListed(g, unsupported, roots, lines)
  {
    forall r, n | r in roots && Reaches(g, r, n) && Culprit(g, unsupported, n) ensures EndsLine(lines, n) {
      var p :| PathBetween(g, p, r, n);
      ClosedSet(g, seen, p);
      PathNodes(g, p, |p| - 2);
      assert p[|p| - 2] in Dependents(g, n);
    }
  }

  /** On every graph, cycles or not, a report that is not cut short has a line for every unsupported recipe
      that a root needs and that needs no other unsupported one. */
  lemma EveryCulpritListed(g: Graph, pns: set<Node>, unsupported: set<Node>, room: nat)
    requires Closed(g) && pns <= g.Keys
    ensures var w := WalkAll(g, pns, unsupported, room);
            !w.truncated ==> CulpritsListed(g, unsupported, Roots(g, pns), w.lines)
  {
    hide Sorted, WalkRoots, CulpritsListed, Culprit, EndsLine;
    var roots := Roots(g, pns);
    var seen := WalkRootsSees(g, unsupported, room, Sorted(roots), 0, Walked([], {}, false, false), {}, roots);
    var w := WalkAll(g, pns, unsupported, room);
    if !w.truncated {
      SeenEnds(g, unsupported, w.okay, seen, roots, w.lines);
    }
  }

  class DependencyDump {
    const deps: map<Node, seq<Node>>
    const unsupported: set<Node>
    const maxLines: int
    ghost const g: Graph
    var lines: seq<Line>
    var currentLine: Line
    var okay: set<Node>

    ghost function Room(): nat {
      if maxLines < 0 then 0 else maxLines
    }

    ghost predicate Valid()
      reads `okay, `lines
    {
      DepsMatch(g, deps) && Closed(g) && |lines| <= Room() && OkaySound(g, unsupported, okay)
    }

    /** The walk stands where the function says. */
    ghost predicate Stands(w: Walked, printed: bool, truncated: bool)
      reads `okay, `lines
    {
      w.lines == lines && w.okay == okay && w.truncated == truncated && (!truncated ==> w.printed == printed)
    }

    constructor (deps: map<Node, seq<Node>>, unsupported: set<Node>, maxLines: int, ghost g: Graph)
      requires DepsMatch(g, deps)
      ensures Valid() && lines == [] && currentLine == [] && okay == {}
      ensures this.deps == deps && this.unsupported == unsupported && this.maxLines == maxLines && this.g == g
    {
      this.deps, this.unsupported, this.maxLines, this.g := deps, unsupported, maxLines, g;
      lines, currentLine, okay := [], [], {};
    }

    /** Lists the paths below `pn`.  On any graph every new line is a simple dependency path on from
        the current line; if recipes on cycles do not matter the new lines are exactly the expected ones. */
    method VisitRecipe(pn: Node) returns (printed: bool, truncated: bool)
      requires Valid() && pn in g
      requires currentLine == [] || (SimplePath(g, currentLine) && pn in g[PathEnd(g, currentLine)])
      modifies this
      ensures Valid()
      ensures !truncated ==> currentLine == old(currentLine)
      ensures !truncated ==> (printed <==> |lines| > |old(lines)|)
      ensures NewSound(g, unsupported, old(currentLine) + [pn], old(lines), lines)
      ensures ListedBelow(g, unsupported, old(currentLine), pn, old(lines), lines, Room(), truncated)
      ensures Stands(Walk(g, unsupported, Room(), old(currentLine), pn, old(lines), old(okay)), printed, truncated)
      decreases |g.Keys - (set n | n in currentLine)|, 0
    {
      hide ListedBelow, ListedFrom, ListedUpTo, OkaySound, DepsMatch, Walk, WalkFrom, Sorted, NewSound, SimplePath,
        Sound;
      printed, truncated := false, false;
      ghost var before, prefix, known := lines, currentLine, okay;
      if pn in okay || pn in currentLine {
        WalkSkips(g, unsupported, Room(), currentLine, pn, lines, okay);
      } else {
        WalkGoesOn(g, unsupported, Room(), currentLine, pn, lines, okay);
      }
      NewNothing(g, unsupported, prefix + [pn], lines);
      if pn in okay {
        SkipOkay(g, unsupported, prefix, pn, lines, okay, Room());
        return;
      }
      if pn in currentLine {
        SkipRepeated(g, unsupported, prefix, pn, lines, Room());
        return;
      }
      Extended(g, prefix, pn);
      currentLine := currentLine + [pn];
      Shrinks(g, prefix, pn);
      printed, truncated := VisitDependencies(pn);
      NoneNew(g, unsupported, prefix + [pn], before, lines);
      LineEnds(g, unsupported, prefix, pn, before, lines, Room(), truncated);
      if truncated {
        return;
      }
      if !printed && pn in unsupported && |currentLine| != 1 {
        if |lines| >= maxLines {
          truncated := true;
          return;
        }
        LineSound(g, unsupported, prefix + [pn], before, lines);
        lines := lines + [currentLine];
        printed := true;
      }
      if !printed && pn !in unsupported {
        OkayGrows(g, unsupported, prefix, pn, lines, okay, Room());
        okay := okay + {pn};
      }
      currentLine := currentLine[..|currentLine| - 1];
    }

    /** The loop over the sorted dependencies of the last recipe of the current line. */
    method VisitDependencies(pn: Node) returns (printed: bool, truncated: bool)
      requires Valid() && pn in g
      requires SimplePath(g, currentLine) && pn == PathEnd(g, currentLine)
      modifies this
      ensures Valid()
      ensures !truncated ==> currentLine == old(currentLine)
      ensures !truncated ==> (printed <==> |lines| > |old(lines)|)
      ensures NewSound(g, unsupported, old(currentLine), old(lines), lines)
      ensures ListedFrom(g, unsupported, old(currentLine), pn, old(lines), lines, Room(), truncated)
      ensures Stands(WalkFrom(g, unsupported, Room(), old(currentLine), pn, 0,
                              Walked(old(lines), old(okay), false, false)),
                     printed, truncated)
      decreases |g.Keys - (set n | n in currentLine)|, 1
    {
      hide ListedBelow, ListedFrom, OkaySound, SimplePath, Sound, Walk, WalkFrom, Sorted;
      printed, truncated := false, false;
      var pndeps := DepsOf(deps, pn);
      var k := 0;
      ghost var before, line, start := lines, currentLine, Walked(lines, okay, false, false);
      while k < |pndeps|
        invariant k <= |pndeps| == |Sorted(g[pn])|
        invariant Valid() && currentLine == line
        invariant printed <==> |lines| > |before|
        invariant NewSound(g, unsupported, line, before, lines)
        invariant ListedUpTo(g, unsupported, line, pn, k, before, lines)
        invariant WalkFrom(g, unsupported, Room(), line, pn, 0, start) ==
                  WalkFrom(g, unsupported, Room(), line, pn, k, Walked(lines, okay, printed, false))
      {
        hide ListedUpTo, NewSound;
        var dep, below := pndeps[k], false;
        ghost var middle := lines;
        WalkFromStep(g, unsupported, Room(), line, pn, k, Walked(lines, okay, printed, false));
        below, truncated := VisitRecipe(dep);
        SoundStep(g, unsupported, line, dep, before, middle, lines);
        UpToStep(g, unsupported, line, pn, k, before, middle, lines, Room(), truncated);
        if truncated {
          return;
        }
        if below {
          printed := true;
        }
        k := k + 1;
      }
      UpToEnds(g, unsupported, line, pn, before, lines, Room());
      WalkFromEnds(g, unsupported, Room(), line, pn, Walked(lines, okay, printed, false));
    }
  }

  // ---- Reading the task graph -----------------------------------------------------------------

  method AddDependencies(pn: Node, taskdeps: seq<string>, known: set<Node>, candidates: set<Node>)
    returns (pndeps: set<Node>, roots: set<Node>)
    ensures pndeps == known + Others(taskdeps, pn)
    ensures roots == candidates - Others(taskdeps, pn)
  {
    pndeps, roots := known, candidates;
    var k := 0;
    while k < |taskdeps|
      invariant k <= |taskdeps|
      invariant pndeps == known + Others(taskdeps[..k], pn)
      invariant roots == candidates - Others(taskdeps[..k], pn)
    {
      var pndep := RecipeOf(taskdeps[k]);
      OthersStep(taskdeps, k, pn);
      if pndep != pn {
        pndeps := pndeps + {pndep};
        roots := roots - {pndep};
      }
      k := k + 1;
    }
    assert taskdeps[..k] == taskdeps;
  }

  lemma OthersStep(taskdeps: seq<string>, k: nat, pn: Node)
    requires k < |taskdeps|
    ensures Others(taskdeps[..k + 1], pn) ==
            Others(taskdeps[..k], pn) + if RecipeOf(taskdeps[k]) != pn then {RecipeOf(taskdeps[k])} else {}
  {
    var a, b := taskdeps[..k + 1], taskdeps[..k];
    assert forall i :: 0 <= i < k ==> a[i] == b[i] == taskdeps[i];
    assert a[k] == taskdeps[k];
    forall x ensures x in Others(a, pn) <==>
      x in Others(b, pn) || (RecipeOf(taskdeps[k]) != pn && x == RecipeOf(taskdeps[k]))
    {
      if x in Others(b, pn) {
        var i :| 0 <= i < |b| && RecipeOf(b[i]) != pn && x == RecipeOf(b[i]);
        assert a[i] == b[i];
      }
    }
  }

  ghost predicate Collected(tdepends: TaskDepends, done: set<string>, deps: map<Node, set<Node>>) {
    forall r :: if r in deps then deps[r] == NeededBy(tdepends, done, r) else NeededBy(tdepends, done, r) == {}
  }

  lemma CollectedStep(tdepends: TaskDepends, done: set<string>, deps: map<Node, set<Node>>, task: string)
    requires Collected(tdepends, done, deps) && task in tdepends
    ensures var r := RecipeOf(task);
            Collected(tdepends, done + {task},
                      deps[r := (if r in deps then deps[r] else {}) + Others(tdepends[task], r)])
    ensures NeededByAny(tdepends, done + {task}) ==
            NeededByAny(tdepends, done) + Others(tdepends[task], RecipeOf(task))
  {
    hide Others;
    forall r ensures NeededBy(tdepends, done + {task}, r) ==
      NeededBy(tdepends, done, r) + if r == RecipeOf(task) then Others(tdepends[task], r) else {}
    {
      NeededStep(tdepends, done, task, r);
    }
    hide NeededBy;
  }

  lemma NeededStep(tdepends: TaskDepends, done: set<string>, task: string, r: Node)
    requires task in tdepends
    ensures NeededBy(tdepends, done + {task}, r) ==
      NeededBy(tdepends, done, r) + if r == RecipeOf(task) then Others(tdepends[task], r) else {}
  {
    hide Others;
  }

  /** The recipe graph's sorted dependency lists, and the recipes that no other recipe depends on. */
  method FlattenTasks(pns: set<Node>, tdepends: TaskDepends)
    returns (deps: map<Node, seq<Node>>, roots: set<Node>)
    ensures DepsMatch(RecipeGraph(pns, tdepends), deps)
    ensures roots == Roots(RecipeGraph(pns, tdepends), pns)
  {
    roots := pns;
    var sets: map<Node, set<Node>> := map[];
    var todo := tdepends.Keys;
    while todo != {}
      invariant todo <= tdepends.Keys
      invariant Collected(tdepends, tdepends.Keys - todo, sets)
      invariant roots == pns - NeededByAny(tdepends, tdepends.Keys - todo)
    {
      var task :| task in todo;
      CollectedStep(tdepends, tdepends.Keys - todo, sets, task);
      hide Collected, NeededByAny, Others;
      assert tdepends.Keys - (todo - {task}) == tdepends.Keys - todo + {task};
      todo := todo - {task};
      var pn, pndeps := RecipeOf(task), {};
      if pn in sets {
        pndeps := sets[pn];
      }
      pndeps, roots := AddDependencies(pn, tdepends[task], pndeps, roots);
      sets := sets[pn := pndeps];
    }
    assert tdepends.Keys - todo == tdepends.Keys;
    deps := map[];
    var names := sets.Keys;
    while names != {}
      invariant names <= sets.Keys
      invariant forall r :: r in deps <==> r in sets && r !in names
      invariant forall r :: r in deps ==> deps[r] == Sorted(sets[r])
    {
      hide Collected, NeededByAny, Others;
      var pn :| pn in names;
      names := names - {pn};
      deps := deps[pn := Sorted(sets[pn])];
    }
    FlatMatches(pns, tdepends, sets, deps);
    FlatRoots(pns, tdepends);
  }

  lemma FlatMatches(pns: set<Node>, tdepends: TaskDepends, sets: map<Node, set<Node>>, deps: map<Node, seq<Node>>)
    requires Collected(tdepends, tdepends.Keys, sets)
    requires forall r :: r in deps <==> r in sets
    requires forall r :: r in deps ==> deps[r] == Sorted(sets[r])
    ensures DepsMatch(RecipeGraph(pns, tdepends), deps)
  {
    hide NeededBy, Others;
    forall r | r in RecipeGraph(pns, tdepends) ensures DepsOf(deps, r) == Sorted(RecipeGraph(pns, tdepends)[r]) {
    }
  }

  lemma FlatRoots(pns: set<Node>, tdepends: TaskDepends)
    ensures Roots(RecipeGraph(pns, tdepends), pns) == pns - NeededByAny(tdepends, tdepends.Keys)
  {
    var g := RecipeGraph(pns, tdepends);
    forall r | r in pns ensures Dependents(g, r) == {} <==> r !in NeededByAny(tdepends, tdepends.Keys) {
      if r in NeededByAny(tdepends, tdepends.Keys) {
        var t :| t in tdepends && r in Others(tdepends[t], RecipeOf(t));
        assert RecipeOf(t) in Dependents(g, r);
      }
      if m :| m in Dependents(g, r) {
        var t :| t in tdepends && RecipeOf(t) == m && r in Others(tdepends[t], m);
        assert r in NeededByAny(tdepends, tdepends.Keys);
      }
    }
  }

  /** A line that runs along dependencies, without repeating a recipe, from one of the roots to an
      unsupported recipe. */
  ghost predicate RootLine(g: Graph, unsupported: set<Node>, roots: seq<Node>, l: Line) {
    |l| >= 2 && SimplePath(g, l) && l[0] in roots && l[|l| - 1] in unsupported
  }

  ghost predicate RootLines(g: Graph, unsupported: set<Node>, roots: seq<Node>, lines: seq<Line>) {
    forall i :: 0 <= i < |lines| ==> RootLine(g, unsupported, roots, lines[i])
  }

  /** The lines of the first `k` roots have been listed, or as many as there is room for. */
  ghost predicate RootsListed(g: Graph, unsupported: set<Node>, roots: seq<Node>, k: nat,
                              lines: seq<Line>, room: nat, truncated: bool)
    requires Closed(g) && k <= |roots| && forall r :: r in roots ==> r in g
  {
    Tame(g, unsupported) ==>
      if truncated then Listed([], lines, Report(g, unsupported, roots), room, true)
      else lines + Report(g, unsupported, roots[k..]) == Report(g, unsupported, roots)
  }

  lemma RootsStep(g: Graph, unsupported: set<Node>, roots: seq<Node>, k: nat,
                  before: seq<Line>, after: seq<Line>, room: nat, truncated: bool)
    requires Closed(g) && k < |roots| && (forall r :: r in roots ==> r in g) && roots[k] in g
    requires RootsListed(g, unsupported, roots, k, before, room, false)
    requires ListedBelow(g, unsupported, [], roots[k], before, after, room, truncated)
    ensures RootsListed(g, unsupported, roots, k + 1, after, room, truncated)
  {
    if Tame(g, unsupported) {
      var now, rest := Below(g, unsupported, [], roots[k]), Report(g, unsupported, roots[k + 1..]);
      assert roots[k..][1..] == roots[k + 1..];
      assert Report(g, unsupported, roots[k..]) == now + rest;
      hide Below, Report, Tame;
      assert before + (now + rest) == before + now + rest;
      assert [] + Report(g, unsupported, roots) == Report(g, unsupported, roots);
    }
  }

  lemma RootLinesStep(g: Graph, unsupported: set<Node>, roots: seq<Node>, k: nat,
                      before: seq<Line>, after: seq<Line>)
    requires k < |roots| && RootLines(g, unsupported, roots, before)
    requires NewSound(g, unsupported, [] + [roots[k]], before, after)
    ensures RootLines(g, unsupported, roots, after)
  {
    hide SimplePath;
    forall i | 0 <= i < |after| ensures RootLine(g, unsupported, roots, after[i]) {
      if i < |before| {
        assert after[i] == before[i];
      } else {
        assert Sound(g, unsupported, [] + [roots[k]], after[i]);
        assert ([] + [roots[k]])[0] == roots[k] && roots[k] in roots;
      }
    }
  }

  lemma RootsEnd(g: Graph, unsupported: set<Node>, roots: seq<Node>, k: nat,
                 lines: seq<Line>, room: nat, truncated: bool)
    requires Closed(g) && k <= |roots| && (truncated || k == |roots|) && forall r :: r in roots ==> r in g
    requires RootsListed(g, unsupported, roots, k, lines, room, truncated)
    ensures Tame(g, unsupported) ==> Listed([], lines, Report(g, unsupported, roots), room, truncated)
  {
    if Tame(g, unsupported) && !truncated {
      assert roots[k..] == [];
      assert lines + [] == lines && [] + lines == lines;
    }
  }

  /** The whole function.  On any task graph it lists only dependency paths from roots to unsupported
      recipes, and if it is not cut short, a line for every unsupported recipe that a root needs and that
      needs no other.  If cycles of the recipe graph lead to nothing unsupported the lines are the full
      report or, exactly when that is longer than `maxLines`, its first `maxLines` lines. */
  method DumpDependencies(pns: set<Node>, tdepends: TaskDepends, maxLines: int, unsupported: set<Node>)
    returns (lines: seq<Line>, truncated: bool)
    ensures var g := RecipeGraph(pns, tdepends);
            RootLines(g, unsupported, Sorted(Roots(g, pns)), lines)
    ensures var g := RecipeGraph(pns, tdepends);
            Tame(g, unsupported) ==>
              Listed([], lines, Report(g, unsupported, Sorted(Roots(g, pns))),
                     if maxLines < 0 then 0 else maxLines, truncated)
    ensures |lines| <= if maxLines < 0 then 0 else maxLines
    ensures var g := RecipeGraph(pns, tdepends);
            !truncated ==> CulpritsListed(g, unsupported, Roots(g, pns), lines)
    ensures var w := WalkAll(RecipeGraph(pns, tdepends), pns, unsupported, if maxLines < 0 then 0 else maxLines);
            lines == w.lines && truncated == w.truncated
  {
    var deps, roots := FlattenTasks(pns, tdepends);
    ghost var g := RecipeGraph(pns, tdepends);
    assert roots <= g.Keys;
    hide RecipeGraph, Roots, RootsListed, DepsMatch, OkaySound, ListedBelow, NewSound, Listed, RootLine, Walk,
      WalkRoots, CulpritsListed;
    var dump := new DependencyDump(deps, unsupported, maxLines, g);
    var order := Sorted(roots);
    truncated := false;
    var k := 0;
    RootsStart(g, unsupported, order, dump.Room());
    ghost var w := Walked([], {}, false, false);
    while k < |order| && !truncated
      invariant k <= |order|
      invariant dump.Valid() && dump.g == g && dump.maxLines == maxLines && dump.unsupported == unsupported
      invariant !truncated ==> dump.currentLine == []
      invariant RootLines(g, unsupported, order, dump.lines)
      invariant RootsListed(g, unsupported, order, k, dump.lines, dump.Room(), truncated)
      invariant w.lines == dump.lines && w.okay == dump.okay && w.truncated == truncated
      invariant WalkAll(g, pns, unsupported, dump.Room()) == WalkRoots(g, unsupported, dump.Room(), order, k, w)
    {
      ghost var before := dump.lines;
      assert order[k] in order;
      WalkRootsStep(g, unsupported, dump.Room(), order, k, w);
      w := Walk(g, unsupported, dump.Room(), [], order[k], w.lines, w.okay);
      var printed;
      printed, truncated := dump.VisitRecipe(order[k]);
      RootLinesStep(g, unsupported, order, k, before, dump.lines);
      RootsStep(g, unsupported, order, k, before, dump.lines, dump.Room(), truncated);
      k := k + 1;
    }
    lines := dump.lines;
    RootsEnd(g, unsupported, order, k, lines, dump.Room(), truncated);
    WalkRootsEnds(g, unsupported, dump.Room(), order, k, w);
    EveryCulpritListed(g, pns, unsupported, dump.Room());
  }

  lemma RootsStart(g: Graph, unsupported: set<Node>, roots: seq<Node>, room: nat)
    requires Closed(g) && forall r :: r in roots ==> r in g
    ensures RootsListed(g, unsupported, roots, 0, [], room, false)
  {
    assert roots[0..] == roots;
    if Tame(g, unsupported) {
      assert [] + Report(g, unsupported, roots) == Report(g, unsupported, roots);
    }
  }

  // ---- On cycles recipes are missed ----------------------------------------------------------------

  lemma {:induction false} SortedIs(s: set<string>, q: seq<string>)
    requires Increasing(q) && forall x :: x in q <==> x in s
    ensures Sorted(s) == q
  {
    SameIncreasing(Sorted(s), q);
  }

  lemma {:induction false} SameIncreasing(p: seq<string>, q: seq<string>)
    requires Increasing(p) && Increasing(q) && forall x :: x in p <==> x in q
    ensures p == q
  {
    assert p != [] ==> p[0] in p;
    assert q != [] ==> q[0] in q;
    if p != [] {
      BeforeTotal(p[0], q[0]);
      assert p[0] == q[0];
      forall x ensures x in p[1..] <==> x in q[1..] {
        BeforeTotal(x, x);
        assert p == [p[0]] + p[1..] && q == [q[0]] + q[1..];
        assert x in p <==> x == p[0] || x in p[1..];
        assert x in q <==> x == q[0] || x in q[1..];
        assert x in p[1..] ==> Before(p[0], x);
        assert x in q[1..] ==> Before(q[0], x);
      }
      SameIncreasing(p[1..], q[1..]);
    }
  }

  lemma SortedTwo(a: string, b: string)
    requires Before(a, b)
    ensures Sorted({a, b}) == [a, b]
  {
    hide Before;
    SortedIs({a, b}, [a, b]);
  }

  /** `r` and `s` need `a` and `b`, which need each other; `a` also needs the unsupported `u`. */
  function Knot(): Graph {
    map["r" := {"a"}, "a" := {"b", "u"}, "b" := {"a"}, "s" := {"b"}, "u" := {}]
  }

  lemma KnotSorted()
    ensures Closed(Knot())
    ensures Sorted({}) == [] && Sorted({"a"}) == ["a"] && Sorted({"b"}) == ["b"] && Sorted({"b", "u"}) == ["b", "u"]
    ensures Sorted({"r", "s"}) == ["r", "s"]
  {
    SortedIs({}, []);
    SortedIs({"a"}, ["a"]);
    SortedIs({"b"}, ["b"]);
    SortedTwo("b", "u");
    SortedTwo("r", "s");
  }

  /** Below `r` the walk comes to `b` while `a` is on the line, and takes `b` for clear. */
  lemma KnotFirst(room: nat)
    requires room >= 2
    ensures "r" in Knot() && Closed(Knot())
    ensures Walk(Knot(), {"u"}, room, [], "r", [], {}) == Walked([["r", "a", "u"]], {"b"}, true, false)
  {
    KnotSorted();
    var g := Knot();
    hide Sorted;
    assert [] + ["r"] == ["r"] && ["r"] + ["a"] == ["r", "a"] && ["r", "a"] + ["b"] == ["r", "a", "b"];
    assert ["r", "a"] + ["u"] == ["r", "a", "u"] && [] + [["r", "a", "u"]] == [["r", "a", "u"]];
    assert g["r"] == {"a"} && g["a"] == {"b", "u"} && g["b"] == {"a"} && g["u"] == {};
    assert Walk(g, {"u"}, room, ["r", "a", "b"], "a", [], {}) == Walked([], {}, false, false);
    assert Walk(g, {"u"}, room, ["r", "a"], "b", [], {}) == Walked([], {"b"}, false, false);
    assert Walk(g, {"u"}, room, ["r", "a"], "u", [], {"b"}) == Walked([["r", "a", "u"]], {"b"}, true, false);
    assert Walk(g, {"u"}, room, ["r"], "a", [], {}) == Walked([["r", "a", "u"]], {"b"}, true, false);
  }

  /** Then `s` is clear, too, because `b` is. */
  lemma KnotSecond(room: nat, lines: seq<Line>)
    ensures "s" in Knot() && Closed(Knot())
    ensures Walk(Knot(), {"u"}, room, [], "s", lines, {"b"}) == Walked(lines, {"b", "s"}, false, false)
  {
    KnotSorted();
    var g := Knot();
    hide Sorted;
    assert [] + ["s"] == ["s"] && g["s"] == {"b"};
    assert Walk(g, {"u"}, room, ["s"], "b", lines, {"b"}) == Walked(lines, {"b"}, false, false);
    assert {"b"} + {"s"} == {"b", "s"};
  }

  lemma KnotRoots()
    ensures Roots(Knot(), Knot().Keys) == {"r", "s"}
  {
    var g := Knot();
    assert "r" in Dependents(g, "a") && "a" in Dependents(g, "b") && "a" in Dependents(g, "u");
    assert Dependents(g, "r") == {} && Dependents(g, "s") == {};
  }

  lemma KnotPath()
    ensures RootLine(Knot(), {"u"}, ["r", "s"], ["s", "b", "a", "u"])
    ensures Final(Knot(), {"u"}, ["s", "b", "a", "u"])
    ensures Reaches(Knot(), "b", "u")
  {
    var g, p := Knot(), ["s", "b", "a", "u"];
    assert p[1..] == ["b", "a", "u"] && p[1..][1..] == ["a", "u"] && p[1..][1..][1..] == ["u"];
    assert IsPath(g, ["u"]);
    assert IsPath(g, ["a", "u"]);
    assert IsPath(g, ["b", "a", "u"]);
    assert IsPath(g, p);
    assert PathBetween(g, ["b", "a", "u"], "b", "u");
  }

  lemma KnotCycle()
    ensures !Acyclic(Knot())
  {
    var g := Knot();
    assert ["a", "b", "a"][1..] == ["b", "a"] && ["b", "a"][1..] == ["a"];
    assert IsPath(g, ["b", "a"]);
    assert PathBetween(g, ["a", "b", "a"], "a", "a");
  }

  /** On a graph with a cycle the whole report misses a path: `b` is taken for clear although `u` can be
      reached from it, so that the path from `s` over `b` and `a` to `u` is not listed. */
  lemma ReportMissesPath(room: nat)
    requires room >= 2
    ensures Closed(Knot()) && !Acyclic(Knot()) && Reaches(Knot(), "b", "u")
    ensures var w := WalkAll(Knot(), Knot().Keys, {"u"}, room);
            w.lines == [["r", "a", "u"]] && !w.truncated && "b" in w.okay
    ensures Sorted(Roots(Knot(), Knot().Keys)) == ["r", "s"]
    ensures RootLine(Knot(), {"u"}, ["r", "s"], ["s", "b", "a", "u"]) && Final(Knot(), {"u"}, ["s", "b", "a", "u"])
  {
    hide Walk, Sorted, Roots, RootLine, Final, Acyclic, Knot, Reaches;
    KnotSorted();
    KnotRoots();
    KnotPath();
    KnotFirst(room);
    KnotSecond(room, [["r", "a", "u"]]);
    KnotCycle();
    var g := Knot();
    var roots := ["r", "s"];
    assert roots[0] == "r" && roots[1] == "s";
    var w := Walked([["r", "a", "u"]], {"b"}, true, false);
    WalkRootsStep(g, {"u"}, room, roots, 0, Walked([], {}, false, false));
    WalkRootsStep(g, {"u"}, room, roots, 1, w);
    WalkRootsEnds(g, {"u"}, room, roots, 2, Walked([["r", "a", "u"]], {"b", "s"}, false, false));
  }

  /** Tasks without a cycle from which that graph comes. */
  function KnotTasks(): TaskDepends {
    map["r.t" := ["a.t"], "a.t" := ["b.t", "u.t"], "b.x" := ["a.x"], "s.t" := ["b.t"]]
  }

  function Height(t: string): nat {
    if t in {"r.t", "b.x"} then 3 else if t in {"a.t", "s.t"} then 2 else 1
  }

  ghost function TaskGraph(tdepends: TaskDepends): Graph {
    map t | t in tdepends :: set d | d in tdepends[t]
  }

  lemma KnotTasksAcyclic()
    ensures Acyclic(TaskGraph(KnotTasks()))
  {
    var g := TaskGraph(KnotTasks());
    forall t ensures !Reaches(g, t, t) {
      if p :| PathBetween(g, p, t, t) {
        KnotDescends(p);
      }
    }
  }

  lemma {:induction false} KnotDescends(p: seq<Node>)
    requires IsPath(TaskGraph(KnotTasks()), p) && |p| >= 2
    ensures Height(p[|p| - 1]) < Height(p[0])
  {
    assert p[1] in KnotTasks()[p[0]];
    assert Height(p[1]) < Height(p[0]);
    if |p| > 2 {
      hide TaskGraph;
      KnotDescends(p[1..]);
    }
  }

  lemma TaskOf(pn: char, task: char)
    requires pn != '.'
    ensures RecipeOf([pn, '.', task]) == [pn]
  {
    assert [pn, '.', task][1..] == ['.', task];
    assert RecipeOf(['.', task]) == "";
  }

  lemma OtherOne(d: string, pn: Node)
    requires RecipeOf(d) != pn
    ensures Others([d], pn) == {RecipeOf(d)}
  {
    assert [d][0] == d;
    hide RecipeOf;
  }

  lemma OtherTwo(d: string, e: string, pn: Node)
    requires RecipeOf(d) != pn && RecipeOf(e) != pn
    ensures Others([d, e], pn) == {RecipeOf(d), RecipeOf(e)}
  {
    assert [d, e][0] == d && [d, e][1] == e;
    hide RecipeOf;
  }

  lemma KnotNames()
    ensures RecipeOf("r.t") == "r" && RecipeOf("a.t") == "a" && RecipeOf("b.t") == "b" && RecipeOf("s.t") == "s"
    ensures RecipeOf("u.t") == "u" && RecipeOf("b.x") == "b" && RecipeOf("a.x") == "a"
  {
    hide RecipeOf;
    TaskOf('r', 't');
    TaskOf('a', 't');
    TaskOf('b', 't');
    TaskOf('s', 't');
    TaskOf('u', 't');
    TaskOf('b', 'x');
    TaskOf('a', 'x');
  }

  lemma KnotOthers()
    ensures Others(KnotTasks()["r.t"], "r") == {"a"} && Others(KnotTasks()["a.t"], "a") == {"b", "u"}
    ensures Others(KnotTasks()["b.x"], "b") == {"a"} && Others(KnotTasks()["s.t"], "s") == {"b"}
  {
    hide RecipeOf, Others;
    KnotNames();
    OtherOne("a.t", "r");
    OtherTwo("b.t", "u.t", "a");
    OtherOne("a.x", "b");
    OtherOne("b.t", "s");
  }

  lemma KnotIsRecipeGraph()
    ensures RecipeGraph({"r", "a", "b", "s", "u"}, KnotTasks()) == Knot()
    ensures Knot().Keys == {"r", "a", "b", "s", "u"}
  {
    hide RecipeOf, Others;
    KnotNames();
    KnotOthers();
    var td, keys := KnotTasks(), {"r.t", "a.t", "b.x", "s.t"};
    assert td.Keys == keys;
    assert NeededBy(td, keys, "r") == {"a"} && NeededBy(td, keys, "a") == {"b", "u"};
    assert NeededBy(td, keys, "b") == {"a"} && NeededBy(td, keys, "s") == {"b"} && NeededBy(td, keys, "u") == {};
    assert NeededByAny(td, keys) == {"a", "b", "u"};
    assert AllRecipes({"r", "a", "b", "s", "u"}, td) == {"r", "a", "b", "s", "u"};
  }

  /** So it happens to the function itself: the path from `s` to `u` is not among the lines. */
  method ReportOfKnot(maxLines: int) returns (lines: seq<Line>, truncated: bool)
    requires maxLines >= 2
    ensures lines == [["r", "a", "u"]] && !truncated
  {
    hide RecipeGraph, Knot, KnotTasks, WalkAll, CulpritsListed, RootLines, Listed, Tame, Report, Sorted, Roots, Reaches;
    hide RootLine, Final, Acyclic;
    KnotIsRecipeGraph();
    ReportMissesPath(maxLines);
    lines, truncated := DumpDependencies({"r", "a", "b", "s", "u"}, KnotTasks(), maxLines, {"u"});
  }
}
