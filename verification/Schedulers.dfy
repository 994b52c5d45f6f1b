/** The two scheduler orders and the choice of the next task. */
module Schedulers {
  import opened Graphs
  import opened TaskWeights
  import opened Wrappers
  import NameCodecs

  // ---- The speed order ------------------------------------------------------------------------

  ghost function Position(s: seq<Node>, n: Node): (i: nat)
    requires n in s
    ensures i < |s| && s[i] == n
  {
    var i :| 0 <= i < |s| && s[i] == n;
    i
  }

  /** `a` goes before `b`: it is lighter, or as heavy and earlier in `tasks`. */
  ghost predicate Lighter(w: map<Node, int>, tasks: seq<Node>, a: Node, b: Node) {
    && a in w && b in w && a in tasks && b in tasks
    && (w[a] < w[b] || (w[a] == w[b] && Position(tasks, a) < Position(tasks, b)))
  }

  ghost predicate Ascending(w: map<Node, int>, tasks: seq<Node>, s: seq<Node>) {
    forall i, j :: 0 <= i < j < |s| ==> Lighter(w, tasks, s[i], s[j])
  }

  ghost predicate Descending(w: map<Node, int>, tasks: seq<Node>, s: seq<Node>) {
    forall i, j :: 0 <= i < j < |s| ==> Lighter(w, tasks, s[j], s[i])
  }

  /** The speed order: every task once, heaviest first, later tasks first among equals. */
  ghost predicate SpeedOrder(w: map<Node, int>, tasks: seq<Node>, prio: seq<Node>) {
    && Descending(w, tasks, prio)
    && forall n :: n in prio <==> n in tasks
  }

  function Reversed<T>(s: seq<T>): (r: seq<T>)
    ensures |r| == |s| && forall i :: 0 <= i < |s| ==> r[i] == s[|s| - 1 - i]
  {
    if s == [] then [] else Reversed(s[1..]) + [s[0]]
  }

  lemma SpeedOrderDistinct(w: map<Node, int>, tasks: seq<Node>, prio: seq<Node>)
    requires SpeedOrder(w, tasks, prio)
    ensures Distinct(prio)
  {
    forall i, j | 0 <= i < j < |prio| ensures prio[i] != prio[j] {
      assert Lighter(w, tasks, prio[j], prio[i]);
    }
  }

  /** With the weights of an acyclic graph, the speed order lists every dependency before whatever
      depends on it. */
  lemma SpeedListsDependenciesFirst(g: Graph, w: map<Node, int>, tasks: seq<Node>, prio: seq<Node>, i: nat, d: Node)
    requires Acyclic(g) && Weighted(g, w)
    requires SpeedOrder(w, tasks, prio) && forall n :: n in tasks <==> n in g
    requires i < |prio| && prio[i] in g && d in g[prio[i]]
    ensures d in prio[..i]
  {
    hide Acyclic, Weighted;
    DependencyWeighsMore(g, w, prio[i], d);
    assert d in tasks by {
      DependencyKnown(g, w, prio[i], d);
    }
    var j := Position(prio, d);
    assert d == prio[..i][j];
  }

  lemma DependencyKnown(g: Graph, w: map<Node, int>, n: Node, d: Node)
    requires Weighted(g, w) && n in g && d in g[n]
    ensures d in g
  {
  }

  /** Two speed orders of the same tasks are the same list. */
  lemma {:induction false} SpeedOrderUnique(w: map<Node, int>, tasks: seq<Node>, a: seq<Node>, b: seq<Node>)
    requires Descending(w, tasks, a) && Descending(w, tasks, b)
    requires forall n :: n in a <==> n in b
    ensures a == b
  {
    if a != [] {
      assert a[0] in b;
    }
    if b != [] {
      assert b[0] in a;
    }
    if a != [] && b != [] {
      FirstIsHeaviest(w, tasks, a, b);
      FirstIsHeaviest(w, tasks, b, a);
      assert a == [a[0]] + a[1..] && b == [b[0]] + b[1..];
      forall n | n in a[1..] ensures n in b[1..] {
        NotRepeated(w, tasks, a, n);
        var k := Position(b, n);
        assert n == b[1..][k - 1];
      }
      forall n | n in b[1..] ensures n in a[1..] {
        NotRepeated(w, tasks, b, n);
        var k := Position(a, n);
        assert n == a[1..][k - 1];
      }
      SpeedOrderUnique(w, tasks, a[1..], b[1..]);
    }
  }

  lemma FirstIsHeaviest(w: map<Node, int>, tasks: seq<Node>, a: seq<Node>, b: seq<Node>)
    requires Descending(w, tasks, a) && Descending(w, tasks, b) && a != [] && b != []
    requires forall n :: n in a <==> n in b
    ensures a[0] == b[0]
  {
    assert a[0] in b && b[0] in a;
    var i, j := Position(b, a[0]), Position(a, b[0]);
    assert i > 0 ==> Lighter(w, tasks, b[i], b[0]);
    assert j > 0 ==> Lighter(w, tasks, a[j], a[0]);
  }

  lemma NotRepeated(w: map<Node, int>, tasks: seq<Node>, a: seq<Node>, n: Node)
    requires Descending(w, tasks, a) && a != [] && n in a[1..]
    ensures n != a[0]
  {
    var k := Position(a[1..], n);
    assert Lighter(w, tasks, a[k + 1], a[0]);
  }

  // ---- The completion order -------------------------------------------------------------------

  /** The tasks of one recipe, in order. */
  function OfRecipe(s: seq<Node>, fn: string): seq<Node> {
    if s == [] then []
    else if NameCodecs.FnFromTid(s[0]) == fn then [s[0]] + OfRecipe(s[1..], fn)
    else OfRecipe(s[1..], fn)
  }

  function NotOfRecipe(s: seq<Node>, fn: string): (r: seq<Node>)
    ensures |r| <= |s|
  {
    if s == [] then []
    else if NameCodecs.FnFromTid(s[0]) == fn then NotOfRecipe(s[1..], fn)
    else [s[0]] + NotOfRecipe(s[1..], fn)
  }

  /** The recipes of a task list, by first appearance. */
  function Recipes(s: seq<Node>): seq<string>
    decreases |s|
  {
    if s == [] then []
    else
      var fn := NameCodecs.FnFromTid(s[0]);
      [fn] + Recipes(NotOfRecipe(s[1..], fn))
  }

  function Grouped(s: seq<Node>): seq<Node>
    decreases |s|
  {
    if s == [] then []
    else
      var fn := NameCodecs.FnFromTid(s[0]);
      [s[0]] + (OfRecipe(s[1..], fn) + Grouped(NotOfRecipe(s[1..], fn)))
  }

  ghost predicate AllOf(s: seq<Node>, fn: string) {
    forall i :: 0 <= i < |s| ==> NameCodecs.FnFromTid(s[i]) == fn
  }

  ghost predicate NoneOf(s: seq<Node>, fn: string) {
    forall i :: 0 <= i < |s| ==> NameCodecs.FnFromTid(s[i]) != fn
  }

  /** The tasks of any one recipe stand next to each other. */
  ghost predicate Contiguous(s: seq<Node>) {
    forall i, j, k :: 0 <= i < j < k < |s| && NameCodecs.FnFromTid(s[i]) == NameCodecs.FnFromTid(s[k]) ==>
      NameCodecs.FnFromTid(s[j]) == NameCodecs.FnFromTid(s[i])
  }

  lemma {:induction false} SplitByRecipe(s: seq<Node>, fn: string)
    ensures AllOf(OfRecipe(s, fn), fn) && NoneOf(NotOfRecipe(s, fn), fn)
    ensures multiset(s) == multiset(OfRecipe(s, fn)) + multiset(NotOfRecipe(s, fn))
  {
    hide NameCodecs.FnFromTid;
    if s != [] {
      SplitByRecipe(s[1..], fn);
      var first, mine, others := s[0], OfRecipe(s[1..], fn), NotOfRecipe(s[1..], fn);
      assert s == [first] + s[1..];
      assert multiset(s) == multiset{first} + multiset(s[1..]);
      assert multiset([first] + mine) == multiset{first} + multiset(mine);
      assert multiset([first] + others) == multiset{first} + multiset(others);
      PrependUniform(first, mine, others, fn);
      hide AllOf, NoneOf;
    }
  }

  lemma PrependUniform(first: Node, mine: seq<Node>, others: seq<Node>, fn: string)
    requires AllOf(mine, fn) && NoneOf(others, fn)
    ensures NameCodecs.FnFromTid(first) == fn ==> AllOf([first] + mine, fn)
    ensures NameCodecs.FnFromTid(first) != fn ==> NoneOf([first] + others, fn)
  {
    hide NameCodecs.FnFromTid;
  }

  lemma Reassociate(a: seq<Node>, b: seq<Node>, c: seq<Node>)
    ensures a + (b + c) == a + b + c
  {
  }

  lemma {:induction false} OfRecipeAppend(a: seq<Node>, b: seq<Node>, fn: string)
    ensures OfRecipe(a + b, fn) == OfRecipe(a, fn) + OfRecipe(b, fn)
  {
    hide NameCodecs.FnFromTid;
    if a == [] {
      assert a + b == b;
    } else {
      OfRecipeAppend(a[1..], b, fn);
      assert (a + b)[1..] == a[1..] + b && (a + b)[0] == a[0];
      Reassociate([a[0]], OfRecipe(a[1..], fn), OfRecipe(b, fn));
    }
  }

  lemma {:induction false} NotOfRecipeAppend(a: seq<Node>, b: seq<Node>, fn: string)
    ensures NotOfRecipe(a + b, fn) == NotOfRecipe(a, fn) + NotOfRecipe(b, fn)
  {
    hide NameCodecs.FnFromTid;
    if a == [] {
      assert a + b == b;
    } else {
      NotOfRecipeAppend(a[1..], b, fn);
      assert (a + b)[1..] == a[1..] + b && (a + b)[0] == a[0];
      Reassociate([a[0]], NotOfRecipe(a[1..], fn), NotOfRecipe(b, fn));
    }
  }

  lemma {:induction false} OfRecipeUniform(s: seq<Node>, fn: string)
    ensures AllOf(s, fn) ==> OfRecipe(s, fn) == s && NotOfRecipe(s, fn) == []
    ensures NoneOf(s, fn) ==> OfRecipe(s, fn) == [] && NotOfRecipe(s, fn) == s
  {
    hide NameCodecs.FnFromTid;
    if s != [] {
      OfRecipeUniform(s[1..], fn);
      assert s == [s[0]] + s[1..];
      assert AllOf(s, fn) ==> AllOf(s[1..], fn);
      assert NoneOf(s, fn) ==> NoneOf(s[1..], fn);
    }
  }

  lemma {:induction false} OfOtherRecipe(s: seq<Node>, fn: string, other: string)
    requires fn != other
    ensures OfRecipe(NotOfRecipe(s, other), fn) == OfRecipe(s, fn)
  {
    hide NameCodecs.FnFromTid;
    if s != [] {
      OfOtherRecipe(s[1..], fn, other);
    }
  }

  /** Grouping keeps the tasks of every recipe in their order (and so loses and invents none). */
  lemma {:induction false} GroupedKeepsRecipeOrder(s: seq<Node>, fn: string)
    ensures OfRecipe(Grouped(s), fn) == OfRecipe(s, fn)
    decreases |s|
  {
    hide NameCodecs.FnFromTid;
    if s != [] {
      var first := NameCodecs.FnFromTid(s[0]);
      var head, rest := [s[0]] + OfRecipe(s[1..], first), NotOfRecipe(s[1..], first);
      GroupedKeepsRecipeOrder(rest, fn);
      Reassociate([s[0]], OfRecipe(s[1..], first), Grouped(rest));
      OfRecipeAppend(head, Grouped(rest), fn);
      SplitByRecipe(s[1..], first);
      OfRecipeUniform(head, first);
      if fn == first {
        OfRecipeUniform(rest, fn);
      } else {
        assert NoneOf(head, fn);
        OfRecipeUniform(head, fn);
        OfOtherRecipe(s[1..], fn, first);
      }
    }
  }

  lemma {:induction false} GroupedIsPermutation(s: seq<Node>)
    ensures multiset(Grouped(s)) == multiset(s)
    decreases |s|
  {
    hide NameCodecs.FnFromTid, AllOf, NoneOf, OfRecipe, NotOfRecipe;
    if s != [] {
      var first := NameCodecs.FnFromTid(s[0]);
      var mine, others := OfRecipe(s[1..], first), NotOfRecipe(s[1..], first);
      SplitByRecipe(s[1..], first);
      GroupedIsPermutation(others);
      assert Grouped(s) == [s[0]] + mine + Grouped(others);
      hide Grouped;
      assert s == [s[0]] + s[1..];
    }
  }

  lemma {:induction false} GroupedIsContiguous(s: seq<Node>)
    ensures Contiguous(Grouped(s))
    decreases |s|
  {
    hide NameCodecs.FnFromTid;
    if s != [] {
      var first := NameCodecs.FnFromTid(s[0]);
      var head, rest := [s[0]] + OfRecipe(s[1..], first), NotOfRecipe(s[1..], first);
      SplitByRecipe(s[1..], first);
      GroupedIsContiguous(rest);
      GroupedKeepsRecipeOrder(rest, first);
      OfRecipeUniform(rest, first);
      NoneLeft(Grouped(rest), first);
      Reassociate([s[0]], OfRecipe(s[1..], first), Grouped(rest));
      ContiguousJoin(head, Grouped(rest), first);
    }
  }

  lemma {:induction false} NoneLeft(s: seq<Node>, fn: string)
    requires OfRecipe(s, fn) == []
    ensures NoneOf(s, fn)
  {
    hide NameCodecs.FnFromTid;
    if s != [] {
      NoneLeft(s[1..], fn);
      assert s == [s[0]] + s[1..];
    }
  }

  lemma ContiguousJoin(a: seq<Node>, b: seq<Node>, fn: string)
    requires AllOf(a, fn) && NoneOf(b, fn) && Contiguous(b)
    ensures Contiguous(a + b)
  {
    hide NameCodecs.FnFromTid;
    var s := a + b;
    assert forall m :: |a| <= m < |s| ==> s[m] == b[m - |a|];
    forall i, j, k | 0 <= i < j < k < |s| && NameCodecs.FnFromTid(s[i]) == NameCodecs.FnFromTid(s[k])
      ensures NameCodecs.FnFromTid(s[j]) == NameCodecs.FnFromTid(s[i])
    {
      if i < |a| {
        assert s[i] == a[i];
        assert s[j] == a[j];
      } else {
        assert s[i] == b[i - |a|] && s[j] == b[j - |a|];
      }
    }
  }

  /** Grouping keeps the recipes in the order of their first task. */
  lemma {:induction false} GroupedKeepsRecipes(s: seq<Node>)
    ensures Recipes(Grouped(s)) == Recipes(s)
    decreases |s|
  {
    hide NameCodecs.FnFromTid;
    if s != [] {
      var first := NameCodecs.FnFromTid(s[0]);
      var mine, rest := OfRecipe(s[1..], first), NotOfRecipe(s[1..], first);
      SplitByRecipe(s[1..], first);
      GroupedKeepsRecipes(rest);
      NotOfRecipeAppend(mine, Grouped(rest), first);
      OfRecipeUniform(mine, first);
      OfRecipeUniform(rest, first);
      GroupedKeepsRecipeOrder(rest, first);
      NoneLeft(Grouped(rest), first);
      OfRecipeUniform(Grouped(rest), first);
      var tail := mine + Grouped(rest);
      assert NotOfRecipe(tail, first) == Grouped(rest);
      assert Grouped(s) == [s[0]] + tail;
      assert ([s[0]] + tail)[1..] == tail;
    }
  }

  // ---- Building the orders --------------------------------------------------------------------

  /** The tasks of one weight, in order. */
  function OfWeight(s: seq<Node>, weight: map<Node, int>, w: int): seq<Node>
    requires forall n :: n in s ==> n in weight
  {
    if s == [] then []
    else
      var k := |s| - 1;
      OfWeight(s[..k], weight, w) + (if weight[s[k]] == w then [s[k]] else [])
  }

  lemma {:induction false} OfWeightOrdered(weight: map<Node, int>, tasks: seq<Node>, i: nat, w: int)
    requires Distinct(tasks) && i <= |tasks| && forall n :: n in tasks ==> n in weight
    ensures forall n :: n in OfWeight(tasks[..i], weight, w) <==> n in tasks[..i] && weight[n] == w
    ensures Ascending(weight, tasks, OfWeight(tasks[..i], weight, w))
  {
    if i > 0 {
      OfWeightOrdered(weight, tasks, i - 1, w);
      var shorter, b := tasks[..i - 1], OfWeight(tasks[..i - 1], weight, w);
      assert tasks[..i][..i - 1] == shorter && tasks[..i] == shorter + [tasks[i - 1]];
      assert OfWeight(tasks[..i], weight, w) == if weight[tasks[i - 1]] == w then b + [tasks[i - 1]] else b;
      hide OfWeight;
      if weight[tasks[i - 1]] == w {
        forall j | 0 <= j < |b| ensures Lighter(weight, tasks, b[j], tasks[i - 1]) {
          assert b[j] in b;
          LighterLater(weight, tasks, i, b[j], w);
        }
      }
    }
  }

  lemma LighterLater(weight: map<Node, int>, tasks: seq<Node>, i: nat, n: Node, w: int)
    requires Distinct(tasks) && 0 < i <= |tasks| && n in tasks[..i - 1] && forall t :: t in tasks ==> t in weight
    requires weight[n] == w == weight[tasks[i - 1]]
    ensures Lighter(weight, tasks, n, tasks[i - 1])
  {
    var k := Position(tasks[..i - 1], n);
    assert tasks[k] == n;
  }

  /** After `i` tasks, every weight seen has its tasks in order. */
  ghost predicate Buckets(weight: map<Node, int>, tasks: seq<Node>, i: nat, weights: map<int, seq<Node>>)
    requires i <= |tasks| && forall n :: n in tasks ==> n in weight
  {
    && (forall k :: 0 <= k < i ==> weight[tasks[k]] in weights)
    && forall w :: w in weights ==> weights[w] == OfWeight(tasks[..i], weight, w)
  }

  lemma BucketGrows(weight: map<Node, int>, tasks: seq<Node>, i: nat, weights: map<int, seq<Node>>,
                    weights': map<int, seq<Node>>)
    requires i < |tasks| && forall n :: n in tasks ==> n in weight
    requires Buckets(weight, tasks, i, weights)
    requires var w := weight[tasks[i]];
             weights' == weights[w := (if w in weights then weights[w] else []) + [tasks[i]]]
    ensures Buckets(weight, tasks, i + 1, weights')
  {
    assert tasks[..i + 1][..i] == tasks[..i];
    NoneYet(weight, tasks, i, weight[tasks[i]], weights);
  }

  lemma {:induction false} NoneYet(weight: map<Node, int>, tasks: seq<Node>, i: nat, w: int,
                                   weights: map<int, seq<Node>>)
    requires i <= |tasks| && forall n :: n in tasks ==> n in weight
    requires forall k :: 0 <= k < i ==> weight[tasks[k]] in weights
    ensures w !in weights ==> OfWeight(tasks[..i], weight, w) == []
  {
    if i > 0 {
      NoneYet(weight, tasks, i - 1, w, weights);
      assert tasks[..i][..i - 1] == tasks[..i - 1];
    }
  }

  /** The tasks of all weights but those `left`, lightest first. */
  ghost predicate Emitted(weight: map<Node, int>, tasks: seq<Node>, prio: seq<Node>, left: set<int>)
    requires forall n :: n in tasks ==> n in weight
  {
    && Ascending(weight, tasks, prio)
    && (forall n :: n in prio <==> n in tasks && weight[n] !in left)
    && forall n, w :: n in prio && n in weight && w in left ==> weight[n] < w
  }

  lemma EmitBucket(weight: map<Node, int>, tasks: seq<Node>, bucket: seq<Node>, prio: seq<Node>, left: set<int>,
                   least: int)
    requires Distinct(tasks) && forall n :: n in tasks ==> n in weight
    requires bucket == OfWeight(tasks, weight, least)
    requires Emitted(weight, tasks, prio, left) && least in left && forall w :: w in left ==> least <= w
    ensures Emitted(weight, tasks, prio + bucket, left - {least})
  {
    assert tasks[..|tasks|] == tasks;
    OfWeightOrdered(weight, tasks, |tasks|, least);
    var all := prio + bucket;
    forall i, j | 0 <= i < j < |all| ensures Lighter(weight, tasks, all[i], all[j]) {
      if j < |prio| {
        assert Lighter(weight, tasks, prio[i], prio[j]);
      } else if i >= |prio| {
        assert Lighter(weight, tasks, bucket[i - |prio|], bucket[j - |prio|]);
      } else {
        assert prio[i] in prio && bucket[j - |prio|] in bucket;
      }
    }
  }

  lemma ReversedDescends(weight: map<Node, int>, tasks: seq<Node>, prio: seq<Node>)
    requires forall n :: n in tasks ==> n in weight
    requires Emitted(weight, tasks, prio, {})
    ensures SpeedOrder(weight, tasks, Reversed(prio))
  {
    var r := Reversed(prio);
    forall n | n in prio ensures n in r {
      var i := Position(prio, n);
      assert r[|prio| - 1 - i] == n;
    }
  }

  method AnyOf<T>(s: set<T>) returns (x: T)
    requires s != {}
    ensures x in s
  {
    x :| x in s;
  }

  method Least(s: set<int>) returns (least: int)
    requires s != {}
    ensures least in s && forall w :: w in s ==> least <= w
  {
    least := AnyOf(s);
    var rest := s - {least};
    while rest != {}
      invariant rest <= s && least in s
      invariant forall w :: w in s && w !in rest ==> least <= w
      decreases rest
    {
      var w := AnyOf(rest);
      if w < least {
        least := w;
      }
      rest := rest - {w};
    }
  }

  /** Groups the tasks by weight, lightest first, and turns the list round. */
  method SpeedPrioMap(tasks: seq<Node>, weight: map<Node, int>) returns (prioMap: seq<Node>)
    requires Distinct(tasks) && forall n :: n in tasks ==> n in weight
    ensures SpeedOrder(weight, tasks, prioMap)
  {
    var weights: map<int, seq<Node>> := map[];
    var i := 0;
    while i < |tasks|
      invariant 0 <= i <= |tasks|
      invariant Buckets(weight, tasks, i, weights)
    {
      ghost var before := weights;
      var tid := tasks[i];
      var w := weight[tid];
      if w !in weights {
        weights := weights[w := []];
      }
      weights := weights[w := weights[w] + [tid]];
      BucketGrows(weight, tasks, i, before, weights);
      i := i + 1;
    }
    assert tasks[..i] == tasks;
    prioMap := [];
    var left := weights.Keys;
    assert forall n :: n in tasks ==> weight[n] in left;
    while left != {}
      invariant left <= weights.Keys
      invariant Emitted(weight, tasks, prioMap, left)
      decreases left
    {
      var least := Least(left);
      EmitBucket(weight, tasks, weights[least], prioMap, left, least);
      prioMap := prioMap + weights[least];
      left := left - {least};
    }
    ReversedDescends(weight, tasks, prioMap);
    prioMap := Reversed(prioMap);
  }

  /** The first index of `n`, as `list.index` finds it. */
  function IndexOf(s: seq<Node>, n: Node): (i: nat)
    requires n in s
    ensures i < |s| && s[i] == n && n !in s[..i]
  {
    if s[0] == n then 0
    else
      assert s == [s[0]] + s[1..];
      var i := IndexOf(s[1..], n);
      assert s[..i + 1] == [s[0]] + s[1..][..i];
      i + 1
  }

  /** The indices below `i` of the tasks of a recipe, in order. */
  ghost predicate IndicesOf(s: seq<Node>, fn: string, i: nat, todel: seq<nat>) {
    && i <= |s|
    && (forall k :: 0 <= k < |todel| ==> todel[k] < i && NameCodecs.FnFromTid(s[todel[k]]) == fn)
    && (forall j, k :: 0 <= j < k < |todel| ==> todel[j] < todel[k])
    && forall x :: 0 <= x < i && NameCodecs.FnFromTid(s[x]) == fn ==> x in todel
  }

  lemma OfRecipeSnoc(s: seq<Node>, i: nat, fn: string)
    requires i < |s|
    ensures OfRecipe(s[..i + 1], fn) ==
            OfRecipe(s[..i], fn) + (if NameCodecs.FnFromTid(s[i]) == fn then [s[i]] else [])
  {
    hide NameCodecs.FnFromTid;
    assert s[..i + 1] == s[..i] + [s[i]];
    OfRecipeAppend(s[..i], [s[i]], fn);
    assert OfRecipe([s[i]], fn) == if NameCodecs.FnFromTid(s[i]) == fn then [s[i]] else [];
  }

  /** What is left when everything of the recipe from index `lim` on has been deleted. */
  ghost function DeletedFrom(s: seq<Node>, fn: string, lim: nat): seq<Node>
    requires lim <= |s|
  {
    s[..lim] + NotOfRecipe(s[lim..], fn)
  }

  lemma DeletedOneMore(s: seq<Node>, fn: string, idx: nat, lim: nat)
    requires idx < lim <= |s| && NameCodecs.FnFromTid(s[idx]) == fn
    requires forall x :: idx < x < lim ==> NameCodecs.FnFromTid(s[x]) != fn
    ensures var cur := DeletedFrom(s, fn, lim);
            idx < |cur| && cur[..idx] + cur[idx + 1..] == DeletedFrom(s, fn, idx)
  {
    hide NameCodecs.FnFromTid;
    var between, rest := s[idx + 1..lim], NotOfRecipe(s[lim..], fn);
    assert s[idx + 1..] == between + s[lim..];
    NotOfRecipeAppend(between, s[lim..], fn);
    OfRecipeUniform(between, fn);
    assert s[idx..][1..] == s[idx + 1..];
    assert NotOfRecipe(s[idx..], fn) == between + rest;
    var cur := DeletedFrom(s, fn, lim);
    assert cur[..idx] == s[..idx];
    assert cur[idx + 1..] == between + rest;
  }

  lemma DeletedAll(s: seq<Node>, fn: string, lim: nat)
    requires lim <= |s| && forall x :: 0 <= x < lim ==> NameCodecs.FnFromTid(s[x]) != fn
    ensures DeletedFrom(s, fn, lim) == NotOfRecipe(s, fn)
  {
    hide NameCodecs.FnFromTid;
    assert s == s[..lim] + s[lim..];
    NotOfRecipeAppend(s[..lim], s[lim..], fn);
    OfRecipeUniform(s[..lim], fn);
  }

  /** Deletes the collected indices, last first. */
  method DeleteIndices(s: seq<Node>, ghost fn: string, todel: seq<nat>) returns (cur: seq<Node>)
    requires IndicesOf(s, fn, |s|, todel)
    ensures cur == NotOfRecipe(s, fn)
  {
    hide NameCodecs.FnFromTid, NotOfRecipe;
    cur := s;
    var m := |todel|;
    ghost var lim := |s|;
    assert cur == DeletedFrom(s, fn, lim) by {
      assert s[|s|..] == [] && NotOfRecipe([], fn) == [] by {
        NothingLeft(fn);
      }
    }
    while m > 0
      invariant 0 <= m <= |todel|
      invariant lim == (if m == |todel| then |s| else todel[m])
      invariant cur == DeletedFrom(s, fn, lim)
    {
      m := m - 1;
      forall x | todel[m] < x < lim ensures NameCodecs.FnFromTid(s[x]) != fn {
        BetweenIndices(s, fn, todel, m, x);
      }
      DeletedOneMore(s, fn, todel[m], lim);
      hide DeletedFrom;
      cur := cur[..todel[m]] + cur[todel[m] + 1..];
      lim := todel[m];
    }
    forall x | 0 <= x < lim ensures NameCodecs.FnFromTid(s[x]) != fn {
      BeforeIndices(s, fn, todel, x);
    }
    DeletedAll(s, fn, lim);
  }

  lemma NothingLeft(fn: string)
    ensures NotOfRecipe([], fn) == []
  {
  }

  lemma BetweenIndices(s: seq<Node>, fn: string, todel: seq<nat>, m: nat, x: nat)
    requires IndicesOf(s, fn, |s|, todel) && m < |todel|
    requires todel[m] < x < if m + 1 == |todel| then |s| else todel[m + 1]
    ensures NameCodecs.FnFromTid(s[x]) != fn
  {
    hide NameCodecs.FnFromTid;
    forall k | 0 <= k < |todel| ensures todel[k] != x {
    }
  }

  lemma BeforeIndices(s: seq<Node>, fn: string, todel: seq<nat>, x: nat)
    requires IndicesOf(s, fn, |s|, todel) && x < |s|
    requires todel != [] ==> x < todel[0]
    ensures NameCodecs.FnFromTid(s[x]) != fn
  {
    hide NameCodecs.FnFromTid;
    forall k | 0 <= k < |todel| ensures todel[k] != x {
    }
  }

  lemma {:induction false} NotOfRecipeDistinct(s: seq<Node>, fn: string)
    requires Distinct(s)
    ensures Distinct(NotOfRecipe(s, fn)) && forall n :: n in NotOfRecipe(s, fn) ==> n in s
  {
    hide NameCodecs.FnFromTid;
    if s != [] {
      assert forall i :: 0 <= i < |s[1..]| ==> s[1..][i] != s[0];
      NotOfRecipeDistinct(s[1..], fn);
      assert s[0] !in NotOfRecipe(s[1..], fn);
    }
  }

  lemma GroupedStep(taken: seq<Node>, s: seq<Node>)
    requires s != []
    ensures var fn := NameCodecs.FnFromTid(s[0]);
            taken + [s[0]] + OfRecipe(s[1..], fn) + Grouped(NotOfRecipe(s[1..], fn)) == taken + Grouped(s)
  {
    hide NameCodecs.FnFromTid;
    var fn := NameCodecs.FnFromTid(s[0]);
    var mine, rest := OfRecipe(s[1..], fn), Grouped(NotOfRecipe(s[1..], fn));
    Reassociate(taken, [s[0]], mine + rest);
    Reassociate(taken + [s[0]], mine, rest);
  }

  /** Repeatedly moves the first task and all later ones of its recipe to the new list. */
  method CompletionPrioMap(speedMap: seq<Node>) returns (prioMap: seq<Node>)
    requires Distinct(speedMap)
    ensures prioMap == Grouped(speedMap)
  {
    hide NameCodecs.FnFromTid, Grouped, OfRecipe, NotOfRecipe;
    var basemap := speedMap;
    prioMap := [];
    while |basemap| > 0
      invariant Distinct(basemap)
      invariant prioMap + Grouped(basemap) == Grouped(speedMap)
      decreases |basemap|
    {
      GroupedStep(prioMap, basemap);
      NotOfRecipeDistinct(basemap[1..], NameCodecs.FnFromTid(basemap[0]));
      var entry := basemap[0];
      var mine, rest := TakeRecipe(basemap[1..], NameCodecs.FnFromTid(entry));
      prioMap := prioMap + [entry] + mine;
      basemap := rest;
    }
    NothingGrouped();
  }

  lemma NothingGrouped()
    ensures Grouped([]) == []
  {
  }

  method TakeRecipe(basemap: seq<Node>, fn: string) returns (mine: seq<Node>, rest: seq<Node>)
    requires Distinct(basemap)
    ensures mine == OfRecipe(basemap, fn) && rest == NotOfRecipe(basemap, fn)
  {
    hide NameCodecs.FnFromTid, NotOfRecipe;
    var todel: seq<nat> := [];
    mine := [];
    var i := 0;
    while i < |basemap|
      invariant 0 <= i <= |basemap|
      invariant IndicesOf(basemap, fn, i, todel)
      invariant mine == OfRecipe(basemap[..i], fn)
    {
      var entry := basemap[i];
      OfRecipeSnoc(basemap, i, fn);
      if NameCodecs.FnFromTid(entry) == fn {
        todel := todel + [IndexOf(basemap, entry)];
        mine := mine + [entry];
      }
      i := i + 1;
    }
    assert basemap[..i] == basemap;
    rest := DeleteIndices(basemap, fn, todel);
  }

  // ---- Choosing the next task -----------------------------------------------------------------

  datatype SchedulerKind = Speed | Completion

  /** The speed and the completion scheduler; they differ in their priority map only. */
  class RunQueueScheduler {
    var buildable: seq<Node>
    var prioMap: seq<Node>
    var revPrioMap: map<Node, nat>
    const stamps: map<Node, string>

    ghost predicate Valid()
      reads this
    {
      && Distinct(prioMap)
      && (forall t :: t in buildable ==> t in prioMap && t in stamps)
      && (forall t :: t in prioMap ==> t in stamps)
      && (revPrioMap == map[] || forall t :: t in prioMap ==> t in revPrioMap && revPrioMap[t] == Position(prioMap, t))
    }

    constructor (kind: SchedulerKind, tasks: seq<Node>, weight: map<Node, int>, stamps: map<Node, string>,
                 runqBuildable: set<Node>)
      requires Distinct(tasks) && forall t :: t in tasks ==> t in weight && t in stamps
      ensures Valid() && this.stamps == stamps
      ensures exists speed :: SpeedOrder(weight, tasks, speed) &&
                              prioMap == if kind.Speed? then speed else Grouped(speed)
      ensures forall t :: t in prioMap <==> t in tasks
      ensures forall t :: t in buildable <==> t in tasks && t in runqBuildable
    {
      var b: seq<Node> := [];
      for i := 0 to |tasks|
        invariant forall t :: t in b <==> t in tasks[..i] && t in runqBuildable
      {
        assert tasks[..i + 1] == tasks[..i] + [tasks[i]];
        if tasks[i] in runqBuildable {
          b := b + [tasks[i]];
        }
      }
      assert tasks[..|tasks|] == tasks;
      var speed := SpeedPrioMap(tasks, weight);
      SpeedOrderDistinct(weight, tasks, speed);
      var prio := speed;
      if kind == Completion {
        prio := CompletionPrioMap(speed);
        PermutedKeeps(speed);
      }
      hide SpeedOrder, Grouped;
      this.buildable := b;
      this.prioMap := prio;
      this.revPrioMap := map[];
      this.stamps := stamps;
    }

    /** The best-placed buildable task that is not running and whose stamp no worker holds, if any. */
    method NextBuildableTask(running: set<Node>, buildStamps: map<Node, string>) returns (best: Option<Node>)
      requires Valid()
      modifies this`buildable, this`revPrioMap
      ensures Valid()
      ensures forall t :: t in buildable <==> t in old(buildable) && t !in running
      ensures best.None? <==> forall t :: t in buildable ==> stamps[t] in buildStamps.Values
      ensures best.Some? ==> Chosen(best.value, buildStamps.Values)
    {
      hide Distinct;
      buildable := NotRunning(buildable, running);
      if buildable == [] {
        return None;
      }
      if |buildable| == 1 {
        var tid := buildable[0];
        if stamps[tid] !in buildStamps.Values {
          return Some(tid);
        }
      }
      if revPrioMap == map[] {
        revPrioMap := RankOf(prioMap);
      }
      assert forall t :: t in prioMap ==> t in revPrioMap && revPrioMap[t] == Position(prioMap, t);
      best := BestFree(buildable, revPrioMap, stamps, buildStamps.Values);
    }

    /** The task of the list with the lowest rank among those whose stamp is not in use. */
    static method BestFree(list: seq<Node>, rank: map<Node, nat>, stamps: map<Node, string>, inUse: set<string>)
      returns (best: Option<Node>)
      requires forall t :: t in list ==> t in rank && t in stamps
      ensures best.None? <==> forall t :: t in list ==> stamps[t] in inUse
      ensures best.Some? ==>
                && best.value in list && stamps[best.value] !in inUse
                && forall t :: t in list && stamps[t] !in inUse ==> rank[best.value] <= rank[t]
    {
      best := None;
      var bestprio := 0;
      var i := 0;
      while i < |list|
        invariant 0 <= i <= |list|
        invariant best.None? ==> forall k :: 0 <= k < i ==> stamps[list[k]] in inUse
        invariant best.Some? ==> best.value in list && bestprio == rank[best.value] && stamps[best.value] !in inUse
        invariant best.Some? ==> forall k :: 0 <= k < i && stamps[list[k]] !in inUse ==> bestprio <= rank[list[k]]
      {
        var tid := list[i];
        i := i + 1;
        var prio := rank[tid];
        if best.None? || bestprio > prio {
          if stamps[tid] in inUse {
            continue;
          }
          bestprio := prio;
          best := Some(tid);
        }
      }
    }

    /** `t` is buildable with a free stamp, and no other such task stands before it. */
    ghost predicate Chosen(t: Node, inUse: set<string>)
      requires Valid()
      reads this
    {
      && t in buildable
      && stamps[t] !in inUse
      && forall u :: u in buildable && stamps[u] !in inUse ==> Position(prioMap, t) <= Position(prioMap, u)
    }

    method Next(active: int, numberTasks: int, running: set<Node>, buildStamps: map<Node, string>)
      returns (best: Option<Node>)
      requires Valid()
      modifies this`buildable, this`revPrioMap
      ensures Valid()
      ensures active < numberTasks ==> forall t :: t in buildable <==> t in old(buildable) && t !in running
      ensures active < numberTasks ==> (best.None? <==> forall t :: t in buildable ==> stamps[t] in buildStamps.Values)
      ensures active >= numberTasks ==> best.None? && buildable == old(buildable)
      ensures best.Some? ==> Chosen(best.value, buildStamps.Values)
    {
      if active < numberTasks {
        best := NextBuildableTask(running, buildStamps);
      } else {
        best := None;
      }
    }

    method NewBuildable(task: Node)
      requires Valid() && task in prioMap
      modifies this`buildable
      ensures Valid() && buildable == old(buildable) + [task]
    {
      buildable := buildable + [task];
    }
  }

  function NotRunning(s: seq<Node>, running: set<Node>): (r: seq<Node>)
    ensures forall t :: t in r <==> t in s && t !in running
  {
    if s == [] then []
    else
      assert s == [s[0]] + s[1..];
      (if s[0] in running then [] else [s[0]]) + NotRunning(s[1..], running)
  }

  method RankOf(prioMap: seq<Node>) returns (rank: map<Node, nat>)
    requires Distinct(prioMap)
    ensures forall t :: t in prioMap ==> t in rank && rank[t] == Position(prioMap, t)
  {
    rank := map[];
    for i := 0 to |prioMap|
      invariant forall k :: 0 <= k < i ==> prioMap[k] in rank && rank[prioMap[k]] == k
    {
      rank := rank[prioMap[i] := IndexOf(prioMap, prioMap[i])];
    }
  }

  lemma PermutedKeeps(s: seq<Node>)
    requires Distinct(s)
    ensures Distinct(Grouped(s)) && forall t :: t in Grouped(s) <==> t in s
  {
    GroupedIsPermutation(s);
    var r := Grouped(s);
    hide Grouped;
    forall t ensures t in r <==> t in s {
      assert t in multiset(r) <==> t in multiset(s);
    }
    DistinctCounts(s);
    CountsDistinct(r);
  }

  lemma CountsDistinct(r: seq<Node>)
    requires forall n :: n in r ==> multiset(r)[n] == 1
    ensures Distinct(r)
  {
    forall i, j | 0 <= i < j < |r| ensures r[i] != r[j] {
      assert r == r[..j] + r[j..];
      assert r[..j][i] in multiset(r[..j]) && r[j..][0] in multiset(r[j..]);
      assert multiset(r)[r[i]] == multiset(r[..j])[r[i]] + multiset(r[j..])[r[i]];
      assert r[i] in r;
    }
  }

  lemma {:induction false} DistinctCounts(s: seq<Node>)
    requires Distinct(s)
    ensures forall n :: n in s ==> multiset(s)[n] == 1
  {
    if s != [] {
      DistinctCounts(s[1..]);
      assert s == [s[0]] + s[1..];
      assert s[0] !in s[1..];
      assert multiset(s) == multiset{s[0]} + multiset(s[1..]);
      assert s[0] !in multiset(s[1..]);
    }
  }
}
