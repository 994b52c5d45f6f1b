/** How `DataSmart.getVarFlag` chooses, among the override variables recorded for a variable, the one
    whose value is used: the loop that rewrites the `active` dictionary. */
module Overrides {
  import opened Wrappers
  import Graphs

  // ---- Python's string operations --------------------------------------------------------------

  predicate EndsWith(a: string, s: string) {
    |a| >= |s| && a[|a| - |s|..] == s
  }

  /** `a.replace(s, "")`. */
  function Erase(a: string, s: string): (r: string)
    requires s != ""
    ensures |r| <= |a|
  {
    if |a| < |s| then a
    else if a[..|s|] == s then Erase(a[|s|..], s)
    else [a[0]] + Erase(a[1..], s)
  }

  lemma {:induction false} EraseShorter(a: string, s: string)
    requires s != "" && EndsWith(a, s)
    ensures |Erase(a, s)| < |a|
  {
    if a[..|s|] != s {
      EraseShorter(a[1..], s);
    }
  }

  function Suffix(o: string): string {
    "_" + o
  }

  // ---- What becomes of one key -----------------------------------------------------------------

  datatype Step = Hit | Key(k: string)

  /** What one override does to one key: strips it, matches it, or leaves it alone. */
  function StepOf(a: string, o: string): (r: Step)
    ensures r.Key? ==> |r.k| <= |a|
    ensures r.Key? && |r.k| == |a| ==> r.k == a
  {
    if EndsWith(a, Suffix(o)) then
      EraseShorter(a, Suffix(o));
      Key(Erase(a, Suffix(o)))
    else if a == o then Hit
    else Key(a)
  }

  datatype Ending = HitAt(index: nat) | Left(k: string)

  /** The rest of one pass over the overrides, from the `i`-th on. */
  function Rest(a: string, os: seq<string>, i: nat): (r: Ending)
    requires i <= |os|
    ensures r.Left? ==> |r.k| <= |a|
    ensures r.Left? && |r.k| == |a| ==> r.k == a
    ensures r.HitAt? ==> i <= r.index < |os|
    decreases |os| - i
  {
    if i == |os| then Left(a)
    else
      match StepOf(a, os[i])
      case Hit => HitAt(i)
      case Key(k) => Rest(k, os, i + 1)
  }

  /** A moment of the loop: the pass, and the override within the pass. */
  datatype Time = Time(pass: nat, index: nat)

  predicate Earlier(s: Time, t: Time) {
    s.pass < t.pass || (s.pass == t.pass && s.index < t.index)
  }

  function Later(t: Option<Time>): Option<Time> {
    match t
    case None => None
    case Some(t) => Some(Time(t.pass + 1, t.index))
  }

  /** When a key is matched, if ever, counted from the start of a pass. */
  function Fate(a: string, os: seq<string>): Option<Time>
    decreases |a|
  {
    match Rest(a, os, 0)
    case HitAt(i) => Some(Time(0, i))
    case Left(k) => if |k| < |a| then Later(Fate(k, os)) else None
  }

  /** The same from the `i`-th override of a pass on. */
  function FateFrom(a: string, os: seq<string>, i: nat): Option<Time>
    requires i <= |os|
  {
    match Rest(a, os, i)
    case HitAt(j) => Some(Time(0, j))
    case Left(k) => Later(Fate(k, os))
  }

  lemma FateFromStart(a: string, os: seq<string>)
    ensures FateFrom(a, os, 0) == Fate(a, os)
  {
  }

  lemma FateFromStep(a: string, os: seq<string>, i: nat)
    requires i < |os|
    ensures StepOf(a, os[i]).Hit? ==> FateFrom(a, os, i) == Some(Time(0, i))
    ensures StepOf(a, os[i]).Key? ==> FateFrom(a, os, i) == FateFrom(StepOf(a, os[i]).k, os, i + 1)
    ensures StepOf(a, os[i]).Key? && FateFrom(a, os, i).Some? ==> Earlier(Time(0, i), FateFrom(a, os, i).value)
  {
  }

  /** Stripping `o` leaves a key on which `o` has no further effect. */
  predicate Settled(k: string, o: string) {
    StepOf(k, o) == Key(k)
  }

  predicate SteadyRest(a: string, os: seq<string>, i: nat)
    requires i <= |os|
    decreases |os| - i
  {
    i == |os| || StepOf(a, os[i]).Hit? ||
    (Settled(StepOf(a, os[i]).k, os[i]) && SteadyRest(StepOf(a, os[i]).k, os, i + 1))
  }

  /** So it is throughout the rewriting of this key: no override occurs in it twice, for instance. */
  predicate Steady(a: string, os: seq<string>)
    decreases |a|
  {
    SteadyRest(a, os, 0) &&
    match Rest(a, os, 0)
    case HitAt(i) => true
    case Left(k) => |k| < |a| ==> Steady(k, os)
  }

  predicate SteadyFrom(a: string, os: seq<string>, i: nat)
    requires i <= |os|
  {
    SteadyRest(a, os, i) &&
    match Rest(a, os, i)
    case HitAt(i) => true
    case Left(k) => Steady(k, os)
  }

  // ---- Which variable is chosen ------------------------------------------------------------------

  type Active = map<string, string>

  ghost predicate NoneMatches(active: Active, os: seq<string>, i: nat)
    requires i <= |os|
  {
    forall k :: k in active ==> FateFrom(k, os, i).None?
  }

  /** No key is matched later than `k`. */
  ghost predicate MatchesLast(active: Active, os: seq<string>, i: nat, k: string)
    requires i <= |os|
  {
    k in active && FateFrom(k, os, i).Some? &&
    forall k' :: k' in active && FateFrom(k', os, i).Some? ==>
      !Earlier(FateFrom(k, os, i).value, FateFrom(k', os, i).value)
  }

  /** `r` is an answer from here on: the variable of a key that is matched last, or what has been
      matched already if no key will be. */
  ghost predicate Answer(active: Active, os: seq<string>, i: nat, matched: Option<string>, r: Option<string>)
    requires i <= |os|
  {
    if NoneMatches(active, os, i) then r == matched
    else exists k :: MatchesLast(active, os, i, k) && r == Some(active[k])
  }

  ghost predicate AllSteady(active: Active, os: seq<string>, i: nat)
    requires i <= |os|
  {
    forall k :: k in active ==> SteadyFrom(k, os, i)
  }

  /** The keys and variables before and after one override has been applied to every key. */
  ghost predicate Stepped(active: Active, o: string, active': Active) {
    && (forall a :: a in active && StepOf(a, o).Key? ==> StepOf(a, o).k in active')
    && (forall k :: k in active' ==> exists a :: Origin(active, o, a, k, active'[k]))
  }

  ghost predicate Origin(active: Active, o: string, a: string, k: string, v: string) {
    a in active && StepOf(a, o) == Key(k) && active[a] == v
  }

  function MatchedBy(active: Active, o: string, matched: Option<string>): Option<string> {
    if o in active then Some(active[o]) else matched
  }

  lemma OnlyOwnNameHits(a: string, o: string)
    ensures StepOf(a, o).Hit? <==> a == o
  {
  }

  lemma MatchesStep(active: Active, os: seq<string>, i: nat, active': Active, a: string, b: string)
    requires i < |os| && Stepped(active, os[i], active')
    requires a in active && StepOf(a, os[i]).Key? && MatchesLast(active', os, i + 1, StepOf(a, os[i]).k)
    requires b in active && FateFrom(b, os, i).Some?
    ensures FateFrom(a, os, i).Some? && !Earlier(FateFrom(a, os, i).value, FateFrom(b, os, i).value)
  {
    FateFromStep(a, os, i);
    FateFromStep(b, os, i);
    hide FateFrom;
    if StepOf(b, os[i]).Key? {
      assert StepOf(b, os[i]).k in active';
    }
  }

  lemma NoneStep(active: Active, os: seq<string>, i: nat, active': Active, b: string)
    requires i < |os| && Stepped(active, os[i], active') && NoneMatches(active', os, i + 1) && b in active
    ensures FateFrom(b, os, i) == if b == os[i] then Some(Time(0, i)) else None
  {
    FateFromStep(b, os, i);
    OnlyOwnNameHits(b, os[i]);
    if b != os[i] {
      assert StepOf(b, os[i]).k in active';
    }
  }

  lemma LastStep(active: Active, os: seq<string>, i: nat, active': Active, k: string) returns (a: string)
    requires i < |os| && Stepped(active, os[i], active') && MatchesLast(active', os, i + 1, k)
    ensures MatchesLast(active, os, i, a) && active[a] == active'[k]
  {
    a :| Origin(active, os[i], a, k, active'[k]);
    FateFromStep(a, os, i);
    hide FateFrom, StepOf;
    forall b | b in active && FateFrom(b, os, i).Some?
      ensures !Earlier(FateFrom(a, os, i).value, FateFrom(b, os, i).value)
    {
      MatchesStep(active, os, i, active', a, b);
    }
    hide Stepped;
  }

  lemma AnswerStep(active: Active, os: seq<string>, i: nat, active': Active, matched: Option<string>, r: Option<string>)
    requires i < |os| && Stepped(active, os[i], active')
    requires Answer(active', os, i + 1, MatchedBy(active, os[i], matched), r)
    ensures Answer(active, os, i, matched, r)
  {
    hide FateFrom, StepOf, Stepped;
    if NoneMatches(active', os, i + 1) {
      forall b | b in active ensures FateFrom(b, os, i) == if b == os[i] then Some(Time(0, i)) else None {
        NoneStep(active, os, i, active', b);
      }
      if os[i] in active {
        assert MatchesLast(active, os, i, os[i]);
      } else {
        assert NoneMatches(active, os, i);
      }
    } else {
      var k :| MatchesLast(active', os, i + 1, k) && r == Some(active'[k]);
      var a := LastStep(active, os, i, active', k);
      assert !NoneMatches(active, os, i);
    }
  }

  lemma {:induction false} SteadyStep(a: string, os: seq<string>, i: nat)
    requires i < |os| && SteadyFrom(a, os, i) && StepOf(a, os[i]).Key?
    ensures SteadyFrom(StepOf(a, os[i]).k, os, i + 1) && Settled(StepOf(a, os[i]).k, os[i])
  {
  }

  lemma AllSteadyStep(active: Active, os: seq<string>, i: nat, active': Active)
    requires i < |os| && AllSteady(active, os, i) && Stepped(active, os[i], active')
    ensures AllSteady(active', os, i + 1)
  {
    forall k | k in active' ensures SteadyFrom(k, os, i + 1) {
      var a :| Origin(active, os[i], a, k, active'[k]);
      SteadyStep(a, os, i);
    }
  }

  /** Every answer from here on is an answer to the whole question. */
  ghost predicate Refines(active: Active, os: seq<string>, i: nat, matched: Option<string>, start: Active)
    requires i <= |os|
  {
    forall r :: Answer(active, os, i, matched, r) ==> Answer(start, os, 0, None, r)
  }

  lemma RefinesStep(active: Active, os: seq<string>, i: nat, active': Active, matched: Option<string>, start: Active)
    requires i < |os| && Stepped(active, os[i], active') && Refines(active, os, i, matched, start)
    ensures Refines(active', os, i + 1, MatchedBy(active, os[i], matched), start)
  {
    hide Answer, Stepped;
    forall r | Answer(active', os, i + 1, MatchedBy(active, os[i], matched), r) ensures Answer(start, os, 0, None, r) {
      AnswerStep(active, os, i, active', matched, r);
    }
  }

  /** A pass is over and the next one starts. */
  lemma NextPass(active: Active, os: seq<string>, matched: Option<string>, start: Active)
    requires Refines(active, os, |os|, matched, start) && AllSteady(active, os, |os|)
    ensures Refines(active, os, 0, matched, start) && AllSteady(active, os, 0)
  {
    forall k ensures FateFrom(k, os, |os|) == Later(FateFrom(k, os, 0)) {
      FateFromStart(k, os);
    }
    forall k | k in active ensures SteadyFrom(k, os, 0) {
      assert SteadyFrom(k, os, |os|);
    }
    hide FateFrom;
    forall r | Answer(active, os, 0, matched, r) ensures Answer(active, os, |os|, matched, r) {
      if k :| MatchesLast(active, os, 0, k) && r == Some(active[k]) {
        assert MatchesLast(active, os, |os|, k);
      }
      assert NoneMatches(active, os, |os|) <==> NoneMatches(active, os, 0);
    }
  }

  /** In this pass no key that is left has been touched so far. */
  ghost predicate Untouched(active: Active, os: seq<string>, i: nat)
    requires i <= |os|
  {
    forall k :: k in active ==> Rest(k, os, 0) == Rest(k, os, i)
  }

  lemma LastPass(active: Active, os: seq<string>, matched: Option<string>, start: Active)
    requires Untouched(active, os, |os|) && Refines(active, os, |os|, matched, start)
    ensures Answer(start, os, 0, None, matched)
  {
    assert NoneMatches(active, os, |os|) by {
      forall k | k in active ensures FateFrom(k, os, |os|).None? {
        assert Rest(k, os, 0) == Left(k);
      }
    }
    assert Answer(active, os, |os|, matched, matched);
  }

  // ---- The inner loop -----------------------------------------------------------------------------

  /** The keys in `todo` are still to be visited. */
  ghost predicate Visiting(snap: Active, o: string, todo: set<string>, active: Active) {
    && (forall a :: a in todo ==> a in snap && a in active)
    && (forall a :: a in snap && a !in todo && StepOf(a, o).Key? ==> StepOf(a, o).k in active)
    && (forall k :: k in active ==>
          (k in todo && active[k] == snap[k]) || (exists a :: a !in todo && Origin(snap, o, a, k, active[k])))
  }

  function Visited(active: Active, a: string, o: string): Active
    requires a in active
  {
    match StepOf(a, o)
    case Hit => active - {a}
    case Key(k) => if k == a then active else (active - {a})[k := active[a]]
  }

  lemma VisitedKeepsOwn(snap: Active, o: string, todo: set<string>, active: Active, a: string)
    requires Visiting(snap, o, todo, active) && a in todo
    requires forall b :: b in snap && StepOf(b, o).Key? ==> Settled(StepOf(b, o).k, o)
    ensures StepOf(a, o) != Key(a) ==> active[a] == snap[a]
  {
  }

  lemma VisitStep(snap: Active, o: string, todo: set<string>, active: Active, a: string)
    requires Visiting(snap, o, todo, active) && a in todo
    requires forall b :: b in snap && StepOf(b, o).Key? ==> Settled(StepOf(b, o).k, o)
    ensures Visiting(snap, o, todo - {a}, Visited(active, a, o))
  {
    VisitedKeepsOwn(snap, o, todo, active, a);
    var now := Visited(active, a, o);
    hide Settled;
    forall k | k in now
      ensures (k in todo - {a} && now[k] == snap[k]) || exists b :: b !in todo - {a} && Origin(snap, o, b, k, now[k])
    {
      if StepOf(a, o) == Key(k) && (k != a || active[a] == snap[a]) {
        assert Origin(snap, o, a, k, now[k]);
      } else {
        assert k in active && now[k] == active[k];
      }
    }
    forall b | b in todo - {a} ensures b in now {
    }
  }

  // ---- Termination ----------------------------------------------------------------------------------

  ghost function TotalLength(keys: set<string>): nat {
    if keys == {} then 0
    else
      var k :| k in keys;
      |k| + TotalLength(keys - {k})
  }

  lemma {:induction false} LengthWithout(keys: set<string>, k: string)
    requires k in keys
    ensures TotalLength(keys) == |k| + TotalLength(keys - {k})
  {
    var x :| x in keys && TotalLength(keys) == |x| + TotalLength(keys - {x});
    if x != k {
      LengthWithout(keys - {x}, k);
      LengthWithout(keys - {k}, x);
      assert keys - {x} - {k} == keys - {k} - {x};
    }
  }

  lemma VisitShrinks(active: Active, a: string, o: string)
    requires a in active
    ensures TotalLength(Visited(active, a, o).Keys) <= TotalLength(active.Keys)
    ensures StepOf(a, o).Key? && StepOf(a, o).k != a ==>
      TotalLength(Visited(active, a, o).Keys) < TotalLength(active.Keys)
  {
    var now := Visited(active, a, o);
    LengthWithout(active.Keys, a);
    match StepOf(a, o)
    case Hit =>
      assert now.Keys == active.Keys - {a};
    case Key(k) =>
      if k != a {
        assert now.Keys == active.Keys - {a} + {k};
        LengthWithout(now.Keys, k);
        if k in active.Keys - {a} {
          assert now.Keys == active.Keys - {a};
        } else {
          assert now.Keys - {k} == active.Keys - {a};
        }
      }
  }

  // ---- The loop -------------------------------------------------------------------------------------

  /** The body of the inner loop, for a key that is still there. */
  method VisitKey(active0: Active, a: string, o: string, matched0: Option<string>)
    returns (active: Active, matched: Option<string>, rewritten: bool)
    requires a in active0
    ensures active == Visited(active0, a, o)
    ensures rewritten <==> StepOf(a, o).Key? && StepOf(a, o).k != a
    ensures matched == if a == o then Some(active0[a]) else matched0
  {
    active, matched, rewritten := active0, matched0, false;
    OnlyOwnNameHits(a, o);
    if EndsWith(a, Suffix(o)) {
      EraseShorter(a, Suffix(o));
      var t := active[a];
      active := active - {a};
      active := active[Erase(a, Suffix(o)) := t];
      rewritten := true;
    } else if a == o {
      matched := Some(active[a]);
      active := active - {a};
    }
  }

  /** What holds whatever the overrides are called: keys still to be visited are present, only
      recorded variables are chosen, and rewriting shortens the keys. */
  ghost predicate Going(start: Active, o: string, todo: set<string>, active: Active,
                        matched0: Option<string>, matched: Option<string>, mod: bool)
  {
    && todo <= active.Keys
    && todo <= start.Keys
    && TotalLength(active.Keys) <= TotalLength(start.Keys)
    && (mod ==> TotalLength(active.Keys) < TotalLength(start.Keys))
    && (!mod ==> forall a :: a in start && a !in todo && StepOf(a, o).Key? ==> StepOf(a, o).k == a)
    && active.Values <= start.Values
    && (matched == matched0 || (matched.Some? && matched.value in start.Values))
  }

  lemma GoingStep(start: Active, o: string, todo: set<string>, active: Active,
                  matched0: Option<string>, matched: Option<string>, mod: bool, a: string)
    requires Going(start, o, todo, active, matched0, matched, mod) && a in todo
    ensures Going(start, o, todo - {a}, Visited(active, a, o), matched0,
                  if a == o then Some(active[a]) else matched, mod || (StepOf(a, o).Key? && StepOf(a, o).k != a))
  {
    VisitShrinks(active, a, o);
    var now := Visited(active, a, o);
    assert active[a] in active.Values;
    hide TotalLength;
    forall v | v in now.Values ensures v in active.Values {
      var k :| k in now && now[k] == v;
      if k in active && active[k] == v {
      } else {
        assert v == active[a];
      }
    }
  }

  ghost predicate AllSettle(start: Active, o: string) {
    forall b :: b in start && StepOf(b, o).Key? ==> Settled(StepOf(b, o).k, o)
  }

  /** `for a in active.copy()`: one override against every key, in any order. */
  method ApplyOverride(active0: Active, o: string, matched0: Option<string>)
    returns (active: Active, matched: Option<string>, mod: bool)
    ensures Going(active0, o, {}, active, matched0, matched, mod)
    ensures AllSettle(active0, o) ==> Stepped(active0, o, active) && matched == MatchedBy(active0, o, matched0)
  {
    active, matched, mod := active0, matched0, false;
    var todo := active0.Keys;
    ghost var steady := AllSettle(active0, o);
    StartVisiting(active0, o);
    while todo != {}
      invariant Going(active0, o, todo, active, matched0, matched, mod)
      invariant steady ==> Visiting(active0, o, todo, active)
      invariant steady ==> matched == if o in active0 && o !in todo then Some(active0[o]) else matched0
    {
      var a :| a in todo;
      assert a in active by { hide Visiting; }
      if steady {
        VisitedKeepsOwn(active0, o, todo, active, a);
        VisitStep(active0, o, todo, active, a);
        OnlyOwnNameHits(a, o);
      }
      GoingStep(active0, o, todo, active, matched0, matched, mod, a);
      hide Going, Visiting, AllSettle, Visited, StepOf;
      var rewritten;
      active, matched, rewritten := VisitKey(active, a, o, matched);
      if rewritten {
        mod := true;
      }
      todo := todo - {a};
    }
    hide Going;
  }

  lemma StartVisiting(start: Active, o: string)
    ensures Visiting(start, o, start.Keys, start)
  {
  }

  lemma SteadySettles(active: Active, os: seq<string>, i: nat)
    requires i < |os| && AllSteady(active, os, i)
    ensures AllSettle(active, os[i])
  {
    forall b | b in active && StepOf(b, os[i]).Key? ensures Settled(StepOf(b, os[i]).k, os[i]) {
      SteadyStep(b, os, i);
    }
  }

  lemma UntouchedStep(active: Active, os: seq<string>, i: nat, active': Active)
    requires i < |os| && Untouched(active, os, i) && Stepped(active, os[i], active')
    requires forall a :: a in active && StepOf(a, os[i]).Key? ==> StepOf(a, os[i]).k == a
    ensures Untouched(active', os, i + 1)
  {
    forall k | k in active' ensures Rest(k, os, 0) == Rest(k, os, i + 1) {
      var a :| Origin(active, os[i], a, k, active'[k]);
    }
  }

  /** One pass over the overrides. */
  method Pass(active0: Active, os: seq<string>, matched0: Option<string>, ghost start: Active)
    returns (active: Active, matched: Option<string>, mod: bool)
    requires AllSteady(start, os, 0) ==> AllSteady(active0, os, 0) && Refines(active0, os, 0, matched0, start)
    ensures TotalLength(active.Keys) <= TotalLength(active0.Keys)
    ensures mod ==> TotalLength(active.Keys) < TotalLength(active0.Keys)
    ensures active.Values <= active0.Values
    ensures matched == matched0 || (matched.Some? && matched.value in active0.Values)
    ensures AllSteady(start, os, 0) && mod ==> AllSteady(active, os, 0) && Refines(active, os, 0, matched, start)
    ensures AllSteady(start, os, 0) && !mod ==> Answer(start, os, 0, None, matched)
  {
    active, matched, mod := active0, matched0, false;
    ghost var steady := AllSteady(start, os, 0);
    assert Untouched(active, os, 0);
    var i := 0;
    while i < |os|
      invariant i <= |os|
      invariant TotalLength(active.Keys) <= TotalLength(active0.Keys)
      invariant mod ==> TotalLength(active.Keys) < TotalLength(active0.Keys)
      invariant active.Values <= active0.Values
      invariant matched == matched0 || (matched.Some? && matched.value in active0.Values)
      invariant steady ==> AllSteady(active, os, i) && Refines(active, os, i, matched, start)
      invariant steady && !mod ==> Untouched(active, os, i)
    {
      hide Untouched, AllSteady, Refines, Stepped, AllSettle, StepOf, TotalLength;
      var changed;
      ghost var was, before := active, matched;
      if steady {
        SteadySettles(active, os, i);
      }
      active, matched, changed := ApplyOverride(active, os[i], matched);
      if steady {
        AllSteadyStep(was, os, i, active);
        RefinesStep(was, os, i, active, before, start);
        if !mod && !changed {
          UntouchedStep(was, os, i, active);
        }
      }
      mod := mod || changed;
      i := i + 1;
    }
    if steady {
      if mod {
        NextPass(active, os, matched, start);
      } else {
        LastPass(active, os, matched, start);
      }
    }
  }

  /** The whole loop.  It always ends and chooses only recorded variables.  For keys in which stripping
      an override leaves nothing more for it to do, the variable chosen is that of a key that is
      matched last, and None exactly if no key is ever matched. */
  method ChooseOverride(start: Active, os: seq<string>) returns (matched: Option<string>)
    ensures matched.Some? ==> matched.value in start.Values
    ensures AllSteady(start, os, 0) ==> Answer(start, os, 0, None, matched)
  {
    matched := None;
    var active, mod := start, true;
    while mod
      invariant active.Values <= start.Values
      invariant matched.Some? ==> matched.value in start.Values
      invariant AllSteady(start, os, 0) && mod ==> AllSteady(active, os, 0) && Refines(active, os, 0, matched, start)
      invariant AllSteady(start, os, 0) && !mod ==> Answer(start, os, 0, None, matched)
      decreases TotalLength(active.Keys), mod
    {
      hide AllSteady, Refines, Answer, TotalLength;
      active, matched, mod := Pass(active, os, matched, start);
    }
  }

  // ---- Which variables take part -----------------------------------------------------------------

  /** `o.split("_")`. */
  function Parts(o: string): (r: seq<string>)
    ensures |r| > 0
  {
    if o == "" then [""]
    else
      var rest := Parts(o[1..]);
      if o[0] == '_' then [""] + rest else [[o[0]] + rest[0]] + rest[1..]
  }

  predicate Applies(o: string, overridesset: set<string>) {
    o in overridesset || ('_' in o && forall p :: p in Parts(o) ==> p in overridesset)
  }

  /** The variable recorded last for the override name `o`. */
  function RecordedFor(entries: seq<(string, string)>, o: string): Option<string> {
    if entries == [] then None
    else if entries[|entries| - 1].1 == o then Some(entries[|entries| - 1].0)
    else RecordedFor(entries[..|entries| - 1], o)
  }

  method CollectActive(entries: seq<(string, string)>, overridesset: set<string>) returns (active: Active)
    ensures forall o :: (if o in active then Some(active[o]) else None) ==
                        if Applies(o, overridesset) then RecordedFor(entries, o) else None
  {
    active := map[];
    var i := 0;
    while i < |entries|
      invariant i <= |entries|
      invariant forall o :: (if o in active then Some(active[o]) else None) ==
                            if Applies(o, overridesset) then RecordedFor(entries[..i], o) else None
    {
      var (r, o) := entries[i];
      assert entries[..i + 1][..i] == entries[..i];
      if o in overridesset {
        active := active[o := r];
      } else if '_' in o {
        if forall p :: p in Parts(o) ==> p in overridesset {
          active := active[o := r];
        }
      }
      i := i + 1;
    }
    assert entries[..i] == entries;
  }

  // ---- Simple override names: the rightmost wins -------------------------------------------------

  /** No recorded override name ends in another one: there is nothing to rewrite. */
  predicate NothingToStrip(active: Active, os: seq<string>) {
    forall k, o :: k in active && o in os ==> !EndsWith(k, Suffix(o))
  }

  /** The override that occurs furthest to the right, by its first occurrence, among those for which a
      variable is recorded. */
  predicate Rightmost(active: Active, os: seq<string>, j: nat) {
    j < |os| && os[j] in active && os[j] !in os[..j] &&
    forall i :: j < i < |os| && os[i] in active ==> os[i] in os[..i]
  }

  lemma {:induction false} PlainRest(k: string, os: seq<string>, i: nat)
    requires i <= |os| && forall o :: o in os ==> !EndsWith(k, Suffix(o))
    ensures SteadyRest(k, os, i)
    ensures match Rest(k, os, i)
            case HitAt(j) => os[j] == k && k !in os[i..j]
            case Left(k') => k' == k && k !in os[i..]
    decreases |os| - i
  {
    if i < |os| {
      PlainRest(k, os, i + 1);
      assert os[i..] == [os[i]] + os[i + 1..];
      match Rest(k, os, i + 1)
      case HitAt(j) =>
        if os[i] != k {
          assert os[i..j] == [os[i]] + os[i + 1..j];
        }
      case Left(k') =>
    }
  }

  lemma PlainFate(k: string, os: seq<string>)
    requires forall o :: o in os ==> !EndsWith(k, Suffix(o))
    ensures SteadyFrom(k, os, 0)
    ensures match FateFrom(k, os, 0)
            case Some(t) => t.pass == 0 && t.index < |os| && os[t.index] == k && k !in os[..t.index]
            case None => k !in os
  {
    PlainRest(k, os, 0);
    FateFromStart(k, os);
    assert os[0..] == os;
  }

  lemma SameFirst(os: seq<string>, i: nat, j: nat)
    requires i < |os| && j < |os| && os[i] == os[j] && os[i] !in os[..i] && os[j] !in os[..j]
    ensures i == j
  {
  }

  /** Each key is matched in the first pass, at its first occurrence, or never. */
  ghost predicate FirstPassOnly(active: Active, os: seq<string>) {
    forall k :: k in active ==>
      match FateFrom(k, os, 0)
      case Some(t) => t.pass == 0 && t.index < |os| && os[t.index] == k && k !in os[..t.index]
      case None => k !in os
  }

  lemma LastIsRightmost(active: Active, os: seq<string>, k: string) returns (j: nat)
    requires FirstPassOnly(active, os) && MatchesLast(active, os, 0, k)
    ensures Rightmost(active, os, j) && os[j] == k
  {
    hide FateFrom;
    j := FateFrom(k, os, 0).value.index;
    forall i | j < i < |os| && os[i] in active ensures os[i] in os[..i] {
      if os[i] !in os[..i] {
        SameFirst(os, i, FateFrom(os[i], os, 0).value.index);
      }
    }
  }

  lemma RightmostIsLast(active: Active, os: seq<string>, j: nat)
    requires FirstPassOnly(active, os) && Rightmost(active, os, j)
    ensures MatchesLast(active, os, 0, os[j])
  {
    hide FateFrom;
    var k := os[j];
    SameFirst(os, j, FateFrom(k, os, 0).value.index);
    forall k' | k' in active && FateFrom(k', os, 0).Some? ensures FateFrom(k', os, 0).value.index <= j {
      var i := FateFrom(k', os, 0).value.index;
      var again := os[i] in os[..i];
    }
  }

  /** With nothing to strip, exactly the rightmost override with a recorded variable is chosen. */
  lemma RightmostChosen(active: Active, os: seq<string>, r: Option<string>)
    requires NothingToStrip(active, os)
    ensures AllSteady(active, os, 0)
    ensures Answer(active, os, 0, None, r) <==>
            match r
            case None => forall o :: o in os ==> o !in active
            case Some(v) => exists j: nat :: Rightmost(active, os, j) && v == active[os[j]]
  {
    forall k | k in active
      ensures SteadyFrom(k, os, 0)
      ensures match FateFrom(k, os, 0)
              case Some(t) => t.pass == 0 && t.index < |os| && os[t.index] == k && k !in os[..t.index]
              case None => k !in os
    {
      PlainFate(k, os);
    }
    assert FirstPassOnly(active, os);
    hide FateFrom, SteadyFrom, EndsWith, Rightmost;
    if !NoneMatches(active, os, 0) {
      if k :| MatchesLast(active, os, 0, k) && r == Some(active[k]) {
        var j := LastIsRightmost(active, os, k);
      }
      if j: nat :| Rightmost(active, os, j) && r == Some(active[os[j]]) {
        RightmostIsLast(active, os, j);
      }
      var k :| k in active && FateFrom(k, os, 0).Some?;
      assert k in os;
    } else {
      forall o | o in os ensures o !in active {
      }
    }
    hide FirstPassOnly;
  }

  // ---- From the recorded variables to the choice ---------------------------------------------------

  function OverridesSet(os: seq<string>): set<string> {
    set o | o in os
  }

  lemma {:induction false} RecordedHas(entries: seq<(string, string)>, o: string)
    ensures RecordedFor(entries, o).Some? <==> o in set e | e in entries :: e.1
  {
    if entries != [] {
      var n := |entries| - 1;
      RecordedHas(entries[..n], o);
      assert entries == entries[..n] + [entries[n]];
    }
  }

  /** The variables that take part: for each applicable override name the one recorded last. */
  ghost function Recorded(entries: seq<(string, string)>, os: seq<string>): Active {
    map o | o in (set e | e in entries :: e.1) && Applies(o, OverridesSet(os)) && RecordedFor(entries, o).Some?
      :: RecordedFor(entries, o).value
  }

  lemma RecordedLooksUp(entries: seq<(string, string)>, os: seq<string>, o: string)
    ensures (if o in Recorded(entries, os) then Some(Recorded(entries, os)[o]) else None) ==
            if Applies(o, OverridesSet(os)) then RecordedFor(entries, o) else None
  {
    RecordedHas(entries, o);
  }

  /** The override that occurs furthest to the right among those with a recorded variable. */
  predicate RightmostRecorded(entries: seq<(string, string)>, os: seq<string>, j: nat) {
    j < |os| && RecordedFor(entries, os[j]).Some? && os[j] !in os[..j] &&
    forall i :: j < i < |os| && RecordedFor(entries, os[i]).Some? ==> os[i] in os[..i]
  }

  lemma RightmostOfRecorded(entries: seq<(string, string)>, os: seq<string>, j: nat)
    ensures Rightmost(Recorded(entries, os), os, j) <==> RightmostRecorded(entries, os, j)
    ensures Rightmost(Recorded(entries, os), os, j) ==>
      Some(Recorded(entries, os)[os[j]]) == RecordedFor(entries, os[j])
  {
    forall i: nat | i < |os|
      ensures (if os[i] in Recorded(entries, os) then Some(Recorded(entries, os)[os[i]]) else None) ==
              RecordedFor(entries, os[i])
    {
      RecordedLooksUp(entries, os, os[i]);
    }
    hide Recorded, RecordedFor;
  }

  /** From the variables recorded for a name and OVERRIDES to the variable used instead of it: always one
      that is recorded last for an applicable override name; the one the loop's answer is defined to
      be; with nothing to strip, the one recorded for the rightmost override; and in terms of positions, one
      recorded for a name with most ascents that begins furthest right. */
  method FindOverride(entries: seq<(string, string)>, os: seq<string>) returns (matched: Option<string>)
    ensures matched.Some? ==> exists o :: Applies(o, OverridesSet(os)) && RecordedFor(entries, o) == matched
    ensures AllSteady(Recorded(entries, os), os, 0) ==> Answer(Recorded(entries, os), os, 0, None, matched)
    ensures NothingToStrip(Recorded(entries, os), os) ==>
      if matched == None then forall o :: o in os ==> RecordedFor(entries, o) == None
      else exists j: nat :: RightmostRecorded(entries, os, j) && RecordedFor(entries, os[j]) == matched
    ensures Orderly(entries, os) ==> BestPlaced(entries, os, matched)
  {
    var active := CollectActive(entries, OverridesSet(os));
    forall o ensures (if o in active then Some(active[o]) else None) ==
                     (if o in Recorded(entries, os) then Some(Recorded(entries, os)[o]) else None)
    {
      RecordedLooksUp(entries, os, o);
    }
    assert active == Recorded(entries, os) by {
      hide Recorded, RecordedFor, Applies;
      assert forall o :: o in active <==> o in Recorded(entries, os);
    }
    matched := ChooseOverride(active, os);
    FindMeans(entries, os, matched);
    FoundByPlaces(entries, os, matched);
  }

  lemma FindMeans(entries: seq<(string, string)>, os: seq<string>, matched: Option<string>)
    requires matched.Some? ==> matched.value in Recorded(entries, os).Values
    requires AllSteady(Recorded(entries, os), os, 0) ==> Answer(Recorded(entries, os), os, 0, None, matched)
    ensures matched.Some? ==> exists o :: Applies(o, OverridesSet(os)) && RecordedFor(entries, o) == matched
    ensures NothingToStrip(Recorded(entries, os), os) ==>
      if matched == None then forall o :: o in os ==> RecordedFor(entries, o) == None
      else exists j: nat :: RightmostRecorded(entries, os, j) && RecordedFor(entries, os[j]) == matched
  {
    hide AllSteady, Answer, NothingToStrip, Recorded, RecordedFor, RightmostRecorded;
    if matched.Some? {
      var o :| o in Recorded(entries, os) && Recorded(entries, os)[o] == matched.value;
      RecordedLooksUp(entries, os, o);
    }
    if NothingToStrip(Recorded(entries, os), os) {
      RightmostChosen(Recorded(entries, os), os, matched);
      if matched == None {
        forall o | o in os ensures RecordedFor(entries, o) == None {
          RecordedLooksUp(entries, os, o);
        }
      } else {
        var j: nat :| Rightmost(Recorded(entries, os), os, j) && matched.value == Recorded(entries, os)[os[j]];
        RightmostOfRecorded(entries, os, j);
      }
    }
  }

  // ---- Names made of several overrides -------------------------------------------------------------

  predicate Simple(o: string) {
    '_' !in o
  }

  predicate AllSimple(os: seq<string>) {
    forall o :: o in os ==> Simple(o)
  }

  predicate DistinctOverrides(os: seq<string>) {
    forall m, n :: 0 <= m < n < |os| ==> os[m] != os[n]
  }

  predicate Within(os: seq<string>, ps: seq<nat>) {
    forall i :: 0 <= i < |ps| ==> ps[i] < |os|
  }

  /** The name made of the overrides at the given positions, joined by underscores. */
  function NameAt(os: seq<string>, ps: seq<nat>): string
    requires |ps| > 0 && Within(os, ps)
  {
    var n := |ps| - 1;
    if n == 0 then os[ps[0]] else NameAt(os, ps[..n]) + Suffix(os[ps[n]])
  }

  /** The positions are different ones, and no override after the first begins with a later one, which
      stripping the later one would otherwise damage. */
  predicate Placed(os: seq<string>, ps: seq<nat>) {
    && |ps| > 0
    && Within(os, ps)
    && (forall i, j :: 0 <= i < j < |ps| ==> ps[i] != ps[j])
    && forall i, j :: 1 <= i < j < |ps| ==> !(os[ps[j]] <= os[ps[i]])
  }

  lemma PlacedFront(os: seq<string>, ps: seq<nat>)
    requires Placed(os, ps) && |ps| > 1
    ensures Placed(os, ps[..|ps| - 1])
  {
  }

  /** The string `s` stands in `k` at position `p`. */
  predicate StandsAt(k: string, p: nat, s: string) {
    p + |s| <= |k| && k[p..p + |s|] == s
  }

  lemma StandsNext(k: string, p: nat, s: string)
    requires k != ""
    ensures StandsAt(k[1..], p, s) <==> StandsAt(k, p + 1, s)
  {
    if p + 1 + |s| <= |k| {
      assert k[1..][p..p + |s|] == k[p + 1..p + 1 + |s|];
    }
  }

  lemma {:induction false} EraseTail(a: string, s: string)
    requires s != "" && forall p: nat :: p < |a| ==> !StandsAt(a + s, p, s)
    ensures Erase(a + s, s) == a
  {
    if a == "" {
      assert a + s == s && s[..|s|] == s && s[|s|..] == "";
    } else {
      assert (a + s)[1..] == a[1..] + s;
      assert !StandsAt(a + s, 0, s);
      forall p: nat | p < |a[1..]| ensures !StandsAt(a[1..] + s, p, s) {
        StandsNext(a + s, p, s);
      }
      EraseTail(a[1..], s);
    }
  }

  /** Stripping `b` finds nothing at an underscore that another override follows. */
  lemma NotAtUnderscore(before: string, c: string, t: string, b: string, p: nat)
    requires Simple(c) && Simple(b) && !(b <= c) && t != "" && t[0] == '_'
    requires |before| <= p < |before| + 1 + |c|
    ensures !StandsAt(before + ("_" + c) + t, p, Suffix(b))
  {
    var k, s := before + ("_" + c) + t, Suffix(b);
    if p + |s| <= |k| {
      assert k[p..p + |s|][0] == k[p];
      if p == |before| {
        assert k[p..][1..] == c + t;
        assert k[p..p + |s|][1..] == (c + t)[..|b|];
        assert s[1..] == b;
        if |b| <= |c| {
          assert (c + t)[..|b|] == c[..|b|];
        } else {
          assert (c + t)[..|b|][|c|] == '_';
        }
      } else {
        assert k[p] == c[p - |before| - 1];
      }
    }
  }

  lemma {:induction false} NothingToStripIn(os: seq<string>, ps: seq<nat>, t: string, b: string, p: nat)
    requires AllSimple(os) && |ps| > 0 && Within(os, ps)
    requires Simple(b) && t != "" && t[0] == '_' && p < |NameAt(os, ps)|
    requires forall i :: 1 <= i < |ps| ==> !(b <= os[ps[i]])
    ensures !StandsAt(NameAt(os, ps) + t, p, Suffix(b))
  {
    var n := |ps| - 1;
    if n == 0 {
      var k := os[ps[0]] + t;
      assert os[ps[0]] in os && k[p] != '_';
      if p + |Suffix(b)| <= |k| {
        assert k[p..p + |Suffix(b)|][0] == k[p];
      }
    } else {
      var front, c := ps[..n], os[ps[n]];
      var before := NameAt(os, front);
      assert c in os && Suffix(c) == "_" + c;
      if p < |before| {
        forall i | 1 <= i < |front| ensures !(b <= os[front[i]]) {
          assert front[i] == ps[i];
        }
        NothingToStripIn(os, front, Suffix(c) + t, b, p);
        assert before + (Suffix(c) + t) == before + Suffix(c) + t;
      } else {
        NotAtUnderscore(before, c, t, b, p);
      }
    }
  }

  /** Stripping the last override of a name leaves the name of the others. */
  lemma StripLast(os: seq<string>, ps: seq<nat>)
    requires AllSimple(os) && Placed(os, ps) && |ps| > 1
    ensures var n := |ps| - 1; Erase(NameAt(os, ps), Suffix(os[ps[n]])) == NameAt(os, ps[..n])
  {
    var n := |ps| - 1;
    var front, b := ps[..n], os[ps[n]];
    assert b in os;
    forall p: nat | p < |NameAt(os, front)| ensures !StandsAt(NameAt(os, front) + Suffix(b), p, Suffix(b)) {
      forall i | 1 <= i < |front| ensures !(b <= os[front[i]]) {
        assert front[i] == ps[i];
      }
      NothingToStripIn(os, front, Suffix(b), b, p);
    }
    EraseTail(NameAt(os, front), Suffix(b));
  }

  lemma UnderscoreInside(k: string, at: nat, i: nat, o: string)
    requires at <= |k| && i < |k| && k[at..] == Suffix(o)
    ensures at < i ==> k[i] in o
  {
    if at < i {
      assert k[i] == k[at..][i - at] == o[i - at - 1];
    }
  }

  lemma EndsOnlyInLast(a: string, b: string, o: string)
    requires Simple(b) && Simple(o)
    ensures EndsWith(a + Suffix(b), Suffix(o)) <==> o == b
  {
    var k, s := a + Suffix(b), Suffix(o);
    if EndsWith(k, s) {
      var at := |k| - |s|;
      assert k[at..][0] == '_' == k[at];
      assert k[|a|] == '_';
      assert forall i :: |a| < i < |k| ==> k[i] == b[i - |a| - 1] != '_';
      UnderscoreInside(k, at, |a|, o);
      assert k[|a|..] == Suffix(b);
      assert Suffix(o)[1..] == Suffix(b)[1..];
    }
    if o == b {
      assert k[|a|..] == s;
    }
  }

  lemma SimpleHasNoEnd(a: string, o: string)
    requires Simple(a)
    ensures !EndsWith(a, Suffix(o))
  {
    if |a| >= |Suffix(o)| {
      assert a[|a| - |Suffix(o)|..][0] == a[|a| - |Suffix(o)|];
    }
  }

  /** What one override does to a name. */
  lemma NameStep(os: seq<string>, ps: seq<nat>, o: string)
    requires AllSimple(os) && Placed(os, ps) && Simple(o)
    ensures var n := |ps| - 1;
            StepOf(NameAt(os, ps), o) ==
              if o != os[ps[n]] then Key(NameAt(os, ps)) else if n == 0 then Hit else Key(NameAt(os, ps[..n]))
  {
    var n := |ps| - 1;
    var b := os[ps[n]];
    assert b in os;
    if n == 0 {
      SimpleHasNoEnd(b, o);
    } else {
      var before := NameAt(os, ps[..n]);
      EndsOnlyInLast(before, b, o);
      assert (before + Suffix(b))[|before|] == '_';
      if o == b {
        StripLast(os, ps);
      }
    }
  }

  lemma {:induction false} IdleRest(k: string, os: seq<string>, i: nat)
    requires i <= |os| && forall o :: o in os[i..] ==> StepOf(k, o) == Key(k)
    ensures Rest(k, os, i) == Left(k) && SteadyRest(k, os, i)
    decreases |os| - i
  {
    if i < |os| {
      assert os[i..] == [os[i]] + os[i + 1..];
      assert os[i] in os[i..];
      IdleRest(k, os, i + 1);
    }
  }

  /** A pass leaves a name alone up to its last override. */
  lemma {:induction false} ReachLast(k: string, os: seq<string>, i: nat, j: nat)
    requires i <= j < |os| && forall o :: o in os[i..j] ==> StepOf(k, o) == Key(k)
    ensures Rest(k, os, i) == Rest(k, os, j)
    ensures SteadyRest(k, os, j) ==> SteadyRest(k, os, i)
    decreases j - i
  {
    if i < j {
      assert os[i..j] == [os[i]] + os[i + 1..j];
      assert os[i] in os[i..j];
      ReachLast(k, os, i + 1, j);
    }
  }

  lemma SteadyStart(a: string, os: seq<string>)
    requires SteadyFrom(a, os, 0)
    ensures Steady(a, os)
  {
  }

  /** How often a position stands left of the next one. */
  function Ascents(ps: seq<nat>): nat {
    if |ps| <= 1 then 0 else Ascents(ps[..|ps| - 1]) + (if ps[|ps| - 2] < ps[|ps| - 1] then 1 else 0)
  }

  /** The positions are in falling order. */
  predicate Reversed(ps: seq<nat>) {
    forall i :: 0 <= i < |ps| - 1 ==> ps[i] > ps[i + 1]
  }

  lemma {:induction false} NoAscents(ps: seq<nat>)
    requires forall i, j :: 0 <= i < j < |ps| ==> ps[i] != ps[j]
    ensures Ascents(ps) == 0 <==> Reversed(ps)
  {
    if |ps| > 1 {
      NoAscents(ps[..|ps| - 1]);
    }
  }

  /** The overrides that a name does not end in leave it alone. */
  lemma AloneUntil(os: seq<string>, ps: seq<nat>, i: nat, j: nat)
    requires AllSimple(os) && DistinctOverrides(os) && Placed(os, ps) && i <= j <= |os|
    requires !(i <= ps[|ps| - 1] < j)
    ensures forall o :: o in os[i..j] ==> StepOf(NameAt(os, ps), o) == Key(NameAt(os, ps))
  {
    forall o | o in os[i..j] ensures StepOf(NameAt(os, ps), o) == Key(NameAt(os, ps)) {
      var m :| i <= m < j && os[m] == o;
      assert os[m] in os;
      NameStep(os, ps, o);
    }
  }

  /** A pass that still meets the last override of a name goes on with the name of the others. */
  lemma FateAtLast(os: seq<string>, ps: seq<nat>, i: nat)
    requires AllSimple(os) && DistinctOverrides(os) && Placed(os, ps) && i <= ps[|ps| - 1]
    ensures var n, j := |ps| - 1, ps[|ps| - 1];
            Rest(NameAt(os, ps), os, i) ==
              if n == 0 then HitAt(j) else Rest(NameAt(os, ps[..n]), os, j + 1)
    ensures |ps| > 1 && SteadyRest(NameAt(os, ps[..|ps| - 1]), os, ps[|ps| - 1] + 1) ==>
              SteadyRest(NameAt(os, ps), os, i)
    ensures |ps| == 1 ==> SteadyRest(NameAt(os, ps), os, i)
  {
    var k, n := NameAt(os, ps), |ps| - 1;
    var j := ps[n];
    assert os[j] in os;
    AloneUntil(os, ps, i, j);
    ReachLast(k, os, i, j);
    NameStep(os, ps, os[j]);
    if n > 0 {
      PlacedFront(os, ps);
      NameStep(os, ps[..n], os[j]);
    }
  }

  /** A key left alone for the rest of a pass waits for the next one. */
  lemma IdleFate(k: string, os: seq<string>, i: nat)
    requires i <= |os| && forall o :: o in os[i..] ==> StepOf(k, o) == Key(k)
    ensures FateFrom(k, os, i) == Later(FateFrom(k, os, 0))
    ensures SteadyFrom(k, os, 0) ==> SteadyFrom(k, os, i)
  {
    IdleRest(k, os, i);
    FateFromStart(k, os);
    if SteadyFrom(k, os, 0) {
      SteadyStart(k, os);
    }
  }

  lemma SameRest(a: string, i: nat, b: string, j: nat, os: seq<string>)
    requires i <= |os| && j <= |os| && Rest(a, os, i) == Rest(b, os, j)
    ensures FateFrom(a, os, i) == FateFrom(b, os, j)
    ensures SteadyRest(a, os, i) && SteadyFrom(b, os, j) ==> SteadyFrom(a, os, i)
  {
  }

  lemma SteadyFromRest(a: string, os: seq<string>, i: nat)
    requires i <= |os|
    ensures SteadyFrom(a, os, i) ==> SteadyRest(a, os, i)
    ensures SteadyRest(a, os, i) && Rest(a, os, i).HitAt? ==>
      SteadyFrom(a, os, i) && FateFrom(a, os, i) == Some(Time(0, Rest(a, os, i).index))
  {
  }

  /** When a name is matched: where its first override stands, in the pass that is counted by the
      ascents of its positions, because an override further left has to wait for the next pass. */
  lemma {:induction false} NameFate(os: seq<string>, ps: seq<nat>, i: nat)
    requires AllSimple(os) && DistinctOverrides(os) && Placed(os, ps) && i <= |os|
    ensures FateFrom(NameAt(os, ps), os, i) ==
            Some(Time((if ps[|ps| - 1] >= i then 0 else 1) + Ascents(ps), ps[0]))
    ensures SteadyFrom(NameAt(os, ps), os, i)
    decreases |ps|, i
  {
    hide AllSimple, DistinctOverrides, FateFrom, SteadyFrom, SteadyRest, Rest, StepOf, NameAt;
    var k, n := NameAt(os, ps), |ps| - 1;
    if ps[n] >= i {
      FateAtLast(os, ps, i);
      if n > 0 {
        PlacedFront(os, ps);
        NameFate(os, ps[..n], ps[n] + 1);
        SameRest(k, i, NameAt(os, ps[..n]), ps[n] + 1, os);
        SteadyFromRest(NameAt(os, ps[..n]), os, ps[n] + 1);
      } else {
        SteadyFromRest(k, os, i);
      }
    } else {
      AloneUntil(os, ps, i, |os|);
      assert os[i..|os|] == os[i..];
      NameFate(os, ps, 0);
      IdleFate(k, os, i);
    }
  }

  /** The keys are the names made at the given positions. */
  ghost predicate Named(active: Active, os: seq<string>, places: map<string, seq<nat>>) {
    forall k :: k in active ==> k in places && Placed(os, places[k]) && k == NameAt(os, places[k])
  }

  /** More ascents make later; with as many, a first override further right does. */
  predicate Sooner(ps: seq<nat>, qs: seq<nat>)
    requires |ps| > 0 && |qs| > 0
  {
    Earlier(Time(Ascents(ps), ps[0]), Time(Ascents(qs), qs[0]))
  }

  ghost predicate SoonerThanNone(active: Active, os: seq<string>, places: map<string, seq<nat>>, k: string)
    requires Named(active, os, places) && k in active
  {
    forall k' :: k' in active ==> !Sooner(places[k], places[k'])
  }

  lemma NamedFate(active: Active, os: seq<string>, places: map<string, seq<nat>>, k: string)
    requires AllSimple(os) && DistinctOverrides(os) && Named(active, os, places) && k in active
    ensures FateFrom(k, os, 0) == Some(Time(Ascents(places[k]), places[k][0])) && SteadyFrom(k, os, 0)
  {
    NameFate(os, places[k], 0);
  }

  /** The choice in terms of OVERRIDES alone: the variable of a name whose positions have most ascents,
      and among these one whose first override stands furthest right. */
  lemma ChosenByPlaces(active: Active, os: seq<string>, places: map<string, seq<nat>>, r: Option<string>)
    requires AllSimple(os) && DistinctOverrides(os) && Named(active, os, places)
    ensures AllSteady(active, os, 0)
    ensures Answer(active, os, 0, None, r) <==>
            if active == map[] then r == None
            else exists k :: k in active && r == Some(active[k]) && SoonerThanNone(active, os, places, k)
  {
    forall k | k in active
      ensures FateFrom(k, os, 0) == Some(Time(Ascents(places[k]), places[k][0])) && SteadyFrom(k, os, 0)
    {
      NamedFate(active, os, places, k);
    }
    hide FateFrom, SteadyFrom, Placed, NameAt, AllSimple, DistinctOverrides;
    forall k | k in active ensures MatchesLast(active, os, 0, k) <==> SoonerThanNone(active, os, places, k) {
    }
    if active != map[] {
      var k :| k in active;
      assert FateFrom(k, os, 0).Some?;
    }
  }

  // ---- Which names apply ---------------------------------------------------------------------------

  /** `"_".join(parts)`. */
  function Joined(parts: seq<string>): string
    requires |parts| > 0
  {
    if |parts| == 1 then parts[0] else parts[0] + "_" + Joined(parts[1..])
  }

  /** Splitting a name yields parts without underscores that joined together are the name. */
  lemma {:induction false} PartsJoin(o: string)
    ensures Joined(Parts(o)) == o && AllSimple(Parts(o))
  {
    if o != "" {
      var rest := Parts(o[1..]);
      PartsJoin(o[1..]);
      assert o == [o[0]] + o[1..];
      if o[0] == '_' {
        assert Parts(o)[1..] == rest;
      } else {
        assert Parts(o)[1..] == rest[1..];
        forall p | p in Parts(o) ensures Simple(p) {
          assert rest[0] in rest;
        }
      }
    }
  }

  /** One more part at the end is one more part. */
  lemma {:induction false} PartsAppend(a: string, b: string)
    requires Simple(b)
    ensures Parts(a + Suffix(b)) == Parts(a) + [b]
  {
    var o := a + Suffix(b);
    if a == "" {
      assert o[0] == '_' && o[1..] == b;
      PartsOfSimple(b);
    } else {
      assert o[0] == a[0] && o[1..] == a[1..] + Suffix(b);
      PartsAppend(a[1..], b);
      var rest := Parts(a[1..]);
      assert (rest + [b])[0] == rest[0] && (rest + [b])[1..] == rest[1..] + [b];
    }
  }

  lemma {:induction false} PartsOfSimple(b: string)
    requires Simple(b)
    ensures Parts(b) == [b]
  {
    if b != "" {
      assert b[0] in b;
      PartsOfSimple(b[1..]);
      assert [b[0]] + b[1..] == b;
    }
  }

  function NamesAt(os: seq<string>, ps: seq<nat>): (r: seq<string>)
    requires Within(os, ps)
    ensures |r| == |ps| && forall i :: 0 <= i < |ps| ==> r[i] == os[ps[i]]
  {
    if ps == [] then [] else NamesAt(os, ps[..|ps| - 1]) + [os[ps[|ps| - 1]]]
  }

  /** A name made of overrides splits into them. */
  lemma {:induction false} PartsOfName(os: seq<string>, ps: seq<nat>)
    requires AllSimple(os) && Within(os, ps) && |ps| > 0
    ensures Parts(NameAt(os, ps)) == NamesAt(os, ps)
  {
    var n := |ps| - 1;
    assert os[ps[n]] in os;
    if n == 0 {
      PartsOfSimple(os[ps[0]]);
      assert ps[..0] == [];
    } else {
      PartsOfName(os, ps[..n]);
      PartsAppend(NameAt(os, ps[..n]), os[ps[n]]);
    }
  }

  /** So different positions make different names. */
  lemma SamePlaces(os: seq<string>, ps: seq<nat>, qs: seq<nat>)
    requires AllSimple(os) && DistinctOverrides(os) && Within(os, ps) && Within(os, qs) && |ps| > 0 && |qs| > 0
    requires NameAt(os, ps) == NameAt(os, qs)
    ensures ps == qs
  {
    PartsOfName(os, ps);
    PartsOfName(os, qs);
    forall i | 0 <= i < |ps| ensures ps[i] == qs[i] {
      assert NamesAt(os, ps)[i] == os[ps[i]] && NamesAt(os, qs)[i] == os[qs[i]];
    }
  }

  /** The name is made of overrides, which stand at these positions. */
  predicate Spells(os: seq<string>, ps: seq<nat>, o: string) {
    |ps| > 0 && Within(os, ps) && NameAt(os, ps) == o
  }

  lemma {:induction false} JoinedLast(parts: seq<string>)
    requires |parts| > 1
    ensures Joined(parts) == Joined(parts[..|parts| - 1]) + Suffix(parts[|parts| - 1])
  {
    var n := |parts| - 1;
    if n == 1 {
      assert parts[1..] == [parts[1]] && parts[..1] == [parts[0]];
    } else {
      JoinedLast(parts[1..]);
      assert parts[1..][..n - 1] == parts[..n][1..];
    }
  }

  lemma {:induction false} PlacesOfParts(os: seq<string>, parts: seq<string>) returns (ps: seq<nat>)
    requires |parts| > 0 && forall p :: p in parts ==> p in os
    ensures Spells(os, ps, Joined(parts)) && |ps| == |parts|
  {
    var n := |parts| - 1;
    assert parts[n] in os;
    var i :| 0 <= i < |os| && os[i] == parts[n];
    if n == 0 {
      ps := [i];
    } else {
      var front := PlacesOfParts(os, parts[..n]);
      JoinedLast(parts);
      ps := front + [i];
      assert ps[..n] == front;
    }
  }

  /** With overrides without underscores, the names that apply are exactly those made of overrides. */
  lemma AppliesIff(os: seq<string>, o: string)
    requires AllSimple(os)
    ensures Applies(o, OverridesSet(os)) <==> exists ps :: Spells(os, ps, o)
  {
    hide Parts, Joined;
    if Applies(o, OverridesSet(os)) {
      if o in os {
        var i: nat :| i < |os| && os[i] == o;
        assert Spells(os, [i], o);
      } else {
        PartsJoin(o);
        var ps := PlacesOfParts(os, Parts(o));
      }
    }
    if ps :| Spells(os, ps, o) {
      if |ps| == 1 {
        assert os[ps[0]] in os;
      } else {
        PartsOfName(os, ps);
        var n := |ps| - 1;
        var front := NameAt(os, ps[..n]);
        assert o == front + Suffix(os[ps[n]]) && o[|front|] == '_';
        forall p | p in Parts(o) ensures p in os {
          var i :| 0 <= i < |ps| && NamesAt(os, ps)[i] == p;
        }
      }
    }
  }

  /** A variable is recorded for the name that stands at these positions. */
  ghost predicate RecordedAt(entries: seq<(string, string)>, os: seq<string>, ps: seq<nat>) {
    |ps| > 0 && Within(os, ps) && RecordedFor(entries, NameAt(os, ps)).Some?
  }

  /** The recorded names are such as the positions decide about. */
  ghost predicate Orderly(entries: seq<(string, string)>, os: seq<string>) {
    AllSimple(os) && DistinctOverrides(os) && forall ps :: RecordedAt(entries, os, ps) ==> Placed(os, ps)
  }

  /** A variable recorded for a name with most ascents and, among these, one that begins furthest right. */
  ghost predicate BestPlaced(entries: seq<(string, string)>, os: seq<string>, matched: Option<string>) {
    if matched == None then forall ps :: !RecordedAt(entries, os, ps)
    else exists ps :: RecordedAt(entries, os, ps) && RecordedFor(entries, NameAt(os, ps)) == matched &&
           forall qs :: RecordedAt(entries, os, qs) ==> !Sooner(ps, qs)
  }

  ghost function PlacesOf(os: seq<string>, o: string): (ps: seq<nat>)
    requires exists ps :: Spells(os, ps, o)
    ensures Spells(os, ps, o)
  {
    var ps :| Spells(os, ps, o);
    ps
  }

  /** The choice in terms of what has been recorded and of OVERRIDES. */
  lemma FoundByPlaces(entries: seq<(string, string)>, os: seq<string>, matched: Option<string>)
    requires Orderly(entries, os) && AllSteady(Recorded(entries, os), os, 0) ==>
      Answer(Recorded(entries, os), os, 0, None, matched)
    ensures Orderly(entries, os) ==> BestPlaced(entries, os, matched)
  {
    hide Answer, AllSteady, Recorded, RecordedFor, Applies, Sooner, Placed, NameAt, AllSimple, DistinctOverrides;
    if Orderly(entries, os) {
      var active := Recorded(entries, os);
      forall k | k in active ensures exists ps :: Spells(os, ps, k) {
        RecordedLooksUp(entries, os, k);
        AppliesIff(os, k);
      }
      var places := map k | k in active :: PlacesOf(os, k);
      forall k | k in active
        ensures RecordedAt(entries, os, places[k]) && Placed(os, places[k]) && NameAt(os, places[k]) == k
        ensures RecordedFor(entries, k) == Some(active[k])
      {
        RecordedLooksUp(entries, os, k);
      }
      ChosenByPlaces(active, os, places, matched);
      forall ps | RecordedAt(entries, os, ps) ensures NameAt(os, ps) in active && places[NameAt(os, ps)] == ps {
        var k := NameAt(os, ps);
        assert Spells(os, ps, k);
        AppliesIff(os, k);
        RecordedLooksUp(entries, os, k);
        SamePlaces(os, places[k], ps);
      }
      if active != map[] {
        var k :| k in active && matched == Some(active[k]) && SoonerThanNone(active, os, places, k);
        assert RecordedAt(entries, os, places[k]);
      }
    }
  }

  /** Among finitely many keys of which one is matched, some key is matched last. */
  lemma {:induction false} SomeLast(active: Active, os: seq<string>, keys: set<string>) returns (k: string)
    requires keys <= active.Keys && exists b :: b in keys && FateFrom(b, os, 0).Some?
    ensures k in keys && FateFrom(k, os, 0).Some?
    ensures forall b :: b in keys && FateFrom(b, os, 0).Some? ==>
      !Earlier(FateFrom(k, os, 0).value, FateFrom(b, os, 0).value)
    decreases |keys|
  {
    hide FateFrom;
    k :| k in keys && FateFrom(k, os, 0).Some?;
    var later := set b | b in keys && FateFrom(b, os, 0).Some? &&
                         Earlier(FateFrom(k, os, 0).value, FateFrom(b, os, 0).value);
    if later != {} {
      assert k !in later && later < keys by {
        assert k in keys;
      }
      Graphs.ProperSubsetSize(later, keys);
      var first := k;
      k := SomeLast(active, os, later);
      forall b | b in keys && FateFrom(b, os, 0).Some?
        ensures !Earlier(FateFrom(k, os, 0).value, FateFrom(b, os, 0).value)
      {
        assert Earlier(FateFrom(first, os, 0).value, FateFrom(k, os, 0).value);
      }
    } else {
      forall b | b in keys && FateFrom(b, os, 0).Some?
        ensures !Earlier(FateFrom(k, os, 0).value, FateFrom(b, os, 0).value)
      {
        assert b !in later;
      }
    }
  }

  lemma SeveralNotSimple(os: seq<string>, ps: seq<nat>)
    requires |ps| > 1 && Within(os, ps)
    ensures !Simple(NameAt(os, ps))
  {
    var n := |ps| - 1;
    var before := NameAt(os, ps[..n]);
    assert (before + Suffix(os[ps[n]]))[|before|] == '_';
  }

  /** A plain override is the name at its own position only. */
  lemma PlainPlace(os: seq<string>, ps: seq<nat>, j: nat)
    requires AllSimple(os) && DistinctOverrides(os) && Placed(os, ps) && j < |os| && os[j] == NameAt(os, ps)
    ensures ps == [j]
  {
    assert os[j] in os;
    if |ps| > 1 {
      SeveralNotSimple(os, ps);
    } else {
      assert ps == [ps[0]];
    }
  }

  /** One key is the only one matched last exactly if every other one is matched earlier. */
  lemma AloneLast(active: Active, os: seq<string>, s: string)
    requires s in active && forall k :: k in active ==> FateFrom(k, os, 0).Some?
    requires forall k, k' :: k in active && k' in active && active[k] == active[k'] ==> k == k'
    ensures (forall r :: Answer(active, os, 0, None, r) ==> r == Some(active[s])) <==>
            forall k :: k in active && k != s ==> Earlier(FateFrom(k, os, 0).value, FateFrom(s, os, 0).value)
  {
    hide FateFrom;
    var last := SomeLast(active, os, active.Keys);
    assert MatchesLast(active, os, 0, last);
    assert !NoneMatches(active, os, 0);
    forall k | MatchesLast(active, os, 0, k) ensures Answer(active, os, 0, None, Some(active[k])) {
    }
    if forall r :: Answer(active, os, 0, None, r) ==> r == Some(active[s]) {
      assert Answer(active, os, 0, None, Some(active[last]));
      assert last == s;
      forall k | k in active && k != s ensures Earlier(FateFrom(k, os, 0).value, FateFrom(s, os, 0).value) {
        assert !MatchesLast(active, os, 0, k);
      }
    }
  }

  /** Exactly when the rightmost plain override is sure to win: every other recorded name must have its
      overrides in the reverse of their order in OVERRIDES, and begin left of it. */
  lemma RightmostWinsIff(active: Active, os: seq<string>, places: map<string, seq<nat>>, j: nat)
    requires AllSimple(os) && DistinctOverrides(os) && Named(active, os, places) && Rightmost(active, os, j)
    requires forall k, k' :: k in active && k' in active && active[k] == active[k'] ==> k == k'
    ensures (forall r :: Answer(active, os, 0, None, r) ==> r == Some(active[os[j]])) <==>
            forall k :: k in active && k != os[j] ==> Reversed(places[k]) && places[k][0] < j
  {
    assert Reversed([j]);
    hide Answer, FateFrom, NameAt, Simple, Reversed, Ascents;
    PlainPlace(os, places[os[j]], j);
    forall k | k in active
      ensures FateFrom(k, os, 0) == Some(Time(Ascents(places[k]), places[k][0]))
      ensures Ascents(places[k]) == 0 <==> Reversed(places[k])
    {
      NamedFate(active, os, places, k);
      NoAscents(places[k]);
    }
    hide Placed, AllSimple, DistinctOverrides;
    AloneLast(active, os, os[j]);
  }

  lemma NameOfOne(os: seq<string>, n: nat)
    requires n < |os|
    ensures NameAt(os, [n]) == os[n]
  {
  }

  lemma NameOfTwo(os: seq<string>, i: nat, j: nat)
    requires i < |os| && j < |os|
    ensures NameAt(os, [i, j]) == os[i] + Suffix(os[j])
  {
    assert [i, j][..1] == [i];
    NameOfOne(os, i);
  }

  lemma PairNames(a: string, b: string, s: string, os: seq<string>, i: nat, j: nat, n: nat)
    requires a != b && AllSimple(os)
    requires i < |os| && j < |os| && n < |os| && os[i] == a && os[j] == b && os[n] == s
    ensures Placed(os, [i, j]) && NameAt(os, [i, j]) == a + Suffix(b)
    ensures Placed(os, [n]) && NameAt(os, [n]) == s != a + Suffix(b)
  {
    hide NameAt, Simple, Suffix;
    SeveralNotSimple(os, [i, j]);
    NameOfTwo(os, i, j);
    NameOfOne(os, n);
    assert s in os;
  }

  lemma PairSooner(i: nat, j: nat, n: nat)
    requires i != j && i != n
    ensures Sooner([n], [i, j]) <==> !(j < i < n)
    ensures Sooner([i, j], [n]) <==> j < i < n
    ensures !Sooner([n], [n]) && !Sooner([i, j], [i, j])
  {
    assert Ascents([i, j]) == (if i < j then 1 else 0) && Ascents([n]) == 0;
  }

  /** With a plain override name `s` recorded beside the pair `a_b`, the variable of the pair is chosen
      unless its first override stands to the right of its second and to the left of `s`.  So it may
      win although `s` is further to the right than both. */
  lemma PairAgainstSimple(a: string, b: string, s: string, va: string, vs: string,
                          os: seq<string>, i: nat, j: nat, n: nat, r: Option<string>)
    requires a != b && s != a && va != vs && AllSimple(os) && DistinctOverrides(os)
    requires i < |os| && j < |os| && n < |os| && os[i] == a && os[j] == b && os[n] == s
    ensures var active := map[a + Suffix(b) := va, s := vs];
            AllSteady(active, os, 0) &&
            (Answer(active, os, 0, None, r) <==> r == Some(if j < i < n then vs else va))
  {
    hide StepOf, Earlier, FateFrom, SteadyFrom, Answer;
    var p := a + Suffix(b);
    PairNames(a, b, s, os, i, j, n);
    var active, places := map[p := va, s := vs], map[p := [i, j], s := [n]];
    assert Named(active, os, places);
    ChosenByPlaces(active, os, places, r);
    PairSooner(i, j, n);
    hide Placed, NameAt, Sooner, Named, AllSimple, DistinctOverrides;
    assert SoonerThanNone(active, os, places, p) <==> !(j < i < n);
    assert SoonerThanNone(active, os, places, s) <==> j < i < n;
  }

  /** The rightmost override does not always win: `x3` is further right than `x1` and `x2`. */
  lemma RightmostFails(r: Option<string>)
    requires Answer(map["x1_x2" := "V_x1_x2", "x3" := "V_x3"], ["x1", "x2", "x3"], 0, None, r)
    ensures r == Some("V_x1_x2")
  {
    hide Answer, AllSteady;
    var os := ["x1", "x2", "x3"];
    assert "x1" + Suffix("x2") == "x1_x2";
    assert os[0] == "x1" && os[1] == "x2" && os[2] == "x3";
    assert "x1"[1] == '1' && "x2"[1] == '2' && "x3"[1] == '3';
    PairAgainstSimple("x1", "x2", "x3", "V_x1_x2", "V_x3", os, 0, 1, 2, r);
  }
}
