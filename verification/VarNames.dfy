/** The names of variables in `data_smart.py`: the shorter names that an override variable is recorded for,
    the keywords in a name, and the names that renaming a variable leads to. */
module VarNames {
  import opened Wrappers

  // ---- Shorter names --------------------------------------------------------------------------------

  /** `v.rfind("_")`. */
  function LastUnderscore(v: string): (r: int)
    ensures -1 <= r < |v|
    ensures r == -1 <==> '_' !in v
    ensures r >= 0 ==> v[r] == '_' && '_' !in v[r + 1..]
  {
    if v == "" then -1
    else
      assert v == v[..|v| - 1] + [v[|v| - 1]];
      if v[|v| - 1] == '_' then |v| - 1
      else
        var r := LastUnderscore(v[..|v| - 1]);
        assert r >= 0 ==> v[r + 1..] == v[..|v| - 1][r + 1..] + [v[|v| - 1]];
        r
  }

  /** `v[:v.rfind("_")]`, which without an underscore drops the last character. */
  function ShortVar(v: string): (r: string)
    ensures |r| <= |v|
  {
    var i := LastUnderscore(v);
    if i >= 0 then v[..i] else if v == "" then "" else v[..|v| - 1]
  }

  /** `v[v.rfind("_") + 1:]`. */
  function OverrideOf(v: string): string {
    v[LastUnderscore(v) + 1..]
  }

  /** `str.islower` on the ASCII letters. */
  predicate IsLower(s: string) {
    (exists c :: c in s && 'a' <= c <= 'z') && forall c :: c in s ==> !('A' <= c <= 'Z')
  }

  /** Lower case by its last character: a capital spoils it, a small letter is enough, others do nothing. */
  lemma LowerByLast(s: string, c: char)
    ensures !IsLower("") && ('A' <= c <= 'Z' ==> !IsLower(s + [c]))
    ensures 'a' <= c <= 'z' ==> (IsLower(s + [c]) <==> s == "" || IsLower(s + "a"))
    ensures !('a' <= c <= 'z') && !('A' <= c <= 'Z') ==> (IsLower(s + [c]) <==> IsLower(s))
    ensures IsLower(s + "a") <==> forall x :: x in s ==> !('A' <= x <= 'Z')
  {
    var v := s + [c];
    assert v[|s|] == c && c in v;
    assert 'a' in s + "a" by {
      assert (s + "a")[|s|] == 'a';
    }
    assert forall x :: x in v <==> x in s || x == c;
    assert forall x :: x in s + "a" <==> x in s || x == 'a';
  }

  /** The next longer override name that ends `v`, and what stands before it. */
  function NextOverride(v: string, shortvar: string): (r: (string, string))
    requires |shortvar| <= |v|
    ensures |r.1| <= |shortvar| && (r.0 != "" ==> |r.1| < |shortvar|)
  {
    var i := LastUnderscore(shortvar);
    if i == -1 then ("", shortvar) else if i == 0 then ("", "") else (v[i + 1..], v[..i])
  }

  /** The override under which `v` is recorded for a shorter name `w`: the loop cuts off the name at its
      underscores from the right while what it has cut off is in lower case. */
  function OverrideFrom(v: string, override: string, shortvar: string, w: string): (r: Option<string>)
    requires |shortvar| <= |v|
    ensures r.Some? ==> |w| <= |shortvar|
    decreases |shortvar|, override != ""
  {
    if override == "" || !IsLower(override) then None
    else if shortvar == w then Some(override)
    else OverrideFrom(v, NextOverride(v, shortvar).0, NextOverride(v, shortvar).1, w)
  }

  function OverrideFor(v: string, w: string): Option<string> {
    OverrideFrom(v, OverrideOf(v), ShortVar(v), w)
  }

  /** Where `setVar` and `delVar` come to the records of a name: if it has an underscore. */
  function ShorterRecord(v: string, w: string): Option<string> {
    if '_' in v then OverrideFor(v, w) else None
  }

  lemma ShorterThan(v: string)
    requires '_' in v
    ensures |ShortVar(v)| < |v|
  {
  }

  lemma {:induction false} UnderscoreAt(v: string, i: nat)
    requires i < |v| && v[i] == '_'
    ensures LastUnderscore(v) >= i
  {
    if i < |v| - 1 {
      UnderscoreAt(v[..|v| - 1], i);
    }
  }

  lemma LowerInside(a: string, b: string, c: string)
    requires IsLower(b) && IsLower(c) && |b| <= |a| <= |c| && a[|a| - |b|..] == b && c[|c| - |a|..] == a
    ensures IsLower(a)
  {
    var x :| x in b && 'a' <= x <= 'z';
    assert x in a;
    forall y | y in a ensures y in c {
      assert y in c[|c| - |a|..];
    }
  }

  lemma NotLower()
    ensures !IsLower("")
  {
  }

  lemma SamePrefix(v: string, w: string, o: string, x: string, p: string)
    requires v == w + "_" + o && v == x + "_" + p
    ensures w == x <==> o == p
    ensures |w| < |x| ==> x[|w|] == '_' && LastUnderscore(x) >= |w|
  {
    assert v[|w| + 1..] == o && v[|x| + 1..] == p;
    assert v[..|w|] == w && v[..|x|] == x;
    if |w| < |x| {
      assert x[|w|] == v[|w|];
      UnderscoreAt(x, |w|);
    }
  }

  lemma {:induction false} OverrideFromMeans(v: string, override: string, shortvar: string, w: string, o: string)
    requires v == shortvar + "_" + override
    ensures OverrideFrom(v, override, shortvar, w) == Some(o) <==>
            v == w + "_" + o && |w| <= |shortvar| && IsLower(override) && IsLower(o) && (w != "" || shortvar == "")
    decreases |shortvar|
  {
    hide IsLower, LastUnderscore;
    NotLower();
    if v == w + "_" + o {
      SamePrefix(v, w, o, shortvar, override);
    }
    if IsLower(override) && shortvar != w {
      var i := LastUnderscore(shortvar);
      if i > 0 {
        var next := v[i + 1..];
        assert v == v[..i] + "_" + next;
        OverrideFromMeans(v, next, v[..i], w, o);
        NextLower(v, override, next, w, o);
      }
    }
  }

  lemma NextLower(v: string, override: string, next: string, w: string, o: string)
    requires IsLower(override) && |override| <= |next| <= |v| && v[|v| - |override|..] == override
    requires v[|v| - |next|..] == next
    ensures v == w + "_" + o && |w| + 1 + |next| <= |v| && IsLower(o) ==> IsLower(next)
  {
    if v == w + "_" + o && |w| + 1 + |next| <= |v| && IsLower(o) {
      assert o[|o| - |next|..] == next;
      assert next[|next| - |override|..] == override;
      LowerInside(next, override, o);
    }
  }

  lemma NoShorter(v: string, w: string)
    requires '_' !in v
    ensures OverrideFor(v, w) == if v != "" && IsLower(v) && w == v[..|v| - 1] then Some(v) else None
  {
    hide IsLower, LastUnderscore;
    assert OverrideOf(v) == v;
    var shortvar := ShortVar(v);
    assert '_' !in shortvar;
    assert NextOverride(v, shortvar) == ("", shortvar);
    assert OverrideFrom(v, "", shortvar, w) == None;
    assert v != "" ==> shortvar == v[..|v| - 1];
  }

  /** The records of a name with an underscore, in closed form: `v` is recorded for `w` under `o` exactly
      if it is `w_o`, and `o` and its last part are in lower case. */
  lemma OverrideForMeans(v: string, w: string, o: string)
    ensures '_' in v ==>
      (OverrideFor(v, w) == Some(o) <==>
       v == w + "_" + o && IsLower(OverrideOf(v)) && IsLower(o) && (w != "" || o == OverrideOf(v)))
    ensures '_' !in v ==>
      (OverrideFor(v, w) == Some(o) <==> o == v != "" && IsLower(v) && w == v[..|v| - 1])
  {
    hide IsLower;
    if '_' in v {
      assert v == ShortVar(v) + "_" + OverrideOf(v);
      OverrideFromMeans(v, OverrideOf(v), ShortVar(v), w, o);
      if v == w + "_" + o {
        assert v[|w|] == '_';
        UnderscoreAt(v, |w|);
        assert v[|w| + 1..] == o;
      }
    } else {
      NoShorter(v, w);
      assert !IsLower("") by {
        NotLower();
      }
    }
  }

  /** Each shorter name is come to once. */
  lemma NextOnce(v: string, override: string, shortvar: string)
    requires |shortvar| <= |v| && override != "" && IsLower(override)
    ensures OverrideFrom(v, override, shortvar, shortvar) == Some(override)
    ensures var next := NextOverride(v, shortvar);
            OverrideFrom(v, next.0, next.1, shortvar) == None &&
            forall w :: w != shortvar ==> OverrideFrom(v, next.0, next.1, w) == OverrideFrom(v, override, shortvar, w)
  {
    NotLower();
    hide IsLower, NextOverride;
  }

  lemma NotUnderItself(v: string)
    ensures ShorterRecord(v, v) == None
  {
    if '_' in v {
      ShorterThan(v);
    }
  }

  lemma LastPart(w: string, o: string)
    requires '_' !in o
    ensures OverrideOf(w + "_" + o) == o
  {
    var v := w + "_" + o;
    assert v[|w|] == '_';
    UnderscoreAt(v, |w|);
    assert forall j :: |w| < j < |v| ==> v[j] == o[j - |w| - 1] && v[j] in o;
    assert LastUnderscore(v) == |w|;
  }

  // ---- Lists of recorded names ----------------------------------------------------------------------

  /** A recorded override variable, and the override that ends its name. */
  type Pair = (string, string)

  /** What a list of records is after a pair has been added that may be there. */
  function Extended(r: Option<seq<Pair>>, p: Pair): seq<Pair> {
    match r
    case None => [] + [p]
    case Some(l) => if p in l then l else l + [p]
  }

  function Added(r: Option<seq<Pair>>, v: string, o: Option<string>): Option<seq<Pair>> {
    if o.None? then r else Some(Extended(r, (v, o.value)))
  }

  /** A record is made once: the pair is added at the end if it is not there. */
  lemma AddedOnce(r: Option<seq<Pair>>, v: string, o: string)
    ensures var had := if r.Some? then r.value else [];
            var new' := Added(r, v, Some(o));
            new'.Some? && (v, o) in new'.value && had <= new'.value &&
            multiset(new'.value)[(v, o)] == (if (v, o) in had then multiset(had)[(v, o)] else 1) &&
            forall p :: p != (v, o) ==> multiset(new'.value)[p] == multiset(had)[p]
  {
    assert forall p: Pair :: [] + [p] == [p];
  }

  lemma AddedPair(r: Option<seq<Pair>>, b: string, o: Option<string>, p: Pair)
    ensures Added(r, b, o).Some? && p in Added(r, b, o).value ==> (r.Some? && p in r.value) || (o.Some? && p.0 == b)
  {
  }

  function RemoveFirst(l: seq<Pair>, p: Pair): seq<Pair> {
    if l == [] then [] else if l[0] == p then l[1..] else [l[0]] + RemoveFirst(l[1..], p)
  }

  /** The first record of the pair goes, if there is one. */
  lemma {:induction false} RemovedOne(l: seq<Pair>, p: Pair, i: nat)
    ensures i < |l| && l[i] == p && p !in l[..i] ==> RemoveFirst(l, p) == l[..i] + l[i + 1..]
    ensures p !in l ==> RemoveFirst(l, p) == l
  {
    if l != [] {
      RemovedOne(l[1..], p, if i > 0 then i - 1 else 0);
      assert l == [l[0]] + l[1..];
      if 0 < i < |l| {
        assert l[..i] == [l[0]] + l[1..][..i - 1];
        assert l[1..][i..] == l[i + 1..];
      }
    }
  }

  function Dropped(r: Option<seq<Pair>>, v: string, o: Option<string>): Option<seq<Pair>> {
    if r.None? || o.None? then r else Some(RemoveFirst(r.value, (v, o.value)))
  }

  lemma {:induction false} RemovedIn(l: seq<Pair>, p: Pair, q: Pair)
    ensures q in RemoveFirst(l, p) ==> q in l
  {
    if l != [] {
      RemovedIn(l[1..], p, q);
    }
  }

  // ---- Keywords -------------------------------------------------------------------------------------

  const KEYWORDS := ["_append", "_prepend", "_remove"]

  datatype Keyword = Keyword(base: string, keyword: string, add: string)

  function KeywordAt(v: string, i: nat, word: string): Option<Keyword>
    requires i <= |v|
  {
    if i + |word| > |v| || v[i..i + |word|] != word then None
    else if i + |word| == |v| then Some(Keyword(v[..i], word, ""))
    else if v[i + |word|] == '_' then Some(Keyword(v[..i], word, v[i + |word| + 1..]))
    else None
  }

  /** The first place where a keyword ends the name or is followed by an underscore. */
  function KeywordFrom(v: string, i: nat): Option<Keyword>
    requires i <= |v|
    decreases |v| - i
  {
    if KeywordAt(v, i, "_append").Some? then KeywordAt(v, i, "_append")
    else if KeywordAt(v, i, "_prepend").Some? then KeywordAt(v, i, "_prepend")
    else if KeywordAt(v, i, "_remove").Some? then KeywordAt(v, i, "_remove")
    else if i == |v| then None
    else KeywordFrom(v, i + 1)
  }

  lemma {:induction false} KeywordKnown(v: string, i: nat)
    requires i <= |v| && KeywordFrom(v, i).Some?
    ensures KeywordFrom(v, i).value.keyword in KEYWORDS
    decreases |v| - i
  {
    assert KEYWORDS[0] == "_append" && KEYWORDS[1] == "_prepend" && KEYWORDS[2] == "_remove";
    if KeywordAt(v, i, "_append").None? && KeywordAt(v, i, "_prepend").None? && KeywordAt(v, i, "_remove").None? {
      KeywordKnown(v, i + 1);
    }
  }

  lemma {:induction false} KeywordBase(v: string, i: nat)
    requires i <= |v| && KeywordFrom(v, i).Some?
    ensures KeywordFrom(v, i).value.base <= v
    decreases |v| - i
  {
    if KeywordAt(v, i, "_append").None? && KeywordAt(v, i, "_prepend").None? && KeywordAt(v, i, "_remove").None? {
      KeywordBase(v, i + 1);
    }
  }

  /** The name is `w.base` with a keyword behind it, alone or with `_` and `w.add` behind that. */
  ghost predicate SplitsAs(v: string, w: Keyword) {
    && w.keyword in KEYWORDS
    && (v == w.base + w.keyword + "_" + w.add || (v == w.base + w.keyword && w.add == ""))
  }

  lemma KeywordAtMeans(v: string, i: nat, w: Keyword)
    requires i <= |v| && w.keyword in KEYWORDS
    ensures KeywordAt(v, i, w.keyword) == Some(w) <==> SplitsAs(v, w) && |w.base| == i
    ensures KeywordAt(v, i, w.keyword).Some? ==>
      KeywordAt(v, i, w.keyword).value.keyword == w.keyword && SplitsAs(v, KeywordAt(v, i, w.keyword).value) &&
      |KeywordAt(v, i, w.keyword).value.base| == i
  {
    var end := i + |w.keyword|;
    if end <= |v| && v[i..end] == w.keyword {
      assert v == v[..i] + w.keyword + v[end..];
      assert end < |v| ==> v[end..] == [v[end]] + v[end + 1..];
    }
    if SplitsAs(v, w) && |w.base| == i {
      assert v[..i] == w.base && v[i..end] == w.keyword;
      assert end < |v| ==> v[end] == '_' && v[end + 1..] == w.add;
    }
  }

  /** No two keywords begin at one place. */
  lemma OneKeywordAt(v: string, i: nat, word: string, other: string)
    requires i <= |v| && word in KEYWORDS && other in KEYWORDS && word != other
    ensures KeywordAt(v, i, word).Some? ==> KeywordAt(v, i, other).None?
  {
    assert word[1] != other[1];
    assert i + |word| <= |v| ==> v[i..i + |word|][1] == v[i + 1];
    assert i + |other| <= |v| ==> v[i..i + |other|][1] == v[i + 1];
  }

  lemma {:induction false} KeywordFromMeans(v: string, i: nat, w: Keyword)
    requires i <= |v|
    ensures SplitsAs(v, w) && i <= |w.base| ==>
      KeywordFrom(v, i).Some? && |KeywordFrom(v, i).value.base| <= |w.base| &&
      (|KeywordFrom(v, i).value.base| == |w.base| ==> KeywordFrom(v, i).value == w)
    ensures KeywordFrom(v, i).Some? ==> SplitsAs(v, KeywordFrom(v, i).value) && i <= |KeywordFrom(v, i).value.base|
    decreases |v| - i
  {
    assert KEYWORDS[0] == "_append" && KEYWORDS[1] == "_prepend" && KEYWORDS[2] == "_remove";
    hide SplitsAs, KeywordAt;
    forall word | word in KEYWORDS
      ensures KeywordAt(v, i, word).Some? ==>
        SplitsAs(v, KeywordAt(v, i, word).value) && |KeywordAt(v, i, word).value.base| == i
    {
      KeywordAtMeans(v, i, Keyword(v[..i], word, ""));
    }
    if w.keyword in KEYWORDS {
      KeywordAtMeans(v, i, w);
      forall word | word in KEYWORDS && word != w.keyword
        ensures KeywordAt(v, i, w.keyword).Some? ==> KeywordAt(v, i, word).None?
      {
        OneKeywordAt(v, i, w.keyword, word);
      }
    }
    SplitShorter(v, w);
    if i < |v| {
      KeywordFromMeans(v, i + 1, w);
    }
  }

  lemma SplitShorter(v: string, w: Keyword)
    ensures SplitsAs(v, w) ==> w.keyword in KEYWORDS && |w.base| < |v|
  {
  }

  /** The keyword of a name: of all the ways to split it the one with the shortest base, and none only if
      there is no way.  The override behind the keyword is all that is left. */
  lemma KeywordMeans(v: string, w: Keyword)
    ensures KeywordFrom(v, 0) == Some(w) <==>
            SplitsAs(v, w) && forall u :: SplitsAs(v, u) ==> |w.base| <= |u.base|
    ensures KeywordFrom(v, 0).None? <==> forall u :: !SplitsAs(v, u)
  {
    forall u ensures SplitsAs(v, u) ==>
      KeywordFrom(v, 0).Some? && |KeywordFrom(v, 0).value.base| <= |u.base| &&
      (|KeywordFrom(v, 0).value.base| == |u.base| ==> KeywordFrom(v, 0).value == u)
    {
      KeywordFromMeans(v, 0, u);
    }
    KeywordFromMeans(v, 0, w);
  }

  lemma NoKeywordAt(v: string, i: nat, word: string)
    requires i <= |v| && word != "" && word[0] == '_' && (i < |v| ==> v[i] != '_')
    ensures KeywordAt(v, i, word).None?
  {
    assert i + |word| <= |v| ==> v[i..i + |word|][0] == v[i];
  }

  lemma {:induction false} NoKeywordBehind(v: string, i: nat)
    requires i <= |v| && '_' !in v[i..]
    ensures KeywordFrom(v, i).None?
    decreases |v| - i
  {
    assert i < |v| ==> v[i] == v[i..][0] && v[i..] == [v[i]] + v[i + 1..];
    NoKeywordAt(v, i, "_append");
    NoKeywordAt(v, i, "_prepend");
    NoKeywordAt(v, i, "_remove");
    if i < |v| {
      NoKeywordBehind(v, i + 1);
    }
  }

  // ---- Replacing ------------------------------------------------------------------------------------

  /** `v.replace(key, newkey)`; nothing is found before every character and at the end. */
  function Replaced(v: string, key: string, newkey: string): string {
    if v == "" then if key == "" then newkey else v
    else if key == "" then newkey + [v[0]] + Replaced(v[1..], key, newkey)
    else if key <= v then newkey + Replaced(v[|key|..], key, newkey)
    else [v[0]] + Replaced(v[1..], key, newkey)
  }

  predicate OccursAt(key: string, v: string, i: nat) {
    i + |key| <= |v| && v[i..i + |key|] == key
  }

  /** `key in v`. */
  ghost predicate Occurs(key: string, v: string) {
    exists i: nat :: OccursAt(key, v, i)
  }

  lemma {:induction false} ReplacedLength(v: string, key: string, newkey: string)
    requires |newkey| <= |key|
    ensures |Replaced(v, key, newkey)| <= |v|
    decreases |v|
  {
    if v != "" {
      ReplacedLength(if key != "" && key <= v then v[|key|..] else v[1..], key, newkey);
    }
  }

  lemma OccursBehind(key: string, v: string, i: nat)
    requires v != ""
    ensures OccursAt(key, v[1..], i) <==> OccursAt(key, v, i + 1)
  {
    assert i + 1 + |key| <= |v| ==> v[1..][i..i + |key|] == v[i + 1..i + 1 + |key|];
  }

  /** Nothing of `key` begins before `i`. */
  predicate NoneBefore(key: string, v: string, i: nat) {
    forall j: nat :: j < i ==> !OccursAt(key, v, j)
  }

  lemma NoneBehind(key: string, v: string, i: nat)
    requires v != "" && i > 0 && NoneBefore(key, v, i)
    ensures NoneBefore(key, v[1..], i - 1) && !(key <= v)
  {
    assert !OccursAt(key, v, 0);
    forall j: nat | j < i - 1 ensures !OccursAt(key, v[1..], j) {
      OccursBehind(key, v, j);
    }
  }

  lemma ReplacedHere(v: string, key: string, newkey: string)
    requires key != ""
    ensures key <= v ==> Replaced(v, key, newkey) == newkey + Replaced(v[|key|..], key, newkey)
    ensures v != "" && !(key <= v) ==> Replaced(v, key, newkey) == [v[0]] + Replaced(v[1..], key, newkey)
    ensures OccursAt(key, v, 0) ==> key <= v
  {
  }

  lemma InFront(v: string, i: nat, newkey: string, rest: string)
    requires 0 < i <= |v|
    ensures [v[0]] + (v[1..][..i - 1] + newkey + rest) == v[..i] + newkey + rest
  {
    assert v[..i] == [v[0]] + v[1..][..i - 1];
  }

  /** The first occurrence is replaced and the search goes on behind it. */
  lemma {:induction false} ReplacedFirst(v: string, key: string, newkey: string, i: nat)
    requires key != "" && OccursAt(key, v, i) && NoneBefore(key, v, i)
    ensures Replaced(v, key, newkey) == v[..i] + newkey + Replaced(v[i + |key|..], key, newkey)
    decreases i
  {
    hide Replaced, NoneBefore;
    ReplacedHere(v, key, newkey);
    if i > 0 {
      NoneBehind(key, v, i);
      OccursBehind(key, v, i - 1);
      hide OccursAt;
      ReplacedFirst(v[1..], key, newkey, i - 1);
      assert v[1..][i - 1 + |key|..] == v[i + |key|..];
      InFront(v, i, newkey, Replaced(v[i + |key|..], key, newkey));
    } else {
      assert v[..0] + newkey == newkey;
    }
  }

  lemma {:induction false} ReplacedNowhere(v: string, key: string, newkey: string)
    requires !Occurs(key, v)
    ensures Replaced(v, key, newkey) == v
  {
    assert !OccursAt(key, v, 0);
    if v != "" {
      forall i: nat ensures !OccursAt(key, v[1..], i) {
        OccursBehind(key, v, i);
      }
      ReplacedNowhere(v[1..], key, newkey);
    }
  }

  lemma ReplacedBegins(v: string, key: string, newkey: string)
    requires key != "" && key[0] != '_' && key + "_" <= v
    ensures newkey + "_" <= Replaced(v, key, newkey)
    ensures |newkey| <= |key| ==> |Replaced(v, key, newkey)| + |key| <= |v| + |newkey|
  {
    var rest := v[|key|..];
    assert rest[0] == v[|key|] == '_';
    assert Replaced(rest, key, newkey)[0] == '_';
    if |newkey| <= |key| {
      ReplacedLength(rest, key, newkey);
    }
  }

  lemma {:induction false} ReplacedGrows(v: string, key: string, newkey: string)
    requires |key| <= |newkey|
    ensures |v| <= |Replaced(v, key, newkey)|
    decreases |v|
  {
    if v != "" {
      ReplacedGrows(if key != "" && key <= v then v[|key|..] else v[1..], key, newkey);
    }
  }

  /** Where a name is replaced the new one occurs, and makes it longer. */
  lemma {:induction false} ReplacedOccurs(v: string, key: string, newkey: string, i: nat)
    requires |key| < |newkey| && OccursAt(key, v, i)
    ensures Occurs(newkey, Replaced(v, key, newkey)) && |v| < |Replaced(v, key, newkey)|
    decreases |v|
  {
    hide Occurs;
    if v == "" || key <= v {
      OccursFirst(newkey, Replaced(v, key, newkey));
      if v != "" {
        ReplacedGrows(if key == "" then v[1..] else v[|key|..], key, newkey);
      }
    } else {
      assert v[1..][i - 1..i - 1 + |key|] == v[i..i + |key|];
      ReplacedOccurs(v[1..], key, newkey, i - 1);
      OccursLater(newkey, v[0], Replaced(v[1..], key, newkey));
    }
  }

  lemma OccursFirst(key: string, v: string)
    requires key <= v
    ensures Occurs(key, v)
  {
    assert OccursAt(key, v, 0);
  }

  lemma OccursLater(key: string, first: char, v: string)
    requires Occurs(key, v)
    ensures Occurs(key, [first] + v)
  {
    var i: nat :| OccursAt(key, v, i);
    assert ([first] + v)[i + 1..i + 1 + |key|] == v[i..i + |key|];
    assert OccursAt(key, [first] + v, i + 1);
  }

  lemma AsLong(key: string, v: string, i: nat)
    ensures OccursAt(key, v, i) && |key| == |v| ==> key == v
  {
  }

  /** So the new name is to be renamed in its turn, as the old one was. */
  lemma OccursNext(key: string, newkey: string)
    requires key != newkey && Occurs(key, newkey)
    ensures newkey != Replaced(newkey, key, newkey) && Occurs(newkey, Replaced(newkey, key, newkey))
  {
    var i: nat :| OccursAt(key, newkey, i);
    AsLong(key, newkey, i);
    ReplacedOccurs(newkey, key, newkey, i);
  }

  /** A new name that is recorded as an override variable of the old one contains it. */
  lemma RecordOccurs(key: string, newkey: string)
    requires ShorterRecord(newkey, key).Some?
    ensures key != newkey && Occurs(key, newkey)
  {
    OverrideForMeans(newkey, key, OverrideFor(newkey, key).value);
    NotUnderItself(newkey);
    assert OccursAt(key, newkey, 0);
  }

  lemma RecordOfA()
    ensures ShorterRecord("A_x", "A") == Some("x")
  {
    assert "A" + "_" + "x" == "A_x" && "A_x"[1] == '_';
    assert 'x' in "x" && IsLower("x");
    LastPart("A", "x");
    OverrideForMeans("A_x", "A", "x");
  }

  lemma PlainName()
    ensures KeywordFrom("A_x", 0).None?
  {
    var v := "A_x";
    assert v[2..] == "x";
    NoKeywordBehind(v, 2);
    NoKeywordAt(v, 0, "_append");
    NoKeywordAt(v, 0, "_prepend");
    NoKeywordAt(v, 0, "_remove");
  }

  lemma OnlyForA(v: string)
    ensures ShorterRecord("A", v).None?
    ensures ShorterRecord("A_x", v).Some? ==> v == "A"
  {
    if ShorterRecord("A_x", v).Some? {
      var o := OverrideFor("A_x", v).value;
      OverrideForMeans("A_x", v, o);
      assert (v + "_" + o)[|v|] == '_';
      assert "A_x"[0] != '_' && "A_x"[2] != '_';
      assert "A_x"[..|v|] == v;
    }
  }

  lemma PlainNameOfB()
    ensures KeywordFrom("B_x", 0).None?
  {
    var v := "B_x";
    assert v[2..] == "x";
    NoKeywordBehind(v, 2);
    NoKeywordAt(v, 0, "_append");
    NoKeywordAt(v, 0, "_prepend");
    NoKeywordAt(v, 0, "_remove");
  }

  // ---- The names a renaming comes to ----------------------------------------------------------------

  predicate InFamily(key: string, v: string) {
    v == key || key + "_" <= v
  }

  /** The new name does not begin with the old one, except that `FOO` may become `FOOBAR`. */
  predicate Beside(key: string, newkey: string) {
    && key != "" && key[0] != '_'
    && (key <= newkey ==> |key| < |newkey| && newkey[|key|] != '_' && OverrideFor(newkey[..|key| + 1], key).None?)
  }

  /** What the renaming of `key` to `newkey` may come to: names of its family shorter than `bound`. */
  datatype Scope = Scope(key: string, newkey: string, bound: nat)

  /** The renaming is the one that the scope is of, or nested in it. */
  predicate Within(c: Scope, key: string, newkey: string) {
    && Beside(c.key, c.newkey)
    && ((key == c.key && newkey == c.newkey)
        || (c.key + "_" <= key && c.newkey + "_" <= newkey && |key| < c.bound))
    && (|c.newkey| <= |c.key| ==> |newkey| + |c.key| <= |key| + |c.newkey|)
  }

  /** Renaming `x` as well does not touch `v`, nor what `v` is renamed to. */
  predicate Parted(x: string, v: string, key: string, newkey: string) {
    && !InFamily(x, v) && !InFamily(x, Replaced(v, key, newkey))
    && !InFamily(Replaced(x, key, newkey), Replaced(v, key, newkey))
  }

  /** The override variable at `i` is not one of another of them, and its new name is its own. */
  predicate Lone(l: seq<Pair>, key: string, newkey: string, i: nat) {
    && i < |l| && !InFamily(newkey, l[i].0) && Replaced(l[i].0, key, newkey) != key
    && forall j :: 0 <= j < |l| && j != i ==> Parted(l[j].0, l[i].0, key, newkey)
  }

  lemma PrefixOf(a: string, b: string, v: string)
    ensures a <= v && b <= v && |a| <= |b| ==> a <= b
  {
  }

  lemma Boundary(key: string, v: string)
    ensures key + "_" <= v ==> key <= v && |key| < |v| && v[|key|] == '_' && '_' in v
  {
    if key + "_" <= v {
      assert v[|key|] == (key + "_")[|key|];
    }
  }

  lemma NotBelow(c: Scope, key: string, newkey: string)
    requires Within(c, key, newkey) && |c.key| < |c.newkey|
    ensures !(c.key + "_" <= newkey)
  {
    PrefixOf(c.key + "_", c.newkey, newkey);
    Boundary(c.key, c.newkey);
  }

  /** The new name is not in the family of the old one, nor does it lead there. */
  lemma NotNew(c: Scope, key: string, newkey: string)
    requires Within(c, key, newkey)
    ensures !(key + "_" <= newkey) && key != newkey
  {
    assert key + "_" <= newkey ==> c.key + "_" <= newkey;
    if |c.key| < |c.newkey| {
      NotBelow(c, key, newkey);
    } else {
      PrefixOf(c.newkey, c.key, newkey);
    }
  }

  /** What assigning to the new name records in the family begins as it should. */
  lemma NewRecord(c: Scope, key: string, newkey: string, b: string, v: string)
    requires Within(c, key, newkey) && b <= newkey && InFamily(c.key, v) && OverrideFor(b, v).Some?
    ensures v + "_" <= b && |b| < c.bound && v != key
  {
    hide OverrideFor;
    OverrideForMeans(b, v, OverrideFor(b, v).value);
    if '_' !in b {
      OddRecord(c, key, newkey, b, v);
    } else {
      assert v + "_" <= b;
      assert c.key + "_" <= v + "_";
      NotNew(c, key, newkey);
      if |c.key| < |c.newkey| {
        NotBelow(c, key, newkey);
      }
    }
  }

  lemma OddRecord(c: Scope, key: string, newkey: string, b: string, v: string)
    requires Within(c, key, newkey) && b <= newkey && InFamily(c.key, v) && '_' !in b
    requires b != "" && v == b[..|b| - 1]
    ensures OverrideFor(b, v).None?
  {
    hide OverrideFor;
    Boundary(c.key, v);
    Boundary(c.newkey, b);
    PrefixOf(c.newkey + "_", b, newkey);
    PrefixOf(b, c.newkey, newkey);
    assert b <= c.newkey && v == c.key ==> c.newkey[..|c.key| + 1] == b;
  }

  /** The renaming of an override variable is nested in that of the name. */
  lemma WithinNested(c: Scope, key: string, newkey: string, v: string)
    requires Within(c, key, newkey) && key + "_" <= v && |v| < c.bound
    ensures var w := Replaced(v, key, newkey);
            Within(c, v, w) && newkey + "_" <= w && (InFamily(c.key, newkey) ==> |w| < c.bound)
  {
    var w := Replaced(v, key, newkey);
    assert key[0] == c.key[0];
    ReplacedBegins(v, key, newkey);
    assert c.key + "_" <= v;
    assert c.newkey + "_" <= w;
    if |c.key| < |c.newkey| {
      NotBelow(c, key, newkey);
    }
  }

  lemma FamilyDown(key: string, v: string, w: string)
    requires InFamily(key, v)
    ensures InFamily(v, w) ==> InFamily(key, w)
    ensures w <= v ==> w <= key || InFamily(key, w)
  {
    if w <= v && |w| > |key| {
      assert key + "_" <= w;
    }
  }

  lemma SameFamily(key: string, newkey: string)
    ensures InFamily(key, key) && InFamily(newkey, newkey)
  {
  }

  lemma NotPrefix(key: string, newkey: string, v: string)
    requires key + "_" <= v && !(key + "_" <= newkey)
    ensures !(v <= newkey)
  {
  }

  lemma KeyInFamily(c: Scope, key: string, newkey: string)
    requires Within(c, key, newkey)
    ensures InFamily(c.key, key)
  {
  }

  lemma NextNames(c: Scope, key: string, newkey: string, v: string)
    requires Within(c, key, newkey) && key + "_" <= v && |v| < c.bound
    ensures var w := Replaced(v, key, newkey);
            newkey + "_" <= w && InFamily(newkey, w) && InFamily(key, v) && InFamily(c.key, key) &&
            !InFamily(v, newkey) && !InFamily(w, newkey) && !(key + "_" <= newkey)
  {
    NotNew(c, key, newkey);
    WithinNested(c, key, newkey, v);
  }

  lemma NotLeading(key: string, newkey: string, v: string, w: string)
    requires key + "_" <= v && !InFamily(newkey, v) && newkey + "_" <= w && !(key + "_" <= newkey)
    ensures !InFamily(w, v) && !(v <= w)
  {
    FamilyDown(newkey, w, v);
    assert v <= newkey ==> key + "_" <= newkey;
  }

  lemma BesideAB()
    ensures Beside("A", "B")
  {
    assert "A"[0] == 'A' && "B"[0] == 'B';
  }

  lemma LoneOverride()
    ensures Replaced("A_x", "A", "B") == "B_x" && Lone([("A_x", "x")], "A", "B", 0) && !InFamily("B", "A_x")
  {
    var v := "A_x";
    assert v[1..] == "_x" && "A" <= v;
    assert "A"[0] == 'A' && "_x"[0] == '_' && "x"[0] == 'x';
    assert "_x"[1..] == "x" && "x"[1..] == "";
    assert Replaced("x", "A", "B") == "x" && Replaced("_x", "A", "B") == "_x";
    assert Replaced(v, "A", "B") == "B" + "_x" == "B_x";
    assert v[0] == 'A' && ("B" + "_")[0] == 'B';
  }
}
