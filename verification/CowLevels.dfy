/** The copy-on-write dictionaries of `COW.py`.  Each level is a class object whose attributes hold its
    items and which inherits the items it does not hold from the level it was made from.  Levels and
    mutable values are objects with identities, so they are kept in a store and named by their index. */
module CowLevels {
  import opened Wrappers

  /** A mutable value is stored under its key with this suffix. */
  const MUTABLE := "__mutable__"

  predicate Suffixed(name: string) {
    |name| >= |MUTABLE| && name[|name| - |MUTABLE|..] == MUTABLE
  }

  lemma SuffixInjective(a: string, b: string)
    ensures a + MUTABLE == b + MUTABLE ==> a == b
    ensures Suffixed(a + MUTABLE) && a + MUTABLE != a
  {
    if a + MUTABLE == b + MUTABLE {
      assert a == (a + MUTABLE)[..|a|] == (b + MUTABLE)[..|b|] == b;
    }
  }

  lemma SuffixedIff(name: string)
    ensures Suffixed(name) <==> exists key: string :: name == key + MUTABLE
  {
    if Suffixed(name) {
      assert name == name[..|name| - |MUTABLE|] + MUTABLE;
    }
  }

  /** An attribute: an immutable value, the marker of a deleted item, or a mutable object. */
  datatype Value = Plain(text: string) | Marker | Mutable(addr: nat)

  datatype Level = Level(parent: Option<nat>, attrs: map<string, Value>)

  /** What a reader gets for a key. */
  datatype Seen = Missing | Text(text: string) | Items(items: seq<string>)

  // ---- Looking up -------------------------------------------------------------------------------

  predicate Linked(ls: seq<Level>) {
    forall l :: 0 <= l < |ls| && ls[l].parent.Some? ==> ls[l].parent.value < l
  }

  /** `getattr(cls, name)`: the nearest level that holds the attribute. */
  function Attr(ls: seq<Level>, l: nat, name: string): Option<Value>
    requires Linked(ls) && l < |ls|
    decreases l
  {
    if name in ls[l].attrs then Some(ls[l].attrs[name])
    else match ls[l].parent
      case None => None
      case Some(p) => Attr(ls, p, name)
  }

  ghost function Content(cells: seq<seq<string>>, v: Value): Seen {
    match v
    case Plain(t) => Text(t)
    case Marker => Missing
    case Mutable(a) => if a < |cells| then Items(cells[a]) else Missing
  }

  /** What an attribute looks like to a reader. */
  ghost function Raw(ls: seq<Level>, cells: seq<seq<string>>, l: nat, name: string): Option<Seen>
    requires Linked(ls) && l < |ls|
  {
    match Attr(ls, l, name)
    case None => None
    case Some(v) => Some(Content(cells, v))
  }

  /** The attribute that `cls[key]` looks at: the plain name if it is found anywhere, or else the
      suffixed one. */
  function Found(ls: seq<Level>, l: nat, key: string): Option<Value>
    requires Linked(ls) && l < |ls|
  {
    match Attr(ls, l, key)
    case Some(v) => Some(v)
    case None => Attr(ls, l, key + MUTABLE)
  }

  /** What a level returns for a key. */
  ghost function View(ls: seq<Level>, cells: seq<seq<string>>, l: nat, key: string): Seen
    requires Linked(ls) && l < |ls|
  {
    match Found(ls, l, key)
    case None => Missing
    case Some(v) => Content(cells, v)
  }

  /** `l` is `top` or was made from it, directly or over other levels. */
  predicate Under(ls: seq<Level>, top: nat, l: nat)
    requires Linked(ls) && l < |ls|
    decreases l
  {
    l == top || (ls[l].parent.Some? && Under(ls, top, ls[l].parent.value))
  }

  // ---- The shape of the store -----------------------------------------------------------------

  ghost predicate Holds(ls: seq<Level>, l: nat, a: nat) {
    l < |ls| && exists n :: n in ls[l].attrs && ls[l].attrs[n] == Mutable(a)
  }

  predicate Stored(name: string, v: Value, size: nat) {
    v.Mutable? ==> Suffixed(name) && v.addr < size
  }

  /** Mutable values are stored under suffixed names only, and no two levels hold the same one. */
  ghost predicate Forest(ls: seq<Level>, cells: seq<seq<string>>) {
    && Linked(ls)
    && (forall l: nat, n: string :: l < |ls| && n in ls[l].attrs ==> Stored(n, ls[l].attrs[n], |cells|))
    && (forall l: nat, m: nat, a: nat :: Holds(ls, l, a) && Holds(ls, m, a) ==> l == m)
  }

  /** The level on which an attribute is found. */
  lemma {:induction false} AttrHolder(ls: seq<Level>, l: nat, name: string) returns (m: nat)
    requires Linked(ls) && l < |ls| && Attr(ls, l, name).Some?
    ensures m <= l && name in ls[m].attrs && ls[m].attrs[name] == Attr(ls, l, name).value
    ensures name !in ls[l].attrs ==> m < l
    decreases l
  {
    m := l;
    if name !in ls[l].attrs {
      m := AttrHolder(ls, ls[l].parent.value, name);
    }
  }

  // ---- Isolation --------------------------------------------------------------------------------

  /** Between the two states only levels under `top` and mutable values held by them were changed;
      new levels and new mutable values may have appeared. */
  ghost predicate OnlyUnder(ls: seq<Level>, cells: seq<seq<string>>, ls': seq<Level>, cells': seq<seq<string>>,
                            top: nat)
  {
    && Linked(ls)
    && |ls| <= |ls'|
    && |cells| <= |cells'|
    && (forall m :: 0 <= m < |ls| ==> ls'[m].parent == ls[m].parent)
    && (forall m: nat :: m < |ls| && !Under(ls, top, m) ==> ls'[m].attrs == ls[m].attrs)
    && (forall m: nat, a: nat :: m < |ls| && !Under(ls, top, m) && Holds(ls, m, a) && a < |cells| ==>
      cells'[a] == cells[a])
  }

  lemma {:induction false} AttrIsolated(ls: seq<Level>, cells: seq<seq<string>>, ls': seq<Level>,
                                        cells': seq<seq<string>>,
                                        top: nat, m: nat, name: string)
    requires Forest(ls, cells) && Linked(ls') && OnlyUnder(ls, cells, ls', cells', top)
    requires m < |ls| && !Under(ls, top, m)
    ensures Raw(ls', cells', m, name) == Raw(ls, cells, m, name)
    decreases m
  {
    if name in ls[m].attrs {
      var v := ls[m].attrs[name];
      assert ls'[m].attrs[name] == v;
      if v.Mutable? {
        assert Holds(ls, m, v.addr) && v.addr < |cells|;
      }
    } else if ls[m].parent.Some? {
      AttrIsolated(ls, cells, ls', cells', top, ls[m].parent.value, name);
    }
  }

  /** A level that was not made from `top` returns what it did before. */
  lemma Isolated(ls: seq<Level>, cells: seq<seq<string>>, ls': seq<Level>, cells': seq<seq<string>>,
                 top: nat, m: nat, key: string)
    requires Forest(ls, cells) && Linked(ls') && OnlyUnder(ls, cells, ls', cells', top)
    requires m < |ls| && !Under(ls, top, m)
    ensures View(ls', cells', m, key) == View(ls, cells, m, key)
  {
    AttrIsolated(ls, cells, ls', cells', top, m, key);
    AttrIsolated(ls, cells, ls', cells', top, m, key + MUTABLE);
  }

  /** The levels made from `top` are made from everything `top` was made from. */
  lemma {:induction false} UnderTransitive(ls: seq<Level>, a: nat, b: nat, c: nat)
    requires Linked(ls) && b < |ls| && c < |ls| && Under(ls, a, b) && Under(ls, b, c)
    ensures Under(ls, a, c)
    decreases c
  {
    if c != b {
      UnderTransitive(ls, a, b, ls[c].parent.value);
    }
  }

  lemma {:induction false} UnderKept(ls: seq<Level>, ls': seq<Level>, top: nat, m: nat)
    requires Linked(ls) && Linked(ls') && m < |ls| <= |ls'|
    requires forall i :: 0 <= i < |ls| ==> ls'[i].parent == ls[i].parent
    ensures Under(ls', top, m) <==> Under(ls, top, m)
    decreases m
  {
    if ls[m].parent.Some? {
      UnderKept(ls, ls', top, ls[m].parent.value);
    }
  }

  /** Nothing changes for any level that was not made from `top`. */
  ghost predicate OthersSee(ls: seq<Level>, cells: seq<seq<string>>, ls': seq<Level>, cells': seq<seq<string>>,
                            top: nat)
    requires Linked(ls) && Linked(ls') && |ls| <= |ls'|
  {
    forall m: nat, key: string :: m < |ls| && !Under(ls, top, m) ==>
      View(ls', cells', m, key) == View(ls, cells, m, key)
  }

  lemma AllIsolated(ls: seq<Level>, cells: seq<seq<string>>, ls': seq<Level>, cells': seq<seq<string>>, top: nat)
    requires Forest(ls, cells) && Linked(ls') && OnlyUnder(ls, cells, ls', cells', top)
    ensures OthersSee(ls, cells, ls', cells', top)
  {
    forall m: nat, key: string | m < |ls| && !Under(ls, top, m)
      ensures View(ls', cells', m, key) == View(ls, cells, m, key)
    {
      Isolated(ls, cells, ls', cells', top, m, key);
    }
  }

  /** A change under a level made from `top` is a change under `top`. */
  lemma OnlyUnderThen(ls: seq<Level>, cells: seq<seq<string>>, ls': seq<Level>, cells': seq<seq<string>>,
                      ls2: seq<Level>, cells2: seq<seq<string>>, top: nat, l: nat)
    requires Forest(ls, cells) && Linked(ls') && OnlyUnder(ls, cells, ls', cells', top)
    requires OnlyUnder(ls', cells', ls2, cells2, l) && l < |ls'| && Under(ls', top, l)
    ensures OnlyUnder(ls, cells, ls2, cells2, top)
  {
    forall m: nat | m < |ls| && !Under(ls, top, m) ensures !Under(ls', l, m) && !Under(ls', top, m) {
      UnderKept(ls, ls', top, m);
      if Under(ls', l, m) {
        UnderTransitive(ls', top, l, m);
      }
    }
    hide Under;
    forall m: nat, a: nat | m < |ls| && !Under(ls, top, m) && Holds(ls, m, a) && a < |cells|
      ensures Holds(ls', m, a) && cells2[a] == cells[a]
    {
    }
  }

  function StoredAs(key: string, value: Value): string {
    if value.Mutable? then key + MUTABLE else key
  }

  function WithAttr(ls: seq<Level>, l: nat, name: string, v: Value): seq<Level>
    requires l < |ls|
  {
    ls[l := ls[l].(attrs := ls[l].attrs[name := v])]
  }

  /** No level other than `l` holds the mutable value. */
  ghost predicate Unshared(ls: seq<Level>, l: nat, a: nat) {
    forall m: nat :: m != l ==> !Holds(ls, m, a)
  }

  lemma WithAttrForest(ls: seq<Level>, cells: seq<seq<string>>, l: nat, name: string, v: Value)
    requires Forest(ls, cells) && l < |ls| && Stored(name, v, |cells|)
    requires v.Mutable? ==> Unshared(ls, l, v.addr)
    ensures Forest(WithAttr(ls, l, name, v), cells)
  {
    var ls' := WithAttr(ls, l, name, v);
    forall m: nat, a: nat | Holds(ls', m, a) ensures Holds(ls, m, a) || (m == l && v == Mutable(a)) {
      var n :| n in ls'[m].attrs && ls'[m].attrs[n] == Mutable(a);
      if !(m == l && v == Mutable(a)) {
        assert n in ls[m].attrs && ls[m].attrs[n] == Mutable(a);
      }
    }
    hide Holds;
  }

  lemma WithAttrOnlyUnder(ls: seq<Level>, cells: seq<seq<string>>, l: nat, name: string, v: Value)
    requires Linked(ls) && l < |ls|
    ensures OnlyUnder(ls, cells, WithAttr(ls, l, name, v), cells, l)
  {
    assert Under(ls, l, l);
    hide Under, Holds;
  }

  /** Replacing an attribute by one that looks the same changes nothing for anyone. */
  lemma {:induction false} CopyKeepsRaw(ls: seq<Level>, cells: seq<seq<string>>, l: nat, name: string, v: Value,
                                        cells': seq<seq<string>>, m: nat, n: string)
    requires Forest(ls, cells) && l < |ls| && m < |ls| && cells <= cells'
    requires Raw(ls, cells, l, name) == Some(Content(cells', v))
    ensures Raw(WithAttr(ls, l, name, v), cells', m, n) == Raw(ls, cells, m, n)
    decreases m
  {
    if m == l && n == name {
    } else if n in ls[m].attrs {
      assert Stored(n, ls[m].attrs[n], |cells|);
    } else if ls[m].parent.Some? {
      CopyKeepsRaw(ls, cells, l, name, v, cells', ls[m].parent.value, n);
    }
  }

  lemma {:induction false} AttrBefore(ls: seq<Level>, ls': seq<Level>, m: nat, n: string)
    requires Linked(ls) && Linked(ls') && m < |ls| && m < |ls'|
    requires forall i: nat :: i <= m ==> ls'[i] == ls[i]
    ensures Attr(ls', m, n) == Attr(ls, m, n)
    decreases m
  {
    if n !in ls[m].attrs && ls[m].parent.Some? {
      AttrBefore(ls, ls', ls[m].parent.value, n);
    }
  }

  /** Setting one attribute changes what its own level returns only for the keys stored under it. */
  lemma OtherKeysKept(ls: seq<Level>, cells: seq<seq<string>>, l: nat, name: string, v: Value, k: string)
    requires Linked(ls) && l < |ls|
    ensures k != name ==> Attr(WithAttr(ls, l, name, v), l, k) == Attr(ls, l, k)
    ensures k != name && k + MUTABLE != name ==> View(WithAttr(ls, l, name, v), cells, l, k) == View(ls, cells, l, k)
  {
    var ls' := WithAttr(ls, l, name, v);
    if ls[l].parent.Some? {
      AttrBefore(ls, ls', ls[l].parent.value, k);
      AttrBefore(ls, ls', ls[l].parent.value, k + MUTABLE);
    }
  }

  /** The object that `level[key]` hands out is the level's own: either the plain name is not found at
      all, so that the suffixed item is copied into the level, or the level holds what is found. */
  ghost predicate HandsOutOwn(ls: seq<Level>, l: nat, key: string)
    requires Linked(ls) && l < |ls|
  {
    key in ls[l].attrs || Attr(ls, l, key).None? || !Attr(ls, l, key).value.Mutable?
  }

  /** That is so for every key without the suffix. */
  lemma OrdinaryKeysHandOutOwn(ls: seq<Level>, cells: seq<seq<string>>, l: nat, key: string)
    requires Forest(ls, cells) && l < |ls|
    ensures !Suffixed(key) ==> HandsOutOwn(ls, l, key)
  {
    if !HandsOutOwn(ls, l, key) {
      AttrIsTidy(ls, cells, l, key);
    }
  }

  lemma {:induction false} AttrIsTidy(ls: seq<Level>, cells: seq<seq<string>>, l: nat, name: string)
    requires Forest(ls, cells) && l < |ls|
    ensures Attr(ls, l, name).Some? ==> Stored(name, Attr(ls, l, name).value, |cells|)
    decreases l
  {
    if name !in ls[l].attrs && ls[l].parent.Some? {
      AttrIsTidy(ls, cells, ls[l].parent.value, name);
    }
  }

  class CowStore {
    var levels: seq<Level>
    var cells: seq<seq<string>>

    ghost predicate Valid()
      reads this
    {
      Forest(levels, cells)
    }

    constructor ()
      ensures Valid() && levels == [] && cells == []
    {
      levels, cells := [], [];
    }

    /** A new level: an empty one, or one that returns everything its parent does. */
    method Cow(parent: Option<nat>) returns (l: nat)
      requires Valid() && (parent.Some? ==> parent.value < |levels|)
      modifies `levels
      ensures Valid() && l == |old(levels)| && levels == old(levels) + [Level(parent, map[])]
      ensures parent.Some? ==> forall k :: View(levels, cells, l, k) == View(old(levels), cells, parent.value, k)
      ensures forall t: nat :: OnlyUnder(old(levels), cells, levels, cells, t)
    {
      l := |levels|;
      NewLevel(levels, cells, parent);
      levels := levels + [Level(parent, map[])];
    }

    /** A mutable value made by the caller, which no level holds yet. */
    method NewCell(contents: seq<string>) returns (a: nat)
      requires Valid()
      modifies `cells
      ensures Valid() && a == |old(cells)| && cells == old(cells) + [contents]
      ensures forall l :: !Holds(levels, l, a)
      ensures forall t: nat :: OnlyUnder(levels, old(cells), levels, cells, t)
    {
      a := |cells|;
      MoreCells(levels, cells, cells + [contents]);
      cells := cells + [contents];
    }

    /** `cls[key] = value`.  A mutable value set where the plain name is found stays invisible. */
    method SetItem(l: nat, key: string, value: Value)
      requires Valid() && l < |levels|
      requires value.Mutable? ==> value.addr < |cells| && Unshared(levels, l, value.addr)
      modifies `levels
      ensures Valid() && levels == WithAttr(old(levels), l, StoredAs(key, value), value)
      ensures !value.Mutable? ==> View(levels, cells, l, key) == Content(cells, value)
      ensures value.Mutable? && Attr(old(levels), l, key).None? ==> View(levels, cells, l, key) == Content(cells, value)
      ensures value.Mutable? && Attr(old(levels), l, key).Some? ==>
        View(levels, cells, l, key) == View(old(levels), cells, l, key)
      ensures forall k :: k != StoredAs(key, value) && k + MUTABLE != StoredAs(key, value) ==>
        View(levels, cells, l, k) == View(old(levels), cells, l, k)
      ensures OthersSee(old(levels), cells, levels, cells, l)
      ensures OnlyUnder(old(levels), cells, levels, cells, l)
    {
      var name := StoredAs(key, value);
      SuffixInjective(key, key);
      WithAttrForest(levels, cells, l, name, value);
      WithAttrOnlyUnder(levels, cells, l, name, value);
      AllIsolated(levels, cells, WithAttr(levels, l, name, value), cells, l);
      forall k ensures k != name ==> Attr(WithAttr(levels, l, name, value), l, k) == Attr(levels, l, k)
               ensures k != name && k + MUTABLE != name ==>
                 View(WithAttr(levels, l, name, value), cells, l, k) == View(levels, cells, l, k)
      {
        OtherKeysKept(levels, cells, l, name, value, k);
      }
      hide Forest, OthersSee, OnlyUnder;
      levels := WithAttr(levels, l, name, value);
    }

    /** `del cls[key]`. */
    method DelItem(l: nat, key: string)
      requires Valid() && l < |levels|
      modifies `levels
      ensures Valid() && levels == WithAttr(old(levels), l, key, Marker)
      ensures View(levels, cells, l, key) == Missing
      ensures forall k :: k != key && k + MUTABLE != key ==>
        View(levels, cells, l, k) == View(old(levels), cells, l, k)
      ensures OthersSee(old(levels), cells, levels, cells, l)
      ensures OnlyUnder(old(levels), cells, levels, cells, l)
    {
      SetItem(l, key, Marker);
    }

    /** `cls.__revertitem__(key)`: drops the level's own item, so that the inherited one shows again. */
    method RevertItem(l: nat, key: string) returns (ok: bool)
      requires Valid() && l < |levels|
      modifies `levels
      ensures Valid()
      ensures ok <==> key in old(levels)[l].attrs || key + MUTABLE in old(levels)[l].attrs
      ensures levels == if ok then Without(old(levels), l, RevertedName(old(levels), l, key)) else old(levels)
      ensures OthersSee(old(levels), cells, levels, cells, l)
      ensures OnlyUnder(old(levels), cells, levels, cells, l)
    {
      var name := RevertedName(levels, l, key);
      WithoutOnlyUnder(levels, cells, l, name);
      AllIsolated(levels, cells, Without(levels, l, name), cells, l);
      assert Without(levels, l, name) == levels || name in levels[l].attrs;
      ok := name in levels[l].attrs;
      levels := Without(levels, l, name);
    }

    /** `cls[key]`, or `cls.__getreadonly__(key)` when `readonly`; None stands for the KeyError.
        Reading may copy a mutable item into the level, which changes nothing for any reader. */
    method GetItem(l: nat, key: string, readonly: bool) returns (r: Option<Value>)
      requires Valid() && l < |levels|
      modifies this
      ensures Valid() && |levels| == |old(levels)|
      ensures OnlyUnder(old(levels), old(cells), levels, cells, l)
      ensures forall m: nat, k :: m < |levels| ==>
        View(levels, cells, m, k) == View(old(levels), old(cells), m, k)
      ensures r.None? <==> View(levels, cells, l, key) == Missing
      ensures r.Some? ==> Content(cells, r.value) == View(levels, cells, l, key)
      ensures r.Some? && r.value.Mutable? ==> r.value.addr < |cells|
      ensures r == if View(levels, cells, l, key).Missing? then None else Found(levels, l, key)
      ensures readonly || Attr(old(levels), l, key).Some? ==> levels == old(levels) && cells == old(cells)
      ensures r.Some? && r.value.Mutable? && !readonly ==>
        (Holds(levels, l, r.value.addr) <==> HandsOutOwn(old(levels), l, key))
    {
      var v := Attr(levels, l, key);
      if v.None? {
        v := GetMutable(l, key, readonly);
      } else {
        AttrIsTidy(levels, cells, l, key);
        OnlyUnderSelf(levels, cells, l);
        if v.value.Mutable? {
          ghost var m := AttrHolder(levels, l, key);
          assert Holds(levels, m, v.value.addr);
        }
      }
      if v.None? || v.value.Marker? {
        return None;
      }
      return v;
    }

    /** `cls.__getmutable__(key, readonly)`. */
    method GetMutable(l: nat, key: string, readonly: bool) returns (r: Option<Value>)
      requires Valid() && l < |levels| && Attr(levels, l, key).None?
      modifies this
      ensures Valid() && |levels| == |old(levels)|
      ensures OnlyUnder(old(levels), old(cells), levels, cells, l)
      ensures forall m: nat, k :: m < |levels| ==>
        View(levels, cells, m, k) == View(old(levels), old(cells), m, k)
      ensures r.None? <==> Attr(old(levels), l, key + MUTABLE).None?
      ensures r == Found(levels, l, key)
      ensures r.Some? ==> Content(cells, r.value) == View(levels, cells, l, key)
      ensures r.Some? && r.value.Mutable? ==> r.value.addr < |cells|
      ensures readonly ==> levels == old(levels) && cells == old(cells)
      ensures r.Some? && r.value.Mutable? && !readonly ==> Holds(levels, l, r.value.addr)
    {
      var nkey := key + MUTABLE;
      OnlyUnderSelf(levels, cells, l);
      AttrIsTidy(levels, cells, l, nkey);
      r := Attr(levels, l, nkey);
      if nkey in levels[l].attrs || r.None? || readonly {
        return;
      }
      ghost var ls0, cells0 := levels, cells;
      if r.value.Mutable? {
        cells := cells + [cells[r.value.addr]];
        r := Some(Mutable(|cells| - 1));
      }
      CopyKeeps(ls0, cells0, l, key, r.value, cells);
      SuffixInjective(key, key);
      OtherKeysKept(ls0, cells, l, nkey, r.value, key);
      hide Forest, OnlyUnder;
      levels := WithAttr(levels, l, nkey, r.value);
    }

    /** The caller changes in place the mutable value it gets through a level.  No other branch of the
        tree notices exactly if what `cls[key]` handed out was the level's own. */
    method Write(l: nat, key: string, contents: seq<string>)
      requires Valid() && l < |levels|
      modifies this
      ensures Valid() && |levels| == |old(levels)|
      ensures View(levels, cells, l, key) ==
        if View(old(levels), old(cells), l, key).Items? then Items(contents) else View(old(levels), old(cells), l, key)
      ensures HandsOutOwn(old(levels), l, key) ==> OnlyUnder(old(levels), old(cells), levels, cells, l)
      ensures View(old(levels), old(cells), l, key) != View(levels, cells, l, key) ==>
        (HandsOutOwn(old(levels), l, key) <==> OthersSee(old(levels), old(cells), levels, cells, l))
    {
      ghost var ls0, cells0 := levels, cells;
      var r := GetItem(l, key, false);
      OnlyUnderSelf(ls0, cells0, l);
      if r.Some? && r.value.Mutable? {
        var ls1, cells1 := levels, cells;
        WriteSeen(ls0, cells0, ls1, cells1, l, key, r.value.addr, contents);
        hide Forest, OnlyUnder, Under, OthersSee;
        cells := cells[r.value.addr := contents];
      }
    }

    /** The caller changes in place an object that it was handed earlier, whatever has been done since. */
    method WriteObject(ghost top: nat, a: nat, contents: seq<string>)
      requires Valid() && top < |levels| && a < |cells| && Private(levels, top, a)
      modifies `cells
      ensures Valid() && cells == old(cells)[a := contents]
      ensures OnlyUnder(levels, old(cells), levels, cells, top)
    {
      cells := cells[a := contents];
    }

    /** One operation on one level, with any key that does not end in the suffix.  The mutable object that
        the caller comes to have, if any, is the level's own. */
    method Step(l: nat) returns (handed: Option<nat>)
      requires Valid() && l < |levels|
      modifies this
      ensures Valid() && |levels| >= |old(levels)| && OnlyUnder(old(levels), old(cells), levels, cells, l)
      ensures forall m: nat :: |old(levels)| <= m < |levels| ==> Under(levels, l, m)
      ensures handed.Some? ==> handed.value < |cells| && Holds(levels, l, handed.value)
    {
      handed := None;
      OnlyUnderSelf(levels, cells, l);
      var key: string, text: string, contents: seq<string>, op: int := *, *, *, *;
      if Suffixed(key) {
        return;
      }
      OrdinaryKeysHandOutOwn(levels, cells, l, key);
      UnderSelf(levels, cells, l);
      hide Forest, OnlyUnder, OthersSee;
      if op == 0 {
        ghost var was := levels;
        var child := Cow(Some(l));
        UnderKept(was, levels, l, l);
      } else if op == 1 {
        SetItem(l, key, Plain(text));
      } else if op == 2 {
        var a := SetNew(l, key, contents);
        handed := Some(a);
      } else if op == 3 {
        DelItem(l, key);
      } else if op == 4 {
        var ok := RevertItem(l, key);
      } else if op == 5 {
        var readonly: bool := *;
        var r := GetItem(l, key, readonly);
        if !readonly && r.Some? && r.value.Mutable? {
          handed := Some(r.value.addr);
        }
      } else {
        Write(l, key, contents);
      }
    }

    /** `cls[key] = value` with a mutable value that the caller has just made. */
    method SetNew(l: nat, key: string, contents: seq<string>) returns (a: nat)
      requires Valid() && l < |levels|
      modifies this
      ensures a == |old(cells)| && cells == old(cells) + [contents]
      ensures levels == WithAttr(old(levels), l, key + MUTABLE, Mutable(a)) && Holds(levels, l, a)
      ensures Valid() && |levels| == |old(levels)| && OnlyUnder(old(levels), old(cells), levels, cells, l)
      ensures Attr(old(levels), l, key).None? ==> View(levels, cells, l, key) == Items(contents)
    {
      ghost var ls0, cells0 := levels, cells;
      hide Forest, OnlyUnder, Under, OthersSee;
      a := NewCell(contents);
      UnderSelf(ls0, cells, l);
      SetItem(l, key, Mutable(a));
      assert key + MUTABLE in levels[l].attrs;
      OnlyUnderThen(ls0, cells0, ls0, cells, levels, cells, l, l);
    }

    /** Any run of operations on a level and the levels made from it, in any order and with any keys
        that do not end in the suffix, mixed with changes to any objects that came out of it before, goes
        unnoticed by every level that existed before and was not made from `top`: its ancestors, its
        siblings and their descendants. */
    method Run(top: nat, steps: nat)
      requires Valid() && top < |levels|
      modifies this
      ensures Valid() && |levels| >= |old(levels)|
      ensures OthersSee(old(levels), old(cells), levels, cells, top)
    {
      ghost var ls0, cells0 := levels, cells;
      OnlyUnderSelf(ls0, cells0, top);
      var handed: set<nat> := {};
      var n := 0;
      while n < steps
        invariant Valid() && |levels| >= |ls0| && OnlyUnder(ls0, cells0, levels, cells, top)
        invariant forall a :: a in handed ==> a < |cells| && Private(levels, top, a)
      {
        hide Forest, OnlyUnder, Under, OthersSee, Private;
        UnderSelf(levels, cells, top);
        ghost var ls1, cells1 := levels, cells;
        var again: bool := *;
        if again && handed != {} {
          var a :| a in handed;
          var contents: seq<string> := *;
          WriteObject(top, a, contents);
          OnlyUnderThen(ls0, cells0, ls1, cells1, levels, cells, top, top);
        } else {
          var l: nat :| l < |levels| && Under(levels, top, l);
          var got := Step(l);
          OnlyUnderThen(ls0, cells0, ls1, cells1, levels, cells, top, l);
          AllPrivateKept(ls1, cells1, levels, cells, top, l, handed);
          if got.Some? {
            HeldIsPrivate(ls1, levels, cells, top, l, got.value);
            handed := handed + {got.value};
          }
        }
        n := n + 1;
      }
      AllIsolated(ls0, cells0, levels, cells, top);
    }

    /** With a suffixed key an object of the parent is handed out, and changing it is seen there. */
    method SuffixLeaks() returns (parent: nat, child: nat)
      requires Valid()
      modifies this
      ensures Valid() && parent < |levels| && child < |levels| && !Under(levels, child, parent)
      ensures Suffixed("k" + MUTABLE) && !HandsOutOwn(levels, child, "k" + MUTABLE)
      ensures View(levels, cells, parent, "k") == Items(["written through the child"])
    {
      parent := Cow(None);
      ghost var empty := levels;
      var a := SetNew(parent, "k", ["set in the parent"]);
      SuffixInjective("k", "k");
      assert "k" !in levels[parent].attrs && levels[parent].attrs["k" + MUTABLE] == Mutable(a);
      child := Cow(Some(parent));
      assert Attr(levels, child, "k" + MUTABLE) == Some(Mutable(a));
      var r := GetItem(child, "k" + MUTABLE, false);
      assert r == Some(Mutable(a));
      cells := cells[a := ["written through the child"]];
      if Under(levels, child, parent) {
        UnderLater(levels, child, parent);
      }
    }
  }

  /** No level that was not made from `top` holds the object. */
  ghost predicate Private(ls: seq<Level>, top: nat, a: nat)
    requires Linked(ls)
  {
    forall m: nat :: m < |ls| && !Under(ls, top, m) ==> !Holds(ls, m, a)
  }

  /** It stays so: levels that were not made from `top` are left alone, and new ones are made from it. */
  lemma PrivateKept(ls: seq<Level>, cells: seq<seq<string>>, ls': seq<Level>, cells': seq<seq<string>>,
                    top: nat, l: nat, a: nat)
    requires Linked(ls') && OnlyUnder(ls, cells, ls', cells', l) && Private(ls, top, a)
    requires l < |ls| && Under(ls, top, l) && forall m: nat :: |ls| <= m < |ls'| ==> Under(ls', l, m)
    ensures Private(ls', top, a)
  {
    UnderKept(ls, ls', top, l);
    forall m: nat | m < |ls'| && !Under(ls', top, m) ensures !Holds(ls', m, a) {
      if m < |ls| {
        UnderKept(ls, ls', top, m);
        if Under(ls, l, m) {
          UnderTransitive(ls, top, l, m);
        }
        assert ls'[m].attrs == ls[m].attrs;
        assert !Holds(ls, m, a);
      } else {
        UnderTransitive(ls', top, l, m);
      }
    }
  }

  lemma AllPrivateKept(ls: seq<Level>, cells: seq<seq<string>>, ls': seq<Level>, cells': seq<seq<string>>,
                       top: nat, l: nat, handed: set<nat>)
    requires Linked(ls) && Linked(ls') && OnlyUnder(ls, cells, ls', cells', l) && l < |ls| && Under(ls, top, l)
    requires forall m: nat :: |ls| <= m < |ls'| ==> Under(ls', l, m)
    requires forall a :: a in handed ==> a < |cells| && Private(ls, top, a)
    ensures forall a :: a in handed ==> a < |cells'| && Private(ls', top, a)
  {
    forall a | a in handed ensures a < |cells'| && Private(ls', top, a) {
      PrivateKept(ls, cells, ls', cells', top, l, a);
    }
  }

  lemma HeldIsPrivate(ls: seq<Level>, ls': seq<Level>, cells: seq<seq<string>>, top: nat, l: nat, a: nat)
    requires Linked(ls) && Forest(ls', cells) && l < |ls| <= |ls'| && Under(ls, top, l) && Holds(ls', l, a)
    requires forall m :: 0 <= m < |ls| ==> ls'[m].parent == ls[m].parent
    ensures Private(ls', top, a)
  {
    UnderKept(ls, ls', top, l);
  }

  lemma UnderSelf(ls: seq<Level>, cells: seq<seq<string>>, l: nat)
    requires Forest(ls, cells) && l < |ls|
    ensures Linked(ls) && Under(ls, l, l)
  {
  }

  lemma {:induction false} UnderLater(ls: seq<Level>, top: nat, l: nat)
    requires Linked(ls) && l < |ls| && Under(ls, top, l)
    ensures top <= l
    decreases l
  {
    if l != top {
      UnderLater(ls, top, ls[l].parent.value);
    }
  }

  /** Who notices a change to the object that a read through `l` handed out. */
  lemma WriteSeen(ls: seq<Level>, cells: seq<seq<string>>, ls': seq<Level>, cells': seq<seq<string>>,
                  l: nat, key: string, a: nat, contents: seq<string>)
    requires Forest(ls, cells) && Forest(ls', cells') && OnlyUnder(ls, cells, ls', cells', l)
    requires l < |ls| == |ls'| && a < |cells'| && Found(ls', l, key) == Some(Mutable(a))
    requires View(ls', cells', l, key) == View(ls, cells, l, key)
    requires Attr(ls, l, key).Some? ==> ls' == ls && cells' == cells
    requires Holds(ls', l, a) <==> HandsOutOwn(ls, l, key)
    ensures var cells2 := cells'[a := contents];
            && Forest(ls', cells2)
            && View(ls', cells2, l, key) == Items(contents)
            && (HandsOutOwn(ls, l, key) ==> OnlyUnder(ls, cells, ls', cells2, l))
            && (HandsOutOwn(ls, l, key) ==> OthersSee(ls, cells, ls', cells2, l))
            && (View(ls, cells, l, key) != Items(contents) && !HandsOutOwn(ls, l, key) ==>
                  !OthersSee(ls, cells, ls', cells2, l))
  {
    var cells2 := cells'[a := contents];
    if HandsOutOwn(ls, l, key) {
      assert OnlyUnder(ls', cells', ls', cells2, l) by {
        assert Under(ls', l, l);
        hide Under;
      }
      assert Under(ls', l, l);
      OnlyUnderThen(ls, cells, ls', cells', ls', cells2, l, l);
      AllIsolated(ls, cells, ls', cells2, l);
    } else {
      var m := AttrHolder(ls, l, key);
      if Under(ls, l, m) {
        UnderLater(ls, l, m);
      }
      assert View(ls, cells2, m, key) == Items(contents);
      assert View(ls, cells, m, key) == View(ls, cells, l, key);
    }
  }

  /** The name that `__revertitem__` deletes. */
  function RevertedName(ls: seq<Level>, l: nat, key: string): string
    requires l < |ls|
  {
    if key in ls[l].attrs then key else key + MUTABLE
  }

  function Without(ls: seq<Level>, l: nat, name: string): seq<Level>
    requires l < |ls|
  {
    ls[l := ls[l].(attrs := ls[l].attrs - {name})]
  }

  lemma WithoutOnlyUnder(ls: seq<Level>, cells: seq<seq<string>>, l: nat, name: string)
    requires Forest(ls, cells) && l < |ls|
    ensures Forest(Without(ls, l, name), cells) && OnlyUnder(ls, cells, Without(ls, l, name), cells, l)
    ensures name !in ls[l].attrs ==> Without(ls, l, name) == ls
  {
    var ls' := Without(ls, l, name);
    if name !in ls[l].attrs {
      assert ls[l].attrs - {name} == ls[l].attrs;
    }
    assert Under(ls, l, l);
    forall m: nat, a: nat | Holds(ls', m, a) ensures Holds(ls, m, a) {
      var n :| n in ls'[m].attrs && ls'[m].attrs[n] == Mutable(a);
      assert n in ls[m].attrs && ls[m].attrs[n] == Mutable(a);
    }
    hide Holds, Under;
  }

  /** Reverting undoes setting an item that the level did not hold. */
  lemma RevertUndoesSet(ls: seq<Level>, l: nat, key: string, value: Value)
    requires l < |ls| && key !in ls[l].attrs && key + MUTABLE !in ls[l].attrs
    ensures var ls' := WithAttr(ls, l, StoredAs(key, value), value);
            Without(ls', l, RevertedName(ls', l, key)) == ls
  {
    SuffixInjective(key, key);
    var name := StoredAs(key, value);
    var ls' := WithAttr(ls, l, name, value);
    assert ls'[l].attrs - {name} == ls[l].attrs;
  }

  lemma OnlyUnderSelf(ls: seq<Level>, cells: seq<seq<string>>, l: nat)
    requires Forest(ls, cells)
    ensures OnlyUnder(ls, cells, ls, cells, l)
  {
  }

  /** Copying an inherited mutable item into a level changes nothing for any reader. */
  lemma CopyKeeps(ls: seq<Level>, cells: seq<seq<string>>, l: nat, key: string, v: Value, cells': seq<seq<string>>)
    requires Forest(ls, cells) && l < |ls| && Attr(ls, l, key + MUTABLE).Some? && Attr(ls, l, key).None?
    requires var was := Attr(ls, l, key + MUTABLE).value;
             if was.Mutable? then was.addr < |cells| && v == Mutable(|cells|) && cells' == cells + [cells[was.addr]]
             else v == was && cells' == cells
    ensures var ls' := WithAttr(ls, l, key + MUTABLE, v);
            Forest(ls', cells') && OnlyUnder(ls, cells, ls', cells', l)
    ensures v.Mutable? ==> Holds(WithAttr(ls, l, key + MUTABLE, v), l, v.addr)
    ensures Content(cells', v) == View(ls, cells, l, key)
    ensures forall m: nat, k :: m < |ls| ==>
      View(WithAttr(ls, l, key + MUTABLE, v), cells', m, k) == View(ls, cells, m, k)
  {
    var name := key + MUTABLE;
    WithSuffix(key);
    MoreCells(ls, cells, cells');
    WithAttrForest(ls, cells', l, name, v);
    WithAttrOnlyUnder(ls, cells, l, name, v);
    forall m: nat, k | m < |ls| ensures View(WithAttr(ls, l, name, v), cells', m, k) == View(ls, cells, m, k) {
      CopyKeepsRaw(ls, cells, l, name, v, cells', m, k);
      CopyKeepsRaw(ls, cells, l, name, v, cells', m, k + MUTABLE);
    }
    assert name in WithAttr(ls, l, name, v)[l].attrs;
    hide Forest, Under;
  }

  lemma WithSuffix(key: string)
    ensures Suffixed(key + MUTABLE)
  {
  }

  lemma MoreCells(ls: seq<Level>, cells: seq<seq<string>>, cells': seq<seq<string>>)
    requires Forest(ls, cells) && cells <= cells'
    ensures Forest(ls, cells')
    ensures forall m: nat, a: nat :: a >= |cells| ==> !Holds(ls, m, a)
  {
    forall m: nat, a: nat | Holds(ls, m, a) ensures a < |cells| {
      var n :| n in ls[m].attrs && ls[m].attrs[n] == Mutable(a);
      assert Stored(n, ls[m].attrs[n], |cells|);
    }
  }

  lemma NewLevel(ls: seq<Level>, cells: seq<seq<string>>, parent: Option<nat>)
    requires Forest(ls, cells) && (parent.Some? ==> parent.value < |ls|)
    ensures var ls' := ls + [Level(parent, map[])];
            Forest(ls', cells) && (forall t: nat :: OnlyUnder(ls, cells, ls', cells, t))
            && (parent.Some? ==> forall k :: View(ls', cells, |ls|, k) == View(ls, cells, parent.value, k))
  {
    var ls' := ls + [Level(parent, map[])];
    forall m: nat, a: nat | Holds(ls', m, a) ensures Holds(ls, m, a) {
      var n :| n in ls'[m].attrs && ls'[m].attrs[n] == Mutable(a);
    }
    if parent.Some? {
      forall k ensures Attr(ls', parent.value, k) == Attr(ls, parent.value, k) {
        AttrBefore(ls, ls', parent.value, k);
      }
    }
  }
}
