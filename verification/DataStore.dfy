/** The layered datastore of `data_smart.py`.  A store's variables live in a chain of dictionary objects
    that copies share with the stores they were made from, so dictionaries, per-variable dictionaries,
    lists and sets are objects with identities: indices into one heap. */
module DataStore {
  import opened Wrappers
  import opened VarNames
  import Overrides

  /** What `X_append` and the like add to `X`: any value, and the overrides under which it applies. */
  type Item = (Deep, string)

  /** A flag's value: immutable text, or a reference to a list of items or to a set of names. */
  datatype Flag = Text(text: string) | List(list: nat) | Names(names: nat)

  /** A store's own dictionary: its own variables, and under `_data` the dictionary it was copied from. */
  datatype Dict = Dict(data: Option<nat>, vars: map<string, nat>)

  /** A `DataSmart`: its dictionary, and for a variable the list of its recorded override variables. */
  datatype Store = Store(dict: nat, overridedata: map<string, nat>)

  datatype Heap = Heap(dicts: seq<Dict>, inner: seq<map<string, Flag>>, lists: seq<seq<Pair>>,
                       items: seq<seq<Item>>, sets: seq<set<string>>, stores: seq<Store>)

  const EXPORTLIST := "__exportlist"

  // ---- The shape of the heap -------------------------------------------------------------------

  predicate Linked(dicts: seq<Dict>) {
    forall d :: 0 <= d < |dicts| && dicts[d].data.Some? ==> dicts[d].data.value < d
  }

  predicate HoldsAt(h: Heap, d: nat, v: string, a: nat) {
    d < |h.dicts| && v in h.dicts[d].vars && h.dicts[d].vars[v] == a
  }

  /** Dictionary `d` holds the per-variable dictionary `a` itself. */
  ghost predicate HoldsInner(h: Heap, d: nat, a: nat) {
    exists v :: HoldsAt(h, d, v, a)
  }

  /** The set object `x` is the value of a flag of some variable, which is `__exportlist` or is not. */
  ghost predicate RefersToSet(h: Heap, exported: bool, x: nat) {
    exists d: nat, v, f :: RefersAt(h, d, v, f, exported, x)
  }

  ghost predicate RefersAt(h: Heap, d: nat, v: string, f: string, exported: bool, x: nat) {
    && d < |h.dicts|
    && v in h.dicts[d].vars
    && h.dicts[d].vars[v] < |h.inner|
    && f in h.inner[h.dicts[d].vars[v]]
    && h.inner[h.dicts[d].vars[v]][f] == Names(x)
    && (v == EXPORTLIST <==> exported)
  }

  predicate FlagOk(h: Heap, f: Flag) {
    match f
    case Text(t) => true
    case List(l) => l < |h.items|
    case Names(x) => x < |h.sets|
  }

  ghost predicate Addressed(h: Heap) {
    && Linked(h.dicts)
    && (forall d: nat, v :: d < |h.dicts| && v in h.dicts[d].vars ==> h.dicts[d].vars[v] < |h.inner|)
    && (forall a: nat, f :: a < |h.inner| && f in h.inner[a] ==> FlagOk(h, h.inner[a][f]))
    && (forall s :: 0 <= s < |h.stores| ==> h.stores[s].dict < |h.dicts|)
    && (forall s: nat, k :: s < |h.stores| && k in h.stores[s].overridedata ==> h.stores[s].overridedata[k] < |h.lists|)
  }

  /** No store has one list object under two names. */
  predicate OwnLists(stores: seq<Store>) {
    forall s, v, w :: 0 <= s < |stores| && v in stores[s].overridedata && w in stores[s].overridedata && v != w ==>
      stores[s].overridedata[v] != stores[s].overridedata[w]
  }

  ghost predicate Ok(h: Heap) {
    && Addressed(h) && OwnLists(h.stores)
    && (forall s, t :: 0 <= s < t < |h.stores| ==> h.stores[s].dict != h.stores[t].dict)
    && (forall d: nat, e: nat, v, w, a: nat :: HoldsAt(h, d, v, a) && HoldsAt(h, e, w, a) ==> d == e && v == w)
    && (forall x: nat :: !(RefersToSet(h, true, x) && RefersToSet(h, false, x)))
  }

  // ---- What a store returns --------------------------------------------------------------------

  /** `_findVar`: the nearest per-variable dictionary. */
  function FindVar(h: Heap, d: nat, v: string): (r: Option<nat>)
    requires Linked(h.dicts) && d < |h.dicts|
    decreases d
  {
    if v in h.dicts[d].vars then Some(h.dicts[d].vars[v])
    else match h.dicts[d].data
      case None => None
      case Some(e) => FindVar(h, e, v)
  }

  datatype Deep = DText(text: string) | DList(items: seq<Item>) | DNames(names: set<string>)

  function Contents(h: Heap, f: Flag): Deep
    requires FlagOk(h, f)
  {
    match f
    case Text(t) => DText(t)
    case List(l) => DList(h.items[l])
    case Names(x) => DNames(h.sets[x])
  }

  function Flags(h: Heap, a: nat): map<string, Deep>
    requires a < |h.inner| && forall f :: f in h.inner[a] ==> FlagOk(h, h.inner[a][f])
  {
    map f | f in h.inner[a] :: Contents(h, h.inner[a][f])
  }

  /** Every flag of a variable, `_content` among them, with the contents of its value. */
  ghost function View(h: Heap, s: nat, v: string): Option<map<string, Deep>>
    requires Addressed(h) && s < |h.stores|
  {
    match FindVar(h, h.stores[s].dict, v)
    case None => None
    case Some(a) => FoundAddressed(h, h.stores[s].dict, v); Some(Flags(h, a))
  }

  /** The flags under which a store finds a variable, none if it does not find it. */
  ghost function Found(h: Heap, s: nat, v: string): map<string, Flag>
    requires Addressed(h) && s < |h.stores|
  {
    match FindVar(h, h.stores[s].dict, v)
    case None => map[]
    case Some(a) => FoundAddressed(h, h.stores[s].dict, v); h.inner[a]
  }

  /** The override variables recorded for a variable. */
  function Recorded(h: Heap, s: nat, v: string): Option<seq<Pair>> {
    if s < |h.stores| && v in h.stores[s].overridedata && h.stores[s].overridedata[v] < |h.lists|
    then Some(h.lists[h.stores[s].overridedata[v]]) else None
  }

  lemma {:induction false} FoundAddressed(h: Heap, d: nat, v: string)
    requires Addressed(h) && d < |h.dicts|
    ensures FindVar(h, d, v).Some? ==> FindVar(h, d, v).value < |h.inner|
    decreases d
  {
    if v !in h.dicts[d].vars && h.dicts[d].data.Some? {
      FoundAddressed(h, h.dicts[d].data.value, v);
    }
  }

  // ---- Isolation -----------------------------------------------------------------------------------

  /** `d` is `top` or inherits from it. */
  predicate Under(dicts: seq<Dict>, top: nat, d: nat)
    requires Linked(dicts) && d < |dicts|
    decreases d
  {
    d == top || (dicts[d].data.Some? && Under(dicts, top, dicts[d].data.value))
  }

  /** From `h` to `k` only store `s` has been changed: its own dictionary, the per-variable dictionaries
      that it holds itself, its table of override variables, and sets of exported names.  No list that
      existed has been changed. */
  ghost predicate OnlyOwn(h: Heap, k: Heap, s: nat) {
    && Addressed(h)
    && s < |h.stores| == |k.stores|
    && |h.dicts| == |k.dicts|
    && |h.inner| <= |k.inner|
    && h.lists <= k.lists
    && h.items <= k.items
    && |h.sets| <= |k.sets|
    && (forall d :: 0 <= d < |h.dicts| ==> k.dicts[d].data == h.dicts[d].data)
    && (forall d :: 0 <= d < |h.dicts| && d != h.stores[s].dict ==> k.dicts[d] == h.dicts[d])
    && (forall a: nat :: a < |h.inner| && !HoldsInner(h, h.stores[s].dict, a) ==> k.inner[a] == h.inner[a])
    && (forall t :: 0 <= t < |h.stores| && t != s ==> k.stores[t] == h.stores[t])
    && k.stores[s].dict == h.stores[s].dict
    && (forall v :: v in k.stores[s].overridedata ==> FreshOrSame(h, k, s, v))
    && (forall a: nat :: a < |h.inner| && HoldsInner(k, h.stores[s].dict, a) ==> HoldsInner(h, h.stores[s].dict, a))
    && (forall x: nat :: x < |h.sets| && !RefersToSet(h, true, x) ==> k.sets[x] == h.sets[x])
    && (forall x: nat :: x < |h.sets| && RefersToSet(k, true, x) ==> RefersToSet(h, true, x))
  }

  ghost predicate FreshOrSame(h: Heap, k: Heap, s: nat, v: string)
    requires s < |h.stores| == |k.stores| && v in k.stores[s].overridedata
  {
    k.stores[s].overridedata[v] >= |h.lists| ||
    (v in h.stores[s].overridedata && k.stores[s].overridedata[v] == h.stores[s].overridedata[v])
  }

  /** The dictionary in which a variable is found. */
  lemma {:induction false} Finder(h: Heap, d: nat, v: string) returns (e: nat)
    requires Linked(h.dicts) && d < |h.dicts| && FindVar(h, d, v).Some?
    ensures e < |h.dicts| && v in h.dicts[e].vars && h.dicts[e].vars[v] == FindVar(h, d, v).value
    ensures forall top: nat :: !Under(h.dicts, top, d) ==> !Under(h.dicts, top, e)
    decreases d
  {
    if v in h.dicts[d].vars {
      e := d;
    } else {
      e := Finder(h, h.dicts[d].data.value, v);
    }
  }

  lemma {:induction false} FindIsolated(h: Heap, k: Heap, s: nat, d: nat, v: string)
    requires Ok(h) && Addressed(k) && OnlyOwn(h, k, s) && d < |h.dicts| && !Under(h.dicts, h.stores[s].dict, d)
    ensures FindVar(k, d, v) == FindVar(h, d, v)
    decreases d
  {
    if v !in h.dicts[d].vars && h.dicts[d].data.Some? {
      FindIsolated(h, k, s, h.dicts[d].data.value, v);
    }
  }

  /** Neither the variables nor the recorded overrides of `t` are changed, save for `__exportlist`. */
  ghost predicate Unaffected(h: Heap, k: Heap, t: nat)
    requires Addressed(h) && Addressed(k) && t < |h.stores| <= |k.stores|
  {
    && (forall v :: v != EXPORTLIST ==> View(k, t, v) == View(h, t, v))
    && (forall v :: Recorded(k, t, v) == Recorded(h, t, v))
  }

  lemma FlagsIsolated(h: Heap, k: Heap, s: nat, e: nat, v: string)
    requires Ok(h) && Addressed(k) && OnlyOwn(h, k, s) && e < |h.dicts| && e != h.stores[s].dict
    requires v in h.dicts[e].vars
    ensures k.inner[h.dicts[e].vars[v]] == h.inner[h.dicts[e].vars[v]]
    ensures v != EXPORTLIST || h.sets <= k.sets ==> Flags(k, h.dicts[e].vars[v]) == Flags(h, h.dicts[e].vars[v])
  {
    var a := h.dicts[e].vars[v];
    assert HoldsAt(h, e, v, a);
    assert k.inner[a] == h.inner[a];
    if v == EXPORTLIST && !(h.sets <= k.sets) {
      return;
    }
    forall f | f in h.inner[a] ensures Contents(k, h.inner[a][f]) == Contents(h, h.inner[a][f]) {
      var g := h.inner[a][f];
      assert FlagOk(h, g);
      if g.Names? && v != EXPORTLIST {
        assert RefersAt(h, e, v, f, false, g.names);
        assert RefersToSet(h, false, g.names);
      }
    }
  }

  /** A store that does not inherit from `s`. */
  predicate Outside(h: Heap, s: nat, t: nat) {
    && s < |h.stores| && t < |h.stores| && Linked(h.dicts)
    && h.stores[s].dict < |h.dicts| && h.stores[t].dict < |h.dicts|
    && !Under(h.dicts, h.stores[s].dict, h.stores[t].dict)
  }

  /** It finds the same flags, and they show what they did, for `__exportlist` if no set has been changed. */
  lemma ShownIsolated(h: Heap, k: Heap, s: nat, t: nat, v: string)
    requires Ok(h) && Addressed(k) && OnlyOwn(h, k, s) && Outside(h, s, t)
    ensures Found(k, t, v) == Found(h, t, v)
    ensures v != EXPORTLIST || h.sets <= k.sets ==> View(k, t, v) == View(h, t, v)
  {
    var d := h.stores[t].dict;
    FindIsolated(h, k, s, d, v);
    if FindVar(h, d, v).Some? {
      var e := Finder(h, d, v);
      FlagsIsolated(h, k, s, e, v);
    }
    hide Under, RefersToSet, HoldsInner, FlagOk;
  }

  /** A store that does not inherit from `s` returns what it did before. */
  lemma Isolated(h: Heap, k: Heap, s: nat, t: nat)
    requires Ok(h) && Addressed(k) && OnlyOwn(h, k, s) && Outside(h, s, t)
    ensures Unaffected(h, k, t)
  {
    forall v | v != EXPORTLIST ensures View(k, t, v) == View(h, t, v) {
      ShownIsolated(h, k, s, t, v);
    }
    hide Under, RefersToSet, HoldsInner, FlagOk, View;
  }

  lemma OnlyOwnSelf(h: Heap, s: nat)
    requires Ok(h) && s < |h.stores|
    ensures OnlyOwn(h, h, s)
  {
    hide RefersToSet, HoldsInner, FlagOk;
  }

  lemma OnlyOwnThen(h: Heap, k: Heap, m: Heap, s: nat)
    requires OnlyOwn(h, k, s) && OnlyOwn(k, m, s)
    ensures OnlyOwn(h, m, s)
  {
    hide RefersToSet, HoldsInner, FlagOk;
    forall a: nat | a < |h.inner| && !HoldsInner(h, h.stores[s].dict, a) ensures m.inner[a] == h.inner[a] {
      assert !HoldsInner(k, h.stores[s].dict, a);
    }
    forall v | v in m.stores[s].overridedata ensures FreshOrSame(h, m, s, v) {
      assert FreshOrSame(k, m, s, v);
      assert v in k.stores[s].overridedata ==> FreshOrSame(h, k, s, v);
    }
    forall x: nat | x < |h.sets| && !RefersToSet(h, true, x) ensures m.sets[x] == h.sets[x] {
      assert !RefersToSet(k, true, x);
    }
  }

  // ---- The steps that operations are made of ----------------------------------------------------

  function Own(h: Heap, s: nat): nat
    requires s < |h.stores|
  {
    h.stores[s].dict
  }

  /** `self.dict[var] = m`, a new object. */
  function HoldNew(h: Heap, s: nat, v: string, m: map<string, Flag>): Heap
    requires s < |h.stores| && Own(h, s) < |h.dicts|
  {
    var d := Own(h, s);
    h.(inner := h.inner + [m], dicts := h.dicts[d := h.dicts[d].(vars := h.dicts[d].vars[v := |h.inner|])])
  }

  lemma HoldNewAddressed(h: Heap, s: nat, v: string, m: map<string, Flag>)
    requires Ok(h) && s < |h.stores| && forall f :: f in m ==> FlagOk(h, m[f])
    ensures Addressed(HoldNew(h, s, v, m))
  {
    var k := HoldNew(h, s, v, m);
    forall a: nat, f | a < |k.inner| && f in k.inner[a] ensures FlagOk(k, k.inner[a][f]) {
      assert a < |h.inner| ==> FlagOk(h, h.inner[a][f]);
    }
  }

  lemma HoldNewHolds(h: Heap, s: nat, v: string, m: map<string, Flag>, d: nat, w: string, a: nat)
    requires Ok(h) && s < |h.stores| && HoldsAt(HoldNew(h, s, v, m), d, w, a)
    ensures (HoldsAt(h, d, w, a) && a < |h.inner|) || (d == Own(h, s) && w == v && a == |h.inner|)
  {
  }

  lemma HoldNewRefers(h: Heap, s: nat, v: string, m: map<string, Flag>, exported: bool, x: nat)
    requires Ok(h) && s < |h.stores| && RefersToSet(HoldNew(h, s, v, m), exported, x)
    requires forall f :: f in m && m[f].Names? ==> RefersToSet(h, v == EXPORTLIST, m[f].names)
    ensures RefersToSet(h, exported, x)
  {
    var k := HoldNew(h, s, v, m);
    var d: nat, w, f :| RefersAt(k, d, w, f, exported, x);
    if !(d == Own(h, s) && w == v) {
      assert w in h.dicts[d].vars && h.dicts[d].vars[w] == k.dicts[d].vars[w] < |h.inner|;
      assert RefersAt(h, d, w, f, exported, x);
    }
  }

  lemma HoldNewKeeps(h: Heap, s: nat, v: string, m: map<string, Flag>)
    requires Ok(h) && s < |h.stores| && forall f :: f in m ==> FlagOk(h, m[f])
    requires forall f :: f in m && m[f].Names? ==> RefersToSet(h, v == EXPORTLIST, m[f].names)
    ensures Ok(HoldNew(h, s, v, m)) && OnlyOwn(h, HoldNew(h, s, v, m), s)
  {
    var k := HoldNew(h, s, v, m);
    HoldNewAddressed(h, s, v, m);
    forall d: nat, w, a: nat | HoldsAt(k, d, w, a)
      ensures (HoldsAt(h, d, w, a) && a < |h.inner|) || (d == Own(h, s) && w == v && a == |h.inner|)
    {
      HoldNewHolds(h, s, v, m, d, w, a);
    }
    forall e: bool, x: nat | RefersToSet(k, e, x) ensures RefersToSet(h, e, x) {
      HoldNewRefers(h, s, v, m, e, x);
    }
    hide HoldsAt, RefersToSet, FlagOk;
  }

  /** Stores a value in a flag of a per-variable dictionary; lists and sets are new objects. */
  function PutFlag(h: Heap, a: nat, f: string, value: Deep): Heap
    requires a < |h.inner|
  {
    match value
    case DText(t) => h.(inner := h.inner[a := h.inner[a][f := Text(t)]])
    case DList(l) => h.(inner := h.inner[a := h.inner[a][f := List(|h.items|)]], items := h.items + [l])
    case DNames(n) => h.(inner := h.inner[a := h.inner[a][f := Names(|h.sets|)]], sets := h.sets + [n])
  }

  function DropFlag(h: Heap, a: nat, f: string): Heap
    requires a < |h.inner|
  {
    h.(inner := h.inner[a := h.inner[a] - {f}])
  }

  /** `k` differs from `h` only in what one per-variable dictionary holds, and by new lists and sets. */
  ghost predicate InnerChanged(h: Heap, k: Heap, a: nat) {
    && a < |h.inner|
    && k.dicts == h.dicts && k.stores == h.stores
    && h.lists == k.lists && h.items <= k.items && h.sets <= k.sets
    && |k.inner| == |h.inner| && (forall b :: 0 <= b < |h.inner| && b != a ==> k.inner[b] == h.inner[b])
    && (forall f :: f in k.inner[a] ==> FlagOk(k, k.inner[a][f]))
    && (forall f :: f in k.inner[a] && k.inner[a][f].Names? ==>
          k.inner[a][f].names >= |h.sets| || (f in h.inner[a] && h.inner[a][f] == k.inner[a][f]))
  }

  lemma InnerChangedRefers(h: Heap, k: Heap, d: nat, v: string, a: nat, exported: bool, x: nat)
    requires Ok(h) && InnerChanged(h, k, a) && HoldsAt(h, d, v, a) && RefersToSet(k, exported, x)
    ensures RefersToSet(h, exported, x) || (x >= |h.sets| && exported == (v == EXPORTLIST))
  {
    var e: nat, w, f :| RefersAt(k, e, w, f, exported, x);
    assert HoldsAt(h, e, w, h.dicts[e].vars[w]);
    if h.dicts[e].vars[w] != a || x < |h.sets| {
      assert RefersAt(h, e, w, f, exported, x);
    }
  }

  lemma RefersValid(h: Heap, exported: bool, x: nat)
    requires Ok(h) && RefersToSet(h, exported, x)
    ensures x < |h.sets|
  {
    var e: nat, w, f :| RefersAt(h, e, w, f, exported, x);
    assert FlagOk(h, h.inner[h.dicts[e].vars[w]][f]);
  }

  lemma InnerChangedKeeps(h: Heap, k: Heap, s: nat, v: string, a: nat)
    requires Ok(h) && s < |h.stores| && InnerChanged(h, k, a) && HoldsAt(h, Own(h, s), v, a)
    ensures Ok(k) && OnlyOwn(h, k, s)
  {
    forall e: bool, x: nat | RefersToSet(k, e, x)
      ensures RefersToSet(h, e, x) || (x >= |h.sets| && e == (v == EXPORTLIST))
    {
      InnerChangedRefers(h, k, Own(h, s), v, a, e, x);
    }
    forall e: bool, x: nat | RefersToSet(h, e, x) ensures x < |h.sets| {
      RefersValid(h, e, x);
    }
    forall b: nat, f | b < |k.inner| && f in k.inner[b] ensures FlagOk(k, k.inner[b][f]) {
      if b != a {
        assert FlagOk(h, h.inner[b][f]);
      }
    }
    forall d: nat, w, b: nat ensures HoldsAt(k, d, w, b) <==> HoldsAt(h, d, w, b) {
    }
    assert HoldsInner(h, Own(h, s), a);
    hide HoldsAt, RefersToSet, FlagOk;
  }

  lemma PutFlagChanges(h: Heap, a: nat, f: string, value: Deep)
    requires Addressed(h) && a < |h.inner|
    ensures InnerChanged(h, PutFlag(h, a, f, value), a)
  {
    var k := PutFlag(h, a, f, value);
    forall g | g in k.inner[a] ensures FlagOk(k, k.inner[a][g]) {
      assert g in h.inner[a] ==> FlagOk(h, h.inner[a][g]);
    }
  }

  lemma DropFlagChanges(h: Heap, a: nat, f: string)
    requires Addressed(h) && a < |h.inner|
    ensures InnerChanged(h, DropFlag(h, a, f), a)
  {
    var k := DropFlag(h, a, f);
    forall g | g in k.inner[a] ensures FlagOk(k, k.inner[a][g]) {
      assert FlagOk(h, h.inner[a][g]);
    }
  }

  /** `k` differs from `h` only in lists, sets and tables of override variables. */
  ghost predicate SameDicts(h: Heap, k: Heap) {
    && k.dicts == h.dicts && k.inner == h.inner && k.items == h.items
    && |k.stores| == |h.stores| && forall s :: 0 <= s < |h.stores| ==> k.stores[s].dict == h.stores[s].dict
  }

  /** `k` differs from `h` only in lists and tables of override variables. */
  ghost predicate OnlyRecords(h: Heap, k: Heap) {
    SameDicts(h, k) && k.sets == h.sets
  }

  lemma SameDictsRefer(h: Heap, k: Heap)
    requires SameDicts(h, k)
    ensures forall d: nat, v, a: nat :: HoldsAt(k, d, v, a) <==> HoldsAt(h, d, v, a)
    ensures forall e: bool, x: nat :: RefersToSet(k, e, x) <==> RefersToSet(h, e, x)
  {
    forall e: bool, x: nat ensures RefersToSet(k, e, x) <==> RefersToSet(h, e, x) {
      if RefersToSet(k, e, x) {
        var d: nat, v, f :| RefersAt(k, d, v, f, e, x);
        assert RefersAt(h, d, v, f, e, x);
      }
      if RefersToSet(h, e, x) {
        var d: nat, v, f :| RefersAt(h, d, v, f, e, x);
        assert RefersAt(k, d, v, f, e, x);
      }
    }
  }

  lemma SameDictsAddressed(h: Heap, k: Heap)
    requires Addressed(h) && SameDicts(h, k) && |h.lists| <= |k.lists| && |h.sets| <= |k.sets|
    ensures forall a: nat, f :: a < |k.inner| && f in k.inner[a] ==> FlagOk(k, k.inner[a][f])
  {
    forall a: nat, f | a < |k.inner| && f in k.inner[a] ensures FlagOk(k, k.inner[a][f]) {
      assert FlagOk(h, h.inner[a][f]);
    }
  }

  /** `self.overridedata[v] = l`, a new list. */
  function Record(h: Heap, s: nat, v: string, l: seq<Pair>): Heap
    requires s < |h.stores|
  {
    h.(lists := h.lists + [l],
       stores := h.stores[s := h.stores[s].(overridedata := h.stores[s].overridedata[v := |h.lists|])])
  }

  lemma RecordKeeps(h: Heap, s: nat, v: string, l: seq<Pair>)
    requires Ok(h) && s < |h.stores|
    ensures Ok(Record(h, s, v, l)) && OnlyOwn(h, Record(h, s, v, l), s)
  {
    var k := Record(h, s, v, l);
    SameDictsRefer(h, k);
    SameDictsAddressed(h, k);
    hide HoldsAt, RefersToSet, FlagOk;
  }

  function Forget(h: Heap, s: nat, v: string): Heap
    requires s < |h.stores|
  {
    h.(stores := h.stores[s := h.stores[s].(overridedata := h.stores[s].overridedata - {v})])
  }

  lemma ForgetKeeps(h: Heap, s: nat, v: string)
    requires Ok(h) && s < |h.stores|
    ensures Ok(Forget(h, s, v)) && OnlyOwn(h, Forget(h, s, v), s)
  {
    var k := Forget(h, s, v);
    SameDictsRefer(h, k);
    SameDictsAddressed(h, k);
    hide HoldsAt, RefersToSet, FlagOk;
  }

  /** Appends to a list in place. */
  function Append(h: Heap, l: nat, p: Pair): Heap
    requires l < |h.lists|
  {
    h.(lists := h.lists[l := h.lists[l] + [p]])
  }

  /** That is harmless for a list made since `start`. */
  lemma AppendKeeps(start: Heap, h: Heap, s: nat, l: nat, p: Pair)
    requires Ok(h) && OnlyOwn(start, h, s) && |start.lists| <= l < |h.lists|
    ensures Ok(Append(h, l, p)) && OnlyOwn(start, Append(h, l, p), s)
  {
    var k := Append(h, l, p);
    SameDictsRefer(h, k);
    SameDictsAddressed(h, k);
    assert start.lists <= k.lists;
    forall v | v in k.stores[s].overridedata ensures FreshOrSame(start, k, s, v) {
      assert FreshOrSame(start, h, s, v);
    }
    forall a: nat | HoldsInner(k, start.stores[s].dict, a) ensures HoldsInner(h, start.stores[s].dict, a) {
      var v :| HoldsAt(k, start.stores[s].dict, v, a);
      assert HoldsAt(h, start.stores[s].dict, v, a);
    }
    hide HoldsAt, RefersToSet, FlagOk, HoldsInner;
  }

  /** Adds a name to a set in place. */
  function AddName(h: Heap, x: nat, v: string): Heap
    requires x < |h.sets|
  {
    h.(sets := h.sets[x := h.sets[x] + {v}])
  }

  lemma AddNameKeeps(h: Heap, s: nat, x: nat, v: string)
    requires Ok(h) && s < |h.stores| && x < |h.sets| && RefersToSet(h, true, x)
    ensures Ok(AddName(h, x, v)) && OnlyOwn(h, AddName(h, x, v), s)
  {
    var k := AddName(h, x, v);
    SameDictsRefer(h, k);
    SameDictsAddressed(h, k);
    hide HoldsAt, RefersToSet, FlagOk;
  }

  lemma OkAddressed(h: Heap)
    requires Ok(h)
    ensures Addressed(h)
  {
  }

  lemma GoodAddressed(start: Heap, h: Heap, s: nat)
    requires Good(start, h, s)
    ensures Addressed(h) && s < |h.stores|
  {
  }

  /** The flags of a variable that the store holds itself. */
  function OwnFlags(h: Heap, s: nat, v: string): (r: Option<map<string, Flag>>)
  {
    if s < |h.stores| && Own(h, s) < |h.dicts| && v in h.dicts[Own(h, s)].vars && h.dicts[Own(h, s)].vars[v] < |h.inner|
    then Some(h.inner[h.dicts[Own(h, s)].vars[v]]) else None
  }

  lemma {:induction false} FindOld(h: Heap, k: Heap, d: nat, v: string)
    requires Linked(h.dicts) && Linked(k.dicts) && h.dicts <= k.dicts && d < |h.dicts|
    ensures FindVar(k, d, v) == FindVar(h, d, v)
    decreases d
  {
    if v !in h.dicts[d].vars && h.dicts[d].data.Some? {
      FindOld(h, k, h.dicts[d].data.value, v);
    }
  }

  lemma {:induction false} UnderLater(dicts: seq<Dict>, top: nat, d: nat)
    requires Linked(dicts) && d < |dicts| && Under(dicts, top, d)
    ensures top <= d
    decreases d
  {
    if d != top {
      UnderLater(dicts, top, dicts[d].data.value);
    }
  }

  // ---- Exported names ------------------------------------------------------------------------------

  /** The value of `__exportlist` that a store finds. */
  ghost function ExportRef(h: Heap, s: nat): Option<Flag>
    requires Addressed(h) && s < |h.stores|
  {
    if "_content" in Found(h, s, EXPORTLIST) then Some(Found(h, s, EXPORTLIST)["_content"]) else None
  }

  ghost function Exports(h: Heap, s: nat): set<string>
    requires Addressed(h) && s < |h.stores|
  {
    match ExportRef(h, s)
    case Some(Names(x)) => if x < |h.sets| then h.sets[x] else {}
    case _ => {}
  }

  /** A store finds the set object `x` under `__exportlist`. */
  ghost predicate FindsSet(h: Heap, t: nat, x: nat)
    requires Addressed(h) && t < |h.stores|
  {
    exists f :: f in Found(h, t, EXPORTLIST) && Found(h, t, EXPORTLIST)[f] == Names(x)
  }

  /** Adding the name `v` through `s` is seen by `t`: both find one set object, and the name is new. */
  ghost predicate ExportSeenBy(h: Heap, s: nat, t: nat, v: string)
    requires Addressed(h) && s < |h.stores| && t < |h.stores|
  {
    && ExportRef(h, s).Some? && ExportRef(h, s).value.Names?
    && FindsSet(h, t, ExportRef(h, s).value.names) && v !in Exports(h, s)
  }

  /** Both stores find the same value of `__exportlist`. */
  ghost predicate SharesExports(h: Heap, s: nat, t: nat)
    requires Addressed(h) && s < |h.stores| && t < |h.stores|
  {
    ExportRef(h, s).Some? && ExportRef(h, t) == ExportRef(h, s)
  }

  lemma FoundFlags(h: Heap, t: nat, v: string)
    requires Addressed(h) && t < |h.stores|
    ensures forall f :: f in Found(h, t, v) ==> FlagOk(h, Found(h, t, v)[f])
    ensures View(h, t, v).None? ==> Found(h, t, v) == map[]
    ensures View(h, t, v).Some? ==>
      View(h, t, v).value == map f | f in Found(h, t, v) :: Contents(h, Found(h, t, v)[f])
  {
    FoundAddressed(h, h.stores[t].dict, v);
  }

  /** The exception to isolation: adding a name to a set of exported names is seen by every store that
      finds the same set object, exactly if the name is new. */
  lemma ExportSeen(h: Heap, x: nat, v: string, t: nat)
    requires Ok(h) && x < |h.sets| && t < |h.stores|
    ensures Addressed(AddName(h, x, v))
    ensures View(AddName(h, x, v), t, EXPORTLIST) != View(h, t, EXPORTLIST) <==>
            FindsSet(h, t, x) && v !in h.sets[x]
  {
    var k := AddName(h, x, v);
    SameDictsAddressed(h, k);
    FindOld(h, k, Own(h, t), EXPORTLIST);
    FoundFlags(h, t, EXPORTLIST);
    FoundFlags(k, t, EXPORTLIST);
    var m := Found(h, t, EXPORTLIST);
    assert Found(k, t, EXPORTLIST) == m;
    if f :| f in m && m[f] == Names(x) && v !in h.sets[x] {
      assert View(h, t, EXPORTLIST).value[f] == DNames(h.sets[x]);
      assert View(k, t, EXPORTLIST).value[f] == DNames(h.sets[x] + {v});
    } else {
      if v in h.sets[x] {
        assert h.sets[x] + {v} == h.sets[x];
      }
      assert (map f | f in m :: Contents(k, m[f])) == (map f | f in m :: Contents(h, m[f]));
    }
  }

  /** A variable that the store's own dictionary holds as before is found as before. */
  lemma FoundKept(h: Heap, k: Heap, s: nat, v: string)
    requires Ok(h) && Addressed(k) && OnlyOwn(h, k, s) && OwnFlags(k, s, v) == OwnFlags(h, s, v)
    ensures Found(k, s, v) == Found(h, s, v)
  {
    var d := Own(h, s);
    if OwnFlags(h, s, v).None? && h.dicts[d].data.Some? {
      var e := h.dicts[d].data.value;
      if Under(h.dicts, d, e) {
        UnderLater(h.dicts, d, e);
      }
      FindIsolated(h, k, s, e, v);
      if FindVar(h, e, v).Some? {
        var at := Finder(h, e, v);
        FlagsIsolated(h, k, s, at, v);
      }
    }
  }

  lemma {:induction false} UnderKept(dicts: seq<Dict>, dicts': seq<Dict>, top: nat, d: nat)
    requires Linked(dicts) && Linked(dicts') && d < |dicts| == |dicts'|
    requires forall e :: 0 <= e < |dicts| ==> dicts'[e].data == dicts[e].data
    ensures Under(dicts', top, d) <==> Under(dicts, top, d)
    decreases d
  {
    if d != top && dicts[d].data.Some? {
      UnderKept(dicts, dicts', top, dicts[d].data.value);
    }
  }

  /** The set of exported names that a store shows, if it does. */
  ghost function ExportNames(h: Heap, s: nat): Option<set<string>>
    requires Addressed(h) && s < |h.stores|
  {
    match View(h, s, EXPORTLIST)
    case None => None
    case Some(m) => if "_content" in m && m["_content"].DNames? then Some(m["_content"].names) else None
  }

  lemma ExportNamesFound(h: Heap, s: nat)
    requires Addressed(h) && s < |h.stores|
    ensures ExportNames(h, s).Some? <==> ExportRef(h, s).Some? && ExportRef(h, s).value.Names?
    ensures ExportNames(h, s).Some? ==> ExportNames(h, s).value == Exports(h, s)
  {
    FoundFlags(h, s, EXPORTLIST);
  }

  /** A copy without exported names of its own finds those of the original. */
  lemma CopySharesExports(h: Heap, s: nat, c: nat)
    requires Ok(h) && s < |h.stores| && c < |h.stores|
    requires OwnFlags(h, c, EXPORTLIST).None? && h.dicts[Own(h, c)].data == Some(Own(h, s))
    ensures Found(h, c, EXPORTLIST) == Found(h, s, EXPORTLIST)
    ensures ExportRef(h, c).Some? ==> SharesExports(h, c, s)
    ensures forall v :: ExportSeenBy(h, c, s, v) <==> ExportNames(h, s).Some? && v !in ExportNames(h, s).value
    ensures ExportNames(h, s).Some? ==> ExportNames(h, s).value == Exports(h, c)
  {
    assert EXPORTLIST !in h.dicts[Own(h, c)].vars;
    assert Found(h, c, EXPORTLIST) == Found(h, s, EXPORTLIST);
    ExportNamesFound(h, s);
    hide Found;
  }

  lemma OwnIsFound(h: Heap, s: nat, v: string)
    requires Ok(h) && s < |h.stores|
    ensures OwnFlags(h, s, v).Some? ==> OwnFlags(h, s, v).value == Found(h, s, v)
  {
  }

  /** Nothing has changed for the exported names and for what other stores show of them. */
  ghost predicate SameExports(h: Heap, k: Heap, s: nat)
    requires Addressed(h) && Addressed(k) && s < |h.stores| <= |k.stores|
  {
    Exports(k, s) == Exports(h, s) &&
    (forall t: nat, v :: Outside(h, s, t) ==> (ExportSeenBy(k, s, t, v) <==> ExportSeenBy(h, s, t, v))) &&
    (forall t: nat :: Outside(h, s, t) && SharesExports(h, s, t) ==> SharesExports(k, s, t))
  }

  ghost predicate SameOutside(h: Heap, k: Heap, s: nat)
    requires Addressed(h) && Addressed(k) && s < |h.stores| <= |k.stores|
  {
    forall t: nat :: Outside(h, s, t) ==> Outside(k, s, t) && View(k, t, EXPORTLIST) == View(h, t, EXPORTLIST)
  }

  lemma OutsideKept(h: Heap, k: Heap, s: nat)
    requires Ok(h) && Ok(k) && OnlyOwn(h, k, s) && h.sets <= k.sets
    ensures SameOutside(h, k, s)
    ensures forall t: nat :: Outside(h, s, t) ==> Found(k, t, EXPORTLIST) == Found(h, t, EXPORTLIST)
  {
    forall t: nat | Outside(h, s, t)
      ensures Outside(k, s, t) && Found(k, t, EXPORTLIST) == Found(h, t, EXPORTLIST)
      ensures View(k, t, EXPORTLIST) == View(h, t, EXPORTLIST)
    {
      ShownIsolated(h, k, s, t, EXPORTLIST);
      UnderKept(h.dicts, k.dicts, h.stores[s].dict, h.stores[t].dict);
    }
  }

  /** The store's own dictionary has come to hold what was found, or a new empty set. */
  lemma HeldExports(h: Heap, k: Heap, s: nat)
    requires Ok(h) && Ok(k) && OnlyOwn(h, k, s) && s < |k.stores|
    requires OwnFlags(k, s, EXPORTLIST).Some? && "_content" in OwnFlags(k, s, EXPORTLIST).value
    requires OwnFlags(k, s, EXPORTLIST).value["_content"] ==
             if ExportRef(h, s).Some? then ExportRef(h, s).value else Names(|h.sets|)
    requires k.sets == h.sets + if ExportRef(h, s).Some? then [] else [{}]
    ensures ExportRef(k, s) == Some(OwnFlags(k, s, EXPORTLIST).value["_content"])
    ensures SameOutside(h, k, s) && SameExports(h, k, s)
  {
    OwnIsFound(k, s, EXPORTLIST);
    OutsideKept(h, k, s);
    FoundFlags(h, s, EXPORTLIST);
    forall t: nat, v | Outside(h, s, t)
      ensures ExportSeenBy(k, s, t, v) <==> ExportSeenBy(h, s, t, v)
      ensures SharesExports(h, s, t) ==> SharesExports(k, s, t)
    {
      FoundFlags(h, t, EXPORTLIST);
    }
  }

  lemma AddedName(start: Heap, h: Heap, s: nat, x: nat, v: string)
    requires Good(start, h, s) && x < |h.sets| && RefersToSet(h, true, x) && ExportRef(h, s) == Some(Names(x))
    ensures Good(start, AddName(h, x, v), s)
    ensures forall w :: OwnFlags(AddName(h, x, v), s, w) == OwnFlags(h, s, w)
    ensures Addressed(AddName(h, x, v)) && Exports(AddName(h, x, v), s) == Exports(h, s) + {v}
    ensures forall t: nat :: t < |h.stores| ==>
      (View(AddName(h, x, v), t, EXPORTLIST) != View(h, t, EXPORTLIST) <==> ExportSeenBy(h, s, t, v))
    ensures forall t: nat :: t < |h.stores| && SharesExports(h, s, t) ==>
      Exports(AddName(h, x, v), t) == Exports(h, s) + {v}
  {
    var k := AddName(h, x, v);
    AddNameKeeps(h, s, x, v);
    GoodThen(start, h, k, s);
    hide OnlyOwn;
    forall t: nat | t < |h.stores|
      ensures View(k, t, EXPORTLIST) != View(h, t, EXPORTLIST) <==> ExportSeenBy(h, s, t, v)
      ensures Found(k, t, EXPORTLIST) == Found(h, t, EXPORTLIST)
    {
      FindOld(h, k, Own(h, t), EXPORTLIST);
      ExportSeen(h, x, v, t);
    }
  }

  predicate Exporting(flag: string) {
    flag == "export" || flag == "unexport"
  }

  lemma OutsideKnown(h: Heap, s: nat, t: nat)
    requires Outside(h, s, t)
    ensures s < |h.stores| && t < |h.stores|
  {
  }

  lemma SameRefsExport(h: Heap, k: Heap, s: nat)
    requires Addressed(h) && Addressed(k) && s < |h.stores| <= |k.stores| && h.sets <= k.sets
    requires ExportRef(k, s) == ExportRef(h, s) && (ExportRef(h, s).Some? ==> FlagOk(h, ExportRef(h, s).value))
    requires forall t: nat :: Outside(h, s, t) ==> Found(k, t, EXPORTLIST) == Found(h, t, EXPORTLIST)
    ensures SameExports(h, k, s)
  {
    hide Found, Under, Linked, Addressed, Outside, Own;
    assert Exports(k, s) == Exports(h, s) by {
      if ExportRef(h, s).Some? && ExportRef(h, s).value.Names? {
        assert ExportRef(h, s).value.names < |h.sets|;
      }
    }
    hide Exports, FlagOk;
    forall t: nat | Outside(h, s, t)
      ensures t < |h.stores| && ExportRef(k, t) == ExportRef(h, t) && Found(k, t, EXPORTLIST) == Found(h, t, EXPORTLIST)
    {
      OutsideKnown(h, s, t);
    }
    hide ExportRef;
  }

  /** Setting one flag of a variable leaves the exported names alone, unless it sets them. */
  lemma ExportRefKept(h: Heap, k: Heap, s: nat, v: string, flag: string)
    requires Ok(h) && Ok(k) && OnlyOwn(h, k, s) && s < |k.stores| && h.sets <= k.sets && OwnFlags(k, s, v).Some?
    requires OwnFlags(k, s, v).value - {flag} == Found(h, s, v) - {flag}
    requires forall w :: w != v ==> OwnFlags(k, s, w) == OwnFlags(h, s, w)
    ensures SameOutside(h, k, s)
    ensures v != EXPORTLIST || flag != "_content" ==> ExportRef(k, s) == ExportRef(h, s) && SameExports(h, k, s)
  {
    OutsideKept(h, k, s);
    if v != EXPORTLIST || flag != "_content" {
      OwnIsFound(k, s, v);
      if v != EXPORTLIST {
        FoundKept(h, k, s, EXPORTLIST);
      } else {
        assert "_content" in Found(h, s, v) <==> "_content" in Found(h, s, v) - {flag};
        assert "_content" in Found(k, s, v) <==> "_content" in Found(k, s, v) - {flag};
        assert "_content" in Found(h, s, v) ==> (Found(h, s, v) - {flag})["_content"] == Found(h, s, v)["_content"];
        assert "_content" in Found(k, s, v) ==> (Found(k, s, v) - {flag})["_content"] == Found(k, s, v)["_content"];
      }
      FoundFlags(h, s, EXPORTLIST);
      SameRefsExport(h, k, s);
    }
  }

  lemma RecordsKept(h: Heap, k: Heap, s: nat)
    requires k.stores == h.stores && k.lists == h.lists
    ensures forall v :: Recorded(k, s, v) == Recorded(h, s, v)
  {
  }

  // ---- The operations -------------------------------------------------------------------------------

  /** The heap is in order, and since `start` only store `s` has been changed. */
  ghost predicate Good(start: Heap, h: Heap, s: nat) {
    Ok(h) && OnlyOwn(start, h, s) && s < |h.stores| && Own(h, s) < |h.dicts| && Own(h, s) == Own(start, s)
  }

  lemma GoodSelf(h: Heap, s: nat)
    requires Ok(h) && s < |h.stores|
    ensures Good(h, h, s)
  {
    OnlyOwnSelf(h, s);
    hide OnlyOwn;
  }

  lemma GoodThen(start: Heap, h: Heap, k: Heap, s: nat)
    requires Good(start, h, s) && Good(h, k, s)
    ensures Good(start, k, s)
  {
    OnlyOwnThen(start, h, k, s);
    hide OnlyOwn, Ok;
  }

  ghost predicate PairIn(h: Heap, s: nat, v: string, p: Pair) {
    Recorded(h, s, v).Some? && p in Recorded(h, s, v).value
  }

  /** The override variables whose overrides are active. */
  function ActiveOverrides(l: seq<Pair>, overridesset: set<string>): seq<string> {
    if l == [] then []
    else (if Overrides.Applies(l[0].1, overridesset) then [l[0].0] else []) + ActiveOverrides(l[1..], overridesset)
  }

  /** Exactly the recorded variables whose overrides apply are active, in the order of their records. */
  lemma {:induction false} ActiveIff(l: seq<Pair>, overridesset: set<string>, v: string)
    ensures v in ActiveOverrides(l, overridesset) <==> exists o :: (v, o) in l && Overrides.Applies(o, overridesset)
    ensures forall p: Pair ::
      ActiveOverrides([p] + l, overridesset) ==
        (if Overrides.Applies(p.1, overridesset) then [p.0] else []) + ActiveOverrides(l, overridesset)
  {
    forall p: Pair ensures ([p] + l)[1..] == l {
    }
    if l != [] {
      hide Overrides.Applies;
      ActiveIff(l[1..], overridesset, v);
      assert forall o :: (v, o) in l <==> (v, o) == l[0] || (v, o) in l[1..];
    }
  }

  /** What `getVarFlag(v, flag, False)` returns for a flag other than `_content`. */
  ghost function FlagOf(h: Heap, s: nat, v: string, flag: string): Option<Deep>
    requires Addressed(h) && s < |h.stores|
  {
    match View(h, s, v)
    case None => None
    case Some(m) => if flag in m then Some(m[flag]) else None
  }

  /** The items of a keyword flag, none if it is not set. */
  ghost function ListFlag(h: Heap, s: nat, v: string, flag: string): seq<Item>
    requires Addressed(h) && s < |h.stores|
  {
    match FlagOf(h, s, v, flag)
    case Some(DList(l)) => l
    case _ => []
  }

  /** `or []` makes a list of it that can be extended. */
  predicate Appendable(d: Option<Deep>) {
    d.None? || d.value.DList? || d == Some(DText("")) || d == Some(DNames({}))
  }

  /** What Python takes for false. */
  predicate Falsy(d: Deep) {
    d == DText("") || d == DList([]) || d == DNames({})
  }

  /** What `getVar(v, 0, parsing=True)` finds before removals: the content, or else the default. */
  ghost function RawOf(h: Heap, s: nat, v: string): Option<Deep>
    requires Addressed(h) && s < |h.stores|
  {
    if FlagOf(h, s, v, "_content").Some? then FlagOf(h, s, v, "_content") else FlagOf(h, s, v, "_defaultval")
  }

  /** No removals apply to it. */
  ghost predicate NothingRemoved(h: Heap, s: nat, v: string)
    requires Addressed(h) && s < |h.stores|
  {
    FlagOf(h, s, v, "_remove").None? || (RawOf(h, s, v).Some? && Falsy(RawOf(h, s, v).value))
  }

  /** The override variables that an assignment to `v` empties. */
  function ActiveNames(h: Heap, s: nat, v: string, overridesset: set<string>): seq<string> {
    if Recorded(h, s, v).None? then [] else ActiveOverrides(Recorded(h, s, v).value, overridesset)
  }

  /** An assignment to `v` empties exactly the variables recorded for it under a name made of overrides. */
  lemma ActiveNamesMeans(h: Heap, s: nat, v: string, os: seq<string>, w: string)
    requires Overrides.AllSimple(os)
    ensures w in ActiveNames(h, s, v, Overrides.OverridesSet(os)) <==>
            exists o, ps :: PairIn(h, s, v, (w, o)) && Overrides.Spells(os, ps, o)
  {
    hide Overrides.Applies, Overrides.Spells, Overrides.OverridesSet, Recorded;
    var overridesset := Overrides.OverridesSet(os);
    forall o ensures Overrides.Applies(o, overridesset) <==> exists ps :: Overrides.Spells(os, ps, o) {
      Overrides.AppliesIff(os, o);
    }
    if Recorded(h, s, v).Some? {
      ActiveIff(Recorded(h, s, v).value, overridesset, w);
    }
  }

  /** The store itself holds this value in this flag of the variable. */
  ghost predicate Holds(h: Heap, s: nat, v: string, flag: string, value: Deep) {
    OwnFlags(h, s, v).Some? && flag in OwnFlags(h, s, v).value && FlagOk(h, OwnFlags(h, s, v).value[flag])
    && Contents(h, OwnFlags(h, s, v).value[flag]) == value
  }

  /** From `h` to `k` a keyword has been set: the list is extended, if it is one, and the variable is
      recorded as an override variable as by any other assignment. */
  ghost predicate KeywordSet(h: Heap, k: Heap, s: nat, w: Keyword, value: Deep, ok: bool)
    requires Addressed(h) && s < |h.stores|
  {
    && (ok <==> Appendable(FlagOf(h, s, w.base, w.keyword)))
    && (!ok ==> k == h)
    && (ok ==> Holds(k, s, w.base, w.keyword, DList(ListFlag(h, s, w.base, w.keyword) + [(value, w.add)])))
    && (ok ==> forall v :: v != w.base ==> OwnFlags(k, s, v) == OwnFlags(h, s, v))
    && (ok ==> OwnFlags(k, s, w.base).value - {w.keyword} == Found(h, s, w.base) - {w.keyword})
    && h.sets <= k.sets
    && (ok ==> forall v :: Recorded(k, s, v) == Added(Recorded(h, s, v), w.base, OverrideFor(w.base, v)))
  }

  /** From `h` to `k` a value has been assigned.  Unless it was met in parsing, pending appends and every
      active override variable are gone. */
  ghost predicate PlainSet(h: Heap, k: Heap, s: nat, v: string, value: Deep, parsing: bool,
                           overridesset: set<string>, ok: bool)
    requires Addressed(h) && s < |h.stores|
  {
    var active := if parsing then [] else ActiveNames(h, s, v, overridesset);
    && (ok <==> v !in active)
    && (ok ==> Holds(k, s, v, "_content", value))
    && (ok ==> OwnFlags(k, s, v).value - {"_content"} ==
               Found(h, s, v) - (if parsing then {"_content"} else {"_content", "_append", "_prepend"}))
    && (forall w :: w != v ==> OwnFlags(k, s, w) == if w in active then Some(map[]) else OwnFlags(h, s, w))
    && (ok && parsing ==> forall w :: Recorded(k, s, w) == Added(Recorded(h, s, w), v, ShorterRecord(v, w)))
    && (ok && !parsing ==> Recorded(k, s, v).None?)
    && h.sets <= k.sets
    && (ok ==> forall w :: ShorterRecord(v, w).Some? ==> PairIn(k, s, w, (v, ShorterRecord(v, w).value)))
  }

  ghost predicate VarSet(h: Heap, k: Heap, s: nat, v: string, value: Deep, parsing: bool,
                         overridesset: set<string>, ok: bool)
    requires Addressed(h) && s < |h.stores|
  {
    match KeywordFrom(v, 0)
    case Some(w) => KeywordSet(h, k, s, w, value, ok)
    case None => PlainSet(h, k, s, v, value, parsing, overridesset, ok)
  }

  ghost predicate Prepared(h: Heap, k: Heap, s: nat, v: string, parsing: bool, overridesset: set<string>, ok: bool)
    requires Addressed(h) && s < |h.stores|
  {
    var active := if parsing then [] else ActiveNames(h, s, v, overridesset);
    && (ok <==> v !in active)
    && OwnFlags(k, s, v).Some?
    && (ok ==> OwnFlags(k, s, v).value == Found(h, s, v) - if parsing then {} else {"_append", "_prepend"})
    && (forall w :: w != v ==> OwnFlags(k, s, w) == if w in active then Some(map[]) else OwnFlags(h, s, w))
    && (parsing ==> forall w :: Recorded(k, s, w) == Recorded(h, s, w))
    && (ok && !parsing ==> Recorded(k, s, v).None?)
    && h.sets == k.sets
  }

  ghost predicate Assigned(h: Heap, k: Heap, s: nat, v: string, value: Deep) {
    && h.sets <= k.sets
    && Holds(k, s, v, "_content", value)
    && OwnFlags(h, s, v).Some?
    && OwnFlags(k, s, v).value - {"_content"} == OwnFlags(h, s, v).value - {"_content"}
    && (forall w :: w != v ==> OwnFlags(k, s, w) == OwnFlags(h, s, w))
    && (forall w :: Recorded(k, s, w) == Added(Recorded(h, s, w), v, ShorterRecord(v, w)))
  }

  lemma PlainSetBy(h: Heap, mid: Heap, k: Heap, s: nat, v: string, value: Deep, parsing: bool,
                   overridesset: set<string>, ok: bool)
    requires Addressed(h) && s < |h.stores| && Prepared(h, mid, s, v, parsing, overridesset, ok)
    requires if ok then Assigned(mid, k, s, v, value) else k == mid
    ensures PlainSet(h, k, s, v, value, parsing, overridesset, ok)
  {
    hide ActiveNames, ShorterRecord, OwnFlags, Recorded, Found, Addressed;
    NotUnderItself(v);
    if ok {
      var m := OwnFlags(mid, s, v).value;
      assert m - {"_content"} == Found(h, s, v) - if parsing then {"_content"} else {"_content", "_append", "_prepend"};
      forall w | ShorterRecord(v, w).Some? ensures PairIn(k, s, w, (v, ShorterRecord(v, w).value)) {
      }
    }
  }

  predicate NoneRecorded(h: Heap, s: nat, key: string) {
    Recorded(h, s, key).None? || Recorded(h, s, key) == Some([])
  }

  /** `newkey` is to be assigned to, and no override variables of `key` are recorded before that. */
  predicate Alone(h: Heap, s: nat, key: string, newkey: string) {
    key != newkey && KeywordFrom(newkey, 0).None? && NoneRecorded(h, s, key)
  }

  /** There is a value to be assigned, and that records `newkey` as an override variable of `key`. */
  ghost predicate RecordsNew(h: Heap, s: nat, key: string, newkey: string)
    requires Addressed(h) && s < |h.stores|
  {
    RawOf(h, s, key).Some? && ShorterRecord(newkey, key).Some?
  }

  ghost predicate Unrecorded(h: Heap, s: nat, key: string, newkey: string)
    requires Addressed(h) && s < |h.stores|
  {
    Alone(h, s, key, newkey) && !RecordsNew(h, s, key, newkey)
  }

  /** From `h` to `k` the value and the pending appends, prepends and removals have been moved. */
  ghost predicate Moved(h: Heap, k: Heap, s: nat, key: string, newkey: string)
    requires Addressed(h) && s < |h.stores|
  {
    && (RawOf(h, s, key).Some? && NothingRemoved(h, s, key) ==> Holds(k, s, newkey, "_content", RawOf(h, s, key).value))
    && (forall j :: 0 <= j < |KEYWORDS| ==> KeywordMoved(h, k, s, key, newkey, KEYWORDS[j]))
  }

  /** What is pending for the old name can be added to what is pending for the new one. */
  ghost predicate Joins(h: Heap, s: nat, key: string, newkey: string, word: string)
    requires Addressed(h) && s < |h.stores|
  {
    FlagOf(h, s, key, word).None? || Appendable(FlagOf(h, s, newkey, word))
  }

  ghost predicate AllJoin(h: Heap, s: nat, key: string, newkey: string, n: nat)
    requires Addressed(h) && s < |h.stores|
  {
    forall j :: 0 <= j < n && j < |KEYWORDS| ==> Joins(h, s, key, newkey, KEYWORDS[j])
  }

  ghost predicate KeywordMoved(h: Heap, k: Heap, s: nat, key: string, newkey: string, word: string)
    requires Addressed(h) && s < |h.stores|
  {
    FlagOf(h, s, key, word).Some? && FlagOf(h, s, key, word).value.DList? ==>
      Holds(k, s, newkey, word, DList(ListFlag(h, s, newkey, word) + ListFlag(h, s, key, word)))
  }

  /** The first `n` keywords have been moved, and nothing else has been changed but for the new name. */
  ghost predicate KeywordsMoved(h: Heap, k: Heap, s: nat, key: string, newkey: string, n: nat)
    requires Addressed(h) && s < |h.stores|
  {
    && Addressed(k) && s < |k.stores| && h.items <= k.items && h.sets <= k.sets
    && (forall w :: Recorded(k, s, w) == Recorded(h, s, w))
    && (forall w :: w != newkey ==> OwnFlags(k, s, w) == OwnFlags(h, s, w))
    && (OwnFlags(h, s, newkey).Some? ==> OwnFlags(k, s, newkey).Some?)
    && (forall f :: f !in KEYWORDS ==> SameFlag(h, k, s, newkey, f))
    && (forall j :: 0 <= j < n <= |KEYWORDS| ==> KeywordMoved(h, k, s, key, newkey, KEYWORDS[j]))
    && (forall j :: n <= j < |KEYWORDS| ==> SameFlag(h, k, s, newkey, KEYWORDS[j]))
  }

  ghost predicate SameFlag(h: Heap, k: Heap, s: nat, v: string, f: string)
    requires Addressed(h) && Addressed(k) && s < |h.stores| && s < |k.stores|
  {
    (f in Found(k, s, v) <==> f in Found(h, s, v)) && (f in Found(h, s, v) ==> Found(k, s, v)[f] == Found(h, s, v)[f])
  }

  lemma SameContents(h: Heap, k: Heap, s: nat, v: string, f: string)
    requires Addressed(h) && Addressed(k) && s < |h.stores| && s < |k.stores|
    requires SameFlag(h, k, s, v, f) && h.items <= k.items && h.sets <= k.sets
    ensures FlagOf(k, s, v, f) == FlagOf(h, s, v, f)
  {
    FoundFlags(h, s, v);
    FoundFlags(k, s, v);
  }

  lemma HoldsStill(h: Heap, k: Heap, s: nat, v: string, f: string, value: Deep)
    requires Holds(h, s, v, f, value) && h.items <= k.items && h.sets <= k.sets
    requires OwnFlags(k, s, v).Some? && f in OwnFlags(k, s, v).value
    requires OwnFlags(k, s, v).value[f] == OwnFlags(h, s, v).value[f]
    ensures Holds(k, s, v, f, value)
  {
  }

  lemma MinusKeeps(m: map<string, Flag>, n: map<string, Flag>, word: string, f: string)
    requires m - {word} == n - {word} && f != word
    ensures f in m <==> f in n
    ensures f in m ==> m[f] == n[f]
  {
    assert f in m <==> f in m - {word};
    assert f in n <==> f in n - {word};
    assert f in m ==> (m - {word})[f] == m[f];
    assert f in n ==> (n - {word})[f] == n[f];
  }

  /** One more keyword's list has been stored under the new name. */
  ghost predicate KeywordPut(h: Heap, k: Heap, s: nat, v: string, word: string)
    requires Addressed(h) && s < |h.stores|
  {
    && Addressed(k) && s < |k.stores| && h.items <= k.items && h.sets <= k.sets
    && OwnFlags(k, s, v).Some? && OwnFlags(k, s, v).value - {word} == Found(h, s, v) - {word}
    && (forall w :: w != v ==> OwnFlags(k, s, w) == OwnFlags(h, s, w))
    && (forall w :: Recorded(k, s, w) == Recorded(h, s, w))
  }

  lemma PutKeepsOthers(h0: Heap, h: Heap, k: Heap, s: nat, key: string, newkey: string, word: string, f: string)
    requires Ok(h0) && Ok(h) && Ok(k) && s < |h0.stores| && s < |h.stores| && KeywordPut(h, k, s, newkey, word)
    requires f != word
    ensures SameFlag(h0, h, s, newkey, f) ==> SameFlag(h0, k, s, newkey, f)
    ensures KeywordMoved(h0, h, s, key, newkey, f) ==> KeywordMoved(h0, k, s, key, newkey, f)
  {
    OwnIsFound(h, s, newkey);
    OwnIsFound(k, s, newkey);
    MinusKeeps(Found(h, s, newkey), Found(k, s, newkey), word, f);
    hide Found, Ok;
    if KeywordMoved(h0, h, s, key, newkey, f) && FlagOf(h0, s, key, f).Some? && FlagOf(h0, s, key, f).value.DList? {
      HoldsStill(h, k, s, newkey, f, DList(ListFlag(h0, s, newkey, f) + ListFlag(h0, s, key, f)));
    }
  }

  lemma ItemsKept(h: Heap, k: Heap, s: nat)
    requires Good(h, k, s)
    ensures h.items <= k.items
  {
  }

  lemma NoneJoined(h: Heap, s: nat, key: string, newkey: string)
    requires Addressed(h) && s < |h.stores|
    ensures KeywordsMoved(h, h, s, key, newkey, 0) && AllJoin(h, s, key, newkey, 0)
  {
  }

  lemma AllJoinFewer(h: Heap, s: nat, key: string, newkey: string, n: nat)
    requires Addressed(h) && s < |h.stores| && n <= |KEYWORDS|
    ensures AllJoin(h, s, key, newkey, |KEYWORDS|) ==> AllJoin(h, s, key, newkey, n)
  {
  }

  lemma SourceKept(h0: Heap, h: Heap, s: nat, key: string, newkey: string, i: nat)
    requires Ok(h0) && Good(h0, h, s) && s < |h0.stores| && key != newkey && i < |KEYWORDS|
    requires KeywordsMoved(h0, h, s, key, newkey, i)
    ensures FlagOf(h, s, key, KEYWORDS[i]) == FlagOf(h0, s, key, KEYWORDS[i])
    ensures FlagOf(h, s, newkey, KEYWORDS[i]) == FlagOf(h0, s, newkey, KEYWORDS[i])
    ensures ListFlag(h, s, newkey, KEYWORDS[i]) == ListFlag(h0, s, newkey, KEYWORDS[i])
    ensures ListFlag(h, s, key, KEYWORDS[i]) == ListFlag(h0, s, key, KEYWORDS[i])
  {
    FoundKept(h0, h, s, key);
    SameContents(h0, h, s, key, KEYWORDS[i]);
    SameContents(h0, h, s, newkey, KEYWORDS[i]);
  }

  lemma JoinsKept(h0: Heap, h: Heap, s: nat, key: string, newkey: string, i: nat)
    requires Ok(h0) && Good(h0, h, s) && s < |h0.stores| && key != newkey && i < |KEYWORDS|
    requires KeywordsMoved(h0, h, s, key, newkey, i)
    ensures AllJoin(h0, s, key, newkey, i + 1) <==>
      AllJoin(h0, s, key, newkey, i) && Joins(h, s, key, newkey, KEYWORDS[i])
  {
    hide OnlyOwn, Ok, KeywordsMoved, FlagOf;
    GoodAddressed(h0, h, s);
    SourceKept(h0, h, s, key, newkey, i);
  }

  /** Whatever is pending for any variable is a list that can be extended. */
  ghost predicate AllAppendable(h: Heap, s: nat)
    requires Addressed(h) && s < |h.stores|
  {
    forall v, word :: word in KEYWORDS ==> Appendable(FlagOf(h, s, v, word))
  }

  lemma PutAppendable(h: Heap, k: Heap, s: nat, v: string, word: string, l: seq<Item>)
    requires Ok(h) && Good(h, k, s) && s < |h.stores| && h.items <= k.items && h.sets <= k.sets
    requires Holds(k, s, v, word, DList(l)) && OwnFlags(k, s, v).value - {word} == Found(h, s, v) - {word}
    requires forall w :: w != v ==> OwnFlags(k, s, w) == OwnFlags(h, s, w)
    ensures AllAppendable(h, s) ==> AllAppendable(k, s)
  {
    if AllAppendable(h, s) {
      forall w, f | f in KEYWORDS ensures Appendable(FlagOf(k, s, w, f)) {
        if w == v && f == word {
          HoldsIsFlag(k, s, v, word, DList(l));
        } else {
          FlagElsewhere(h, k, s, v, word, w, f);
        }
      }
    }
  }

  /** Any other flag is found as before. */
  lemma FlagElsewhere(h: Heap, k: Heap, s: nat, v: string, word: string, w: string, f: string)
    requires Ok(h) && Good(h, k, s) && s < |h.stores| && h.items <= k.items && h.sets <= k.sets
    requires OwnFlags(k, s, v).Some? && OwnFlags(k, s, v).value - {word} == Found(h, s, v) - {word}
    requires forall x :: x != v ==> OwnFlags(k, s, x) == OwnFlags(h, s, x)
    requires w != v || f != word
    ensures FlagOf(k, s, w, f) == FlagOf(h, s, w, f) && SameFlag(h, k, s, w, f)
  {
    if w != v {
      FoundKept(h, k, s, w);
    } else {
      OwnIsFound(k, s, v);
      MinusKeeps(Found(h, s, v), Found(k, s, v), word, f);
    }
    SameContents(h, k, s, w, f);
  }

  lemma KeywordMoves(h0: Heap, h: Heap, k: Heap, s: nat, key: string, newkey: string, i: nat)
    requires Ok(h0) && Ok(h) && Good(h0, h, s) && s < |h0.stores| && Good(h, k, s) && key != newkey && i < |KEYWORDS|
    requires KeywordsMoved(h0, h, s, key, newkey, i)
    requires FlagOf(h, s, key, KEYWORDS[i]).None? ==> k == h
    requires FlagOf(h, s, key, KEYWORDS[i]).Some? ==> KeywordPut(h, k, s, newkey, KEYWORDS[i])
    requires FlagOf(h, s, key, KEYWORDS[i]).Some? && FlagOf(h, s, key, KEYWORDS[i]).value.DList? ==>
      Holds(k, s, newkey, KEYWORDS[i], DList(ListFlag(h, s, newkey, KEYWORDS[i]) + ListFlag(h, s, key, KEYWORDS[i])))
    ensures KeywordsMoved(h0, k, s, key, newkey, i + 1)
  {
    hide OnlyOwn, Holds, OwnFlags, Own, Recorded, View, Found, FlagOf, SameFlag, ListFlag;
    var word := KEYWORDS[i];
    SourceKept(h0, h, s, key, newkey, i);
    assert KeywordMoved(h0, k, s, key, newkey, word);
    if FlagOf(h, s, key, word).Some? {
      GoodOk(h, k, s);
      forall f | f != word
        ensures SameFlag(h0, h, s, newkey, f) ==> SameFlag(h0, k, s, newkey, f)
        ensures KeywordMoved(h0, h, s, key, newkey, f) ==> KeywordMoved(h0, k, s, key, newkey, f)
      {
        PutKeepsOthers(h0, h, k, s, key, newkey, word, f);
      }
      MovedOne(h0, h, k, s, key, newkey, i);
    }
  }

  lemma MovedOne(h0: Heap, h: Heap, k: Heap, s: nat, key: string, newkey: string, i: nat)
    requires Addressed(h0) && s < |h0.stores| && i < |KEYWORDS| && KeywordsMoved(h0, h, s, key, newkey, i)
    requires KeywordPut(h, k, s, newkey, KEYWORDS[i]) && KeywordMoved(h0, k, s, key, newkey, KEYWORDS[i])
    requires forall f :: f != KEYWORDS[i] ==>
      (SameFlag(h0, h, s, newkey, f) ==> SameFlag(h0, k, s, newkey, f)) &&
      (KeywordMoved(h0, h, s, key, newkey, f) ==> KeywordMoved(h0, k, s, key, newkey, f))
    ensures KeywordsMoved(h0, k, s, key, newkey, i + 1)
  {
    hide SameFlag, KeywordMoved, Found, Addressed, Recorded, OwnFlags;
    assert KEYWORDS[0] == "_append" && KEYWORDS[1] == "_prepend" && KEYWORDS[2] == "_remove";
    assert KEYWORDS[i] in KEYWORDS;
  }

  // ---- Renaming ------------------------------------------------------------------------------------

  lemma RecordedKey(h: Heap, s: nat, key: string)
    requires Ok(h) && s < |h.stores|
    ensures key in h.stores[s].overridedata <==> Recorded(h, s, key).Some?
  {
  }

  /** Where renaming `key` to `newkey` leads to renaming `newkey` in the same way: the old name occurs in the
      new one, which is, or comes to be, the first of its override variables. */
  ghost predicate Nests(h: Heap, s: nat, key: string, newkey: string)
    requires Addressed(h) && s < |h.stores|
  {
    && key != newkey && Occurs(key, newkey)
    && if NoneRecorded(h, s, key) then
         KeywordFrom(newkey, 0).None? && RecordsNew(h, s, key, newkey)
       else Recorded(h, s, key).value[0].0 == newkey
  }

  /** The same when `newkey` has been set. */
  ghost predicate NestsOn(h: Heap, s: nat, key: string, newkey: string) {
    && key != newkey && Occurs(key, newkey)
    && !NoneRecorded(h, s, key) && Recorded(h, s, key).value[0].0 == newkey
  }

  lemma SetKeepsFlags(h: Heap, k: Heap, s: nat, v: string, value: Deep, w: string, f: string)
    requires Ok(h) && Good(h, k, s) && s < |h.stores| && PlainSet(h, k, s, v, value, true, {}, true)
    requires w != v || f != "_content"
    ensures FlagOf(k, s, w, f) == FlagOf(h, s, w, f) && SameFlag(h, k, s, w, f)
  {
    FlagElsewhere(h, k, s, v, "_content", w, f);
  }

  lemma HoldsIsFlag(h: Heap, s: nat, v: string, f: string, value: Deep)
    requires Ok(h) && s < |h.stores| && Holds(h, s, v, f, value)
    ensures FlagOf(h, s, v, f) == Some(value)
  {
    OwnIsFound(h, s, v);
    FoundFlags(h, s, v);
  }

  /** What is there to be moved after the new name has been set. */
  ghost predicate Ready(h: Heap, k: Heap, s: nat, key: string, newkey: string)
    requires Addressed(h) && s < |h.stores|
  {
    && Addressed(k) && s < |k.stores| && NoneRecorded(k, s, key)
    && (RawOf(h, s, key).Some? && NothingRemoved(h, s, key) ==> Holds(k, s, newkey, "_content", RawOf(h, s, key).value))
    && (forall word :: word in KEYWORDS ==> FlagOf(k, s, key, word) == FlagOf(h, s, key, word))
    && (forall word :: word in KEYWORDS ==> FlagOf(k, s, newkey, word) == FlagOf(h, s, newkey, word))
  }

  lemma AfterSet(h: Heap, k: Heap, s: nat, key: string, newkey: string, val: Option<Deep>, ok: bool)
    requires Ok(h) && Good(h, k, s) && s < |h.stores|
    requires val.None? <==> RawOf(h, s, key).None?
    requires NothingRemoved(h, s, key) ==> val == RawOf(h, s, key)
    requires if val.Some? then VarSet(h, k, s, newkey, val.value, true, {}, ok) else ok && k == h
    ensures Unrecorded(h, s, key, newkey) ==> ok && Ready(h, k, s, key, newkey)
  {
    if Unrecorded(h, s, key, newkey) && val.Some? {
      ReadySet(h, k, s, key, newkey, val.value);
    }
  }

  lemma ReadySet(h: Heap, k: Heap, s: nat, key: string, newkey: string, value: Deep)
    requires Ok(h) && Good(h, k, s) && s < |h.stores| && Unrecorded(h, s, key, newkey)
    requires RawOf(h, s, key).Some?
    requires NothingRemoved(h, s, key) ==> Some(value) == RawOf(h, s, key)
    requires PlainSet(h, k, s, newkey, value, true, {}, true)
    ensures Ready(h, k, s, key, newkey)
  {
    assert KEYWORDS[0] == "_append" && KEYWORDS[1] == "_prepend" && KEYWORDS[2] == "_remove";
    forall word | word in KEYWORDS
      ensures FlagOf(k, s, key, word) == FlagOf(h, s, key, word)
      ensures FlagOf(k, s, newkey, word) == FlagOf(h, s, newkey, word)
    {
      SetKeepsFlags(h, k, s, newkey, value, key, word);
      SetKeepsFlags(h, k, s, newkey, value, newkey, word);
    }
    hide FlagOf, Holds, Ok, OnlyOwn, RawOf, NothingRemoved;
  }

  lemma KeywordNames(word: string)
    requires word in KEYWORDS
    ensures word != "_content" && word != "_defaultval" && !Exporting(word)
  {
    assert KEYWORDS[0] == "_append" && KEYWORDS[1] == "_prepend" && KEYWORDS[2] == "_remove";
  }

  lemma NestsSet(h: Heap, k: Heap, s: nat, key: string, newkey: string, val: Option<Deep>, ok: bool)
    requires Addressed(h) && s < |h.stores| && (val.None? <==> RawOf(h, s, key).None?)
    requires if val.Some? then VarSet(h, k, s, newkey, val.value, true, {}, ok) else ok && k == h
    ensures ok && Nests(h, s, key, newkey) ==> NestsOn(k, s, key, newkey)
  {
    hide Addressed, FlagOf, Found, Own, KeywordFrom, ShorterRecord, OverrideFor, OwnFlags, Recorded, Holds, PairIn,
      Replaced, Occurs;
    assert forall p: Pair :: [] + [p] == [p];
  }

  /** Moving what is pending does not stop it. */
  lemma NestsMoved(h: Heap, k: Heap, s: nat, key: string, newkey: string)
    requires Addressed(h) && s < |h.stores|
    requires key != newkey ==> KeywordsMoved(h, k, s, key, newkey, |KEYWORDS|)
    ensures NestsOn(h, s, key, newkey) ==> NestsOn(k, s, key, newkey)
  {
    hide Recorded, Occurs;
  }

  lemma MovedBy(h: Heap, mid: Heap, k: Heap, s: nat, key: string, newkey: string)
    requires Addressed(h) && s < |h.stores| && Ok(mid) && s < |mid.stores| && Ok(k) && s < |k.stores|
    requires key != newkey ==> KeywordsMoved(mid, k, s, key, newkey, |KEYWORDS|)
    ensures Ready(h, mid, s, key, newkey) && Unrecorded(h, s, key, newkey) ==>
      Moved(h, k, s, key, newkey) && NoneRecorded(k, s, key)
  {
    if Ready(h, mid, s, key, newkey) && Unrecorded(h, s, key, newkey) {
      forall j | 0 <= j < |KEYWORDS| ensures KeywordMoved(h, k, s, key, newkey, KEYWORDS[j]) {
        assert KeywordMoved(mid, k, s, key, newkey, KEYWORDS[j]);
      }
      if RawOf(h, s, key).Some? && NothingRemoved(h, s, key) {
        assert SameFlag(mid, k, s, newkey, "_content");
        assert "_content" !in KEYWORDS;
        OwnIsFound(mid, s, newkey);
        OwnIsFound(k, s, newkey);
        HoldsStill(mid, k, s, newkey, "_content", RawOf(h, s, key).value);
      }
    }
  }

  lemma MovedKept(h: Heap, last: Heap, mid: Heap, k: Heap, s: nat, key: string, newkey: string)
    requires Addressed(h) && s < |h.stores| && OnlyRecords(last, mid) && mid.items == k.items && mid.sets == k.sets
    requires forall w :: w != key ==> OwnFlags(k, s, w) == OwnFlags(mid, s, w)
    ensures key != newkey && Moved(h, last, s, key, newkey) ==> Moved(h, k, s, key, newkey)
  {
    SameOwnFlags(last, mid, s, newkey);
    if key != newkey && Moved(h, last, s, key, newkey) {
      forall j | 0 <= j < |KEYWORDS| ensures KeywordMoved(h, k, s, key, newkey, KEYWORDS[j]) {
        assert KeywordMoved(h, last, s, key, newkey, KEYWORDS[j]);
      }
    }
  }

  lemma RecordsKeepFlags(h: Heap, k: Heap, s: nat)
    requires Addressed(h) && Addressed(k) && OnlyRecords(h, k) && s < |h.stores|
    ensures forall v, f :: FlagOf(k, s, v, f) == FlagOf(h, s, v, f)
  {
    forall v, f ensures FlagOf(k, s, v, f) == FlagOf(h, s, v, f) {
      FindOld(h, k, Own(h, s), v);
      SameContents(h, k, s, v, f);
    }
  }

  /** The first override variable to be renamed is `newkey`, which is to be lengthened likewise. */
  lemma NestsStart(h: Heap, s: nat, key: string, newkey: string, list: nat)
    requires Ok(h) && s < |h.stores| && key in h.stores[s].overridedata
    requires list == Record(h, s, newkey, []).stores[s].overridedata[key]
    ensures NestsOn(h, s, key, newkey) ==>
      key != newkey && ListAt(Record(h, s, newkey, []), list) != [] &&
      ListAt(Record(h, s, newkey, []), list)[0].0 == newkey
    ensures key != newkey && NoneRecorded(h, s, key) ==> ListAt(Record(h, s, newkey, []), list) == []
  {
  }

  lemma NestsFirst(h: Heap, k: Heap, s: nat, key: string, newkey: string, o: string)
    requires Ok(h) && Addressed(k) && s < |h.stores| && NestsOn(h, s, key, newkey)
    requires k == Append(Record(h, s, newkey, []), |h.lists|, (Replaced(newkey, key, newkey), o))
    ensures Nests(k, s, newkey, Replaced(newkey, key, newkey))
  {
    OccursNext(key, newkey);
    var p := (Replaced(newkey, key, newkey), o);
    assert Recorded(k, s, newkey) == Some([] + [p]);
    assert [] + [p] == [p];
    hide Replaced;
  }

  lemma NestsFromNew(h: Heap, k: Heap, s: nat, value: Deep, ok: bool)
    requires Ok(h) && Good(h, k, s) && s < |h.stores| && VarSet(h, k, s, "A", value, true, {}, ok)
    requires forall v :: View(h, s, v).None? && Recorded(h, s, v).None?
    ensures Nests(k, s, "A", "A_x")
  {
    hide OnlyOwn, Occurs, Found, Own, OwnFlags, Recorded;
    NoKeywordBehind("A", 0);
    RecordOfA();
    RecordOccurs("A", "A_x");
    PlainName();
    assert ok && PlainSet(h, k, s, "A", value, true, {}, true);
    GoodOk(h, k, s);
    HoldsIsFlag(k, s, "A", "_content", value);
    assert ShorterRecord("A", "A") == None;
    assert Recorded(k, s, "A") == Recorded(h, s, "A");
  }

  // ---- Renaming that ends --------------------------------------------------------------------------

  /** What is recorded in the family of the name begins with the name it is recorded for. */
  ghost predicate Short(h: Heap, s: nat, c: Scope) {
    forall v, p :: InFamily(c.key, v) && PairIn(h, s, v, p) ==> v + "_" <= p.0 && |p.0| < c.bound
  }

  /** What makes a renaming end well: the names are such, what is pending is all in order, and the recursion
      limit is not less than what the longest override variable adds to the old name. */
  ghost predicate Settles(h: Heap, s: nat, c: Scope, key: string, newkey: string, depth: nat)
    requires Addressed(h) && s < |h.stores|
  {
    Within(c, key, newkey) && 0 < depth && c.bound <= |key| + depth && AllAppendable(h, s) && Short(h, s, c)
  }

  ghost predicate ContentKept(h: Heap, k: Heap, s: nat, v: string) {
    forall value :: Holds(h, s, v, "_content", value) ==> Holds(k, s, v, "_content", value)
  }

  /** What renaming leaves: outside the families of both names and what the new one begins with nothing has
      changed, and of the old family at most variables emptied. */
  ghost predicate Followed(h: Heap, k: Heap, s: nat, c: Scope, key: string, newkey: string) {
    && Addressed(k) && s < |k.stores| && h.items <= k.items && h.sets <= k.sets
    && AllAppendable(k, s) && Short(k, s, c)
    && (forall v :: !InFamily(key, v) && Recorded(h, s, v).Some? ==> Recorded(k, s, v).Some?)
    && (forall v :: !InFamily(key, v) && !InFamily(newkey, v) ==> ContentKept(h, k, s, v))
    && (forall v :: !InFamily(newkey, v) && !(v <= newkey) ==>
          OwnFlags(k, s, v) == OwnFlags(h, s, v) || (InFamily(key, v) && OwnFlags(k, s, v) == Some(map[])))
  }

  /** The override variables of the old name are empty. */
  ghost predicate Emptied(h: Heap, k: Heap, s: nat, key: string, newkey: string) {
    forall p :: PairIn(h, s, key, p) && !InFamily(newkey, p.0) ==> OwnFlags(k, s, p.0) == Some(map[])
  }

  /** The new name holds the value of the old one. */
  ghost predicate ContentMoved(h: Heap, k: Heap, s: nat, key: string, newkey: string)
    requires Addressed(h) && s < |h.stores|
  {
    RawOf(h, s, key).Some? && NothingRemoved(h, s, key) && KeywordFrom(newkey, 0).None? ==>
      Holds(k, s, newkey, "_content", RawOf(h, s, key).value)
  }

  ghost predicate CarriedAt(h: Heap, k: Heap, s: nat, key: string, newkey: string, l: seq<Pair>, i: nat)
    requires Addressed(h) && s < |h.stores|
  {
    Lone(l, key, newkey, i) ==> ContentMoved(h, k, s, l[i].0, Replaced(l[i].0, key, newkey))
  }

  /** The new names of such override variables hold their values. */
  ghost predicate Carried(h: Heap, k: Heap, s: nat, key: string, newkey: string)
    requires Addressed(h) && s < |h.stores|
  {
    Recorded(h, s, key).Some? ==>
      forall i :: 0 <= i < |Recorded(h, s, key).value| ==>
        CarriedAt(h, k, s, key, newkey, Recorded(h, s, key).value, i)
  }

  ghost predicate OthersSame(h: Heap, k: Heap, s: nat, newkey: string) {
    forall v :: !InFamily(newkey, v) && !(v <= newkey) ==> OwnFlags(k, s, v) == OwnFlags(h, s, v)
  }

  ghost predicate SelfMoved(h: Heap, k: Heap, s: nat, c: Scope, key: string, newkey: string)
    requires Addressed(h) && s < |h.stores|
  {
    && Followed(h, k, s, c, key, newkey) && ContentMoved(h, k, s, key, newkey)
    && Recorded(k, s, key) == Recorded(h, s, key) && OthersSame(h, k, s, newkey)
  }

  /** The first `n` override variables have been renamed. */
  ghost predicate Moving(h: Heap, k: Heap, s: nat, c: Scope, key: string, newkey: string, n: nat)
    requires Addressed(h) && s < |h.stores|
  {
    && Followed(h, k, s, c, key, newkey) && ContentKept(h, k, s, newkey)
    && Recorded(k, s, newkey).Some? && Recorded(h, s, key).Some? && n <= |Recorded(h, s, key).value|
    && (forall j :: 0 <= j < n ==>
          InFamily(newkey, Recorded(h, s, key).value[j].0) ||
          OwnFlags(k, s, Recorded(h, s, key).value[j].0) == Some(map[]))
    && (forall j :: 0 <= j < n ==> CarriedAt(h, k, s, key, newkey, Recorded(h, s, key).value, j))
    && (forall j :: n <= j < |Recorded(h, s, key).value| && Lone(Recorded(h, s, key).value, key, newkey, j) ==>
          OwnFlags(k, s, Recorded(h, s, key).value[j].0) == OwnFlags(h, s, Recorded(h, s, key).value[j].0))
  }

  ghost predicate Updated(h: Heap, k: Heap, s: nat, newkey: string, held: bool) {
    && OnlyRecords(h, k)
    && forall v :: Recorded(k, s, v) ==
         Added(Recorded(h, s, v), newkey, if '_' in newkey && !held then OverrideFor(newkey, v) else None)
  }

  ghost predicate Deleted(h: Heap, k: Heap, s: nat, key: string) {
    && k.sets == h.sets && k.items == h.items
    && OwnFlags(k, s, key) == Some(map[]) && Recorded(k, s, key).None?
    && (forall v :: v != key ==> OwnFlags(k, s, v) == OwnFlags(h, s, v))
    && forall v :: v != key ==> Recorded(k, s, v) == Dropped(Recorded(h, s, v), key, ShorterRecord(key, v))
  }

  ghost predicate Finished(h: Heap, k: Heap, s: nat, key: string, newkey: string, held: bool) {
    exists mid :: Good(h, mid, s) && Updated(h, mid, s, newkey, held) && Good(mid, k, s) && Deleted(mid, k, s, key)
  }

  // Steps.

  lemma FollowedSelf(h: Heap, s: nat, c: Scope, key: string, newkey: string)
    requires Addressed(h) && s < |h.stores| && AllAppendable(h, s) && Short(h, s, c)
    ensures Followed(h, h, s, c, key, newkey)
  {
  }

  lemma FollowedThen(h: Heap, m: Heap, k: Heap, s: nat, c: Scope, key: string, newkey: string, v: string, w: string)
    requires Followed(h, m, s, c, key, newkey) && Followed(m, k, s, c, v, w)
    requires InFamily(key, v) && InFamily(newkey, w)
    ensures Followed(h, k, s, c, key, newkey)
  {
    hide InFamily, AllAppendable, Short, Recorded, OwnFlags, Holds, Addressed;
    forall x
      ensures InFamily(v, x) ==> InFamily(key, x)
      ensures InFamily(w, x) ==> InFamily(newkey, x)
      ensures x <= w ==> x <= newkey || InFamily(newkey, x)
    {
      FamilyDown(key, v, x);
      FamilyDown(newkey, w, x);
    }
  }

  /** A step that only records. */
  lemma RecordsFollow(h: Heap, k: Heap, s: nat, c: Scope, key: string, newkey: string)
    requires Addressed(h) && Addressed(k) && s < |h.stores| && OnlyRecords(h, k)
    requires AllAppendable(h, s) && Short(k, s, c)
    requires forall v :: Recorded(h, s, v).Some? ==> Recorded(k, s, v).Some?
    ensures Followed(h, k, s, c, key, newkey) && AllAppendable(k, s)
  {
    hide Short, Recorded;
    RecordsKeepFlags(h, k, s);
    forall v ensures OwnFlags(k, s, v) == OwnFlags(h, s, v) && ContentKept(h, k, s, v) {
      SameOwnFlags(h, k, s, v);
    }
    hide FlagOf, OwnFlags, ContentKept;
  }

  lemma AddedShort(h: Heap, k: Heap, s: nat, c: Scope, key: string, newkey: string, b: string)
    requires Within(c, key, newkey) && b <= newkey && Short(h, s, c)
    requires forall v ::
      Recorded(k, s, v) == Recorded(h, s, v) || Recorded(k, s, v) == Added(Recorded(h, s, v), b, OverrideFor(b, v))
    ensures Short(k, s, c)
    ensures forall v :: Recorded(h, s, v).Some? ==> Recorded(k, s, v).Some?
    ensures Recorded(k, s, key) == Recorded(h, s, key)
  {
    hide Recorded, OverrideFor, Within, InFamily, Extended;
    KeyInFamily(c, key, newkey);
    forall v | InFamily(c.key, v) ensures OverrideFor(b, v).Some? ==> v + "_" <= b && |b| < c.bound && v != key {
      if OverrideFor(b, v).Some? {
        NewRecord(c, key, newkey, b, v);
      }
    }
    forall v, p | PairIn(k, s, v, p) ensures PairIn(h, s, v, p) || (OverrideFor(b, v).Some? && p.0 == b) {
      AddedPair(Recorded(h, s, v), b, OverrideFor(b, v), p);
    }
  }

  lemma DelFollows(h: Heap, k: Heap, s: nat, c: Scope, key: string, newkey: string)
    requires Ok(h) && Good(h, k, s) && s < |h.stores| && Deleted(h, k, s, key)
    requires AllAppendable(h, s) && Short(h, s, c)
    ensures Followed(h, k, s, c, key, newkey)
    ensures forall v :: v != key ==> ContentKept(h, k, s, v)
  {
    hide Recorded, OnlyOwn, OwnFlags;
    ItemsKept(h, k, s);
    forall v, word | word in KEYWORDS ensures Appendable(FlagOf(k, s, v, word)) {
      if v == key {
        OwnIsFound(k, s, v);
        FoundFlags(k, s, v);
      } else {
        FoundKept(h, k, s, v);
        SameContents(h, k, s, v, word);
      }
    }
    forall v, p | InFamily(c.key, v) && PairIn(k, s, v, p) ensures PairIn(h, s, v, p) {
      if ShorterRecord(key, v).Some? && Recorded(h, s, v).Some? {
        RemovedIn(Recorded(h, s, v).value, (key, ShorterRecord(key, v).value), p);
      }
    }
    hide FlagOf, ShorterRecord;
  }

  /** The assignment to the new name. */
  lemma SetFollows(h: Heap, k: Heap, s: nat, c: Scope, key: string, newkey: string, value: Deep, ok: bool)
    requires Ok(h) && Good(h, k, s) && s < |h.stores| && VarSet(h, k, s, newkey, value, true, {}, ok)
    requires Within(c, key, newkey) && AllAppendable(h, s) && Short(h, s, c)
    ensures ok && Followed(h, k, s, c, key, newkey) && Recorded(k, s, key) == Recorded(h, s, key)
    ensures OthersSame(h, k, s, newkey)
    ensures KeywordFrom(newkey, 0).None? ==> Holds(k, s, newkey, "_content", value)
  {
    hide Ok, OnlyOwn, FlagOf, Found, Own, KeywordFrom, OverrideFor, Recorded, Holds, PairIn, Within, Short, ListFlag,
      OwnFlags, Addressed;
    OkAddressed(h);
    GoodAddressed(h, k, s);
    match KeywordFrom(newkey, 0)
    case None =>
      AddedShort(h, k, s, c, key, newkey, newkey);
      FlagFollows(h, k, s, c, key, newkey, newkey, "_content", value);
    case Some(w) =>
      KeywordKnown(newkey, 0);
      KeywordBase(newkey, 0);
      KeywordNames(w.keyword);
      assert ok;
      AddedShort(h, k, s, c, key, newkey, w.base);
      var items := ListFlag(h, s, w.base, w.keyword) + [(value, w.add)];
      FlagFollows(h, k, s, c, key, newkey, w.base, w.keyword, DList(items));
  }

  /** A step that sets one flag of the new name or of what it begins with. */
  lemma FlagFollows(h: Heap, k: Heap, s: nat, c: Scope, key: string, newkey: string, b: string, flag: string,
                    value: Deep)
    requires Ok(h) && Good(h, k, s) && s < |h.stores| && AllAppendable(h, s) && Short(k, s, c) && b <= newkey
    requires h.sets <= k.sets && Holds(k, s, b, flag, value)
    requires OwnFlags(k, s, b).value - {flag} == Found(h, s, b) - {flag}
    requires forall v :: v != b ==> OwnFlags(k, s, v) == OwnFlags(h, s, v)
    requires forall v :: Recorded(h, s, v).Some? ==> Recorded(k, s, v).Some?
    requires if flag in KEYWORDS then value.DList? else b == newkey
    ensures Followed(h, k, s, c, key, newkey)
  {
    ItemsKept(h, k, s);
    forall v, word | word in KEYWORDS ensures Appendable(FlagOf(k, s, v, word)) {
      if v == b && word == flag {
        HoldsIsFlag(k, s, b, flag, value);
      } else {
        FlagElsewhere(h, k, s, b, flag, v, word);
      }
    }
    forall v | !InFamily(newkey, v) ensures ContentKept(h, k, s, v) {
      if v == b && flag in KEYWORDS {
        KeywordNames(flag);
        BaseKept(h, k, s, b, flag);
      }
    }
    hide Ok, OnlyOwn, FlagOf, Found, Own, OwnFlags, Recorded, Holds, PairIn, Short;
  }

  lemma BaseKept(h: Heap, k: Heap, s: nat, b: string, flag: string)
    requires Ok(h) && Good(h, k, s) && s < |h.stores| && flag != "_content"
    requires h.sets <= k.sets && OwnFlags(k, s, b).Some?
    requires OwnFlags(k, s, b).value - {flag} == Found(h, s, b) - {flag}
    ensures ContentKept(h, k, s, b)
  {
    ItemsKept(h, k, s);
    OwnIsFound(h, s, b);
    MinusKeeps(OwnFlags(k, s, b).value, Found(h, s, b), flag, "_content");
    forall value | Holds(h, s, b, "_content", value) ensures Holds(k, s, b, "_content", value) {
      HoldsStill(h, k, s, b, "_content", value);
    }
  }

  /** What is pending has been moved. */
  lemma KeywordsFollow(h: Heap, k: Heap, s: nat, c: Scope, key: string, newkey: string)
    requires Ok(h) && Good(h, k, s) && s < |h.stores| && KeywordsMoved(h, k, s, key, newkey, |KEYWORDS|)
    requires AllAppendable(k, s) && Short(h, s, c)
    ensures Followed(h, k, s, c, key, newkey) && ContentKept(h, k, s, newkey)
  {
    hide Recorded, Ok, OnlyOwn, FlagOf, Own;
    GoodOk(h, k, s);
    OkAddressed(h);
    OkAddressed(k);
    assert "_content" !in KEYWORDS;
    assert SameFlag(h, k, s, newkey, "_content");
    OwnIsFound(h, s, newkey);
    OwnIsFound(k, s, newkey);
    forall v ensures ContentKept(h, k, s, v) {
      forall value | Holds(h, s, v, "_content", value) ensures Holds(k, s, v, "_content", value) {
        HoldsStill(h, k, s, v, "_content", value);
      }
    }
  }

  // The parts of a renaming.

  lemma SetInScope(h: Heap, k: Heap, s: nat, c: Scope, key: string, newkey: string, val: Option<Deep>, ok: bool,
                   depth: nat)
    requires Ok(h) && Good(h, k, s) && s < |h.stores|
    requires val.None? <==> RawOf(h, s, key).None?
    requires NothingRemoved(h, s, key) ==> val == RawOf(h, s, key)
    requires if val.Some? then VarSet(h, k, s, newkey, val.value, true, {}, ok) else ok && k == h
    ensures Settles(h, s, c, key, newkey, depth) ==> ok && SelfMoved(h, k, s, c, key, newkey)
  {
    hide Ok, OnlyOwn, VarSet, RawOf, NothingRemoved, Followed, Within, AllAppendable, Short, Holds, Recorded;
    OkAddressed(h);
    if Settles(h, s, c, key, newkey, depth) {
      if val.Some? {
        SetFollows(h, k, s, c, key, newkey, val.value, ok);
      } else {
        FollowedSelf(h, s, c, key, newkey);
      }
    }
  }

  lemma SettlesStill(h: Heap, k: Heap, s: nat, c: Scope, key: string, newkey: string, depth: nat)
    requires Addressed(h) && Addressed(k) && s < |h.stores| && s < |k.stores|
    requires Settles(h, s, c, key, newkey, depth) && SelfMoved(h, k, s, c, key, newkey)
    ensures Settles(k, s, c, key, newkey, depth)
  {
  }

  lemma JoinsAfterSet(h: Heap, k: Heap, s: nat, c: Scope, key: string, newkey: string, depth: nat)
    requires Addressed(h) && s < |h.stores| && Addressed(k) && s < |k.stores|
    ensures Unrecorded(h, s, key, newkey) && Ready(h, k, s, key, newkey) ==>
      key != newkey && (AllJoin(k, s, key, newkey, |KEYWORDS|) <==> AllJoin(h, s, key, newkey, |KEYWORDS|))
    ensures Settles(h, s, c, key, newkey, depth) && SelfMoved(h, k, s, c, key, newkey) ==>
      key != newkey && AllAppendable(k, s) && AllJoin(k, s, key, newkey, |KEYWORDS|)
  {
    if Settles(h, s, c, key, newkey, depth) {
      NotNew(c, key, newkey);
    }
    hide FlagOf, Recorded, Short, Holds, Within;
    assert forall j :: 0 <= j < |KEYWORDS| ==> KEYWORDS[j] in KEYWORDS;
  }

  lemma KeywordsInScope(h: Heap, mid: Heap, k: Heap, s: nat, c: Scope, key: string, newkey: string, depth: nat)
    requires Ok(h) && s < |h.stores| && Good(h, mid, s) && Good(mid, k, s)
    requires key != newkey ==> KeywordsMoved(mid, k, s, key, newkey, |KEYWORDS|)
    requires AllAppendable(mid, s) ==> AllAppendable(k, s)
    ensures Settles(h, s, c, key, newkey, depth) && SelfMoved(h, mid, s, c, key, newkey) ==>
      SelfMoved(h, k, s, c, key, newkey)
  {
    hide Ok, OnlyOwn, AllAppendable, Short, Holds, RawOf, NothingRemoved, OwnFlags, Recorded;
    OkAddressed(h);
    if Settles(h, s, c, key, newkey, depth) && SelfMoved(h, mid, s, c, key, newkey) {
      NotNew(c, key, newkey);
      GoodOk(h, mid, s);
      KeywordsFollow(mid, k, s, c, key, newkey);
      FollowedThen(h, mid, k, s, c, key, newkey, key, newkey);
    }
  }

  lemma MovingStart(h: Heap, k: Heap, s: nat, c: Scope, key: string, newkey: string, depth: nat)
    requires Ok(h) && s < |h.stores| && k == Record(h, s, newkey, []) && Addressed(k) && Recorded(h, s, key).Some?
    ensures Settles(h, s, c, key, newkey, depth) ==> Moving(h, k, s, c, key, newkey, 0)
  {
    if Settles(h, s, c, key, newkey, depth) {
      assert forall v :: Recorded(k, s, v) == if v == newkey then Some([]) else Recorded(h, s, v);
      assert Short(k, s, c);
      assert OnlyRecords(h, k);
      RecordsFollow(h, k, s, c, key, newkey);
      SameOwnFlags(h, k, s, newkey);
      hide Followed, Recorded;
    }
  }

  lemma MovingHasList(h: Heap, k: Heap, s: nat, c: Scope, key: string, newkey: string, n: nat)
    requires Ok(h) && s < |h.stores| && Ok(k) && s < |k.stores|
    ensures Moving(h, k, s, c, key, newkey, n) ==> newkey in k.stores[s].overridedata
  {
  }

  lemma NextShort(h: Heap, m: Heap, k: Heap, s: nat, c: Scope, key: string, newkey: string, p: Pair, o: string)
    requires Within(c, key, newkey) && Short(h, s, c) && PairIn(h, s, key, p) && Short(m, s, c)
    requires Recorded(m, s, newkey).Some?
    requires Recorded(k, s, newkey) == Some(Recorded(m, s, newkey).value + [(Replaced(p.0, key, newkey), o)])
    requires forall v :: v != newkey ==> Recorded(k, s, v) == Recorded(m, s, v)
    ensures key + "_" <= p.0 && |p.0| < c.bound && Within(c, p.0, Replaced(p.0, key, newkey)) && Short(k, s, c)
  {
    assert InFamily(c.key, key);
    WithinNested(c, key, newkey, p.0);
    var q := (Replaced(p.0, key, newkey), o);
    hide Recorded, Replaced, Within;
    assert forall v, r :: PairIn(k, s, v, r) ==> PairIn(m, s, v, r) || (v == newkey && r == q);
  }

  lemma MovingAppend(h: Heap, m: Heap, k: Heap, s: nat, c: Scope, key: string, newkey: string, n: nat, o: string,
                     depth: nat)
    requires Addressed(h) && s < |h.stores| && Settles(h, s, c, key, newkey, depth)
    requires Moving(h, m, s, c, key, newkey, n)
    requires n < |Recorded(h, s, key).value| && Addressed(k) && OnlyRecords(m, k)
    requires var v := Recorded(h, s, key).value[n].0;
             Recorded(k, s, newkey) == Some(Recorded(m, s, newkey).value + [(Replaced(v, key, newkey), o)])
    requires forall v :: v != newkey ==> Recorded(k, s, v) == Recorded(m, s, v)
    ensures var v := Recorded(h, s, key).value[n].0;
            key + "_" <= v && |v| < c.bound && Settles(k, s, c, v, Replaced(v, key, newkey), depth - 1)
    ensures Moving(h, k, s, c, key, newkey, n)
  {
    hide Recorded, Replaced, Within, AllAppendable, Short, Addressed, OwnFlags, Holds;
    NextShort(h, m, k, s, c, key, newkey, Recorded(h, s, key).value[n], o);
    RecordsFollow(m, k, s, c, key, newkey);
    FollowedThen(h, m, k, s, c, key, newkey, key, newkey);
    forall x ensures OwnFlags(k, s, x) == OwnFlags(m, s, x) && ContentKept(m, k, s, x) {
      SameOwnFlags(m, k, s, x);
      SameContent(m, k, s, x);
    }
    MovingStill(h, m, k, s, c, key, newkey, n);
  }

  lemma MovingStill(h: Heap, m: Heap, k: Heap, s: nat, c: Scope, key: string, newkey: string, n: nat)
    requires Addressed(h) && s < |h.stores| && Moving(h, m, s, c, key, newkey, n) && Followed(h, k, s, c, key, newkey)
    requires forall v :: OwnFlags(k, s, v) == OwnFlags(m, s, v) && ContentKept(m, k, s, v)
    requires Recorded(k, s, newkey).Some?
    ensures Moving(h, k, s, c, key, newkey, n)
  {
    hide Recorded, Replaced, Followed, Addressed, OwnFlags, Holds, Lone, RawOf, NothingRemoved;
    forall j | 0 <= j < n ensures CarriedAt(h, k, s, key, newkey, Recorded(h, s, key).value, j) {
      assert CarriedAt(h, m, s, key, newkey, Recorded(h, s, key).value, j);
      assert ContentKept(m, k, s, Replaced(Recorded(h, s, key).value[j].0, key, newkey));
    }
    assert ContentKept(m, k, s, newkey);
  }

  lemma SameContent(h: Heap, k: Heap, s: nat, v: string)
    requires OnlyRecords(h, k)
    ensures ContentKept(h, k, s, v)
  {
    SameOwnFlags(h, k, s, v);
  }

  lemma MovingNext(h: Heap, m: Heap, k: Heap, s: nat, c: Scope, key: string, newkey: string, n: nat, depth: nat)
    requires Ok(h) && Good(h, m, s) && s < |h.stores| && Settles(h, s, c, key, newkey, depth)
    requires Moving(h, m, s, c, key, newkey, n)
    requires n < |Recorded(h, s, key).value|
    requires var v := Recorded(h, s, key).value[n].0;
             key + "_" <= v && |v| < c.bound && Followed(m, k, s, c, v, Replaced(v, key, newkey)) &&
             OwnFlags(k, s, v) == Some(map[]) && ContentMoved(m, k, s, v, Replaced(v, key, newkey))
    ensures Moving(h, k, s, c, key, newkey, n + 1)
  {
    hide Recorded, Replaced, Within, OwnFlags, AllAppendable, Addressed, Holds, InFamily, CarriedAt, Lone, ContentMoved;
    var l := Recorded(h, s, key).value;
    var v := l[n].0;
    var w := Replaced(v, key, newkey);
    NextNames(c, key, newkey, v);
    FollowedThen(h, m, k, s, c, key, newkey, v, w);
    forall j | 0 <= j < |l| && !InFamily(newkey, l[j].0)
      ensures !InFamily(w, l[j].0) && !(l[j].0 <= w)
    {
      assert PairIn(h, s, key, l[j]);
      NotLeading(key, newkey, l[j].0, w);
    }
    CarriedNext(h, m, k, s, c, key, newkey, l, n);
  }

  lemma CarriedNext(h: Heap, m: Heap, k: Heap, s: nat, c: Scope, key: string, newkey: string, l: seq<Pair>, n: nat)
    requires Ok(h) && Good(h, m, s) && s < |h.stores| && n < |l|
    requires Recorded(h, s, key) == Some(l) && Moving(h, m, s, c, key, newkey, n)
    requires var v, w := l[n].0, Replaced(l[n].0, key, newkey);
             Followed(m, k, s, c, v, w) && ContentMoved(m, k, s, v, w)
    requires forall j :: 0 <= j < |l| && !InFamily(newkey, l[j].0) ==>
               !InFamily(Replaced(l[n].0, key, newkey), l[j].0) && !(l[j].0 <= Replaced(l[n].0, key, newkey))
    ensures forall j :: 0 <= j <= n ==> CarriedAt(h, k, s, key, newkey, l, j)
    ensures forall j :: n < j < |l| && Lone(l, key, newkey, j) ==> OwnFlags(k, s, l[j].0) == OwnFlags(h, s, l[j].0)
  {
    hide Ok, OnlyOwn, Recorded, OwnFlags, AllAppendable, Short, InFamily, Replaced, Holds, Addressed, RawOf,
      NothingRemoved;
    OkAddressed(h);
    GoodAddressed(h, m, s);
    forall j | 0 <= j < n ensures CarriedAt(h, k, s, key, newkey, l, j) {
      assert CarriedAt(h, m, s, key, newkey, l, j);
      if Lone(l, key, newkey, j) {
        assert Parted(l[n].0, l[j].0, key, newkey);
        assert ContentKept(m, k, s, Replaced(l[j].0, key, newkey));
      }
    }
    if Lone(l, key, newkey, n) {
      SameRaw(h, m, s, l[n].0);
    }
    forall j | n < j < |l| && Lone(l, key, newkey, j) ensures OwnFlags(k, s, l[j].0) == OwnFlags(h, s, l[j].0) {
      assert Parted(l[n].0, l[j].0, key, newkey);
    }
  }

  lemma SameRaw(h: Heap, k: Heap, s: nat, v: string)
    requires Ok(h) && Good(h, k, s) && s < |h.stores| && OwnFlags(k, s, v) == OwnFlags(h, s, v)
    requires h.sets <= k.sets
    ensures RawOf(k, s, v) == RawOf(h, s, v) && (NothingRemoved(k, s, v) <==> NothingRemoved(h, s, v))
  {
    FoundKept(h, k, s, v);
    ItemsKept(h, k, s);
    SameContents(h, k, s, v, "_content");
    SameContents(h, k, s, v, "_defaultval");
    SameContents(h, k, s, v, "_remove");
  }

  lemma SettlesApart(h: Heap, s: nat, c: Scope, key: string, newkey: string, depth: nat)
    requires Addressed(h) && s < |h.stores| && Settles(h, s, c, key, newkey, depth)
    ensures key != newkey
  {
    NotNew(c, key, newkey);
  }

  lemma UpdateFollows(h: Heap, k: Heap, s: nat, c: Scope, key: string, newkey: string, held: bool)
    requires Addressed(h) && Addressed(k) && s < |h.stores| && Updated(h, k, s, newkey, held)
    requires Within(c, key, newkey) && AllAppendable(h, s) && Short(h, s, c)
    ensures Followed(h, k, s, c, key, newkey) && AllAppendable(k, s) && Short(k, s, c)
    ensures forall v :: ContentKept(h, k, s, v)
  {
    hide OverrideFor, Recorded, OwnFlags, Short, Followed, AllAppendable, Within, Addressed, ContentKept;
    AddedShort(h, k, s, c, key, newkey, newkey);
    RecordsFollow(h, k, s, c, key, newkey);
    forall v ensures ContentKept(h, k, s, v) {
      SameContent(h, k, s, v);
    }
  }

  lemma FinishFollows(h: Heap, k: Heap, s: nat, c: Scope, key: string, newkey: string, held: bool)
    requires Ok(h) && s < |h.stores| && Finished(h, k, s, key, newkey, held)
    requires Within(c, key, newkey) && AllAppendable(h, s) && Short(h, s, c)
    ensures Followed(h, k, s, c, key, newkey) && forall v :: v != key ==> ContentKept(h, k, s, v)
  {
    hide Ok, Good, Updated, Deleted, Short, Followed, AllAppendable, Within, Holds, Addressed;
    OkAddressed(h);
    var mid :| Good(h, mid, s) && Updated(h, mid, s, newkey, held) && Good(mid, k, s) && Deleted(mid, k, s, key);
    GoodAddressed(h, mid, s);
    GoodOk(h, mid, s);
    NotNew(c, key, newkey);
    UpdateFollows(h, mid, s, c, key, newkey, held);
    DelFollows(mid, k, s, c, key, newkey);
    FollowedThen(h, mid, k, s, c, key, newkey, key, newkey);
    forall v | v != key ensures ContentKept(h, k, s, v) {
      assert ContentKept(h, mid, s, v) && ContentKept(mid, k, s, v);
    }
  }

  /** What the loop over the override variables leaves. */
  ghost predicate OverridesMoved(h: Heap, k: Heap, s: nat, c: Scope, key: string, newkey: string)
    requires Addressed(h) && s < |h.stores|
  {
    && Followed(h, k, s, c, key, newkey) && ContentKept(h, k, s, newkey) && Emptied(h, k, s, key, newkey)
    && Carried(h, k, s, key, newkey)
  }

  lemma AllMoved(h: Heap, k: Heap, s: nat, c: Scope, key: string, newkey: string)
    requires Addressed(h) && s < |h.stores|
    requires Recorded(h, s, key).Some? && Moving(h, k, s, c, key, newkey, |Recorded(h, s, key).value|)
    ensures OverridesMoved(h, k, s, c, key, newkey)
  {
    hide Followed, OwnFlags, ContentKept, Recorded, CarriedAt, Lone;
  }

  lemma NoneMoved(h: Heap, s: nat, c: Scope, key: string, newkey: string, depth: nat)
    requires Addressed(h) && s < |h.stores| && Settles(h, s, c, key, newkey, depth) && Recorded(h, s, key).None?
    ensures OverridesMoved(h, h, s, c, key, newkey)
  {
    FollowedSelf(h, s, c, key, newkey);
  }

  lemma RenamedInScope(h: Heap, own: Heap, last: Heap, k: Heap, s: nat, c: Scope, key: string, newkey: string,
                       depth: nat, held: bool)
    requires Ok(h) && s < |h.stores| && Good(h, own, s) && Ok(last) && s < |last.stores|
    requires Settles(h, s, c, key, newkey, depth)
    requires SelfMoved(h, own, s, c, key, newkey) && OverridesMoved(own, last, s, c, key, newkey)
    requires Finished(last, k, s, key, newkey, held)
    ensures Followed(h, k, s, c, key, newkey) && Emptied(h, k, s, key, newkey) && ContentMoved(h, k, s, key, newkey)
    ensures Carried(h, k, s, key, newkey)
  {
    hide Ok, OnlyOwn, Recorded, OwnFlags, AllAppendable, Addressed, Holds, RawOf, NothingRemoved, Finished, Replaced,
      Within, InFamily, Carried;
    OkAddressed(h);
    OkAddressed(last);
    FinishFollows(last, k, s, c, key, newkey, held);
    SameFamily(key, newkey);
    FollowedThen(h, own, last, s, c, key, newkey, key, newkey);
    FollowedThen(h, last, k, s, c, key, newkey, key, newkey);
    NotNew(c, key, newkey);
    KeyInFamily(c, key, newkey);
    forall p | PairIn(h, s, key, p) && !InFamily(newkey, p.0) ensures OwnFlags(k, s, p.0) == Some(map[]) {
      assert PairIn(own, s, key, p);
      NotPrefix(key, newkey, p.0);
    }
    assert ContentKept(own, last, s, newkey) && ContentKept(last, k, s, newkey);
    CarriedThrough(h, own, last, k, s, c, key, newkey);
  }

  lemma CarriedThrough(h: Heap, own: Heap, last: Heap, k: Heap, s: nat, c: Scope, key: string, newkey: string)
    requires Ok(h) && s < |h.stores| && Good(h, own, s) && h.sets <= own.sets
    requires Within(c, key, newkey) && Short(h, s, c)
    requires Recorded(own, s, key) == Recorded(h, s, key) && OthersSame(h, own, s, newkey)
    requires Carried(own, last, s, key, newkey) && forall v :: v != key ==> ContentKept(last, k, s, v)
    ensures Carried(h, k, s, key, newkey)
  {
    hide Ok, OnlyOwn, Recorded, OwnFlags, Addressed, Holds, RawOf, NothingRemoved, Replaced, Within, InFamily;
    OkAddressed(h);
    GoodAddressed(h, own, s);
    NotNew(c, key, newkey);
    KeyInFamily(c, key, newkey);
    if Recorded(h, s, key).Some? {
      var l := Recorded(h, s, key).value;
      forall i | 0 <= i < |l| ensures CarriedAt(h, k, s, key, newkey, l, i) {
        assert CarriedAt(own, last, s, key, newkey, l, i);
        assert PairIn(h, s, key, l[i]);
        NotPrefix(key, newkey, l[i].0);
        if Lone(l, key, newkey, i) {
          SameRaw(h, own, s, l[i].0);
          assert ContentKept(last, k, s, Replaced(l[i].0, key, newkey));
        }
      }
    }
  }

  lemma RenamedAlone(h: Heap, last: Heap, k: Heap, s: nat, key: string, newkey: string, held: bool)
    requires Addressed(h) && s < |h.stores| && Finished(last, k, s, key, newkey, held)
    ensures OwnFlags(k, s, key) == Some(map[]) && Recorded(k, s, key).None?
    ensures key != newkey && Moved(h, last, s, key, newkey) ==> Moved(h, k, s, key, newkey)
  {
    var mid :| Good(last, mid, s) && Updated(last, mid, s, newkey, held) && Good(mid, k, s) && Deleted(mid, k, s, key);
    hide Ok, OnlyOwn, Moved, Recorded;
    MovedKept(h, last, mid, k, s, key, newkey);
  }

  lemma AloneSplits(h: Heap, s: nat, key: string, newkey: string)
    requires Addressed(h) && s < |h.stores| && Alone(h, s, key, newkey)
    ensures key != newkey
    ensures Unrecorded(h, s, key, newkey) <==> !RecordsNew(h, s, key, newkey)
    ensures RecordsNew(h, s, key, newkey) ==> Nests(h, s, key, newkey)
  {
    if RecordsNew(h, s, key, newkey) {
      RecordOccurs(key, newkey);
    }
  }

  lemma MovedRecorded(h: Heap, own: Heap, last: Heap, s: nat, key: string, newkey: string)
    requires Addressed(h) && s < |h.stores| && OnlyRecords(own, last)
    ensures Moved(h, own, s, key, newkey) ==> Moved(h, last, s, key, newkey)
  {
    SameOwnFlags(own, last, s, newkey);
    if Moved(h, own, s, key, newkey) {
      forall j | 0 <= j < |KEYWORDS| ensures KeywordMoved(h, last, s, key, newkey, KEYWORDS[j]) {
        assert KeywordMoved(h, own, s, key, newkey, KEYWORDS[j]);
      }
    }
  }

  /** What a new store holds after `A` and `A_x` have been set. */
  ghost predicate HoldsBoth(h: Heap, s: nat)
    requires Addressed(h) && s < |h.stores|
  {
    && Recorded(h, s, "A") == Some([("A_x", "x")])
    && RawOf(h, s, "A") == Some(DText("v")) && NothingRemoved(h, s, "A")
    && RawOf(h, s, "A_x") == Some(DText("w")) && NothingRemoved(h, s, "A_x")
  }

  lemma SettlesFromNew(h: Heap, m: Heap, k: Heap, s: nat, depth: nat)
    requires Ok(h) && Good(h, m, s) && Good(m, k, s) && s < |h.stores| && depth >= 3
    requires forall v :: View(h, s, v).None? && Recorded(h, s, v).None?
    requires exists ok :: VarSet(h, m, s, "A", DText("v"), true, {}, ok)
    requires exists ok :: VarSet(m, k, s, "A_x", DText("w"), true, {}, ok)
    ensures Addressed(k) && s < |k.stores|
    ensures HoldsBoth(k, s) && Settles(k, s, Scope("A", "B", depth + 1), "A", "B", depth)
  {
    hide OnlyOwn, Ok, Found, Own, OwnFlags, Recorded, KeywordFrom, ShorterRecord, Holds, View;
    OkAddressed(h);
    GoodOk(h, m, s);
    OkAddressed(m);
    GoodAddressed(m, k, s);
    NoKeywordBehind("A", 0);
    PlainName();
    assert PlainSet(h, m, s, "A", DText("v"), true, {}, true);
    assert PlainSet(m, k, s, "A_x", DText("w"), true, {}, true);
    HoldsIsFlag(m, s, "A", "_content", DText("v"));
    GoodOk(m, k, s);
    HoldsIsFlag(k, s, "A_x", "_content", DText("w"));
    forall v, f | f != "_content" ensures FlagOf(k, s, v, f).None? {
      SetKeepsFlags(h, m, s, "A", DText("v"), v, f);
      SetKeepsFlags(m, k, s, "A_x", DText("w"), v, f);
    }
    SetKeepsFlags(m, k, s, "A_x", DText("w"), "A", "_content");
    RecordsOfBoth(h, m, k, s);
    BesideAB();
    forall word | word in KEYWORDS ensures word != "_content" {
      KeywordNames(word);
    }
    assert "A" + "_" <= "A_x";
    hide FlagOf;
  }

  lemma RecordsOfBoth(h: Heap, m: Heap, k: Heap, s: nat)
    requires forall v :: Recorded(h, s, v).None?
    requires forall v :: Recorded(m, s, v) == Added(Recorded(h, s, v), "A", ShorterRecord("A", v))
    requires forall v :: Recorded(k, s, v) == Added(Recorded(m, s, v), "A_x", ShorterRecord("A_x", v))
    ensures forall v :: Recorded(k, s, v) == if v == "A" then Some([("A_x", "x")]) else None
  {
    hide Recorded;
    RecordOfA();
    assert [] + [("A_x", "x")] == [("A_x", "x")];
    forall v ensures Recorded(k, s, v) == if v == "A" then Some([("A_x", "x")]) else None {
      OnlyForA(v);
      hide ShorterRecord;
    }
  }

  lemma WithOverrideMoved(h: Heap, k: Heap, s: nat)
    requires Addressed(h) && s < |h.stores| && HoldsBoth(h, s)
    requires ContentMoved(h, k, s, "A", "B") && Emptied(h, k, s, "A", "B") && Carried(h, k, s, "A", "B")
    ensures OwnFlags(k, s, "A_x") == Some(map[])
    ensures Holds(k, s, "B", "_content", DText("v")) && Holds(k, s, "B_x", "_content", DText("w"))
  {
    hide Recorded, RawOf, NothingRemoved, Holds, OwnFlags, KeywordFrom;
    NoKeywordBehind("B", 0);
    PlainNameOfB();
    LoneOverride();
    assert PairIn(h, s, "A", ("A_x", "x"));
    assert CarriedAt(h, k, s, "A", "B", [("A_x", "x")], 0);
  }

  class DataHeap {
    var h: Heap

    constructor ()
      ensures Ok(h) && |h.stores| == 0
    {
      h := Heap([], [], [], [], [], []);
    }

    /** `self.dict[v] = m`. */
    method Hold(ghost start: Heap, s: nat, v: string, m: map<string, Flag>)
      requires Good(start, h, s) && forall f :: f in m ==> FlagOk(h, m[f])
      requires forall f :: f in m && m[f].Names? ==> RefersToSet(h, v == EXPORTLIST, m[f].names)
      modifies this
      ensures Good(start, h, s) && h == HoldNew(old(h), s, v, m)
      ensures OwnFlags(h, s, v) == Some(m)
      ensures forall w :: w != v ==> OwnFlags(h, s, w) == OwnFlags(old(h), s, w)
    {
      HoldNewKeeps(h, s, v, m);
      GoodThen(start, h, HoldNew(h, s, v, m), s);
      hide OnlyOwn;
      h := HoldNew(h, s, v, m);
    }

    /** `self.dict[v][f] = value`. */
    method Put(ghost start: Heap, s: nat, v: string, f: string, value: Deep)
      requires Good(start, h, s) && OwnFlags(h, s, v).Some?
      modifies this
      ensures Good(start, h, s)
      ensures Holds(h, s, v, f, value)
      ensures OwnFlags(h, s, v).value - {f} == OwnFlags(old(h), s, v).value - {f}
      ensures forall w :: w != v ==> OwnFlags(h, s, w) == OwnFlags(old(h), s, w)
      ensures h.stores == old(h).stores && h.lists == old(h).lists
      ensures if value.DNames? then
                h.sets == old(h).sets + [value.names] && OwnFlags(h, s, v).value[f] == Names(|old(h).sets|)
              else h.sets == old(h).sets
    {
      var a := h.dicts[Own(h, s)].vars[v];
      PutFlagChanges(h, a, f, value);
      InnerChangedKeeps(h, PutFlag(h, a, f, value), s, v, a);
      GoodThen(start, h, PutFlag(h, a, f, value), s);
      OthersKept(h, PutFlag(h, a, f, value), s, v, a);
      hide OnlyOwn, Ok, InnerChanged;
      h := PutFlag(h, a, f, value);
    }

    /** `del self.dict[v][f]`. */
    method Drop(ghost start: Heap, s: nat, v: string, f: string)
      requires Good(start, h, s) && OwnFlags(h, s, v).Some?
      modifies this
      ensures Good(start, h, s)
      ensures OwnFlags(h, s, v) == Some(OwnFlags(old(h), s, v).value - {f})
      ensures forall w :: w != v ==> OwnFlags(h, s, w) == OwnFlags(old(h), s, w)
      ensures h.stores == old(h).stores && h.lists == old(h).lists && h.items == old(h).items && h.sets == old(h).sets
    {
      var a := h.dicts[Own(h, s)].vars[v];
      DropFlagChanges(h, a, f);
      InnerChangedKeeps(h, DropFlag(h, a, f), s, v, a);
      GoodThen(start, h, DropFlag(h, a, f), s);
      OthersKept(h, DropFlag(h, a, f), s, v, a);
      hide OnlyOwn, Ok, InnerChanged;
      h := DropFlag(h, a, f);
    }

    /** `_makeShadowCopy`: a shallow copy, which shares lists and sets with the original. */
    method MakeShadowCopy(ghost start: Heap, s: nat, v: string)
      requires Good(start, h, s)
      modifies this
      ensures Good(start, h, s) && OwnFlags(h, s, v) == Some(Found(old(h), s, v))
      ensures forall w :: w != v ==> OwnFlags(h, s, w) == OwnFlags(old(h), s, w)
      ensures View(h, s, v) == if View(old(h), s, v).None? then Some(map[]) else View(old(h), s, v)
      ensures h.stores == old(h).stores && h.lists == old(h).lists && h.items == old(h).items && h.sets == old(h).sets
    {
      var d := Own(h, s);
      if v in h.dicts[d].vars {
        return;
      }
      var found := FindVar(h, d, v);
      FoundAddressed(h, d, v);
      var m: map<string, Flag> := map[];
      if found.Some? && h.inner[found.value] != map[] {
        ghost var e := Finder(h, d, v);
        FoundRefers(h, e, v);
        m := h.inner[found.value];
      }
      ShadowView(h, s, v, m);
      hide Good, View, HoldNew;
      Hold(start, s, v, m);
    }

    /** `self.overridedata[v] = list(...)`, then an append to the new list. */
    method RecordPair(ghost start: Heap, s: nat, v: string, p: Pair)
      requires Good(start, h, s)
      modifies this
      ensures Good(start, h, s) && OnlyRecords(old(h), h)
      ensures Recorded(h, s, v) == Some(Extended(Recorded(old(h), s, v), p))
      ensures forall w :: w != v ==> Recorded(h, s, w) == Recorded(old(h), s, w)
    {
      hide OnlyOwn, HoldsAt, RefersToSet, FlagOk;
      ghost var was := Recorded(h, s, v);
      if v !in h.stores[s].overridedata {
        NewList(start, s, v, []);
      }
      assert Recorded(h, s, v) == Some(if was.None? then [] else was.value);
      if p !in h.lists[h.stores[s].overridedata[v]] {
        NewList(start, s, v, h.lists[h.stores[s].overridedata[v]]);
        AppendTo(start, s, v, p);
      }
    }

    /** `self.overridedata[v] = list(l)`. */
    method NewList(ghost start: Heap, s: nat, v: string, l: seq<Pair>)
      requires Good(start, h, s)
      modifies this
      ensures Good(start, h, s) && h == Record(old(h), s, v, l)
      ensures |start.lists| <= h.stores[s].overridedata[v] < |h.lists| && Recorded(h, s, v) == Some(l)
      ensures forall w :: w != v ==> Recorded(h, s, w) == Recorded(old(h), s, w)
    {
      RecordKeeps(h, s, v, l);
      GoodThen(start, h, Record(h, s, v, l), s);
      h := Record(h, s, v, l);
    }

    /** `self.overridedata[v].append(p)`. */
    method AppendTo(ghost start: Heap, s: nat, v: string, p: Pair)
      requires Good(start, h, s) && v in h.stores[s].overridedata
      requires |start.lists| <= h.stores[s].overridedata[v] < |h.lists|
      modifies this
      ensures Good(start, h, s) && h == Append(old(h), old(h).stores[s].overridedata[v], p)
      ensures Recorded(h, s, v) == Some(Recorded(old(h), s, v).value + [p])
      ensures forall w :: w != v ==> Recorded(h, s, w) == Recorded(old(h), s, w)
    {
      AppendKeeps(start, h, s, h.stores[s].overridedata[v], p);
      hide OnlyOwn, Ok;
      h := Append(h, h.stores[s].overridedata[v], p);
    }

    /** `_setvar_update_overrides`: under each shorter name that it comes to, the pair is recorded once. */
    method UpdateOverrides(ghost start: Heap, s: nat, v: string)
      requires Good(start, h, s)
      modifies this
      ensures Good(start, h, s) && OnlyRecords(old(h), h)
      ensures forall w :: Recorded(h, s, w) == Added(Recorded(old(h), s, w), v, OverrideFor(v, w))
    {
      NotLower();
      hide Good, Recorded, IsLower, OverrideOf, ShortVar, NextOverride, Extended;
      var override, shortvar := OverrideOf(v), ShortVar(v);
      while override != "" && IsLower(override)
        invariant Good(start, h, s) && OnlyRecords(old(h), h) && |shortvar| <= |v|
        invariant forall w :: OverrideFrom(v, override, shortvar, w).Some? ==>
          OverrideFrom(v, override, shortvar, w) == OverrideFor(v, w) && Recorded(h, s, w) == Recorded(old(h), s, w)
        invariant forall w :: OverrideFrom(v, override, shortvar, w).None? ==>
          Recorded(h, s, w) == Added(Recorded(old(h), s, w), v, OverrideFor(v, w))
        decreases |shortvar|, override != ""
      {
        NextOnce(v, override, shortvar);
        RecordPair(start, s, shortvar, (v, override));
        var (o, w) := NextOverride(v, shortvar);
        override, shortvar := o, w;
      }
    }

    /** The step of `setVar` and `setVarFlag` for names with an underscore. */
    method RecordShorter(ghost start: Heap, s: nat, v: string)
      requires Good(start, h, s)
      modifies this
      ensures Good(start, h, s) && OnlyRecords(old(h), h)
      ensures forall w :: Recorded(h, s, w) == Added(Recorded(old(h), s, w), v, ShorterRecord(v, w))
      ensures forall w :: OwnFlags(h, s, w) == OwnFlags(old(h), s, w)
    {
      hide Good, Recorded, OverrideFor, Extended;
      if '_' in v {
        UpdateOverrides(start, s, v);
      }
    }

    method ForgetList(ghost start: Heap, s: nat, v: string)
      requires Good(start, h, s)
      modifies this
      ensures Good(start, h, s) && OnlyRecords(old(h), h) && Recorded(h, s, v).None?
      ensures forall w :: w != v ==> Recorded(h, s, w) == Recorded(old(h), s, w)
    {
      ForgetKeeps(h, s, v);
      GoodThen(start, h, Forget(h, s, v), s);
      hide OnlyOwn, Ok;
      h := Forget(h, s, v);
    }

    /** `delVar`. */
    method DelVar(ghost start: Heap, s: nat, v: string)
      requires Good(start, h, s)
      modifies this
      ensures Good(start, h, s) && h.sets == old(h).sets && h.items == old(h).items
      ensures OwnFlags(h, s, v) == Some(map[]) && Recorded(h, s, v).None?
      ensures forall w :: w != v ==> OwnFlags(h, s, w) == OwnFlags(old(h), s, w)
      ensures forall w :: w != v ==>
        Recorded(h, s, w) == Dropped(Recorded(old(h), s, w), v, ShorterRecord(v, w))
    {
      NotLower();
      hide OnlyOwn, Ok, Recorded, IsLower, OverrideOf, ShortVar, NextOverride, RemoveFirst;
      ghost var before := h;
      Hold(start, s, v, map[]);
      ghost var held := h;
      RecordsKept(before, held, s);
      ForgetList(start, s, v);
      ghost var was := h;
      hide Good;
      if '_' in v {
        ShorterThan(v);
        var override, shortvar := OverrideOf(v), ShortVar(v);
        while override != "" && IsLower(override)
          invariant Good(start, h, s) && OnlyRecords(held, h) && |shortvar| < |v|
          invariant forall w :: OverrideFrom(v, override, shortvar, w).Some? ==>
            OverrideFrom(v, override, shortvar, w) == OverrideFor(v, w) && Recorded(h, s, w) == Recorded(was, s, w)
          invariant forall w :: OverrideFrom(v, override, shortvar, w).None? ==>
            Recorded(h, s, w) == Dropped(Recorded(was, s, w), v, OverrideFor(v, w))
          decreases |shortvar|, override != ""
        {
          NextOnce(v, override, shortvar);
          ForgetPair(start, s, shortvar, (v, override));
          var (o, w) := NextOverride(v, shortvar);
          override, shortvar := o, w;
        }
      }
      forall w ensures OwnFlags(h, s, w) == OwnFlags(held, s, w) {
        SameOwnFlags(held, h, s, w);
      }
    }

    /** `self.overridedata[v] = list(...)`, then the removal of the first occurrence of the pair. */
    method ForgetPair(ghost start: Heap, s: nat, v: string, p: Pair)
      requires Good(start, h, s)
      modifies this
      ensures Good(start, h, s) && OnlyRecords(old(h), h)
      ensures match Recorded(old(h), s, v)
              case None => Recorded(h, s, v) == None
              case Some(l) => Recorded(h, s, v) == Some(RemoveFirst(l, p))
      ensures forall w :: w != v ==> Recorded(h, s, w) == Recorded(old(h), s, w)
    {
      if v in h.stores[s].overridedata {
        assert Recorded(h, s, v).Some?;
        NewList(start, s, v, RemoveFirst(h.lists[h.stores[s].overridedata[v]], p));
      }
    }

    /** Makes sure that the store's own dictionary holds what is found under `__exportlist`. */
    method HoldExports(ghost start: Heap, s: nat)
      requires Good(start, h, s)
      modifies this
      ensures Good(start, h, s) && h.stores == old(h).stores && h.lists == old(h).lists
      ensures OwnFlags(h, s, EXPORTLIST).Some? && "_content" in OwnFlags(h, s, EXPORTLIST).value
      ensures OwnFlags(h, s, EXPORTLIST).value["_content"] ==
        if ExportRef(old(h), s).Some? then ExportRef(old(h), s).value else Names(|old(h).sets|)
      ensures h.sets == old(h).sets + if ExportRef(old(h), s).Some? then [] else [{}]
      ensures forall w :: w != EXPORTLIST ==> OwnFlags(h, s, w) == OwnFlags(old(h), s, w)
    {
      OwnIsFound(h, s, EXPORTLIST);
      hide OnlyOwn, Found;
      if OwnFlags(h, s, EXPORTLIST).None? {
        MakeShadowCopy(start, s, EXPORTLIST);
      }
      if "_content" !in OwnFlags(h, s, EXPORTLIST).value {
        Put(start, s, EXPORTLIST, "_content", DNames({}));
      }
    }

    /** Adds `v` to the set of exported names, in place; fails if something else is kept there. */
    method AddToExportlist(ghost start: Heap, s: nat, v: string) returns (ok: bool)
      requires Good(start, h, s)
      modifies this
      ensures Good(start, h, s) && h.stores == old(h).stores && h.lists == old(h).lists
      ensures ok <==> ExportRef(old(h), s).None? || ExportRef(old(h), s).value.Names?
      ensures ok ==> Exports(h, s) == Exports(old(h), s) + {v}
      ensures forall t: nat :: Outside(old(h), s, t) ==>
        (View(h, t, EXPORTLIST) != View(old(h), t, EXPORTLIST) <==> ExportSeenBy(old(h), s, t, v))
      ensures forall t: nat :: ok && Outside(old(h), s, t) && SharesExports(old(h), s, t) ==>
        Exports(h, t) == Exports(old(h), s) + {v}
      ensures forall w :: w != EXPORTLIST ==> OwnFlags(h, s, w) == OwnFlags(old(h), s, w)
    {
      hide OnlyOwn, Found, View, Exports, ExportRef, FindsSet, SharesExports;
      ghost var was := h;
      GoodSelf(h, s);
      HoldExports(was, s);
      ghost var mid := h;
      var f := OwnFlags(h, s, EXPORTLIST).value["_content"];
      HeldExports(was, mid, s);
      GoodThen(start, was, mid, s);
      ok := f.Names?;
      if ok {
        OwnRefers(h, s, EXPORTLIST, "_content");
        AddedName(start, mid, s, f.names, v);
        h := AddName(h, f.names, v);
      }
    }

    /** `setVarFlag` before it comes to exported names. */
    method PutOwn(ghost start: Heap, s: nat, v: string, flag: string, value: Deep)
      requires Good(start, h, s)
      modifies this
      ensures Good(start, h, s) && old(h).sets <= h.sets
      ensures OwnFlags(h, s, v).Some? && Holds(h, s, v, flag, value)
      ensures OwnFlags(h, s, v).value - {flag} == Found(old(h), s, v) - {flag}
      ensures forall w :: w != v ==> OwnFlags(h, s, w) == OwnFlags(old(h), s, w)
      ensures forall w ::
        Recorded(h, s, w) ==
          Added(Recorded(old(h), s, w), v, if flag == "_defaultval" then ShorterRecord(v, w) else None)
    {
      OwnIsFound(h, s, v);
      ghost var was := h;
      hide OnlyOwn, Ok, FlagOk, Recorded, Found, Good, OwnFlags, Holds, View, Own;
      if OwnFlags(h, s, v).None? {
        MakeShadowCopy(start, s, v);
      }
      Put(start, s, v, flag, value);
      ghost var mid := h;
      RecordsKept(was, mid, s);
      if flag == "_defaultval" {
        RecordShorter(start, s, v);
        SameHolds(mid, h, s, v, flag, value);
      }
    }

    /** `setVarFlag`; `ok` is false when `__exportlist` holds something that is not a set.  The flags
        `export` and `unexport` add the name to the exported ones, which other stores see that find the
        same set object. */
    method SetVarFlag(ghost start: Heap, s: nat, v: string, flag: string, value: Deep) returns (ok: bool)
      requires Good(start, h, s)
      modifies this
      ensures Good(start, h, s)
      ensures v != EXPORTLIST || !Exporting(flag) ==> Holds(h, s, v, flag, value)
      ensures v != EXPORTLIST || !Exporting(flag) ==>
        OwnFlags(h, s, v).Some? && OwnFlags(h, s, v).value - {flag} == Found(old(h), s, v) - {flag}
      ensures forall w :: w != v && (w != EXPORTLIST || !Exporting(flag)) ==>
        OwnFlags(h, s, w) == OwnFlags(old(h), s, w)
      ensures forall w ::
        Recorded(h, s, w) ==
          Added(Recorded(old(h), s, w), v, if flag == "_defaultval" then ShorterRecord(v, w) else None)
      ensures Exporting(flag) <==> flag in {"export", "unexport"}
      ensures !Exporting(flag) ==> old(h).sets <= h.sets
      ensures ok <==> !Exporting(flag) || ExportRef(old(h), s).None? || ExportRef(old(h), s).value.Names?
      ensures Exporting(flag) && ok ==> Exports(h, s) == Exports(old(h), s) + {v}
      ensures forall t: nat :: Outside(old(h), s, t) ==>
        (View(h, t, EXPORTLIST) != View(old(h), t, EXPORTLIST) <==>
         Exporting(flag) && ExportSeenBy(old(h), s, t, v))
      ensures forall t: nat :: Exporting(flag) && ok && Outside(old(h), s, t) && SharesExports(old(h), s, t) ==>
        Exports(h, t) == Exports(old(h), s) + {v}
    {
      hide Holds, OwnFlags, Own;
      ok := true;
      ghost var was := h;
      GoodSelf(h, s);
      PutOwn(was, s, v, flag, value);
      ghost var mid := h;
      GoodThen(start, was, mid, s);
      GoodOk(was, mid, s);
      GoodSelf(mid, s);
      ExportRefKept(was, mid, s, v, flag);
      hide OnlyOwn, Ok, FlagOk, Recorded, Found, View, ExportRef, Exports, ExportSeenBy, SharesExports, Outside;
      if Exporting(flag) {
        ok := AddToExportlist(mid, s, v);
      }
      RecordsKept(mid, h, s);
      GoodThen(start, mid, h, s);
      if v != EXPORTLIST {
        HoldsKept(mid, h, s, v, flag, value);
      }
    }

    /** `delVarFlag`. */
    method DelVarFlag(ghost start: Heap, s: nat, v: string, flag: string)
      requires Good(start, h, s)
      modifies this
      ensures Good(start, h, s)
      ensures Found(old(h), s, v) == map[] ==> h == old(h)
      ensures Found(old(h), s, v) != map[] ==> OwnFlags(h, s, v) == Some(Found(old(h), s, v) - {flag})
      ensures forall w :: w != v ==> OwnFlags(h, s, w) == OwnFlags(old(h), s, w)
      ensures h.stores == old(h).stores && h.lists == old(h).lists && h.items == old(h).items && h.sets == old(h).sets
    {
      OwnIsFound(h, s, v);
      hide OnlyOwn;
      var found := FindVar(h, Own(h, s), v);
      FoundAddressed(h, Own(h, s), v);
      if found.None? || h.inner[found.value] == map[] {
        return;
      }
      if OwnFlags(h, s, v).None? {
        MakeShadowCopy(start, s, v);
      }
      if flag in OwnFlags(h, s, v).value {
        Drop(start, s, v, flag);
      } else {
        assert OwnFlags(h, s, v).value - {flag} == OwnFlags(h, s, v).value;
      }
    }

    /** `getVarFlag(v, flag, False) or []`, for a keyword flag: a copy of the list. */
    method CopyOfList(s: nat, v: string, flag: string) returns (ok: bool, l: seq<Item>)
      requires Ok(h) && s < |h.stores|
      ensures ok <==> Appendable(FlagOf(h, s, v, flag))
      ensures ok ==> l == ListFlag(h, s, v, flag)
    {
      ok, l := true, [];
      var found := FindVar(h, Own(h, s), v);
      FoundAddressed(h, Own(h, s), v);
      if found.Some? && flag in h.inner[found.value] {
        var f := h.inner[found.value][flag];
        assert FlagOk(h, f);
        match Contents(h, f)
        case DText(t) => ok := t == "";
        case DNames(n) => ok := n == {};
        case DList(items) => l := items;
      }
    }

    /** `setVar`.  `ok` is false where the original would stop with an error. */
    method SetVar(ghost start: Heap, s: nat, v: string, value: Deep, parsing: bool, overridesset: set<string>)
      returns (ok: bool)
      requires Good(start, h, s)
      modifies this
      ensures Good(start, h, s)
      ensures VarSet(old(h), h, s, v, value, parsing, overridesset, ok)
    {
      hide Good, KeywordSet, PlainSet;
      match KeywordFrom(v, 0)
      case Some(k) =>
        KeywordKnown(v, 0);
        ok := SetKeyword(start, s, k, value);
      case None => ok := SetPlain(start, s, v, value, parsing, overridesset);
    }

    /** Setting `X_append` and the like extends a copy of the list in a flag of `X`. */
    method SetKeyword(ghost start: Heap, s: nat, k: Keyword, value: Deep) returns (ok: bool)
      requires Good(start, h, s) && k.keyword in KEYWORDS
      modifies this
      ensures Good(start, h, s) && KeywordSet(old(h), h, s, k, value, ok)
    {
      hide OnlyOwn, Holds, FlagOf, Good, Ok, OwnFlags, Own, Recorded, View, Found, ListFlag, OverrideFor, Extended;
      GoodOk(start, h, s);
      KeywordNames(k.keyword);
      var l;
      ok, l := CopyOfList(s, k.base, k.keyword);
      if !ok {
        return;
      }
      var items := DList(l + [(value, k.add)]);
      ok := SetVarFlag(start, s, k.base, k.keyword, items);
      ghost var mid := h;
      UpdateOverrides(start, s, k.base);
      forall w ensures OwnFlags(h, s, w) == OwnFlags(mid, s, w) {
        SameOwnFlags(mid, h, s, w);
      }
      SameHolds(mid, h, s, k.base, k.keyword, items);
    }

    /** The assignment of a value. */
    method SetPlain(ghost start: Heap, s: nat, v: string, value: Deep, parsing: bool, overridesset: set<string>)
      returns (ok: bool)
      requires Good(start, h, s)
      modifies this
      ensures Good(start, h, s) && PlainSet(old(h), h, s, v, value, parsing, overridesset, ok)
    {
      hide OnlyOwn, Ok, Recorded, Good, OwnFlags, Own, View, ActiveNames, Added, ShorterRecord, Holds, PairIn, PlainSet;
      ghost var was := h;
      GoodAddressed(start, h, s);
      ok := Prepare(start, s, v, parsing, overridesset);
      ghost var mid := h;
      if ok {
        Assign(start, s, v, value);
      }
      PlainSetBy(was, mid, h, s, v, value, parsing, overridesset, ok);
    }

    /** What comes before it: the store gets the variable itself and, unless parsing, the old value's
        appends and override variables are dropped. */
    method Prepare(ghost start: Heap, s: nat, v: string, parsing: bool, overridesset: set<string>) returns (ok: bool)
      requires Good(start, h, s)
      modifies this
      ensures Good(start, h, s) && Prepared(old(h), h, s, v, parsing, overridesset, ok)
    {
      OwnIsFound(h, s, v);
      hide OnlyOwn, Ok, Recorded, Found, Good, OwnFlags, Own, View;
      ghost var was := h;
      if OwnFlags(h, s, v).None? {
        MakeShadowCopy(start, s, v);
      }
      RecordsKept(was, h, s);
      ok := true;
      if !parsing {
        ok := Override(start, s, v, overridesset);
      }
    }

    method Assign(ghost start: Heap, s: nat, v: string, value: Deep)
      requires Good(start, h, s) && OwnFlags(h, s, v).Some?
      modifies this
      ensures Good(start, h, s) && Assigned(old(h), h, s, v, value)
    {
      hide OnlyOwn, Ok, Recorded, Good, OwnFlags, Own, View, Holds;
      RecordShorter(start, s, v);
      ghost var mid := h;
      Put(start, s, v, "_content", value);
      RecordsKept(mid, h, s);
    }

    /** A plain assignment drops pending appends and every active override variable; `ok` is false if that
        removes the variable's own list of override variables, which is to be deleted after. */
    method Override(ghost start: Heap, s: nat, v: string, overridesset: set<string>) returns (ok: bool)
      requires Good(start, h, s) && OwnFlags(h, s, v).Some?
      modifies this
      ensures Good(start, h, s) && OwnFlags(h, s, v).Some?
      ensures ok <==> v !in ActiveNames(old(h), s, v, overridesset)
      ensures ok ==> OwnFlags(h, s, v).value == OwnFlags(old(h), s, v).value - {"_append", "_prepend"}
      ensures ok ==> Recorded(h, s, v).None?
      ensures h.sets == old(h).sets
      ensures forall w :: w != v ==>
        OwnFlags(h, s, w) ==
          if w in ActiveNames(old(h), s, v, overridesset) then Some(map[]) else OwnFlags(old(h), s, w)
    {
      hide OnlyOwn, Ok, Recorded, Good, OwnFlags, Own, ActiveOverrides;
      ghost var was := h;
      Drop(start, s, v, "_append");
      Drop(start, s, v, "_prepend");
      ok := true;
      RecordsKept(was, h, s);
      if Recorded(h, s, v).Some? {
        var active := ActiveOverrides(Recorded(h, s, v).value, overridesset);
        DelVars(start, s, active);
        ok := Recorded(h, s, v).Some?;
        if ok {
          ghost var mid := h;
          ForgetList(start, s, v);
          forall w ensures OwnFlags(h, s, w) == OwnFlags(mid, s, w) {
            SameOwnFlags(mid, h, s, w);
          }
        }
      }
    }

    /** `for a in active: self.delVar(a)`. */
    method DelVars(ghost start: Heap, s: nat, names: seq<string>)
      requires Good(start, h, s)
      modifies this
      ensures Good(start, h, s) && h.sets == old(h).sets
      ensures forall w :: OwnFlags(h, s, w) == if w in names then Some(map[]) else OwnFlags(old(h), s, w)
      ensures forall w :: Recorded(h, s, w).Some? <==> Recorded(old(h), s, w).Some? && w !in names
    {
      hide Good, OwnFlags, Recorded, ShorterRecord, RemoveFirst;
      ghost var was := h;
      var i := 0;
      while i < |names|
        invariant i <= |names| && Good(start, h, s) && h.sets == was.sets
        invariant forall w :: OwnFlags(h, s, w) == if w in names[..i] then Some(map[]) else OwnFlags(was, s, w)
        invariant forall w :: Recorded(h, s, w).Some? <==> Recorded(was, s, w).Some? && w !in names[..i]
      {
        DelVar(start, s, names[i]);
        assert names[..i + 1] == names[..i] + [names[i]];
        i := i + 1;
      }
      assert names[..i] == names;
    }

    /** `getVar(v, 0, parsing=True)`.  When removals are pending the text depends on expansions, which
        may yield anything. */
    method RawValue(s: nat, v: string) returns (val: Option<Deep>)
      requires Ok(h) && s < |h.stores|
      ensures NothingRemoved(h, s, v) ==> val == RawOf(h, s, v)
      ensures val.None? <==> RawOf(h, s, v).None?
      ensures RawOf(h, s, v) in {Some(DText("")), Some(DList([])), Some(DNames({}))} ==> val == RawOf(h, s, v)
    {
      val := None;
      var found := FindVar(h, Own(h, s), v);
      FoundAddressed(h, Own(h, s), v);
      if found.Some? {
        var m := h.inner[found.value];
        assert forall f :: f in m ==> FlagOk(h, m[f]);
        if "_content" in m {
          val := Some(Contents(h, m["_content"]));
        } else if "_defaultval" in m {
          val := Some(Contents(h, m["_defaultval"]));
        }
        if val.Some? && !Falsy(val.value) && "_remove" in m {
          var filtered: string := *;
          val := Some(DText(filtered));
        }
      }
    }

    /** `renameVar`.  `depth` is what is left of the interpreter's recursion limit; `ok` is false where
        the original would stop with an error, that limit being reached among them.  Without override
        variables it succeeds exactly if what is pending can be joined and the new name does not become
        the first of them.  With them it succeeds, the scope being that of the two names, if the new name
        does not begin with the old one and an underscore and the longest override variable adds fewer
        characters to the old name than the limit.  It never does, whatever the limit, if the old name
        occurs in the new one and the new one is the first of the override variables. */
    method RenameVar(ghost start: Heap, ghost c: Scope, s: nat, key: string, newkey: string, depth: nat)
      returns (ok: bool)
      requires Good(start, h, s)
      modifies this
      ensures Good(start, h, s)
      ensures ok ==> OwnFlags(h, s, key) == Some(map[]) && Recorded(h, s, key).None?
      ensures Alone(old(h), s, key, newkey) ==>
        (ok <==> 0 < depth && AllJoin(old(h), s, key, newkey, |KEYWORDS|) && !RecordsNew(old(h), s, key, newkey))
      ensures ok && Alone(old(h), s, key, newkey) ==> Moved(old(h), h, s, key, newkey)
      ensures Settles(old(h), s, c, key, newkey, depth) ==>
        ok && Followed(old(h), h, s, c, key, newkey) && ContentMoved(old(h), h, s, key, newkey) &&
        Emptied(old(h), h, s, key, newkey) && Carried(old(h), h, s, key, newkey)
      ensures Nests(old(h), s, key, newkey) ==> !ok
      decreases depth
    {
      if depth == 0 {
        return false;
      }
      hide OnlyOwn, Ok, Recorded, Holds, Alone, RecordsNew, Unrecorded, Moved, Nests, NestsOn, Settles, Followed,
        Emptied, ContentMoved, Carried, AllJoin, OwnFlags, SelfMoved, OverridesMoved, Moving, Finished;
      ghost var was := h;
      GoodOk(start, h, s);
      if Alone(h, s, key, newkey) {
        AloneSplits(h, s, key, newkey);
      }
      var held;
      ok, held := RenameSelf(c, s, key, newkey, depth);
      ghost var own := h;
      GoodOk(was, own, s);
      GoodSelf(own, s);
      RecordedKey(own, s, key);
      ghost var settles := Settles(was, s, c, key, newkey, depth);
      if settles {
        SettlesStill(was, own, s, c, key, newkey, depth);
      }
      if ok && key in h.stores[s].overridedata {
        ok := RenameOverrides(own, c, s, key, newkey, depth);
        if settles {
          AllMoved(own, h, s, c, key, newkey);
        }
        if Unrecorded(was, s, key, newkey) {
          MovedRecorded(was, own, h, s, key, newkey);
        }
      } else if settles {
        NoneMoved(own, s, c, key, newkey, depth);
      }
      ghost var last := h;
      GoodThen(was, own, last, s);
      if ok {
        GoodOk(was, last, s);
        FinishRename(s, key, newkey, held);
        if settles {
          RenamedInScope(was, own, last, h, s, c, key, newkey, depth, held);
        }
        RenamedAlone(was, last, h, s, key, newkey, held);
        GoodThen(was, last, h, s);
      }
      GoodThen(start, was, h, s);
    }

    /** `renameVar` before it comes to the override variables. */
    method RenameSelf(ghost c: Scope, s: nat, key: string, newkey: string, ghost depth: nat)
      returns (ok: bool, held: bool)
      requires Ok(h) && s < |h.stores|
      modifies this
      ensures Good(old(h), h, s)
      ensures held <==> RawOf(old(h), s, key).Some?
      ensures Unrecorded(old(h), s, key, newkey) ==>
        (ok <==> AllJoin(old(h), s, key, newkey, |KEYWORDS|))
      ensures ok && Unrecorded(old(h), s, key, newkey) ==>
        Moved(old(h), h, s, key, newkey) && NoneRecorded(h, s, key)
      ensures Settles(old(h), s, c, key, newkey, depth) ==>
        ok && SelfMoved(old(h), h, s, c, key, newkey)
      ensures ok && Nests(old(h), s, key, newkey) ==> NestsOn(h, s, key, newkey)
    {
      hide OnlyOwn, Ok, Recorded, Holds, VarSet, Unrecorded, Moved, Nests, NestsOn, RawOf, NothingRemoved,
        KeywordsMoved, FlagOf, Ready, OwnFlags, AllJoin, Settles, SelfMoved, AllAppendable, Found;
      OkAddressed(h);
      ghost var was := h;
      GoodSelf(h, s);
      var val := RawValue(s, key);
      held := val.Some?;
      ok := true;
      if held {
        ok := SetVar(was, s, newkey, val.value, true, {});
      }
      ghost var mid := h;
      AfterSet(was, mid, s, key, newkey, val, ok);
      SetInScope(was, mid, s, c, key, newkey, val, ok, depth);
      NestsSet(was, mid, s, key, newkey, val, ok);
      if ok {
        GoodOk(was, mid, s);
        GoodSelf(mid, s);
        ok := RenameKeywords(mid, s, key, newkey);
        JoinsAfterSet(was, mid, s, c, key, newkey, depth);
        if ok {
          MovedBy(was, mid, h, s, key, newkey);
          KeywordsInScope(was, mid, h, s, c, key, newkey, depth);
          NestsMoved(mid, h, s, key, newkey);
        }
        GoodThen(was, mid, h, s);
      }
    }

    /** What comes after the override variables. */
    method FinishRename(s: nat, key: string, newkey: string, held: bool)
      requires Ok(h) && s < |h.stores|
      modifies this
      ensures Good(old(h), h, s) && Finished(old(h), h, s, key, newkey, held)
    {
      hide OnlyOwn, Ok, Recorded, OwnFlags, OverrideFor, Dropped, Extended;
      ghost var last := h;
      GoodSelf(last, s);
      if '_' in newkey && !held {
        UpdateOverrides(last, s, newkey);
      }
      ghost var recorded := h;
      assert Updated(last, recorded, s, newkey, held);
      GoodOk(last, recorded, s);
      GoodSelf(recorded, s);
      DelVar(recorded, s, key);
      assert Deleted(recorded, h, s, key);
      GoodThen(last, recorded, h, s);
    }

    /** The loop over `_append`, `_prepend` and `_remove`: lists of the new name are extended. */
    method RenameKeywords(ghost start: Heap, s: nat, key: string, newkey: string) returns (ok: bool)
      requires Good(start, h, s)
      modifies this
      ensures Good(start, h, s)
      ensures ok && key != newkey ==> KeywordsMoved(old(h), h, s, key, newkey, |KEYWORDS|)
      ensures key != newkey ==> (ok <==> AllJoin(old(h), s, key, newkey, |KEYWORDS|))
      ensures ok && AllAppendable(old(h), s) ==> AllAppendable(h, s)
    {
      hide OnlyOwn, Ok, Good, Holds, FlagOf, KeywordsMoved, Joins, AllJoin, AllAppendable, OwnFlags, Own, Recorded,
        View, Found, ListFlag, Addressed;
      ghost var was := h;
      GoodOk(start, h, s);
      OkAddressed(h);
      GoodSelf(h, s);
      ok := true;
      var i := 0;
      NoneJoined(was, s, key, newkey);
      while i < |KEYWORDS| && ok
        invariant i <= |KEYWORDS| && Good(was, h, s) && Addressed(h) && s < |h.stores|
        invariant ok && key != newkey ==> KeywordsMoved(was, h, s, key, newkey, i)
        invariant key != newkey ==> (ok <==> AllJoin(was, s, key, newkey, i))
        invariant ok && AllAppendable(was, s) ==> AllAppendable(h, s)
      {
        GoodOk(was, h, s);
        GoodAddressed(was, h, s);
        ghost var before := h;
        if key != newkey {
          JoinsKept(was, h, s, key, newkey, i);
        }
        ok := RenameKeyword(before, s, key, newkey, KEYWORDS[i]);
        if ok && key != newkey {
          KeywordMoves(was, before, h, s, key, newkey, i);
        }
        GoodThen(was, before, h, s);
        GoodAddressed(was, h, s);
        i := i + 1;
      }
      AllJoinFewer(was, s, key, newkey, i);
      GoodThen(start, was, h, s);
    }

    /** One round of it. */
    method RenameKeyword(ghost start: Heap, s: nat, key: string, newkey: string, word: string) returns (ok: bool)
      requires Ok(h) && s < |h.stores| && start == h && word in KEYWORDS
      modifies this
      ensures Good(start, h, s)
      ensures FlagOf(old(h), s, key, word).None? ==> h == old(h)
      ensures ok <==> Joins(old(h), s, key, newkey, word)
      ensures AllAppendable(old(h), s) ==> AllAppendable(h, s)
      ensures ok && FlagOf(old(h), s, key, word).Some? ==> KeywordPut(old(h), h, s, newkey, word)
      ensures ok && FlagOf(old(h), s, key, word).Some? && FlagOf(old(h), s, key, word).value.DList? ==>
        Holds(h, s, newkey, word, DList(ListFlag(old(h), s, newkey, word) + ListFlag(old(h), s, key, word)))
    {
      hide OnlyOwn, Holds, OwnFlags, Own, Recorded, View, Found, FlagOf, AllAppendable;
      GoodSelf(h, s);
      KeywordNames(word);
      var dest;
      var has, src := HasList(s, key, word);
      ok, dest := CopyOfList(s, newkey, word);
      if has && ok {
        ok := SetVarFlag(start, s, newkey, word, DList(dest + src));
        ItemsKept(start, h, s);
        GoodAddressed(start, h, s);
        PutAppendable(start, h, s, newkey, word, dest + src);
      } else {
        ok := ok || !has;
      }
    }

    /** Whether a keyword flag is set, and the list copied from it. */
    method HasList(s: nat, v: string, flag: string) returns (has: bool, l: seq<Item>)
      requires Ok(h) && s < |h.stores|
      ensures has <==> FlagOf(h, s, v, flag).Some?
      ensures has && FlagOf(h, s, v, flag).value.DList? ==> l == FlagOf(h, s, v, flag).value.items
    {
      has, l := false, [];
      var found := FindVar(h, Own(h, s), v);
      FoundAddressed(h, Own(h, s), v);
      if found.Some? && flag in h.inner[found.value] {
        has := true;
        var f := h.inner[found.value][flag];
        assert FlagOk(h, f);
        match Contents(h, f)
        case DList(items) => l := items;
        case _ =>
          var other: seq<Item> := *;
          l := other;
      }
    }

    /** The loop over the recorded override variables, which it iterates over while renaming them. */
    method RenameOverrides(ghost start: Heap, ghost c: Scope, s: nat, key: string, newkey: string, depth: nat)
      returns (ok: bool)
      requires Good(start, h, s) && key in h.stores[s].overridedata && depth > 0
      modifies this
      ensures Good(start, h, s)
      ensures Settles(old(h), s, c, key, newkey, depth) ==>
        ok && Moving(old(h), h, s, c, key, newkey, |Recorded(old(h), s, key).value|)
      ensures NestsOn(old(h), s, key, newkey) ==> !ok
      ensures key != newkey && NoneRecorded(old(h), s, key) ==> ok && OnlyRecords(old(h), h)
      decreases depth, 0
    {
      hide OnlyOwn, Ok, Good, Addressed, Recorded, Iterating, NestsOn, Nests, Settles, Moving, Followed, OwnFlags,
        ContentMoved, Carried, Emptied, Moved, Replaced, RawOf;
      ghost var base := h;
      GoodOk(start, h, s);
      OkAddressed(h);
      GoodSelf(h, s);
      ghost var nests := NestsOn(h, s, key, newkey);
      ghost var settles := Settles(h, s, c, key, newkey, depth);
      ghost var none := key != newkey && NoneRecorded(h, s, key);
      NewList(base, s, newkey, []);
      GoodOk(base, h, s);
      var list := h.stores[s].overridedata[key];
      IterStart(base, s, key, newkey);
      NestsStart(base, s, key, newkey, list);
      ListIsRecord(base, s, key, newkey);
      OkAddressed(h);
      MovingStart(base, h, s, c, key, newkey, depth);
      ok := true;
      var i := 0;
      while i < |ListAt(h, list)| && ok
        invariant Good(base, h, s) && Iterating(base, h, s, key, newkey, list)
        invariant i <= |ListAt(h, list)|
        invariant settles ==> ok && Moving(base, h, s, c, key, newkey, i)
        invariant none ==> i == 0 && ok && h == Record(base, s, newkey, []) && ListAt(h, list) == []
        invariant nests && ok ==> i == 0 && h == Record(base, s, newkey, [])
        decreases |ListAt(base, list)| - i, ok
      {
        GoodOk(base, h, s);
        IterMore(base, h, s, key, newkey, list);
        var (v, o) := ListAt(h, list)[i];
        ok := newkey in h.stores[s].overridedata;
        MovingHasList(base, h, s, c, key, newkey, i);
        if ok {
          ghost var before := h;
          AppendTo(base, s, newkey, (Replaced(v, key, newkey), o));
          IterAppend(base, before, s, key, newkey, list, (Replaced(v, key, newkey), o));
          ghost var was := h;
          if nests {
            GoodAddressed(base, was, s);
            NestsFirst(base, was, s, key, newkey, o);
          }
          GoodOk(base, h, s);
          GoodSelf(h, s);
          if settles {
            MovingAppend(base, before, was, s, c, key, newkey, i, o, depth);
          }
          ok := RenameVar(was, c, s, v, Replaced(v, key, newkey), depth - 1);
          if settles {
            MovingNext(base, was, h, s, c, key, newkey, i, depth);
          }
          IterThen(base, was, h, s, key, newkey, list);
          GoodThen(base, was, h, s);
        }
        i := i + 1;
      }
      IterEnd(base, h, s, key, newkey, list);
      if settles {
        SettlesApart(base, s, c, key, newkey, depth);
      }
      GoodThen(start, base, h, s);
    }

    /** `DataSmart()`. */
    method NewStore() returns (s: nat)
      requires Ok(h)
      modifies this
      ensures Ok(h) && s == |old(h).stores| && |h.stores| == s + 1
      ensures forall v :: View(h, s, v).None? && Recorded(h, s, v).None?
      ensures ExportRef(h, s).None?
    {
      s := |h.stores|;
      MoreDicts(h, None, map[]);
      hide Ok;
      h := WithStore(h, None, map[]);
    }

    /** `createCopy`: returns what the original does, and the original is not affected. */
    method CreateCopy(s: nat) returns (c: nat)
      requires Ok(h) && s < |h.stores|
      modifies this
      ensures Ok(h) && c == |old(h).stores| && |h.stores| == c + 1
      ensures forall v :: View(h, c, v) == View(old(h), s, v) && Recorded(h, c, v) == Recorded(old(h), s, v)
      ensures forall t: nat, v :: t < c ==>
        View(h, t, v) == View(old(h), t, v) && Recorded(h, t, v) == Recorded(old(h), t, v)
      ensures forall t: nat :: t < c ==> Outside(h, c, t)
      ensures OwnFlags(h, c, EXPORTLIST).None? && h.dicts[Own(h, c)].data == Some(Own(h, s))
    {
      c := |h.stores|;
      MoreDicts(h, Some(Own(h, s)), h.stores[s].overridedata);
      CopyViews(h, s);
      hide Ok;
      h := WithStore(h, Some(Own(h, s)), h.stores[s].overridedata);
    }

    /** A name is exported in a copy.  The original, which nothing has been done to, shows it exactly if it
        keeps a set of exported names in which the name is new; all else it shows as before. */
    method ExportInCopy(s: nat, v: string, value: Deep) returns (c: nat, ok: bool)
      requires Ok(h) && s < |h.stores|
      modifies this
      ensures Ok(h) && c == |old(h).stores| && |h.stores| == c + 1
      ensures View(h, s, EXPORTLIST) != View(old(h), s, EXPORTLIST) <==>
              ExportNames(old(h), s).Some? && v !in ExportNames(old(h), s).value
      ensures ExportNames(old(h), s).Some? ==> ok && Exports(h, s) == ExportNames(old(h), s).value + {v}
      ensures forall w :: w != EXPORTLIST ==> View(h, s, w) == View(old(h), s, w)
      ensures v != EXPORTLIST ==> Holds(h, c, v, "export", value)
    {
      c := CreateCopy(s);
      ghost var mid := h;
      CopySharesExports(mid, s, c);
      hide Ok;
      GoodSelf(mid, c);
      ok := SetVarFlag(mid, c, v, "export", value);
      Isolated(mid, h, c, s);
    }

    /** So it happens: what is exported in the copy of a store that exports something is exported there. */
    method ExportLeaks() returns (s: nat, c: nat)
      requires Ok(h)
      modifies this
      ensures Ok(h) && s < |h.stores|
      ensures Exports(h, s) == {"A", "B"}
    {
      hide OnlyOwn;
      s := NewStore();
      ghost var first := h;
      GoodSelf(h, s);
      assert Exports(first, s) == {};
      var ok := SetVarFlag(first, s, "A", "export", DText("1"));
      ExportNamesFound(h, s);
      assert Exports(h, s) == {"A"};
      assert "A" in Exports(h, s);
      assert ExportNames(h, s) == Some({"A"});
      hide Good, Holds, Found, ExportRef;
      c, ok := ExportInCopy(s, "B", DText("1"));
    }

    /** So it happens: in a new store that holds `A`, `A` cannot be renamed to `A_x`. */
    method RenameNeverEnds(depth: nat) returns (ok: bool)
      requires Ok(h)
      modifies this
      ensures !ok
    {
      hide OnlyOwn, Ok, FlagOf, Recorded, PlainSet, RawOf, Holds, Found, Own, OwnFlags, Nests;
      var s := NewStore();
      ghost var first := h;
      GoodSelf(h, s);
      NoKeywordBehind("A", 0);
      ok := SetVar(first, s, "A", DText("v"), true, {});
      NestsFromNew(first, h, s, DText("v"), ok);
      ok := RenameVar(first, Scope("A", "A_x", 0), s, "A", "A_x", depth);
    }

    /** And so it ends well: in a new store that holds `A` and `A_x`, `A` can be renamed to `B`, and `A_x`
        becomes `B_x`. */
    method RenameWithOverride(depth: nat) returns (s: nat, ok: bool)
      requires Ok(h) && depth >= 3
      modifies this
      ensures ok && OwnFlags(h, s, "A") == Some(map[]) && OwnFlags(h, s, "A_x") == Some(map[])
      ensures Holds(h, s, "B", "_content", DText("v")) && Holds(h, s, "B_x", "_content", DText("w"))
    {
      hide OnlyOwn, Ok, FlagOf, Recorded, VarSet, RawOf, NothingRemoved, Holds, Found, Own, OwnFlags, Settles, Followed;
      hide Nests, Alone, Carried, ContentMoved, Emptied;
      s := NewStore();
      ghost var first := h;
      GoodSelf(h, s);
      ok := SetVar(first, s, "A", DText("v"), true, {});
      ghost var second := h;
      GoodOk(first, h, s);
      GoodSelf(h, s);
      ok := SetVar(second, s, "A_x", DText("w"), true, {});
      ghost var third := h;
      GoodOk(second, h, s);
      GoodSelf(h, s);
      SettlesFromNew(first, second, third, s, depth);
      ok := RenameVar(third, Scope("A", "B", depth + 1), s, "A", "B", depth);
      WithOverrideMoved(third, h, s);
    }

    /** One operation on one store. */
    method Step(s: nat)
      requires Ok(h) && s < |h.stores|
      modifies this
      ensures Good(old(h), h, s)
    {
      ghost var start := h;
      GoodSelf(h, s);
      hide Good, Ok, OwnFlags, Recorded, Holds;
      var v: string, w: string, flag: string, value: Deep, parsing: bool, overridesset: set<string>, depth: nat, op: int
        := *, *, *, *, *, *, *, *;
      var ok;
      if op == 0 {
        ok := SetVar(start, s, v, value, parsing, overridesset);
      } else if op == 1 {
        ok := SetVar(start, s, v + "_append", value, true, overridesset);
      } else if op == 2 {
        ok := SetVar(start, s, v + "_prepend", value, true, overridesset);
      } else if op == 3 {
        DelVar(start, s, v);
      } else if op == 4 {
        ok := SetVarFlag(start, s, v, flag, value);
      } else if op == 5 {
        DelVarFlag(start, s, v, flag);
      } else {
        ok := RenameVar(start, Scope(v, w, 0), s, v, w, depth);
      }
    }

    /** Any run of operations on a store leaves every store that does not inherit from it, the one it
        was copied from among them, with all its variables but `__exportlist`. */
    method Run(s: nat, steps: nat)
      requires Ok(h) && s < |h.stores|
      modifies this
      ensures Ok(h) && |h.stores| == |old(h).stores|
      ensures forall t: nat :: Outside(old(h), s, t) ==> Unaffected(old(h), h, t)
    {
      ghost var start := h;
      GoodSelf(h, s);
      var i := 0;
      while i < steps
        invariant Good(start, h, s)
      {
        ghost var was := h;
        GoodOk(start, h, s);
        hide Good, Ok;
        Step(s);
        GoodThen(start, was, h, s);
        i := i + 1;
      }
      forall t: nat | Outside(start, s, t) ensures Unaffected(start, h, t) {
        Isolated(start, h, s, t);
      }
    }
  }

  /** A new store whose dictionary refers to `data`. */
  function WithStore(h: Heap, data: Option<nat>, overridedata: map<string, nat>): Heap {
    h.(dicts := h.dicts + [Dict(data, map[])], stores := h.stores + [Store(|h.dicts|, overridedata)])
  }

  lemma MoreDicts(h: Heap, data: Option<nat>, overridedata: map<string, nat>)
    requires Ok(h) && (data.Some? ==> data.value < |h.dicts|)
    requires forall v :: v in overridedata ==> overridedata[v] < |h.lists|
    requires forall v, w :: v in overridedata && w in overridedata && overridedata[v] == overridedata[w] ==> v == w
    ensures Ok(WithStore(h, data, overridedata))
    ensures var k := WithStore(h, data, overridedata);
            forall t: nat, v :: t < |h.stores| ==>
              View(k, t, v) == View(h, t, v) && Recorded(k, t, v) == Recorded(h, t, v)
  {
    var k := WithStore(h, data, overridedata);
    assert Linked(k.dicts);
    forall a: nat, f | a < |k.inner| && f in k.inner[a] ensures FlagOk(k, k.inner[a][f]) {
      assert FlagOk(h, h.inner[a][f]);
    }
    forall d: nat, v, a: nat | HoldsAt(k, d, v, a) ensures HoldsAt(h, d, v, a) {
    }
    forall e: bool, x: nat | RefersToSet(k, e, x) ensures RefersToSet(h, e, x) {
      var d: nat, v, f :| RefersAt(k, d, v, f, e, x);
      assert RefersAt(h, d, v, f, e, x);
    }
    hide HoldsAt, RefersToSet, FlagOk;
    assert Ok(k);
    forall t: nat, v | t < |h.stores| ensures View(k, t, v) == View(h, t, v) {
      SameView(h, k, t, v);
    }
  }

  lemma SameView(h: Heap, k: Heap, t: nat, v: string)
    requires Addressed(h) && Addressed(k) && t < |h.stores| && h.stores <= k.stores && h.dicts <= k.dicts
    requires k.inner == h.inner && k.items == h.items && k.sets == h.sets
    ensures View(k, t, v) == View(h, t, v)
  {
    FindOld(h, k, h.stores[t].dict, v);
    FoundAddressed(h, h.stores[t].dict, v);
    if FindVar(h, h.stores[t].dict, v).Some? {
      var a := FindVar(h, h.stores[t].dict, v).value;
      assert forall f :: f in h.inner[a] ==> Contents(k, h.inner[a][f]) == Contents(h, h.inner[a][f]);
      assert Flags(k, a) == Flags(h, a);
    }
  }

  lemma CopyViews(h: Heap, s: nat)
    requires Ok(h) && s < |h.stores|
    ensures var k, c := WithStore(h, Some(Own(h, s)), h.stores[s].overridedata), |h.stores|;
            Addressed(k)
            && (forall v :: View(k, c, v) == View(h, s, v) && Recorded(k, c, v) == Recorded(h, s, v))
            && (forall t: nat :: t < c ==> Outside(k, c, t))
  {
    MoreDicts(h, Some(Own(h, s)), h.stores[s].overridedata);
    var k, c := WithStore(h, Some(Own(h, s)), h.stores[s].overridedata), |h.stores|;
    forall v ensures View(k, c, v) == View(h, s, v) {
      SameView(h, k, s, v);
      assert FindVar(k, Own(k, c), v) == FindVar(k, Own(h, s), v);
    }
    forall t: nat | t < c ensures Outside(k, c, t) {
      assert Own(k, t) < |h.dicts|;
      if Under(k.dicts, Own(k, c), Own(k, t)) {
        UnderLater(k.dicts, Own(k, c), Own(k, t));
      }
    }
  }

  function ListAt(h: Heap, l: nat): seq<Pair> {
    if l < |h.lists| then h.lists[l] else []
  }

  /** The list being iterated over is left alone, and the one being extended is a new one. */
  ghost predicate Iterating(base: Heap, h: Heap, s: nat, key: string, newkey: string, list: nat) {
    && (if key == newkey then list >= |base.lists| && ListAt(h, list) == []
        else list < |base.lists| && ListAt(h, list) == ListAt(base, list))
    && s < |h.stores|
    && (newkey in h.stores[s].overridedata ==> |base.lists| <= h.stores[s].overridedata[newkey] < |h.lists|)
  }

  lemma IterStart(base: Heap, s: nat, key: string, newkey: string)
    requires Ok(base) && s < |base.stores| && key in base.stores[s].overridedata
    ensures var h := Record(base, s, newkey, []); Iterating(base, h, s, key, newkey, h.stores[s].overridedata[key])
  {
  }

  lemma ListIsRecord(h: Heap, s: nat, key: string, newkey: string)
    requires Ok(h) && s < |h.stores| && key in h.stores[s].overridedata
    ensures Recorded(h, s, key).Some?
    ensures key != newkey ==>
      Recorded(h, s, key) == Some(ListAt(h, Record(h, s, newkey, []).stores[s].overridedata[key]))
  {
  }

  lemma IterMore(base: Heap, h: Heap, s: nat, key: string, newkey: string, list: nat)
    requires Iterating(base, h, s, key, newkey, list) && ListAt(h, list) != []
    ensures key != newkey && ListAt(h, list) == ListAt(base, list) && s < |h.stores|
    ensures newkey in h.stores[s].overridedata ==> |base.lists| <= h.stores[s].overridedata[newkey] < |h.lists|
  {
  }

  lemma IterAppend(base: Heap, h: Heap, s: nat, key: string, newkey: string, list: nat, p: Pair)
    requires Iterating(base, h, s, key, newkey, list) && key != newkey && newkey in h.stores[s].overridedata
    ensures Iterating(base, Append(h, h.stores[s].overridedata[newkey], p), s, key, newkey, list)
  {
  }

  lemma IterThen(base: Heap, h: Heap, k: Heap, s: nat, key: string, newkey: string, list: nat)
    requires Iterating(base, h, s, key, newkey, list) && key != newkey && Good(base, h, s) && Good(h, k, s)
    ensures Iterating(base, k, s, key, newkey, list)
  {
    if newkey in k.stores[s].overridedata {
      assert FreshOrSame(h, k, s, newkey);
    }
  }

  lemma IterEnd(base: Heap, h: Heap, s: nat, key: string, newkey: string, list: nat)
    requires Iterating(base, h, s, key, newkey, list)
    ensures key != newkey ==> ListAt(h, list) == ListAt(base, list)
  {
  }

  lemma GoodOk(start: Heap, h: Heap, s: nat)
    requires Good(start, h, s)
    ensures Ok(h) && s < |h.stores|
  {
  }

  lemma HoldsKept(h: Heap, k: Heap, s: nat, v: string, flag: string, value: Deep)
    requires Good(h, k, s) && Ok(h) && Holds(h, s, v, flag, value)
    requires OwnFlags(k, s, v) == OwnFlags(h, s, v) && v != EXPORTLIST
    ensures Holds(k, s, v, flag, value)
  {
    OwnRefers(h, s, v, flag);
  }

  lemma SameOwnFlags(h: Heap, k: Heap, s: nat, v: string)
    requires SameDicts(h, k)
    ensures OwnFlags(k, s, v) == OwnFlags(h, s, v)
  {
  }

  lemma SameHolds(h: Heap, k: Heap, s: nat, v: string, flag: string, value: Deep)
    requires OnlyRecords(h, k)
    ensures Holds(k, s, v, flag, value) <==> Holds(h, s, v, flag, value)
  {
    SameOwnFlags(h, k, s, v);
  }

  lemma OwnRefers(h: Heap, s: nat, v: string, flag: string)
    requires Ok(h) && s < |h.stores| && OwnFlags(h, s, v).Some? && flag in OwnFlags(h, s, v).value
    ensures FlagOk(h, OwnFlags(h, s, v).value[flag])
    ensures OwnFlags(h, s, v).value[flag].Names? ==>
      RefersToSet(h, v == EXPORTLIST, OwnFlags(h, s, v).value[flag].names)
  {
    FoundRefers(h, Own(h, s), v);
  }

  /** A shallow copy of what is found looks like it. */
  lemma ShadowView(h: Heap, s: nat, v: string, m: map<string, Flag>)
    requires Ok(h) && s < |h.stores| && (forall f :: f in m ==> FlagOk(h, m[f]))
    requires OwnFlags(h, s, v).None?
    requires m == match FindVar(h, Own(h, s), v)
                  case None => map[]
                  case Some(a) => if a < |h.inner| then h.inner[a] else map[]
    ensures var k := HoldNew(h, s, v, m);
            Addressed(k) && View(k, s, v) == if View(h, s, v).None? then Some(map[]) else View(h, s, v)
    ensures var k := HoldNew(h, s, v, m);
            k.stores == h.stores && k.lists == h.lists && k.items == h.items && k.sets == h.sets
  {
    HoldNewAddressed(h, s, v, m);
    FoundAddressed(h, Own(h, s), v);
    var k := HoldNew(h, s, v, m);
    assert FindVar(k, Own(k, s), v) == Some(|h.inner|) && k.inner[|h.inner|] == m;
    assert Flags(k, |h.inner|) == map f | f in m :: Contents(h, m[f]);
  }

  lemma OthersKept(h: Heap, k: Heap, s: nat, v: string, a: nat)
    requires Ok(h) && s < |h.stores| && InnerChanged(h, k, a) && HoldsAt(h, Own(h, s), v, a)
    ensures forall w :: w != v ==> OwnFlags(k, s, w) == OwnFlags(h, s, w)
  {
    forall w | w != v ensures OwnFlags(k, s, w) == OwnFlags(h, s, w) {
      if w in h.dicts[Own(h, s)].vars {
        assert HoldsAt(h, Own(h, s), w, h.dicts[Own(h, s)].vars[w]);
      }
    }
  }

  /** What a found variable refers to is referred to under its name. */
  lemma FoundRefers(h: Heap, e: nat, v: string)
    requires Ok(h) && e < |h.dicts| && v in h.dicts[e].vars
    ensures h.dicts[e].vars[v] < |h.inner|
    ensures var m := h.inner[h.dicts[e].vars[v]];
            forall f :: f in m ==> FlagOk(h, m[f]) && (m[f].Names? ==> RefersToSet(h, v == EXPORTLIST, m[f].names))
  {
    var m := h.inner[h.dicts[e].vars[v]];
    forall f | f in m && m[f].Names? ensures RefersToSet(h, v == EXPORTLIST, m[f].names) {
      assert RefersAt(h, e, v, f, v == EXPORTLIST, m[f].names);
    }
  }
}
