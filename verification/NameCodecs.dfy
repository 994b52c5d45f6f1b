/** Task ids and virtual file names: strings of colon separated parts, taken apart and put
    together by `runqueue.py` and `cache.py`. */
module NameCodecs {
  import opened Wrappers

  const MULTICONFIG := "multiconfig:"
  const VIRTUAL := "virtual:"

  datatype TidParts = TidParts(mc: string, fn: string, taskname: string, mcfn: string)

  datatype RealName = RealName(fn: string, cls: string, mc: string)

  // ---- Splitting and joining on ':' ---------------------------------------------------------

  /** Puts one more character in front: a colon opens a new part. */
  function Push(c: char, parts: seq<string>): (r: seq<string>)
    requires |parts| > 0
    ensures |r| > 0
  {
    if c == ':' then [""] + parts else [[c] + parts[0]] + parts[1..]
  }

  function Split(s: string): (parts: seq<string>)
    ensures |parts| > 0
  {
    if s == "" then [""] else Push(s[0], Split(s[1..]))
  }

  function Join(parts: seq<string>): string {
    if |parts| == 0 then ""
    else if |parts| == 1 then parts[0]
    else parts[0] + ":" + Join(parts[1..])
  }

  /** `s.rsplit(":", 1)`: the text before the last colon and after it. */
  function RSplit(s: string): Option<(string, string)> {
    if s == "" then None
    else if s[|s| - 1] == ':' then Some((s[..|s| - 1], ""))
    else
      match RSplit(s[..|s| - 1])
      case None => None
      case Some((a, b)) => Some((a, b + [s[|s| - 1]]))
  }

  predicate NoColon(s: string) {
    ':' !in s
  }

  lemma PushAppend(c: char, p: seq<string>, q: seq<string>)
    requires |p| > 0
    ensures Push(c, p + q) == Push(c, p) + q
  {
    assert (p + q)[1..] == p[1..] + q;
  }

  lemma JoinMany(parts: seq<string>)
    requires |parts| > 0
    ensures Join(parts) == if |parts| == 1 then parts[0] else parts[0] + ":" + Join(parts[1..])
  {
  }

  lemma PushParts(c: char, p: seq<string>)
    requires |p| > 0
    ensures c == ':' ==> Push(c, p)[0] == "" && Push(c, p)[1..] == p
    ensures c != ':' ==> Push(c, p)[0] == [c] + p[0] && Push(c, p)[1..] == p[1..]
  {
  }

  lemma JoinPush(c: char, p: seq<string>)
    requires |p| > 0
    ensures Join(Push(c, p)) == [c] + Join(p)
  {
    hide Join, Push;
    var r := Push(c, p);
    PushParts(c, p);
    JoinMany(p);
    JoinMany(r);
    assert |r| == 1 + |r[1..]|;
    if c == ':' {
      assert "" + ":" + Join(p) == [c] + Join(p);
    } else if |p| > 1 {
      Regroup([c], p[0], Join(p[1..]));
    }
  }

  lemma Regroup(a: string, b: string, c: string)
    ensures a + (b + ":" + c) == a + b + ":" + c
  {
  }

  lemma {:induction false} JoinSplit(s: string)
    ensures Join(Split(s)) == s
  {
    if s != "" {
      JoinSplit(s[1..]);
      JoinPush(s[0], Split(s[1..]));
      hide Join, Push;
    }
  }

  lemma {:induction false} SplitColons(s: string)
    ensures forall i :: 0 <= i < |Split(s)| ==> NoColon(Split(s)[i])
    ensures NoColon(s) <==> |Split(s)| == 1
    ensures NoColon(s) ==> Split(s) == [s]
  {
    if s != "" {
      SplitColons(s[1..]);
      assert s == [s[0]] + s[1..];
    }
  }

  lemma {:induction false} SplitAppend(a: string, b: string)
    ensures Split(a + ":" + b) == Split(a) + Split(b)
  {
    var s := a + ":" + b;
    if a == "" {
      assert s[1..] == b && s[0] == ':';
    } else {
      assert s[1..] == a[1..] + ":" + b && s[0] == a[0];
      SplitAppend(a[1..], b);
      PushAppend(a[0], Split(a[1..]), Split(b));
      hide Push;
    }
  }

  lemma {:induction false} JoinAppend(p: seq<string>, q: seq<string>)
    requires |p| > 0 && |q| > 0
    ensures Join(p + q) == Join(p) + ":" + Join(q)
  {
    if |p| == 1 {
      assert (p + q)[1..] == q;
    } else {
      JoinAppend(p[1..], q);
      assert (p + q)[1..] == p[1..] + q;
    }
  }

  lemma {:induction false} RSplitAppend(a: string, b: string)
    requires NoColon(b)
    ensures RSplit(a + ":" + b) == Some((a, b))
  {
    var s := a + ":" + b;
    if b == "" {
      assert s[..|s| - 1] == a;
    } else {
      var k := |b| - 1;
      RSplitAppend(a, b[..k]);
      assert s[..|s| - 1] == a + ":" + b[..k] && b == b[..k] + [b[k]];
    }
  }

  lemma {:induction false} RSplitInverse(s: string)
    ensures RSplit(s) == None <==> NoColon(s)
    ensures RSplit(s).Some? ==>
              s == RSplit(s).value.0 + ":" + RSplit(s).value.1 && NoColon(RSplit(s).value.1)
  {
    if s != "" {
      var k := |s| - 1;
      RSplitInverse(s[..k]);
      assert s == s[..k] + [s[k]];
    }
  }

  // ---- Task ids -----------------------------------------------------------------------------

  function FnFromTid(tid: string): string {
    match RSplit(tid)
    case None => tid
    case Some((fn, _)) => fn
  }

  function TasknameFromTid(tid: string): Option<string> {
    match RSplit(tid)
    case None => None
    case Some((_, taskname)) => Some(taskname)
  }

  /** None stands for the IndexError that an id without a colon raises. */
  function SplitTidMcfn(tid: string): Option<TidParts> {
    if MULTICONFIG <= tid then
      var elems := Split(tid);
      var mc := if |elems| > 1 then elems[1] else "";
      var fn := if |elems| > 2 then Join(elems[2..|elems| - 1]) else "";
      Some(TidParts(mc, fn, elems[|elems| - 1], MULTICONFIG + mc + ":" + fn))
    else
      match RSplit(tid)
      case None => None
      case Some((fn, taskname)) => Some(TidParts("", fn, taskname, fn))
  }

  function BuildTid(mc: string, fn: string, taskname: string): string {
    if mc != "" then MULTICONFIG + mc + ":" + fn + ":" + taskname else fn + ":" + taskname
  }

  lemma SplitMulticonfig(tail: string)
    ensures Split(MULTICONFIG + tail) == ["multiconfig"] + Split(tail)
  {
    SplitColons("multiconfig");
    hide Split;
    SplitAppend("multiconfig", tail);
    assert "multiconfig" + ":" == MULTICONFIG;
  }

  /** Splitting undoes building exactly on these parts. */
  predicate TidPartsOk(mc: string, fn: string, taskname: string) {
    NoColon(taskname) && NoColon(mc) && (mc == "" ==> !(MULTICONFIG <= fn + ":"))
  }

  lemma SplitOfBuilt(mc: string, fn: string, taskname: string)
    requires mc != ""
    ensures Split(BuildTid(mc, fn, taskname)) == ["multiconfig"] + Split(mc) + Split(fn) + Split(taskname)
  {
    hide Split;
    var tail := fn + ":" + taskname;
    assert mc + ":" + tail == mc + ":" + fn + ":" + taskname;
    assert BuildTid(mc, fn, taskname) == MULTICONFIG + (mc + ":" + tail) by {
      hide MULTICONFIG;
    }
    SplitMulticonfig(mc + ":" + tail);
    SplitAppend(mc, tail);
    SplitAppend(fn, taskname);
  }

  lemma SplitBuildTid(mc: string, fn: string, taskname: string)
    ensures SplitTidMcfn(BuildTid(mc, fn, taskname)) ==
            Some(TidParts(mc, fn, taskname, if mc == "" then fn else MULTICONFIG + mc + ":" + fn))
            <==> TidPartsOk(mc, fn, taskname)
  {
    hide Split, Join;
    var tid := BuildTid(mc, fn, taskname);
    SplitColons(taskname);
    if mc != "" {
      SplitOfBuilt(mc, fn, taskname);
      SplitColons(mc);
      SplitColons(tid);
      JoinSplit(fn);
      var elems := Split(tid);
      if NoColon(mc) && NoColon(taskname) {
        assert elems[2..|elems| - 1] == Split(fn);
      }
    } else {
      assert MULTICONFIG <= tid <==> MULTICONFIG <= fn + ":" by {
        BuiltPrefix(fn, taskname);
      }
      if MULTICONFIG <= tid {
        MulticonfigShrinks(tid);
      } else {
        RSplitInverse(tid);
        if NoColon(taskname) {
          RSplitAppend(fn, taskname);
        }
      }
    }
  }

  lemma BuiltPrefix(fn: string, taskname: string)
    ensures MULTICONFIG <= fn + ":" + taskname <==> MULTICONFIG <= fn + ":"
  {
    if |fn| < 11 {
      assert (fn + ":" + taskname)[|fn|] == ':';
    }
  }

  lemma {:induction false} JoinLast(parts: seq<string>)
    requires |parts| >= 2
    ensures Join(parts) == Join(parts[..|parts| - 1]) + ":" + parts[|parts| - 1]
  {
    if |parts| > 2 {
      JoinLast(parts[1..]);
      assert parts[..|parts| - 1][1..] == parts[1..][..|parts| - 2];
    }
  }

  /** Three or more parts are the first, the middle ones joined, and the last. */
  lemma JoinEnds(elems: seq<string>)
    requires |elems| >= 3
    ensures Join(elems) == elems[0] + ":" + Join(elems[1..|elems| - 1]) + ":" + elems[|elems| - 1]
  {
    var mid, last := elems[1..|elems| - 1], elems[|elems| - 1];
    JoinTail(elems, mid, last);
    hide Join;
    Regroup(elems[0] + ":", Join(mid), last);
  }

  lemma JoinTail(elems: seq<string>, mid: seq<string>, last: string)
    requires |elems| >= 3 && mid == elems[1..|elems| - 1] && last == elems[|elems| - 1]
    ensures Join(elems) == elems[0] + ":" + (Join(mid) + ":" + last)
  {
    JoinLast(elems[1..]);
    Middle(elems);
    assert Join(elems) == elems[0] + ":" + Join(elems[1..]);
    hide Join;
  }

  lemma Middle<T>(s: seq<T>)
    requires |s| >= 2
    ensures s[1..][..|s| - 2] == s[1..|s| - 1]
  {
  }

  lemma Reassociate(a: string, b: string, c: string)
    ensures a + (b + c) == a + b + c
  {
  }

  lemma CancelPrefix(a: string, b: string, c: string)
    ensures a + b == a + c <==> b == c
  {
    assert (a + b)[|a|..] == b && (a + c)[|a|..] == c;
  }

  lemma MulticonfigParts(tid: string)
    requires MULTICONFIG <= tid
    ensures var tail := tid[12..]; var elems := Split(tail); var n := |elems|;
            && Split(tid) == ["multiconfig"] + elems
            && tid == MULTICONFIG + tail
            && tail == Join(elems)
            && SplitTidMcfn(tid).Some?
            && SplitTidMcfn(tid).value.mc == elems[0]
            && SplitTidMcfn(tid).value.fn == (if n >= 2 then Join(elems[1..n - 1]) else "")
            && SplitTidMcfn(tid).value.taskname == elems[n - 1]
  {
    hide Split, Join;
    var tail := tid[12..];
    TailAfter(tid);
    SplitMulticonfig(tail);
    JoinSplit(tail);
    DropTwo("multiconfig", Split(tail));
  }

  lemma TailAfter(tid: string)
    requires MULTICONFIG <= tid
    ensures |tid| >= 12 && tid == MULTICONFIG + tid[12..]
  {
  }

  lemma DropTwo(first: string, elems: seq<string>)
    requires |elems| >= 1
    ensures |elems| >= 2 ==> ([first] + elems)[2..|elems|] == elems[1..|elems| - 1]
  {
  }

  lemma NoParts(parts: seq<string>)
    requires |parts| == 0
    ensures Join(parts) == ""
  {
  }

  lemma MulticonfigShrinks(tid: string)
    requires MULTICONFIG <= tid
    ensures SplitTidMcfn(tid).Some?
    ensures var p := SplitTidMcfn(tid).value; |p.fn| + 1 + |p.taskname| < |tid|
    ensures var p := SplitTidMcfn(tid).value;
            && (|Split(tid)| >= 4 ==> tid == MULTICONFIG + p.mc + ":" + p.fn + ":" + p.taskname)
            && (|Split(tid)| < 4 ==> |MULTICONFIG + p.mc + ":" + p.fn + ":" + p.taskname| > |tid|)
  {
    MulticonfigParts(tid);
    var elems := Split(tid[12..]);
    var p := SplitTidMcfn(tid).value;
    if |elems| >= 3 {
      JoinEnds(elems);
      hide Split, Join, SplitTidMcfn;
      Regroup(MULTICONFIG, p.mc, p.fn + ":" + p.taskname);
      Reassociate(MULTICONFIG + p.mc + ":", p.fn + ":", p.taskname);
      Reassociate(MULTICONFIG + p.mc + ":", p.fn, ":");
      Reassociate(p.mc + ":", p.fn + ":", p.taskname);
      Reassociate(p.mc + ":", p.fn, ":");
    } else if |elems| == 2 {
      assert Join(elems) == elems[0] + ":" + elems[1];
      NoParts(elems[1..1]);
      hide Split, Join, SplitTidMcfn;
    } else {
      hide Split, SplitTidMcfn;
    }
  }

  /** Building undoes splitting exactly on these ids. */
  predicate TidOk(tid: string) {
    if MULTICONFIG <= tid then |Split(tid)| >= 4 && Split(tid)[1] != "" else !NoColon(tid)
  }

  lemma BuildSplitTid(tid: string)
    ensures (SplitTidMcfn(tid).Some? &&
             BuildTid(SplitTidMcfn(tid).value.mc, SplitTidMcfn(tid).value.fn, SplitTidMcfn(tid).value.taskname) == tid)
            <==> TidOk(tid)
  {
    if MULTICONFIG <= tid {
      MulticonfigParts(tid);
      MulticonfigShrinks(tid);
      hide Split;
    } else {
      RSplitInverse(tid);
      hide RSplit;
    }
  }

  /** On such ids the two ways of reading the recipe and the task name agree. */
  lemma TidReadersAgree(tid: string)
    requires TidOk(tid)
    ensures SplitTidMcfn(tid).Some?
    ensures FnFromTid(tid) == SplitTidMcfn(tid).value.mcfn
    ensures TasknameFromTid(tid) == Some(SplitTidMcfn(tid).value.taskname)
  {
    RSplitInverse(tid);
    if MULTICONFIG <= tid {
      MulticonfigParts(tid);
      MulticonfigShrinks(tid);
      var p := SplitTidMcfn(tid).value;
      SplitColons(tid);
      assert p.taskname == Split(tid)[|Split(tid)| - 1];
      assert tid == p.mcfn + ":" + p.taskname;
      RSplitAppend(p.mcfn, p.taskname);
      hide Split, RSplit;
    }
  }

  // ---- Virtual file names -------------------------------------------------------------------

  function VirtualFn2RealFn(virtualfn: string): RealName {
    if MULTICONFIG <= virtualfn then
      var elems := Split(virtualfn);
      var (fn, cls) := ReadNamed(if |elems| > 2 then Join(elems[2..]) else "");
      RealName(fn, cls, if |elems| > 1 then elems[1] else "")
    else
      var (fn, cls) := ReadNamed(virtualfn);
      RealName(fn, cls, "")
  }

  /** The part of a virtual name after `multiconfig:`: file name and class, which may hold colons. */
  function ReadNamed(inner: string): (string, string) {
    var parts := Split(inner);
    if VIRTUAL <= inner then
      (parts[|parts| - 1], if |parts| > 2 then Join(parts[1..|parts| - 1]) else "")
    else (inner, "")
  }

  function Named(fn: string, cls: string): string {
    if cls != "" then VIRTUAL + cls + ":" + fn else fn
  }

  function RealFn2Virtual(realfn: string, cls: string, mc: string): string {
    if mc != "" then MULTICONFIG + mc + ":" + Named(realfn, cls) else Named(realfn, cls)
  }

  /** None stands for the IndexError of a key like `multiconfig:x` without a class part. */
  function Variant2Virtual(realfn: string, variant: string): Option<string> {
    if variant == "" then Some(realfn)
    else if MULTICONFIG <= variant then
      var elems := Split(variant);
      if |elems| < 3 then None
      else if elems[2] != "" then
        Some(MULTICONFIG + elems[1] + ":virtual:" + Join(elems[2..]) + ":" + realfn)
      else
        Some(MULTICONFIG + elems[1] + ":" + realfn)
    else Some(VIRTUAL + variant + ":" + realfn)
  }

  predicate NamedOk(fn: string, cls: string) {
    if cls != "" then NoColon(fn) else !(VIRTUAL <= fn)
  }

  lemma SplitVirtual(tail: string)
    ensures Split(VIRTUAL + tail) == ["virtual"] + Split(tail)
  {
    SplitAppend("virtual", tail);
    SplitColons("virtual");
    assert "virtual" + ":" + tail == VIRTUAL + tail;
  }

  lemma VirtualParts(inner: string)
    requires VIRTUAL <= inner
    ensures var elems := Split(inner[8..]); var n := |elems|;
            && inner == VIRTUAL + Join(elems)
            && ReadNamed(inner) == (elems[n - 1], if n >= 2 then Join(elems[..n - 1]) else "")
            && NoColon(elems[n - 1])
  {
    var tail := inner[8..];
    assert inner == VIRTUAL + tail;
    SplitVirtual(tail);
    JoinSplit(tail);
    SplitColons(tail);
    var elems := Split(tail);
    hide Split, Join, Push;
    DropFirst("virtual", elems);
  }

  lemma DropFirst(first: string, elems: seq<string>)
    requires |elems| > 0
    ensures ([first] + elems)[1..|elems|] == elems[..|elems| - 1]
  {
  }

  lemma VirtualShrinks(inner: string)
    requires VIRTUAL <= inner
    ensures var (fn, cls) := ReadNamed(inner);
            && |fn| < |inner|
            && NoColon(fn)
            && (cls != "" ==> inner == VIRTUAL + cls + ":" + fn)
  {
    VirtualParts(inner);
    var elems := Split(inner[8..]);
    var n := |elems|;
    if n >= 2 {
      JoinLast(elems);
      Regroup(VIRTUAL, Join(elems[..n - 1]), elems[n - 1]);
      hide Split, Join, ReadNamed;
    } else {
      assert Join(elems) == elems[0];
      hide Split, ReadNamed;
    }
  }

  lemma ReadOfNamed(fn: string, cls: string)
    ensures ReadNamed(Named(fn, cls)) == (fn, cls) <==> NamedOk(fn, cls)
  {
    if cls != "" {
      var inner := VIRTUAL + cls + ":" + fn;
      assert inner == VIRTUAL + (cls + ":" + fn);
      SplitVirtual(cls + ":" + fn);
      SplitAppend(cls, fn);
      VirtualShrinks(inner);
      SplitColons(fn);
      JoinSplit(cls);
      if NoColon(fn) {
        assert Split(inner) == ["virtual"] + Split(cls) + [fn];
        assert Split(inner)[1..|Split(inner)| - 1] == Split(cls);
      }
      hide Split;
    } else if VIRTUAL <= fn {
      VirtualShrinks(fn);
    }
  }

  lemma MulticonfigRead(v: string)
    requires MULTICONFIG <= v
    ensures |Split(v)| >= 2
    ensures var mc := Split(v)[1]; var inner := Join(Split(v)[2..]);
            && VirtualFn2RealFn(v) == RealName(ReadNamed(inner).0, ReadNamed(inner).1, mc)
            && |inner| < |v|
            && (|Split(v)| >= 3 ==> v == MULTICONFIG + mc + ":" + inner)
            && (|Split(v)| == 2 ==> inner == "" && v == MULTICONFIG + mc)
  {
    MulticonfigParts(v);
    var elems := Split(v[12..]);
    assert (["multiconfig"] + elems)[2..] == elems[1..];
    assert Join([]) == "";
    if |elems| > 1 {
      assert Join(elems) == elems[0] + ":" + Join(elems[1..]);
      Regroup(MULTICONFIG, elems[0], Join(elems[1..]));
    } else {
      assert Join(elems) == elems[0];
    }
    hide Split, Join, ReadNamed;
  }

  /** Decoding undoes encoding exactly on these names. */
  predicate RealNameOk(fn: string, cls: string, mc: string) {
    && NamedOk(fn, cls)
    && NoColon(mc)
    && (mc == "" && cls == "" ==> !(MULTICONFIG <= fn))
  }

  lemma ReadOfVirtual(fn: string, cls: string, mc: string)
    ensures VirtualFn2RealFn(RealFn2Virtual(fn, cls, mc)) == RealName(fn, cls, mc) <==> RealNameOk(fn, cls, mc)
  {
    var v := RealFn2Virtual(fn, cls, mc);
    var inner := Named(fn, cls);
    ReadOfNamed(fn, cls);
    if mc != "" {
      assert v == MULTICONFIG + (mc + ":" + inner);
      SplitMulticonfig(mc + ":" + inner);
      SplitAppend(mc, inner);
      SplitColons(mc);
      SplitColons(v);
      JoinSplit(inner);
      MulticonfigRead(v);
      if NoColon(mc) {
        assert Split(v) == ["multiconfig", mc] + Split(inner);
        assert Split(v)[2..] == Split(inner);
      }
      hide Split, ReadNamed, VirtualFn2RealFn;
    } else if cls != "" {
      assert v[0] == 'v';
      hide Split, ReadNamed;
    } else if MULTICONFIG <= v {
      MulticonfigRead(v);
      ReadNamedLength(Join(Split(v)[2..]));
      hide Split, ReadNamed, VirtualFn2RealFn;
    } else {
      hide Split;
    }
  }

  lemma ReadNamedLength(inner: string)
    ensures |ReadNamed(inner).0| <= |inner|
  {
    if VIRTUAL <= inner {
      VirtualShrinks(inner);
    }
  }

  /** Encoding undoes decoding exactly on these virtual names. */
  predicate VirtualOk(v: string) {
    var elems := Split(v);
    var inner := if MULTICONFIG <= v && |elems| >= 3 then Join(elems[2..]) else v;
    && (MULTICONFIG <= v ==> |Split(v)| >= 3 && Split(v)[1] != "")
    && (VIRTUAL <= inner ==> HasClass(Split(inner)))
  }

  /** Between `virtual` and the file name stands something. */
  predicate HasClass(parts: seq<string>) {
    |parts| >= 3 && (|parts| == 3 ==> parts[1] != "")
  }

  lemma ClassGiven(inner: string)
    requires VIRTUAL <= inner
    ensures ReadNamed(inner).1 != "" <==> HasClass(Split(inner))
  {
    hide Split, Join, ReadNamed;
    VirtualParts(inner);
    SplitVirtual(inner[8..]);
    var elems := Split(inner[8..]);
    assert inner == VIRTUAL + inner[8..];
    if |elems| >= 2 {
      var before := elems[..|elems| - 1];
      JoinMany(before);
      assert |elems| > 2 ==> |Join(before)| == |before[0]| + 1 + |Join(before[1..])|;
    }
  }

  lemma VirtualOfRead(v: string)
    ensures var r := VirtualFn2RealFn(v); RealFn2Virtual(r.fn, r.cls, r.mc) == v <==> VirtualOk(v)
  {
    if MULTICONFIG <= v {
      MulticonfigRead(v);
      var inner := Join(Split(v)[2..]);
      hide Split;
      NamedOfRead(inner);
      if VIRTUAL <= inner {
        ClassGiven(inner);
      }
      var r := VirtualFn2RealFn(v);
      CancelPrefix(MULTICONFIG + r.mc + ":", Named(r.fn, r.cls), inner);
      hide Join, VirtualFn2RealFn, ReadNamed;
    } else {
      NamedOfRead(v);
      if VIRTUAL <= v {
        ClassGiven(v);
      }
      hide Split, ReadNamed;
    }
  }

  lemma NamedOfRead(inner: string)
    ensures Named(ReadNamed(inner).0, ReadNamed(inner).1) == inner <==>
            (VIRTUAL <= inner ==> ReadNamed(inner).1 != "")
    ensures |Named(ReadNamed(inner).0, ReadNamed(inner).1)| <= |inner|
  {
    if VIRTUAL <= inner {
      VirtualShrinks(inner);
      hide Split, ReadNamed;
    }
  }

  /** The key under which a multiconfig datastore is kept names the same virtual file as the class and
      the configuration do, unless the class part begins with a colon. */
  lemma VariantOfMulticonfigKey(fn: string, cls: string, mc: string)
    requires mc != "" && NoColon(mc)
    ensures Variant2Virtual(fn, MULTICONFIG + mc + ":" + cls) == Some(RealFn2Virtual(fn, cls, mc))
            <==> (cls == "" || cls[0] != ':')
  {
    var key := MULTICONFIG + mc + ":" + cls;
    assert key == MULTICONFIG + (mc + ":" + cls);
    SplitMulticonfig(mc + ":" + cls);
    SplitAppend(mc, cls);
    SplitColons(mc);
    assert Split(key) == ["multiconfig", mc] + Split(cls);
    assert Split(key)[2..] == Split(cls);
    JoinSplit(cls);
    FirstPart(cls);
    var head := MULTICONFIG + mc + ":";
    assert head + "virtual:" == MULTICONFIG + mc + ":virtual:";
    Reassociate(head, VIRTUAL, cls + ":" + fn);
    Reassociate(VIRTUAL, cls + ":", fn);
    Reassociate(head + VIRTUAL, cls + ":", fn);
    Reassociate(VIRTUAL, cls, ":");
    Reassociate(head + VIRTUAL, cls, ":");
    hide Split, Join;
  }

  lemma FirstPart(cls: string)
    ensures Split(cls)[0] == "" <==> cls == "" || cls[0] == ':'
  {
  }

  /** A plain class name used as key agrees unless it looks like a multiconfig key. */
  lemma VariantOfPlainKey(fn: string, cls: string)
    ensures Variant2Virtual(fn, cls) == Some(RealFn2Virtual(fn, cls, "")) <==> !(MULTICONFIG <= cls)
  {
    if MULTICONFIG <= cls {
      assert RealFn2Virtual(fn, cls, "")[0] == 'v';
      hide Split, Join;
    }
  }
}
