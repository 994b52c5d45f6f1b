/** Decoding what the workers write: a stream of tagged messages that arrives in arbitrary pieces. */
module WorkerPipe {
  newtype byte = x: int | 0 <= x < 256

  /** `<event>`, `</event>`, `<exitcode>` and `</exitcode>` */
  const EVENT: seq<byte> := [60, 101, 118, 101, 110, 116, 62]
  const EVENT_END: seq<byte> := [60, 47, 101, 118, 101, 110, 116, 62]
  const EXITCODE: seq<byte> := [60, 101, 120, 105, 116, 99, 111, 100, 101, 62]
  const EXITCODE_END: seq<byte> := [60, 47, 101, 120, 105, 116, 99, 111, 100, 101, 62]

  /** The payload is a pickle, which is not looked into. */
  datatype Message = Event(payload: seq<byte>) | ExitCode(payload: seq<byte>)

  function Open(m: Message): seq<byte> {
    match m
    case Event(_) => EVENT
    case ExitCode(_) => EXITCODE
  }

  function Close(m: Message): seq<byte> {
    match m
    case Event(_) => EVENT_END
    case ExitCode(_) => EXITCODE_END
  }

  function Encode(m: Message): seq<byte> {
    Open(m) + m.payload + Close(m)
  }

  ghost function Text(s: seq<byte>): string {
    seq(|s|, i requires 0 <= i < |s| => s[i] as char)
  }

  /** What a message looks like on the wire. */
  lemma EncodedText(p: seq<byte>)
    ensures Text(Encode(Event(p))) == "<event>" + Text(p) + "</event>"
    ensures Text(Encode(ExitCode(p))) == "<exitcode>" + Text(p) + "</exitcode>"
  {
    assert Text(EVENT) == "<event>" && Text(EVENT_END) == "</event>";
    assert Text(EXITCODE) == "<exitcode>" && Text(EXITCODE_END) == "</exitcode>";
  }

  function EncodeAll(ms: seq<Message>): seq<byte> {
    if ms == [] then [] else Encode(ms[0]) + EncodeAll(ms[1..])
  }

  ghost predicate At(s: seq<byte>, i: int, tag: seq<byte>) {
    0 <= i && i + |tag| <= |s| && s[i..i + |tag|] == tag
  }

  /** `bytes.find`: the first position of `tag`, or -1. */
  function Find(s: seq<byte>, tag: seq<byte>): (i: int)
    ensures -1 <= i
    ensures i >= 0 ==> At(s, i, tag) && forall j :: 0 <= j < i ==> !At(s, j, tag)
    ensures i == -1 ==> forall j :: !At(s, j, tag)
    decreases |s|
  {
    if tag <= s then
      assert s[0..|tag|] == tag;
      0
    else if s == [] then -1
    else
      var i := Find(s[1..], tag);
      AtNext(s, tag);
      if i == -1 then -1 else i + 1
  }

  lemma AtNext(s: seq<byte>, tag: seq<byte>)
    requires s != [] && !(tag <= s)
    ensures forall j {:trigger At(s, j, tag)} :: At(s, j, tag) <==> j > 0 && At(s[1..], j - 1, tag)
  {
    forall j ensures At(s, j, tag) <==> j > 0 && At(s[1..], j - 1, tag) {
      if j > 0 && j + |tag| <= |s| {
        SliceOfTail(s, j, |tag|);
      }
    }
  }

  lemma SliceOfTail<T>(s: seq<T>, j: nat, n: nat)
    requires 0 < j && j + n <= |s|
    ensures s[j..j + n] == s[1..][j - 1..j - 1 + n]
  {
    SliceOfSlice(s, 1, |s| - 1, j - 1, n);
    assert s[1..1 + (|s| - 1)] == s[1..];
  }

  lemma SliceOfSlice<T>(s: seq<T>, o: nat, l: nat, a: nat, n: nat)
    requires o + l <= |s| && a + n <= l
    ensures s[o..o + l][a..a + n] == s[o + a..o + a + n]
  {
    var t, left, right := s[o..o + l], s[o..o + l][a..a + n], s[o + a..o + a + n];
    forall k | 0 <= k < n ensures left[k] == right[k] {
      assert t[a + k] == s[o + (a + k)];
    }
  }

  /** The message at the front of the queue, if it is complete. */
  function Front(q: seq<byte>): (r: (bool, Message, seq<byte>))
    ensures r.0 ==> |r.2| < |q|
  {
    var e, x := Find(q, EVENT_END), Find(q, EXITCODE_END);
    if e != -1 && EVENT <= q then
      EndAfterOpen(Event([]), q, e);
      (true, Event(q[7..e]), q[e + 8..])
    else if x != -1 && EXITCODE <= q then
      EndAfterOpen(ExitCode([]), q, x);
      (true, ExitCode(q[10..x]), q[x + 11..])
    else (false, Event([]), q)
  }

  /** The closing tag cannot overlap the opening one. */
  lemma EndAfterOpen(m: Message, q: seq<byte>, i: int)
    requires Open(m) <= q && At(q, i, Close(m))
    ensures i >= |Open(m)| && i + |Close(m)| <= |q|
  {
    var open, end := Open(m), Close(m);
    assert q[i..i + |end|][0] == q[i] && q[i..i + |end|][1] == q[i + 1];
    assert forall k :: 0 <= k < |open| ==> q[k] == open[k];
    assert i != 0;
  }

  /** All complete messages at the front of the queue, and what is left. */
  function Decode(q: seq<byte>): (r: (seq<Message>, seq<byte>))
    decreases |q|
  {
    var (found, m, rest) := Front(q);
    if found then
      var (ms, left) := Decode(rest);
      ([m] + ms, left)
    else ([], q)
  }

  // ---- Pieces do not matter -----------------------------------------------------------------------

  lemma FindStable(q: seq<byte>, more: seq<byte>, tag: seq<byte>)
    requires Find(q, tag) >= 0
    ensures Find(q + more, tag) == Find(q, tag)
  {
    var i := Find(q, tag);
    assert (q + more)[i..i + |tag|] == q[i..i + |tag|];
    assert At(q + more, i, tag);
    forall j | 0 <= j < i ensures !At(q + more, j, tag) {
      assert (q + more)[j..j + |tag|] == q[j..j + |tag|];
      assert !At(q, j, tag);
    }
  }

  lemma EventBounds(q: seq<byte>, index: int)
    requires At(q, index, EVENT_END) && EVENT <= q
    ensures 7 <= index && index + 8 <= |q|
  {
    EndAfterOpen(Event([]), q, index);
  }

  lemma ExitCodeBounds(q: seq<byte>, index: int)
    requires At(q, index, EXITCODE_END) && EXITCODE <= q
    ensures 10 <= index && index + 11 <= |q| && !(EVENT <= q)
  {
    EndAfterOpen(ExitCode([]), q, index);
    assert q[2] == EXITCODE[2] != EVENT[2];
  }

  lemma FrontEvent(q: seq<byte>, index: int)
    requires index == Find(q, EVENT_END) && index != -1 && EVENT <= q
    ensures 7 <= index && index + 8 <= |q|
    ensures Front(q).0
    ensures Front(q).1 == Event(q[7..index])
    ensures Front(q).2 == q[index + 8..]
  {
    hide Find, At, EVENT, EVENT_END, EXITCODE, EXITCODE_END;
    EventBounds(q, index);
  }

  lemma FrontExitCode(q: seq<byte>, index: int)
    requires index == Find(q, EXITCODE_END) && index != -1 && EXITCODE <= q
    ensures 10 <= index && index + 11 <= |q|
    ensures Front(q).0
    ensures Front(q).1 == ExitCode(q[10..index])
    ensures Front(q).2 == q[index + 11..]
  {
    hide Find, At, EVENT, EVENT_END, EXITCODE, EXITCODE_END;
    ExitCodeBounds(q, index);
  }

  /** A complete message at the front stays what it is, whatever follows. */
  lemma FrontStable(q: seq<byte>, more: seq<byte>)
    requires Front(q).0
    ensures Front(q + more) == (true, Front(q).1, Front(q).2 + more)
  {
    var e, x := Find(q, EVENT_END), Find(q, EXITCODE_END);
    hide Find, At, EVENT, EVENT_END, EXITCODE, EXITCODE_END;
    if e != -1 && EVENT <= q {
      FindStable(q, more, EVENT_END);
      FrontEvent(q, e);
      FrontEvent(q + more, e);
      hide Front;
      assert (q + more)[7..e] == q[7..e] && (q + more)[e + 8..] == q[e + 8..] + more;
    } else {
      FindStable(q, more, EXITCODE_END);
      FrontExitCode(q, x);
      FrontExitCode(q + more, x);
      hide Front;
      assert (q + more)[10..x] == q[10..x] && (q + more)[x + 11..] == q[x + 11..] + more;
    }
  }

  /** Decoding what has arrived and later the rest is decoding it all at once, for every byte stream. */
  lemma {:induction false} DecodeAppend(q: seq<byte>, more: seq<byte>)
    ensures var (ms, left) := Decode(q);
            Decode(q + more) == (ms + Decode(left + more).0, Decode(left + more).1)
    decreases |q|
  {
    DecodeStep(q);
    DecodeStep(q + more);
    if Front(q).0 {
      var (_, m, rest) := Front(q);
      FrontStable(q, more);
      hide Front, Decode;
      DecodeAppend(rest, more);
      Shift([m], Decode(rest).0, Decode(Decode(rest).1 + more).0);
    } else {
      hide Front, Decode;
      assert [] + Decode(q + more).0 == Decode(q + more).0;
    }
  }

  lemma DecodeStep(q: seq<byte>)
    ensures var (found, m, rest) := Front(q);
            Decode(q) == if found then ([m] + Decode(rest).0, Decode(rest).1) else ([], q)
  {
    hide Front;
  }

  lemma Shift(a: seq<Message>, b: seq<Message>, c: seq<Message>)
    ensures a + (b + c) == (a + b) + c
  {
  }

  /** The reads of a whole run, one after the other. */
  ghost function ReadAll(queue: seq<byte>, chunks: seq<seq<byte>>): (seq<Message>, seq<byte>)
    decreases |chunks|
  {
    if chunks == [] then Decode(queue)
    else
      var (ms, left) := Decode(queue + chunks[0]);
      var (more, rest) := ReadAll(left, chunks[1..]);
      (ms + more, rest)
  }

  ghost function Flatten(chunks: seq<seq<byte>>): seq<byte> {
    if chunks == [] then [] else chunks[0] + Flatten(chunks[1..])
  }

  /** However the stream is cut into reads, the messages and the remainder are the same. */
  lemma {:induction false} ChunksDoNotMatter(queue: seq<byte>, chunks: seq<seq<byte>>)
    ensures ReadAll(queue, chunks) == Decode(queue + Flatten(chunks))
    decreases |chunks|
  {
    hide Decode;
    if chunks == [] {
      assert queue + [] == queue;
    } else {
      var tail := Flatten(chunks[1..]);
      ChunksDoNotMatter(Decode(queue + chunks[0]).1, chunks[1..]);
      DecodeAppend(queue + chunks[0], tail);
      assert queue + (chunks[0] + tail) == queue + chunks[0] + tail;
    }
  }

  // ---- Round trip ---------------------------------------------------------------------------------

  /** The payload does not contain the closing tag of its own kind. */
  ghost predicate Clean(m: Message) {
    forall j :: !At(m.payload, j, Close(m))
  }

  lemma TagStartsOnce(m: Message, k: nat)
    requires 0 < k < |Close(m)|
    ensures Close(m)[k] != Close(m)[0]
  {
  }

  lemma CloseNotBefore(m: Message, rest: seq<byte>, j: nat)
    requires Clean(m) && j < |Open(m)| + |m.payload|
    ensures !At(Encode(m) + rest, j, Close(m))
  {
    EncodeParts(m, rest);
    var q, i, tag := Encode(m) + rest, |Open(m)| + |m.payload|, Close(m);
    hide Encode, Open, Close, Clean;
    if j < |Open(m)| {
      NoEndInOpen(m, q, j);
    } else if j + |tag| <= i {
      NotInPayload(m, q, j);
    } else {
      NotAcross(m, q, i, j);
    }
  }

  lemma NotInPayload(m: Message, q: seq<byte>, j: nat)
    requires Clean(m) && |Open(m)| <= j && j + |Close(m)| <= |Open(m)| + |m.payload| <= |q|
    requires q[|Open(m)|..|Open(m)| + |m.payload|] == m.payload
    ensures !At(q, j, Close(m))
  {
    var o, n := |Open(m)|, |Close(m)|;
    hide Open, Close;
    SliceOfSlice(q, o, |m.payload|, j - o, n);
    assert !At(m.payload, j - o, Close(m));
  }

  lemma NotAcross(m: Message, q: seq<byte>, i: nat, j: nat)
    requires j < i < j + |Close(m)| && i + |Close(m)| <= |q| && q[i..i + |Close(m)|] == Close(m)
    ensures !At(q, j, Close(m))
  {
    TagStartsOnce(m, i - j);
    assert q[i] == q[i..i + |Close(m)|][0];
    hide Close;
    if j + |Close(m)| <= |q| {
      assert q[j..j + |Close(m)|][i - j] == q[i];
    }
  }

  lemma NoEndInOpen(m: Message, q: seq<byte>, i: nat)
    requires Open(m) <= q && i < |Open(m)|
    ensures !At(q, i, Close(m))
  {
    if At(q, i, Close(m)) {
      EndAfterOpen(m, q, i);
    }
  }

  lemma CloseFound(m: Message, rest: seq<byte>)
    requires Clean(m)
    ensures Find(Encode(m) + rest, Close(m)) == |Open(m)| + |m.payload|
  {
    var q, i, tag := Encode(m) + rest, |Open(m)| + |m.payload|, Close(m);
    EncodeParts(m, rest);
    assert At(q, i, tag);
    forall j | 0 <= j < i ensures !At(q, j, tag) {
      CloseNotBefore(m, rest, j);
    }
    hide At, Encode, Open, Close;
  }

  lemma EncodeParts(m: Message, rest: seq<byte>)
    ensures var q, i := Encode(m) + rest, |Open(m)| + |m.payload|;
            && i + |Close(m)| <= |q| && Open(m) <= q
            && q[|Open(m)|..i] == m.payload && q[i..i + |Close(m)|] == Close(m) && q[i + |Close(m)|..] == rest
  {
    hide EVENT, EVENT_END, EXITCODE, EXITCODE_END;
  }

  lemma FrontOfEncoded(m: Message, rest: seq<byte>)
    requires Clean(m)
    ensures Front(Encode(m) + rest) == (true, m, rest)
  {
    var q := Encode(m) + rest;
    CloseFound(m, rest);
    hide Find, Front;
    var i := |Open(m)| + |m.payload|;
    EncodeParts(m, rest);
    assert if m.Event? then |Open(m)| == 7 && |Close(m)| == 8 else |Open(m)| == 10 && |Close(m)| == 11;
    hide EVENT, EVENT_END, EXITCODE, EXITCODE_END, Encode;
    if m.Event? {
      FrontEvent(q, i);
    } else {
      FrontExitCode(q, i);
    }
  }

  /** Part of a message is not a message. */
  lemma PartOfEncoded(m: Message, k: nat)
    requires Clean(m) && k < |Encode(m)|
    ensures !Front(Encode(m)[..k]).0
  {
    var q, more := Encode(m)[..k], Encode(m)[k..];
    hide Front;
    assert q + more == Encode(m) + [];
    FrontOfEncoded(m, []);
    if Front(q).0 {
      FrontStable(q, more);
    }
  }

  /** After any number of bytes of a clean stream exactly the messages that are complete have been
      delivered, in order, and the queue holds the beginning of the next one. */
  lemma {:induction false} DecodeStream(ms: seq<Message>, n: nat, k: nat)
    requires forall i :: 0 <= i < |ms| ==> Clean(ms[i])
    requires n <= |ms| && if n < |ms| then k < |Encode(ms[n])| else k == 0
    ensures var part := if n < |ms| then Encode(ms[n])[..k] else [];
            Decode(EncodeAll(ms[..n]) + part) == (ms[..n], part)
    decreases n
  {
    var part := if n < |ms| then Encode(ms[n])[..k] else [];
    hide Front, Encode, Decode;
    if n == 0 {
      assert EncodeAll(ms[..0]) + part == part;
      if 0 < |ms| {
        PartOfEncoded(ms[0], k);
        DecodeStep(part);
      } else {
        EmptyQueue();
      }
    } else {
      var tail := ms[1..];
      DecodeStream(tail, n - 1, k);
      DecodeMore(ms[0], tail[..n - 1], part);
      assert [ms[0]] + tail[..n - 1] == ms[..n];
    }
  }

  lemma DecodeMore(m: Message, ms: seq<Message>, part: seq<byte>)
    requires Clean(m) && Decode(EncodeAll(ms) + part) == (ms, part)
    ensures Decode(EncodeAll([m] + ms) + part) == ([m] + ms, part)
  {
    hide Front, Encode, Decode;
    var rest := EncodeAll(ms) + part;
    assert ([m] + ms)[1..] == ms;
    assert EncodeAll([m] + ms) == Encode(m) + EncodeAll(ms);
    hide EncodeAll;
    assert Encode(m) + EncodeAll(ms) + part == Encode(m) + rest;
    FrontOfEncoded(m, rest);
    DecodeStep(Encode(m) + rest);
  }

  lemma EmptyQueue()
    ensures Decode([]) == ([], [])
  {
  }

  class RunQueuePipe {
    var queue: seq<byte>
    /** the messages handed on, in order */
    var delivered: seq<Message>

    constructor ()
      ensures queue == [] && delivered == []
    {
      queue, delivered := [], [];
    }

    /** Takes in what has arrived and hands on every complete message; tells whether anything arrived. */
    method Read(chunk: seq<byte>) returns (some: bool)
      modifies this
      ensures some == (chunk != [])
      ensures delivered == old(delivered) + Decode(old(queue) + chunk).0
      ensures queue == Decode(old(queue) + chunk).1 && !Front(queue).0
    {
      var start := |queue|;
      queue := queue + chunk;
      var end := |queue|;
      hide Front, Decode;
      ghost var all := Decode(queue);
      var found := true;
      while found && |queue| > 0
        invariant delivered + Decode(queue).0 == old(delivered) + all.0 && Decode(queue).1 == all.1
        invariant found || !Front(queue).0
        decreases |queue|, found
      {
        found := false;
        ghost var before := |queue|;
        var index := Find(queue, EVENT_END);
        while index != -1 && EVENT <= queue
          invariant index == Find(queue, EVENT_END)
          invariant delivered + Decode(queue).0 == old(delivered) + all.0 && Decode(queue).1 == all.1
          invariant |queue| <= before && (found ==> |queue| < before)
          decreases |queue|
        {
          TakeEvent(queue, index);
          Shift(delivered, [Event(queue[7..index])], Decode(queue[index + 8..]).0);
          delivered := delivered + [Event(queue[7..index])];
          found := true;
          queue := queue[index + 8..];
          index := Find(queue, EVENT_END);
        }
        ghost var noEvent := queue;
        index := Find(queue, EXITCODE_END);
        while index != -1 && EXITCODE <= queue
          invariant index == Find(queue, EXITCODE_END)
          invariant delivered + Decode(queue).0 == old(delivered) + all.0 && Decode(queue).1 == all.1
          invariant |queue| <= before && (found ==> |queue| < before) && (!found ==> queue == noEvent)
          decreases |queue|
        {
          TakeExitCode(queue, index);
          Shift(delivered, [ExitCode(queue[10..index])], Decode(queue[index + 11..]).0);
          delivered := delivered + [ExitCode(queue[10..index])];
          found := true;
          queue := queue[index + 11..];
          index := Find(queue, EXITCODE_END);
        }
        if !found {
          NoFront(queue);
        }
      }
      NoMore(queue);
      some := end > start;
    }
  }

  lemma TakeEvent(q: seq<byte>, index: int)
    requires index == Find(q, EVENT_END) && index != -1 && EVENT <= q
    ensures 7 <= index && index + 8 <= |q|
    ensures Decode(q) == ([Event(q[7..index])] + Decode(q[index + 8..]).0, Decode(q[index + 8..]).1)
  {
    hide Front, Decode, Find;
    FrontEvent(q, index);
    DecodeStep(q);
  }

  lemma TakeExitCode(q: seq<byte>, index: int)
    requires index == Find(q, EXITCODE_END) && index != -1 && EXITCODE <= q
    ensures 10 <= index && index + 11 <= |q|
    ensures Decode(q) == ([ExitCode(q[10..index])] + Decode(q[index + 11..]).0, Decode(q[index + 11..]).1)
  {
    hide Front, Decode, Find;
    FrontExitCode(q, index);
    DecodeStep(q);
  }

  lemma NoFront(q: seq<byte>)
    requires !(Find(q, EVENT_END) != -1 && EVENT <= q) && !(Find(q, EXITCODE_END) != -1 && EXITCODE <= q)
    ensures !Front(q).0
  {
  }

  lemma NoMore(q: seq<byte>)
    requires q == [] || !Front(q).0
    ensures !Front(q).0 && Decode(q) == ([], q)
  {
  }
}
