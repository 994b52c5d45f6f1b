/** The parse fan-out of `cooker.py`: a feeder process, parser processes and the server that reads their
    results, interleaved in any order. */
module ParseFanout {
  import opened Wrappers

  type File = string

  /** What parsing one file yields: how many recipe variants, or an exception. */
  datatype Result = Infos(file: File, variants: nat) | Raised(file: File)

  /** A parser process: the result it is about to hand on, and those it could not. */
  datatype Parser = Parser(hand: seq<Result>, pending: seq<Result>)

  // ---- Where the files are ---------------------------------------------------------------------

  /** Files are counted one name at a time or, with None, all together. */
  type Which = Option<File>

  function One(f: File, w: Which): nat {
    if w.None? || w.value == f then 1 else 0
  }

  ghost function Jobs(fs: seq<File>, w: Which): nat {
    if fs == [] then 0 else One(fs[0], w) + Jobs(fs[1..], w)
  }

  ghost function Results(rs: seq<Result>, w: Which): nat {
    if rs == [] then 0 else One(rs[0].file, w) + Results(rs[1..], w)
  }

  ghost function At(p: Parser, w: Which): nat {
    Results(p.hand, w) + Results(p.pending, w)
  }

  ghost function Parsers(ps: seq<Parser>, w: Which): nat {
    if ps == [] then 0 else At(ps[0], w) + Parsers(ps[1..], w)
  }

  lemma {:induction false} JobsAppend(a: seq<File>, b: seq<File>, w: Which)
    ensures Jobs(a + b, w) == Jobs(a, w) + Jobs(b, w)
  {
    if a == [] {
      assert a + b == b;
    } else {
      JobsAppend(a[1..], b, w);
      assert (a + b)[1..] == a[1..] + b;
    }
  }

  lemma {:induction false} ResultsAppend(a: seq<Result>, b: seq<Result>, w: Which)
    ensures Results(a + b, w) == Results(a, w) + Results(b, w)
  {
    if a == [] {
      assert a + b == b;
    } else {
      ResultsAppend(a[1..], b, w);
      assert (a + b)[1..] == a[1..] + b;
    }
  }

  lemma JobsLast(fs: seq<File>, w: Which)
    requires fs != []
    ensures Jobs(fs, w) == Jobs(fs[..|fs| - 1], w) + One(fs[|fs| - 1], w)
  {
    JobsAppend(fs[..|fs| - 1], [fs[|fs| - 1]], w);
    assert fs == fs[..|fs| - 1] + [fs[|fs| - 1]];
  }

  lemma ResultsLast(rs: seq<Result>, w: Which)
    requires rs != []
    ensures Results(rs, w) == Results(rs[..|rs| - 1], w) + One(rs[|rs| - 1].file, w)
  {
    ResultsAppend(rs[..|rs| - 1], [rs[|rs| - 1]], w);
    assert rs == rs[..|rs| - 1] + [rs[|rs| - 1]];
  }

  lemma {:induction false} JobsAll(fs: seq<File>)
    ensures Jobs(fs, None) == |fs|
  {
    if fs != [] {
      JobsAll(fs[1..]);
    }
  }

  lemma {:induction false} ResultsAll(rs: seq<Result>)
    ensures Results(rs, None) == |rs|
  {
    if rs != [] {
      ResultsAll(rs[1..]);
    }
  }

  lemma {:induction false} ParsersUpdate(ps: seq<Parser>, i: nat, p: Parser, w: Which)
    requires i < |ps|
    ensures Parsers(ps[i := p], w) + At(ps[i], w) == Parsers(ps, w) + At(p, w)
  {
    if i == 0 {
      assert ps[i := p][1..] == ps[1..];
    } else {
      ParsersUpdate(ps[1..], i - 1, p, w);
      assert ps[i := p][1..] == ps[1..][i - 1 := p];
    }
  }

  lemma {:induction false} ParsersHold(ps: seq<Parser>, i: nat)
    requires i < |ps|
    ensures Parsers(ps, None) >= |ps[i].hand| + |ps[i].pending|
  {
    if i == 0 {
      ResultsAll(ps[0].hand);
      ResultsAll(ps[0].pending);
    } else {
      ParsersHold(ps[1..], i - 1);
    }
  }

  lemma {:induction false} SomeParserHolds(ps: seq<Parser>) returns (i: nat)
    requires Parsers(ps, None) > 0
    ensures i < |ps| && (ps[i].hand != [] || ps[i].pending != [])
  {
    if At(ps[0], None) > 0 {
      i := 0;
    } else {
      i := SomeParserHolds(ps[1..]);
      i := i + 1;
    }
  }

  /** Every place a file that has to be parsed can be in. */
  datatype Places = Places(willparse: seq<File>, hand: seq<File>, jobs: seq<File>, parsers: seq<Parser>,
                           results: seq<Result>, delivered: seq<Result>)

  ghost function Everywhere(p: Places, w: Which): nat {
    Jobs(p.willparse, w) + Jobs(p.hand, w) + Jobs(p.jobs, w) + Parsers(p.parsers, w)
    + Results(p.results, w) + Results(p.delivered, w)
  }

  // ---- The steps ----------------------------------------------------------------------------------

  datatype Step =
    | FeederPops
    | FeederPuts
    | FeederTimesOut
    | ParserTakes(p: nat, variants: nat, raises: bool)
    | ParserRetries(p: nat)
    | ParserPuts(p: nat)
    | ParserTimesOut(p: nat)
    | ServerReads

  predicate Idle(p: Parser) {
    p.hand == [] && p.pending == []
  }

  /** Whether a step is possible.  The job queue has room for one job a parser. */
  predicate Enabled(p: Places, s: Step) {
    match s
    case FeederPops => p.hand == [] && p.willparse != []
    case FeederPuts => p.hand != [] && |p.jobs| < |p.parsers|
    case FeederTimesOut => p.hand != []
    case ParserTakes(i, v, raises) => i < |p.parsers| && Idle(p.parsers[i]) && p.jobs != []
    case ParserRetries(i) => i < |p.parsers| && p.parsers[i].hand == [] && p.parsers[i].pending != []
    case ParserPuts(i) => i < |p.parsers| && p.parsers[i].hand != []
    case ParserTimesOut(i) => i < |p.parsers| && p.parsers[i].hand != []
    case ServerReads => p.results != []
  }

  function Parsed(f: File, variants: nat, raises: bool): Result {
    if raises then Raised(f) else Infos(f, variants)
  }

  function After(p: Places, s: Step): Places
    requires Enabled(p, s)
  {
    match s
    case FeederPops =>
      var n := |p.willparse| - 1;
      p.(willparse := p.willparse[..n], hand := [p.willparse[n]])
    case FeederPuts => p.(hand := p.hand[1..], jobs := p.jobs + [p.hand[0]])
    case FeederTimesOut => p.(hand := p.hand[1..], willparse := [p.hand[0]] + p.willparse)
    case ParserTakes(i, variants, raises) =>
      p.(jobs := p.jobs[1..],
         parsers := p.parsers[i := p.parsers[i].(hand := [Parsed(p.jobs[0], variants, raises)])])
    case ParserRetries(i) =>
      var q := p.parsers[i];
      var n := |q.pending| - 1;
      p.(parsers := p.parsers[i := Parser([q.pending[n]], q.pending[..n])])
    case ParserPuts(i) =>
      var q := p.parsers[i];
      p.(parsers := p.parsers[i := q.(hand := q.hand[1..])], results := p.results + [q.hand[0]])
    case ParserTimesOut(i) =>
      var q := p.parsers[i];
      p.(parsers := p.parsers[i := Parser(q.hand[1..], q.pending + [q.hand[0]])])
    case ServerReads => p.(results := p.results[1..], delivered := p.delivered + [p.results[0]])
  }

  lemma JobsFirst(fs: seq<File>, w: Which)
    requires fs != []
    ensures Jobs(fs, w) == One(fs[0], w) + Jobs(fs[1..], w) && Jobs([fs[0]], w) == One(fs[0], w)
  {
  }

  lemma ResultsFirst(rs: seq<Result>, w: Which)
    requires rs != []
    ensures Results(rs, w) == One(rs[0].file, w) + Results(rs[1..], w) && Results([rs[0]], w) == One(rs[0].file, w)
  {
  }

  /** No step loses or doubles a file. */
  lemma Conserved(p: Places, s: Step, w: Which)
    requires Enabled(p, s)
    ensures Everywhere(After(p, s), w) == Everywhere(p, w)
  {
    hide Jobs, Results, Parsers, One;
    NoneLeft(w);
    match s
    case FeederPops =>
      JobsLast(p.willparse, w);
      JobsFirst(After(p, s).hand, w);
    case FeederPuts =>
      JobsFirst(p.hand, w);
      JobsAppend(p.jobs, [p.hand[0]], w);
    case FeederTimesOut =>
      JobsFirst(p.hand, w);
      JobsAppend([p.hand[0]], p.willparse, w);
    case ParserTakes(i, variants, raises) =>
      ParsersUpdate(p.parsers, i, After(p, s).parsers[i], w);
      JobsFirst(p.jobs, w);
      ResultsFirst(After(p, s).parsers[i].hand, w);
    case ParserRetries(i) =>
      ParsersUpdate(p.parsers, i, After(p, s).parsers[i], w);
      ResultsLast(p.parsers[i].pending, w);
      ResultsFirst(After(p, s).parsers[i].hand, w);
    case ParserPuts(i) =>
      ParsersUpdate(p.parsers, i, After(p, s).parsers[i], w);
      ResultsFirst(p.parsers[i].hand, w);
      ResultsAppend(p.results, [p.parsers[i].hand[0]], w);
    case ParserTimesOut(i) =>
      ParsersUpdate(p.parsers, i, After(p, s).parsers[i], w);
      ResultsFirst(p.parsers[i].hand, w);
      ResultsAppend(p.parsers[i].pending, [p.parsers[i].hand[0]], w);
    case ServerReads =>
      ResultsFirst(p.results, w);
      ResultsAppend(p.delivered, [p.results[0]], w);
  }

  lemma NoneLeft(w: Which)
    ensures Jobs([], w) == 0 && Results([], w) == 0
  {
  }

  // ---- Progress ---------------------------------------------------------------------------------

  predicate TimesOut(s: Step) {
    s.FeederTimesOut? || s.ParserTimesOut?
  }

  ghost function Waiting(ps: seq<Parser>): nat {
    if ps == [] then 0 else 2 * |ps[0].hand| + 3 * |ps[0].pending| + Waiting(ps[1..])
  }

  /** How many steps the files are away from having been read. */
  ghost function Distance(p: Places): nat {
    6 * |p.willparse| + 5 * |p.hand| + 4 * |p.jobs| + Waiting(p.parsers) + |p.results|
  }

  lemma {:induction false} WaitingUpdate(ps: seq<Parser>, i: nat, p: Parser)
    requires i < |ps|
    ensures Waiting(ps[i := p]) + 2 * |ps[i].hand| + 3 * |ps[i].pending| == Waiting(ps) + 2 * |p.hand| + 3 * |p.pending|
  {
    if i == 0 {
      assert ps[i := p][1..] == ps[1..];
    } else {
      WaitingUpdate(ps[1..], i - 1, p);
      assert ps[i := p][1..] == ps[1..][i - 1 := p];
    }
  }

  /** Every step but a timeout brings a file nearer. */
  lemma Nearer(p: Places, s: Step)
    requires Enabled(p, s) && !TimesOut(s)
    ensures Distance(After(p, s)) < Distance(p)
  {
    match s
    case ParserTakes(i, variants, raises) => WaitingUpdate(p.parsers, i, After(p, s).parsers[i]);
    case ParserRetries(i) => WaitingUpdate(p.parsers, i, After(p, s).parsers[i]);
    case ParserPuts(i) => WaitingUpdate(p.parsers, i, After(p, s).parsers[i]);
    case _ =>
  }

  /** As long as there is a parser and something has not been read, some step other than a timeout is
      possible: the processes never wait for each other in a circle. */
  lemma NoDeadlock(p: Places) returns (s: Step)
    requires |p.parsers| > 0 && |p.delivered| < Everywhere(p, None)
    ensures Enabled(p, s) && !TimesOut(s)
  {
    JobsAll(p.willparse);
    JobsAll(p.hand);
    JobsAll(p.jobs);
    ResultsAll(p.results);
    ResultsAll(p.delivered);
    if p.results != [] {
      s := ServerReads;
    } else if Parsers(p.parsers, None) > 0 {
      var i := SomeParserHolds(p.parsers);
      s := if p.parsers[i].hand != [] then ParserPuts(i) else ParserRetries(i);
    } else if p.jobs != [] {
      ParsersHold(p.parsers, 0);
      s := ParserTakes(0, 0, false);
    } else if p.hand != [] {
      s := FeederPuts;
    } else {
      s := FeederPops;
    }
  }

  lemma ReadAll(p: Places)
    requires |p.delivered| >= Everywhere(p, None)
    ensures p.willparse == [] && p.hand == [] && p.jobs == [] && p.results == []
    ensures forall i :: 0 <= i < |p.parsers| ==> Idle(p.parsers[i])
    ensures forall w :: Everywhere(p, w) == Results(p.delivered, w)
  {
    JobsAll(p.willparse);
    JobsAll(p.hand);
    JobsAll(p.jobs);
    ResultsAll(p.results);
    ResultsAll(p.delivered);
    forall i | 0 <= i < |p.parsers| ensures Idle(p.parsers[i]) {
      ParsersHold(p.parsers, i);
    }
    forall w ensures Parsers(p.parsers, w) == 0 {
      NothingHeld(p.parsers, w);
    }
  }

  lemma {:induction false} NothingHeld(ps: seq<Parser>, w: Which)
    requires forall i :: 0 <= i < |ps| ==> Idle(ps[i])
    ensures Parsers(ps, w) == 0
  {
    if ps != [] {
      assert Idle(ps[0]);
      forall i | 0 <= i < |ps[1..]| ensures Idle(ps[1..][i]) {
        assert Idle(ps[i + 1]);
      }
      NothingHeld(ps[1..], w);
    }
  }

  predicate Possible(p: Places, steps: seq<Step>)
    decreases |steps|
  {
    steps == [] || (Enabled(p, steps[0]) && Possible(After(p, steps[0]), steps[1..]))
  }

  function EndOf(p: Places, steps: seq<Step>): Places
    requires Possible(p, steps)
    decreases |steps|
  {
    if steps == [] then p else EndOf(After(p, steps[0]), steps[1..])
  }

  /** In any run, with any timeouts, each file is always in as many places as it had to be parsed. */
  lemma {:induction false} RunConserves(p: Places, steps: seq<Step>, w: Which)
    requires Possible(p, steps)
    ensures Everywhere(EndOf(p, steps), w) == Everywhere(p, w)
    ensures |EndOf(p, steps).parsers| == |p.parsers|
    decreases |steps|
  {
    hide Everywhere;
    if steps != [] {
      Conserved(p, steps[0], w);
      RunConserves(After(p, steps[0]), steps[1..], w);
    }
  }

  /** A run without timeouts is no longer than the files' distance. */
  lemma {:induction false} RunEnds(p: Places, steps: seq<Step>)
    requires Possible(p, steps) && forall s :: s in steps ==> !TimesOut(s)
    ensures |steps| + Distance(EndOf(p, steps)) <= Distance(p)
    decreases |steps|
  {
    if steps != [] {
      Nearer(p, steps[0]);
      hide Enabled, After, Distance, TimesOut;
      RunEnds(After(p, steps[0]), steps[1..]);
    }
  }

  /** If there is a parser, a run that cannot go on otherwise than by timeouts has read every file, as
      many times as it had to be parsed. */
  lemma StuckMeansRead(p: Places, steps: seq<Step>, w: Which)
    requires Possible(p, steps) && |p.parsers| > 0
    requires forall s :: Enabled(EndOf(p, steps), s) ==> TimesOut(s)
    ensures Results(EndOf(p, steps).delivered, w) == Everywhere(p, w)
  {
    var q := EndOf(p, steps);
    RunConserves(p, steps, w);
    hide Enabled, Everywhere;
    if |q.delivered| < Everywhere(q, None) {
      var s := NoDeadlock(q);
    } else {
      ReadAll(q);
    }
  }

  /** Without a parser process nothing is ever read, in no run. */
  lemma {:induction false} NobodyParses(p: Places, steps: seq<Step>)
    requires Possible(p, steps) && p.parsers == [] && p.results == [] && p.delivered == []
    ensures EndOf(p, steps).parsers == [] && EndOf(p, steps).results == [] && EndOf(p, steps).delivered == []
    decreases |steps|
  {
    if steps != [] {
      NobodyParses(After(p, steps[0]), steps[1..]);
    }
  }

  // ---- The server ----------------------------------------------------------------------------------

  datatype Outcome = Yielded | Stopped | Error | StillWaiting

  ghost predicate AllParsed(rs: seq<Result>) {
    forall r :: r in rs ==> r.Infos?
  }

  class CookerParser {
    const total: nat
    const toparse: nat
    /** The files whose cached information turns out not to be loadable. */
    const broken: set<File>
    var parsed: nat
    var cached: nat
    var error: nat
    var current: nat
    var fromcache: seq<File>
    var places: Places
    ghost const willparse: seq<File>

    /** While nothing has gone wrong every result read has been counted, and each file is where the
        protocol has put it. */
    ghost predicate Valid()
      reads this
    {
      && toparse == |willparse|
      && (forall w :: Everywhere(places, w) == Jobs(willparse, w))
      && |places.parsers| <= |willparse|
      && (error == 0 ==>
            && parsed == |places.delivered| && AllParsed(places.delivered)
            && cached + |fromcache| + toparse == total
            && current == parsed + cached)
    }

    /** The files that the cache can serve are set aside; the rest is left to the feeder. */
    static method SplitFiles(filelist: seq<File>, cacheValid: set<File>) returns (parse: seq<File>, cache: seq<File>)
      ensures |parse| + |cache| == |filelist|
      ensures forall f :: Jobs(parse, Some(f)) == if f in cacheValid then 0 else Jobs(filelist, Some(f))
      ensures forall f :: Jobs(cache, Some(f)) == if f in cacheValid then Jobs(filelist, Some(f)) else 0
    {
      parse, cache := [], [];
      var i := 0;
      while i < |filelist|
        invariant i <= |filelist| && |parse| + |cache| == i
        invariant forall f :: Jobs(parse, Some(f)) == if f in cacheValid then 0 else Jobs(filelist[..i], Some(f))
        invariant forall f :: Jobs(cache, Some(f)) == if f in cacheValid then Jobs(filelist[..i], Some(f)) else 0
      {
        assert filelist[..i + 1] == filelist[..i] + [filelist[i]];
        forall f ensures Jobs(filelist[..i + 1], Some(f)) == Jobs(filelist[..i], Some(f)) + One(filelist[i], Some(f))
                 ensures Jobs(parse + [filelist[i]], Some(f)) == Jobs(parse, Some(f)) + One(filelist[i], Some(f))
                 ensures Jobs(cache + [filelist[i]], Some(f)) == Jobs(cache, Some(f)) + One(filelist[i], Some(f))
        {
          JobsAppend(filelist[..i], [filelist[i]], Some(f));
          JobsAppend(parse, [filelist[i]], Some(f));
          JobsAppend(cache, [filelist[i]], Some(f));
        }
        hide Jobs;
        if filelist[i] !in cacheValid {
          parse := parse + [filelist[i]];
        } else {
          cache := cache + [filelist[i]];
        }
        i := i + 1;
      }
      assert filelist[..i] == filelist;
    }

    constructor (filelist: seq<File>, cacheValid: set<File>, broken: set<File>, threads: int)
      ensures Valid() && error == 0 && parsed == 0 && cached == 0 && total == |filelist|
      ensures places.willparse == willparse && places.delivered == [] && this.broken == broken
      ensures forall f :: Jobs(willparse, Some(f)) == if f in cacheValid then 0 else Jobs(filelist, Some(f))
      ensures forall f :: Jobs(fromcache, Some(f)) == if f in cacheValid then Jobs(filelist, Some(f)) else 0
      ensures |places.parsers| == if threads < 0 then 0 else if threads < |willparse| then threads else |willparse|
    {
      var parse, cache := SplitFiles(filelist, cacheValid);
      hide Jobs, Results;
      total, toparse, parsed, cached, error, current := |filelist|, |parse|, 0, 0, 0, 0;
      fromcache, willparse, this.broken := cache, parse, broken;
      var n := if threads < 0 then 0 else if threads < |parse| then threads else |parse|;
      var idle := seq(n, _ => Parser([], []));
      places := Places(parse, [], [], idle, [], []);
      forall w ensures Everywhere(Places(parse, [], [], idle, [], []), w) == Jobs(parse, w) {
        NoneLeft(w);
        NothingHeld(idle, w);
      }
    }

    /** The feeder and the parsers go on, for a while and in any order. */
    method Elsewhere(steps: nat)
      requires Valid()
      modifies `places
      ensures Valid() && places.delivered == old(places).delivered
      ensures |places.parsers| == |old(places).parsers| && old(places).results <= places.results
    {
      var i := 0;
      while i < steps
        invariant Valid() && places.delivered == old(places).delivered && old(places).results <= places.results
        invariant |places.parsers| == |old(places).parsers|
      {
        var s: Step := *;
        if Enabled(places, s) && !s.ServerReads? {
          forall w ensures Everywhere(After(places, s), w) == Everywhere(places, w) {
            Conserved(places, s, w);
          }
          OthersDeliverNothing(places, s);
          hide Everywhere, After, Enabled;
          places := After(places, s);
        }
        i := i + 1;
      }
    }

    /** `parse_next`.  The server polls the result queue until it gets a result; `timeouts` says of each
        poll whether it gives up although results may wait.  The server goes on waiting only if every
        poll gave up that found results there, so a result that waits is taken by the first that does not. */
    method ParseNext(timeouts: seq<bool>) returns (o: Outcome)
      requires Valid() && error == 0
      modifies this
      ensures Valid() && (o.Error? <==> error == 1) && error <= 1
      ensures old(fromcache) != [] ==>
        o == (if old(fromcache)[0] in broken then Error else Yielded) && fromcache == old(fromcache)[1..]
      ensures old(fromcache) != [] ==> places == old(places) && parsed == old(parsed)
      ensures old(fromcache) == [] ==>
        fromcache == [] && cached == old(cached) && (o.Error? ==> !AllParsed(places.delivered))
      ensures o.StillWaiting? ==> parsed < toparse || timeouts == []
      ensures o.StillWaiting? && places.results != [] && timeouts != [] ==> timeouts[|timeouts| - 1]
      ensures o.StillWaiting? && old(places).results != [] ==> forall b :: b in timeouts ==> b
      ensures o.StillWaiting? || o.Stopped? ==> places.delivered == old(places).delivered
      ensures old(fromcache) == [] && (o.Yielded? || o.Error?) ==>
        |places.delivered| == |old(places).delivered| + 1 && old(places).delivered <= places.delivered &&
        (old(places).results != [] ==> places.delivered == old(places).delivered + [old(places).results[0]])
      ensures o.Yielded? ==> current == old(current) + 1
      ensures !o.Yielded? ==> current == old(current)
      ensures o.Stopped? ==> old(fromcache) == [] && old(parsed) == toparse
      ensures old(fromcache) == [] && old(parsed) == toparse && timeouts != [] ==> o.Stopped?
      ensures o.Stopped? ==> parsed == toparse && parsed + cached == total && current == total
      ensures o.Stopped? ==> forall w :: Results(places.delivered, w) == Jobs(willparse, w)
    {
      if fromcache != [] {
        var file := fromcache[0];
        fromcache := fromcache[1..];
        if file !in broken {
          cached, current := cached + 1, current + 1;
          return Yielded;
        }
        error := error + 1;
        return Error;
      }
      Counted();
      var i := 0;
      while i < |timeouts|
        invariant i <= |timeouts| && places.delivered == old(places).delivered
        invariant old(places).results <= places.results
        invariant i > 0 && places.results != [] ==> timeouts[i - 1]
        invariant old(places).results != [] ==> forall j :: 0 <= j < i ==> timeouts[j]
        invariant Valid() && error == 0 && fromcache == [] && current == old(current) && parsed == old(parsed)
        invariant cached == old(cached)
        invariant parsed <= toparse
        invariant i > 0 ==> parsed < toparse
      {
        if parsed >= toparse {
          AllRead();
          return Stopped;
        }
        var steps: nat := *;
        Elsewhere(steps);
        if places.results != [] && !timeouts[i] {
          o := Read();
          return;
        }
        i := i + 1;
      }
      return StillWaiting;
    }

    /** One result taken from the queue. */
    method Read() returns (o: Outcome)
      requires Valid() && error == 0 && places.results != []
      modifies this
      ensures Valid() && fromcache == old(fromcache) && cached == old(cached)
      ensures places.delivered == old(places).delivered + [old(places).results[0]]
      ensures o == if old(places).results[0].Raised? then Error else Yielded
      ensures o.Error? ==> error == 1 && current == old(current) && !AllParsed(places.delivered)
      ensures o.Yielded? ==> error == 0 && current == old(current) + 1 && parsed == old(parsed) + 1
    {
      var result := places.results[0];
      forall w ensures Everywhere(After(places, ServerReads), w) == Everywhere(places, w) {
        Conserved(places, ServerReads, w);
      }
      hide Everywhere;
      assert result in After(places, ServerReads).delivered;
      places := After(places, ServerReads);
      if result.Raised? {
        assert !result.Infos? && result in places.delivered;
        error := error + 1;
        return Error;
      }
      parsed, current := parsed + 1, current + 1;
      return Yielded;
    }

    /** No more results are read than there are files to parse. */
    lemma Counted()
      requires Valid()
      ensures |places.delivered| <= toparse
    {
      ResultsAll(places.delivered);
      JobsAll(willparse);
      assert Everywhere(places, None) == Jobs(willparse, None);
    }

    lemma AllRead()
      requires Valid() && |places.delivered| >= toparse
      ensures forall w :: Results(places.delivered, w) == Jobs(willparse, w)
    {
      JobsAll(willparse);
      assert Everywhere(places, None) == Jobs(willparse, None);
      ReadAll(places);
    }

    /** The loop of the caller.  An error comes from a file that could not be loaded, or a result that
        raised.  If it ends without one, every file was parsed or loaded, the
        results read are those of the files to parse, each as often as it was listed, and the counters
        add up.  The files of the cache come first, one in each round. */
    method ParseAll(rounds: seq<seq<bool>>) returns (o: Outcome)
      requires Valid() && error == 0
      modifies this
      ensures Valid() && (o.Error? <==> error == 1)
      ensures o.Error? ==> !AllParsed(places.delivered) || exists f :: f in old(fromcache) && f in broken
      ensures !o.Error? ==> (fromcache == [] <==> |rounds| >= |old(fromcache)|) && |fromcache| <= |old(fromcache)|
      ensures !o.Error? && fromcache != [] ==> fromcache == old(fromcache)[|rounds|..]
      ensures !o.Error? ==> forall f :: f in old(fromcache) && f !in fromcache ==> f !in broken
      ensures !o.Error? && old(parsed) == toparse && |rounds| > |old(fromcache)| && [] !in rounds ==> o.Stopped?
      ensures o.Stopped? ==> error == 0 && fromcache == [] && parsed + cached == total && current == total
      ensures o.Stopped? ==> forall w :: Results(places.delivered, w) == Jobs(willparse, w)
    {
      o := StillWaiting;
      var i := 0;
      while i < |rounds| && !o.Stopped? && !o.Error?
        invariant Valid() && (o.Error? <==> error == 1) && error <= 1
        invariant i <= |rounds| && (i <= |old(fromcache)| ==> fromcache == old(fromcache)[i..])
        invariant i > |old(fromcache)| ==> fromcache == []
        invariant !o.Error? ==> forall j :: 0 <= j < i && j < |old(fromcache)| ==> old(fromcache)[j] !in broken
        invariant i <= |old(fromcache)| ==> parsed == old(parsed) && !o.Stopped?
        invariant i > |old(fromcache)| && old(parsed) == toparse && [] !in rounds && !o.Error? ==> o.Stopped?
        invariant o.Error? ==> !AllParsed(places.delivered) || exists f :: f in old(fromcache) && f in broken
        invariant o.Stopped? ==> error == 0 && fromcache == [] && parsed + cached == total && current == total
        invariant o.Stopped? ==> forall w :: Results(places.delivered, w) == Jobs(willparse, w)
      {
        hide Everywhere, Results, Jobs;
        ghost var before := fromcache;
        o := ParseNext(rounds[i]);
        assert before != [] ==> before[0] in old(fromcache);
        i := i + 1;
      }
    }
  }

  lemma OthersDeliverNothing(p: Places, s: Step)
    requires Enabled(p, s) && !s.ServerReads?
    ensures After(p, s).delivered == p.delivered && |After(p, s).parsers| == |p.parsers|
    ensures p.results <= After(p, s).results
  {
  }
}
