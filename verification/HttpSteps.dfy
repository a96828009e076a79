/** The reference run in single steps: counting a byte, or one case body.  A call that is paused
    or refused stops at one of these points; an invariant of the steps holds wherever a call ends. */
module HttpSteps {
  import opened HttpParser
  import opened HttpInvariant
  import opened HttpRuns

  /** Before a byte, in the middle of one (counted, about to enter the switch), or out of the buffer
      after an upgrade request. */
  datatype Where = Between | Inside | Gone

  datatype Point = Point(f: Fields, pos: nat, at: Where, log: seq<Event>)

  /** The struct once the byte at hand is counted. */
  function Counting(f: Fields): Fields {
    if ParsingHeader(f.state) then f.(nread := f.nread + 1) else f
  }

  predicate Overflows(f: Fields) {
    ParsingHeader(f.state) && f.nread + 1 > MAX_HEADER_SIZE
  }

  /** One step; a rejected byte, the end of the buffer and an upgrade are as far as it goes. */
  function Step(pt: Point, data: string, skip: Fields -> bool): Point {
    if pt.at.Gone? || pt.pos >= |data| then pt
    else if pt.at.Between? then
      if Overflows(pt.f) then pt else Point(Counting(pt.f), pt.pos, Inside, pt.log)
    else
      var o := Case(pt.f, data[pt.pos], skip);
      var l := Emit(pt.log, o, data[pt.pos]);
      match o.control
      case Advance => Point(o.f, pt.pos + 1, Between, l)
      case Exit => Point(o.f, pt.pos + 1, Gone, l)
      case Again => Point(o.f, pt.pos, Inside, l)
      case Fail(_) => pt
  }

  function Steps(pt: Point, data: string, skip: Fields -> bool, n: nat): Point {
    if n == 0 then pt else Step(Steps(pt, data, skip, n - 1), data, skip)
  }

  ghost predicate Passes(start: Point, data: string, skip: Fields -> bool, pt: Point) {
    exists n: nat :: Steps(start, data, skip, n) == pt
  }

  lemma PassesStart(start: Point, data: string, skip: Fields -> bool)
    ensures Passes(start, data, skip, start)
  {
    assert Steps(start, data, skip, 0) == start;
  }

  lemma PassesNext(start: Point, data: string, skip: Fields -> bool, pt: Point)
    requires Passes(start, data, skip, pt)
    ensures Passes(start, data, skip, Step(pt, data, skip))
  {
    hide Step;
    var n: nat :| Steps(start, data, skip, n) == pt;
    assert Steps(start, data, skip, n + 1) == Step(pt, data, skip);
  }

  lemma PassesCount(start: Point, data: string, skip: Fields -> bool, f: Fields, p: nat, log: seq<Event>)
    requires Passes(start, data, skip, Point(f, p, Between, log)) && p < |data| && !Overflows(f)
    ensures Passes(start, data, skip, Point(Counting(f), p, Inside, log))
  {
    hide Passes, Case, Emit;
    PassesNext(start, data, skip, Point(f, p, Between, log));
  }

  /** The point after a case body that does not reject its byte. */
  function AfterOutcome(o: Outcome, p: nat, log: seq<Event>): Point {
    Point(o.f, if o.control.Again? then p else p + 1,
          if o.control.Again? then Inside else if o.control.Exit? then Gone else Between, log)
  }

  lemma PassesCase(start: Point, data: string, skip: Fields -> bool, f: Fields, p: nat, log: seq<Event>)
    requires Passes(start, data, skip, Point(f, p, Inside, log)) && p < |data|
    requires !Case(f, data[p], skip).control.Fail?
    ensures var o := Case(f, data[p], skip); Passes(start, data, skip, AfterOutcome(o, p, Emit(log, o, data[p])))
  {
    hide Passes, Case, Emit;
    PassesNext(start, data, skip, Point(f, p, Inside, log));
  }

  // ---------------------------------------------------------------- bodies in bulk

  lemma BodyStep(f: Fields, ch: char, log: seq<Event>, skip: Fields -> bool)
    requires ReadsBody(f)
    ensures Counting(f) == f && !Overflows(f)
    ensures var o := Case(f, ch, skip);
            o.f == AfterBody(f, 1) && Emit(log, o, ch) == Append(log, Data(Body, [ch])) &&
            o.control == if o.f.state.MessageDone? then Again else Advance
  {
    hide HeaderCase, UrlCase, StartCase, MethodCase, VersionCase, ChunkCase, Append;
    assert Case(f, ch, skip) == BodyCase(f, ch);
  }

  /** Reading `n` body bytes in one piece passes through as many steps. */
  lemma {:induction false} PassesBody(start: Point, data: string, skip: Fields -> bool, f: Fields, p: nat, n: nat, log: seq<Event>)
    requires Passes(start, data, skip, Point(f, p, Between, log))
    requires ReadsBody(f) && 0 < n <= f.length && p + n <= |data|
    ensures var g := AfterBody(f, n);
            var l := Append(log, Data(Body, data[p..p + n]));
            Passes(start, data, skip, if g.state.MessageDone? then Point(g, p + n - 1, Inside, l) else Point(g, p + n, Between, l))
    decreases n
  {
    hide Passes, Case, Emit, Append;
    if n == 1 {
      PassesBodyByte(start, data, skip, f, p, log);
      assert data[p..p + 1] == [data[p]];
    } else {
      PassesBody(start, data, skip, f, p, n - 1, log);
      var q := p + n - 1;
      var l := Append(log, Data(Body, data[p..q]));
      PassesBodyByte(start, data, skip, AfterBody(f, n - 1), q, l);
      AppendTwice(log, Body, data[p..q], [data[q]]);
      assert data[p..q] + [data[q]] == data[p..p + n];
    }
  }

  lemma PassesBodyByte(start: Point, data: string, skip: Fields -> bool, f: Fields, p: nat, log: seq<Event>)
    requires Passes(start, data, skip, Point(f, p, Between, log)) && ReadsBody(f) && p < |data|
    ensures var g := AfterBody(f, 1);
            var l := Append(log, Data(Body, [data[p]]));
            Passes(start, data, skip, if g.state.MessageDone? then Point(g, p, Inside, l) else Point(g, p + 1, Between, l))
  {
    hide Passes, Case, Emit, Append, AfterBody;
    BodyStep(f, data[p], log, skip);
    PassesCount(start, data, skip, f, p, log);
    PassesCase(start, data, skip, f, p, log);
  }

  // ---------------------------------------------------------------- the points are those of the run

  predicate Within(pt: Point, data: string) {
    pt.pos <= |data| && (pt.at.Inside? ==> pt.pos < |data|)
  }

  /** What is left of the run at a point. */
  function Rest(pt: Point, data: string, skip: Fields -> bool): Run
    requires Within(pt, data)
  {
    match pt.at
    case Gone => Run(pt.f, pt.log, pt.pos, Left)
    case Between => Shift(RunAll(pt.f, data[pt.pos..], pt.log, skip), pt.pos)
    case Inside => Shift(Then(Settle(pt.f, data[pt.pos], pt.log, skip), data[pt.pos + 1..], skip), pt.pos)
  }

  lemma StepRest(pt: Point, data: string, skip: Fields -> bool)
    requires Within(pt, data)
    ensures Within(Step(pt, data, skip), data) && Rest(Step(pt, data, skip), data, skip) == Rest(pt, data, skip)
  {
    hide Case, Emit, RunAll;
    if pt.pos < |data| {
      if pt.at.Between? {
        hide Settle;
        RunAllStep(pt.f, data[pt.pos..], pt.log, skip);
        assert data[pt.pos..][1..] == data[pt.pos + 1..];
      } else if pt.at.Inside? {
        var o := Case(pt.f, data[pt.pos], skip);
        if o.control.Again? {
          AgainLowersRank(pt.f, data[pt.pos], skip);
        }
      }
    }
  }

  /** The reference run goes through each of its points: from any of them its result is still the same. */
  lemma {:induction false} RunPassesPoints(f: Fields, data: string, log: seq<Event>, skip: Fields -> bool, n: nat)
    ensures var pt := Steps(Point(f, 0, Between, log), data, skip, n);
            Within(pt, data) && Rest(pt, data, skip) == RunAll(f, data, log, skip)
    decreases n
  {
    hide RunAll, Step;
    if n == 0 {
      assert data[0..] == data;
    } else {
      RunPassesPoints(f, data, log, skip, n - 1);
      StepRest(Steps(Point(f, 0, Between, log), data, skip, n - 1), data, skip);
    }
  }

  // ---------------------------------------------------------------- safety at every point

  lemma CountedSound(f: Fields)
    requires Inv(f)
    ensures Overflows(f) || (Sound(Counting(f)) && CaseAsserts(Counting(f)))
    ensures f.state.BodyIdentity? || f.state.ChunkData? ==> ReadsBody(f) && f.length != ULLONG_MAX
  {
    hide Name;
  }

  /** Between bytes the invariant holds, and before each case body the asserts of that case. */
  predicate PointSound(pt: Point) {
    if pt.at.Inside? then Sound(pt.f) && CaseAsserts(pt.f) else Inv(pt.f)
  }

  lemma StepSound(pt: Point, data: string, skip: Fields -> bool)
    requires PointSound(pt)
    ensures PointSound(Step(pt, data, skip))
  {
    hide Case, Emit, Sound, CaseAsserts;
    if !pt.at.Gone? && pt.pos < |data| {
      if pt.at.Between? {
        CountedSound(pt.f);
      } else {
        CaseKeepsSound(pt.f, data[pt.pos], skip);
      }
    }
  }

  /** Every case body of every run starts with the asserts of its case fulfilled. */
  lemma {:induction false} StepsSound(start: Point, data: string, skip: Fields -> bool, n: nat)
    requires PointSound(start)
    ensures PointSound(Steps(start, data, skip, n))
    decreases n
  {
    hide PointSound, Step;
    if n > 0 {
      StepsSound(start, data, skip, n - 1);
      StepSound(Steps(start, data, skip, n - 1), data, skip);
    }
  }
}
