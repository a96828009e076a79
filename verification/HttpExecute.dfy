/** `http_parser_execute` as it is written: a loop over the buffer that keeps marks
    into it, reads bodies in bulk and can be paused by any callback.  Its contract
    says it delivers what the reference run delivers. */
module HttpExecute {
  import opened HttpChars
  import opened HttpParser
  import opened HttpInvariant
  import opened HttpRuns
  import opened HttpSteps

  /** What a callback does: return normally, pause the parser, or return an error. */
  datatype Reply = Proceed | Pause | Refuse

  /** The application: its reply to a callback may depend on everything delivered so far. */
  datatype Settings = Settings(reply: seq<Event> -> Reply, skip: Fields -> bool)

  /** The kind whose mark is live while the parser is in state `s`, bodies aside. */
  function Live(s: State): Option<Kind> {
    if s.HeaderField? then Some(Field)
    else if s.HeaderValue? then Some(Value)
    else if InUrl(s) then Some(Url)
    else None
  }

  /** A pointer into the caller's buffer, or NULL. */
  datatype Mark = Null | At(pos: nat)

  datatype Marks = Marks(field: Mark, value: Mark, url: Mark, body: Mark) {
    function Get(k: Kind): Mark {
      match k case Field => field case Value => value case Url => url case Body => body
    }

    function Set(k: Kind, m: Mark): Marks {
      match k
      case Field => this.(field := m) case Value => this.(value := m)
      case Url => this.(url := m) case Body => this.(body := m)
    }
  }

  predicate Behind(m: Mark, p: nat) {
    m.At? ==> m.pos <= p && (p > 0 ==> m.pos < p)
  }

  /** The marks fit a state: at most one is live, and which one is told by the state. */
  predicate MarksFit(m: Marks, s: State, p: nat, len: nat) {
    && Behind(m.field, p) && Behind(m.value, p) && Behind(m.url, p) && Behind(m.body, p)
    && (m.field.At? <==> s.HeaderField?)
    && (m.value.At? <==> s.HeaderValue?)
    && (m.url.At? <==> InUrl(s))
    && (m.body.At? ==> p > 0 && (s.ChunkDataAlmostDone? || (p == len && (s.BodyIdentity? || s.ChunkData?))))
  }

  function Owe(log: seq<Event>, k: Kind, m: Mark, data: string, p: nat): seq<Event>
    requires p <= |data|
  {
    if m.At? && m.pos < p then Append(log, Data(k, data[m.pos..p])) else log
  }

  /** The joined trace once the data behind the live marks is delivered. */
  function Owed(log: seq<Event>, m: Marks, data: string, p: nat): seq<Event>
    requires p <= |data|
  {
    if m.field.At? then Owe(log, Field, m.field, data, p)
    else if m.value.At? then Owe(log, Value, m.value, data, p)
    else if m.url.At? then Owe(log, Url, m.url, data, p)
    else Owe(log, Body, m.body, data, p)
  }

  /** Some last piece of data is missing from `log`, or nothing is. */
  ghost predicate CutShort(log: seq<Event>, full: seq<Event>) {
    log == full || exists k, d :: full == Append(log, Data(k, d))
  }

  /** Re-feeding the rest of the buffer to a paused parser completes the run. */
  predicate Resumes(r: Run, f: Fields, rest: string, log: seq<Event>, n: nat, skip: Fields -> bool) {
    var more := Shift(RunAll(f.(errno := OK), rest, log, skip), n);
    || r == Run(f.(errno := OK), log, n, Left)
    || (more.f.errno != HeaderOverflow ==> SameRun(r, more))
  }

  /** The struct, the return value and the trace a call leaves, against the reference run `r`. */
  ghost predicate Follows(r: Run, data: string, skip: Fields -> bool, f': Fields, n: nat, log': seq<Event>) {
    && n <= |data|
    && (f'.errno.Paused? ==> Inv(f'.(errno := OK)) && Resumes(r, f', data[n..], log', n, skip))
    && (f'.errno.OK? ==> Inv(f') && f' == r.f && n == r.used && log' == r.log)
    && (ParseError(f'.errno) ==> f' == r.f && n == r.used && CutShort(log', r.log))
  }

  /** The last callback made was given `e`. */
  ghost predicate LastCall(log: seq<Event>, e: Event) {
    exists before :: log == Append(before, e)
  }

  /** `on_headers_complete` failed. */
  predicate HeadersRefused(errno: Errno) {
    errno.CallbackFailed? && errno.event.HeadersComplete?
  }

  /** The flags after a case body that leaves `after`: a refusing `on_headers_complete` has not asked
      for the body to be skipped, so `F_SKIPBODY` is as before. */
  function FlagsLeft(before: Flags, after: Flags, errno: Errno): Flags {
    if HeadersRefused(errno) then after.(skipBody := before.skipBody) else after
  }

  /** A call that left `f'`, `n` and `log'` stopped at a point of the reference run.  A callback that fails
      stops it where one that pauses would, `F_SKIPBODY` aside when it is `on_headers_complete`; before a
      rejected byte, data may be owed. */
  ghost predicate Halted(pt: Point, f': Fields, n: nat, log': seq<Event>) {
    && pt.pos == n
    && (if ParseError(f'.errno) then CutShort(log', pt.log)
        else log' == pt.log && pt.f == f'.(errno := OK, flags := pt.f.flags)
             && f'.flags == FlagsLeft(f'.flags, pt.f.flags, f'.errno)
             && (f'.errno.CallbackFailed? ==> LastCall(log', f'.errno.event)))
  }

  ghost predicate Stops(start: Point, data: string, skip: Fields -> bool, f': Fields, n: nat, log': seq<Event>) {
    exists pt :: Passes(start, data, skip, pt) && Halted(pt, f', n, log')
  }

  /** The contract of one call on a healthy parser and a non-empty buffer: which point of the reference
      run it stops at, and what feeding the rest of the buffer would add. */
  ghost predicate Delivers(f: Fields, data: string, log: seq<Event>, skip: Fields -> bool,
                           f': Fields, n: nat, log': seq<Event>) {
    && Follows(RunAll(f, data, log, skip), data, skip, f', n, log')
    && Stops(Point(f, 0, Between, log), data, skip, f', n, log')
  }

  // ---------------------------------------------------------------- marks and case bodies

  /** How a case body treats the marks, bodies in bulk aside. */
  predicate OutcomeFits(s: State, o: Outcome) {
    && Live(o.f.state) == o.keep && o.keep != Some(Body)
    && (o.keep.Some? ==> o.call.Quiet? && o.control.Advance? && (Live(s).Some? ==> Live(s) == o.keep))
    && (o.keep.None? && !o.call.Flush? ==> Live(s).None?)
    && (o.call.Flush? ==> o.keep.None? && if o.call.kind.Body? then s.ChunkDataAlmostDone? else Live(s) == Some(o.call.kind))
    && (s.ChunkDataAlmostDone? ==> o.call == Flush(Body))
    && (o.call.Tell? ==> !o.call.event.Data?)
    && (o.call.Blank? ==> !o.call.blankKind.Body?)
    && !o.f.state.ChunkDataAlmostDone?
    && (o.control.Exit? ==> o.call.Tell? && (o.f.state.StartReq? || o.f.state.Dead?))
  }

  lemma CaseFits(f: Fields, ch: char, skip: Fields -> bool)
    requires !f.state.BodyIdentity? && !f.state.ChunkData?
    ensures Fits(f.state, Case(f, ch, skip))
  {
    hide StartCase, MethodCase, UrlCase, VersionCase, HeaderCase, ChunkCase, BodyCase, HeadersCase, HeadersDoneCase, Fits;
    if f.state.Dead? {
      RestFits(f, ch);
    } else if f.state.StartReq? || f.state.ReqMethod? {
      MethodFits(f, ch);
    } else if f.state.HeadersAlmostDone? || f.state.HeadersDone? {
      HeadersFit(f, ch, skip);
    } else if f.state == SpacesBeforeUrl || InUrl(f.state) {
      UrlFits(f, ch);
    } else if InVersion(f.state) {
      RestFits(f, ch);
    } else if InHeader(f.state) {
      HeaderFits(f, ch);
    } else if InChunkSize(f.state) {
      ChunkFits(f, ch);
    } else {
      RestFits(f, ch);
    }
  }

  predicate ParseError(e: Errno) {
    !e.OK? && !e.Paused? && !e.CallbackFailed?
  }

  predicate Fits(s: State, o: Outcome) {
    if o.control.Fail? then o.keep.None? && o.call.Quiet? && ParseError(o.control.error) else OutcomeFits(s, o)
  }

  lemma MethodFits(f: Fields, ch: char)
    ensures f.state.StartReq? ==> Fits(f.state, StartCase(f, ch))
    ensures f.state.ReqMethod? ==> Fits(f.state, MethodCase(f, ch))
  {
    hide IsAlpha, FirstGuess, NextGuess, Name;
  }

  lemma HeadersFit(f: Fields, ch: char, skip: Fields -> bool)
    ensures f.state.HeadersAlmostDone? ==> Fits(f.state, HeadersCase(f, ch, skip))
    ensures f.state.HeadersDone? ==> Fits(f.state, HeadersDoneCase(f, ch))
  {
  }

  lemma UrlFits(f: Fields, ch: char)
    requires f.state == SpacesBeforeUrl || InUrl(f.state)
    ensures Fits(f.state, UrlCase(f, ch))
  {
    hide ParseUrlChar;
    UrlCharStaysInUrl(if f.state == SpacesBeforeUrl then UrlEntry(f.verb) else f.state, ch);
  }

  lemma HeaderFits(f: Fields, ch: char)
    requires InHeader(f.state)
    ensures Fits(f.state, HeaderCase(f, ch))
  {
    hide IsToken, Token, FieldByte, ValueByte, Lower;
    if f.state.FieldStart? {
      FieldStartFits(f, ch);
    } else if f.state.HeaderField? {
      FieldFits(f, ch);
    } else {
      ValueFits(f, ch);
    }
  }

  lemma FieldStartFits(f: Fields, ch: char)
    requires f.state.FieldStart?
    ensures Fits(f.state, FieldStartCase(f, ch))
  {
    hide IsToken, Token;
  }

  lemma FieldFits(f: Fields, ch: char)
    requires f.state.HeaderField?
    ensures Fits(f.state, FieldCase(f, ch))
  {
    hide IsToken, Token, FieldByte;
    if IsToken(ch) {
      FieldByteStays(f, Token(ch));
    }
  }

  lemma FieldByteStays(f: Fields, c: char)
    ensures FieldByte(f, c).state == f.state
  {
  }

  lemma ValueFits(f: Fields, ch: char)
    requires InHeader(f.state) && !f.state.FieldStart? && !f.state.HeaderField?
    ensures Fits(f.state, HeaderCase(f, ch))
  {
    hide IsToken, Token, Lower, FieldStartCase, FieldCase;
  }

  lemma ChunkFits(f: Fields, ch: char)
    requires InChunkSize(f.state)
    ensures Fits(f.state, ChunkCase(f, ch))
  {
    hide Unhex, Scale;
  }

  lemma RestFits(f: Fields, ch: char)
    ensures f.state.Dead? ==> Fits(f.state, Go(f)) && Fits(f.state, Stop(f, ClosedConnection))
    ensures InVersion(f.state) ==> Fits(f.state, VersionCase(f, ch))
    ensures f.state.MessageDone? || f.state.ChunkDataAlmostDone? || f.state.ChunkDataDone? ==> Fits(f.state, BodyCase(f, ch))
  {
  }

  // ---------------------------------------------------------------- the parser object

  /** Delivering a run of data in one piece is the same as byte by byte with an end mark. */
  lemma FlushOwed(log: seq<Event>, k: Kind, m: Mark, data: string, p: nat)
    requires m.At? && m.pos <= p <= |data|
    ensures Append(Owe(log, k, m, data, p), Data(k, [])) == Append(log, Data(k, data[m.pos..p]))
  {
    var d := data[m.pos..p];
    assert d + [] == d;
    if m.pos < p {
      AppendTwice(log, k, d, []);
    } else {
      assert d == [];
    }
  }

  lemma KeepOwed(log: seq<Event>, k: Kind, m: Mark, data: string, p: nat)
    requires (m.At? ==> m.pos <= p) && p < |data|
    ensures var m' := if m.At? then m else At(p);
            Owe(log, k, m', data, p + 1) == Append(Owe(log, k, m, data, p), Data(k, [data[p]]))
  {
    var start := if m.At? then m.pos else p;
    assert data[start..p + 1] == data[start..p] + [data[p]];
    if start < p {
      AppendTwice(log, k, data[start..p], [data[p]]);
    } else {
      assert data[start..p] == [];
      assert data[start..p + 1] == [data[p]];
    }
  }

  function Marked(marks: Marks, k: Kind, p: nat): Marks {
    if marks.Get(k) == Null then marks.Set(k, At(p)) else marks
  }

  const NO_MARKS := Marks(Null, Null, Null, Null)

  lemma KeepCase(log: seq<Event>, s: State, o: Outcome, marks: Marks, data: string, p: nat)
    requires p < |data| && MarksFit(marks, s, p, |data|) && OutcomeFits(s, o) && o.keep.Some?
    ensures var m := Marked(marks, o.keep.value, p);
            MarksFit(m, o.f.state, p + 1, |data|) &&
            Owed(log, m, data, p + 1) == Emit(Owed(log, marks, data, p), o, data[p])
  {
    KeepOwed(log, o.keep.value, marks.Get(o.keep.value), data, p);
  }

  /** At a callback site no other mark is live. */
  lemma OnlyMark(s: State, o: Outcome, marks: Marks, p: nat, len: nat)
    requires MarksFit(marks, s, p, len) && OutcomeFits(s, o) && o.call.Flush?
    ensures var k := o.call.kind; marks == NO_MARKS.Set(k, marks.Get(k)) && (marks.Get(k).At? ==> marks.Get(k).pos <= p)
  {
  }

  lemma OwedForOne(log: seq<Event>, k: Kind, m: Mark, data: string, p: nat)
    requires p <= |data| && (m.At? ==> m.pos <= p)
    ensures NO_MARKS.Set(k, m).Set(k, Null) == NO_MARKS && Owed(log, NO_MARKS.Set(k, m), data, p) == Owe(log, k, m, data, p)
  {
  }

  /** A callback site: the live mark, if any, is flushed, and no mark is left. */
  lemma FlushCase(log: seq<Event>, s: State, o: Outcome, marks: Marks, data: string, p: nat)
    requires p < |data| && MarksFit(marks, s, p, |data|) && OutcomeFits(s, o) && o.call.Flush?
    ensures var m := marks.Get(o.call.kind);
            marks.Set(o.call.kind, Null) == NO_MARKS &&
            Emit(Owed(log, marks, data, p), o, data[p]) ==
            if m.At? then Append(log, Data(o.call.kind, data[m.pos..p])) else log
  {
    FlushOnly(s, o);
    OnlyMark(s, o, marks, p, |data|);
    hide MarksFit, OutcomeFits, Owed, Append;
    var k := o.call.kind;
    var m := marks.Get(k);
    OwedForOne(log, k, m, data, p);
    if m.At? {
      FlushOwed(log, k, m, data, p);
    }
  }

  lemma FlushOnly(s: State, o: Outcome)
    requires OutcomeFits(s, o) && o.call.Flush?
    ensures o.keep.None?
  {
  }

  lemma OtherCase(log: seq<Event>, s: State, o: Outcome, marks: Marks, data: string, p: nat)
    requires p < |data| && MarksFit(marks, s, p, |data|) && OutcomeFits(s, o) && o.keep.None? && !o.call.Flush?
    ensures marks == NO_MARKS
    ensures Emit(Owed(log, marks, data, p), o, data[p]) ==
            match o.call
            case Tell(e) => Append(log, e)
            case Blank(k) => Append(log, Data(k, []))
            case _ => log
  {
  }

  lemma NoMarksFit(log: seq<Event>, s: State, o: Outcome, data: string, p: nat)
    requires OutcomeFits(s, o) && o.keep.None?
    ensures MarksFit(NO_MARKS, o.f.state, p, |data|)
    ensures p <= |data| ==> Owed(log, NO_MARKS, data, p) == log
  {
  }

  // ---------------------------------------------------------------- following the reference run

  /** The whole run is `p` bytes ahead of the run over the rest of the buffer. */
  predicate AtByte(whole: Run, f: Fields, data: string, p: nat, log: seq<Event>, skip: Fields -> bool) {
    p <= |data| && whole == Shift(RunAll(f, data[p..], log, skip), p)
  }

  /** The same in the middle of the byte at `p`. */
  predicate MidByte(whole: Run, f: Fields, data: string, p: nat, log: seq<Event>, skip: Fields -> bool) {
    p < |data| && whole == Shift(Then(Settle(f, data[p], log, skip), data[p + 1..], skip), p)
  }

  lemma EnterByte(whole: Run, f: Fields, data: string, p: nat, log: seq<Event>, skip: Fields -> bool)
    requires AtByte(whole, f, data, p, log, skip) && p < |data|
    ensures var g := if ParsingHeader(f.state) then f.(nread := f.nread + 1) else f;
            if ParsingHeader(f.state) && g.nread > MAX_HEADER_SIZE
            then whole == Run(g.(errno := HeaderOverflow), log, p, Failed)
            else MidByte(whole, g, data, p, log, skip)
  {
    hide Settle, RunAll;
    RunAllStep(f, data[p..], log, skip);
    assert data[p..][1..] == data[p + 1..];
  }

  lemma StepCase(whole: Run, f: Fields, data: string, p: nat, log: seq<Event>, skip: Fields -> bool)
    requires MidByte(whole, f, data, p, log, skip)
    ensures var o := Case(f, data[p], skip);
            var l := Emit(log, o, data[p]);
            match o.control
            case Advance => AtByte(whole, o.f, data, p + 1, l, skip)
            case Again => MidByte(whole, o.f, data, p, l, skip)
            case Exit => whole == Run(o.f, l, p + 1, Left)
            case Fail(e) => whole == Run(o.f.(errno := e), l, p, Failed)
  {
    hide Case, Emit, RunAll;
  }

  /** A body run handled in one step: what is left of the whole run after `n` bytes of it. */
  lemma StepBody(whole: Run, f: Fields, data: string, p: nat, n: nat, log: seq<Event>, skip: Fields -> bool)
    requires AtByte(whole, f, data, p, log, skip) && ReadsBody(f)
    requires 0 < n <= f.length && p + n <= |data|
    ensures var g := AfterBody(f, n);
            var l := Append(log, Data(Body, data[p..p + n]));
            if g.state.MessageDone? then MidByte(whole, g, data, p + n - 1, l, skip)
            else AtByte(whole, g, data, p + n, l, skip)
  {
    hide Settle, RunAll;
    assert data[p..] == data[p..p + n] + data[p + n..];
    if n < f.length {
      BodyBytes(f, data[p..p + n], data[p + n..], log, skip);
    } else {
      BodyWhole(f, data[p..p + n], data[p + n..], log, skip);
    }
  }

  /** A byte that was counted once and is fed again is settled the same way. */
  lemma PausedMidByte(whole: Run, f: Fields, data: string, p: nat, log: seq<Event>, skip: Fields -> bool)
    requires MidByte(whole, f, data, p, log, skip)
    ensures var more := Shift(RunAll(f, data[p..], log, skip), p);
            more.f.errno != HeaderOverflow ==> SameRun(whole, more)
  {
    hide Settle, RunAll;
    RunAllStep(f, data[p..], log, skip);
    assert data[p..][1..] == data[p + 1..];
    if ParsingHeader(f.state) && f.nread < MAX_HEADER_SIZE {
      SettleIgnoresCount(f, f.nread + 1, data[p], log, skip);
      var r := Settle(f, data[p], log, skip);
      var q := Settle(f.(nread := f.nread + 1), data[p], log, skip);
      if r.end == Finished && RunAll(q.f, data[p + 1..], q.log, skip).f.errno != HeaderOverflow {
        assert q.f == r.f.(nread := q.f.nread);
        RunIgnoresCount(r.f, q.f.nread, data[p + 1..], r.log, skip);
      }
    }
  }

  lemma UnmarkedBody(log: seq<Event>, marks: Marks, s: State, data: string, p: nat)
    requires p < |data| && MarksFit(marks, s, p, |data|) && (s.BodyIdentity? || s.ChunkData?)
    ensures marks == NO_MARKS && Owed(log, marks, data, p) == log
  {
  }

  lemma MarkedBody(log: seq<Event>, s: State, data: string, p: nat, n: nat)
    requires p + n <= |data| && n > 0
    requires s.ChunkDataAlmostDone? || (p + n == |data| && (s.BodyIdentity? || s.ChunkData?))
    ensures var m := NO_MARKS.(body := At(p));
            MarksFit(m, s, p + n, |data|) && Owed(log, m, data, p + n) == Append(log, Data(Body, data[p..p + n]))
  {
  }

  /** The loop invariant: `l` is the trace of the reference run, `log` what has been delivered of it. */
  predicate ByteInv(whole: Run, f: Fields, marks: Marks, data: string, p: nat, log: seq<Event>, l: seq<Event>, skip: Fields -> bool) {
    && p <= |data| && Inv(f)
    && MarksFit(marks, f.state, p, |data|) && Owed(log, marks, data, p) == l
    && AtByte(whole, f, data, p, l, skip)
  }

  /** The same before a case body. */
  predicate MidInv(whole: Run, f: Fields, marks: Marks, data: string, p: nat, log: seq<Event>, l: seq<Event>, skip: Fields -> bool) {
    && p < |data| && Sound(f) && CaseAsserts(f) && !f.state.BodyIdentity? && !f.state.ChunkData?
    && MarksFit(marks, f.state, p, |data|) && Owed(log, marks, data, p) == l
    && MidByte(whole, f, data, p, l, skip)
  }

  lemma MidInBounds(whole: Run, f: Fields, marks: Marks, data: string, p: nat, log: seq<Event>, l: seq<Event>, skip: Fields -> bool)
    requires MidInv(whole, f, marks, data, p, log, l, skip)
    ensures p < |data| && f.errno.OK? && MarksFit(marks, f.state, p, |data|) && Owed(log, marks, data, p) == l
    ensures !f.state.BodyIdentity? && !f.state.ChunkData?
  {
    hide Sound, MarksFit, Owed, MidByte;
  }

  lemma ByteIsOK(whole: Run, f: Fields, marks: Marks, data: string, p: nat, log: seq<Event>, l: seq<Event>, skip: Fields -> bool)
    requires ByteInv(whole, f, marks, data, p, log, l, skip)
    ensures p <= |data| && f.errno.OK? && Inv(f) && MarksFit(marks, f.state, p, |data|) && Owed(log, marks, data, p) == l
    ensures f.state.BodyIdentity? || f.state.ChunkData? ==> ReadsBody(f) && f.length != ULLONG_MAX
  {
    hide MarksFit, Owed, AtByte, Name;
  }

  /** What a case body may rely on, and the early return when it rejects the byte. */
  lemma BeforeCase(whole: Run, f: Fields, marks: Marks, data: string, p: nat, log: seq<Event>, l: seq<Event>, skip: Fields -> bool)
    requires MidInv(whole, f, marks, data, p, log, l, skip)
    ensures var o := Case(f, data[p], skip);
            match o.control
            case Fail(e) => Follows(whole, data, skip, o.f.(errno := e), p, log) && ParseError(e)
            case _ => OutcomeFits(f.state, o) && o.f.errno.OK?
  {
    hide Case, Emit, Sound, CaseAsserts, Leaves, MarksFit, MidByte, AtByte, OutcomeFits, Fits, RunAll, CutShort, Owed;
    var o := Case(f, data[p], skip);
    CaseFits(f, data[p], skip);
    UseFits(f.state, o, l, data[p]);
    CaseKeepsSound(f, data[p], skip);
    StepCase(whole, f, data, p, l, skip);
    if o.control.Fail? {
      OwedCutsShort(log, marks, f.state, data, p);
    } else {
      UseLeaves(o);
    }
  }

  /** A callback paused the parser or failed in the case body. */
  lemma StoppedCase(whole: Run, f: Fields, marks: Marks, data: string, p: nat, log: seq<Event>, l: seq<Event>, skip: Fields -> bool,
                    f': Fields, log': seq<Event>)
    requires MidInv(whole, f, marks, data, p, log, l, skip)
    requires var o := Case(f, data[p], skip);
             !o.control.Fail? && log' == Emit(l, o, data[p]) &&
             f' == o.f.(errno := f'.errno, flags := FlagsLeft(f.flags, o.f.flags, f'.errno)) &&
             (f'.errno.Paused? || f'.errno.CallbackFailed?)
    ensures var o := Case(f, data[p], skip);
            Follows(whole, data, skip, f', if o.control.Again? then p else p + 1, log')
  {
    hide Case, Emit, Sound, CaseAsserts, Inv, Leaves, MarksFit, Owed, MidByte, AtByte, RunAll, Resumes, CutShort;
    var o := Case(f, data[p], skip);
    StepCase(whole, f, data, p, l, skip);
    if f'.errno.Paused? {
      CaseKeepsSound(f, data[p], skip);
      UseLeaves(o);
      if o.control.Again? {
        PausedMidByte(whole, o.f, data, p, log', skip);
      }
      assert f'.(errno := OK) == o.f;
      PausedHere(whole, f', data, log', if o.control.Again? then p else p + 1, skip);
    }
  }

  /** The case body ran, its callback returned, and the marks were updated. */
  lemma AfterCase(whole: Run, f: Fields, marks: Marks, marks': Marks, data: string, p: nat, log: seq<Event>, log': seq<Event>,
                  l: seq<Event>, skip: Fields -> bool)
    requires MidInv(whole, f, marks, data, p, log, l, skip)
    requires var o := Case(f, data[p], skip);
             var q := if o.control.Again? then p else p + 1;
             !o.control.Fail? && MarksFit(marks', o.f.state, q, |data|) &&
             Owed(log', marks', data, q) == Emit(l, o, data[p])
    ensures var o := Case(f, data[p], skip);
            var l' := Emit(l, o, data[p]);
            match o.control
            case Again => MidInv(whole, o.f, marks', data, p, log', l', skip) && Rank(o.f.state) < Rank(f.state)
            case Exit => Follows(whole, data, skip, o.f, p + 1, log')
            case _ => ByteInv(whole, o.f, marks', data, p + 1, log', l', skip)
  {
    hide Case, Emit, Sound, CaseAsserts, Inv, Leaves, MarksFit, Owed, MidByte, AtByte, RunAll, Resumes, CutShort, OutcomeFits, Fits, Rank;
    var o := Case(f, data[p], skip);
    var l' := Emit(l, o, data[p]);
    StepCase(whole, f, data, p, l, skip);
    CaseKeepsSound(f, data[p], skip);
    UseLeaves(o);
    if o.control.Again? {
      AgainLowersRank(f, data[p], skip);
    } else if o.control.Exit? {
      CaseFits(f, data[p], skip);
      UseFits(f.state, o, l, data[p]);
      ExitHasNoMarks(f.state, o, marks', data, p + 1, log');
    }
  }

  lemma ExitHasNoMarks(s: State, o: Outcome, marks: Marks, data: string, p: nat, log: seq<Event>)
    requires OutcomeFits(s, o) && o.control.Exit? && p <= |data| && MarksFit(marks, o.f.state, p, |data|)
    ensures Owed(log, marks, data, p) == log
  {
  }

  /** What reading a body in bulk leaves: the struct, the last byte read, the mark or the callback. */
  predicate BodyRead(f: Fields, data: string, p: nat, log: seq<Event>, f': Fields, p': nat, marks': Marks, log': seq<Event>) {
    && p < |data| && ReadsBody(f)
    && var n := if f.length < |data| - p then f.length else |data| - p;
       var g := AfterBody(f, n);
       && p' == p + n - 1 && f' == g.(errno := f'.errno)
       && (f'.errno.OK? || f'.errno.Paused? || f'.errno.CallbackFailed?)
       && (f'.errno.CallbackFailed? ==> f'.errno.event == Data(Body, data[p..p + n]))
       && if g.state.MessageDone?
          then marks' == NO_MARKS && log' == Append(log, Data(Body, data[p..p + n]))
          else f'.errno.OK? && MarksFit(marks', g.state, p' + 1, |data|) &&
               Owed(log', marks', data, p' + 1) == Append(log, Data(Body, data[p..p + n]))
  }

  lemma BodyWasRead(f: Fields, data: string, p: nat, log: seq<Event>, f': Fields, n: nat, marks': Marks, log': seq<Event>)
    requires p < |data| && ReadsBody(f) && n == if f.length < |data| - p then f.length else |data| - p
    requires f' == AfterBody(f, n).(errno := f'.errno)
    requires f'.errno.OK? || f'.errno.Paused? || f'.errno == CallbackFailed(Data(Body, data[p..p + n]))
    requires if f'.state.MessageDone?
             then marks' == NO_MARKS && log' == Append(log, Data(Body, data[p..p + n]))
             else f'.errno.OK? && MarksFit(marks', f'.state, p + n, |data|) &&
                  Owed(log', marks', data, p + n) == Append(log, Data(Body, data[p..p + n]))
    ensures BodyRead(f, data, p, log, f', p + n - 1, marks', log')
  {
    hide MarksFit, Owed, Append;
  }

  /** The bulk read of a body, against the reference run. */
  lemma AfterReadBody(whole: Run, f: Fields, marks: Marks, marks': Marks, data: string, p: nat, p': nat, log: seq<Event>,
                      l: seq<Event>, skip: Fields -> bool, f': Fields, log': seq<Event>)
    requires ByteInv(whole, f, marks, data, p, log, l, skip)
    requires BodyRead(f, data, p, log, f', p', marks', log')
    ensures p <= p' < |data|
    ensures var l' := Append(l, Data(Body, data[p..p' + 1]));
            if !f'.errno.OK? then Follows(whole, data, skip, f', p', log')
            else if f'.state.MessageDone? then MidInv(whole, f', marks', data, p', log', l', skip)
            else ByteInv(whole, f', marks', data, p' + 1, log', l', skip)
  {
    hide RunAll, Sound, CaseAsserts, AfterBody, MarksFit, Owed, AtByte, MidByte, Resumes, CutShort;
    var n := if f.length < |data| - p then f.length else |data| - p;
    var g := AfterBody(f, n);
    UnmarkedBody(log, marks, f.state, data, p);
    StepBody(whole, f, data, p, n, l, skip);
    AfterBodySound(f, n);
    if g.state.MessageDone? {
      DoneFits(data, p', g.state, log');
      if f'.errno.Paused? {
        PausedMidByte(whole, g, data, p', log', skip);
        assert f'.(errno := OK) == g;
        PausedHere(whole, f', data, log', p', skip);
      }
    }
  }

  /** Counting a header byte, or hitting the size limit. */
  lemma CountByte(whole: Run, f: Fields, marks: Marks, data: string, p: nat, log: seq<Event>, l: seq<Event>, skip: Fields -> bool)
    requires ByteInv(whole, f, marks, data, p, log, l, skip) && p < |data|
    requires !f.state.BodyIdentity? && !f.state.ChunkData?
    ensures var g := if ParsingHeader(f.state) then f.(nread := f.nread + 1) else f;
            if ParsingHeader(f.state) && g.nread > MAX_HEADER_SIZE
            then Follows(whole, data, skip, g.(errno := HeaderOverflow), p, log)
            else MidInv(whole, g, marks, data, p, log, l, skip)
  {
    hide RunAll, Sound, CaseAsserts, Inv, MarksFit, Owed, AtByte, MidByte, CutShort;
    EnterByte(whole, f, data, p, l, skip);
    CountedSound(f);
    OwedCutsShort(log, marks, f.state, data, p);
  }

  /** The end of the buffer. */
  lemma AfterFlush(whole: Run, f': Fields, marks: Marks, data: string, log: seq<Event>, l: seq<Event>, skip: Fields -> bool)
    requires f'.errno.OK? || f'.errno.Paused? || f'.errno.CallbackFailed?
    requires ByteInv(whole, f'.(errno := OK), marks, data, |data|, log, l, skip)
    ensures Follows(whole, data, skip, f', |data|, l)
  {
    hide RunAll, Inv, MarksFit, Owed, AtByte, Resumes, CutShort;
    EndOfBuffer(whole, f'.(errno := OK), data, l, skip);
    if f'.errno.Paused? {
      PausedHere(whole, f', data, l, |data|, skip);
    }
  }

  lemma FollowsKeepsInv(r: Run, data: string, skip: Fields -> bool, f': Fields, n: nat, log': seq<Event>)
    requires Follows(r, data, skip, f', n, log')
    ensures f'.errno.OK? ==> Inv(f')
  {
    hide Inv, Resumes, CutShort;
  }

  lemma StartOfBuffer(f: Fields, data: string, log: seq<Event>, skip: Fields -> bool, marks: Marks)
    requires marks == Marks(if f.state.HeaderField? then At(0) else Null,
                            if f.state.HeaderValue? then At(0) else Null,
                            if InUrl(f.state) then At(0) else Null,
                            Null)
    ensures AtByte(RunAll(f, data, log, skip), f, data, 0, log, skip)
    ensures MarksFit(marks, f.state, 0, |data|) && Owed(log, marks, data, 0) == log
    ensures Inv(f) ==> ByteInv(RunAll(f, data, log, skip), f, marks, data, 0, log, log, skip)
  {
    hide RunAll, Inv;
    assert data[0..] == data;
  }

  lemma EndOfBuffer(whole: Run, f: Fields, data: string, log: seq<Event>, skip: Fields -> bool)
    requires AtByte(whole, f, data, |data|, log, skip)
    ensures whole == Run(f, log, |data|, Finished)
  {
    assert data[|data|..] == [];
  }

  lemma AfterBodySound(f: Fields, n: nat)
    requires Inv(f) && ReadsBody(f) && 0 < n <= f.length
    ensures Inv(AfterBody(f, n)) && CaseAsserts(AfterBody(f, n))
    ensures AfterBody(f, n).state.MessageDone? || !ParsingHeader(AfterBody(f, n).state)
  {
    hide Name;
  }

  lemma DoneFits(data: string, p: nat, s: State, log: seq<Event>)
    requires s.MessageDone? && p <= |data|
    ensures MarksFit(NO_MARKS, s, p, |data|) && Owed(log, NO_MARKS, data, p) == log
  {
  }

  lemma OwedCutsShort(log: seq<Event>, marks: Marks, s: State, data: string, p: nat)
    requires p <= |data| && MarksFit(marks, s, p, |data|)
    ensures CutShort(log, Owed(log, marks, data, p))
  {
    hide MarksFit;
    var full := Owed(log, marks, data, p);
    if full != log {
      var k := if marks.field.At? then Field else if marks.value.At? then Value else if marks.url.At? then Url else Body;
      assert marks.Get(k).At?;
      assert full == Append(log, Data(k, data[marks.Get(k).pos..p]));
    }
  }

  lemma UseFits(s: State, o: Outcome, log: seq<Event>, ch: char)
    requires Fits(s, o)
    ensures if o.control.Fail? then Emit(log, o, ch) == log && ParseError(o.control.error) else OutcomeFits(s, o)
  {
  }

  lemma UseLeaves(o: Outcome)
    requires Leaves(o) && !o.control.Fail?
    ensures Sound(o.f) && o.f.errno.OK? && Inv(o.f)
    ensures o.control == Again ==> CaseAsserts(o.f)
  {
  }

  /** The two ways a pause leaves the reference run: at `n`, or finished by an upgrade. */
  lemma PausedHere(whole: Run, f: Fields, data: string, log: seq<Event>, n: nat, skip: Fields -> bool)
    requires n <= |data| && f.errno.Paused?
    requires var g := f.(errno := OK);
             || whole == Run(g, log, n, Left)
             || AtByte(whole, g, data, n, log, skip)
             || (var more := Shift(RunAll(g, data[n..], log, skip), n);
                 more.f.errno != HeaderOverflow ==> SameRun(whole, more))
    ensures Resumes(whole, f, data[n..], log, n, skip)
  {
    hide RunAll;
  }

  // ---------------------------------------------------------------- where a call stops

  lemma StopsAt(start: Point, data: string, skip: Fields -> bool, pt: Point, f': Fields, n: nat, log': seq<Event>)
    requires Passes(start, data, skip, pt) && Halted(pt, f', n, log')
    ensures Stops(start, data, skip, f', n, log')
  {
    hide Passes, Halted;
  }

  /** A case body that rejects its byte, or a callback it made that did not return normally. */
  lemma CaseStops(start: Point, f: Fields, marks: Marks, data: string, p: nat, log: seq<Event>, l: seq<Event>, skip: Fields -> bool,
                  f': Fields, log': seq<Event>)
    requires p < |data| && Passes(start, data, skip, Point(f, p, Inside, l)) && Owed(log, marks, data, p) == l
    requires var o := Case(f, data[p], skip);
             if o.control.Fail? then ParseError(f'.errno) && log' == log && MarksFit(marks, f.state, p, |data|)
             else o.f.errno.OK? && log' == Emit(l, o, data[p]) && f' == o.f.(errno := f'.errno, flags := FlagsLeft(f.flags, o.f.flags, f'.errno))
                  && !ParseError(f'.errno) && (f'.errno.CallbackFailed? ==> LastCall(log', f'.errno.event))
    ensures var o := Case(f, data[p], skip);
            Stops(start, data, skip, f', if o.control.Again? || o.control.Fail? then p else p + 1, log')
  {
    hide Passes, Case, Emit, Stops, CutShort, MarksFit, Owed, LastCall;
    var o := Case(f, data[p], skip);
    if o.control.Fail? {
      OwedCutsShort(log, marks, f.state, data, p);
      StopsAt(start, data, skip, Point(f, p, Inside, l), f', p, log');
    } else {
      PassesCase(start, data, skip, f, p, l);
      var pt := AfterOutcome(o, p, Emit(l, o, data[p]));
      StopsAt(start, data, skip, pt, f', pt.pos, log');
    }
  }

  /** An upgrade request leaves the buffer with everything delivered. */
  lemma ExitStops(start: Point, f: Fields, marks': Marks, data: string, p: nat, l: seq<Event>, skip: Fields -> bool, log': seq<Event>)
    requires p < |data| && Passes(start, data, skip, AfterOutcome(Case(f, data[p], skip), p, Emit(l, Case(f, data[p], skip), data[p])))
    requires var o := Case(f, data[p], skip);
             o.control.Exit? && o.f.errno.OK? && OutcomeFits(f.state, o) && MarksFit(marks', o.f.state, p + 1, |data|) &&
             Owed(log', marks', data, p + 1) == Emit(l, o, data[p])
    ensures Stops(start, data, skip, Case(f, data[p], skip).f, p + 1, log')
  {
    hide Passes, Case, Emit, Stops, MarksFit, Owed, OutcomeFits;
    var o := Case(f, data[p], skip);
    ExitHasNoMarks(f.state, o, marks', data, p + 1, log');
    StopsAt(start, data, skip, AfterOutcome(o, p, Emit(l, o, data[p])), o.f, p + 1, log');
  }

  /** Counting a header byte, or hitting the size limit. */
  lemma CountStops(start: Point, f: Fields, marks: Marks, data: string, p: nat, log: seq<Event>, l: seq<Event>, skip: Fields -> bool, f': Fields)
    requires p < |data| && Passes(start, data, skip, Point(f, p, Between, l)) && Owed(log, marks, data, p) == l
    requires MarksFit(marks, f.state, p, |data|)
    ensures f'.errno.HeaderOverflow? ==> Stops(start, data, skip, f', p, log)
    ensures !Overflows(f) ==> Passes(start, data, skip, Point(Counting(f), p, Inside, l))
  {
    hide Passes, Stops, CutShort, MarksFit, Owed, LastCall;
    if !Overflows(f) {
      PassesCount(start, data, skip, f, p, l);
    }
    if f'.errno.HeaderOverflow? {
      OwedCutsShort(log, marks, f.state, data, p);
      StopsAt(start, data, skip, Point(f, p, Between, l), f', p, log);
    }
  }

  /** A body read in bulk. */
  lemma BodyStops(start: Point, f: Fields, data: string, p: nat, log: seq<Event>, l: seq<Event>, skip: Fields -> bool,
                  f': Fields, p': nat, marks': Marks, log': seq<Event>)
    requires Passes(start, data, skip, Point(f, p, Between, l)) && f.errno.OK? && log == l
    requires BodyRead(f, data, p, log, f', p', marks', log')
    ensures p <= p' < |data|
    ensures var l' := Append(l, Data(Body, data[p..p' + 1]));
            if !f'.errno.OK? then Stops(start, data, skip, f', p', log')
            else Passes(start, data, skip, if f'.state.MessageDone? then Point(f', p', Inside, l') else Point(f', p' + 1, Between, l'))
  {
    hide Passes, Stops, CutShort, MarksFit, Owed, Append, AfterBody;
    var n := if f.length < |data| - p then f.length else |data| - p;
    PassesBody(start, data, skip, f, p, n, l);
    AfterBodyState(f, n);
    if !f'.errno.OK? {
      var e := Data(Body, data[p..p + n]);
      assert LastCall(log', e);
      StopsAt(start, data, skip, Point(AfterBody(f, n), p', Inside, log'), f', p', log');
    }
  }

  lemma AfterBodyState(f: Fields, n: nat)
    requires n <= f.length
    ensures AfterBody(f, n).errno == f.errno && AfterBody(f, n).flags == f.flags
  {
  }

  lemma EndStops(start: Point, data: string, skip: Fields -> bool, f: Fields, f': Fields, l: seq<Event>)
    requires Passes(start, data, skip, Point(f, |data|, Between, l)) && f.errno.OK?
    requires f' == f.(errno := f'.errno) && (f'.errno.OK? || f'.errno.Paused? || f'.errno.CallbackFailed?)
    requires f'.errno.CallbackFailed? ==> LastCall(l, f'.errno.event)
    ensures Stops(start, data, skip, f', |data|, l)
  {
    hide Passes, Stops, LastCall;
    StopsAt(start, data, skip, Point(f, |data|, Between, l), f', |data|, l);
  }

  class Parser {
    var state: State
    var header: HeaderState
    var index: nat
    var flags: Flags
    var nread: nat
    var length: nat
    var major: nat
    var minor: nat
    var verb: Method
    var upgrade: bool
    var errno: Errno
    /** The callbacks made so far. */
    var log: seq<Event>

    /** The struct as a value. */
    function View(): Fields
      reads this
    {
      Fields(state, header, index, flags, nread, length, major, minor, verb, upgrade, errno)
    }

    ghost predicate Valid()
      reads this
    {
      errno.OK? ==> Inv(View())
    }

    /** `http_parser_init`. */
    constructor ()
      ensures Valid() && View() == Init() && log == []
    {
      state, header, index, flags, nread, length := StartReq, General, 0, NO_FLAGS, 0, 0;
      major, minor, verb, upgrade, errno := 0, 0, DELETE, false, OK;
      log := [];
    }

    /** `http_parser_pause`, on a parser that is not in an error state. */
    method SetPaused(paused: bool)
      requires errno.OK? || errno.Paused?
      modifies this`errno
      ensures View() == old(View()).(errno := if paused then Paused else OK)
    {
      errno := if paused then Paused else OK;
    }

    method Store(f: Fields)
      modifies this
      ensures View() == f && log == old(log)
    {
      state, header, index, flags, nread, length := f.state, f.header, f.index, f.flags, f.nread, f.length;
      major, minor, verb, upgrade, errno := f.major, f.minor, f.verb, f.upgrade, f.errno;
    }

    /** Makes one callback; `go` is false when it paused the parser or failed. */
    method Notify(e: Event, s: Settings) returns (go: bool)
      requires errno.OK?
      modifies this`errno, this`log
      ensures log == old(log) + [e] && Join(log) == Append(Join(old(log)), e)
      ensures errno == match s.reply(log) case Proceed => OK case Pause => Paused case Refuse => CallbackFailed(e)
      ensures go <==> errno.OK?
    {
      log := log + [e];
      JoinSnoc(old(log), e);
      match s.reply(log) {
        case Proceed =>
        case Pause => errno := Paused;
        case Refuse => errno := CallbackFailed(e);
      }
      go := errno.OK?;
    }

    /** Stores the struct a case body leaves, sets its mark and makes its callback. */
    method Perform(o: Outcome, data: string, p: nat, marks: Marks, s: Settings) returns (marks': Marks, go: bool)
      requires p < |data| && errno.OK? && o.f.errno.OK?
      requires MarksFit(marks, state, p, |data|) && OutcomeFits(state, o) && !o.control.Fail?
      modifies this
      ensures View() == o.f.(errno := errno, flags := FlagsLeft(old(flags), o.f.flags, errno))
      ensures go <==> errno.OK?
      ensures go || errno.Paused? || errno.CallbackFailed?
      ensures !go ==> Join(log) == Emit(Owed(Join(old(log)), marks, data, p), o, data[p])
      ensures errno.CallbackFailed? ==> LastCall(Join(log), errno.event)
      ensures var q := if o.control.Again? then p else p + 1;
              go ==> MarksFit(marks', o.f.state, q, |data|) &&
                     Owed(Join(log), marks', data, q) == Emit(Owed(Join(old(log)), marks, data, p), o, data[p])
    {
      hide MarksFit, OutcomeFits, Emit, Owed;
      ghost var before := Join(log);
      ghost var from := state;
      var flagsBefore := flags;
      Store(o.f);
      marks' := marks;
      go := true;
      if o.keep.Some? {
        KeepCase(before, from, o, marks, data, p);
        assert o.call.Quiet? && o.control.Advance? by { KeepIsQuiet(from, o); }
        marks' := Marked(marks, o.keep.value, p);
      } else {
        NoMarksFit(before, from, o, data, p);
        NoMarksFit(before, from, o, data, p + 1);
        if o.call.Flush? {
          FlushCase(before, from, o, marks, data, p);
          var k := o.call.kind;
          if marks.Get(k).At? {
            assert marks.Get(k).pos <= p by { FlushBehind(from, marks, k, p, |data|); }
            go := Notify(Data(k, data[marks.Get(k).pos..p]), s);
          }
          marks' := marks.Set(k, Null);
        } else {
          OtherCase(before, from, o, marks, data, p);
          match o.call {
            case Tell(e) =>
              go := Notify(e, s);
              if e.HeadersComplete? && errno.CallbackFailed? {
                flags := flags.(skipBody := flagsBefore.skipBody);
              }
            case Blank(k) =>
              assert data[p..p] == [];
              go := Notify(Data(k, data[p..p]), s);
            case _ =>
          }
        }
        NoMarksFit(Join(log), from, o, data, p);
        NoMarksFit(Join(log), from, o, data, p + 1);
      }
    }

    /** The `s_body_identity` and `s_chunk_data` cases: as much of the body as the buffer holds. */
    method ReadBody(data: string, p: nat, marks: Marks, s: Settings) returns (p': nat, marks': Marks, go: bool)
      requires p < |data| && errno.OK? && length != ULLONG_MAX && ReadsBody(View()) && MarksFit(marks, state, p, |data|)
      modifies this
      ensures BodyRead(old(View()), data, p, Join(old(log)), View(), p', marks', Join(log)) && (go <==> errno.OK?)
    {
      hide MarksFit, Owed, Append, Join, BodyRead;
      UnmarkedBody(Join(log), marks, state, data, p);
      ghost var f, before := View(), Join(log);
      var toRead := if length < |data| - p then length else |data| - p;
      MarkedBody(Join(log), if length == toRead then ChunkDataAlmostDone else state, data, p, toRead);
      assert length != 0 && length != ULLONG_MAX;
      marks' := Marked(marks, Body, p);
      length := length - toRead;
      p' := p + toRead - 1;
      go := true;
      if length == 0 {
        if state.BodyIdentity? {
          state := MessageDone;
          go := Notify(Data(Body, data[marks'.body.pos..p' + 1]), s);
          marks' := marks'.Set(Body, Null);
        } else {
          state := ChunkDataAlmostDone;
        }
      }
      assert View() == AfterBody(f, toRead).(errno := errno);
      BodyWasRead(f, data, p, before, View(), toRead, marks', Join(log));
    }

    /** One leftover callback after the last byte. */
    method FlushMark(k: Kind, m: Mark, data: string, s: Settings) returns (go: bool)
      requires errno.OK? && Behind(m, |data|) && |data| > 0
      modifies this`errno, this`log
      ensures Join(log) == Owe(Join(old(log)), k, m, data, |data|)
      ensures (go <==> errno.OK?) && (go || errno.Paused? || errno.CallbackFailed?) && (m.Null? ==> go)
      ensures errno.CallbackFailed? ==> LastCall(Join(log), errno.event)
    {
      go := true;
      if m.At? {
        go := Notify(Data(k, data[m.pos..]), s);
        assert data[m.pos..] == data[m.pos..|data|];
      }
    }

    method FlushMarks(data: string, marks: Marks, s: Settings)
      requires errno.OK? && MarksFit(marks, state, |data|, |data|) && |data| > 0
      modifies this`errno, this`log
      ensures Join(log) == Owed(Join(old(log)), marks, data, |data|)
      ensures errno.OK? || errno.Paused? || errno.CallbackFailed?
      ensures errno.CallbackFailed? ==> LastCall(Join(log), errno.event)
    {
      assert (if marks.field.At? then 1 else 0) + (if marks.value.At? then 1 else 0)
           + (if marks.url.At? then 1 else 0) + (if marks.body.At? then 1 else 0) <= 1;
      hide MarksFit;
      var go := FlushMark(Field, marks.field, data, s);
      if !go { return; }
      go := FlushMark(Value, marks.value, data, s);
      if !go { return; }
      go := FlushMark(Url, marks.url, data, s);
      if !go { return; }
      go := FlushMark(Body, marks.body, data, s);
    }

    /** The switch, re-executed until the byte at `p` is consumed; `ret` is an early return value. */
    method Switch(data: string, p: nat, marks: Marks, s: Settings, ghost start: Point, ghost whole: Run, ghost l: seq<Event>)
      returns (marks': Marks, ret: Option<nat>, ghost l': seq<Event>)
      requires MidInv(whole, View(), marks, data, p, Join(log), l, s.skip)
      requires Passes(start, data, s.skip, Point(View(), p, Inside, l))
      modifies this
      ensures ret.None? ==> ByteInv(whole, View(), marks', data, p + 1, Join(log), l', s.skip)
                            && Passes(start, data, s.skip, Point(View(), p + 1, Between, l'))
      ensures ret.Some? ==> Follows(whole, data, s.skip, View(), ret.value, Join(log))
                            && Stops(start, data, s.skip, View(), ret.value, Join(log))
    {
      hide ByteInv, MidInv, Follows, Emit, Owed, MarksFit, OutcomeFits, Case, Rank, Passes, Stops, LastCall;
      marks', l' := marks, l;
      var again := true;
      while again
        invariant again ==> MidInv(whole, View(), marks', data, p, Join(log), l', s.skip)
        invariant again ==> Passes(start, data, s.skip, Point(View(), p, Inside, l'))
        invariant !again ==> ByteInv(whole, View(), marks', data, p + 1, Join(log), l', s.skip)
        invariant !again ==> Passes(start, data, s.skip, Point(View(), p + 1, Between, l'))
        decreases again, Rank(state)
      {
        var f := View();
        ghost var before := Join(log);
        MidInBounds(whole, f, marks', data, p, before, l', s.skip);
        var o := Case(f, data[p], s.skip);
        BeforeCase(whole, f, marks', data, p, before, l', s.skip);
        if o.control.Fail? {
          Store(o.f.(errno := o.control.error));
          CaseStops(start, f, marks', data, p, before, l', s.skip, View(), before);
          return marks', Some(p), l';
        }
        ghost var m0, l0 := marks', l';
        var go;
        marks', go := Perform(o, data, p, marks', s);
        l' := Emit(l', o, data[p]);
        if !go {
          StoppedCase(whole, f, m0, data, p, before, l0, s.skip, View(), Join(log));
          CaseStops(start, f, m0, data, p, before, l0, s.skip, View(), Join(log));
          return marks', Some(if o.control.Again? then p else p + 1), l';
        }
        AfterCase(whole, f, m0, marks', data, p, before, Join(log), l0, s.skip);
        PassesCase(start, data, s.skip, f, p, l0);
        if o.control.Exit? {
          ExitStops(start, f, marks', data, p, l0, s.skip, Join(log));
          return marks', Some(p + 1), l';
        }
        again := o.control.Again?;
      }
      ret := None;
    }

    /** `http_parser_execute`. */
    method Execute(data: string, s: Settings) returns (n: nat)
      requires Valid()
      modifies this
      ensures Valid()
      ensures !old(errno).OK? ==> n == 0 && View() == old(View()) && log == old(log)
      ensures old(errno).OK? && data == [] ==>
                log == old(log) &&
                if old(state).Dead? || old(state).StartReq? then n == 0 && View() == old(View())
                else n == 1 && View() == old(View()).(errno := InvalidEofState)
      ensures old(errno).OK? && data != [] ==>
                Delivers(old(View()), data, Join(old(log)), s.skip, View(), n, Join(log))
    {
      if !errno.OK? {
        return 0;
      }
      if |data| == 0 {
        if state.Dead? || state.StartReq? {
          return 0;
        }
        errno := InvalidEofState;
        return 1;
      }
      ghost var whole := RunAll(View(), data, Join(log), s.skip);
      n := Loop(data, s, Point(View(), 0, Between, Join(log)), whole);
      FollowsKeepsInv(whole, data, s.skip, View(), n, Join(log));
    }

    /** One iteration of the loop over the buffer: `p'` is the next byte to look at. */
    method Iterate(data: string, p: nat, marks: Marks, s: Settings, ghost start: Point, ghost whole: Run, ghost l: seq<Event>)
      returns (p': nat, marks': Marks, ret: Option<nat>, ghost l': seq<Event>)
      requires p < |data| && ByteInv(whole, View(), marks, data, p, Join(log), l, s.skip)
      requires Passes(start, data, s.skip, Point(View(), p, Between, l))
      modifies this
      ensures p < p'
      ensures ret.None? ==> ByteInv(whole, View(), marks', data, p', Join(log), l', s.skip)
                            && Passes(start, data, s.skip, Point(View(), p', Between, l'))
      ensures ret.Some? ==> Follows(whole, data, s.skip, View(), ret.value, Join(log))
                            && Stops(start, data, s.skip, View(), ret.value, Join(log))
    {
      hide ByteInv, MidInv, Follows, Owed, MarksFit, RunAll, Inv, AfterBody, ReadsBody, InUrl, BodyRead, Passes, Stops;
      ByteIsOK(whole, View(), marks, data, p, Join(log), l, s.skip);
      if state.BodyIdentity? || state.ChunkData? {
        ghost var f, before := View(), Join(log);
        var last, go;
        last, marks', go := ReadBody(data, p, marks, s);
        AfterReadBody(whole, f, marks, marks', data, p, last, before, l, s.skip, View(), Join(log));
        UnmarkedBody(before, marks, f.state, data, p);
        BodyStops(start, f, data, p, before, l, s.skip, View(), last, marks', Join(log));
        l' := Append(l, Data(Body, data[p..last + 1]));
        p', ret := last + 1, None;
        if !go {
          ret := Some(last);
        } else if state.MessageDone? {
          marks', ret, l' := Switch(data, last, marks', s, start, whole, l');
        }
      } else {
        ghost var f := View();
        CountByte(whole, f, marks, data, p, Join(log), l, s.skip);
        CountStops(start, f, marks, data, p, Join(log), l, s.skip, f);
        p', marks', l' := p + 1, marks, l;
        if ParsingHeader(state) {
          nread := nread + 1;
          if nread > MAX_HEADER_SIZE {
            errno := HeaderOverflow;
            CountStops(start, f, marks, data, p, Join(log), l, s.skip, View());
            return p', marks', Some(p), l';
          }
        }
        marks', ret, l' := Switch(data, p, marks, s, start, whole, l);
      }
    }

    /** The loop over the buffer, and the callbacks for what is still marked at its end. */
    method Loop(data: string, s: Settings, ghost start: Point, ghost whole: Run) returns (n: nat)
      requires Inv(View()) && data != [] && whole == RunAll(View(), data, Join(log), s.skip)
      requires start == Point(View(), 0, Between, Join(log))
      modifies this
      ensures Follows(whole, data, s.skip, View(), n, Join(log))
      ensures Stops(start, data, s.skip, View(), n, Join(log))
    {
      ghost var l := Join(log);
      var marks := Marks(if state.HeaderField? then At(0) else Null,
                         if state.HeaderValue? then At(0) else Null,
                         if InUrl(state) then At(0) else Null,
                         Null);
      hide ByteInv, Follows, Owed, MarksFit, RunAll, Inv, InUrl, Passes, Stops, LastCall;
      PassesStart(start, data, s.skip);
      StartOfBuffer(View(), data, l, s.skip, marks);
      var p := 0;
      while p < |data|
        invariant ByteInv(whole, View(), marks, data, p, Join(log), l, s.skip)
        invariant Passes(start, data, s.skip, Point(View(), p, Between, l))
        decreases |data| - p
      {
        var ret;
        p, marks, ret, l := Iterate(data, p, marks, s, start, whole, l);
        if ret.Some? {
          return ret.value;
        }
      }
      ByteIsOK(whole, View(), marks, data, p, Join(log), l, s.skip);
      ghost var f, before := View(), Join(log);
      FlushMarks(data, marks, s);
      AfterFlush(whole, View(), marks, data, before, l, s.skip);
      EndStops(start, data, s.skip, f, View(), l);
      return |data|;
    }
  }

  lemma KeepIsQuiet(s: State, o: Outcome)
    requires OutcomeFits(s, o) && o.keep.Some?
    ensures o.call.Quiet? && o.control.Advance?
  {
  }

  lemma FlushBehind(s: State, marks: Marks, k: Kind, p: nat, len: nat)
    requires MarksFit(marks, s, p, len) && marks.Get(k).At?
    ensures marks.Get(k).pos <= p
  {
  }
}
