/** Requests whose last header line has no colon: the parser accepts them, and the callbacks that
    assemble headers then use a header that is not there when a trailer follows. */
module HttpBareLine {
  import opened HttpChars
  import opened HttpParser
  import opened HttpInvariant
  import opened HttpRuns
  import opened HttpExecute
  import opened HttpSession
  import opened HttpSegments
  import opened HttpHeaders
  import opened HttpMessages
  import opened HttpBodies
  import opened HttpRoundTrip
  import opened HttpReader
  import opened HttpWitnesses

  // ---------------------------------------------------------------- the line

  /** A name is not a value that sets a flag. */
  lemma NamesSetNoFlag(f: Fields, l: string)
    requires |l| > 0 && f.header == NameState(l)
    ensures FinishHeader(f) == f
  {
  }

  /** The line end behind a name: a bare line feed ends the header at once. */
  lemma NameEnd(f: Fields, log: seq<Event>, name: string, end: Eol, skip: Fields -> bool)
    requires f.state.HeaderField? && f.nread + |end.Text()| <= MAX_HEADER_SIZE
    ensures Takes(f, end.Text(), Append(log, Data(Field, name)), skip,
                  f.(state := if end.CrLf? then ValueLws else FieldStart, nread := f.nread + |end.Text()|), Append(log, Data(Field, name)))
  {
    hide Takes, Case;
    var l := Append(log, Data(Field, name));
    AppendTwice(log, Field, name, []);
    assert name + [] == name;
    NameEnds(f.(nread := f.nread + 1), skip);
    if end.CrLf? {
      var g := f.(state := HeaderAlmostDone, nread := f.nread + 1);
      OneByte(f, CR, l, skip);
      AfterReturn(g, l, skip);
      Compose(f, [CR], [LF], l, skip, g, l, f.(state := ValueLws, nread := f.nread + 2), l);
      assert [CR] + [LF] == CRLF;
    } else {
      OneByte(f, LF, l, skip);
    }
  }

  lemma AfterReturn(g: Fields, log: seq<Event>, skip: Fields -> bool)
    requires g.state.HeaderAlmostDone? && g.nread < MAX_HEADER_SIZE
    ensures Takes(g, [LF], log, skip, g.(state := ValueLws, nread := g.nread + 1), log)
  {
    hide Takes, Case;
    AlmostDone(g.(nread := g.nread + 1), skip);
    OneByte(g, LF, log, skip);
  }

  lemma NameEnds(f: Fields, skip: Fields -> bool)
    requires f.state.HeaderField?
    ensures Case(f, CR, skip) == Outcome(f.(state := HeaderAlmostDone), None, Flush(Field), Advance)
    ensures Case(f, LF, skip) == Outcome(f.(state := FieldStart), None, Flush(Field), Advance)
  {
    hide IsToken, Case;
    NewlinesAreNoTokens();
    CaseIsHeader(f, CR, skip);
    CaseIsHeader(f, LF, skip);
  }

  /** A line without a colon: one field, no value, and no meaning. */
  lemma BareLineRun(f: Fields, name: string, end: Eol, rest: string, log: seq<Event>, skip: Fields -> bool) returns (g: Fields)
    requires f.state.FieldStart? && |name| > 0 && AllTokens(name) && f.nread + |name + end.Text()| < MAX_HEADER_SIZE
    requires rest != [] && !IsBlank(rest[0])
    ensures g == f.(header := g.header, index := g.index, nread := f.nread + |name + end.Text()|)
    ensures RunAll(f, name + end.Text() + rest, log, skip) == Shift(RunAll(g, rest, Append(log, Data(Field, name)), skip), |name + end.Text()|)
  {
    hide RunAll, NameState, FinishHeader, Append, Eol.Text;
    var l := Append(log, Data(Field, name));
    var a := NameRun(f, name, log, skip);
    NameEnd(a, log, name, end, skip);
    var b := a.(state := if end.CrLf? then ValueLws else FieldStart, nread := a.nread + |end.Text()|);
    Compose(f, name, end.Text(), log, skip, a, l, b, l);
    if end.CrLf? {
      HeaderEnds(b, rest, l, skip);
    }
    FoldedLength(name);
    NamesSetNoFlag(b, Folded(name));
    g := b.(state := FieldStart);
    RunAllConcat(f, name + end.Text(), rest, log, skip);
  }

  lemma FoldedLength(name: string)
    requires AllTokens(name)
    ensures |Folded(name)| == |name|
  {
  }

  // ---------------------------------------------------------------- the request

  /** A header line without a colon. */
  datatype Bare = Bare(name: string, end: Eol) {
    function Text(): string {
      name + end.Text()
    }

    predicate Good() {
      |name| > 0 && AllTokens(name)
    }
  }

  /** A request with such a line at the end of its head. */
  function BareText(r: Request, x: Bare, b: BodyText): string {
    r.Line() + (Lines(r.headers) + (x.Text() + (r.blank.Text() + b.Text())))
  }

  function BareHeadLog(r: Request, name: string, log: seq<Event>): seq<Event> {
    Append(r.Log(log), Data(Field, name))
  }

  /** Its callbacks: those of the request, and between its headers and headers-complete the name. */
  function BareLog(r: Request, name: string, b: BodyText, log: seq<Event>): seq<Event>
    requires r.Good() && b.Fits(r.BodyFraming())
  {
    Append(b.Log(Append(BareHeadLog(r, name, log), HeadersComplete(r.BodyFraming()))), MessageComplete(r.StaysOpen(FinalFlags(r, b))))
  }

  predicate BareGood(r: Request, x: Bare, b: BodyText) {
    && r.Good() && !r.Upgrades() && b.Fits(r.BodyFraming()) && x.Good()
    && |r.Head()| + |x.Text()| <= MAX_HEADER_SIZE
  }

  lemma BareHeadRun(f: Fields, r: Request, x: Bare, rest: string, log: seq<Event>, skip: Fields -> bool) returns (g: Fields)
    requires f.state.StartReq? && r.Good() && x.Good() && f.nread + |r.Head()| + |x.Text()| <= MAX_HEADER_SIZE
    ensures AtBlankLine(f.(nread := f.nread + |x.Text()|), r, g)
    ensures RunAll(f, r.Line() + (Lines(r.headers) + (x.Text() + (r.blank.Text() + rest))), log, skip) ==
            Shift(RunAll(g, r.blank.Text() + rest, BareHeadLog(r, x.name, log), skip), |r.Head()| + |x.Text()| - |r.blank.Text()|)
  {
    hide RunAll, Append, IsToken;
    var l2 := Append(Append(log, MessageBegin), Data(Url, r.url));
    var a := HttpRoundTrip.LineRun(f, r, log, skip);
    var tail := x.Text() + (r.blank.Text() + rest);
    RunAllConcat(f, r.Line(), Lines(r.headers) + tail, log, skip);
    NameStart(x.name);
    assert tail[0] == x.name[0];
    var b := LinesRun(a, r.headers, tail, l2, skip);
    assert !IsBlank((r.blank.Text() + rest)[0]);
    g := BareLineRun(b, x.name, x.end, r.blank.Text() + rest, r.Log(log), skip);
  }

  lemma NameStart(name: string)
    requires |name| > 0 && AllTokens(name)
    ensures !IsBlank(name[0])
  {
    assert name[0] in name;
    NewlinesAreNoTokens();
  }

  /** The parser accepts it, and the line means nothing: framing, payload and trailers are those of
      the request without it. */
  lemma BareMessageRun(f: Fields, r: Request, x: Bare, b: BodyText, log: seq<Event>, skip: Fields -> bool)
    requires f.state.StartReq? && f.nread == 0 && BareGood(r, x, b) && NeverSkips(skip)
    ensures var q := RunAll(f, BareText(r, x, b), log, skip);
            q.end == Finished && q.used == |BareText(r, x, b)| && q.log == BareLog(r, x.name, b, log)
  {
    hide RunAll, Append, KeepAlive, AtBlankLine, Announced, BareHeadLog, NeverSkips;
    var a := BareHeadRun(f, r, x, b.Text(), log, skip);
    var f' := f.(nread := f.nread + |x.Text()|);
    AnnouncesFraming(f', r, a, skip);
    var h := Announced(a, r.blank, skip);
    BlankFields(f', r, a);
    var l := BareHeadLog(r, x.name, log);
    BlankLine(a, r.blank, l, skip);
    RunAllConcat(a, r.blank.Text(), b.Text(), l, skip);
    assert b.Text() + [] == b.Text();
    var g := BodyRun(AfterBlank(a, r.blank, skip), h, r, b, [], BlankLog(a, r.blank, l, skip), Append(l, HeadersComplete(r.BodyFraming())), skip);
    EmptyRun(g, BareLog(r, x.name, b, log), skip);
  }

  /** Every session over its text, however it is cut and paused, delivers those callbacks. */
  lemma BareSession(r: Request, x: Bare, b: BodyText, calls: seq<CallRecord>, skip: Fields -> bool)
    requires BareGood(r, x, b) && NeverSkips(skip) && Session(BareText(r, x, b), 0, Init(), [], calls, skip)
    requires var e := Ending(0, Init(), [], calls); e.n == |BareText(r, x, b)| || ParseError(e.f.errno)
    ensures Ending(0, Init(), [], calls).log == BareLog(r, x.name, b, [])
  {
    hide RunAll, Session, Sound, BareGood, BareText, BareLog, NeverSkips;
    InitSound();
    var text := BareText(r, x, b);
    SessionAgrees(text, 0, Init(), [], calls, skip);
    assert text[0..] == text;
    BareMessageRun(Init(), r, x, b, [], skip);
  }

  // ---------------------------------------------------------------- the list

  lemma {:induction false} FaultStays(log: seq<Event>, hs: seq<Header>)
    requires NulsHarmless(HeadersLog(log, hs)) && Read(log).Faulted?
    ensures Read(HeadersLog(log, hs)).Faulted?
    decreases |hs|
  {
    hide NulsHarmless, Read, Append;
    if hs != [] {
      HarmlessBefore(HeaderLog(log, hs[0]), hs[1..]);
      var l := Append(log, Data(Field, hs[0].name));
      ReadAppend(l, Data(Value, hs[0].value));
      ReadAppend(log, Data(Field, hs[0].name));
      FaultStays(HeaderLog(log, hs[0]), hs[1..]);
    }
  }

  /** A name is waiting for its value, and its header has been filed and is NULL. */
  predicate Dangling(s: Status) {
    s.Status? && s.state.InField? && s.current.None?
  }

  lemma {:induction false} TrailersFault(log: seq<Event>, hs: seq<Header>)
    requires NulsHarmless(HeadersLog(log, hs)) && Dangling(Read(log))
    ensures Read(HeadersLog(log, hs)).Faulted? <==> hs != []
  {
    hide NulsHarmless, Read, Append;
    if hs != [] {
      var l := Append(log, Data(Field, hs[0].name));
      HarmlessBefore(HeaderLog(log, hs[0]), hs[1..]);
      ReadAppend(l, Data(Value, hs[0].value));
      ReadAppend(log, Data(Field, hs[0].name));
      FaultStays(HeaderLog(log, hs[0]), hs[1..]);
    }
  }

  /** At headers-complete the name is filed without a value, and the state still says it waits for one. */
  lemma BareHeadRead(r: Request, name: string, fr: Framing)
    requires var l := Append(BareHeadLog(r, name, []), HeadersComplete(fr)); NulsHarmless(l)
    ensures var s := Read(Append(BareHeadLog(r, name, []), HeadersComplete(fr)));
            Dangling(s) && s.headers == CellsOf(r.headers) + [Cell(CString(name), None)]
  {
    hide NulsHarmless, Read, Append, Ready, CellsOf, AfterBlock;
    var l0 := Append(Append([], MessageBegin), Data(Url, r.url));
    var l1 := r.Log([]);
    ReadAppend(BareHeadLog(r, name, []), HeadersComplete(fr));
    ReadAppend(l1, Data(Field, name));
    HarmlessBefore(l0, r.headers);
    ReadBegin([], r.url);
    NothingRead();
    BeginLooks(START, r.headers, []);
    ReadBlock(l0, r.headers);
    NameFiled(On(START, MessageBegin), r.headers, name, fr);
  }

  lemma NameFiled(s: Status, hs: seq<Header>, name: string, fr: Framing)
    requires Ready(s) && s.headers == [] && s.current == None
    ensures var t := On(On(AfterBlock(s, hs), Data(Field, name)), HeadersComplete(fr));
            Dangling(t) && t.headers == CellsOf(hs) + [Cell(CString(name), None)]
  {
    hide CellOf, CellsOf, CString, AllButLast;
    NoCells();
    if hs != [] {
      CellsSnoc(hs);
      var front := s.headers + Leftover(s.current) + CellsOf(AllButLast(hs));
      assert front == CellsOf(AllButLast(hs));
    }
    assert On(AfterBlock(s, hs), Data(Field, name)) == Status(InField, Some(Cell(CString(name), None)), CellsOf(hs));
  }

  /** The header callbacks meet the NULL header exactly when the body has a trailer. */
  lemma BareLineFaults(events: seq<Event>, r: Request, x: Bare, b: BodyText)
    requires BareGood(r, x, b) && Join(events) == BareLog(r, x.name, b, []) && NulsHarmless(Join(events))
    ensures Read(events).Faulted? <==> Trailers(b) != []
  {
    hide NulsHarmless, Read, Append, Dangling, BareHeadLog, FinalFlags;
    ReadJoin(events);
    var l := Append(BareHeadLog(r, x.name, []), HeadersComplete(r.BodyFraming()));
    ReadAppend(b.Log(l), MessageComplete(r.StaysOpen(FinalFlags(r, b))));
    BodyHarmless(l, b);
    BareHeadRead(r, x.name, r.BodyFraming());
    BodyFaults(l, b);
  }

  lemma BodyFaults(log: seq<Event>, b: BodyText)
    requires NulsHarmless(b.Log(log)) && Dangling(Read(log))
    ensures Read(b.Log(log)).Faulted? <==> Trailers(b) != []
  {
    hide NulsHarmless, Read, Append;
    var bytes := if b.Plain? then b.bytes else Payload(b.body.chunks);
    if b.Coded? {
      HarmlessBefore(BodyLog(log, bytes), b.body.trailers);
    }
    if bytes != [] {
      ReadAppend(log, Data(Body, bytes));
    }
    if b.Coded? {
      TrailersFault(BodyLog(log, bytes), b.body.trailers);
    }
  }

  lemma NoNulInTokens(name: string)
    requires AllTokens(name)
    ensures NUL !in name
  {
    assert !IsToken(NUL);
  }

  /** Without NULs in its header lines and trailers, its trace has none either. */
  lemma BareNulFree(r: Request, x: Bare, b: BodyText)
    requires BareGood(r, x, b) && NoNuls(r.headers) && NoNuls(Trailers(b))
    ensures NulFree(BareLog(r, x.name, b, []))
  {
    hide NulFree, NoNuls, FinalFlags, Append;
    NoNulInTokens(x.name);
    NothingThere();
    NulFreeAppend([], MessageBegin);
    NulFreeAppend(Append([], MessageBegin), Data(Url, r.url));
    NulFreeHeaders(Append(Append([], MessageBegin), Data(Url, r.url)), r.headers);
    NulFreeAppend(r.Log([]), Data(Field, x.name));
    NulFreeAppend(BareHeadLog(r, x.name, []), HeadersComplete(r.BodyFraming()));
    var l := Append(BareHeadLog(r, x.name, []), HeadersComplete(r.BodyFraming()));
    var bytes := if b.Plain? then b.bytes else Payload(b.body.chunks);
    if bytes != [] {
      NulFreeAppend(l, Data(Body, bytes));
    }
    if b.Coded? {
      NulFreeHeaders(BodyLog(l, bytes), b.body.trailers);
    }
    NulFreeAppend(b.Log(l), MessageComplete(r.StaysOpen(FinalFlags(r, b))));
  }

  lemma NothingThere()
    ensures NulFree([])
  {
  }

  // ---------------------------------------------------------------- one of them

  const ONE_TRAILER := CodedBody([], SizeLine("0", []), [Header("A", " ", "1", CrLf)], CrLf)

  lemma OneTrailerIsGood()
    ensures ONE_TRAILER.Good()
  {
    hide GoodHeader, Lines, IsToken, Token, Folded, AllTokens, AllText, AllBlank;
    OneTrailerLines();
    Letters();
    LetterIsGood();
    ZeroLine();
  }

  lemma LetterIsGood()
    ensures GoodHeader(Header("A", " ", "1", CrLf))
  {
    hide IsToken, Folded, Token;
    Letters();
    ShortHeaderIsGood(Header("A", " ", "1", CrLf));
  }

  lemma ZeroLine()
    ensures SizeLine("0", []).Good() && GoodSize("0") && HexOf("0") == 0 && SizeLine("0", []).Text() == "0\r\n"
  {
    assert "0"[..0] == [];
  }

  lemma OneTrailerText()
    ensures Coded(ONE_TRAILER).Text() == "0\r\nA: 1\r\n\r\n"
  {
    hide Lines, SizeLine.Text;
    OneTrailerLines();
    ZeroLine();
  }

  lemma OneTrailerLines()
    ensures Lines(ONE_TRAILER.trailers) == "A: 1\r\n"
  {
    var a := Header("A", " ", "1", CrLf);
    assert [a][1..] == [] && Line(a) == "A: 1\r\n";
  }

  lemma BareIsGood()
    ensures BareGood(CHUNKED_POST, Bare("X", CrLf), Coded(ONE_TRAILER))
  {
    hide Request.Good, CodedBody.Good, Request.BodyFraming, Request.Upgrades, Request.Head;
    ChunkedPostIsGood();
    OneTrailerIsGood();
    PostHead();
  }

  lemma PostHead()
    ensures CHUNKED_POST.Line() == "POST / HTTP/1.1\r\n" && Lines(CHUNKED_POST.headers) == "transfer-encoding:chunked\r\n"
    ensures |CHUNKED_POST.Head()| <= 100
  {
    assert Name(POST) + [' '] + "/" + [' '] == "POST / ";
    assert Version('1', '1', CrLf) == "HTTP/1.1\r\n";
    assert [CODING][1..] == [] && Lines([]) == "";
    assert Line(CODING) == "transfer-encoding:chunked\r\n";
    assert Lines([CODING]) == Line(CODING) + Lines([]);
  }

  const BARE_POST :=
    "POST / HTTP/1.1\r\n" + ("transfer-encoding:chunked\r\n" + ("X\r\n" + ("\r\n" + "0\r\nA: 1\r\n\r\n")))

  lemma BareIs()
    ensures BareText(CHUNKED_POST, Bare("X", CrLf), Coded(ONE_TRAILER)) == BARE_POST
  {
    hide Request.Line, Lines, BodyText.Text;
    OneTrailerText();
    PostHead();
    assert "X" + CRLF == "X\r\n" && CRLF == "\r\n";
  }

  const BARE_LOG := [MessageBegin, Data(Url, "/"), Data(Field, "transfer-encoding"), Data(Value, "chunked"), Data(Field, "X"),
                     HeadersComplete(ChunkedBody), Data(Field, "A"), Data(Value, "1"), MessageComplete(true)]

  /** A request that is accepted: however it is cut and paused, the name X has no value before
      headers-complete, and the trailer finds a NULL header. */
  lemma BareTrailer(calls: seq<CallRecord>, skip: Fields -> bool, events: seq<Event>)
    requires NeverSkips(skip) && Session(BARE_POST, 0, Init(), [], calls, skip)
    requires var e := Ending(0, Init(), [], calls); e.n == |BARE_POST| || ParseError(e.f.errno)
    requires Join(events) == Ending(0, Init(), [], calls).log
    ensures Join(events) == BARE_LOG && Read(events).Faulted?
  {
    hide Session, Ending, NeverSkips, BareText, BareLog, NulsHarmless, BareGood, Read, Join, NoNuls, NulFree;
    BareIsGood();
    BareIs();
    BareSession(CHUNKED_POST, Bare("X", CrLf), Coded(ONE_TRAILER), calls, skip);
    BareLogIs();
    NoNulsInPost();
    BareNulFree(CHUNKED_POST, Bare("X", CrLf), Coded(ONE_TRAILER));
    NulFreeHarmless(Join(events));
    BareLineFaults(events, CHUNKED_POST, Bare("X", CrLf), Coded(ONE_TRAILER));
  }

  lemma NoNulsInPost()
    ensures NoNuls(CHUNKED_POST.headers) && NoNuls(Trailers(Coded(ONE_TRAILER)))
  {
  }

  const BARE_HEAD := [MessageBegin, Data(Url, "/"), Data(Field, "transfer-encoding"), Data(Value, "chunked"), Data(Field, "X")]

  lemma BareHeadLogIs()
    ensures BareHeadLog(CHUNKED_POST, "X", []) == BARE_HEAD
  {
    var l1 := Append(Append([], MessageBegin), Data(Url, "/"));
    assert l1 == [MessageBegin, Data(Url, "/")];
    var l2 := Append(l1, Data(Field, "transfer-encoding"));
    assert l2 == BARE_HEAD[..3];
    assert [CODING][1..] == [];
    assert HeadersLog(l1, [CODING]) == HeadersLog(HeaderLog(l1, CODING), []) == HeaderLog(l1, CODING);
    assert HeaderLog(l1, CODING) == BARE_HEAD[..4];
  }

  lemma TrailerLogIs(log: seq<Event>)
    requires log == BARE_HEAD + [HeadersComplete(ChunkedBody)]
    ensures Coded(ONE_TRAILER).Log(log) == log + [Data(Field, "A"), Data(Value, "1")]
  {
    var a := Header("A", " ", "1", CrLf);
    assert Payload([]) == [] && BodyLog(log, []) == log;
    assert [a][1..] == [];
    assert HeadersLog(log, [a]) == HeadersLog(HeaderLog(log, a), []) == HeaderLog(log, a);
  }

  lemma BareLogIs()
    requires BareGood(CHUNKED_POST, Bare("X", CrLf), Coded(ONE_TRAILER))
    ensures BareLog(CHUNKED_POST, "X", Coded(ONE_TRAILER), []) == BARE_LOG
  {
    hide BareHeadLog, Request.Good, Request.BodyFraming, Request.Upgrades, BodyText.Fits, BodyText.Log, FinalFlags, Request.StaysOpen, NulsHarmless;
    BareHeadLogIs();
    ChunkedPostIsGood();
    var l := BARE_HEAD + [HeadersComplete(ChunkedBody)];
    assert l == Append(BARE_HEAD, HeadersComplete(ChunkedBody));
    TrailerLogIs(l);
    PostStaysOpen();
    assert BARE_HEAD + [HeadersComplete(ChunkedBody)] + [Data(Field, "A"), Data(Value, "1")] + [MessageComplete(true)] == BARE_LOG;
  }

  lemma PostStaysOpen()
    requires BareGood(CHUNKED_POST, Bare("X", CrLf), Coded(ONE_TRAILER))
    ensures CHUNKED_POST.StaysOpen(FinalFlags(CHUNKED_POST, Coded(ONE_TRAILER)))
  {
    hide GoodHeader, Folded, Effects, IsToken, CodedBody.Good, BodyText.Fits;
    var a := Header("A", " ", "1", CrLf);
    CodingIsGood();
    OneEffect(Meaning(NO_FLAGS, ULLONG_MAX), CODING);
    assert CHUNKED_POST.headers == [CODING];
    Letters();
    ShortHeaderIsGood(a);
    OneEffect(Meaning(CHUNKED_POST.Meant().flags.(trailing := true), 0), a);
    assert ONE_TRAILER.trailers == [a];
  }
}
