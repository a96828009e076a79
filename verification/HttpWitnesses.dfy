/** Concrete messages for which the list of headers, or the limit on them, is not what one would expect. */
module HttpWitnesses {
  import opened HttpChars
  import opened HttpParser
  import opened HttpExecute
  import opened HttpSession
  import opened HttpSegments
  import opened HttpHeaders
  import opened HttpMessages
  import opened HttpBodies
  import opened HttpRoundTrip
  import opened HttpHeadLimit
  import opened HttpReader

  lemma {:induction false} FoldedIs(s: string, l: string)
    requires AllTokens(s) && |l| == |s| && forall i | 0 <= i < |s| :: Token(s[i]) == l[i]
    ensures Folded(s) == l
    decreases |s|
  {
    hide Token;
    if s != [] {
      FoldedIs(s[..|s| - 1], l[..|s| - 1]);
    }
  }

  lemma {:induction false} LoweredIs(s: string, l: string)
    requires |l| == |s| && forall i | 0 <= i < |s| :: Lower(s[i]) == l[i]
    ensures Lowered(s) == l
    decreases |s|
  {
    hide Lower;
    if s != [] {
      LoweredIs(s[..|s| - 1], l[..|s| - 1]);
    }
  }

  // ---------------------------------------------------------------- two trailers

  /** A request with a chunked body. */
  const CHUNKED_POST := Request(POST, "/", '1', '1', CrLf, [Header(TRANSFER_ENCODING, [], "chunked", CrLf)], CrLf)

  const CODING := Header(TRANSFER_ENCODING, [], "chunked", CrLf)

  /** Lower-case letters and dashes are tokens and stay as they are. */
  lemma LowerCase(s: string)
    requires forall c <- s :: 'a' <= c <= 'z' || c == '-'
    ensures AllTokens(s) && Folded(s) == s
  {
    forall i | 0 <= i < |s|
      ensures IsToken(s[i]) && Token(s[i]) == s[i]
    {
      assert s[i] in s;
    }
    FoldedIs(s, s);
  }

  lemma CodingIsGood()
    ensures GoodHeader(CODING) && Folded(CODING.name) == TRANSFER_ENCODING
  {
    hide IsToken, Token, Folded, AllTokens;
    LowerCase(TRANSFER_ENCODING);
  }

  lemma CodingIsChunked()
    ensures IsWord(CODING.value, CHUNKED)
  {
    LoweredIs("chunked", CHUNKED);
    assert "chunked"[..7] == "chunked";
  }

  lemma SlashIsGood(m: Method)
    requires m != CONNECT
    ensures GoodUrl(m, "/")
  {
    assert "/"[..0] == [];
  }

  /** One header that means what `m` says. */
  lemma OneEffect(m: Meaning, h: Header)
    requires GoodHeader(h)
    ensures GoodHeaders([h]) && Effects(m, [h]) == Effect(m, Folded(h.name), h.value)
  {
    hide GoodHeader, Effect, Folded;
    assert [h][1..] == [];
  }

  lemma ChunkedPostIsGood()
    ensures CHUNKED_POST.Good() && !CHUNKED_POST.Upgrades() && CHUNKED_POST.BodyFraming() == ChunkedBody
  {
    hide GoodUrl, GoodHeaders, GoodHeader, Folded, Effects, IsWord;
    SlashIsGood(POST);
    CodingIsGood();
    CodingIsChunked();
    OneEffect(Meaning(NO_FLAGS, ULLONG_MAX), CODING);
    assert CHUNKED_POST.headers == [CODING];
  }

  /** No chunk, and two trailers. */
  const TWO_TRAILERS := CodedBody([], SizeLine("0", []), [Header("A", " ", "1", CrLf), Header("B", " ", "2", CrLf)], CrLf)

  lemma ShortHeaderIsGood(h: Header)
    requires |h.name| == 1 && IsToken(h.name[0]) && AllBlank(h.pad) && AllText(h.value)
    requires h.value != [] && !IsBlank(h.value[0])
    ensures GoodHeader(h) && Folded(h.name) == [Token(h.name[0])]
  {
    hide IsToken, IsBlank;
    FoldedIs(h.name, [Token(h.name[0])]);
  }

  lemma TwoTrailersText()
    ensures TWO_TRAILERS.Text() == "0\r\nA: 1\r\nB: 2\r\n\r\n" && |Lines(TWO_TRAILERS.trailers)| == 12
  {
    var a, b := Header("A", " ", "1", CrLf), Header("B", " ", "2", CrLf);
    assert [a, b][1..] == [b] && [b][1..] == [];
    assert Lines([b]) == "B: 2\r\n";
    assert Lines([a, b]) == "A: 1\r\nB: 2\r\n";
  }

  lemma TwoTrailersAreGood()
    ensures TWO_TRAILERS.Good()
  {
    hide GoodHeader, Lines, IsToken;
    TwoTrailersText();
    assert IsToken('A') && IsToken('B') by { Letters(); }
    ShortHeaderIsGood(TWO_TRAILERS.trailers[0]);
    ShortHeaderIsGood(TWO_TRAILERS.trailers[1]);
    assert "0"[..0] == [];
    assert HexOf("0") == 0;
  }

  lemma Letters()
    ensures IsToken('A') && IsToken('B')
  {
  }

  const TWO_TRAILERS_POST := Message(CHUNKED_POST, Coded(TWO_TRAILERS))

  lemma TwoTrailersPipeline()
    ensures TWO_TRAILERS_POST.Good() && Pipeline([TWO_TRAILERS_POST], 0)
  {
    hide Request.Good, CodedBody.Good, Request.BodyFraming, Request.Upgrades, Request.Head;
    ChunkedPostIsGood();
    TwoTrailersAreGood();
    HeadLength();
    assert [TWO_TRAILERS_POST][1..] == [];
  }

  lemma HeadLength()
    ensures |CHUNKED_POST.Head()| <= MAX_HEADER_SIZE
  {
    assert [CODING][1..] == [];
    assert Lines([CODING]) == Line(CODING) + Lines([]);
  }

  lemma CellsOfShort(a: Header, b: Header)
    ensures CellsOf([a]) == [CellOf(a)] && AllButLast([a, b]) == [a] && LastOf([a, b]) == Some(CellOf(b))
  {
    assert [a][1..] == [];
  }

  lemma OneByteString(s: string)
    requires |s| == 1 && s[0] != NUL
    ensures CString(s) == s
  {
    assert s[1..] == [] && CString(s[1..]) == [];
    assert s == [s[0]] + [];
  }

  lemma CellOfShort(h: Header)
    requires |h.name| == |h.value| == 1 && h.name[0] != NUL && h.value[0] != NUL
    ensures CellOf(h) == Cell(h.name, Some(h.value))
  {
    OneByteString(h.name);
    OneByteString(h.value);
  }

  /** The body `0\r\nA: 1\r\nB: 2\r\n\r\n` behind a chunked head: however it is cut and paused, the list ends
      with A, which is no header of the request, and B stays under construction. */
  lemma TwoTrailers(calls: seq<CallRecord>, skip: Fields -> bool, events: seq<Event>)
    requires NeverSkips(skip) && Session(TWO_TRAILERS_POST.Text(), 0, Init(), [], calls, skip)
    requires var e := Ending(0, Init(), [], calls); e.n == |TWO_TRAILERS_POST.Text()| || ParseError(e.f.errno)
    requires Join(events) == Ending(0, Init(), [], calls).log
    ensures Read(events).Status? && Read(events).headers == [CellOf(CODING), Cell("A", Some("1"))]
    ensures Read(events).current == Some(Cell("B", Some("2")))
  {
    hide Session, Ending, NeverSkips, NulsHarmless, Message.Text, Pipeline, Read, CellsOf, CellOf, Trailers, LastOf, AllButLast, NoNuls;
    TwoTrailersPipeline();
    NoNulsThere();
    OneMessage(TWO_TRAILERS_POST, calls, skip, events);
    TwoTrailersList();
  }

  /** The list of a request that is alone in its session. */
  lemma OneMessage(m: Message, calls: seq<CallRecord>, skip: Fields -> bool, events: seq<Event>)
    requires Pipeline([m], 0) && NeverSkips(skip) && Session(m.Text(), 0, Init(), [], calls, skip)
    requires var e := Ending(0, Init(), [], calls); e.n == |m.Text()| || ParseError(e.f.errno)
    requires Join(events) == Ending(0, Init(), [], calls).log && NoNuls(m.request.headers) && NoNuls(Trailers(m.body))
    ensures Read(events).Status? && Read(events).current == LastOf(Trailers(m.body))
    ensures Read(events).headers == CellsOf(m.request.headers) + CellsOf(AllButLast(Trailers(m.body)))
  {
    hide Session, Ending, NeverSkips, NulsHarmless, Message.Text, MessageLog, Read, CellsOf, NoNuls;
    assert [m][1..] == [];
    OneText(m);
    AnySessionRoundTrip([m], calls, skip);
    MessageNulFree(m.request, m.body, []);
    NulFreeHarmless(Join(events));
    HeaderListRoundTrip(events, m.request, m.body);
  }

  lemma NoNulsThere()
    ensures NoNuls(CHUNKED_POST.headers) && NoNuls(Trailers(TWO_TRAILERS_POST.body))
  {
  }

  lemma TwoTrailersList()
    ensures CellsOf(CHUNKED_POST.headers) == [CellOf(CODING)]
    ensures Trailers(TWO_TRAILERS_POST.body) == TWO_TRAILERS.trailers
    ensures CellsOf(AllButLast(TWO_TRAILERS.trailers)) == [Cell("A", Some("1"))]
    ensures LastOf(TWO_TRAILERS.trailers) == Some(Cell("B", Some("2")))
    ensures [CellOf(CODING)] + [Cell("A", Some("1"))] == [CellOf(CODING), Cell("A", Some("1"))]
  {
    hide CellOf, CellsOf, AllButLast, LastOf;
    var a, b := Header("A", " ", "1", CrLf), Header("B", " ", "2", CrLf);
    CellsOfShort(a, b);
    CellsOfShort(CODING, b);
    CellOfShort(a);
    CellOfShort(b);
    assert CHUNKED_POST.headers == [CODING];
  }

  // ---------------------------------------------------------------- a NUL in a value

  const NUL_HEADER := Header("A", [], ['x', NUL, 'y'], CrLf)
  const NUL_GET := Message(Request(GET, "/", '1', '1', CrLf, [NUL_HEADER], CrLf), Plain([]))

  lemma NulGetIsGood()
    ensures NUL_GET.Good() && Pipeline([NUL_GET], 0) && NUL_GET.request.BodyFraming() == NoBody
    ensures NUL_GET.StaysOpen()
  {
    hide GoodUrl, GoodHeaders, GoodHeader, Folded, Effects;
    SlashIsGood(GET);
    NulHeaderIsGood();
    OneEffect(Meaning(NO_FLAGS, ULLONG_MAX), NUL_HEADER);
    assert NUL_GET.request.headers == [NUL_HEADER];
    NulHeadLength();
    assert [NUL_GET][1..] == [];
  }

  lemma NulHeaderIsGood()
    ensures GoodHeader(NUL_HEADER) && Folded(NUL_HEADER.name) == "a"
  {
    hide IsToken, Folded;
    Letters();
    ShortHeaderIsGood(NUL_HEADER);
  }

  lemma NulHeadLength()
    ensures |NUL_GET.request.Head()| <= MAX_HEADER_SIZE
  {
    assert [NUL_HEADER][1..] == [];
    assert Lines([NUL_HEADER]) == Line(NUL_HEADER) + Lines([]);
  }

  /** The callbacks for the value in one piece, and in two, cut behind the NUL. */
  function Pieces(cut: bool): seq<Event> {
    [MessageBegin, Data(Url, "/"), Data(Field, "A")]
    + (if cut then [Data(Value, ['x', NUL]), Data(Value, ['y'])] else [Data(Value, ['x', NUL, 'y'])])
    + [HeadersComplete(NoBody), MessageComplete(true)]
  }

  lemma JoinFront(events: seq<Event>, e: Event)
    ensures Join(events + [e]) == Append(Join(events), e) && Read(events + [e]) == On(Read(events), e)
  {
    JoinSnoc(events, e);
    assert (events + [e])[..|events|] == events;
  }

  const NUL_LOG := [MessageBegin, Data(Url, "/"), Data(Field, "A"), Data(Value, ['x', NUL, 'y']),
                    HeadersComplete(NoBody), MessageComplete(true)]

  const NUL_START := [MessageBegin, Data(Url, "/"), Data(Field, "A")]

  lemma NulStart()
    ensures Join(NUL_START) == NUL_START && Read(NUL_START) == Status(InField, Some(Cell("A", None)), [])
  {
    hide Join, Read;
    assert Join([]) == [] && Read([]) == START by { NothingJoined(); }
    JoinFront([], MessageBegin);
    JoinFront([MessageBegin], Data(Url, "/"));
    JoinFront([MessageBegin, Data(Url, "/")], Data(Field, "A"));
    assert [] + [MessageBegin] == [MessageBegin];
    assert [MessageBegin] + [Data(Url, "/")] == [MessageBegin, Data(Url, "/")];
    assert NUL_START == [MessageBegin, Data(Url, "/")] + [Data(Field, "A")];
    OneByteString("A");
  }

  lemma NothingJoined()
    ensures Join([]) == [] && Read([]) == START
  {
  }

  /** How a joined trace and a status go on to the end of the request. */
  lemma NulEnd(events: seq<Event>, v: string)
    requires Join(events) == NUL_START + [Data(Value, ['x', NUL, 'y'])]
    requires Read(events) == Status(InValue, Some(Cell("A", Some(v))), [])
    ensures var all := events + [HeadersComplete(NoBody), MessageComplete(true)];
            Join(all) == NUL_LOG && Read(all) == Status(InValue, None, [Cell("A", Some(v))])
  {
    hide Join, Read;
    JoinFront(events, HeadersComplete(NoBody));
    JoinFront(events + [HeadersComplete(NoBody)], MessageComplete(true));
    assert events + [HeadersComplete(NoBody), MessageComplete(true)] == events + [HeadersComplete(NoBody)] + [MessageComplete(true)];
  }

  lemma NulStrings()
    ensures CString(['x', NUL, 'y']) == "x" && CString(['x', NUL]) == "x" && CString(['y']) == "y"
  {
    assert ['x', NUL, 'y'][1..] == [NUL, 'y'] && CString([NUL, 'y']) == [];
    assert ['x', NUL][1..] == [NUL] && CString([NUL]) == [];
    OneByteString("y");
  }

  lemma WholeValue()
    ensures Join(Pieces(false)) == NUL_LOG && Read(Pieces(false)) == Status(InValue, None, [Cell("A", Some("x"))])
  {
    hide Join, Read;
    NulStart();
    NulStrings();
    var events := NUL_START + [Data(Value, ['x', NUL, 'y'])];
    JoinFront(NUL_START, Data(Value, ['x', NUL, 'y']));
    NulEnd(events, "x");
    assert Pieces(false) == events + [HeadersComplete(NoBody), MessageComplete(true)];
  }

  lemma CutValue()
    ensures Join(Pieces(true)) == NUL_LOG && Read(Pieces(true)) == Status(InValue, None, [Cell("A", Some("xy"))])
  {
    hide Join, Read;
    NulStart();
    NulStrings();
    var half := NUL_START + [Data(Value, ['x', NUL])];
    var events := half + [Data(Value, ['y'])];
    JoinFront(NUL_START, Data(Value, ['x', NUL]));
    JoinFront(half, Data(Value, ['y']));
    assert ['x', NUL] + ['y'] == ['x', NUL, 'y'] && "x" + "y" == "xy";
    assert half[..|half| - 1] == NUL_START;
    NulEnd(events, "xy");
    assert Pieces(true) == events + [HeadersComplete(NoBody), MessageComplete(true)];
  }

  lemma NulLog()
    ensures NUL_GET.Good() && Pipeline([NUL_GET], 0) && Logs([NUL_GET], 0, []) == NUL_LOG
  {
    hide Request.Good, Request.BodyFraming, Pipeline, Request.StaysOpen, FinalFlags;
    NulGetIsGood();
    NulHeadLog();
    assert [NUL_GET][1..] == [];
    var l0 := NUL_GET.request.Log([]);
    assert BodyText.Plain([]).Log(Append(l0, HeadersComplete(NoBody))) == Append(l0, HeadersComplete(NoBody));
    assert NUL_GET.Log([]) == NUL_LOG;
  }

  lemma NulHeadLog()
    ensures NUL_GET.request.Log([]) == NUL_START + [Data(Value, ['x', NUL, 'y'])]
  {
    assert [NUL_HEADER][1..] == [];
    var l0 := Append([], MessageBegin);
    assert l0 == [MessageBegin];
    var l1 := Append(l0, Data(Url, "/"));
    assert l1 == [MessageBegin, Data(Url, "/")];
    var l2 := Append(l1, Data(Field, "A"));
    assert l2 == NUL_START;
    assert HeadersLog(l1, [NUL_HEADER]) == HeaderLog(l1, NUL_HEADER);
  }

  /** A request the parser accepts whose value has a NUL before another byte: every session over its text has
      this joined trace, and two ways of cutting the value give two different lists. */
  lemma NulMatters(calls: seq<CallRecord>, skip: Fields -> bool)
    requires NeverSkips(skip) && Session(NUL_GET.Text(), 0, Init(), [], calls, skip)
    requires var e := Ending(0, Init(), [], calls); e.n == |NUL_GET.Text()| || ParseError(e.f.errno)
    ensures Join(Pieces(false)) == Join(Pieces(true)) == Ending(0, Init(), [], calls).log
    ensures Read(Pieces(false)).Status? && Read(Pieces(false)).headers == [Cell("A", Some("x"))]
    ensures Read(Pieces(true)).Status? && Read(Pieces(true)).headers == [Cell("A", Some("xy"))]
  {
    hide Session, Ending, NeverSkips, Message.Text, Pipeline, Read, Join, Pieces, Logs;
    NulGetIsGood();
    assert Texts([NUL_GET]) == NUL_GET.Text() by { OneText(NUL_GET); }
    AnySessionRoundTrip([NUL_GET], calls, skip);
    WholeValue();
    CutValue();
    NulLog();
  }

  lemma OneText(m: Message)
    ensures Texts([m]) == m.Text()
  {
    hide Message.Text;
    assert [m][1..] == [];
    assert m.Text() + [] == m.Text();
  }

  // ---------------------------------------------------------------- trailers counted against the next head

  /** A request whose head is as long as the limit allows. */
  function LongGet(): Request {
    Request(GET, "/" + seq(MAX_HEADER_SIZE - 18, i => 'a'), '1', '1', CrLf, [], CrLf)
  }

  lemma {:induction false} PathOfLetters(url: string)
    requires |url| > 0 && url[0] == '/' && forall i | 0 < i < |url| :: url[i] == 'a'
    ensures UrlState(UrlEntry(GET), url) == Path
    decreases |url|
  {
    var n := |url| - 1;
    if n == 0 {
      assert url[..0] == [];
    } else {
      PathOfLetters(url[..n]);
    }
  }

  lemma LongGetIsGood()
    ensures LongGet().Good() && !LongGet().Upgrades() && |LongGet().Head()| == MAX_HEADER_SIZE
    ensures LongGet().BodyFraming() == NoBody
  {
    hide UrlState;
    PathOfLetters(LongGet().url);
    assert Lines([]) == [] && |Name(GET)| == 3;
  }

  lemma TwoTrailersCounted()
    ensures TWO_TRAILERS_POST.body.Counted() == 14
  {
    TwoTrailersText();
  }

  lemma PlainEffect(m: Meaning, h: Header, c: char)
    requires GoodHeader(h) && Folded(h.name) == [c]
    ensures Effect(m, Folded(h.name), h.value) == m
  {
    hide GoodHeader, Folded;
    assert |CONNECTION| > 1 && |PROXY_CONNECTION| > 1 && |TRANSFER_ENCODING| > 1 && |UPGRADE| > 1 && |CONTENT_LENGTH| > 1;
  }

  lemma TrailersMeanNothing(m: Meaning)
    ensures GoodHeaders(TWO_TRAILERS.trailers) && Effects(m, TWO_TRAILERS.trailers) == m
  {
    hide GoodHeader, Folded, Effect, IsToken;
    var a, b := TWO_TRAILERS.trailers[0], TWO_TRAILERS.trailers[1];
    Letters();
    ShortHeaderIsGood(a);
    ShortHeaderIsGood(b);
    PlainEffect(m, a, Token('A'));
    PlainEffect(m, b, Token('B'));
    OneEffect(m, b);
    assert [a, b][1..] == [b];
  }

  lemma TwoTrailersStayOpen()
    requires TWO_TRAILERS_POST.Good()
    ensures TWO_TRAILERS_POST.StaysOpen()
  {
    hide GoodHeaders, GoodHeader, Folded, Effects, IsWord, CodedBody.Good, GoodUrl;
    CodingIsGood();
    OneEffect(Meaning(NO_FLAGS, ULLONG_MAX), CODING);
    assert CHUNKED_POST.headers == [CODING];
    TrailersMeanNothing(Meaning(CHUNKED_POST.Meant().flags.(trailing := true), 0));
  }

  lemma LongGetAlone(skip: Fields -> bool)
    requires NeverSkips(skip)
    ensures RunAll(Init(), LongGet().Head(), [], skip).end == Finished
  {
    hide RunAll, NeverSkips, Request.Good, Request.Head, Request.Meant;
    LongGetIsGood();
    var r := LongGet();
    var g := MessageRun(Init(), r, Plain([]), [], [], skip);
    assert r.Head() + ([] + []) == r.Head();
    EmptyRun(g, MessageLog(r, Plain([]), []), skip);
  }

  /** A request that is accepted on a fresh connection is rejected as too long when it follows, on one
      connection, a message with two trailers. */
  lemma TrailersCount(skip: Fields -> bool)
    requires NeverSkips(skip)
    ensures RunAll(Init(), LongGet().Head(), [], skip).end == Finished
    ensures TooLong(RunAll(Init(), TWO_TRAILERS_POST.Text() + LongGet().Head(), [], skip))
  {
    hide RunAll, NeverSkips, Message.Text, Request.Good, Request.Head, Message.StaysOpen, BodyText.Counted, Pipeline, LongGet;
    LongGetAlone(skip);
    LongGetIsGood();
    TwoTrailersPipeline();
    HeadLength();
    TwoTrailersStayOpen();
    TwoTrailersCounted();
    NextHeadExact(Init(), TWO_TRAILERS_POST, LongGet(), [], [], skip);
    assert LongGet().Head() + [] == LongGet().Head();
  }
}
