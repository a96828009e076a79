/** Messages as a client writes them, and what the parser makes of the text. */
module HttpMessages {
  import opened HttpChars
  import opened HttpParser
  import opened HttpRuns
  import opened HttpSegments
  import opened HttpHeaders

  // ---------------------------------------------------------------- header lines

  const CRLF: string := [CR, LF]

  /** The two ways to end a line. */
  datatype Eol = CrLf | BareLf {
    function Text(): (s: string)
      ensures 0 < |s| <= 2
    {
      if CrLf? then CRLF else [LF]
    }
  }

  datatype Header = Header(name: string, pad: string, value: string, end: Eol)

  predicate IsBlank(c: char) {
    c == ' ' || c == '\t'
  }

  predicate AllBlank(s: string) {
    forall c <- s :: IsBlank(c)
  }

  predicate GoodHeader(h: Header) {
    && |h.name| > 0 && AllTokens(h.name) && AllBlank(h.pad) && AllText(h.value)
    && (h.value != [] ==> !IsBlank(h.value[0]))
    && (h.value != [] && Folded(h.name) == CONTENT_LENGTH ==> IsLength(h.value))
  }

  function Line(h: Header): string {
    h.name + [':'] + h.pad + h.value + h.end.Text()
  }

  function HeaderLog(log: seq<Event>, h: Header): seq<Event> {
    Append(Append(log, Data(Field, h.name)), Data(Value, h.value))
  }

  lemma Colon(f: Fields, log: seq<Event>, name: string, skip: Fields -> bool)
    requires f.state.HeaderField? && f.nread < MAX_HEADER_SIZE
    ensures Takes(f, [':'], Append(log, Data(Field, name)), skip, f.(state := DiscardWs, nread := f.nread + 1), Append(log, Data(Field, name)))
  {
    hide Takes, Case, IsToken;
    NewlinesAreNoTokens();
    CaseIsHeader(f.(nread := f.nread + 1), ':', skip);
    OneByte(f, ':', Append(log, Data(Field, name)), skip);
    AppendTwice(log, Field, name, []);
    assert name + [] == name;
  }

  lemma {:induction false} Pad(f: Fields, pad: string, log: seq<Event>, skip: Fields -> bool)
    requires f.state.DiscardWs? && AllBlank(pad) && f.nread + |pad| <= MAX_HEADER_SIZE
    ensures Takes(f, pad, log, skip, f.(nread := f.nread + |pad|), log)
    decreases |pad|
  {
    if pad == [] {
    } else {
      hide Takes, ValueStartCase;
      var n := |pad| - 1;
      assert IsBlank(pad[n]) && forall c <- pad[..n] :: c in pad;
      Pad(f, pad[..n], log, skip);
      MoreBytes(f, pad, log, skip, f.(nread := f.nread + n), log);
    }
  }

  /** The line end after a value. */
  lemma ValueEnd(f: Fields, log: seq<Event>, v: string, end: Eol, skip: Fields -> bool)
    requires f.state.HeaderValue? && f.nread + |end.Text()| <= MAX_HEADER_SIZE
    ensures Takes(f, end.Text(), Append(log, Data(Value, v)), skip,
                  f.(state := ValueLws, nread := f.nread + |end.Text()|), Append(log, Data(Value, v)))
  {
    hide Takes, Case;
    var l := Append(log, Data(Value, v));
    AppendTwice(log, Value, v, []);
    assert v + [] == v;
    if end.CrLf? {
      var g := f.(state := HeaderAlmostDone, nread := f.nread + 1);
      CaseIsHeader(f.(nread := f.nread + 1), CR, skip);
      OneByte(f, CR, l, skip);
      AlmostDone(g.(nread := g.nread + 1), skip);
      OneByte(g, LF, l, skip);
      Compose(f, [CR], [LF], l, skip, g, l, f.(state := ValueLws, nread := f.nread + 2), l);
      assert [CR] + [LF] == CRLF;
    } else {
      var c := f.(nread := f.nread + 1);
      CaseIsHeader(c, LF, skip);
      AlmostDone(c.(state := HeaderAlmostDone), skip);
      AgainThenOn(f, LF, l, skip, c.(state := HeaderAlmostDone), l);
    }
  }

  /** A byte for which two case bodies run. */
  lemma AgainThenOn(f: Fields, ch: char, log: seq<Event>, skip: Fields -> bool, mid: Fields, l: seq<Event>)
    requires ParsingHeader(f.state) && f.nread < MAX_HEADER_SIZE
    requires var o := Case(f.(nread := f.nread + 1), ch, skip); o.control.Again? && o.f == mid && Emit(log, o, ch) == l
    requires Case(mid, ch, skip).control.Advance?
    ensures Takes(f, [ch], log, skip, Case(mid, ch, skip).f, Emit(l, Case(mid, ch, skip), ch))
  {
    hide Case, Emit;
    var c := f.(nread := f.nread + 1);
    AgainLowersRank(c, ch, skip);
    var o := Case(mid, ch, skip);
    assert Settle(mid, ch, l, skip) == Run(o.f, Emit(l, o, ch), 1, Finished);
    assert Settle(c, ch, log, skip) == Run(o.f, Emit(l, o, ch), 1, Finished);
    assert [ch][1..] == [];
    assert RunAll(o.f, [], Emit(l, o, ch), skip) == Run(o.f, Emit(l, o, ch), 0, Finished);
  }

  lemma AlmostDone(f: Fields, skip: Fields -> bool)
    ensures f.state.HeaderAlmostDone? ==> Case(f, LF, skip) == Go(f.(state := ValueLws))
    ensures f.state.DiscardWs? ==> Case(f, CR, skip) == Go(f.(state := DiscardWsAlmostDone)) && Case(f, LF, skip) == Go(f.(state := DiscardLws))
    ensures f.state.DiscardWsAlmostDone? ==> Case(f, LF, skip) == Go(f.(state := DiscardLws))
  {
    hide FieldStartCase, FieldCase, ValueCase, ValueStartCase, UrlCase, VersionCase;
  }

  /** The line end of a header without a value. */
  lemma EmptyValueEnd(f: Fields, log: seq<Event>, end: Eol, skip: Fields -> bool)
    requires f.state.DiscardWs? && f.nread + |end.Text()| <= MAX_HEADER_SIZE
    ensures Takes(f, end.Text(), log, skip, f.(state := DiscardLws, nread := f.nread + |end.Text()|), log)
  {
    hide Takes, Case;
    AlmostDone(f.(nread := f.nread + 1), skip);
    if end.CrLf? {
      var g := f.(state := DiscardWsAlmostDone, nread := f.nread + 1);
      OneByte(f, CR, log, skip);
      AlmostDone(g.(nread := g.nread + 1), skip);
      OneByte(g, LF, log, skip);
      Compose(f, [CR], [LF], log, skip, g, log, f.(state := DiscardLws, nread := f.nread + 2), log);
      assert [CR] + [LF] == CRLF;
    } else {
      OneByte(f, LF, log, skip);
    }
  }

  /** The struct after a header line, once the next line has begun. */
  predicate AfterLine(f: Fields, h: Header, g: Fields)
    requires GoodHeader(h)
  {
    var m := Effect(Meaning(f.flags, f.length), Folded(h.name), h.value);
    g == f.(header := g.header, index := g.index, nread := f.nread + |Line(h)|, flags := m.flags, length := m.length)
  }

  /** A header that is followed by another line. */
  lemma HeaderEnds(f: Fields, rest: string, log: seq<Event>, skip: Fields -> bool)
    requires f.nread < MAX_HEADER_SIZE && rest != [] && !IsBlank(rest[0]) && (f.state.ValueLws? || f.state.DiscardLws?)
    ensures f.state.ValueLws? ==> RunAll(f, rest, log, skip) == RunAll(FinishHeader(f).(state := FieldStart), rest, log, skip)
    ensures f.state.DiscardLws? ==>
              RunAll(f, rest, log, skip) == RunAll(f.(state := FieldStart), rest, Append(log, Data(Value, [])), skip)
  {
    hide RunAll, Case, FinishHeader, Append;
    var f1 := f.(nread := f.nread + 1);
    FinishCounts(f);
    LineEndCase(f1, rest[0], skip);
    RunAllStep(f, rest, log, skip);
    if f.state.ValueLws? {
      var g := FinishHeader(f).(state := FieldStart);
      RunAllStep(g, rest, log, skip);
      assert FinishHeader(f1).(state := FieldStart) == g.(nread := g.nread + 1);
      assert RunByte(f, rest[0], log, skip) == RunByte(g, rest[0], log, skip);
    } else {
      var g := f.(state := FieldStart);
      var l := Append(log, Data(Value, []));
      RunAllStep(g, rest, l, skip);
      assert RunByte(f, rest[0], log, skip) == RunByte(g, rest[0], l, skip);
    }
  }

  lemma FinishCounts(f: Fields)
    ensures FinishHeader(f.(nread := f.nread + 1)) == FinishHeader(f).(nread := f.nread + 1) && FinishHeader(f).nread == f.nread
    ensures FinishHeader(f).errno == f.errno
  {
  }

  lemma LineEndCase(f: Fields, ch: char, skip: Fields -> bool)
    requires !IsBlank(ch)
    ensures f.state.ValueLws? ==> Case(f, ch, skip) == Redo(FinishHeader(f).(state := FieldStart))
    ensures f.state.DiscardLws? ==> Case(f, ch, skip) == Outcome(f.(state := FieldStart), None, Blank(Value), Again)
  {
    hide FieldStartCase, FieldCase, ValueCase, ValueStartCase, UrlCase, VersionCase, FinishHeader;
  }

  /** A header line: one field, one value, and the meaning of the line on the struct. */
  lemma LineRun(f: Fields, h: Header, rest: string, log: seq<Event>, skip: Fields -> bool) returns (g: Fields)
    requires f.state.FieldStart? && GoodHeader(h) && f.nread + |Line(h)| < MAX_HEADER_SIZE
    requires rest != [] && !IsBlank(rest[0])
    ensures g.state.FieldStart? && AfterLine(f, h, g)
    ensures RunAll(f, Line(h) + rest, log, skip) == Shift(RunAll(g, rest, HeaderLog(log, h), skip), |Line(h)|)
  {
    hide RunAll, NameState, ValueTracked, IsLength, FinishHeader;
    var l1 := Append(log, Data(Field, h.name));
    var a := NameRun(f, h.name, log, skip);
    Colon(a, log, h.name, skip);
    var b := a.(state := DiscardWs, nread := a.nread + 1);
    Compose(f, h.name, [':'], log, skip, a, l1, b, l1);
    Pad(b, h.pad, l1, skip);
    var c := b.(nread := b.nread + |h.pad|);
    Compose(f, h.name + [':'], h.pad, log, skip, b, l1, c, l1);
    var start := h.name + [':'] + h.pad;
    var d, l2 := c, l1;
    NameStateExact(Folded(h.name));
    if h.value == [] {
      EmptyValueEnd(c, l1, h.end, skip);
      d := c.(state := DiscardLws, nread := c.nread + |h.end.Text()|);
      Compose(f, start, h.end.Text(), log, skip, c, l1, d, l1);
      assert start + h.end.Text() == Line(h);
      HeaderEnds(d, rest, l1, skip);
      g := d.(state := FieldStart);
    } else {
      l2 := Append(l1, Data(Value, h.value));
      var e := ValueRun(c, h.value, l1, skip);
      Compose(f, start, h.value, log, skip, c, l1, e, l2);
      ValueEnd(e, l1, h.value, h.end, skip);
      d := e.(state := ValueLws, nread := e.nread + |h.end.Text()|);
      Compose(f, start + h.value, h.end.Text(), log, skip, e, l2, d, l2);
      HeaderEnds(d, rest, l2, skip);
      g := FinishHeader(d).(state := FieldStart);
      TrackedFinish(e, d, c.header, h.value);
      FinishMeans(e, Folded(h.name), h.value, f.flags, f.length);
      FinishOnlyFlags(d);
    }
    RunAllConcat(f, Line(h), rest, log, skip);
  }

  lemma TrackedFinish(e: Fields, d: Fields, n: HeaderState, v: string)
    requires ValueTracked(e, n, v) && d == e.(state := ValueLws, nread := d.nread)
    ensures FinishHeader(d) == d.(flags := FinishHeader(e).flags)
  {
  }

  lemma FinishOnlyFlags(f: Fields)
    ensures FinishHeader(f) == f.(flags := FinishHeader(f).flags)
  {
  }

  // ---------------------------------------------------------------- header blocks

  predicate GoodHeaders(hs: seq<Header>) {
    forall h <- hs :: GoodHeader(h)
  }

  function Lines(hs: seq<Header>): string {
    if hs == [] then [] else Line(hs[0]) + Lines(hs[1..])
  }

  function HeadersLog(log: seq<Event>, hs: seq<Header>): seq<Event>
    decreases |hs|
  {
    if hs == [] then log else HeadersLog(HeaderLog(log, hs[0]), hs[1..])
  }

  /** The flags and the length a header block means, in order. */
  function Effects(m: Meaning, hs: seq<Header>): Meaning
    requires GoodHeaders(hs)
    decreases |hs|
  {
    if hs == [] then m
    else
      assert GoodHeader(hs[0]);
      Effects(Effect(m, Folded(hs[0].name), hs[0].value), hs[1..])
  }

  /** The struct after a header block. */
  predicate AfterLines(f: Fields, hs: seq<Header>, g: Fields)
    requires GoodHeaders(hs)
  {
    var m := Effects(Meaning(f.flags, f.length), hs);
    g == f.(header := g.header, index := g.index, nread := f.nread + |Lines(hs)|, flags := m.flags, length := m.length)
  }

  lemma LineStart(h: Header)
    requires GoodHeader(h)
    ensures Line(h) != [] && !IsBlank(Line(h)[0])
  {
    assert h.name[0] in h.name;
    NewlinesAreNoTokens();
    assert Line(h)[0] == h.name[0];
  }

  /** A block of header lines before its blank line. */
  lemma {:induction false} LinesRun(f: Fields, hs: seq<Header>, rest: string, log: seq<Event>, skip: Fields -> bool) returns (g: Fields)
    requires f.state.FieldStart? && GoodHeaders(hs) && f.nread + |Lines(hs)| < MAX_HEADER_SIZE
    requires rest != [] && !IsBlank(rest[0])
    ensures g.state.FieldStart? && AfterLines(f, hs, g)
    ensures RunAll(f, Lines(hs) + rest, log, skip) == Shift(RunAll(g, rest, HeadersLog(log, hs), skip), |Lines(hs)|)
    decreases |hs|
  {
    hide RunAll, GoodHeader, Line, HeaderLog;
    if hs == [] {
      assert Lines(hs) + rest == rest;
      g := f;
    } else {
      assert GoodHeader(hs[0]);
      var more := Lines(hs[1..]) + rest;
      assert Lines(hs) + rest == Line(hs[0]) + more;
      assert !IsBlank(more[0]) by {
        if hs[1..] != [] {
          LineStart(hs[1]);
        }
      }
      var a := LineRun(f, hs[0], more, log, skip);
      g := LinesRun(a, hs[1..], rest, HeaderLog(log, hs[0]), skip);
    }
  }

  // ---------------------------------------------------------------- the end of the headers

  /** The struct the headers-complete callback sees behind a blank line, with its answer noted. */
  function Announced(f: Fields, blank: Eol, skip: Fields -> bool): Fields {
    var g := f.(state := HeadersDone, nread := f.nread + |blank.Text()|, upgrade := f.flags.upgrade || f.verb == CONNECT);
    if skip(g.(nread := 0)) then g.(flags := g.flags.(skipBody := true)) else g
  }

  /** Where the blank line leads: to a body, or to the next message. */
  function AfterBlank(f: Fields, blank: Eol, skip: Fields -> bool): Fields {
    var h := Announced(f, blank, skip);
    h.(nread := 0, state := match FramingOf(h)
                            case ChunkedBody => ChunkSizeStart
                            case Identity(_) => BodyIdentity
                            case NoBody => NewMessage(h))
  }

  function BlankLog(f: Fields, blank: Eol, log: seq<Event>, skip: Fields -> bool): seq<Event> {
    var h := Announced(f, blank, skip);
    var l := Append(log, HeadersComplete(FramingOf(h)));
    if FramingOf(h).NoBody? then Append(l, MessageComplete(KeepAlive(h))) else l
  }

  lemma BlankLine(f: Fields, blank: Eol, log: seq<Event>, skip: Fields -> bool)
    requires f.state.FieldStart? && !f.flags.trailing && f.length <= ULLONG_MAX && f.nread + |blank.Text()| <= MAX_HEADER_SIZE
    ensures RunAll(f, blank.Text(), log, skip) ==
            Run(AfterBlank(f, blank, skip), BlankLog(f, blank, log, skip), |blank.Text()|,
                if Announced(f, blank, skip).upgrade then Left else Finished)
  {
    hide RunAll, Settle, Case, AfterBlank, BlankLog, Announced, IsToken, Token;
    if blank.CrLf? {
      var a := f.(state := HeadersAlmostDone, nread := f.nread + 1);
      CaseIsHeader(f.(nread := f.nread + 1), CR, skip);
      OneByte(f, CR, log, skip);
      BlankLineFeed(f, a.(nread := a.nread + 1), CrLf, log, skip);
      SingleByte(a, LF, log, skip);
      assert CRLF == [CR] + [LF];
      RunAllConcat(f, [CR], [LF], log, skip);
    } else {
      var c := f.(nread := f.nread + 1);
      CaseIsHeader(c, LF, skip);
      BlankLineFeed(f, c.(state := HeadersAlmostDone), BareLf, log, skip);
      RedoThen(c, LF, c.(state := HeadersAlmostDone), log, skip);
      SingleByte(f, LF, log, skip);
    }
  }

  lemma RedoThen(c: Fields, ch: char, mid: Fields, log: seq<Event>, skip: Fields -> bool)
    requires Case(c, ch, skip) == Redo(mid)
    ensures Settle(c, ch, log, skip) == Settle(mid, ch, log, skip)
  {
    hide Case;
    AgainLowersRank(c, ch, skip);
  }

  /** The two case bodies run on the line feed of the blank line. */
  lemma BlankLineFeed(f: Fields, b: Fields, blank: Eol, log: seq<Event>, skip: Fields -> bool)
    requires b == f.(state := HeadersAlmostDone, nread := f.nread + |blank.Text()|)
    requires f.state.FieldStart? && !f.flags.trailing && f.length <= ULLONG_MAX
    ensures Settle(b, LF, log, skip) ==
            Run(AfterBlank(f, blank, skip), BlankLog(f, blank, log, skip), 1, if Announced(f, blank, skip).upgrade then Left else Finished)
  {
    hide HeaderCase, UrlCase, VersionCase, StartCase, MethodCase, ChunkCase, BodyCase, KeepAlive, Append;
    var h := HeadersCase(b, LF, skip).f;
    assert Settle(h, LF, Append(log, HeadersComplete(FramingOf(h))), skip).used == 1;
  }

  // ---------------------------------------------------------------- request lines

  /** The state a URL leaves, starting from `s`. */
  function UrlState(s: State, url: string): State {
    if url == [] then s else ParseUrlChar(UrlState(s, url[..|url| - 1]), url[|url| - 1])
  }

  predicate GoodUrl(m: Method, url: string) {
    |url| > 0 && UrlMayEnd(UrlState(UrlEntry(m), url))
  }

  lemma LiveUrlByte(s: State, ch: char)
    requires ParseUrlChar(s, ch) != Dead
    ensures s != Dead && ch != ' ' && ch != CR && ch != LF
    ensures s == SpacesBeforeUrl || InUrl(s)
  {
  }

  lemma UrlByteRun(f: Fields, ch: char, log: seq<Event>, skip: Fields -> bool)
    requires InUrl(f.state) || f.state.SpacesBeforeUrl?
    requires ch != ' ' && ch != CR && ch != LF
    ensures Case(f, ch, skip) == UrlByte(f, if f.state.SpacesBeforeUrl? then UrlEntry(f.verb) else f.state, ch)
  {
    hide UrlByte, HeaderCase, VersionCase;
  }

  lemma {:induction false} UrlRun(f: Fields, url: string, log: seq<Event>, skip: Fields -> bool)
    requires f.state.SpacesBeforeUrl? && |url| > 0 && UrlState(UrlEntry(f.verb), url) != Dead
    requires f.nread + |url| <= MAX_HEADER_SIZE
    ensures Takes(f, url, log, skip, f.(state := UrlState(UrlEntry(f.verb), url), nread := f.nread + |url|), Append(log, Data(Url, url)))
    ensures InUrl(UrlState(UrlEntry(f.verb), url))
    decreases |url|
  {
    hide Takes, Case, ParseUrlChar, UrlState;
    hide UrlEntry, InUrl, Append, ParsingHeader;
    var n := |url| - 1;
    var from := UrlState(UrlEntry(f.verb), url[..n]);
    UrlStateLast(UrlEntry(f.verb), url);
    LiveUrlByte(from, url[n]);
    UrlStaysInUrl(from, url[n]);
    if n == 0 {
      assert url[..0] == [] && url == [url[0]];
      NoUrlYet(UrlEntry(f.verb));
      NextUrlByte(f, f.state, UrlEntry(f.verb), url[0], log, skip);
      OneByte(f, url[0], log, skip);
    } else {
      UrlRun(f, url[..n], log, skip);
      var g := f.(state := from, nread := f.nread + n);
      InUrlCounts(from);
      NextUrlByte(g, from, from, url[n], log, skip);
      MoreBytes(f, url, log, skip, g, Append(log, Data(Url, url[..n])));
      AppendTwice(log, Url, url[..n], [url[n]]);
      assert url[..n] + [url[n]] == url;
    }
  }

  lemma InUrlCounts(s: State)
    requires InUrl(s)
    ensures ParsingHeader(s) && !s.SpacesBeforeUrl?
  {
  }

  /** A byte the URL machine takes is kept as URL data. */
  lemma NextUrlByte(g: Fields, s: State, from: State, ch: char, log: seq<Event>, skip: Fields -> bool)
    requires s == g.state && (InUrl(s) || s.SpacesBeforeUrl?) && from == if s.SpacesBeforeUrl? then UrlEntry(g.verb) else s
    requires ch != ' ' && ch != CR && ch != LF && ParseUrlChar(from, ch) != Dead
    ensures Case(g.(nread := g.nread + 1), ch, skip) == Keep(g.(nread := g.nread + 1, state := ParseUrlChar(from, ch)), Url)
    ensures ParsingHeader(s)
  {
    hide Case, ParseUrlChar;
    UrlByteRun(g.(nread := g.nread + 1), ch, log, skip);
  }

  lemma UrlStateLast(s: State, url: string)
    requires |url| > 0
    ensures UrlState(s, url) == ParseUrlChar(UrlState(s, url[..|url| - 1]), url[|url| - 1])
  {
    hide ParseUrlChar;
  }

  lemma NoUrlYet(s: State)
    ensures UrlState(s, []) == s
  {
  }

  lemma UrlStaysInUrl(s: State, ch: char)
    requires ParseUrlChar(s, ch) != Dead
    ensures InUrl(ParseUrlChar(s, ch))
  {
  }

  lemma VersionByte(f: Fields, ch: char, log: seq<Event>, skip: Fields -> bool)
    requires InVersion(f.state) && f.nread < MAX_HEADER_SIZE
    requires var o := VersionCase(f.(nread := f.nread + 1), ch); o == Go(o.f)
    ensures Takes(f, [ch], log, skip, VersionCase(f.(nread := f.nread + 1), ch).f, log)
  {
    hide Takes, VersionCase, UrlCase, HeaderCase;
    OneByte(f, ch, log, skip);
  }

  function Version(major: char, minor: char, end: Eol): (s: string)
    ensures |s| == 8 + |end.Text()|
  {
    "HTTP/" + [major, '.', minor] + end.Text()
  }

  /** The struct at the end of a request line with that version. */
  function AfterVersion(f: Fields, major: char, minor: char, end: Eol): Fields
    requires IsNum(major) && IsNum(minor)
  {
    f.(state := FieldStart, major := DigitValue(major), minor := DigitValue(minor), nread := f.nread + 8 + |end.Text()|)
  }

  /** A version after the URL, up to the end of the request line. */
  lemma VersionRun(f: Fields, major: char, minor: char, end: Eol, log: seq<Event>, skip: Fields -> bool)
    requires f.state.HttpStart? && '1' <= major <= '9' && IsNum(minor) && f.nread + 8 + |end.Text()| <= MAX_HEADER_SIZE
    ensures Takes(f, Version(major, minor, end), log, skip, AfterVersion(f, major, minor, end), log)
  {
    hide Takes;
    var n := f.nread;
    var h5 := f.(state := FirstMajor, nread := n + 5);
    HttpSlash(f, log, skip);
    var h6 := h5.(state := Major, major := DigitValue(major), nread := n + 6);
    VersionByte(h5, major, log, skip);
    Compose(f, "HTTP/", [major], log, skip, h5, log, h6, log);
    var h7 := h6.(state := FirstMinor, nread := n + 7);
    VersionByte(h6, '.', log, skip);
    Compose(f, "HTTP/" + [major], ['.'], log, skip, h6, log, h7, log);
    var h8 := h7.(state := Minor, minor := DigitValue(minor), nread := n + 8);
    VersionByte(h7, minor, log, skip);
    Compose(f, "HTTP/" + [major] + ['.'], [minor], log, skip, h7, log, h8, log);
    var text := "HTTP/" + [major] + ['.'] + [minor];
    assert text == "HTTP/" + [major, '.', minor];
    LineEndRun(h8, end, log, skip);
    Compose(f, text, end.Text(), log, skip, h8, log, h8.(state := FieldStart, nread := h8.nread + |end.Text()|), log);
  }

  /** The end of the request line. */
  lemma LineEndRun(f: Fields, end: Eol, log: seq<Event>, skip: Fields -> bool)
    requires f.state.Minor? && f.nread + |end.Text()| <= MAX_HEADER_SIZE
    ensures Takes(f, end.Text(), log, skip, f.(state := FieldStart, nread := f.nread + |end.Text()|), log)
  {
    hide Takes;
    if end.CrLf? {
      var g := f.(state := LineAlmostDone, nread := f.nread + 1);
      VersionByte(f, CR, log, skip);
      VersionByte(g, LF, log, skip);
      Compose(f, [CR], [LF], log, skip, g, log, g.(state := FieldStart, nread := g.nread + 1), log);
      assert [CR] + [LF] == CRLF;
    } else {
      VersionByte(f, LF, log, skip);
    }
  }

  lemma HttpSlash(f: Fields, log: seq<Event>, skip: Fields -> bool)
    requires f.state.HttpStart? && f.nread + 5 <= MAX_HEADER_SIZE
    ensures Takes(f, "HTTP/", log, skip, f.(state := FirstMajor, nread := f.nread + 5), log)
  {
    hide Takes;
    var n := f.nread;
    var h1 := f.(state := HttpH, nread := n + 1);
    VersionByte(f, 'H', log, skip);
    var h2 := h1.(state := HttpHT, nread := n + 2);
    VersionByte(h1, 'T', log, skip);
    Compose(f, "H", "T", log, skip, h1, log, h2, log);
    var h3 := h2.(state := HttpHTT, nread := n + 3);
    VersionByte(h2, 'T', log, skip);
    Compose(f, "H" + "T", "T", log, skip, h2, log, h3, log);
    var h4 := h3.(state := HttpHTTP, nread := n + 4);
    VersionByte(h3, 'P', log, skip);
    Compose(f, "H" + "T" + "T", "P", log, skip, h3, log, h4, log);
    var h5 := h4.(state := FirstMajor, nread := n + 5);
    VersionByte(h4, '/', log, skip);
    Compose(f, "H" + "T" + "T" + "P", "/", log, skip, h4, log, h5, log);
    assert "H" + "T" + "T" + "P" + "/" == "HTTP/";
  }

  lemma UrlEnd(f: Fields, log: seq<Event>, url: string, skip: Fields -> bool)
    requires UrlMayEnd(f.state) && f.nread < MAX_HEADER_SIZE
    ensures Takes(f, [' '], Append(log, Data(Url, url)), skip, f.(state := HttpStart, nread := f.nread + 1), Append(log, Data(Url, url)))
  {
    hide Takes, Case;
    BlankAfterUrl(f.(nread := f.nread + 1), skip);
    OneByte(f, ' ', Append(log, Data(Url, url)), skip);
    AppendTwice(log, Url, url, []);
    assert url + [] == url;
  }

  lemma BlankAfterUrl(f: Fields, skip: Fields -> bool)
    requires UrlMayEnd(f.state)
    ensures Case(f, ' ', skip) == Outcome(f.(state := HttpStart), None, Flush(Url), Advance)
  {
    hide UrlByte, HeaderCase, VersionCase;
  }
}
