/** What the parser lets a client get away with besides the requests of `HttpRoundTrip`, and, state
    by state, exactly which bytes it refuses and with which error. */
module HttpLoose {
  import opened HttpChars
  import opened HttpParser
  import opened HttpInvariant
  import opened HttpRuns
  import opened HttpSegments
  import opened HttpHeaders
  import opened HttpMessages
  import opened HttpAlphabet

  // ---------------------------------------------------------------- blanks and empty lines

  lemma LeadCase(f: Fields, ch: char, skip: Fields -> bool)
    requires ch == CR || ch == LF
    ensures f.state.StartReq? || f.state.Dead? ==> Case(f, ch, skip) == Go(f)
  {
  }

  lemma NothingTaken(f: Fields, log: seq<Event>, skip: Fields -> bool)
    ensures Takes(f, "", log, skip, f.(nread := f.nread + 0), log)
  {
  }

  lemma StillCounted(f: Fields, n: nat)
    requires f.state.StartReq? || f.state.Dead? || f.state.SpacesBeforeUrl? || f.state.HttpStart?
    ensures ParsingHeader(f.(nread := f.nread + n).state)
  {
  }

  /** Line ends between messages are skipped, on an open connection and on one that is to be closed. */
  lemma {:induction false} LeadRun(f: Fields, s: string, log: seq<Event>, skip: Fields -> bool)
    requires (f.state.StartReq? || f.state.Dead?) && (forall c <- s :: c == '\r' || c == '\n') && f.nread + |s| <= MAX_HEADER_SIZE
    ensures Takes(f, s, log, skip, f.(nread := f.nread + |s|), log)
    decreases |s|
  {
    hide Takes, Case;
    var n := |s| - 1;
    if s == [] {
      NothingTaken(f, log, skip);
      assert s == "";
    } else {
      assert s[n] in s && forall c <- s[..n] :: c in s;
      LeadRun(f, s[..n], log, skip);
      LeadCase(f.(nread := f.nread + n + 1), s[n], skip);
      StillCounted(f, n);
      MoreBytes(f, s, log, skip, f.(nread := f.nread + n), log);
    }
  }

  /** On a connection that is to be closed everything else is an error. */
  lemma ClosedRefuses(f: Fields, ch: char, rest: string, log: seq<Event>, skip: Fields -> bool)
    requires f.state.Dead? && ch != '\r' && ch != '\n' && f.nread < MAX_HEADER_SIZE
    ensures RunAll(f, [ch] + rest, log, skip) == Run(f.(nread := f.nread + 1, errno := ClosedConnection), log, 0, Failed)
  {
    assert ([ch] + rest)[0] == ch;
  }

  lemma GapCase(f: Fields, skip: Fields -> bool)
    ensures f.state.SpacesBeforeUrl? || f.state.HttpStart? ==> Case(f, ' ', skip) == Go(f)
  {
    hide HeaderCase;
  }

  /** More blanks before the URL, or before the version, do not matter. */
  lemma {:induction false} GapRun(f: Fields, s: string, log: seq<Event>, skip: Fields -> bool)
    requires (f.state.SpacesBeforeUrl? || f.state.HttpStart?) && (forall c <- s :: c == ' ') && f.nread + |s| <= MAX_HEADER_SIZE
    ensures Takes(f, s, log, skip, f.(nread := f.nread + |s|), log)
    decreases |s|
  {
    hide Takes, Case;
    var n := |s| - 1;
    if s == [] {
      NothingTaken(f, log, skip);
      assert s == "";
    } else {
      assert s[n] in s && forall c <- s[..n] :: c in s;
      GapRun(f, s[..n], log, skip);
      GapCase(f.(nread := f.nread + n + 1), skip);
      StillCounted(f, n);
      MoreBytes(f, s, log, skip, f.(nread := f.nread + n), log);
    }
  }

  // ---------------------------------------------------------------- bodies that are not there

  /** When `on_headers_complete` returns 1 the message has no body, whatever its headers say: it is complete at the blank line. */
  lemma SkippedBody(f: Fields, blank: Eol, log: seq<Event>, skip: Fields -> bool)
    requires f.state.FieldStart? && !f.flags.trailing && f.length <= ULLONG_MAX && f.nread + |blank.Text()| <= MAX_HEADER_SIZE
    requires !f.flags.upgrade && f.verb != CONNECT && forall g :: skip(g)
    ensures var q := RunAll(f, blank.Text(), log, skip);
            && q.end == Finished && q.used == |blank.Text()| && q.f.state == (if KeepAlive(f) then StartReq else Dead)
            && q.log == Append(Append(log, HeadersComplete(NoBody)), MessageComplete(KeepAlive(f)))
  {
    hide RunAll, Append;
    BlankLine(f, blank, log, skip);
  }

  // ---------------------------------------------------------------- versions

  /** The bytes of a number, and that no part of it is above 999. */
  predicate SmallNumber(v: string) {
    |v| > 0 && (forall i | 0 <= i < |v| :: Digit(v[i])) && DecimalOf(v) <= 999
  }

  lemma SmallPrefix(v: string, n: nat)
    requires 0 < n < |v| && SmallNumber(v)
    ensures SmallNumber(v[..n]) && 10 * DecimalOf(v[..n]) <= DecimalOf(v)
    decreases |v|
  {
    hide Digit;
    var m := |v| - 1;
    LastDigit(v);
    if n < m {
      SmallPrefix(v[..m], n);
      assert v[..m][..n] == v[..n];
    }
  }

  lemma LastDigit(v: string)
    requires SmallNumber(v)
    ensures IsNum(v[|v| - 1]) && DecimalOf(v) == 10 * DecimalOf(v[..|v| - 1]) + DigitValue(v[|v| - 1])
    ensures |v| > 1 ==> SmallNumber(v[..|v| - 1])
    ensures |v| == 1 ==> DecimalOf(v) == DigitValue(v[0])
  {
  }

  /** The major version may have several digits, the first of them not 0. */
  lemma {:induction false} MajorRun(f: Fields, v: string, log: seq<Event>, skip: Fields -> bool)
    requires f.state.FirstMajor? && SmallNumber(v) && v[0] != '0' && f.nread + |v| <= MAX_HEADER_SIZE
    ensures Takes(f, v, log, skip, f.(state := Major, major := DecimalOf(v), nread := f.nread + |v|), log)
    decreases |v|
  {
    hide Takes, DecimalOf;
    var n := |v| - 1;
    LastDigit(v);
    if n == 0 {
      assert v == [v[0]];
      VersionByte(f, v[0], log, skip);
    } else {
      MajorRun(f, v[..n], log, skip);
      var g := f.(state := Major, major := DecimalOf(v[..n]), nread := f.nread + n);
      VersionByte(g, v[n], log, skip);
      assert v[..n] + [v[n]] == v;
      Compose(f, v[..n], [v[n]], log, skip, g, log, f.(state := Major, major := DecimalOf(v), nread := f.nread + |v|), log);
    }
  }

  /** So may the minor one. */
  lemma {:induction false} MinorRun(f: Fields, v: string, log: seq<Event>, skip: Fields -> bool)
    requires f.state.FirstMinor? && SmallNumber(v) && f.nread + |v| <= MAX_HEADER_SIZE
    ensures Takes(f, v, log, skip, f.(state := Minor, minor := DecimalOf(v), nread := f.nread + |v|), log)
    decreases |v|
  {
    hide Takes, DecimalOf;
    var n := |v| - 1;
    LastDigit(v);
    if n == 0 {
      assert v == [v[0]];
      VersionByte(f, v[0], log, skip);
    } else {
      MinorRun(f, v[..n], log, skip);
      var g := f.(state := Minor, minor := DecimalOf(v[..n]), nread := f.nread + n);
      VersionByte(g, v[n], log, skip);
      assert v[..n] + [v[n]] == v;
      Compose(f, v[..n], [v[n]], log, skip, g, log, f.(state := Minor, minor := DecimalOf(v), nread := f.nread + |v|), log);
    }
  }

  /** A version of any size, as far as both numbers stay below 1000. */
  lemma LongVersionRun(f: Fields, major: string, minor: string, end: Eol, log: seq<Event>, skip: Fields -> bool)
    requires f.state.HttpStart? && SmallNumber(major) && major[0] != '0' && SmallNumber(minor)
    requires f.nread + 6 + |major| + |minor| + |end.Text()| <= MAX_HEADER_SIZE
    ensures var text := "HTTP/" + major + "." + minor + end.Text();
            Takes(f, text, log, skip, f.(state := FieldStart, major := DecimalOf(major), minor := DecimalOf(minor), nread := f.nread + |text|), log)
  {
    hide Takes, DecimalOf, SmallNumber, Eol.Text;
    var n := f.nread;
    HttpSlash(f, log, skip);
    var a := f.(state := FirstMajor, nread := n + 5);
    MajorRun(a, major, log, skip);
    var b := a.(state := Major, major := DecimalOf(major), nread := a.nread + |major|);
    Compose(f, "HTTP/", major, log, skip, a, log, b, log);
    VersionByte(b, '.', log, skip);
    var c := b.(state := FirstMinor, nread := b.nread + 1);
    Compose(f, "HTTP/" + major, ".", log, skip, b, log, c, log);
    MinorRun(c, minor, log, skip);
    var d := c.(state := Minor, minor := DecimalOf(minor), nread := c.nread + |minor|);
    Compose(f, "HTTP/" + major + ".", minor, log, skip, c, log, d, log);
    LineEndRun(d, end, log, skip);
    Compose(f, "HTTP/" + major + "." + minor, end.Text(), log, skip, d, log, d.(state := FieldStart, nread := d.nread + |end.Text()|), log);
  }

  /** A request line that ends behind its URL is one of HTTP/0.9; header lines may still follow. */
  lemma SimpleLineEnd(f: Fields, url: string, end: Eol, log: seq<Event>, skip: Fields -> bool)
    requires UrlMayEnd(f.state) && f.nread + |end.Text()| <= MAX_HEADER_SIZE
    ensures Takes(f, end.Text(), Append(log, Data(Url, url)), skip,
                  f.(state := FieldStart, major := 0, minor := 9, nread := f.nread + |end.Text()|), Append(log, Data(Url, url)))
  {
    hide Takes, Case;
    var l := Append(log, Data(Url, url));
    AppendTwice(log, Url, url, []);
    assert url + [] == url;
    SimpleEnd(f.(nread := f.nread + 1), skip);
    if end.CrLf? {
      var g := f.(state := LineAlmostDone, major := 0, minor := 9, nread := f.nread + 1);
      OneByte(f, CR, l, skip);
      AfterSimple(g, l, skip);
      Compose(f, [CR], [LF], l, skip, g, l, g.(state := FieldStart, nread := g.nread + 1), l);
      assert [CR] + [LF] == CRLF;
    } else {
      OneByte(f, LF, l, skip);
    }
  }

  lemma SimpleEnd(f: Fields, skip: Fields -> bool)
    requires UrlMayEnd(f.state)
    ensures Case(f, CR, skip) == Outcome(f.(major := 0, minor := 9, state := LineAlmostDone), None, Flush(Url), Advance)
    ensures Case(f, LF, skip) == Outcome(f.(major := 0, minor := 9, state := FieldStart), None, Flush(Url), Advance)
  {
    hide UrlByte, HeaderCase, VersionCase;
  }

  lemma AfterSimple(g: Fields, log: seq<Event>, skip: Fields -> bool)
    requires g.state.LineAlmostDone? && g.nread < MAX_HEADER_SIZE
    ensures Takes(g, [LF], log, skip, g.(state := FieldStart, nread := g.nread + 1), log)
  {
    hide Takes;
    VersionByte(g, LF, log, skip);
  }

  // ---------------------------------------------------------------- folded lines

  /** A value may start on the next line. */
  lemma ValueBelow(f: Fields, blank: char, log: seq<Event>, skip: Fields -> bool)
    requires f.state.DiscardLws? && (blank == ' ' || blank == '\t') && f.nread < MAX_HEADER_SIZE
    ensures Takes(f, [blank], log, skip, f.(state := DiscardWs, nread := f.nread + 1), log)
  {
    hide Takes, Case;
    BlankBelow(f.(nread := f.nread + 1), blank, skip);
    OneByte(f, blank, log, skip);
  }

  lemma BlankBelow(f: Fields, blank: char, skip: Fields -> bool)
    requires blank == ' ' || blank == '\t'
    ensures f.state.DiscardLws? ==> Case(f, blank, skip) == Go(f.(state := DiscardWs))
    ensures f.state.ValueLws? ==> Case(f, blank, skip) == Redo(f.(state := ValueStart))
    ensures f.state.ValueStart? ==> Case(f, blank, skip) == ValueStartCase(f, blank)
  {
    hide FieldStartCase, FieldCase, ValueCase, ValueStartCase, UrlCase, VersionCase, FinishHeader;
  }

  /** The struct inside a value that is continued. */
  function Continued(f: Fields, n: nat): Fields {
    f.(state := HeaderValue, header := HeaderState.General, index := 0, nread := f.nread + n)
  }

  lemma FoldStart(f: Fields, blank: char, log: seq<Event>, skip: Fields -> bool)
    requires f.state.ValueLws? && (blank == ' ' || blank == '\t') && f.nread < MAX_HEADER_SIZE
    requires !f.header.Upgrade? && !f.header.ContentLength?
    ensures Takes(f, [blank], log, skip, Continued(f, 1), Append(log, Data(Value, [blank])))
  {
    hide Takes, Case, Append;
    var c := f.(nread := f.nread + 1);
    var mid := c.(state := ValueStart);
    BlankBelow(c, blank, skip);
    BlankBelow(mid, blank, skip);
    AgainThenOn(f, blank, log, skip, mid, log);
  }

  /** A line that begins with a blank continues the value: the line end is dropped, the blanks stay, and whatever the
      value meant so far is forgotten. */
  lemma {:induction false} FoldRun(f: Fields, s: string, log: seq<Event>, skip: Fields -> bool)
    requires f.state.ValueLws? && s != "" && (s[0] == ' ' || s[0] == '\t') && AllText(s) && f.nread + |s| <= MAX_HEADER_SIZE
    requires !f.header.Upgrade? && !f.header.ContentLength?
    ensures Takes(f, s, log, skip, Continued(f, |s|), Append(log, Data(Value, s)))
    decreases |s|
  {
    hide Takes, Case, Append;
    var n := |s| - 1;
    if n == 0 {
      assert s == [s[0]];
      FoldStart(f, s[0], log, skip);
    } else {
      assert s[n] in s && forall c <- s[..n] :: c in s;
      FoldRun(f, s[..n], log, skip);
      var g := Continued(f, n);
      CaseIsHeader(g.(nread := g.nread + 1), s[n], skip);
      GeneralByte(g.(nread := g.nread + 1), s[n]);
      MoreBytes(f, s, log, skip, g, Append(log, Data(Value, s[..n])));
      AppendTwice(log, Value, s[..n], [s[n]]);
      assert s[..n] + [s[n]] == s;
    }
  }

  lemma GeneralByte(f: Fields, ch: char)
    requires f.header.General? && ch != CR && ch != LF
    ensures ValueCase(f, ch) == Keep(f, Value)
  {
  }

  /** A length cannot be continued. */
  lemma LengthFoldRefused(f: Fields, blank: char, rest: string, log: seq<Event>, skip: Fields -> bool)
    requires f.state.ValueLws? && f.header.ContentLength? && (blank == ' ' || blank == '\t') && f.nread < MAX_HEADER_SIZE
    ensures var q := RunAll(f, [blank] + rest, log, skip); q.end == Failed && q.f.errno == InvalidContentLength && q.log == log
  {
    hide Case;
    var c := f.(nread := f.nread + 1);
    var mid := c.(state := ValueStart);
    BlankBelow(c, blank, skip);
    BlankBelow(mid, blank, skip);
    assert ([blank] + rest)[0] == blank;
    assert Settle(mid, blank, log, skip).end == Failed;
  }

  // ---------------------------------------------------------------- refused bytes

  predicate LineByte(ch: char) {
    ch == '\r' || ch == '\n'
  }

  predicate AuthorityByte(ch: char) {
    UserinfoByte(ch) || ch in "/?@[]"
  }

  predicate HexByte(ch: char) {
    Digit(ch) || 'a' <= ch <= 'f' || 'A' <= ch <= 'F'
  }

  /** The bytes that are not refused in the request line. */
  predicate LineAccepts(f: Fields, ch: char)
    requires f.state.Dead? || f.state.StartReq? || f.state.SpacesBeforeUrl? || InUrl(f.state) || InVersion(f.state)
  {
    match f.state
    case Dead => LineByte(ch)
    case StartReq => LineByte(ch) || ch in "CDGHLMNOPRSTU"
    case SpacesBeforeUrl => ch == ' ' || if f.verb == CONNECT then AuthorityByte(ch) else Letter(ch) || ch == '/' || ch == '*'
    case Schema => Letter(ch) || ch == ':'
    case SchemaSlash => ch == '/'
    case SchemaSlashSlash => ch == '/'
    case ServerStart => AuthorityByte(ch)
    case Server => AuthorityByte(ch) || ch == ' ' || LineByte(ch)
    case ServerWithAt => (AuthorityByte(ch) && ch != '@') || ch == ' ' || LineByte(ch)
    case HttpStart => ch == 'H' || ch == ' '
    case HttpH => ch == 'T'
    case HttpHT => ch == 'T'
    case HttpHTT => ch == 'P'
    case HttpHTTP => ch == '/'
    case FirstMajor => '1' <= ch <= '9'
    case Major => ch == '.' || (Digit(ch) && 10 * f.major + (ch as int - 48) < 1000)
    case FirstMinor => Digit(ch)
    case Minor => LineByte(ch) || (Digit(ch) && 10 * f.minor + (ch as int - 48) < 1000)
    case LineAlmostDone => ch == '\n'
    case _ => Visible(ch) || ch == ' ' || LineByte(ch)
  }

  function LineError(s: State): Errno {
    if s.Dead? then ClosedConnection
    else if s.StartReq? then InvalidMethod
    else if s.HttpStart? then InvalidConstant
    else if s.HttpH? || s.HttpHT? || s.HttpHTT? || s.HttpHTTP? then Strict
    else if s.LineAlmostDone? then LfExpected
    else if InVersion(s) then InvalidVersion
    else InvalidUrl
  }

  /** In the request line a byte is refused exactly if it is none of those, with the error of its place. */
  lemma LineRefuses(f: Fields, ch: char, skip: Fields -> bool)
    requires f.state.Dead? || f.state.StartReq? || f.state.SpacesBeforeUrl? || InUrl(f.state) || InVersion(f.state)
    ensures var c := Case(f, ch, skip).control;
            if LineAccepts(f, ch) then !c.Fail? else c == Fail(LineError(f.state))
  {
    hide HeaderCase, UrlCase, VersionCase, StartCase, LineAccepts;
    if InVersion(f.state) {
      VersionRefuses(f, ch);
    } else if f.state.SpacesBeforeUrl? || InUrl(f.state) {
      UrlRefuses(f, ch);
    } else {
      StartRefuses(f, ch);
    }
  }

  lemma StartRefuses(f: Fields, ch: char)
    requires f.state.Dead? || f.state.StartReq?
    ensures f.state.Dead? ==> (LineAccepts(f, ch) <==> ch == CR || ch == LF)
    ensures f.state.StartReq? ==>
              var c := StartCase(f, ch).control;
              if LineAccepts(f, ch) then !c.Fail? else c == Fail(InvalidMethod)
  {
    hide IsAlpha, Letter;
    ClassesExact(ch);
    CapitalsAreLetters(ch);
  }

  lemma CapitalsAreLetters(ch: char)
    ensures ch in "CDGHLMNOPRSTU" ==> Letter(ch)
  {
  }

  lemma BlanksAreNone(ch: char)
    ensures ch == ' ' || ch == CR || ch == LF || ch == '\t' || ch == 12 as char ==> !UserinfoByte(ch) && !Visible(ch) && !Letter(ch)
    ensures Visible('#') && Visible('?')
    ensures AuthorityByte(ch) || Letter(ch) ==> Visible(ch)
  {
  }

  lemma VersionRefuses(f: Fields, ch: char)
    requires InVersion(f.state)
    ensures var c := VersionCase(f, ch).control;
            if LineAccepts(f, ch) then !c.Fail? else c == Fail(LineError(f.state))
  {
  }

  lemma UrlRefuses(f: Fields, ch: char)
    requires f.state.SpacesBeforeUrl? || InUrl(f.state)
    ensures var c := UrlCase(f, ch).control;
            if LineAccepts(f, ch) then !c.Fail? else c == Fail(InvalidUrl)
  {
    hide ParseUrlChar, Visible, AuthorityByte, Letter;
    BlanksAreNone(ch);
    if f.state.SpacesBeforeUrl? && f.verb == CONNECT {
      NextRefuses(ServerStart, ch);
    } else {
      NextRefuses(f.state, ch);
    }
  }

  /** The bytes after which the URL goes on. */
  predicate UrlAccepts(s: State, ch: char) {
    if s.SpacesBeforeUrl? then Letter(ch) || ch == '/' || ch == '*'
    else if s.Schema? then Letter(ch) || ch == ':'
    else if s.SchemaSlash? || s.SchemaSlashSlash? then ch == '/'
    else if s.ServerStart? || s.Server? then AuthorityByte(ch)
    else if s.ServerWithAt? then AuthorityByte(ch) && ch != '@'
    else Visible(ch)
  }

  lemma NextRefuses(s: State, ch: char)
    requires s.SpacesBeforeUrl? || InUrl(s)
    ensures ParseUrlChar(s, ch) == Dead <==> !UrlAccepts(s, ch)
  {
    hide ParseUrlChar, UrlAccepts;
    if s.Path? || s.QueryStart? || s.Query? || s.FragmentStart? || s.Fragment? {
      TailRefuses(s, ch);
    } else {
      FrontRefuses(s, ch);
    }
  }

  lemma FrontRefuses(s: State, ch: char)
    requires s.SpacesBeforeUrl? || s.Schema? || s.SchemaSlash? || s.SchemaSlashSlash? || s.ServerStart? || s.Server? || s.ServerWithAt?
    ensures ParseUrlChar(s, ch) == Dead <==> !UrlAccepts(s, ch)
  {
    hide IsUserinfoChar, IsUrlChar, IsAlpha, UserinfoByte, Visible, Letter, Digit;
    ClassesExact(ch);
    BlanksAreNone(ch);
  }

  lemma TailRefuses(s: State, ch: char)
    requires s.Path? || s.QueryStart? || s.Query? || s.FragmentStart? || s.Fragment?
    ensures ParseUrlChar(s, ch) == Dead <==> !UrlAccepts(s, ch)
  {
    hide IsUserinfoChar, IsUrlChar, IsAlpha, UserinfoByte, Visible, Letter, Digit;
    ClassesExact(ch);
    BlanksAreNone(ch);
  }

  /** The bytes that are not refused in a header block and behind it. */
  predicate BlockAccepts(f: Fields, ch: char)
    requires InHeader(f.state) || f.state.HeadersAlmostDone? || f.state.HeadersDone?
  {
    match f.state
    case FieldStart => LineByte(ch) || Tchar(ch)
    case HeaderField => LineByte(ch) || Tchar(ch) || ch == ':'
    case DiscardWs => f.header != HeaderState.ContentLength || ch == ' ' || ch == '\t' || LineByte(ch) || Digit(ch)
    case ValueStart => f.header != HeaderState.ContentLength || Digit(ch)
    case HeaderValue =>
      f.header != HeaderState.ContentLength || ch == ' ' || LineByte(ch) || (Digit(ch) && f.length <= 1844674407370955160)
    case DiscardLws => true
    case ValueLws => true
    case _ => ch == '\n'
  }

  function BlockError(s: State): Errno {
    if s.FieldStart? || s.HeaderField? then InvalidHeaderToken
    else if s.DiscardWs? || s.ValueStart? || s.HeaderValue? then InvalidContentLength
    else Strict
  }

  /** In the header block a byte is refused exactly if it is none of those, with the error of its place. */
  lemma BlockRefuses(f: Fields, ch: char, skip: Fields -> bool)
    requires InHeader(f.state) || f.state.HeadersAlmostDone? || f.state.HeadersDone?
    ensures var c := Case(f, ch, skip).control;
            if BlockAccepts(f, ch) then !c.Fail? else c == Fail(BlockError(f.state))
  {
    hide IsToken, Tchar, Token, FieldByte, ValueByte, FinishHeader, Lower, UrlCase, VersionCase;
    ClassesExact(ch);
    NoTokenEnds(ch);
  }

  lemma NoTokenEnds(ch: char)
    ensures LineByte(ch) || ch == ':' || ch == ' ' || ch == '\t' ==> !Tchar(ch)
  {
  }

  /** The bytes that are not refused in a body. */
  predicate BodyAccepts(f: Fields, ch: char)
    requires InChunkSize(f.state) || f.state.ChunkDataAlmostDone? || f.state.ChunkDataDone?
  {
    match f.state
    case ChunkSizeStart => HexByte(ch) || ch as int >= 128
    case ChunkSize => ch == '\r' || ch == ';' || ch == ' ' || ((HexByte(ch) || ch as int >= 128) && f.length <= 1152921504606846974)
    case ChunkParameters => true
    case ChunkDataAlmostDone => ch == '\r'
    case _ => ch == '\n'
  }

  function BodyError(f: Fields, ch: char): Errno {
    if f.state.ChunkSizeStart? then InvalidChunkSize
    else if f.state.ChunkSize? then if HexByte(ch) || ch as int >= 128 then InvalidContentLength else InvalidChunkSize
    else Strict
  }

  /** Between the chunks a byte is refused exactly if it is none of those, with the error of its place; the table of
      digits has zeros where it should say "none", so bytes from 128 on pass. */
  lemma BodyRefuses(f: Fields, ch: char, skip: Fields -> bool)
    requires InChunkSize(f.state) || f.state.ChunkDataAlmostDone? || f.state.ChunkDataDone?
    ensures var c := Case(f, ch, skip).control;
            if BodyAccepts(f, ch) then !c.Fail? else c == Fail(BodyError(f, ch))
  {
    hide UrlCase, VersionCase, HeaderCase;
  }
}
