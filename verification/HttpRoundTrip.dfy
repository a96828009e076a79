/** Writing a request and parsing it back, in one piece or in any fragments. */
module HttpRoundTrip {
  import opened HttpChars
  import opened HttpParser
  import opened HttpInvariant
  import opened HttpRuns
  import opened HttpExecute
  import opened HttpSession
  import opened HttpSegments
  import opened HttpHeaders
  import opened HttpMessages
  import opened HttpBodies

  /** A request; `end` ends its first line and `blank` is the line behind the headers. */
  datatype Request = Request(verb: Method, url: string, major: char, minor: char, end: Eol, headers: seq<Header>, blank: Eol) {
    function Line(): string {
      Name(verb) + [' '] + url + [' '] + Version(major, minor, end)
    }

    /** The text up to the blank line. */
    function Head(): string {
      Line() + (Lines(headers) + blank.Text())
    }

    predicate Good() {
      && GoodUrl(verb, url) && '1' <= major <= '9' && IsNum(minor) && GoodHeaders(headers)
    }

    function Meant(): Meaning
      requires Good()
    {
      Effects(Meaning(NO_FLAGS, ULLONG_MAX), headers)
    }

    predicate Upgrades()
      requires Good()
    {
      Meant().flags.upgrade || verb == CONNECT
    }

    /** How the body is delimited, from what the headers mean. */
    function BodyFraming(): Framing
      requires Good()
    {
      if Upgrades() then NoBody
      else if Meant().flags.chunked then ChunkedBody
      else if Meant().length == 0 || Meant().length == ULLONG_MAX then NoBody
      else Identity(Meant().length)
    }

    /** Whether the connection stays open, given the flags after the body. */
    predicate StaysOpen(flags: Flags)
      requires Good()
    {
      if DigitValue(minor) > 0 then !flags.close else flags.keepAlive
    }

    function Log(log: seq<Event>): seq<Event> {
      HeadersLog(Append(Append(log, MessageBegin), Data(Url, url)), headers)
    }
  }

  /** The struct at the blank line. */
  predicate AtBlankLine(f: Fields, r: Request, g: Fields)
    requires r.Good()
  {
    && g == f.(state := FieldStart, header := g.header, index := g.index, verb := r.verb,
               major := DigitValue(r.major), minor := DigitValue(r.minor),
               flags := r.Meant().flags, length := r.Meant().length, nread := f.nread + |r.Line()| + |Lines(r.headers)|)
  }

  /** The struct after the request line. */
  predicate AfterRequestLine(f: Fields, r: Request, g: Fields)
    requires r.Good()
  {
    g == f.(state := FieldStart, index := g.index, verb := r.verb, major := DigitValue(r.major), minor := DigitValue(r.minor),
            flags := NO_FLAGS, length := ULLONG_MAX, nread := f.nread + |r.Line()|)
  }

  lemma LineRun(f: Fields, r: Request, log: seq<Event>, skip: Fields -> bool) returns (g: Fields)
    requires f.state.StartReq? && r.Good() && f.nread + |r.Line()| < MAX_HEADER_SIZE
    ensures AfterRequestLine(f, r, g)
    ensures Takes(f, r.Line(), log, skip, g, Append(Append(log, MessageBegin), Data(Url, r.url)))
  {
    hide Takes, Name, Append, UrlState;
    var n := |Name(r.verb)|;
    var l1 := Append(log, MessageBegin);
    var l2 := Append(l1, Data(Url, r.url));
    NameLengths(r.verb);
    MethodAccepted(f, r.verb, log, skip);
    var a := f.(state := SpacesBeforeUrl, verb := r.verb, index := n + 1, flags := NO_FLAGS, length := ULLONG_MAX, nread := f.nread + n + 1);
    UrlRun(a, r.url, l1, skip);
    var b := a.(state := UrlState(UrlEntry(r.verb), r.url), nread := a.nread + |r.url|);
    Compose(f, Name(r.verb) + [' '], r.url, log, skip, a, l1, b, l2);
    UrlEnd(b, l1, r.url, skip);
    var c := b.(state := HttpStart, nread := b.nread + 1);
    Compose(f, Name(r.verb) + [' '] + r.url, [' '], log, skip, b, l2, c, l2);
    VersionRun(c, r.major, r.minor, r.end, l2, skip);
    g := AfterVersion(c, r.major, r.minor, r.end);
    Compose(f, Name(r.verb) + [' '] + r.url + [' '], Version(r.major, r.minor, r.end), log, skip, c, l2, g, l2);
  }

  /** The head of a request: one begin, the URL, and each header once, in order. */
  lemma HeadRun(f: Fields, r: Request, rest: string, log: seq<Event>, skip: Fields -> bool) returns (g: Fields)
    requires f.state.StartReq? && r.Good() && f.nread + |r.Head()| <= MAX_HEADER_SIZE
    ensures AtBlankLine(f, r, g)
    ensures RunAll(f, r.Head() + rest, log, skip) ==
            Shift(RunAll(g, r.blank.Text() + rest, r.Log(log), skip), |r.Head()| - |r.blank.Text()|)
  {
    hide RunAll, Append;
    var l2 := Append(Append(log, MessageBegin), Data(Url, r.url));
    var a := LineRun(f, r, log, skip);
    var tail := Lines(r.headers) + (r.blank.Text() + rest);
    assert r.Head() + rest == r.Line() + tail;
    RunAllConcat(f, r.Line(), tail, log, skip);
    assert !IsBlank((r.blank.Text() + rest)[0]);
    g := LinesRun(a, r.headers, r.blank.Text() + rest, l2, skip);
  }

  // ---------------------------------------------------------------- whole messages

  datatype BodyText = Plain(bytes: string) | Coded(body: CodedBody) {
    function Text(): string {
      match this case Plain(b) => b case Coded(c) => c.Text()
    }

    /** The header bytes still counted when the message is over: those of the trailers. */
    function Counted(): nat {
      match this case Plain(_) => 0 case Coded(c) => c.Counted()
    }

    /** The body is written as the announced framing says. */
    predicate Fits(fr: Framing) {
      match fr
      case NoBody => this == Plain([])
      case Identity(n) => Plain? && |bytes| == n
      case ChunkedBody => Coded? && body.Good()
    }

    function Log(log: seq<Event>): seq<Event> {
      match this
      case Plain(b) => BodyLog(log, b)
      case Coded(c) => HeadersLog(BodyLog(log, Payload(c.chunks)), c.trailers)
    }
  }

  /** The flags that decide keep-alive: those of the headers, and of the trailers of a coded body. */
  function FinalFlags(r: Request, b: BodyText): Flags
    requires r.Good() && b.Fits(r.BodyFraming())
  {
    match b
    case Plain(_) => r.Meant().flags
    case Coded(c) => Effects(Meaning(r.Meant().flags.(trailing := true), 0), c.trailers).flags
  }

  /** The callbacks a request should cause, read off its parts. */
  function MessageLog(r: Request, b: BodyText, log: seq<Event>): seq<Event>
    requires r.Good() && b.Fits(r.BodyFraming())
  {
    Append(b.Log(Append(r.Log(log), HeadersComplete(r.BodyFraming()))), MessageComplete(r.StaysOpen(FinalFlags(r, b))))
  }

  function NextState(open: bool): State {
    if open then StartReq else Dead
  }

  lemma IdentityEnd(f: Fields, ch: char, log: seq<Event>, skip: Fields -> bool)
    requires f.state.MessageDone?
    ensures Settle(f, ch, log, skip) == Run(f.(state := NewMessage(f)), Append(log, MessageComplete(KeepAlive(f))), 1, Finished)
  {
    hide HeaderCase, UrlCase, VersionCase, StartCase, MethodCase, ChunkCase, Append, KeepAlive;
  }

  lemma IdentityRun(f: Fields, bytes: string, rest: string, log: seq<Event>, skip: Fields -> bool) returns (g: Fields)
    requires f.state.BodyIdentity? && |bytes| == f.length > 0
    ensures g == f.(length := 0, state := NewMessage(f))
    ensures RunAll(f, bytes + rest, log, skip) ==
            Shift(RunAll(g, rest, Append(Append(log, Data(Body, bytes)), MessageComplete(KeepAlive(f))), skip), |bytes|)
  {
    hide RunAll, Settle, Append, KeepAlive;
    BodyWhole(f, bytes, rest, log, skip);
    var d := f.(length := 0, state := MessageDone);
    IdentityEnd(d, bytes[|bytes| - 1], Append(log, Data(Body, bytes)), skip);
    KeepAliveLooks(f, d);
    g := f.(length := 0, state := NewMessage(f));
  }

  ghost predicate NeverSkips(skip: Fields -> bool) {
    forall f :: !skip(f)
  }

  lemma {:induction false} EffectsKeep(m: Meaning, hs: seq<Header>)
    requires GoodHeaders(hs)
    ensures var e := Effects(m, hs);
            e.flags.skipBody == m.flags.skipBody && e.flags.trailing == m.flags.trailing &&
            (m.length <= ULLONG_MAX ==> e.length <= ULLONG_MAX)
    decreases |hs|
  {
    if hs != [] {
      assert GoodHeader(hs[0]);
      LineMeansLength(hs[0]);
      EffectsKeep(Effect(m, Folded(hs[0].name), hs[0].value), hs[1..]);
    }
  }

  lemma LineMeansLength(h: Header)
    requires GoodHeader(h)
    ensures h.value != [] && Folded(h.name) == CONTENT_LENGTH ==> DecimalOf(h.value) < ULLONG_MAX
  {
    if h.value != [] && Folded(h.name) == CONTENT_LENGTH {
      LengthFits(h.value);
    }
  }

  lemma {:induction false} LengthFits(v: string)
    requires IsLength(v)
    ensures DecimalOf(v) < ULLONG_MAX
    decreases |v|
  {
    var n := |v| - 1;
    if n == 0 {
      assert v[..0] == [];
    } else {
      PrefixIsLength(v, n);
      LengthFits(v[..n]);
    }
  }

  /** At the blank line the parser knows the framing the headers mean. */
  lemma AnnouncesFraming(f: Fields, r: Request, g: Fields, skip: Fields -> bool)
    requires r.Good() && AtBlankLine(f, r, g) && NeverSkips(skip)
    ensures var h := Announced(g, r.blank, skip);
            && h == g.(state := HeadersDone, nread := g.nread + |r.blank.Text()|, upgrade := r.Upgrades())
            && FramingOf(h) == r.BodyFraming() && KeepAlive(h) == r.StaysOpen(h.flags)
            && !g.flags.trailing && g.length <= ULLONG_MAX
  {
    EffectsKeep(Meaning(NO_FLAGS, ULLONG_MAX), r.headers);
  }

  /** Round trip: a written message is parsed into its own parts, and leaves the parser
      between messages, open or closed as its headers and trailers say. */
  lemma MessageRun(f: Fields, r: Request, b: BodyText, rest: string, log: seq<Event>, skip: Fields -> bool) returns (g: Fields)
    requires f.state.StartReq? && r.Good() && f.nread + |r.Head()| <= MAX_HEADER_SIZE && NeverSkips(skip)
    requires !r.Upgrades() && b.Fits(r.BodyFraming())
    ensures g.state == NextState(r.StaysOpen(FinalFlags(r, b))) && g.errno == f.errno && !g.upgrade && g.nread == b.Counted()
    ensures RunAll(f, r.Head() + (b.Text() + rest), log, skip) ==
            Shift(RunAll(g, rest, MessageLog(r, b, log), skip), |r.Head() + b.Text()|)
  {
    hide RunAll, Append, KeepAlive, AtBlankLine, Announced;
    var a := HeadRun(f, r, b.Text() + rest, log, skip);
    AnnouncesFraming(f, r, a, skip);
    var h := Announced(a, r.blank, skip);
    BlankFields(f, r, a);
    BlankLine(a, r.blank, r.Log(log), skip);
    RunAllConcat(a, r.blank.Text(), b.Text() + rest, r.Log(log), skip);
    g := BodyRun(AfterBlank(a, r.blank, skip), h, r, b, rest, BlankLog(a, r.blank, r.Log(log), skip), Append(r.Log(log), HeadersComplete(r.BodyFraming())), skip);
  }

  lemma BlankFields(f: Fields, r: Request, g: Fields)
    requires r.Good() && AtBlankLine(f, r, g)
    ensures g.state.FieldStart? && g.nread == f.nread + |r.Head()| - |r.blank.Text()| && g.errno == f.errno && g.flags == r.Meant().flags
    ensures g.length == r.Meant().length && g.major > 0 && g.minor == DigitValue(r.minor)
  {
  }

  /** The body of a message, by its framing. */
  lemma BodyRun(f: Fields, h: Fields, r: Request, b: BodyText, rest: string, log: seq<Event>, l: seq<Event>, skip: Fields -> bool) returns (g: Fields)
    requires r.Good() && b.Fits(r.BodyFraming()) && !r.Upgrades()
    requires h.flags == r.Meant().flags && h.major > 0 && h.minor == DigitValue(r.minor) && !h.upgrade && h.length == r.Meant().length
    requires FramingOf(h) == r.BodyFraming() && KeepAlive(h) == r.StaysOpen(h.flags)
    requires f == h.(nread := 0, state := match r.BodyFraming()
                                          case ChunkedBody => ChunkSizeStart
                                          case Identity(_) => BodyIdentity
                                          case NoBody => NewMessage(h))
    requires log == if r.BodyFraming().NoBody? then Append(l, MessageComplete(KeepAlive(h))) else l
    ensures g.state == NextState(r.StaysOpen(FinalFlags(r, b))) && g.errno == h.errno && !g.upgrade && g.nread == b.Counted()
    ensures RunAll(f, b.Text() + rest, log, skip) ==
            Shift(RunAll(g, rest, Append(b.Log(l), MessageComplete(r.StaysOpen(FinalFlags(r, b)))), skip), |b.Text()|)
  {
    hide RunAll, Append;
    match r.BodyFraming() {
      case NoBody =>
        assert b.Text() + rest == rest;
        g := f;
      case Identity(n) =>
        KeepAliveLooks(f, h);
        g := IdentityRun(f, b.bytes, rest, log, skip);
      case ChunkedBody =>
        g := CodedBodyRun(f, b.body, rest, log, skip);
    }
  }

  /** A request for an upgrade completes at its blank line, and nothing after it is read. */
  lemma UpgradeRun(f: Fields, r: Request, rest: string, log: seq<Event>, skip: Fields -> bool)
    requires f.state.StartReq? && r.Good() && f.nread + |r.Head()| <= MAX_HEADER_SIZE && NeverSkips(skip) && r.Upgrades()
    ensures var q := RunAll(f, r.Head() + rest, log, skip);
            && q.end == Left && q.used == |r.Head()| && q.f.upgrade
            && q.log == Append(Append(r.Log(log), HeadersComplete(NoBody)), MessageComplete(r.StaysOpen(r.Meant().flags)))
  {
    hide RunAll, Append, KeepAlive, AtBlankLine, Announced;
    var a := HeadRun(f, r, rest, log, skip);
    AnnouncesFraming(f, r, a, skip);
    BlankFields(f, r, a);
    BlankLine(a, r.blank, r.Log(log), skip);
    RunAllConcat(a, r.blank.Text(), rest, r.Log(log), skip);
  }

  // ---------------------------------------------------------------- pipelines

  datatype Message = Message(request: Request, body: BodyText) {
    predicate Good() {
      request.Good() && !request.Upgrades() && body.Fits(request.BodyFraming())
    }

    function Text(): string {
      request.Head() + body.Text()
    }

    predicate StaysOpen()
      requires Good()
    {
      request.StaysOpen(FinalFlags(request, body))
    }

    function Log(log: seq<Event>): seq<Event>
      requires Good()
    {
      MessageLog(request, body, log)
    }
  }

  /** Messages that may follow each other on one connection, `counted` header bytes in:
      only the last may close it, and no head is too long. */
  predicate Pipeline(ms: seq<Message>, counted: nat)
    decreases |ms|
  {
    ms != [] ==>
      var m := ms[0];
      && m.Good() && counted + |m.request.Head()| <= MAX_HEADER_SIZE
      && (|ms| > 1 ==> m.StaysOpen()) && Pipeline(ms[1..], m.body.Counted())
  }

  function Texts(ms: seq<Message>): string {
    if ms == [] then [] else ms[0].Text() + Texts(ms[1..])
  }

  function Logs(ms: seq<Message>, counted: nat, log: seq<Event>): seq<Event>
    requires Pipeline(ms, counted)
    decreases |ms|
  {
    if ms == [] then log else Logs(ms[1..], ms[0].body.Counted(), ms[0].Log(log))
  }

  lemma MessageThen(f: Fields, m: Message, rest: string, log: seq<Event>, skip: Fields -> bool) returns (g: Fields)
    requires f.state.StartReq? && m.Good() && f.nread + |m.request.Head()| <= MAX_HEADER_SIZE && NeverSkips(skip)
    ensures g.state == NextState(m.StaysOpen()) && g.nread == m.body.Counted()
    ensures RunAll(f, m.Text() + rest, log, skip) == Shift(RunAll(g, rest, m.Log(log), skip), |m.Text()|)
  {
    hide RunAll, MessageLog;
    assert m.Text() + rest == m.request.Head() + (m.body.Text() + rest);
    g := MessageRun(f, m.request, m.body, rest, log, skip);
  }

  lemma {:induction false} PipelineRun(f: Fields, ms: seq<Message>, log: seq<Event>, skip: Fields -> bool)
    requires f.state.StartReq? && Pipeline(ms, f.nread) && NeverSkips(skip)
    ensures var r := RunAll(f, Texts(ms), log, skip);
            r.end == Finished && r.used == |Texts(ms)| && r.log == Logs(ms, f.nread, log)
    decreases |ms|
  {
    hide RunAll, Message.Good, Message.Text, Message.Log, Message.StaysOpen, NeverSkips;
    if ms == [] {
      EmptyRun(f, log, skip);
    } else {
      var m := ms[0];
      var g := MessageThen(f, m, Texts(ms[1..]), log, skip);
      if |ms| > 1 {
        PipelineRun(g, ms[1..], m.Log(log), skip);
      } else {
        assert ms[1..] == [];
        EmptyRun(g, m.Log(log), skip);
      }
    }
  }

  /** Every session over the text of a pipeline, however it is cut into calls and wherever callbacks
      pause it, delivers exactly the messages: same order, same parts, each completed once. */
  lemma AnySessionRoundTrip(ms: seq<Message>, calls: seq<CallRecord>, skip: Fields -> bool)
    requires Pipeline(ms, 0) && NeverSkips(skip)
    requires Session(Texts(ms), 0, Init(), [], calls, skip)
    requires var e := Ending(0, Init(), [], calls); e.n == |Texts(ms)| || ParseError(e.f.errno)
    ensures Ending(0, Init(), [], calls).log == Logs(ms, 0, [])
  {
    hide RunAll, Session, Pipeline, Sound;
    InitSound();
    SessionAgrees(Texts(ms), 0, Init(), [], calls, skip);
    assert Texts(ms)[0..] == Texts(ms);
    PipelineRun(Init(), ms, [], skip);
  }
}
