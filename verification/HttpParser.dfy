/** The request side of `http_parser`: the struct, the switch of
    `http_parser_execute` one case body at a time, and the reference run that
    feeds a buffer to that switch byte by byte. */
module HttpParser {
  import opened HttpChars

  const MAX_HEADER_SIZE: nat := 80 * 1024
  const ULLONG_MAX: nat := 0xFFFF_FFFF_FFFF_FFFF
  const TWO64: nat := 0x1_0000_0000_0000_0000

  /** The states a request parser can be in, in the order of `enum state`. */
  datatype State =
    | Dead | StartReq | ReqMethod | SpacesBeforeUrl
    | Schema | SchemaSlash | SchemaSlashSlash | ServerStart | Server | ServerWithAt
    | Path | QueryStart | Query | FragmentStart | Fragment
    | HttpStart | HttpH | HttpHT | HttpHTT | HttpHTTP
    | FirstMajor | Major | FirstMinor | Minor | LineAlmostDone
    | FieldStart | HeaderField | DiscardWs | DiscardWsAlmostDone | DiscardLws
    | ValueStart | HeaderValue | ValueLws | HeaderAlmostDone
    | ChunkSizeStart | ChunkSize | ChunkParameters | ChunkSizeAlmostDone
    | HeadersAlmostDone | HeadersDone
    | ChunkData | ChunkDataAlmostDone | ChunkDataDone
    | BodyIdentity | MessageDone

  datatype HeaderState =
    | General | C | CO | CON
    | MatchingConnection | MatchingProxyConnection | MatchingContentLength
    | MatchingTransferEncoding | MatchingUpgrade
    | Connection | ContentLength | TransferEncoding | Upgrade
    | MatchingChunked | MatchingKeepAlive | MatchingClose
    | Chunked | KeepAliveSeen | CloseSeen

  datatype Method =
    | DELETE | GET | HEAD | POST | PUT | CONNECT | OPTIONS | TRACE
    | COPY | LOCK | MKCOL | MOVE | PROPFIND | PROPPATCH | SEARCH | UNLOCK
    | REPORT | MKACTIVITY | CHECKOUT | MERGE
    | MSEARCH | NOTIFY | SUBSCRIBE | UNSUBSCRIBE | PATCH | PURGE | MKCALENDAR

  datatype Errno =
    | OK
    | CallbackFailed(event: Event)
    | InvalidEofState | HeaderOverflow | ClosedConnection | InvalidVersion | InvalidMethod
    | InvalidUrl | LfExpected | InvalidHeaderToken | InvalidContentLength | InvalidChunkSize
    | InvalidConstant | Strict | Paused

  datatype Flags = Flags(chunked: bool, keepAlive: bool, close: bool, trailing: bool, upgrade: bool, skipBody: bool)

  const NO_FLAGS := Flags(false, false, false, false, false, false)

  /** The struct, without the members a request parser never writes. */
  datatype Fields = Fields(
    state: State, header: HeaderState, index: nat, flags: Flags,
    nread: nat, length: nat, major: nat, minor: nat, verb: Method, upgrade: bool, errno: Errno)

  datatype Option<+T> = None | Some(value: T)

  /** How the body that follows a header block is delimited. */
  datatype Framing = NoBody | Identity(total: nat) | ChunkedBody

  datatype Kind = Url | Field | Value | Body

  /** One callback.  The annotations are what the callback can compute from the
      struct it is handed: the framing, and the answer of `http_should_keep_alive`. */
  datatype Event =
    | MessageBegin
    | HeadersComplete(framing: Framing)
    | MessageComplete(keepAlive: bool)
    | Data(kind: Kind, bytes: string)

  datatype Call = Quiet | Tell(event: Event) | Flush(kind: Kind) | Blank(blankKind: Kind)

  datatype Control = Advance | Again | Exit | Fail(error: Errno)

  /** What one case body does with a byte: the new struct, whether the byte is kept
      as data of some kind, the callback it makes, and where control goes. */
  datatype Outcome = Outcome(f: Fields, keep: Option<Kind>, call: Call, control: Control)

  function Go(f: Fields): Outcome {
    Outcome(f, None, Quiet, Advance)
  }

  function Keep(f: Fields, k: Kind): Outcome {
    Outcome(f, Some(k), Quiet, Advance)
  }

  function Redo(f: Fields): Outcome {
    Outcome(f, None, Quiet, Again)
  }

  function Stop(f: Fields, e: Errno): Outcome {
    Outcome(f, None, Quiet, Fail(e))
  }

  function Init(): Fields {
    Fields(StartReq, General, 0, NO_FLAGS, 0, 0, 0, 0, DELETE, false, OK)
  }

  predicate ParsingHeader(s: State) {
    !(s.ChunkData? || s.ChunkDataAlmostDone? || s.ChunkDataDone? || s.BodyIdentity? || s.MessageDone?)
  }

  /** `http_should_keep_alive` for a request. */
  predicate KeepAlive(f: Fields) {
    if f.major > 0 && f.minor > 0 then !f.flags.close else f.flags.keepAlive
  }

  function NewMessage(f: Fields): State {
    if KeepAlive(f) then StartReq else Dead
  }

  /** An increment of the 8-bit `index`. */
  function Inc8(i: nat): nat {
    (i + 1) % 256
  }

  // ---------------------------------------------------------------- methods

  function Name(m: Method): string {
    match m
    case DELETE => "DELETE" case GET => "GET" case HEAD => "HEAD" case POST => "POST" case PUT => "PUT"
    case CONNECT => "CONNECT" case OPTIONS => "OPTIONS" case TRACE => "TRACE" case COPY => "COPY"
    case LOCK => "LOCK" case MKCOL => "MKCOL" case MOVE => "MOVE" case PROPFIND => "PROPFIND"
    case PROPPATCH => "PROPPATCH" case SEARCH => "SEARCH" case UNLOCK => "UNLOCK" case REPORT => "REPORT"
    case MKACTIVITY => "MKACTIVITY" case CHECKOUT => "CHECKOUT" case MERGE => "MERGE"
    case MSEARCH => "M-SEARCH" case NOTIFY => "NOTIFY" case SUBSCRIBE => "SUBSCRIBE"
    case UNSUBSCRIBE => "UNSUBSCRIBE" case PATCH => "PATCH" case PURGE => "PURGE"
    case MKCALENDAR => "MKCALENDAR"
  }

  /** The method guessed from the first letter. */
  function FirstGuess(ch: char): Option<Method> {
    match ch
    case 'C' => Some(CONNECT) case 'D' => Some(DELETE) case 'G' => Some(GET) case 'H' => Some(HEAD)
    case 'L' => Some(LOCK) case 'M' => Some(MKCOL) case 'N' => Some(NOTIFY) case 'O' => Some(OPTIONS)
    case 'P' => Some(POST) case 'R' => Some(REPORT) case 'S' => Some(SUBSCRIBE) case 'T' => Some(TRACE)
    case 'U' => Some(UNLOCK)
    case _ => None
  }

  /** The method a mismatching byte switches to. */
  function NextGuess(m: Method, index: nat, ch: char): Option<Method> {
    if m == CONNECT then
      if index == 1 && ch == 'H' then Some(CHECKOUT)
      else if index == 2 && ch == 'P' then Some(COPY)
      else None
    else if m == MKCOL then
      if index == 1 && ch == 'O' then Some(MOVE)
      else if index == 1 && ch == 'E' then Some(MERGE)
      else if index == 1 && ch == '-' then Some(MSEARCH)
      else if index == 2 && ch == 'A' then Some(MKACTIVITY)
      else if index == 3 && ch == 'A' then Some(MKCALENDAR)
      else None
    else if m == SUBSCRIBE then
      if index == 1 && ch == 'E' then Some(SEARCH) else None
    else if index == 1 && m == POST then
      if ch == 'R' then Some(PROPFIND)
      else if ch == 'U' then Some(PUT)
      else if ch == 'A' then Some(PATCH)
      else None
    else if index == 2 then
      if m == PUT then
        if ch == 'R' then Some(PURGE) else None
      else if m == UNLOCK then
        if ch == 'S' then Some(UNSUBSCRIBE) else None
      else None
    else if index == 4 && m == PROPFIND && ch == 'P' then Some(PROPPATCH)
    else None
  }

  function StartCase(f: Fields, ch: char): (o: Outcome)
    ensures o.control.Advance? || o.control.Fail?
  {
    if ch == CR || ch == LF then Go(f)
    else
      var g := f.(flags := NO_FLAGS, length := ULLONG_MAX);
      if !IsAlpha(ch) then Stop(g, InvalidMethod)
      else
        match FirstGuess(ch)
        case None => Stop(g.(verb := DELETE, index := 1), InvalidMethod)
        case Some(m) =>
          Outcome(g.(verb := m, index := 1, state := ReqMethod), None, Tell(MessageBegin), Advance)
  }

  function MethodCase(f: Fields, ch: char): (o: Outcome)
    ensures o.control.Advance? || o.control.Fail?
  {
    var name := Name(f.verb);
    if ch == '\0' then Stop(f, InvalidMethod)
    else if ch == ' ' && f.index == |name| then Go(f.(state := SpacesBeforeUrl, index := Inc8(f.index)))
    else if f.index < |name| && ch == name[f.index] then Go(f.(index := Inc8(f.index)))
    else
      match NextGuess(f.verb, f.index, ch)
      case None => Stop(f, InvalidMethod)
      case Some(m) => Go(f.(verb := m, index := Inc8(f.index)))
  }

  // ---------------------------------------------------------------- request line

  /** `parse_url_char`; `Dead` means a byte that cannot occur there. */
  function ParseUrlChar(s: State, ch: char): State {
    if ch == ' ' || ch == CR || ch == LF || ch == '\t' || ch == 12 as char then Dead
    else
      if s.SpacesBeforeUrl? then
        if ch == '/' || ch == '*' then Path else if IsAlpha(ch) then Schema else Dead
      else if s.Schema? then
        if IsAlpha(ch) then Schema else if ch == ':' then SchemaSlash else Dead
      else if s.SchemaSlash? then
        if ch == '/' then SchemaSlashSlash else Dead
      else if s.SchemaSlashSlash? then
        if ch == '/' then ServerStart else Dead
      else if s.ServerWithAt? then
        if ch == '@' then Dead else ServerChar(ch)
      else if s.ServerStart? then ServerChar(ch)
      else if s.Server? then ServerChar(ch)
      else if s.Path? then
        if IsUrlChar(ch) then Path
        else if ch == '?' then QueryStart
        else if ch == '#' then FragmentStart
        else Dead
      else if s.QueryStart? then QueryChar(ch)
      else if s.Query? then QueryChar(ch)
      else if s.FragmentStart? then
        if IsUrlChar(ch) || ch == '?' then Fragment else if ch == '#' then FragmentStart else Dead
      else if s.Fragment? then
        if IsUrlChar(ch) || ch == '?' || ch == '#' then Fragment else Dead
      else Dead
  }

  function ServerChar(ch: char): State {
    if ch == '/' then Path
    else if ch == '?' then QueryStart
    else if ch == '@' then ServerWithAt
    else if IsUserinfoChar(ch) || ch == '[' || ch == ']' then Server
    else Dead
  }

  function QueryChar(ch: char): State {
    if IsUrlChar(ch) || ch == '?' then Query else if ch == '#' then FragmentStart else Dead
  }

  /** The states in which `url_mark` is set at the start of a buffer. */
  predicate InUrl(s: State) {
    s.Schema? || s.SchemaSlash? || s.SchemaSlashSlash? || s.ServerStart? || UrlMayEnd(s)
  }

  predicate UrlMayEnd(s: State) {
    s.Server? || s.ServerWithAt? || s.Path? || s.QueryStart? || s.Query? || s.FragmentStart? || s.Fragment?
  }

  /** The state from which the first byte of the URL is parsed. */
  function UrlEntry(m: Method): State {
    if m == CONNECT then ServerStart else SpacesBeforeUrl
  }

  function UrlByte(f: Fields, from: State, ch: char): Outcome {
    var s := ParseUrlChar(from, ch);
    if s == Dead then Stop(f.(state := Dead), InvalidUrl) else Keep(f.(state := s), Url)
  }

  function UrlCase(f: Fields, ch: char): (o: Outcome)
    ensures o.control.Advance? || o.control.Fail?
  {
    if f.state == SpacesBeforeUrl then
      if ch == ' ' then Go(f) else UrlByte(f, UrlEntry(f.verb), ch)
    else if UrlMayEnd(f.state) then
      if ch == ' ' then Outcome(f.(state := HttpStart), None, Flush(Url), Advance)
      else if ch == CR || ch == LF then
        Outcome(f.(major := 0, minor := 9, state := if ch == CR then LineAlmostDone else FieldStart), None, Flush(Url), Advance)
      else UrlByte(f, f.state, ch)
    else if ch == ' ' || ch == CR || ch == LF then Stop(f, InvalidUrl)
    else UrlByte(f, f.state, ch)
  }

  function Expect(f: Fields, ch: char, want: char, next: State): Outcome {
    if ch != want then Stop(f, Strict) else Go(f.(state := next))
  }

  function VersionCase(f: Fields, ch: char): (o: Outcome)
    ensures o.control.Advance? || o.control.Fail?
  {
    if f.state.HttpStart? then
      if ch == 'H' then Go(f.(state := HttpH)) else if ch == ' ' then Go(f) else Stop(f, InvalidConstant)
    else if f.state.HttpH? then Expect(f, ch, 'T', HttpHT)
    else if f.state.HttpHT? then Expect(f, ch, 'T', HttpHTT)
    else if f.state.HttpHTT? then Expect(f, ch, 'P', HttpHTTP)
    else if f.state.HttpHTTP? then Expect(f, ch, '/', FirstMajor)
    else if f.state.FirstMajor? then
      if ch < '1' || ch > '9' then Stop(f, InvalidVersion)
      else Go(f.(major := DigitValue(ch), state := Major))
    else if f.state.Major? then
      if ch == '.' then Go(f.(state := FirstMinor))
      else if !IsNum(ch) then Stop(f, InvalidVersion)
      else
        var v := f.major * 10 + DigitValue(ch);
        if v > 999 then Stop(f.(major := v), InvalidVersion) else Go(f.(major := v))
    else if f.state.FirstMinor? then
      if !IsNum(ch) then Stop(f, InvalidVersion)
      else Go(f.(minor := DigitValue(ch), state := Minor))
    else if f.state.Minor? then
      if ch == CR then Go(f.(state := LineAlmostDone))
      else if ch == LF then Go(f.(state := FieldStart))
      else if !IsNum(ch) then Stop(f, InvalidVersion)
      else
        var v := f.minor * 10 + DigitValue(ch);
        if v > 999 then Stop(f.(minor := v), InvalidVersion) else Go(f.(minor := v))
    else
      if ch != LF then Stop(f, LfExpected) else Go(f.(state := FieldStart))
  }

  // ---------------------------------------------------------------- header fields

  const CONNECTION := "connection"
  const PROXY_CONNECTION := "proxy-connection"
  const CONTENT_LENGTH := "content-length"
  const TRANSFER_ENCODING := "transfer-encoding"
  const UPGRADE := "upgrade"
  const CHUNKED := "chunked"
  const KEEP_ALIVE := "keep-alive"
  const CLOSE := "close"

  function FieldStartCase(f: Fields, ch: char): Outcome {
    if ch == CR then Go(f.(state := HeadersAlmostDone))
    else if ch == LF then Redo(f.(state := HeadersAlmostDone))
    else if !IsToken(ch) then Stop(f, InvalidHeaderToken)
    else
      var c := Token(ch);
      var h := if c == 'c' then C
               else if c == 'p' then MatchingProxyConnection
               else if c == 't' then MatchingTransferEncoding
               else if c == 'u' then MatchingUpgrade
               else General;
      Keep(f.(index := 0, state := HeaderField, header := h), Field)
  }

  /** One byte of a keyword matcher: `index` moves on, and the header state falls
      back to `General`, stays, or becomes `done` on the keyword's last letter. */
  function MatchKeyword(f: Fields, c: char, keyword: string, done: HeaderState): Fields
    requires |keyword| > 0
  {
    var i := Inc8(f.index);
    if i > |keyword| || i == |keyword| || c != keyword[i] then f.(index := i, header := General)
    else if i == |keyword| - 1 then f.(index := i, header := done)
    else f.(index := i)
  }

  function FieldByte(f: Fields, c: char): Fields {
    if f.header.General? then f
    else if f.header.C? then f.(index := Inc8(f.index), header := if c == 'o' then CO else General)
    else if f.header.CO? then f.(index := Inc8(f.index), header := if c == 'n' then CON else General)
    else if f.header.CON? then
      f.(index := Inc8(f.index), header := if c == 'n' then MatchingConnection
                                           else if c == 't' then MatchingContentLength
                                           else General)
    else if f.header.MatchingConnection? then MatchKeyword(f, c, CONNECTION, Connection)
    else if f.header.MatchingProxyConnection? then MatchKeyword(f, c, PROXY_CONNECTION, Connection)
    else if f.header.MatchingContentLength? then MatchKeyword(f, c, CONTENT_LENGTH, ContentLength)
    else if f.header.MatchingTransferEncoding? then MatchKeyword(f, c, TRANSFER_ENCODING, TransferEncoding)
    else if f.header.MatchingUpgrade? then MatchKeyword(f, c, UPGRADE, Upgrade)
    else if f.header.Connection? then f.(header := General)
    else if f.header.ContentLength? then f.(header := General)
    else if f.header.TransferEncoding? then f.(header := General)
    else if f.header.Upgrade? then f.(header := General)
    else f
  }

  function FieldCase(f: Fields, ch: char): Outcome {
    if IsToken(ch) then Keep(FieldByte(f, Token(ch)), Field)
    else if ch == ':' then Outcome(f.(state := DiscardWs), None, Flush(Field), Advance)
    else if ch == CR then Outcome(f.(state := HeaderAlmostDone), None, Flush(Field), Advance)
    else if ch == LF then Outcome(f.(state := FieldStart), None, Flush(Field), Advance)
    else Stop(f, InvalidHeaderToken)
  }

  // ---------------------------------------------------------------- header values

  function ValueStartCase(f: Fields, ch: char): Outcome {
    var g := f.(state := HeaderValue, index := 0);
    var c := Lower(ch);
    if f.header.Upgrade? then Keep(g.(flags := f.flags.(upgrade := true), header := General), Value)
    else if f.header.TransferEncoding? then Keep(g.(header := if c == 'c' then MatchingChunked else General), Value)
    else if f.header.ContentLength? then
      if !IsNum(ch) then Stop(g, InvalidContentLength)
      else Keep(g.(length := DigitValue(ch)), Value)
    else if f.header.Connection? then
      Keep(g.(header := if c == 'k' then MatchingKeepAlive else if c == 'c' then MatchingClose else General), Value)
    else Keep(g.(header := General), Value)
  }

  function ValueByte(f: Fields, ch: char): Fields {
    var c := Lower(ch);
    if f.header.General? then f
    else if f.header.MatchingChunked? then MatchKeyword(f, c, CHUNKED, Chunked)
    else if f.header.MatchingKeepAlive? then MatchKeyword(f, c, KEEP_ALIVE, KeepAliveSeen)
    else if f.header.MatchingClose? then MatchKeyword(f, c, CLOSE, CloseSeen)
    else if f.header.Chunked? then if ch == ' ' then f else f.(header := General)
    else if f.header.KeepAliveSeen? then if ch == ' ' then f else f.(header := General)
    else if f.header.CloseSeen? then if ch == ' ' then f else f.(header := General)
    else if f.header.Connection? then f
    else if f.header.TransferEncoding? then f
    else f.(header := General)
  }

  /** Multiply-and-add in 64 bits. */
  function Scale(n: nat, base: nat, digit: nat): nat {
    (n * base + digit) % TWO64
  }

  function ValueCase(f: Fields, ch: char): Outcome {
    if ch == CR then Outcome(f.(state := HeaderAlmostDone), None, Flush(Value), Advance)
    else if ch == LF then Outcome(f.(state := HeaderAlmostDone), None, Flush(Value), Again)
    else if f.header == ContentLength then
      if ch == ' ' then Keep(f, Value)
      else if !IsNum(ch) then Stop(f, InvalidContentLength)
      else if (ULLONG_MAX - 10) / 10 < f.length then Stop(f, InvalidContentLength)
      else Keep(f.(length := Scale(f.length, 10, DigitValue(ch))), Value)
    else Keep(ValueByte(f, ch), Value)
  }

  function FinishHeader(f: Fields): Fields {
    if f.header.KeepAliveSeen? then f.(flags := f.flags.(keepAlive := true))
    else if f.header.CloseSeen? then f.(flags := f.flags.(close := true))
    else if f.header.Chunked? then f.(flags := f.flags.(chunked := true))
    else f
  }

  function HeaderCase(f: Fields, ch: char): Outcome {
    var blank := ch == ' ' || ch == '\t';
    if f.state.FieldStart? then FieldStartCase(f, ch)
    else if f.state.HeaderField? then FieldCase(f, ch)
    else if f.state.DiscardWs? then
      if blank then Go(f)
      else if ch == CR then Go(f.(state := DiscardWsAlmostDone))
      else if ch == LF then Go(f.(state := DiscardLws))
      else ValueStartCase(f, ch)
    else if f.state.DiscardWsAlmostDone? then Expect(f, ch, LF, DiscardLws)
    else if f.state.DiscardLws? then
      if blank then Go(f.(state := DiscardWs))
      else Outcome(f.(state := FieldStart), None, Blank(Value), Again)
    else if f.state.ValueStart? then ValueStartCase(f, ch)
    else if f.state.HeaderValue? then ValueCase(f, ch)
    else if f.state.ValueLws? then
      if blank then Redo(f.(state := ValueStart)) else Redo(FinishHeader(f).(state := FieldStart))
    else Expect(f, ch, LF, ValueLws)
  }

  // ---------------------------------------------------------------- end of headers

  function FramingOf(f: Fields): Framing {
    if f.upgrade || f.flags.skipBody then NoBody
    else if f.flags.chunked then ChunkedBody
    else if f.length == 0 || f.length == ULLONG_MAX then NoBody
    else Identity(f.length)
  }

  /** `skip` is the answer of `on_headers_complete`: true when it returns 1. */
  function HeadersCase(f: Fields, ch: char, skip: Fields -> bool): Outcome {
    if ch != LF then Stop(f, Strict)
    else if f.flags.trailing then
      Outcome(f.(state := NewMessage(f)), None, Tell(MessageComplete(KeepAlive(f))), Advance)
    else
      var g := f.(state := HeadersDone, upgrade := f.flags.upgrade || f.verb == CONNECT);
      var h := if skip(g.(nread := 0)) then g.(flags := g.flags.(skipBody := true)) else g;
      Outcome(h, None, Tell(HeadersComplete(FramingOf(h))), Again)
  }

  function HeadersDoneCase(f: Fields, ch: char): Outcome {
    if ch != LF then Stop(f, Strict)
    else
      var g := f.(nread := 0);
      var done := Outcome(g.(state := NewMessage(f)), None, Tell(MessageComplete(KeepAlive(f))), Advance);
      if f.upgrade then done.(control := Exit)
      else if f.flags.skipBody then done
      else if f.flags.chunked then Go(g.(state := ChunkSizeStart))
      else if f.length == 0 then done
      else if f.length != ULLONG_MAX then Go(g.(state := BodyIdentity))
      else done
  }

  // ---------------------------------------------------------------- bodies

  /** The body cases for a buffer of one byte: `to_read` is 1. */
  function BodyCase(f: Fields, ch: char): Outcome {
    if f.state.BodyIdentity? then
      var g := f.(length := if f.length == 0 then 0 else f.length - 1);
      if g.length == 0 then Outcome(g.(state := MessageDone), Some(Body), Flush(Body), Again)
      else Keep(g, Body)
    else if f.state.MessageDone? then
      Outcome(f.(state := NewMessage(f)), None, Tell(MessageComplete(KeepAlive(f))), Advance)
    else if f.state.ChunkData? then
      var g := f.(length := if f.length == 0 then 0 else f.length - 1);
      Keep(if g.length == 0 then g.(state := ChunkDataAlmostDone) else g, Body)
    else if f.state.ChunkDataAlmostDone? then
      if ch != CR then Stop(f, Strict)
      else Outcome(f.(state := ChunkDataDone), None, Flush(Body), Advance)
    else
      if ch != LF then Stop(f, Strict) else Go(f.(nread := 0, state := ChunkSizeStart))
  }

  function ChunkCase(f: Fields, ch: char): (o: Outcome)
    ensures o.control.Advance? || o.control.Fail?
  {
    if f.state.ChunkSizeStart? then
      if Unhex(ch) == -1 then Stop(f, InvalidChunkSize)
      else Go(f.(length := Unhex(ch), state := ChunkSize))
    else if f.state.ChunkSize? then
      if ch == CR then Go(f.(state := ChunkSizeAlmostDone))
      else if Unhex(ch) == -1 then
        if ch == ';' || ch == ' ' then Go(f.(state := ChunkParameters)) else Stop(f, InvalidChunkSize)
      else if (ULLONG_MAX - 16) / 16 < f.length then Stop(f, InvalidContentLength)
      else Go(f.(length := Scale(f.length, 16, Unhex(ch))))
    else if f.state.ChunkParameters? then
      if ch == CR then Go(f.(state := ChunkSizeAlmostDone)) else Go(f)
    else
      if ch != LF then Stop(f, Strict)
      else if f.length == 0 then
        Go(f.(nread := 0, flags := f.flags.(trailing := true), state := FieldStart))
      else Go(f.(nread := 0, state := ChunkData))
  }

  /** The switch of `http_parser_execute`. */
  function Case(f: Fields, ch: char, skip: Fields -> bool): Outcome {
    if f.state.Dead? then if ch == CR || ch == LF then Go(f) else Stop(f, ClosedConnection)
    else if f.state.StartReq? then StartCase(f, ch)
    else if f.state.ReqMethod? then MethodCase(f, ch)
    else if f.state.HeadersAlmostDone? then HeadersCase(f, ch, skip)
    else if f.state.HeadersDone? then HeadersDoneCase(f, ch)
    else
      if f.state == SpacesBeforeUrl || InUrl(f.state) then UrlCase(f, ch)
      else if InVersion(f.state) then VersionCase(f, ch)
      else if InHeader(f.state) then HeaderCase(f, ch)
      else if InChunkSize(f.state) then ChunkCase(f, ch)
      else BodyCase(f, ch)
  }

  predicate InVersion(s: State) {
    s.HttpStart? || s.HttpH? || s.HttpHT? || s.HttpHTT? || s.HttpHTTP? ||
    s.FirstMajor? || s.Major? || s.FirstMinor? || s.Minor? || s.LineAlmostDone?
  }

  predicate InHeader(s: State) {
    s.FieldStart? || s.HeaderField? || s.DiscardWs? || s.DiscardWsAlmostDone? || s.DiscardLws? ||
    s.ValueStart? || s.HeaderValue? || s.ValueLws? || s.HeaderAlmostDone?
  }

  predicate InChunkSize(s: State) {
    s.ChunkSizeStart? || s.ChunkSize? || s.ChunkParameters? || s.ChunkSizeAlmostDone?
  }

  // ---------------------------------------------------------------- traces

  /** Adds a callback to a joined trace: data that continues data of the same kind is merged. */
  function Append(log: seq<Event>, e: Event): seq<Event> {
    if e.Data? && |log| > 0 && log[|log| - 1].Data? && log[|log| - 1].kind == e.kind
    then log[..|log| - 1] + [Data(e.kind, log[|log| - 1].bytes + e.bytes)]
    else log + [e]
  }

  /** The joined form of a sequence of callbacks. */
  function Join(events: seq<Event>): seq<Event> {
    if events == [] then [] else Append(Join(events[..|events| - 1]), events[|events| - 1])
  }

  lemma JoinSnoc(events: seq<Event>, e: Event)
    ensures Join(events + [e]) == Append(Join(events), e)
  {
    assert (events + [e])[..|events|] == events;
  }

  lemma AppendTwice(log: seq<Event>, k: Kind, x: string, y: string)
    ensures Append(Append(log, Data(k, x)), Data(k, y)) == Append(log, Data(k, x + y))
  {
    var once := Append(log, Data(k, x));
    if |log| > 0 && log[|log| - 1].Data? && log[|log| - 1].kind == k {
      var b := log[|log| - 1].bytes;
      assert (b + x) + y == b + (x + y);
      assert once[..|once| - 1] == log[..|log| - 1];
    } else {
      assert once[..|once| - 1] == log;
    }
  }

  // ---------------------------------------------------------------- the reference run

  /** The trace after a case body: kept bytes are delivered one at a time, and the end
      of a run of url, field or value data is marked by an empty piece. */
  function Emit(log: seq<Event>, o: Outcome, ch: char): seq<Event> {
    var l := if o.keep.Some? then Append(log, Data(o.keep.value, [ch])) else log;
    match o.call
    case Quiet => l
    case Tell(e) => Append(l, e)
    case Flush(k) => if k == Body then l else Append(l, Data(k, []))
    case Blank(k) => Append(l, Data(k, []))
  }

  /** Re-execution of a byte moves strictly down this rank. */
  function Rank(s: State): nat {
    if s.ValueLws? then 3
    else if s.DiscardLws? then 3
    else if s.FieldStart? then 2
    else if s.HeadersAlmostDone? then 1
    else if s.HeaderValue? then 1
    else if s.BodyIdentity? then 1
    else 0
  }

  lemma AgainLowersRank(f: Fields, ch: char, skip: Fields -> bool)
    requires Case(f, ch, skip).control == Again
    ensures var s := Case(f, ch, skip).f.state;
            Rank(s) < Rank(f.state) && !s.BodyIdentity? && !s.ChunkData?
  {
    hide StartCase, MethodCase, UrlCase, VersionCase, HeaderCase, ChunkCase, BodyCase;
    if InHeader(f.state) {
      HeaderAgain(f, ch);
    } else {
      BodyAgain(f, ch);
    }
  }

  lemma HeaderAgain(f: Fields, ch: char)
    requires HeaderCase(f, ch).control == Again && InHeader(f.state)
    ensures var s := HeaderCase(f, ch).f.state;
            Rank(s) < Rank(f.state) && (InHeader(s) || s.HeadersAlmostDone?)
  {
  }

  lemma BodyAgain(f: Fields, ch: char)
    ensures BodyCase(f, ch).control == Again ==> f.state.BodyIdentity? && BodyCase(f, ch).f.state.MessageDone?
  {
  }

  datatype End = Finished | Failed | Left

  /** The result of a run: the struct, the joined trace, the bytes consumed, and whether
      the buffer was used up, rejected, or left after an upgrade request. */
  datatype Run = Run(f: Fields, log: seq<Event>, used: nat, end: End)

  /** One byte, re-executed until it is consumed. */
  function Settle(f: Fields, ch: char, log: seq<Event>, skip: Fields -> bool): Run
    decreases Rank(f.state)
  {
    var o := Case(f, ch, skip);
    var l := Emit(log, o, ch);
    match o.control
    case Advance => Run(o.f, l, 1, Finished)
    case Exit => Run(o.f, l, 1, Left)
    case Fail(e) => Run(o.f.(errno := e), l, 0, Failed)
    case Again => AgainLowersRank(f, ch, skip); Settle(o.f, ch, l, skip)
  }

  function RunByte(f: Fields, ch: char, log: seq<Event>, skip: Fields -> bool): Run {
    if ParsingHeader(f.state) then
      var g := f.(nread := f.nread + 1);
      if g.nread > MAX_HEADER_SIZE then Run(g.(errno := HeaderOverflow), log, 0, Failed)
      else Settle(g, ch, log, skip)
    else Settle(f, ch, log, skip)
  }

  /** The reference run: every byte on its own, no marks, callbacks that never interfere. */
  function RunAll(f: Fields, data: string, log: seq<Event>, skip: Fields -> bool): Run
    decreases |data|
  {
    if data == [] then Run(f, log, 0, Finished)
    else
      var r := RunByte(f, data[0], log, skip);
      if r.end != Finished then r
      else
        var rest := RunAll(r.f, data[1..], r.log, skip);
        rest.(used := rest.used + 1)
  }
}
