/** The asserts of `http_parser_execute` and the invariant that makes every one of
    them hold, whatever bytes arrive. */
module HttpInvariant {
  import opened HttpChars
  import opened HttpParser

  /** The positions of `index` in each matcher that `s_header_field` can be in. */
  predicate NameMatching(h: HeaderState, index: nat) {
    && (h.C? ==> index == 0)
    && (h.CO? ==> index == 1)
    && (h.CON? ==> index == 2)
    && (h.MatchingConnection? ==> 3 <= index < 9)
    && (h.MatchingContentLength? ==> 3 <= index < 13)
    && (h.MatchingProxyConnection? ==> index < 15)
    && (h.MatchingTransferEncoding? ==> index < 16)
    && (h.MatchingUpgrade? ==> index < 6)
    && !ValueState(h)
  }

  predicate ValueState(h: HeaderState) {
    h.MatchingChunked? || h.MatchingKeepAlive? || h.MatchingClose? || h.Chunked? || h.KeepAliveSeen? || h.CloseSeen?
  }

  /** The same for `s_header_value`. */
  predicate ValueMatching(h: HeaderState, index: nat) {
    && (h.MatchingChunked? ==> index < 6)
    && (h.MatchingKeepAlive? ==> index < 9)
    && (h.MatchingClose? ==> index < 4)
    && (h.General? || h.ContentLength? || ValueState(h))
  }

  predicate LengthKnown(f: Fields) {
    0 < f.length < ULLONG_MAX
  }

  predicate ChunkState(s: State) {
    InChunkSize(s) || s.ChunkData? || s.ChunkDataAlmostDone? || s.ChunkDataDone?
  }

  /** What holds between two case bodies. */
  predicate Sound(f: Fields) {
    && f.length <= ULLONG_MAX && f.major <= 999 && f.minor <= 999 && f.nread <= MAX_HEADER_SIZE
    && (f.flags.trailing ==> f.flags.chunked)
    && (f.state.ReqMethod? ==> 1 <= f.index <= |Name(f.verb)|)
    && (f.state.HeaderField? ==> NameMatching(f.header, f.index))
    && (f.state.HeaderValue? ==> ValueMatching(f.header, f.index) && (f.header.ContentLength? ==> f.length < ULLONG_MAX))
    && (ChunkState(f.state) ==> f.flags.chunked)
    && (f.state.ChunkSize? || f.state.ChunkParameters? || f.state.ChunkSizeAlmostDone? ==> f.length < ULLONG_MAX)
    && (f.state.ChunkData? || f.state.BodyIdentity? ==> LengthKnown(f))
    && (f.state.ChunkDataAlmostDone? ==> f.length == 0)
  }

  /** What holds between two bytes, hence between two calls. */
  predicate Inv(f: Fields) {
    f.errno.OK? && Sound(f) && (f.state.ChunkSizeStart? ==> f.nread == 0)
  }

  /** The asserts met by a case body, and the bounds its table look-ups need. */
  predicate CaseAsserts(f: Fields) {
    && f.errno.OK?
    && (f.state.ReqMethod? ==> f.index <= |Name(f.verb)|)
    && (f.state.HeaderField? ==> NameMatching(f.header, f.index))
    && (f.state.HeaderValue? ==> !f.header.Connection? && !f.header.TransferEncoding?)
    && (f.state.BodyIdentity? || f.state.ChunkData? ==> f.length != 0 && f.length != ULLONG_MAX)
    && (f.state.ChunkSizeStart? ==> f.nread == 1)
    && (f.state.ChunkDataAlmostDone? ==> f.length == 0)
    && (ChunkState(f.state) ==> f.flags.chunked)
  }

  lemma InitSound()
    ensures Inv(Init())
  {
  }

  /** Under the guards, the 64-bit multiply-and-add never wraps or meets the sentinel. */
  lemma ScaleExact(n: nat, base: nat, digit: nat)
    requires base == 10 || base == 16
    requires digit < base
    requires n <= (ULLONG_MAX - base) / base
    ensures Scale(n, base, digit) == n * base + digit < ULLONG_MAX
  {
    if base == 10 {
      assert n * 10 <= ULLONG_MAX - 10;
    } else {
      assert n * 16 <= ULLONG_MAX - 16;
    }
  }

  /** What a case body must leave behind. */
  predicate Leaves(o: Outcome) {
    !o.control.Fail? ==>
      && Sound(o.f) && o.f.errno.OK?
      && (o.f.state.ChunkSizeStart? ==> o.f.nread == 0)
      && (o.control == Again ==> CaseAsserts(o.f))
  }

  /** Every case body keeps the invariant, and enters a chunk with a fresh byte count. */
  lemma CaseKeepsSound(f: Fields, ch: char, skip: Fields -> bool)
    requires Sound(f) && CaseAsserts(f)
    ensures Leaves(Case(f, ch, skip))
  {
    hide StartCase, MethodCase, UrlCase, VersionCase, HeaderCase, ChunkCase, BodyCase, Sound, CaseAsserts, Leaves;
    if f.state.Dead? {
      SimpleKeepsSound(f);
    } else if f.state.StartReq? {
      StartKeepsSound(f, ch);
    } else if f.state.ReqMethod? {
      MethodKeepsSound(f, ch);
    } else if f.state.HeadersAlmostDone? || f.state.HeadersDone? {
      HeadersKeepSound(f, ch, skip);
    } else if f.state == SpacesBeforeUrl || InUrl(f.state) {
      UrlKeepsSound(f, ch);
    } else if InVersion(f.state) {
      VersionKeepsSound(f, ch);
    } else if InHeader(f.state) {
      HeaderKeepsSound(f, ch);
    } else if InChunkSize(f.state) {
      ChunkKeepsSound(f, ch);
    } else {
      BodyKeepsSound(f, ch);
    }
  }

  lemma SimpleKeepsSound(f: Fields)
    requires Sound(f) && CaseAsserts(f) && f.state.Dead?
    ensures Leaves(Go(f)) && Leaves(Stop(f, ClosedConnection))
  {
  }

  lemma StartKeepsSound(f: Fields, ch: char)
    requires Sound(f) && CaseAsserts(f) && f.state.StartReq?
    ensures Leaves(StartCase(f, ch))
  {
  }

  lemma MethodKeepsSound(f: Fields, ch: char)
    requires Sound(f) && CaseAsserts(f) && f.state.ReqMethod?
    ensures Leaves(MethodCase(f, ch))
  {
    hide Name, NextGuess;
    NamesAreShort(f.verb);
    GuessFits(f.verb, f.index, ch);
  }

  lemma NamesAreShort(m: Method)
    ensures 3 <= |Name(m)| <= 11
  {
  }

  lemma GuessFits(m: Method, index: nat, ch: char)
    ensures var next := NextGuess(m, index, ch); next.Some? ==> index < |Name(next.value)| <= 11
  {
  }

  lemma UrlKeepsSound(f: Fields, ch: char)
    requires Sound(f) && CaseAsserts(f) && (f.state == SpacesBeforeUrl || InUrl(f.state))
    ensures Leaves(UrlCase(f, ch))
  {
    hide ParseUrlChar, Name, NameMatching, ValueMatching, LengthKnown, UrlByte;
    UrlByteKeepsSound(f, UrlEntry(f.verb), ch);
    UrlByteKeepsSound(f, f.state, ch);
  }

  lemma UrlByteKeepsSound(f: Fields, from: State, ch: char)
    requires Sound(f) && CaseAsserts(f)
    ensures Leaves(UrlByte(f, from, ch))
  {
    hide ParseUrlChar, Name, NameMatching, ValueMatching, LengthKnown;
    UrlCharStaysInUrl(from, ch);
  }

  lemma UrlCharStaysInUrl(s: State, ch: char)
    ensures ParseUrlChar(s, ch) == Dead || InUrl(ParseUrlChar(s, ch))
  {
  }

  lemma VersionKeepsSound(f: Fields, ch: char)
    requires Sound(f) && CaseAsserts(f) && InVersion(f.state)
    ensures Leaves(VersionCase(f, ch))
  {
    hide Name;
  }

  lemma HeaderKeepsSound(f: Fields, ch: char)
    requires Sound(f) && CaseAsserts(f) && InHeader(f.state)
    ensures Leaves(HeaderCase(f, ch))
  {
    hide IsToken, Token, Name, FieldStartCase, FieldCase, ValueCase, ValueStartCase, FinishHeader;
    FinishKeeps(f);
    if f.state.FieldStart? {
      FieldStartKeepsSound(f, ch);
    } else if f.state.HeaderField? {
      FieldKeepsSound(f, ch);
    } else if f.state.HeaderValue? {
      ValueKeepsSound(f, ch);
    } else if f.state.DiscardWs? || f.state.ValueStart? {
      ValueStartKeepsSound(f, ch);
    }
  }

  lemma FinishKeeps(f: Fields)
    ensures var g := FinishHeader(f);
            && g == f.(flags := g.flags)
            && g.flags.trailing == f.flags.trailing && (f.flags.chunked ==> g.flags.chunked)
  {
  }

  lemma FieldStartKeepsSound(f: Fields, ch: char)
    requires Sound(f) && CaseAsserts(f) && f.state.FieldStart?
    ensures Leaves(FieldStartCase(f, ch))
  {
    hide IsToken, Token, Name;
  }

  /** The three things a matcher can do; it never moves `index` beyond the last letter. */
  lemma MatchStep(f: Fields, c: char, keyword: string, done: HeaderState)
    requires |keyword| < 256 && f.index + 1 < |keyword|
    ensures var g := MatchKeyword(f, c, keyword, done);
            || g == f.(index := f.index + 1, header := General)
            || (g == f.(index := f.index + 1, header := done) && f.index + 2 == |keyword|)
            || (g == f.(index := f.index + 1) && f.index + 2 < |keyword|)
  {
  }

  lemma FieldKeepsSound(f: Fields, ch: char)
    requires Sound(f) && CaseAsserts(f) && f.state.HeaderField?
    ensures Leaves(FieldCase(f, ch))
  {
    hide IsToken, Token, Name, FieldByte;
    if IsToken(ch) {
      FieldByteSound(f, Token(ch));
    }
  }

  lemma FieldByteSound(f: Fields, c: char)
    requires NameMatching(f.header, f.index)
    ensures var g := FieldByte(f, c);
            NameMatching(g.header, g.index) && g == f.(index := g.index, header := g.header)
  {
    hide MatchKeyword;
    if f.header.MatchingConnection? {
      MatchStep(f, c, CONNECTION, Connection);
    } else if f.header.MatchingProxyConnection? {
      MatchStep(f, c, PROXY_CONNECTION, Connection);
    } else if f.header.MatchingContentLength? {
      MatchStep(f, c, CONTENT_LENGTH, ContentLength);
    } else if f.header.MatchingTransferEncoding? {
      MatchStep(f, c, TRANSFER_ENCODING, TransferEncoding);
    } else if f.header.MatchingUpgrade? {
      MatchStep(f, c, UPGRADE, Upgrade);
    }
  }

  lemma ValueStartKeepsSound(f: Fields, ch: char)
    requires Sound(f) && CaseAsserts(f)
    ensures Leaves(ValueStartCase(f, ch))
  {
    hide Name, Lower;
  }

  lemma ValueKeepsSound(f: Fields, ch: char)
    requires Sound(f) && CaseAsserts(f) && f.state.HeaderValue?
    ensures Leaves(ValueCase(f, ch))
  {
    hide Name, ValueByte;
    if f.header.ContentLength? && IsNum(ch) && f.length <= (ULLONG_MAX - 10) / 10 {
      ScaleExact(f.length, 10, DigitValue(ch));
    }
    if !f.header.ContentLength? {
      ValueByteSound(f, ch);
    }
  }

  lemma ValueByteSound(f: Fields, ch: char)
    requires ValueMatching(f.header, f.index) && !f.header.ContentLength?
    ensures var g := ValueByte(f, ch);
            ValueMatching(g.header, g.index) && !g.header.ContentLength? && g == f.(index := g.index, header := g.header)
  {
    hide MatchKeyword, Lower;
    if f.header.MatchingChunked? {
      MatchStep(f, Lower(ch), CHUNKED, Chunked);
    } else if f.header.MatchingKeepAlive? {
      MatchStep(f, Lower(ch), KEEP_ALIVE, KeepAliveSeen);
    } else if f.header.MatchingClose? {
      MatchStep(f, Lower(ch), CLOSE, CloseSeen);
    }
  }

  lemma HeadersKeepSound(f: Fields, ch: char, skip: Fields -> bool)
    requires Sound(f) && CaseAsserts(f)
    ensures f.state.HeadersAlmostDone? ==> Leaves(HeadersCase(f, ch, skip))
    ensures f.state.HeadersDone? ==> Leaves(HeadersDoneCase(f, ch))
  {
  }

  lemma ChunkKeepsSound(f: Fields, ch: char)
    requires Sound(f) && CaseAsserts(f) && InChunkSize(f.state)
    ensures Leaves(ChunkCase(f, ch))
  {
    if f.state.ChunkSize? && Unhex(ch) != -1 && f.length <= (ULLONG_MAX - 16) / 16 {
      ScaleExact(f.length, 16, Unhex(ch));
    }
  }

  lemma BodyKeepsSound(f: Fields, ch: char)
    requires Sound(f) && CaseAsserts(f)
    requires f.state.BodyIdentity? || f.state.MessageDone? || f.state.ChunkData? || f.state.ChunkDataAlmostDone? || f.state.ChunkDataDone?
    ensures Leaves(BodyCase(f, ch))
  {
  }

  /** What a byte needs, it gets: before every case body its asserts hold. */
  lemma SettleSound(f: Fields, ch: char, log: seq<Event>, skip: Fields -> bool)
    requires Sound(f) && CaseAsserts(f)
    ensures var r := Settle(f, ch, log, skip);
            (r.end != Failed ==> Inv(r.f)) && r.used == if r.end == Failed then 0 else 1
    decreases Rank(f.state)
  {
    hide Case, Sound, CaseAsserts, Emit;
    var o := Case(f, ch, skip);
    if !o.control.Fail? {
      CaseKeepsSound(f, ch, skip);
      if o.control == Again {
        AgainLowersRank(f, ch, skip);
        SettleSound(o.f, ch, Emit(log, o, ch), skip);
      }
    }
  }

  /** Safety over whole runs: from a sound struct, any input leaves a sound struct or an error. */
  lemma {:induction false} RunAllSound(f: Fields, data: string, log: seq<Event>, skip: Fields -> bool)
    requires Inv(f)
    ensures var r := RunAll(f, data, log, skip);
            r.used <= |data| && (r.end != Failed ==> Inv(r.f)) && (r.end == Finished ==> r.used == |data|)
    decreases |data|
  {
    hide Settle;
    if data != [] {
      var g := if ParsingHeader(f.state) then f.(nread := f.nread + 1) else f;
      if g.nread <= MAX_HEADER_SIZE {
        SettleSound(g, data[0], log, skip);
      }
      var r := RunByte(f, data[0], log, skip);
      if r.end == Finished {
        RunAllSound(r.f, data[1..], r.log, skip);
      }
    }
  }
}
