/** Chunked bodies as section 4.1 of RFC 7230 writes them, and what the parser makes of them. */
module HttpBodies {
  import opened HttpChars
  import opened HttpParser
  import opened HttpInvariant
  import opened HttpRuns
  import opened HttpSegments
  import opened HttpHeaders
  import opened HttpMessages

  /** A byte the `unhex` table takes for a digit. */
  predicate IsSizeByte(c: char) {
    Unhex(c) >= 0
  }

  /** The base-16 value of a size. */
  function HexOf(s: string): nat
    requires forall c <- s :: IsSizeByte(c)
  {
    if s == [] then 0
    else
      assert IsSizeByte(s[|s| - 1]) && forall c <- s[..|s| - 1] :: c in s;
      16 * HexOf(s[..|s| - 1]) + Unhex(s[|s| - 1])
  }

  predicate GoodSize(s: string) {
    && |s| > 0 && (forall c <- s :: IsSizeByte(c))
    && forall i | 0 < i < |s| :: (forall c <- s[..i] :: IsSizeByte(c)) && HexOf(s[..i]) <= (ULLONG_MAX - 16) / 16
  }

  predicate GoodExtension(e: string) {
    e == [] || ((e[0] == ';' || e[0] == ' ') && CR !in e)
  }

  datatype SizeLine = SizeLine(size: string, extension: string) {
    function Text(): string {
      size + extension + CRLF
    }

    predicate Good() {
      GoodSize(size) && GoodExtension(extension) && |Text()| <= MAX_HEADER_SIZE
    }
  }

  /** Parsing a size: the digits fold to base 16 and never reach the 64-bit sentinel. */
  lemma {:induction false} SizeRun(f: Fields, s: string, log: seq<Event>, skip: Fields -> bool)
    requires f.state.ChunkSizeStart? && GoodSize(s) && f.nread + |s| <= MAX_HEADER_SIZE
    ensures HexOf(s) < ULLONG_MAX
    ensures Takes(f, s, log, skip, f.(state := ChunkSize, length := HexOf(s), nread := f.nread + |s|), log)
    decreases |s|
  {
    hide Takes, Unhex, Case;
    var n := |s| - 1;
    assert s[n] in s;
    HexLast(s);
    UnhexRange(s[n]);
    if n == 0 {
      assert s[..0] == [] && s == [s[0]];
      SizeByteCase(f.(nread := f.nread + 1), s[0], skip);
      OneByte(f, s[0], log, skip);
    } else {
      GoodPrefix(s, n);
      SizeRun(f, s[..n], log, skip);
      var g := f.(state := ChunkSize, length := HexOf(s[..n]), nread := f.nread + n);
      ScaleExact(g.length, 16, Unhex(s[n]));
      SizeByteCase(g.(nread := g.nread + 1), s[n], skip);
      MoreBytes(f, s, log, skip, g, log);
    }
  }

  lemma UnhexRange(c: char)
    ensures -1 <= Unhex(c) < 16 && (c == CR || c == LF || c == ';' || c == ' ' ==> Unhex(c) == -1)
  {
  }

  lemma HexLast(s: string)
    requires |s| > 0 && forall c <- s :: IsSizeByte(c)
    ensures (forall c <- s[..|s| - 1] :: IsSizeByte(c)) && s[|s| - 1] in s
    ensures IsSizeByte(s[|s| - 1])
    ensures HexOf(s) == 16 * HexOf(s[..|s| - 1]) + Unhex(s[|s| - 1])
  {
    assert s[|s| - 1] in s && forall c <- s[..|s| - 1] :: c in s;
  }

  lemma GoodPrefix(s: string, n: nat)
    requires GoodSize(s) && 0 < n < |s|
    ensures GoodSize(s[..n]) && HexOf(s[..n]) <= (ULLONG_MAX - 16) / 16
  {
    assert forall c <- s[..n] :: IsSizeByte(c);
    forall i | 0 < i < n
      ensures (forall c <- s[..n][..i] :: IsSizeByte(c)) && HexOf(s[..n][..i]) <= (ULLONG_MAX - 16) / 16
    {
      assert s[..n][..i] == s[..i];
    }
  }

  lemma SizeByteCase(f: Fields, ch: char, skip: Fields -> bool)
    ensures f.state.ChunkSizeStart? && IsSizeByte(ch) ==>
              Case(f, ch, skip) == Go(f.(length := Unhex(ch), state := ChunkSize))
    ensures f.state.ChunkSize? && ch != CR && IsSizeByte(ch) && f.length <= (ULLONG_MAX - 16) / 16 ==>
              Case(f, ch, skip) == Go(f.(length := Scale(f.length, 16, Unhex(ch))))
    ensures f.state.ChunkSize? && (ch == ';' || ch == ' ') ==> Case(f, ch, skip) == Go(f.(state := ChunkParameters))
    ensures f.state.ChunkParameters? && ch != CR ==> Case(f, ch, skip) == Go(f)
    ensures (f.state.ChunkSize? || f.state.ChunkParameters?) && ch == CR ==> Case(f, ch, skip) == Go(f.(state := ChunkSizeAlmostDone))
    ensures f.state.ChunkSizeAlmostDone? && ch == LF ==>
              Case(f, ch, skip) == if f.length == 0 then Go(f.(nread := 0, flags := f.flags.(trailing := true), state := FieldStart))
                                   else Go(f.(nread := 0, state := ChunkData))
  {
    hide HeaderCase, UrlCase, VersionCase, Scale;
  }

  /** A chunk extension is skipped. */
  lemma {:induction false} ExtensionRun(f: Fields, e: string, log: seq<Event>, skip: Fields -> bool)
    requires f.state.ChunkSize? && GoodExtension(e) && e != [] && f.nread + |e| <= MAX_HEADER_SIZE
    ensures Takes(f, e, log, skip, f.(state := ChunkParameters, nread := f.nread + |e|), log)
    decreases |e|
  {
    hide Takes, Case, Unhex;
    var n := |e| - 1;
    if n == 0 {
      assert e == [e[0]];
      SizeByteCase(f.(nread := f.nread + 1), e[0], skip);
      OneByte(f, e[0], log, skip);
    } else {
      assert e[n] in e;
      assert CR !in e[..n];
      ExtensionRun(f, e[..n], log, skip);
      var g := f.(state := ChunkParameters, nread := f.nread + n);
      SizeByteCase(g.(nread := g.nread + 1), e[n], skip);
      MoreBytes(f, e, log, skip, g, log);
    }
  }

  /** The struct a size line leaves. */
  function AfterSize(f: Fields, length: nat): Fields {
    if length == 0 then f.(state := FieldStart, nread := 0, length := 0, flags := f.flags.(trailing := true))
    else f.(state := ChunkData, nread := 0, length := length)
  }

  lemma SizeLineRun(f: Fields, line: SizeLine, log: seq<Event>, skip: Fields -> bool)
    requires f.state.ChunkSizeStart? && f.nread == 0 && line.Good()
    ensures Takes(f, line.Text(), log, skip, AfterSize(f, HexOf(line.size)), log)
  {
    hide Takes, Case, Unhex, GoodSize, HexOf, MAX_HEADER_SIZE;
    GoodSizeBytes(line.size);
    var n := HexOf(line.size);
    SizeRun(f, line.size, log, skip);
    var a := f.(state := ChunkSize, length := n, nread := |line.size|);
    var b := a;
    if line.extension == [] {
      assert line.size + line.extension == line.size;
    } else {
      ExtensionRun(a, line.extension, log, skip);
      b := a.(state := ChunkParameters, nread := a.nread + |line.extension|);
      Compose(f, line.size, line.extension, log, skip, a, log, b, log);
    }
    var c := b.(state := ChunkSizeAlmostDone, nread := b.nread + 1);
    SizeByteCase(b.(nread := b.nread + 1), CR, skip);
    OneByte(b, CR, log, skip);
    Compose(f, line.size + line.extension, [CR], log, skip, b, log, c, log);
    SizeByteCase(c.(nread := c.nread + 1), LF, skip);
    OneByte(c, LF, log, skip);
    Compose(f, line.size + line.extension + [CR], [LF], log, skip, c, log, AfterSize(f, n), log);
    assert line.size + line.extension + [CR] + [LF] == line.Text();
  }

  lemma GoodSizeBytes(s: string)
    requires GoodSize(s)
    ensures |s| > 0 && forall c <- s :: IsSizeByte(c)
  {
  }

  // ---------------------------------------------------------------- chunks

  datatype Chunk = Chunk(line: SizeLine, bytes: string) {
    function Text(): string {
      line.Text() + bytes + CRLF
    }

    predicate Good() {
      line.Good() && |bytes| > 0 && GoodSize(line.size) && HexOf(line.size) == |bytes|
    }
  }

  /** The line end after the data of a chunk; no callback is due for data already delivered. */
  lemma ChunkEnd(f: Fields, log: seq<Event>, skip: Fields -> bool)
    requires f.state.ChunkDataAlmostDone?
    ensures Takes(f, CRLF, log, skip, f.(state := ChunkSizeStart, nread := 0), log)
  {
    hide Takes;
    var g := f.(state := ChunkDataDone);
    SingleByte(f, CR, log, skip);
    SingleByte(g, LF, log, skip);
    BodyEndBytes(f, log, skip);
    BodyEndBytes(g, log, skip);
    assert Takes(f, [CR], log, skip, g, log) by { TakesOne(f, CR, log, skip, g, log); }
    assert Takes(g, [LF], log, skip, g.(state := ChunkSizeStart, nread := 0), log) by {
      TakesOne(g, LF, log, skip, g.(state := ChunkSizeStart, nread := 0), log);
    }
    Compose(f, [CR], [LF], log, skip, g, log, f.(state := ChunkSizeStart, nread := 0), log);
    assert [CR] + [LF] == CRLF;
  }

  lemma TakesOne(f: Fields, ch: char, log: seq<Event>, skip: Fields -> bool, g: Fields, l: seq<Event>)
    requires RunByte(f, ch, log, skip) == Run(g, l, 1, Finished)
    ensures Takes(f, [ch], log, skip, g, l)
  {
    hide RunAll, RunByte;
    SingleByte(f, ch, log, skip);
  }

  lemma BodyEndBytes(f: Fields, log: seq<Event>, skip: Fields -> bool)
    ensures f.state.ChunkDataAlmostDone? ==> RunByte(f, CR, log, skip) == Run(f.(state := ChunkDataDone), log, 1, Finished)
    ensures f.state.ChunkDataDone? ==>
              RunByte(f, LF, log, skip) == Run(f.(nread := 0, state := ChunkSizeStart), log, 1, Finished)
  {
    hide HeaderCase, UrlCase, VersionCase, StartCase, MethodCase, ChunkCase;
  }

  /** One chunk delivers exactly its bytes and leaves the machine ready for the next. */
  lemma ChunkRun(f: Fields, c: Chunk, rest: string, log: seq<Event>, skip: Fields -> bool)
    requires f.state.ChunkSizeStart? && f.nread == 0 && c.Good()
    ensures RunAll(f, c.Text() + rest, log, skip) ==
            Shift(RunAll(f.(length := 0), rest, Append(log, Data(Body, c.bytes)), skip), |c.Text()|)
  {
    hide RunAll, GoodSize, HexOf, Append;
    var n := |c.bytes|;
    var l := Append(log, Data(Body, c.bytes));
    var a := f.(state := ChunkData, length := n);
    SizeLineRun(f, c.line, log, skip);
    var tail := c.bytes + (CRLF + rest);
    assert c.Text() + rest == c.line.Text() + tail;
    RunAllConcat(f, c.line.Text(), tail, log, skip);
    BodyWhole(a, c.bytes, CRLF + rest, log, skip);
    var b := f.(state := ChunkDataAlmostDone, length := 0);
    ChunkEnd(b, l, skip);
    RunAllConcat(b, CRLF, rest, l, skip);
  }

  predicate GoodChunks(cs: seq<Chunk>) {
    forall c <- cs :: c.Good()
  }

  function ChunkText(cs: seq<Chunk>): string {
    if cs == [] then [] else cs[0].Text() + ChunkText(cs[1..])
  }

  /** The payload a list of chunks carries. */
  function Payload(cs: seq<Chunk>): string {
    if cs == [] then [] else cs[0].bytes + Payload(cs[1..])
  }

  function BodyLog(log: seq<Event>, bytes: string): seq<Event> {
    if bytes == [] then log else Append(log, Data(Body, bytes))
  }

  lemma BodyLogTwice(log: seq<Event>, a: string, b: string)
    ensures BodyLog(BodyLog(log, a), b) == BodyLog(log, a + b)
  {
    if a == [] {
      assert a + b == b;
    } else if b == [] {
      assert a + b == a;
    } else {
      AppendTwice(log, Body, a, b);
    }
  }

  /** Decoding inverts encoding: the bodies of the chunks join to the payload. */
  lemma {:induction false} ChunksRun(f: Fields, cs: seq<Chunk>, rest: string, log: seq<Event>, skip: Fields -> bool)
    requires f.state.ChunkSizeStart? && f.nread == 0 && GoodChunks(cs)
    ensures RunAll(f, ChunkText(cs) + rest, log, skip) ==
            Shift(RunAll(if cs == [] then f else f.(length := 0), rest, BodyLog(log, Payload(cs)), skip), |ChunkText(cs)|)
    decreases |cs|
  {
    hide RunAll, Append, Chunk.Good, Chunk.Text, BodyLog;
    if cs == [] {
      assert ChunkText(cs) + rest == rest;
      NoBytes(log);
    } else {
      var c := cs[0];
      assert c.Good();
      SomeBytes(log, c);
      assert ChunkText(cs) + rest == c.Text() + (ChunkText(cs[1..]) + rest);
      ChunkRun(f, c, ChunkText(cs[1..]) + rest, log, skip);
      ChunksRun(f.(length := 0), cs[1..], rest, Append(log, Data(Body, c.bytes)), skip);
      BodyLogTwice(log, c.bytes, Payload(cs[1..]));
    }
  }

  lemma NoBytes(log: seq<Event>)
    ensures BodyLog(log, []) == log
  {
  }

  lemma SomeBytes(log: seq<Event>, c: Chunk)
    requires c.Good()
    ensures BodyLog(log, c.bytes) == Append(log, Data(Body, c.bytes))
  {
    hide GoodSize, HexOf, Append;
  }

  // ---------------------------------------------------------------- whole chunked bodies

  /** A chunked body: chunks, the last size line, trailer lines and the blank line. */
  datatype CodedBody = CodedBody(chunks: seq<Chunk>, last: SizeLine, trailers: seq<Header>, blank: Eol) {
    function Text(): string {
      ChunkText(chunks) + (last.Text() + (Lines(trailers) + blank.Text()))
    }

    /** The bytes counted behind the last size line. */
    function Counted(): nat {
      |Lines(trailers)| + |blank.Text()|
    }

    predicate Good() {
      && GoodChunks(chunks) && last.Good() && GoodSize(last.size) && HexOf(last.size) == 0
      && GoodHeaders(trailers) && Counted() <= MAX_HEADER_SIZE
    }
  }

  /** The blank line that ends the trailers completes the message. */
  lemma TrailerEnd(f: Fields, blank: Eol, log: seq<Event>, skip: Fields -> bool)
    requires f.state.FieldStart? && f.flags.trailing && f.nread + |blank.Text()| <= MAX_HEADER_SIZE
    ensures Takes(f, blank.Text(), log, skip, f.(state := NewMessage(f), nread := f.nread + |blank.Text()|),
                  Append(log, MessageComplete(KeepAlive(f))))
  {
    hide Takes, Case, IsToken, Token, KeepAlive;
    var l := Append(log, MessageComplete(KeepAlive(f)));
    if blank.CrLf? {
      var a := f.(state := HeadersAlmostDone, nread := f.nread + 1);
      CaseIsHeader(f.(nread := f.nread + 1), CR, skip);
      OneByte(f, CR, log, skip);
      CompleteCase(a.(nread := a.nread + 1), skip);
      OneByte(a, LF, log, skip);
      KeepAliveLooks(f, a.(nread := a.nread + 1));
      Compose(f, [CR], [LF], log, skip, a, log, f.(state := NewMessage(f), nread := f.nread + 2), l);
      assert [CR] + [LF] == CRLF;
    } else {
      var c := f.(nread := f.nread + 1);
      CaseIsHeader(c, LF, skip);
      CompleteCase(c.(state := HeadersAlmostDone), skip);
      KeepAliveLooks(f, c.(state := HeadersAlmostDone));
      AgainThenOn(f, LF, log, skip, c.(state := HeadersAlmostDone), log);
    }
  }

  lemma KeepAliveLooks(f: Fields, g: Fields)
    requires f.major == g.major && f.minor == g.minor && f.flags == g.flags
    ensures KeepAlive(f) == KeepAlive(g)
  {
  }

  lemma CompleteCase(f: Fields, skip: Fields -> bool)
    requires f.state.HeadersAlmostDone? && f.flags.trailing
    ensures Case(f, LF, skip) == Outcome(f.(state := NewMessage(f)), None, Tell(MessageComplete(KeepAlive(f))), Advance)
  {
    hide KeepAlive;
  }

  lemma CodedText(b: CodedBody, rest: string)
    ensures var tail := Lines(b.trailers) + b.blank.Text();
            && b.Text() + rest == ChunkText(b.chunks) + (b.last.Text() + (tail + rest))
            && tail + rest == Lines(b.trailers) + (b.blank.Text() + rest)
            && |b.Text()| == |ChunkText(b.chunks)| + |b.last.Text()| + b.Counted()
  {
    hide ChunkText, Lines;
  }

  /** The struct after the trailers `hs`: their meanings count, though the message is over. */
  predicate AfterTrailers(f: Fields, hs: seq<Header>, counted: nat, g: Fields)
    requires GoodHeaders(hs)
  {
    var m := Effects(Meaning(f.flags, f.length), hs);
    g == f.(state := g.state, header := g.header, index := g.index, flags := m.flags, length := m.length, nread := counted)
  }

  /** Chunked round trip: whatever the chunking, the extensions and the trailers, the payload is
      delivered, then the trailers, then exactly one message-complete. */
  lemma CodedBodyRun(f: Fields, b: CodedBody, rest: string, log: seq<Event>, skip: Fields -> bool) returns (g: Fields)
    requires f.state.ChunkSizeStart? && f.nread == 0 && b.Good()
    ensures g.state == NewMessage(g) && g.flags.trailing
    ensures RunAll(f, b.Text() + rest, log, skip) ==
            Shift(RunAll(g, rest, Append(HeadersLog(BodyLog(log, Payload(b.chunks)), b.trailers), MessageComplete(KeepAlive(g))), skip), |b.Text()|)
    ensures AfterTrailers(AfterSize(f, 0), b.trailers, b.Counted(), g)
  {
    hide RunAll, GoodSize, HexOf, Append, KeepAlive, Lines, ChunkText, BodyLog, Payload, SizeLine.Text, GoodChunks, GoodHeaders;
    var tail := Lines(b.trailers) + b.blank.Text();
    var l1 := BodyLog(log, Payload(b.chunks));
    CodedText(b, rest);
    ChunksRun(f, b.chunks, b.last.Text() + (tail + rest), log, skip);
    var f1 := if b.chunks == [] then f else f.(length := 0);
    SizeLineRun(f1, b.last, l1, skip);
    RunAllConcat(f1, b.last.Text(), tail + rest, l1, skip);
    g := TrailersRun(AfterSize(f1, 0), b.trailers, b.blank, rest, l1, skip);
  }

  /** From the last size line on: the trailers and the blank line. */
  lemma TrailersRun(f: Fields, hs: seq<Header>, blank: Eol, rest: string, log: seq<Event>, skip: Fields -> bool) returns (g: Fields)
    requires f.state.FieldStart? && f.nread == 0 && f.flags.trailing && GoodHeaders(hs) && |Lines(hs)| + |blank.Text()| <= MAX_HEADER_SIZE
    ensures g.state == NewMessage(g) && g.flags.trailing
    ensures RunAll(f, Lines(hs) + (blank.Text() + rest), log, skip) ==
            Shift(RunAll(g, rest, Append(HeadersLog(log, hs), MessageComplete(KeepAlive(g))), skip), |Lines(hs)| + |blank.Text()|)
    ensures AfterTrailers(f, hs, |Lines(hs)| + |blank.Text()|, g)
  {
    hide RunAll, Append, KeepAlive;
    assert !IsBlank((blank.Text() + rest)[0]);
    var h := LinesRun(f, hs, blank.Text() + rest, log, skip);
    TrailingStays(Meaning(f.flags, f.length), hs);
    var l := HeadersLog(log, hs);
    TrailerEnd(h, blank, l, skip);
    RunAllConcat(h, blank.Text(), rest, l, skip);
    g := h.(state := NewMessage(h), nread := h.nread + |blank.Text()|);
    KeepAliveLooks(g, h);
  }

  lemma {:induction false} TrailingStays(m: Meaning, hs: seq<Header>)
    requires GoodHeaders(hs)
    ensures Effects(m, hs).flags.trailing == m.flags.trailing
    decreases |hs|
  {
    hide Effect, Folded;
    if hs != [] {
      assert GoodHeader(hs[0]);
      TrailingKept(m, Folded(hs[0].name), hs[0].value);
      TrailingStays(Effect(m, Folded(hs[0].name), hs[0].value), hs[1..]);
    }
  }

  lemma TrailingKept(m: Meaning, name: string, value: string)
    ensures Effect(m, name, value).flags.trailing == m.flags.trailing
  {
  }
}
