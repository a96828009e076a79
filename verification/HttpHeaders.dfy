/** The header matchers of the parser against plain comparison of names and values. */
module HttpHeaders {
  import opened HttpChars
  import opened HttpParser
  import opened HttpInvariant
  import opened HttpRuns
  import opened HttpSegments

  // ---------------------------------------------------------------- plain definitions

  predicate AllTokens(s: string) {
    forall c <- s :: IsToken(c)
  }

  /** A name with its letters lower-cased. */
  function Folded(s: string): (l: string)
    requires AllTokens(s)
    ensures |l| == |s|
  {
    if s == [] then [] else Folded(s[..|s| - 1]) + [Token(s[|s| - 1])]
  }

  function Lowered(s: string): (l: string)
    ensures |l| == |s|
  {
    if s == [] then [] else Lowered(s[..|s| - 1]) + [Lower(s[|s| - 1])]
  }

  predicate AllSpaces(s: string) {
    forall c <- s :: c == ' '
  }

  /** The value is the keyword, in any case, then only spaces. */
  predicate IsWord(v: string, keyword: string) {
    |v| >= |keyword| && Lowered(v[..|keyword|]) == keyword && AllSpaces(v[|keyword|..])
  }

  predicate AllText(v: string) {
    forall c <- v :: c != CR && c != LF
  }

  /** The base-10 value of the digits, spaces skipped. */
  function DecimalOf(v: string): nat {
    if v == [] then 0
    else
      var c := v[|v| - 1];
      if IsNum(c) then 10 * DecimalOf(v[..|v| - 1]) + DigitValue(c) else DecimalOf(v[..|v| - 1])
  }

  /** The values Content-Length accepts: a digit, then digits and spaces, each digit
      added to a number small enough to leave room for it. */
  predicate IsLength(v: string) {
    && |v| > 0 && IsNum(v[0])
    && forall i | 0 < i < |v| ::
         v[i] == ' ' || (IsNum(v[i]) && DecimalOf(v[..i]) <= (ULLONG_MAX - 10) / 10)
  }

  // ---------------------------------------------------------------- names

  function KeywordState(l: string, keyword: string, matching: HeaderState, done: HeaderState): HeaderState {
    if l == keyword then done else if l <= keyword then matching else General
  }

  /** The header state after a lower-cased name, told by comparing with the keywords. */
  function NameState(l: string): HeaderState
    requires |l| > 0
  {
    if l[0] == 'p' then KeywordState(l, PROXY_CONNECTION, MatchingProxyConnection, Connection)
    else if l[0] == 't' then KeywordState(l, TRANSFER_ENCODING, MatchingTransferEncoding, TransferEncoding)
    else if l[0] == 'u' then KeywordState(l, UPGRADE, MatchingUpgrade, Upgrade)
    else if l[0] != 'c' then General
    else if |l| == 1 then C
    else if l[1] != 'o' then General
    else if |l| == 2 then CO
    else if l[2] != 'n' then General
    else if |l| == 3 then CON
    else if l[3] == 'n' then KeywordState(l, CONNECTION, MatchingConnection, Connection)
    else if l[3] == 't' then KeywordState(l, CONTENT_LENGTH, MatchingContentLength, ContentLength)
    else General
  }

  /** The special header states are entered exactly by the keywords. */
  lemma NameStateExact(l: string)
    requires |l| > 0
    ensures NameState(l) == Connection <==> l == CONNECTION || l == PROXY_CONNECTION
    ensures NameState(l) == ContentLength <==> l == CONTENT_LENGTH
    ensures NameState(l) == TransferEncoding <==> l == TRANSFER_ENCODING
    ensures NameState(l) == Upgrade <==> l == UPGRADE
  {
  }

  predicate NameSettled(h: HeaderState) {
    h.General? || h.Connection? || h.ContentLength? || h.TransferEncoding? || h.Upgrade?
  }

  /** While a keyword is being matched, `index` is the position of the last byte. */
  predicate NameTracked(f: Fields, l: string) {
    && f.state.HeaderField? && |l| > 0 && f.header == NameState(l)
    && (!NameSettled(f.header) ==> f.index == |l| - 1)
  }

  lemma KeywordStep(f: Fields, l: string, c: char, keyword: string, matching: HeaderState, done: HeaderState)
    requires 0 < |l| && |keyword| < 255 && f.header == KeywordState(l, keyword, matching, done)
    requires matching != done && matching != General && done != General
    requires f.header == matching ==> f.index == |l| - 1
    ensures var g := if f.header == matching then MatchKeyword(f, c, keyword, done) else f.(header := General);
            g.header == KeywordState(l + [c], keyword, matching, done) && (g.header == matching ==> g.index == |l|)
    ensures f.header in {matching, done, General} && KeywordState(l + [c], keyword, matching, done) in {matching, done, General}
  {
    var m := l + [c];
    assert m[..|l|] == l;
    if m <= keyword {
      assert l <= keyword;
    }
  }

  lemma NameByte(f: Fields, l: string, c: char)
    requires NameTracked(f, l)
    ensures NameTracked(FieldByte(f, c), l + [c])
    ensures FieldByte(f, c) == f.(header := FieldByte(f, c).header, index := FieldByte(f, c).index)
  {
    hide KeywordState, MatchKeyword;
    MatchKeeps(f, c);
    assert forall i | 0 <= i < |l| :: (l + [c])[i] == l[i];
    if l[0] == 'p' {
      KeywordStep(f, l, c, PROXY_CONNECTION, MatchingProxyConnection, Connection);
    } else if l[0] == 't' {
      KeywordStep(f, l, c, TRANSFER_ENCODING, MatchingTransferEncoding, TransferEncoding);
    } else if l[0] == 'u' {
      KeywordStep(f, l, c, UPGRADE, MatchingUpgrade, Upgrade);
    } else if |l| > 3 && l[0] == 'c' && l[1] == 'o' && l[2] == 'n' && l[3] == 'n' {
      assert NameState(l + [c]) == KeywordState(l + [c], CONNECTION, MatchingConnection, Connection);
      KeywordStep(f, l, c, CONNECTION, MatchingConnection, Connection);
    } else if |l| > 3 && l[0] == 'c' && l[1] == 'o' && l[2] == 'n' && l[3] == 't' {
      assert NameState(l + [c]) == KeywordState(l + [c], CONTENT_LENGTH, MatchingContentLength, ContentLength);
      KeywordStep(f, l, c, CONTENT_LENGTH, MatchingContentLength, ContentLength);
    } else {
      ShortName(f, l, c);
    }
  }

  lemma MatchKeeps(f: Fields, c: char)
    ensures FieldByte(f, c) == f.(header := FieldByte(f, c).header, index := FieldByte(f, c).index)
  {
  }

  lemma ShortName(f: Fields, l: string, c: char)
    requires NameTracked(f, l) && l[0] != 'p' && l[0] != 't' && l[0] != 'u'
    requires !(|l| > 3 && l[0] == 'c' && l[1] == 'o' && l[2] == 'n' && (l[3] == 'n' || l[3] == 't'))
    ensures NameTracked(FieldByte(f, c), l + [c])
  {
    hide MatchKeyword;
    var m := l + [c];
    assert forall i | 0 <= i < |l| :: m[i] == l[i];
    if |m| == 4 && m[0] == 'c' && m[1] == 'o' && m[2] == 'n' {
      assert m == "con" + [c];
      assert "conn" <= CONNECTION && "cont" <= CONTENT_LENGTH;
      assert c == 'n' ==> m == "conn";
      assert c == 't' ==> m == "cont";
    }
  }

  lemma FirstNameByte(f: Fields, ch: char)
    requires f.state.FieldStart? && IsToken(ch)
    ensures var o := FieldStartCase(f, ch);
            && o == Keep(f.(state := HeaderField, index := 0, header := o.f.header), Field)
            && NameTracked(o.f, [Token(ch)])
  {
    hide IsToken;
    var c := Token(ch);
    assert PROXY_CONNECTION[..1] == "p" && TRANSFER_ENCODING[..1] == "t" && UPGRADE[..1] == "u";
    assert ch != CR && ch != LF by { NewlinesAreNoTokens(); }
  }

  lemma NewlinesAreNoTokens()
    ensures !IsToken(CR) && !IsToken(LF) && !IsToken(' ') && !IsToken('\t') && !IsToken(':')
  {
  }

  lemma FoldedOne(name: string)
    requires |name| > 0 && AllTokens(name)
    ensures Folded(name[..1]) == [Token(name[0])]
  {
    assert name[..1][..0] == [];
  }

  lemma CaseIsHeader(f: Fields, ch: char, skip: Fields -> bool)
    ensures f.state.FieldStart? ==> Case(f, ch, skip) == FieldStartCase(f, ch)
    ensures f.state.HeaderField? ==> Case(f, ch, skip) == FieldCase(f, ch)
    ensures f.state.HeaderValue? ==> Case(f, ch, skip) == ValueCase(f, ch)
  {
    hide FieldStartCase, FieldCase, ValueCase, ValueStartCase, UrlCase, VersionCase;
  }

  lemma CaseIsValueStart(f: Fields, ch: char, skip: Fields -> bool)
    requires f.state.DiscardWs? && ch != ' ' && ch != '\t' && ch != CR && ch != LF
    ensures Case(f, ch, skip) == ValueStartCase(f, ch)
  {
    hide FieldStartCase, FieldCase, ValueCase, ValueStartCase, UrlCase, VersionCase;
  }

  /** A name is delivered as one piece of field data, and leaves the state its comparison tells. */
  lemma {:induction false} NameRun(f: Fields, name: string, log: seq<Event>, skip: Fields -> bool) returns (g: Fields)
    requires f.state.FieldStart? && |name| > 0 && AllTokens(name) && f.nread + |name| <= MAX_HEADER_SIZE
    ensures g == f.(state := HeaderField, header := g.header, index := g.index, nread := f.nread + |name|)
    ensures NameTracked(g, Folded(name))
    ensures Takes(f, name, log, skip, g, Append(log, Data(Field, name)))
    decreases |name|
  {
    hide Takes, IsToken, Token, FieldByte, NameState, Case;
    var n := |name| - 1;
    if n == 0 {
      CaseIsHeader(f.(nread := f.nread + 1), name[0], skip);
      FirstNameByte(f.(nread := f.nread + 1), name[0]);
      OneByte(f, name[0], log, skip);
      FoldedOne(name);
      assert name == [name[0]] == name[..1];
      g := FieldStartCase(f.(nread := f.nread + 1), name[0]).f;
    } else {
      var h := NameRun(f, name[..n], log, skip);
      NameByte(h.(nread := h.nread + 1), Folded(name[..n]), Token(name[n]));
      CaseIsHeader(h.(nread := h.nread + 1), name[n], skip);
      MoreBytes(f, name, log, skip, h, Append(log, Data(Field, name[..n])));
      AppendTwice(log, Field, name[..n], [name[n]]);
      assert name[..n] + [name[n]] == name;
      g := FieldByte(h.(nread := h.nread + 1), Token(name[n]));
    }
  }

  // ---------------------------------------------------------------- values

  /** The matcher state after a value, told by comparing it with a keyword. */
  function WordState(v: string, keyword: string, matching: HeaderState, done: HeaderState): HeaderState {
    if |v| < |keyword| then (if Lowered(v) <= keyword then matching else General)
    else if IsWord(v, keyword) then done
    else General
  }

  lemma LoweredPrefix(v: string, k: nat)
    requires k <= |v|
    ensures Lowered(v[..k]) == Lowered(v)[..k]
  {
    if k < |v| {
      LoweredPrefix(v[..|v| - 1], k);
      assert v[..|v| - 1][..k] == v[..k];
    } else {
      assert v[..k] == v;
    }
  }

  lemma LoweredSnoc(v: string, ch: char)
    ensures Lowered(v + [ch]) == Lowered(v) + [Lower(ch)]
  {
    assert (v + [ch])[..|v|] == v;
  }

  /** What a value matcher does with one more byte. */
  function WordByte(f: Fields, ch: char, keyword: string, matching: HeaderState, done: HeaderState): Fields
    requires |keyword| > 0
  {
    if f.header == matching then MatchKeyword(f, Lower(ch), keyword, done)
    else if f.header == done && ch == ' ' then f
    else f.(header := General)
  }

  lemma WordStep(f: Fields, v: string, ch: char, keyword: string, matching: HeaderState, done: HeaderState)
    requires 0 < |v| && 0 < |keyword| < 255 && f.header == WordState(v, keyword, matching, done)
    requires matching != done && matching != General && done != General
    requires f.header == matching ==> f.index == |v| - 1
    ensures var g := WordByte(f, ch, keyword, matching, done);
            g.header == WordState(v + [ch], keyword, matching, done) && (g.header == matching ==> g.index == |v|)
  {
    hide Lower, IsWord;
    var w := v + [ch];
    LoweredSnoc(v, ch);
    if |v| >= |keyword| {
      IsWordSnoc(v, ch, keyword);
    } else if |w| == |keyword| {
      WholeWord(w, keyword);
      if Lowered(w) == keyword {
        assert Lowered(v) == keyword[..|v|];
      }
    } else if Lowered(w) <= keyword {
      assert Lowered(v) <= keyword;
    }
  }

  lemma WholeWord(w: string, keyword: string)
    requires |w| == |keyword|
    ensures IsWord(w, keyword) <==> Lowered(w) == keyword
  {
    assert w[..|keyword|] == w && w[|keyword|..] == [];
  }

  lemma IsWordSnoc(v: string, ch: char, keyword: string)
    requires |v| >= |keyword|
    ensures IsWord(v + [ch], keyword) <==> IsWord(v, keyword) && ch == ' '
  {
    var k := |keyword|;
    var w := v + [ch];
    assert w[..k] == v[..k];
    assert w[k..] == v[k..] + [ch];
    assert AllSpaces(w[k..]) <==> AllSpaces(v[k..]) && ch == ' ' by {
      if AllSpaces(w[k..]) {
        assert forall c <- v[k..] :: c in w[k..];
        assert ch in w[k..];
      }
    }
  }

  /** The header state a value leaves, given the one its name left. */
  function ValueState(h: HeaderState, v: string): HeaderState
    requires |v| > 0
  {
    if h.ContentLength? then ContentLength
    else if h.TransferEncoding? then WordState(v, CHUNKED, MatchingChunked, Chunked)
    else if h.Connection? && Lower(v[0]) == 'k' then WordState(v, KEEP_ALIVE, MatchingKeepAlive, KeepAliveSeen)
    else if h.Connection? then WordState(v, CLOSE, MatchingClose, CloseSeen)
    else General
  }

  predicate ValueTracked(f: Fields, h: HeaderState, v: string) {
    && f.state.HeaderValue? && |v| > 0 && f.header == ValueState(h, v)
    && (f.header in {MatchingChunked, MatchingKeepAlive, MatchingClose} ==> f.index == |v| - 1)
    && (h.ContentLength? ==> f.length == DecimalOf(v) < ULLONG_MAX)
  }

  lemma OneLetter(ch: char, keyword: string, matching: HeaderState, done: HeaderState)
    requires |keyword| > 1
    ensures WordState([ch], keyword, matching, done) == if Lower(ch) == keyword[0] then matching else General
  {
    assert [ch][..0] == [];
    assert Lowered([ch]) == [Lower(ch)];
  }

  lemma FirstValueByte(f: Fields, ch: char)
    requires f.state.DiscardWs? || f.state.ValueStart?
    requires f.header.ContentLength? ==> IsNum(ch)
    ensures var o := ValueStartCase(f, ch);
            && o == Keep(f.(state := HeaderValue, index := 0, header := o.f.header, length := o.f.length,
                            flags := if f.header.Upgrade? then f.flags.(upgrade := true) else f.flags), Value)
            && (!f.header.ContentLength? ==> o.f.length == f.length)
            && ValueTracked(o.f, f.header, [ch])
  {
    hide Lower, WordState;
    OneLetter(ch, CHUNKED, MatchingChunked, Chunked);
    OneLetter(ch, KEEP_ALIVE, MatchingKeepAlive, KeepAliveSeen);
    OneLetter(ch, CLOSE, MatchingClose, CloseSeen);
    assert CHUNKED[0] == 'c' && KEEP_ALIVE[0] == 'k' && CLOSE[0] == 'c';
    assert [ch][..0] == [];
    var o := ValueStartCase(f, ch);
    if f.header.ContentLength? {
      assert DecimalOf([ch]) == DigitValue(ch);
    }
    assert o.f.header == ValueState(f.header, [ch]);
  }

  lemma WordRange(v: string, keyword: string, matching: HeaderState, done: HeaderState)
    ensures WordState(v, keyword, matching, done) in {matching, done, General}
  {
  }

  /** One more byte of a value whose header is not Content-Length. */
  lemma NextValueByte(f: Fields, h: HeaderState, v: string, ch: char)
    requires ValueTracked(f, h, v) && !h.ContentLength? && ch != CR && ch != LF
    ensures var o := ValueCase(f, ch);
            && o == Keep(f.(header := o.f.header, index := o.f.index), Value)
            && ValueTracked(o.f, h, v + [ch])
  {
    hide Lower, WordState, MatchKeyword;
    assert (v + [ch])[0] == v[0];
    ByteKeeps(f, ch);
    if h.TransferEncoding? {
      WordByteIs(f, v, ch, CHUNKED, MatchingChunked, Chunked);
    } else if h.Connection? && Lower(v[0]) == 'k' {
      WordByteIs(f, v, ch, KEEP_ALIVE, MatchingKeepAlive, KeepAliveSeen);
    } else if h.Connection? {
      WordByteIs(f, v, ch, CLOSE, MatchingClose, CloseSeen);
    }
  }

  lemma ByteKeeps(f: Fields, ch: char)
    ensures ValueByte(f, ch) == f.(header := ValueByte(f, ch).header, index := ValueByte(f, ch).index)
  {
    hide Lower;
  }

  lemma WordByteIs(f: Fields, v: string, ch: char, keyword: string, matching: HeaderState, done: HeaderState)
    requires 0 < |v| && f.header == WordState(v, keyword, matching, done)
    requires f.header == matching ==> f.index == |v| - 1
    requires (keyword, matching, done) in {(CHUNKED, MatchingChunked, Chunked), (KEEP_ALIVE, MatchingKeepAlive, KeepAliveSeen), (CLOSE, MatchingClose, CloseSeen)}
    ensures var g := ValueByte(f, ch);
            g.header == WordState(v + [ch], keyword, matching, done) && (g.header == matching ==> g.index == |v|)
    ensures f.header in {matching, done, General} && ValueByte(f, ch).header in {matching, done, General}
  {
    hide Lower, WordState, MatchKeyword;
    WordRange(v, keyword, matching, done);
    WordRange(v + [ch], keyword, matching, done);
    assert 0 < |keyword| < 255;
    WordStep(f, v, ch, keyword, matching, done);
  }

  /** Content-Length accepts a further byte exactly when it is a space, or a digit the guard has room for. */
  lemma NextLengthByte(f: Fields, v: string, ch: char)
    requires ValueTracked(f, ContentLength, v) && ch != CR && ch != LF
    ensures var o := ValueCase(f, ch);
            if ch == ' ' || (IsNum(ch) && DecimalOf(v) <= (ULLONG_MAX - 10) / 10)
            then o == Keep(f.(length := o.f.length), Value) && ValueTracked(o.f, ContentLength, v + [ch])
            else o.control == Fail(InvalidContentLength)
  {
    assert (v + [ch])[..|v|] == v;
    if IsNum(ch) && f.length <= (ULLONG_MAX - 10) / 10 {
      ScaleExact(f.length, 10, DigitValue(ch));
    }
  }

  lemma FirstValueRun(f: Fields, ch: char, log: seq<Event>, skip: Fields -> bool) returns (g: Fields)
    requires f.state.DiscardWs? && AllText([ch]) && ch != ' ' && ch != '\t'
    requires f.header.ContentLength? ==> IsNum(ch)
    requires f.nread + 1 <= MAX_HEADER_SIZE
    ensures AfterValue(f, [ch], g) && ValueTracked(g, f.header, [ch])
    ensures Takes(f, [ch], log, skip, g, Append(log, Data(Value, [ch])))
  {
    hide Takes, Lower, ValueState, ValueStartCase, ValueCase, IsNum, Case, ValueTracked;
    var c := f.(nread := f.nread + 1);
    assert ch in [ch];
    CaseIsValueStart(c, ch, skip);
    FirstValueByte(c, ch);
    OneByte(f, ch, log, skip);
    g := ValueStartCase(c, ch).f;
    TrackedLength(g, f.header, [ch]);
  }

  lemma TrackedLength(g: Fields, h: HeaderState, v: string)
    requires ValueTracked(g, h, v)
    ensures g.state.HeaderValue? && (h.ContentLength? ==> g.length == DecimalOf(v))
  {
  }

  /** The struct after a value. */
  predicate AfterValue(f: Fields, v: string, g: Fields) {
    g == f.(state := HeaderValue, header := g.header, index := g.index, nread := f.nread + |v|,
            length := if f.header.ContentLength? then DecimalOf(v) else f.length,
            flags := if f.header.Upgrade? then f.flags.(upgrade := true) else f.flags)
  }

  /** A value is delivered as one piece, and leaves the state its comparison tells. */
  lemma {:induction false} ValueRun(f: Fields, v: string, log: seq<Event>, skip: Fields -> bool) returns (g: Fields)
    requires f.state.DiscardWs? && |v| > 0 && AllText(v) && v[0] != ' ' && v[0] != '\t'
    requires f.header.ContentLength? ==> IsLength(v)
    requires f.nread + |v| <= MAX_HEADER_SIZE
    ensures AfterValue(f, v, g) && ValueTracked(g, f.header, v)
    ensures Takes(f, v, log, skip, g, Append(log, Data(Value, v)))
    decreases |v|
  {
    var n := |v| - 1;
    if n == 0 {
      hide Takes, Lower, ValueState, ValueStartCase, ValueCase, IsNum, Case, Append, ValueTracked;
      assert v == [v[0]];
      assert v[0] in v;
      g := FirstValueRun(f, v[0], log, skip);
    } else {
      hide Takes, Lower, ValueState, ValueStartCase, ValueCase, IsNum, Case, IsLength, Append, ValueTracked;
      PrefixIsLength(v, n);
      var h := ValueRun(f, v[..n], log, skip);
      TrackedLength(h, f.header, v[..n]);
      var d := h.(nread := h.nread + 1);
      TrackedCounts(h, d, f.header, v[..n]);
      assert v[..n] + [v[n]] == v;
      if f.header.ContentLength? {
        NextLengthByte(d, v[..n], v[n]);
      } else {
        NextValueByte(d, f.header, v[..n], v[n]);
      }
      CaseIsHeader(d, v[n], skip);
      MoreBytes(f, v, log, skip, h, Append(log, Data(Value, v[..n])));
      AppendTwice(log, Value, v[..n], [v[n]]);
      g := ValueCase(d, v[n]).f;
      TrackedLength(g, f.header, v);
    }
  }

  lemma TrackedCounts(h: Fields, d: Fields, n: HeaderState, v: string)
    requires ValueTracked(h, n, v) && d == h.(nread := d.nread)
    ensures ValueTracked(d, n, v)
  {
  }

  lemma PrefixIsLength(v: string, n: nat)
    requires 0 < n < |v|
    ensures IsLength(v) ==> IsLength(v[..n]) && (v[n] == ' ' || (IsNum(v[n]) && DecimalOf(v[..n]) <= (ULLONG_MAX - 10) / 10))
    ensures AllText(v) ==> AllText(v[..n]) && v[n] != CR && v[n] != LF
  {
    assert v[n] in v && forall c <- v[..n] :: c in v;
    if IsLength(v) {
      forall i | 0 < i < n
        ensures v[..n][i] == ' ' || (IsNum(v[..n][i]) && DecimalOf(v[..n][..i]) <= (ULLONG_MAX - 10) / 10)
      {
        assert v[..n][..i] == v[..i];
      }
    }
  }

  /** A Content-Length value is accepted exactly when it is a length. */
  lemma {:induction false} LengthExact(f: Fields, v: string, log: seq<Event>, skip: Fields -> bool)
    requires f.state.DiscardWs? && f.header.ContentLength? && f.nread + |v| <= MAX_HEADER_SIZE
    requires |v| > 0 && AllText(v) && v[0] != ' ' && v[0] != '\t'
    ensures var r := RunAll(f, v, log, skip);
            (r.end == Finished <==> IsLength(v)) && (r.end == Finished ==> r.f.length == DecimalOf(v) < ULLONG_MAX)
    decreases |v|
  {
    hide RunAll, RunByte, Case, ValueCase, ValueStartCase, Lower;
    var n := |v| - 1;
    if IsLength(v) {
      var g := ValueRun(f, v, log, skip);
    } else {
      assert v == v[..n] + [v[n]];
      RunAllConcat(f, v[..n], [v[n]], log, skip);
      if n > 0 {
        NotLengthPrefix(v, n);
        LengthExact(f, v[..n], log, skip);
        if IsLength(v[..n]) {
          var h := ValueRun(f, v[..n], log, skip);
          NextLengthByte(h.(nread := h.nread + 1), v[..n], v[n]);
          CaseIsHeader(h.(nread := h.nread + 1), v[n], skip);
          ByteRejected(h, v[n], RunAll(f, v[..n], log, skip).log, skip);
        }
      } else {
        assert v[0] in v && v == [v[0]];
        FirstLengthByte(f, v[0], log, skip);
      }
    }
  }

  lemma NotLengthPrefix(v: string, n: nat)
    requires n > 0 && n + 1 == |v| && !IsLength(v)
    ensures AllText(v) ==> AllText(v[..n]) && v[n] != CR && v[n] != LF
    ensures !IsLength(v[..n]) || !(v[n] == ' ' || (IsNum(v[n]) && DecimalOf(v[..n]) <= (ULLONG_MAX - 10) / 10))
  {
    PrefixIsLength(v, n);
    if IsLength(v[..n]) {
      forall i | 0 < i < n
        ensures v[i] == ' ' || (IsNum(v[i]) && DecimalOf(v[..i]) <= (ULLONG_MAX - 10) / 10)
      {
        assert v[..n][i] == v[i] && v[..n][..i] == v[..i];
      }
    }
  }

  lemma ByteRejected(f: Fields, ch: char, log: seq<Event>, skip: Fields -> bool)
    requires ParsingHeader(f.state) && Case(f.(nread := f.nread + 1), ch, skip).control.Fail?
    ensures RunAll(f, [ch], log, skip).end == Failed
  {
    hide Case, Emit;
  }

  lemma FirstLengthByte(f: Fields, ch: char, log: seq<Event>, skip: Fields -> bool)
    requires f.state.DiscardWs? && f.header.ContentLength? && ch != ' ' && ch != '\t' && ch != CR && ch != LF && !IsNum(ch)
    ensures RunAll(f, [ch], log, skip).end == Failed
  {
    hide Case, Lower;
    CaseIsValueStart(f.(nread := f.nread + 1), ch, skip);
    ByteRejected(f, ch, log, skip);
  }

  // ---------------------------------------------------------------- header lines

  /** What a header line means for the message: its flags and its announced length. */
  datatype Meaning = Meaning(flags: Flags, length: nat)

  function Effect(m: Meaning, l: string, v: string): Meaning {
    if v == [] then m
    else if l == CONNECTION || l == PROXY_CONNECTION then
      m.(flags := m.flags.(keepAlive := m.flags.keepAlive || IsWord(v, KEEP_ALIVE), close := m.flags.close || IsWord(v, CLOSE)))
    else if l == TRANSFER_ENCODING then
      m.(flags := m.flags.(chunked := m.flags.chunked || IsWord(v, CHUNKED)))
    else if l == UPGRADE then m.(flags := m.flags.(upgrade := true))
    else if l == CONTENT_LENGTH then m.(length := DecimalOf(v))
    else m
  }

  lemma WordFirst(v: string, keyword: string)
    requires |keyword| > 0 && IsWord(v, keyword)
    ensures |v| > 0 && Lower(v[0]) == keyword[0]
  {
    hide Lower;
    var w := v[..|keyword|];
    LoweredPrefix(w, 1);
    assert w[..1] == [v[0]] && [v[0]][..0] == [];
    assert Lowered([v[0]]) == [Lower(v[0])];
  }

  lemma WordStateDone(v: string, keyword: string, matching: HeaderState, done: HeaderState)
    requires matching != done && done != General
    ensures WordState(v, keyword, matching, done) == done <==> IsWord(v, keyword)
  {
  }

  /** The value states that set a flag are entered exactly by the keywords. */
  lemma ValueStateExact(h: HeaderState, v: string)
    requires |v| > 0
    ensures ValueState(h, v) == Chunked <==> h.TransferEncoding? && IsWord(v, CHUNKED)
    ensures ValueState(h, v) == KeepAliveSeen <==> h.Connection? && IsWord(v, KEEP_ALIVE)
    ensures ValueState(h, v) == CloseSeen <==> h.Connection? && IsWord(v, CLOSE)
  {
    hide Lower, IsWord, WordState;
    WordRange(v, CHUNKED, MatchingChunked, Chunked);
    WordRange(v, KEEP_ALIVE, MatchingKeepAlive, KeepAliveSeen);
    WordRange(v, CLOSE, MatchingClose, CloseSeen);
    WordStateDone(v, CHUNKED, MatchingChunked, Chunked);
    WordStateDone(v, KEEP_ALIVE, MatchingKeepAlive, KeepAliveSeen);
    WordStateDone(v, CLOSE, MatchingClose, CloseSeen);
    if IsWord(v, KEEP_ALIVE) {
      WordFirst(v, KEEP_ALIVE);
      assert KEEP_ALIVE[0] == 'k';
    }
    if IsWord(v, CLOSE) {
      WordFirst(v, CLOSE);
      assert CLOSE[0] == 'c';
    }
  }

  /** The flags set at the end of a header are those its name and value mean. */
  lemma FinishMeans(f: Fields, l: string, v: string, before: Flags, length: nat)
    requires |l| > 0 && ValueTracked(f, NameState(l), v)
    requires f.flags == if NameState(l).Upgrade? then before.(upgrade := true) else before
    requires f.length == if NameState(l).ContentLength? then DecimalOf(v) else length
    ensures Meaning(FinishHeader(f).flags, f.length) == Effect(Meaning(before, length), l, v)
  {
    hide IsWord, ValueState, NameState;
    NameStateExact(l);
    ValueStateExact(NameState(l), v);
    KeywordsDiffer();
  }

  lemma KeywordsDiffer()
    ensures CONNECTION != TRANSFER_ENCODING && CONNECTION != UPGRADE && CONNECTION != CONTENT_LENGTH
    ensures PROXY_CONNECTION != TRANSFER_ENCODING && PROXY_CONNECTION != UPGRADE && PROXY_CONNECTION != CONTENT_LENGTH
    ensures TRANSFER_ENCODING != UPGRADE && TRANSFER_ENCODING != CONTENT_LENGTH && UPGRADE != CONTENT_LENGTH
  {
  }
}
