/** What the header lines of a request mean for it, told from the letters of the lines. */
module HttpMeanings {
  import opened HttpChars
  import opened HttpParser
  import opened HttpHeaders
  import opened HttpMessages
  import opened HttpRoundTrip
  import opened HttpAlphabet

  /** A header line of that name that says that word. */
  predicate Says(h: Header, name: string, word: string) {
    SameLetters(h.name, name) && SaysWord(h.value, word)
  }

  predicate SaysConnection(h: Header, word: string) {
    Says(h, "connection", word) || Says(h, "proxy-connection", word)
  }

  predicate AsksUpgrade(h: Header) {
    SameLetters(h.name, "upgrade") && h.value != ""
  }

  predicate GivesLength(h: Header) {
    SameLetters(h.name, "content-length") && h.value != ""
  }

  lemma NoWordInNothing(v: string, word: string)
    requires word != "" && v == ""
    ensures !SaysWord(v, word)
  {
  }

  /** What one line does. */
  lemma HeaderMeans(m: Meaning, h: Header)
    requires GoodHeader(h)
    ensures var e := Effect(m, Folded(h.name), h.value);
            && (e.flags.chunked <==> m.flags.chunked || Says(h, "transfer-encoding", "chunked"))
            && (e.flags.close <==> m.flags.close || SaysConnection(h, "close"))
            && (e.flags.keepAlive <==> m.flags.keepAlive || SaysConnection(h, "keep-alive"))
            && (e.flags.upgrade <==> m.flags.upgrade || AsksUpgrade(h))
            && e.flags.trailing == m.flags.trailing && e.flags.skipBody == m.flags.skipBody
            && e.length == if GivesLength(h) then DecimalOf(h.value) else m.length
  {
    hide SameLetters, SaysWord, IsWord, Folded, NoCapitals, DecimalOf, IsLength, Word;
    SmallNames();
    SmallWords();
    NamesFold(h.name, "content-length");
    NamesFold(h.name, "transfer-encoding");
    NamesFold(h.name, "upgrade");
    NamesFold(h.name, "connection");
    NamesFold(h.name, "proxy-connection");
    if h.value == "" {
      NoWordInNothing(h.value, "chunked");
      NoWordInNothing(h.value, "close");
      NoWordInNothing(h.value, "keep-alive");
    } else {
      WordIs(h.value, "chunked");
      WordIs(h.value, "keep-alive");
      WordIs(h.value, "close");
    }
  }

  /** The last length that is given, if any. */
  function GivenLength(hs: seq<Header>, none: nat): nat {
    if hs == [] then none
    else GivenLength(hs[1..], if GivesLength(hs[0]) then DecimalOf(hs[0].value) else none)
  }

  /** What a block of lines does: a flag is set exactly when some line sets it, and the last length counts. */
  lemma {:induction false} HeadersMean(m: Meaning, hs: seq<Header>)
    requires GoodHeaders(hs)
    ensures var e := Effects(m, hs);
            && (e.flags.chunked <==> m.flags.chunked || exists h <- hs :: Says(h, "transfer-encoding", "chunked"))
            && (e.flags.close <==> m.flags.close || exists h <- hs :: SaysConnection(h, "close"))
            && (e.flags.keepAlive <==> m.flags.keepAlive || exists h <- hs :: SaysConnection(h, "keep-alive"))
            && (e.flags.upgrade <==> m.flags.upgrade || exists h <- hs :: AsksUpgrade(h))
            && e.length == GivenLength(hs, m.length)
    decreases |hs|
  {
    hide Says, SaysConnection, AsksUpgrade, GivesLength, Effect, Folded, DecimalOf;
    if hs != [] {
      assert GoodHeader(hs[0]) && hs[0] in hs;
      HeaderMeans(m, hs[0]);
      HeadersMean(Effect(m, Folded(hs[0].name), hs[0].value), hs[1..]);
      assert forall h :: h in hs <==> h == hs[0] || h in hs[1..];
    }
  }

  /** How a request is framed and whether the connection stays open, told from its lines: an upgrade or CONNECT
      ends it at the blank line; else "Transfer-Encoding: chunked" wins over any length; a length of 0, or none,
      means no body; and it stays open unless a line says "Connection: close", or, before HTTP/1.1, exactly if one
      says "Connection: keep-alive". */
  lemma RequestMeans(r: Request)
    requires r.Good()
    ensures var up := r.verb == CONNECT || exists h <- r.headers :: AsksUpgrade(h);
            var coded := exists h <- r.headers :: Says(h, "transfer-encoding", "chunked");
            var length := GivenLength(r.headers, 0);
            && (r.Upgrades() <==> up)
            && r.BodyFraming() ==
                 (if up then NoBody else if coded then ChunkedBody else if length == 0 then NoBody else Identity(length))
            && (r.StaysOpen(r.Meant().flags) <==>
                  if '1' <= r.minor <= '9' then !exists h <- r.headers :: SaysConnection(h, "close")
                  else exists h <- r.headers :: SaysConnection(h, "keep-alive"))
  {
    hide Says, SaysConnection, AsksUpgrade, Effects, GoodHeaders;
    GoodLines(r);
    HeadersMean(Meaning(NO_FLAGS, ULLONG_MAX), r.headers);
    LengthOrNone(r.headers, ULLONG_MAX, 0);
    LengthOrNone(r.headers, 0, 0);
  }

  lemma GoodLines(r: Request)
    requires r.Good()
    ensures GoodHeaders(r.headers)
  {
  }

  /** No length that is given is the number that stands for none. */
  lemma {:induction false} LengthOrNone(hs: seq<Header>, x: nat, y: nat)
    requires GoodHeaders(hs) && (x == y || (x == ULLONG_MAX && y == 0))
    ensures var a, b := GivenLength(hs, x), GivenLength(hs, y); a == b || (a == ULLONG_MAX && b == 0)
    ensures x < ULLONG_MAX ==> GivenLength(hs, x) < ULLONG_MAX
    decreases |hs|
  {
    hide GoodHeader, GivesLength, DecimalOf;
    if hs != [] {
      assert GoodHeader(hs[0]);
      if GivesLength(hs[0]) {
        GivenFits(hs[0]);
        LengthOrNone(hs[1..], DecimalOf(hs[0].value), DecimalOf(hs[0].value));
      } else {
        LengthOrNone(hs[1..], x, y);
      }
    }
  }

  lemma GivenFits(h: Header)
    requires GoodHeader(h) && GivesLength(h)
    ensures DecimalOf(h.value) < ULLONG_MAX
  {
    hide SameLetters, Folded, NoCapitals, DecimalOf, IsLength;
    SmallNames();
    NamesFold(h.name, "content-length");
    LineMeansLength(h);
  }
}
