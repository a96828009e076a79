/** Requests of HTTP/0.9 form: the first line ends behind the URL. */
module HttpSimple {
  import opened HttpChars
  import opened HttpParser
  import opened HttpRuns
  import opened HttpSegments
  import opened HttpHeaders
  import opened HttpMessages
  import opened HttpRoundTrip
  import opened HttpAlphabet
  import opened HttpMeanings
  import opened HttpLoose

  /** The first line, header lines and the blank line. */
  datatype Simple = Simple(verb: Method, url: string, end: Eol, headers: seq<Header>, blank: Eol) {
    function Line(): string {
      Name(verb) + [' '] + url + end.Text()
    }

    function Text(): string {
      Line() + (Lines(headers) + blank.Text())
    }

    /** A request that has no body. */
    predicate Good() {
      && GoodUrl(verb, url) && verb != CONNECT && GoodHeaders(headers) && |Text()| <= MAX_HEADER_SIZE
      && (forall h <- headers :: !AsksUpgrade(h) && !Says(h, "transfer-encoding", "chunked")) && GivenLength(headers, 0) == 0
    }
  }

  lemma SimpleLineRun(f: Fields, r: Simple, log: seq<Event>, skip: Fields -> bool) returns (g: Fields)
    requires f.state.StartReq? && r.Good() && f.nread == 0
    ensures g == f.(state := FieldStart, index := g.index, verb := r.verb, major := 0, minor := 9, flags := NO_FLAGS, length := ULLONG_MAX, nread := |r.Line()|)
    ensures Takes(f, r.Line(), log, skip, g, Append(Append(log, MessageBegin), Data(Url, r.url)))
  {
    hide Takes, Name, Append, UrlState, Lines, GoodHeaders, AsksUpgrade, Says, GivenLength, Eol.Text;
    var n := |Name(r.verb)|;
    var l1 := Append(log, MessageBegin);
    var l2 := Append(l1, Data(Url, r.url));
    NameLengths(r.verb);
    MethodAccepted(f, r.verb, log, skip);
    var a := f.(state := SpacesBeforeUrl, verb := r.verb, index := n + 1, flags := NO_FLAGS, length := ULLONG_MAX, nread := f.nread + n + 1);
    UrlRun(a, r.url, l1, skip);
    var b := a.(state := UrlState(UrlEntry(r.verb), r.url), nread := a.nread + |r.url|);
    Compose(f, Name(r.verb) + [' '], r.url, log, skip, a, l1, b, l2);
    SimpleLineEnd(b, r.url, r.end, l1, skip);
    g := b.(state := FieldStart, major := 0, minor := 9, nread := b.nread + |r.end.Text()|);
    Compose(f, Name(r.verb) + [' '] + r.url, r.end.Text(), log, skip, b, l2, g, l2);
  }

  /** Such a request is complete at its blank line, whichever way its lines end, and the connection is closed behind it unless a
      line says "Connection: keep-alive". */
  lemma SimpleRun(f: Fields, r: Simple, log: seq<Event>, skip: Fields -> bool)
    requires f.state.StartReq? && r.Good() && f.nread == 0 && !f.upgrade && NeverSkips(skip)
    ensures var open := exists h <- r.headers :: SaysConnection(h, "keep-alive");
            var q := RunAll(f, r.Text(), log, skip);
            && q.end == Finished && q.used == |r.Text()| && q.f.state == (if open then StartReq else Dead)
            && q.log == Append(Append(HeadersLog(Append(Append(log, MessageBegin), Data(Url, r.url)), r.headers), HeadersComplete(NoBody)),
                               MessageComplete(open))
  {
    hide RunAll, Append, AsksUpgrade, Says, SaysConnection, GivesLength, GoodUrl, Name, Effects, Simple.Line;
    var l := Append(Append(log, MessageBegin), Data(Url, r.url));
    var a := SimpleLineRun(f, r, log, skip);
    var blank := r.blank.Text();
    assert !IsBlank((blank + [])[0]) && blank + [] == blank;
    RunAllConcat(f, r.Line(), Lines(r.headers) + blank, log, skip);
    var b := LinesRun(a, r.headers, blank, l, skip);
    HeadersMean(Meaning(NO_FLAGS, ULLONG_MAX), r.headers);
    LengthOrNone(r.headers, ULLONG_MAX, 0);
    EffectsKeep(Meaning(NO_FLAGS, ULLONG_MAX), r.headers);
    SimpleBlank(b, r, HeadersLog(l, r.headers), skip);
  }

  lemma SimpleBlank(b: Fields, r: Simple, log: seq<Event>, skip: Fields -> bool)
    requires b.state.FieldStart? && b.major == 0 && NeverSkips(skip) && b.nread + |r.blank.Text()| <= MAX_HEADER_SIZE
    requires !b.flags.upgrade && !b.flags.chunked && !b.flags.skipBody && !b.flags.trailing && b.verb != CONNECT
    requires b.length == 0 || b.length == ULLONG_MAX
    ensures var q := RunAll(b, r.blank.Text(), log, skip);
            && q.end == Finished && q.used == |r.blank.Text()| && q.f.state == (if b.flags.keepAlive then StartReq else Dead)
            && q.log == Append(Append(log, HeadersComplete(NoBody)), MessageComplete(b.flags.keepAlive))
  {
    hide RunAll, Append;
    BlankLine(b, r.blank, log, skip);
  }
}
