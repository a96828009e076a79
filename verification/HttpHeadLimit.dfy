/** The 80 KiB limit, both ways: when the head of a request is too long for it. */
module HttpHeadLimit {
  import opened HttpChars
  import opened HttpParser
  import opened HttpRuns
  import opened HttpSegments
  import opened HttpHeaders
  import opened HttpMessages
  import opened HttpRoundTrip

  predicate TooLong(r: Run) {
    r.end == Failed && r.f.errno == HeaderOverflow
  }

  lemma OverflowNow(f: Fields, d: string, log: seq<Event>, skip: Fields -> bool)
    requires f.nread == MAX_HEADER_SIZE && ParsingHeader(f.state) && d != []
    ensures TooLong(RunAll(f, d, log, skip))
  {
    hide Settle;
  }

  lemma AfterPrefix(f: Fields, s: string, rest: string, log: seq<Event>, skip: Fields -> bool, g: Fields, l: seq<Event>)
    requires Takes(f, s, log, skip, g, l) && TooLong(RunAll(g, rest, l, skip))
    ensures TooLong(RunAll(f, s + rest, log, skip))
  {
    hide RunAll;
    RunAllConcat(f, s, rest, log, skip);
  }

  /** A piece that uses the limit up, with something behind it. */
  lemma FullThen(f: Fields, s: string, rest: string, log: seq<Event>, skip: Fields -> bool, g: Fields, l: seq<Event>)
    requires Takes(f, s, log, skip, g, l) && g.nread == MAX_HEADER_SIZE && ParsingHeader(g.state) && rest != []
    ensures TooLong(RunAll(f, s + rest, log, skip))
  {
    hide Takes, RunAll, TooLong;
    OverflowNow(g, rest, l, skip);
    AfterPrefix(f, s, rest, log, skip, g, l);
  }

  // ---------------------------------------------------------------- pieces that would fit from a fresh count

  lemma SettleCounts(f: Fields, n: nat, ch: char, log: seq<Event>, skip: Fields -> bool)
    ensures var r := Settle(f, ch, log, skip);
            var q := Settle(f.(nread := n), ch, log, skip);
            (r.f.nread == f.nread && q.f.nread == n) || (r.f.nread == 0 && q.f.nread == 0)
    decreases Rank(f.state)
  {
    hide Case, Emit;
    CaseIgnoresCount(f, n, ch, skip);
    var o := Case(f, ch, skip);
    var q := Case(f.(nread := n), ch, skip);
    assert Emit(log, o, ch) == Emit(log, q, ch) by { EmitAgrees(log, o, q, ch); }
    if o.control == Again {
      AgainLowersRank(f, ch, skip);
      SettleCounts(o.f, q.f.nread, ch, Emit(log, o, ch), skip);
      assert q.f == o.f.(nread := q.f.nread);
    }
  }

  /** A byte is counted at most once. */
  lemma {:induction false} CountsAtMost(f: Fields, data: string, log: seq<Event>, skip: Fields -> bool)
    requires f.nread <= MAX_HEADER_SIZE
    ensures var r := RunAll(f, data, log, skip);
            r.end == Finished ==> r.f.nread <= f.nread + |data| && r.f.nread <= MAX_HEADER_SIZE
    decreases |data|
  {
    hide Settle;
    if data != [] {
      SettleCounts(f.(nread := f.nread + 1), 0, data[0], log, skip);
      SettleCounts(f, 0, data[0], log, skip);
      var r := RunByte(f, data[0], log, skip);
      if r.end == Finished {
        CountsAtMost(r.f, data[1..], r.log, skip);
      }
    }
  }

  /** Where every byte is counted, a larger count to begin with stays larger by as much. */
  lemma {:induction false} CountsAll(f: Fields, n: nat, data: string, log: seq<Event>, skip: Fields -> bool)
    requires f.nread <= n <= MAX_HEADER_SIZE
    requires var r := RunAll(f, data, log, skip); r.end == Finished && r.f.nread == f.nread + |data|
    ensures n + |data| > MAX_HEADER_SIZE ==> TooLong(RunAll(f.(nread := n), data, log, skip))
    decreases |data|
  {
    hide Settle;
    if data != [] {
      var d := if ParsingHeader(f.state) then 1 else 0;
      SettleIgnoresCount(f.(nread := f.nread + d), n + d, data[0], log, skip);
      SettleCounts(f.(nread := f.nread + d), n + d, data[0], log, skip);
      var g := f.(nread := n);
      assert f.(nread := f.nread + d).(nread := n + d) == g.(nread := n + d);
      var r := RunByte(f, data[0], log, skip);
      CountsAtMost(r.f, data[1..], r.log, skip);
      assert r.f.nread == f.nread + 1;
      if n + 1 <= MAX_HEADER_SIZE {
        var q := RunByte(g, data[0], log, skip);
        assert q.f == r.f.(nread := n + 1);
        CountsAll(r.f, n + 1, data[1..], r.log, skip);
      }
    }
  }

  /** A piece that is counted whole from zero, on a count that leaves no room for it. */
  lemma ShortOverflow(f: Fields, s: string, rest: string, log: seq<Event>, skip: Fields -> bool, g: Fields, l: seq<Event>)
    requires Takes(f.(nread := 0), s, log, skip, g, l) && g.nread == |s|
    requires f.nread <= MAX_HEADER_SIZE < f.nread + |s|
    ensures TooLong(RunAll(f, s + rest, log, skip))
  {
    hide RunAll;
    CountsAll(f.(nread := 0), f.nread, s, log, skip);
    assert f.(nread := 0).(nread := f.nread) == f;
    RunAllConcat(f, s, rest, log, skip);
  }

  // ---------------------------------------------------------------- long pieces

  lemma {:induction false} UrlPrefixAlive(from: State, url: string, k: nat)
    requires 0 < k <= |url| && UrlState(from, url) != Dead
    ensures UrlState(from, url[..k]) != Dead
    decreases |url|
  {
    hide ParseUrlChar;
    var n := |url| - 1;
    if k <= n {
      LiveUrlByte(UrlState(from, url[..n]), url[n]);
      UrlPrefixAlive(from, url[..n], k);
      assert url[..n][..k] == url[..k];
    } else {
      assert url[..k] == url;
    }
  }

  lemma UrlOverflow(f: Fields, url: string, rest: string, log: seq<Event>, skip: Fields -> bool)
    requires f.state.SpacesBeforeUrl? && UrlState(UrlEntry(f.verb), url) != Dead
    requires f.nread <= MAX_HEADER_SIZE < f.nread + |url|
    ensures TooLong(RunAll(f, url + rest, log, skip))
  {
    hide Takes, RunAll, TooLong, ParseUrlChar, UrlState, InUrl;
    var k := MAX_HEADER_SIZE - f.nread;
    if k == 0 {
      OverflowNow(f, url + rest, log, skip);
    } else {
      UrlPrefixAlive(UrlEntry(f.verb), url, k);
      UrlRun(f, url[..k], log, skip);
      InUrlCounts(UrlState(UrlEntry(f.verb), url[..k]));
      FullThen(f, url[..k], url[k..] + rest, log, skip,
               f.(state := UrlState(UrlEntry(f.verb), url[..k]), nread := f.nread + k), Append(log, Data(Url, url[..k])));
      assert url[..k] + (url[k..] + rest) == url + rest;
    }
  }

  lemma NameOverflow(f: Fields, name: string, rest: string, log: seq<Event>, skip: Fields -> bool)
    requires f.state.FieldStart? && AllTokens(name)
    requires f.nread <= MAX_HEADER_SIZE < f.nread + |name|
    ensures TooLong(RunAll(f, name + rest, log, skip))
  {
    hide Takes, RunAll, TooLong, IsToken, NameTracked;
    var k := MAX_HEADER_SIZE - f.nread;
    if k == 0 {
      OverflowNow(f, name + rest, log, skip);
    } else {
      assert forall c <- name[..k] :: c in name;
      var g := NameRun(f, name[..k], log, skip);
      FullThen(f, name[..k], name[k..] + rest, log, skip, g, Append(log, Data(Field, name[..k])));
      assert name[..k] + (name[k..] + rest) == name + rest;
    }
  }

  lemma PadOverflow(f: Fields, pad: string, rest: string, log: seq<Event>, skip: Fields -> bool)
    requires f.state.DiscardWs? && AllBlank(pad)
    requires f.nread <= MAX_HEADER_SIZE < f.nread + |pad|
    ensures TooLong(RunAll(f, pad + rest, log, skip))
  {
    hide Takes, RunAll, TooLong, IsBlank;
    var k := MAX_HEADER_SIZE - f.nread;
    assert forall c <- pad[..k] :: c in pad;
    Pad(f, pad[..k], log, skip);
    FullThen(f, pad[..k], pad[k..] + rest, log, skip, f.(nread := f.nread + k), log);
    assert pad[..k] + (pad[k..] + rest) == pad + rest;
  }

  lemma ValueOverflow(f: Fields, v: string, rest: string, log: seq<Event>, skip: Fields -> bool)
    requires f.state.DiscardWs? && |v| > 0 && AllText(v) && v[0] != ' ' && v[0] != '\t'
    requires f.header.ContentLength? ==> IsLength(v)
    requires f.nread <= MAX_HEADER_SIZE < f.nread + |v|
    ensures TooLong(RunAll(f, v + rest, log, skip))
  {
    hide Takes, RunAll, TooLong, IsLength, ValueTracked, DecimalOf;
    var k := MAX_HEADER_SIZE - f.nread;
    if k == 0 {
      OverflowNow(f, v + rest, log, skip);
    } else {
      PrefixIsLength(v, k);
      var g := ValueRun(f, v[..k], log, skip);
      FullThen(f, v[..k], v[k..] + rest, log, skip, g, Append(log, Data(Value, v[..k])));
      assert v[..k] + (v[k..] + rest) == v + rest;
    }
  }

  // ---------------------------------------------------------------- header lines

  /** The line end, or the byte behind it. */
  lemma EndOverflow(f: Fields, v: string, end: Eol, rest: string, log: seq<Event>, skip: Fields -> bool)
    requires f.nread <= MAX_HEADER_SIZE <= f.nread + |end.Text()| && rest != []
    ensures f.state.HeaderValue? ==> TooLong(RunAll(f, end.Text() + rest, Append(log, Data(Value, v)), skip))
    ensures f.state.DiscardWs? ==> TooLong(RunAll(f, end.Text() + rest, log, skip))
  {
    hide Takes, RunAll, TooLong, Eol.Text;
    var l := Append(log, Data(Value, v));
    var n := |end.Text()|;
    var z := if f.nread + n > MAX_HEADER_SIZE then f.(nread := 0) else f;
    if f.state.HeaderValue? {
      ValueEnd(z, log, v, end, skip);
      if f.nread + n > MAX_HEADER_SIZE {
        ShortOverflow(f, end.Text(), rest, l, skip, z.(state := ValueLws, nread := n), l);
      } else {
        FullThen(f, end.Text(), rest, l, skip, f.(state := ValueLws, nread := f.nread + n), l);
      }
    }
    if f.state.DiscardWs? {
      EmptyValueEnd(z, log, end, skip);
      if f.nread + n > MAX_HEADER_SIZE {
        ShortOverflow(f, end.Text(), rest, log, skip, z.(state := DiscardLws, nread := n), log);
      } else {
        FullThen(f, end.Text(), rest, log, skip, f.(state := DiscardLws, nread := f.nread + n), log);
      }
    }
  }

  /** The value and the line end. */
  lemma TailOverflow(f: Fields, h: Header, rest: string, log: seq<Event>, skip: Fields -> bool)
    requires f.state.DiscardWs? && GoodHeader(h) && rest != [] && (f.header.ContentLength? <==> Folded(h.name) == CONTENT_LENGTH)
    requires f.nread <= MAX_HEADER_SIZE <= f.nread + |h.value + h.end.Text()|
    ensures TooLong(RunAll(f, h.value + (h.end.Text() + rest), log, skip))
  {
    hide Takes, RunAll, TooLong, IsLength, Folded, DecimalOf, ValueTracked, Eol.Text;
    var end := h.end.Text();
    if h.value == [] {
      EndOverflow(f, [], h.end, rest, log, skip);
      assert [] + (end + rest) == end + rest;
    } else if f.nread + |h.value| > MAX_HEADER_SIZE {
      ValueOverflow(f, h.value, end + rest, log, skip);
    } else {
      var g := ValueRun(f, h.value, log, skip);
      EndOverflow(g, h.value, h.end, rest, log, skip);
      AfterPrefix(f, h.value, end + rest, log, skip, g, Append(log, Data(Value, h.value)));
    }
  }

  /** A header line that reaches the limit, with another line behind it. */
  lemma LineOverflow(f: Fields, h: Header, rest: string, log: seq<Event>, skip: Fields -> bool)
    requires f.state.FieldStart? && GoodHeader(h) && rest != []
    requires f.nread <= MAX_HEADER_SIZE <= f.nread + |Line(h)|
    ensures TooLong(RunAll(f, Line(h) + rest, log, skip))
  {
    hide Takes, RunAll, TooLong, IsLength, NameState, Folded, Eol.Text;
    var tail := h.value + (h.end.Text() + rest);
    assert Line(h) + rest == h.name + ([':'] + (h.pad + tail));
    if f.nread + |h.name| > MAX_HEADER_SIZE {
      NameOverflow(f, h.name, [':'] + (h.pad + tail), log, skip);
    } else {
      var l := Append(log, Data(Field, h.name));
      var a := NameRun(f, h.name, log, skip);
      if a.nread == MAX_HEADER_SIZE {
        FullThen(f, h.name, [':'] + (h.pad + tail), log, skip, a, l);
      } else {
        Colon(a, log, h.name, skip);
        NameStateExact(Folded(h.name));
        var b := a.(state := DiscardWs, nread := a.nread + 1);
        if b.nread + |h.pad| > MAX_HEADER_SIZE {
          PadOverflow(b, h.pad, tail, l, skip);
        } else {
          Pad(b, h.pad, l, skip);
          var c := b.(nread := b.nread + |h.pad|);
          TailOverflow(c, h, rest, l, skip);
          AfterPrefix(b, h.pad, tail, l, skip, c, l);
        }
        AfterPrefix(a, [':'], h.pad + tail, l, skip, b, l);
        AfterPrefix(f, h.name, [':'] + (h.pad + tail), log, skip, a, l);
      }
    }
  }

  /** The blank line. */
  lemma BlankOverflow(f: Fields, blank: Eol, rest: string, log: seq<Event>, skip: Fields -> bool)
    requires f.state.FieldStart? && f.nread <= MAX_HEADER_SIZE < f.nread + |blank.Text()|
    ensures TooLong(RunAll(f, blank.Text() + rest, log, skip))
  {
    hide Takes, RunAll, TooLong, Case;
    if f.nread == MAX_HEADER_SIZE {
      OverflowNow(f, blank.Text() + rest, log, skip);
    } else {
      var g := f.(state := HeadersAlmostDone, nread := f.nread + 1);
      BlankReturn(f.(nread := f.nread + 1), skip);
      OneByte(f, CR, log, skip);
      FullThen(f, [CR], [LF] + rest, log, skip, g, log);
      assert [CR] + ([LF] + rest) == CRLF + rest;
    }
  }

  lemma BlankReturn(f: Fields, skip: Fields -> bool)
    requires f.state.FieldStart?
    ensures Case(f, CR, skip) == Go(f.(state := HeadersAlmostDone))
  {
    hide IsToken, Token, FieldCase, ValueCase, ValueStartCase;
    CaseIsHeader(f, CR, skip);
    NewlinesAreNoTokens();
  }

  /** A header block with its blank line that does not fit. */
  lemma {:induction false} LinesOverflow(f: Fields, hs: seq<Header>, blank: Eol, rest: string, log: seq<Event>, skip: Fields -> bool)
    requires f.state.FieldStart? && GoodHeaders(hs)
    requires f.nread <= MAX_HEADER_SIZE < f.nread + |Lines(hs) + blank.Text()|
    ensures TooLong(RunAll(f, Lines(hs) + (blank.Text() + rest), log, skip))
    decreases |hs|
  {
    hide RunAll, GoodHeader, Line, HeaderLog, AfterLine;
    if hs == [] {
      BlankOverflow(f, blank, rest, log, skip);
      assert [] + (blank.Text() + rest) == blank.Text() + rest;
    } else {
      assert GoodHeader(hs[0]);
      var more := Lines(hs[1..]) + (blank.Text() + rest);
      assert Lines(hs) + (blank.Text() + rest) == Line(hs[0]) + more;
      if f.nread + |Line(hs[0])| >= MAX_HEADER_SIZE {
        LineOverflow(f, hs[0], more, log, skip);
      } else {
        if hs[1..] != [] {
          assert GoodHeader(hs[1]);
          LineStart(hs[1]);
        }
        var a := HttpMessages.LineRun(f, hs[0], more, log, skip);
        LineCounts(f, hs[0], a);
        LinesOverflow(a, hs[1..], blank, rest, HeaderLog(log, hs[0]), skip);
      }
    }
  }

  lemma LineCounts(f: Fields, h: Header, g: Fields)
    requires GoodHeader(h) && AfterLine(f, h, g)
    ensures g.nread == f.nread + |Line(h)|
  {
  }

  // ---------------------------------------------------------------- whole heads

  /** A request line that reaches the limit, with another line behind it. */
  lemma RequestLineOverflow(f: Fields, r: Request, rest: string, log: seq<Event>, skip: Fields -> bool)
    requires f.state.StartReq? && r.Good() && rest != []
    requires f.nread <= MAX_HEADER_SIZE <= f.nread + |r.Line()|
    ensures TooLong(RunAll(f, r.Line() + rest, log, skip))
  {
    hide Takes, RunAll, TooLong, Name, UrlState;
    var n := |Name(r.verb)|;
    var name := Name(r.verb) + [' '];
    var more := r.url + ([' '] + (Version(r.major, r.minor, r.end) + rest));
    assert r.Line() + rest == name + more;
    NameLengths(r.verb);
    var l1 := Append(log, MessageBegin);
    if f.nread + n + 1 > MAX_HEADER_SIZE {
      MethodAccepted(f.(nread := 0), r.verb, log, skip);
      ShortOverflow(f, name, more, log, skip,
                    AfterLetters(f.(nread := 0), r.verb, n).(state := SpacesBeforeUrl, verb := r.verb, index := n + 1, nread := n + 1), l1);
    } else {
      MethodAccepted(f, r.verb, log, skip);
      var a := AfterLetters(f, r.verb, n).(state := SpacesBeforeUrl, verb := r.verb, index := n + 1, nread := f.nread + n + 1);
      AfterMethodOverflow(a, r, rest, l1, skip);
      AfterPrefix(f, name, more, log, skip, a, l1);
    }
  }

  lemma AfterMethodOverflow(f: Fields, r: Request, rest: string, log: seq<Event>, skip: Fields -> bool)
    requires f.state.SpacesBeforeUrl? && f.verb == r.verb && r.Good() && rest != []
    requires f.nread <= MAX_HEADER_SIZE <= f.nread + |r.url| + 1 + |Version(r.major, r.minor, r.end)|
    ensures TooLong(RunAll(f, r.url + ([' '] + (Version(r.major, r.minor, r.end) + rest)), log, skip))
  {
    hide Takes, RunAll, TooLong, Name, UrlState, InUrl, AfterVersion;
    var v := Version(r.major, r.minor, r.end);
    var more := [' '] + (v + rest);
    if f.nread + |r.url| > MAX_HEADER_SIZE {
      UrlOverflow(f, r.url, more, log, skip);
    } else {
      UrlRun(f, r.url, log, skip);
      var l := Append(log, Data(Url, r.url));
      var b := f.(state := UrlState(UrlEntry(r.verb), r.url), nread := f.nread + |r.url|);
      if b.nread == MAX_HEADER_SIZE {
        InUrlCounts(b.state);
        FullThen(f, r.url, more, log, skip, b, l);
      } else {
        UrlEnd(b, log, r.url, skip);
        var c := b.(state := HttpStart, nread := b.nread + 1);
        VersionOverflow(c, r.major, r.minor, r.end, rest, l, skip);
        AfterPrefix(b, [' '], v + rest, l, skip, c, l);
        AfterPrefix(f, r.url, more, log, skip, b, l);
      }
    }
  }

  lemma VersionOverflow(f: Fields, major: char, minor: char, end: Eol, rest: string, log: seq<Event>, skip: Fields -> bool)
    requires f.state.HttpStart? && '1' <= major <= '9' && IsNum(minor) && rest != []
    requires f.nread <= MAX_HEADER_SIZE <= f.nread + |Version(major, minor, end)|
    ensures TooLong(RunAll(f, Version(major, minor, end) + rest, log, skip))
  {
    hide Takes, RunAll, TooLong;
    var v := Version(major, minor, end);
    if f.nread + |v| > MAX_HEADER_SIZE {
      VersionRun(f.(nread := 0), major, minor, end, log, skip);
      ShortOverflow(f, v, rest, log, skip, AfterVersion(f.(nread := 0), major, minor, end), log);
    } else {
      VersionRun(f, major, minor, end, log, skip);
      FullThen(f, v, rest, log, skip, AfterVersion(f, major, minor, end), log);
    }
  }

  lemma HeadOverflow(f: Fields, r: Request, rest: string, log: seq<Event>, skip: Fields -> bool)
    requires f.state.StartReq? && r.Good() && f.nread <= MAX_HEADER_SIZE < f.nread + |r.Head()|
    ensures TooLong(RunAll(f, r.Head() + rest, log, skip))
  {
    hide Takes, RunAll, TooLong, Request.Line, Request.Good, AfterRequestLine;
    var more := Lines(r.headers) + (r.blank.Text() + rest);
    assert r.Head() + rest == r.Line() + more;
    GoodParts(r);
    if f.nread + |r.Line()| >= MAX_HEADER_SIZE {
      RequestLineOverflow(f, r, more, log, skip);
    } else {
      var l := Append(Append(log, MessageBegin), Data(Url, r.url));
      var a := HttpRoundTrip.LineRun(f, r, log, skip);
      RequestLineCounts(f, r, a);
      LinesOverflow(a, r.headers, r.blank, rest, l, skip);
      AfterPrefix(f, r.Line(), more, log, skip, a, l);
    }
  }

  lemma GoodParts(r: Request)
    requires r.Good()
    ensures GoodHeaders(r.headers)
  {
  }

  lemma RequestLineCounts(f: Fields, r: Request, g: Fields)
    requires r.Good() && AfterRequestLine(f, r, g)
    ensures g.state.FieldStart? && g.nread == f.nread + |r.Line()|
  {
  }

  lemma {:induction false} FailedInside(f: Fields, data: string, log: seq<Event>, skip: Fields -> bool)
    ensures var r := RunAll(f, data, log, skip); (r.end == Failed ==> r.used < |data|) && (r.end == Finished ==> r.used == |data|)
    decreases |data|
  {
    hide Settle;
    if data != [] {
      SettleNotUsed(f.(nread := f.nread + 1), data[0], log, skip);
      SettleNotUsed(f, data[0], log, skip);
      var r := RunByte(f, data[0], log, skip);
      if r.end == Finished {
        FailedInside(r.f, data[1..], r.log, skip);
      }
    }
  }

  lemma SettleNotUsed(f: Fields, ch: char, log: seq<Event>, skip: Fields -> bool)
    ensures Settle(f, ch, log, skip).end == Failed ==> Settle(f, ch, log, skip).used == 0
    decreases Rank(f.state)
  {
    hide Case, Emit;
    var o := Case(f, ch, skip);
    if o.control == Again {
      AgainLowersRank(f, ch, skip);
      SettleNotUsed(o.f, ch, Emit(log, o, ch), skip);
    }
  }

  /** The head of a request is rejected for its length, and then before its end, exactly when it is longer
      than what the header bytes counted so far leave of the limit. */
  lemma HeadLimitExact(f: Fields, r: Request, rest: string, log: seq<Event>, skip: Fields -> bool)
    requires f.state.StartReq? && r.Good() && f.nread <= 81920
    ensures var q := RunAll(f, r.Head() + rest, log, skip);
            TooLong(q) && q.used < |r.Head()| <==> f.nread + |r.Head()| > 81920
  {
    hide RunAll, AtBlankLine, Request.Head, Request.Log;
    if f.nread + |r.Head()| > MAX_HEADER_SIZE {
      HeadOverflow(f, r, [], log, skip);
      assert r.Head() + [] == r.Head();
      FailedInside(f, r.Head(), log, skip);
      RunAllConcat(f, r.Head(), rest, log, skip);
    } else {
      var g := HeadRun(f, r, rest, log, skip);
      BlankFits(f, r, g, rest, r.Log(log), skip);
    }
  }

  /** The blank line of a head that fits is no overflow. */
  lemma BlankFits(f: Fields, r: Request, g: Fields, rest: string, log: seq<Event>, skip: Fields -> bool)
    requires r.Good() && AtBlankLine(f, r, g) && f.nread + |r.Head()| <= MAX_HEADER_SIZE
    ensures var q := RunAll(g, r.blank.Text() + rest, log, skip); q.used >= |r.blank.Text()| || !TooLong(q)
  {
    hide RunAll, Announced, BlankLog, AfterBlank;
    BlankFields(f, r, g);
    EffectsKeep(Meaning(NO_FLAGS, ULLONG_MAX), r.headers);
    BlankLine(g, r.blank, log, skip);
    RunAllConcat(g, r.blank.Text(), rest, log, skip);
  }

  /** After a message that leaves the connection open, the next head is rejected for its length exactly
      when it and the trailers of the message before are longer than the limit. */
  lemma NextHeadExact(f: Fields, m: Message, r: Request, rest: string, log: seq<Event>, skip: Fields -> bool)
    requires f.state.StartReq? && m.Good() && m.StaysOpen() && f.nread + |m.request.Head()| <= MAX_HEADER_SIZE
    requires r.Good() && NeverSkips(skip)
    ensures var q := RunAll(f, m.Text() + (r.Head() + rest), log, skip);
            TooLong(q) && q.used < |m.Text()| + |r.Head()| <==> m.body.Counted() + |r.Head()| > 81920
  {
    hide RunAll, Message.Text, Request.Head, Message.Log, Message.StaysOpen;
    var g := MessageThen(f, m, r.Head() + rest, log, skip);
    CountedFits(m);
    HeadLimitExact(g, r, rest, m.Log(log), skip);
  }

  lemma CountedFits(m: Message)
    requires m.Good()
    ensures m.body.Counted() <= MAX_HEADER_SIZE
  {
  }
}
