/** Two requests, letter by letter: one whose lines end in bare line feeds, and one with a chunk of ten bytes. */
module HttpExamples {
  import opened HttpChars
  import opened HttpParser
  import opened HttpExecute
  import opened HttpSession
  import opened HttpSegments
  import opened HttpHeaders
  import opened HttpMessages
  import opened HttpBodies
  import opened HttpRoundTrip
  import opened HttpWitnesses
  import opened HttpAlphabet
  import opened HttpMeanings
  import opened HttpChunks

  /** A header line that is about none of the things the parser looks for. */
  predicate Unspecial(h: Header) {
    |h.name| != 10 && |h.name| != 16 && |h.name| != 14 && |h.name| != 17 && |h.name| != 7
  }

  lemma UnspecialMeansNothing(h: Header)
    requires Unspecial(h)
    ensures !Says(h, "transfer-encoding", "chunked") && !SaysConnection(h, "close") && !SaysConnection(h, "keep-alive")
    ensures !AsksUpgrade(h) && !GivesLength(h)
  {
    hide SameLetter;
  }

  // ---------------------------------------------------------------- bare line feeds

  const HOST := Header("Host", " ", "a", BareLf)
  const LF_GET := Message(Request(GET, "/", '1', '1', BareLf, [HOST], BareLf), Plain([]))

  lemma LfGetText()
    ensures LF_GET.Text() == "GET / HTTP/1.1\nHost: a\n\n"
  {
    assert [HOST][1..] == [];
    assert Lines([HOST]) == Line(HOST) + Lines([]);
    assert Name(GET) + [' '] + "/" + [' '] == "GET / ";
    assert Version('1', '1', BareLf) == "HTTP/1.1\n";
    assert Line(HOST) == "Host: a\n";
  }

  lemma HostIsGood()
    ensures GoodHeader(HOST) && Unspecial(HOST)
  {
    forall c | c in "Host"
      ensures IsToken(c)
    {
      ClassesExact(c);
    }
  }

  lemma LfGetIsGood()
    ensures LF_GET.Good() && LF_GET.request.BodyFraming() == NoBody && LF_GET.StaysOpen() && Pipeline([LF_GET], 0)
  {
    hide GoodUrl, GoodHeader, Effects, Says, SaysConnection, AsksUpgrade, GivesLength;
    SlashIsGood(GET);
    HostIsGood();
    assert GoodHeaders([HOST]);
    UnspecialMeansNothing(HOST);
    assert [HOST][1..] == [];
    RequestMeans(LF_GET.request);
    LfGetText();
    assert [LF_GET][1..] == [];
  }

  const LF_LOG := [MessageBegin, Data(Url, "/"), Data(Field, "Host"), Data(Value, "a"), HeadersComplete(NoBody), MessageComplete(true)]

  lemma LfHeadLog()
    ensures LF_GET.request.Log([]) == LF_LOG[..4]
  {
    var l1 := Append(Append([], MessageBegin), Data(Url, "/"));
    assert l1 == LF_LOG[..2];
    assert [HOST][1..] == [];
    assert HeadersLog(l1, [HOST]) == HeadersLog(HeaderLog(l1, HOST), []) == HeaderLog(l1, HOST);
    assert Append(l1, Data(Field, "Host")) == LF_LOG[..3];
  }

  lemma LfLogIs()
    requires LF_GET.Good() && LF_GET.request.BodyFraming() == NoBody && LF_GET.StaysOpen()
    ensures LF_GET.Log([]) == LF_LOG
  {
    hide Message.Good, Request.Good, Request.BodyFraming, Request.StaysOpen, FinalFlags, Request.Log;
    LfHeadLog();
    var l := Append(LF_LOG[..4], HeadersComplete(NoBody));
    assert l == LF_LOG[..5];
    assert BodyText.Plain([]).Log(l) == l;
    assert Append(l, MessageComplete(true)) == LF_LOG;
  }

  /** Every session over that text, however it is cut and paused, makes exactly these callbacks. */
  lemma LfGet(calls: seq<CallRecord>, skip: Fields -> bool)
    requires NeverSkips(skip) && Session("GET / HTTP/1.1\nHost: a\n\n", 0, Init(), [], calls, skip)
    requires var e := Ending(0, Init(), [], calls); e.n == |"GET / HTTP/1.1\nHost: a\n\n"| || ParseError(e.f.errno)
    ensures Ending(0, Init(), [], calls).log == LF_LOG
  {
    hide Session, Ending, NeverSkips, Message.Good, Message.Log, Request.BodyFraming, Message.StaysOpen, Pipeline, Message.Text;
    LfGetIsGood();
    LfGetText();
    LfLogIs();
    OneText(LF_GET);
    OneLog(LF_GET);
    AnySessionRoundTrip([LF_GET], calls, skip);
  }

  lemma OneLog(m: Message)
    requires Pipeline([m], 0)
    ensures m.Good() && Logs([m], 0, []) == m.Log([])
  {
    hide Message.Good, Message.Log;
    assert [m][1..] == [];
  }

  // ---------------------------------------------------------------- ten bytes

  const TEN := Piece("0123456789", false, "")
  const TEN_POST := Message(CHUNKED_POST, Coded(WrittenBody([TEN], [], CrLf)))

  lemma TenText()
    ensures Coded(WrittenBody([TEN], [], CrLf)).Text() == "a\r\n0123456789\r\n" + ("0\r\n" + "\r\n")
    ensures WrittenBody([TEN], [], CrLf).Good() && Payload(Chunks([TEN])) == "0123456789"
  {
    hide Piece.Text, Piece.Good, CodedBody.Good, CodedBody.Text;
    SmallSizes();
    WrittenIsGood([TEN], [], CrLf);
    assert [TEN][1..] == [] && Lines([]) == "" && CRLF == "\r\n";
    assert PiecesText([TEN]) == TEN.Text() + "" == TEN.Text();
    assert PiecesBytes([TEN]) == TEN.bytes + "" == TEN.bytes;
  }

  lemma TenIsGood()
    ensures TEN_POST.Good() && TEN_POST.request.BodyFraming() == ChunkedBody && TEN_POST.StaysOpen() && Pipeline([TEN_POST], 0)
  {
    hide Request.Good, CodedBody.Good, Request.BodyFraming, Request.Upgrades, Request.Head, BodyText.Text;
    ChunkedPostIsGood();
    TenText();
    HeadLength();
    TenStaysOpen();
    assert [TEN_POST][1..] == [];
  }

  lemma TenStaysOpen()
    requires TEN_POST.Good()
    ensures TEN_POST.StaysOpen()
  {
    hide GoodHeader, Effects, CodedBody.Good, Says, SaysConnection;
    var m := CHUNKED_POST.Meant();
    HeadersMean(Meaning(NO_FLAGS, ULLONG_MAX), CHUNKED_POST.headers);
    HeadersMean(Meaning(m.flags.(trailing := true), 0), []);
    assert CHUNKED_POST.headers == [CODING];
    CodingSaysNothing();
  }

  lemma CodingSaysNothing()
    ensures !SaysConnection(CODING, "close")
  {
    hide SameLetter;
  }

  const TEN_LOG := [MessageBegin, Data(Url, "/"), Data(Field, "transfer-encoding"), Data(Value, "chunked"), HeadersComplete(ChunkedBody),
                    Data(Body, "0123456789"), MessageComplete(true)]

  lemma TenHeadLog()
    ensures CHUNKED_POST.Log([]) == TEN_LOG[..4]
  {
    var l1 := Append(Append([], MessageBegin), Data(Url, "/"));
    assert l1 == TEN_LOG[..2];
    assert [CODING][1..] == [];
    assert HeadersLog(l1, [CODING]) == HeadersLog(HeaderLog(l1, CODING), []) == HeaderLog(l1, CODING);
    assert Append(l1, Data(Field, "transfer-encoding")) == TEN_LOG[..3];
  }

  lemma TenLogIs()
    requires TEN_POST.Good() && CHUNKED_POST.BodyFraming() == ChunkedBody && TEN_POST.StaysOpen()
    ensures TEN_POST.Log([]) == TEN_LOG
  {
    hide Message.Good, Request.Good, Request.BodyFraming, Request.StaysOpen, FinalFlags, Request.Log, BodyText.Fits, CodedBody.Good;
    TenHeadLog();
    TenText();
    var l := Append(TEN_LOG[..4], HeadersComplete(ChunkedBody));
    assert l == TEN_LOG[..5];
    assert Append(l, Data(Body, "0123456789")) == TEN_LOG[..6];
    assert HeadersLog(TEN_LOG[..6], []) == TEN_LOG[..6];
    assert Append(TEN_LOG[..6], MessageComplete(true)) == TEN_LOG;
  }

  /** Behind a chunked head the body `a CRLF 0123456789 CRLF 0 CRLF CRLF` is delivered as those ten bytes. */
  lemma TenBytes(calls: seq<CallRecord>, skip: Fields -> bool)
    requires NeverSkips(skip) && Session(CHUNKED_POST.Head() + ("a\r\n0123456789\r\n" + ("0\r\n" + "\r\n")), 0, Init(), [], calls, skip)
    requires var e := Ending(0, Init(), [], calls); e.n == |CHUNKED_POST.Head()| + 20 || ParseError(e.f.errno)
    ensures Ending(0, Init(), [], calls).log == TEN_LOG
  {
    hide Session, Ending, NeverSkips, Message.Good, Message.Log, Request.BodyFraming, Message.StaysOpen, Pipeline, Request.Head, BodyText.Text,
         WrittenBody;
    TenIsGood();
    TenText();
    TenLogIs();
    OneText(TEN_POST);
    OneLog(TEN_POST);
    AnySessionRoundTrip([TEN_POST], calls, skip);
  }
}
