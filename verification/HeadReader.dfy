/** A client that reads the head of a response: it looks for line ends, blanks and colons in the
    text and knows nothing of how the text was made. */
module HeadReader {
  import opened HttpChars
  import opened HttpHeaders
  import opened ResponseHead

  datatype HeadRead =
    | NoHead
    | HeadRead(version: Version, code: nat, message: string, headers: seq<Header>, rest: string)

  datatype LinesRead = NoLines | LinesRead(headers: seq<Header>, rest: string)

  /** The first place where `mark` is found, or the length. */
  function FirstAt(s: string, mark: string): (i: nat)
    ensures i <= |s| && (i < |s| ==> mark <= s[i..]) && forall j | 0 <= j < i :: !(mark <= s[j..])
  {
    if s == "" || mark <= s then 0 else
      var i := 1 + FirstAt(s[1..], mark);
      assert forall j | 0 < j < i :: s[j..] == s[1..][j - 1..];
      i
  }

  /** Header lines, split at the first colon and blank, up to the empty line. */
  function ReadLines(s: string): LinesRead
    decreases |s|
  {
    var i := FirstAt(s, "\r\n");
    if i == |s| then NoLines
    else if i == 0 then LinesRead([], s[2..])
    else
      var line := s[..i];
      var k := FirstAt(line, ": ");
      if k == |line| then NoLines
      else
        match ReadLines(s[i + 2..])
        case NoLines => NoLines
        case LinesRead(hs, rest) => LinesRead([Header(line[..k], line[k + 2..])] + hs, rest)
  }

  /** The line without the version, and the version. */
  function CutVersion(line: string): (Version, string) {
    if "HTTP/1.0 " <= line then (Http10, line[9..])
    else if "HTTP/1.1 " <= line then (Http11, line[9..])
    else (HttpXx, line)
  }

  function ReadHead(s: string): HeadRead {
    var i := FirstAt(s, "\r\n");
    if i == |s| then NoHead
    else
      var (version, status) := CutVersion(s[..i]);
      var k := FirstAt(status, " ");
      if k == |status| || k == 0 || exists j | 0 <= j < k :: !('0' <= status[j] <= '9') then NoHead
      else
        match ReadLines(s[i + 2..])
        case NoLines => NoHead
        case LinesRead(hs, rest) => HeadRead(version, DecimalOf(status[..k]), status[k + 1..], hs, rest)
  }

  // ---------------------------------------------------------------- reading back what was written

  /** No line end. */
  predicate OneLine(s: string) {
    '\r' !in s && '\n' !in s
  }

  predicate PlainName(s: string) {
    OneLine(s) && ':' !in s
  }

  predicate Clean(hs: seq<Header>) {
    forall i | 0 <= i < |hs| :: PlainName(hs[i].name) && OneLine(hs[i].content)
  }

  lemma FirstIs(s: string, mark: string, i: nat)
    requires i < |s| && mark <= s[i..] && forall j | 0 <= j < i :: !(mark <= s[j..])
    ensures FirstAt(s, mark) == i
  {
    assert FirstAt(s, mark) >= i;
  }

  /** The end of a line is found. */
  lemma LineEndsThere(line: string, rest: string)
    requires OneLine(line)
    ensures FirstAt(line + "\r\n" + rest, "\r\n") == |line| && |line| < |line + "\r\n" + rest|
    ensures (line + "\r\n" + rest)[..|line|] == line && (line + "\r\n" + rest)[|line| + 2..] == rest
  {
    var s := line + "\r\n" + rest;
    assert s[|line|..] == "\r\n" + rest;
    forall j | 0 <= j < |line|
      ensures !("\r\n" <= s[j..])
    {
      assert s[j] == line[j] && line[j] in line && s[j..][0] == s[j];
    }
    FirstIs(s, "\r\n", |line|);
  }

  lemma ColonIsThere(name: string, content: string)
    requires ':' !in name
    ensures var line := name + ": " + content;
            FirstAt(line, ": ") == |name| && line[..|name|] == name && line[|name| + 2..] == content
  {
    var line := name + ": " + content;
    assert line[|name|..] == ": " + content;
    forall j | 0 <= j < |name|
      ensures !(": " <= line[j..])
    {
      assert line[j] == name[j] && name[j] in name && line[j..][0] == line[j];
    }
    FirstIs(line, ": ", |name|);
  }

  lemma OneLineJoin(a: string, b: string)
    requires OneLine(a) && OneLine(b)
    ensures OneLine(a + b)
  {
  }

  lemma {:induction false} HeaderTextFront(hs: seq<Header>)
    requires hs != []
    ensures HeaderText(hs) == (hs[0].name + ": " + hs[0].content) + CRLF + HeaderText(hs[1..])
    decreases |hs|
  {
    var n := |hs| - 1;
    if n > 0 {
      HeaderTextFront(hs[..n]);
      assert hs[..n][1..] == hs[1..][..n - 1];
      assert hs[1..][n - 1] == hs[n];
    } else {
      assert hs[..0] == [] && hs[1..] == [];
    }
  }

  /** Header lines are read back in order, up to the empty line and no further. */
  lemma {:induction false} LinesReadBack(hs: seq<Header>, rest: string)
    requires Clean(hs)
    ensures ReadLines(HeaderText(hs) + "\r\n" + rest) == LinesRead(hs, rest)
    decreases |hs|
  {
    if hs == [] {
      assert HeaderText(hs) + "\r\n" + rest == "" + "\r\n" + rest;
      LineEndsThere("", rest);
    } else {
      HeaderTextFront(hs);
      hide HeaderText, FirstAt;
      var more := HeaderText(hs[1..]) + "\r\n" + rest;
      assert HeaderText(hs) + "\r\n" + rest == (hs[0].name + ": " + hs[0].content) + "\r\n" + more;
      LinesReadBack(hs[1..], rest);
      OneLineReadBack(hs[0], more);
      assert [hs[0]] + hs[1..] == hs;
    }
  }

  lemma OneLineReadBack(h: Header, more: string)
    requires OneLine(h.name) && ':' !in h.name && OneLine(h.content)
    ensures ReadLines(h.name + ": " + h.content + "\r\n" + more) ==
            match ReadLines(more) case NoLines => NoLines case LinesRead(hs, rest) => LinesRead([h] + hs, rest)
  {
    hide FirstAt;
    var line := h.name + ": " + h.content;
    OneLineJoin(h.name, ": ");
    OneLineJoin(h.name + ": ", h.content);
    LineEndsThere(line, more);
    ColonIsThere(h.name, h.content);
  }

  function VersionText(v: Version): string {
    match v case Http10 => "HTTP/1.0 " case Http11 => "HTTP/1.1 " case HttpXx => ""
  }

  lemma DigitsRead(digits: string, message: string)
    requires |digits| > 0 && forall j | 0 <= j < |digits| :: '0' <= digits[j] <= '9'
    ensures var tail := digits + " " + message;
            FirstAt(tail, " ") == |digits| && tail[..|digits|] == digits && tail[|digits| + 1..] == message && tail[0] == digits[0]
  {
    var tail := digits + " " + message;
    assert tail[|digits|..] == " " + message;
    forall j | 0 <= j < |digits|
      ensures !(" " <= tail[j..])
    {
      assert tail[j..][0] == digits[j];
    }
    FirstIs(tail, " ", |digits|);
  }

  lemma VersionRead(v: Version, tail: string)
    requires tail != "" && tail[0] != 'H'
    ensures CutVersion(VersionText(v) + tail) == (v, tail)
  {
    var line := VersionText(v) + tail;
    match v {
      case Http10 => assert line[..9] == "HTTP/1.0 " && line[9..] == tail;
      case Http11 => assert line[..9] == "HTTP/1.1 " && line[9..] == tail && line[7] == '1' && "HTTP/1.0 "[7] == '0';
      case HttpXx => assert line == tail && "HTTP/1.0 "[0] == "HTTP/1.1 "[0] == 'H';
    }
  }

  /** Round trip: from the text of a head and whatever follows it the client reads the version, the code,
      the message and exactly the headers it was sent with, and what follows is what it has left. */
  lemma HeadReadBack(v: Version, code: nat, message: string, hs: seq<Header>, chunked: bool, length: nat, date: string, rest: string)
    requires OneLine(message) && Clean(FinalHeaders(code, hs, chunked, length, date))
    ensures ReadHead(Head(v, code, message, hs, chunked, length, date) + rest) ==
            HeadRead(v, code, message, FinalHeaders(code, hs, chunked, length, date), rest)
  {
    hide FinalHeaders, Decimal, DecimalOf, FirstAt, ReadLines, HeaderText, CutVersion;
    var final := FinalHeaders(code, hs, chunked, length, date);
    var digits := Decimal(code);
    DecimalIsDigits(code);
    var tail := digits + " " + message;
    var line := VersionText(v) + tail;
    var more := HeaderText(final) + "\r\n" + rest;
    assert Head(v, code, message, hs, chunked, length, date) + rest == line + "\r\n" + more by {
      HeadIs(v, code, message, hs, chunked, length, date, rest);
    }
    DigitsAreOneLine(digits);
    OneLineJoin(digits, " ");
    OneLineJoin(digits + " ", message);
    OneLineJoin(VersionText(v), tail);
    LineEndsThere(line, more);
    DigitsRead(digits, message);
    VersionRead(v, tail);
    LinesReadBack(final, rest);
  }

  lemma HeadIs(v: Version, code: nat, message: string, hs: seq<Header>, chunked: bool, length: nat, date: string, rest: string)
    ensures Head(v, code, message, hs, chunked, length, date) + rest ==
            VersionText(v) + (Decimal(code) + " " + message) + "\r\n" +
            (HeaderText(FinalHeaders(code, hs, chunked, length, date)) + "\r\n" + rest)
  {
    hide FinalHeaders, Decimal, HeaderText;
    assert StatusLine(v, code, message) == VersionText(v) + (Decimal(code) + " " + message) + "\r\n";
  }

  lemma DigitsAreOneLine(digits: string)
    requires forall i | 0 <= i < |digits| :: IsNum(digits[i])
    ensures OneLine(digits)
  {
  }

  // ---------------------------------------------------------------- which headers those are

  /** All headers but those of one name. */
  function Drop(hs: seq<Header>, name: string): seq<Header> {
    if hs == [] then [] else if hs[0].name == name then Drop(hs[1..], name) else [hs[0]] + Drop(hs[1..], name)
  }

  lemma {:induction false} DropJoin(xs: seq<Header>, ys: seq<Header>, name: string)
    ensures Drop(xs + ys, name) == Drop(xs, name) + Drop(ys, name)
    decreases |xs|
  {
    if xs == [] {
      assert xs + ys == ys;
    } else {
      assert (xs + ys)[1..] == xs[1..] + ys;
      DropJoin(xs[1..], ys, name);
    }
  }

  lemma {:induction false} DropNone(hs: seq<Header>, name: string)
    ensures Count(hs, name) == 0 ==> Drop(hs, name) == hs
    ensures Count(hs, name) == 0 <==> Lookup(hs, name) == |hs|
    decreases |hs|
  {
    if hs != [] {
      DropNone(hs[1..], name);
    }
  }

  lemma {:induction false} DropCounts(hs: seq<Header>, name: string, other: string)
    ensures Count(Drop(hs, name), other) == if other == name then 0 else Count(hs, other)
    decreases |hs|
  {
    if hs != [] {
      DropCounts(hs[1..], name, other);
    }
  }

  /** Removing the one header of a name leaves all others. */
  lemma {:induction false} WithoutDrops(hs: seq<Header>, name: string)
    requires Count(hs, name) <= 1
    ensures Without(hs, name) == Drop(hs, name)
    decreases |hs|
  {
    if hs != [] {
      if hs[0].name == name {
        DropNone(hs[1..], name);
        assert Without(hs, name) == hs[..0] + hs[1..] == hs[1..];
      } else {
        WithoutDrops(hs[1..], name);
        var i := Lookup(hs[1..], name);
        if i < |hs[1..]| {
          assert hs[..i + 1] + hs[i + 2..] == [hs[0]] + (hs[1..][..i] + hs[1..][i + 1..]);
        }
      }
    }
  }

  /** Replacing a header: the others in their order, then the new one. */
  lemma WithIs(hs: seq<Header>, h: Header)
    requires Count(hs, h.name) <= 1
    ensures With(hs, h, true) == Drop(hs, h.name) + [h]
  {
    WithoutDrops(hs, h.name);
  }

  /** How the body is delimited, as the response says it. */
  function CodingHeader(chunked: bool, length: nat): Header {
    if chunked then Header("Transfer-Encoding", "chunked") else Header("Content-Length", Decimal(length % 4294967296))
  }

  /** The headers a response other than 100 Continue is sent with: those it was given, in their order, but for
      the three the writer sets itself; how the body is delimited; a content type if it had none; the date; the
      server. */
  lemma FinalHeadersAre(code: nat, hs: seq<Header>, chunked: bool, length: nat, date: string)
    requires code != 100 && OnceEach(hs)
    ensures var coding := CodingHeader(chunked, length);
            FinalHeaders(code, hs, chunked, length, date) ==
            Drop(Drop(Drop(hs, coding.name), "Date"), "Server") + [coding]
            + (if Count(hs, "Content-Type") == 0 then [Header("Content-Type", "text/plain")] else [])
            + [Header("Date", date), Header("Server", "KHTTP/0.1")]
  {
    hide Decimal, Count, Drop, Lookup, With;
    var coding := CodingHeader(chunked, length);
    var day, server := Header("Date", date), Header("Server", "KHTTP/0.1");
    var front := Drop(hs, coding.name);
    var kind := if Count(hs, "Content-Type") == 0 then [Header("Content-Type", "text/plain")] else [];
    WithIs(hs, coding);
    assert With(hs, coding, true) == front + [coding];
    TypeAdded(front, coding, hs);
    var b := front + [coding] + kind;
    OwnCounts(hs, coding, kind);
    WithIs(b, day);
    WithIs(Drop(b, "Date") + [day], server);
    DropsThrough(front, [coding] + kind, day);
    assert b == front + ([coding] + kind);
    assert Drop(Drop(front, "Date"), "Server") + ([coding] + kind) + [day] + [server] ==
           Drop(Drop(front, "Date"), "Server") + [coding] + kind + [day, server];
  }

  /** Content-Type is added exactly when the response has none. */
  lemma TypeAdded(front: seq<Header>, coding: Header, hs: seq<Header>)
    requires front == Drop(hs, coding.name) && coding.name != "Content-Type"
    ensures var a := front + [coding]; var t := Header("Content-Type", "text/plain");
            (if Lookup(a, CONTENT_TYPE) == |a| then With(a, t, false) else a) ==
            front + [coding] + (if Count(hs, "Content-Type") == 0 then [t] else [])
  {
    DropCounts(hs, coding.name, "Content-Type");
    CountJoin(front, [coding], "Content-Type");
    OneHeader(coding);
    DropNone(front + [coding], "Content-Type");
  }

  lemma OwnCounts(hs: seq<Header>, coding: Header, kind: seq<Header>)
    requires Count(hs, "Date") <= 1 && Count(hs, "Server") <= 1 && coding.name != "Date" && coding.name != "Server"
    requires kind == [] || kind == [Header("Content-Type", "text/plain")]
    ensures var b := Drop(hs, coding.name) + [coding] + kind;
            && Count(b, "Date") <= 1 && forall date :: Count(Drop(b, "Date") + [Header("Date", date)], "Server") <= 1
  {
    var front := Drop(hs, coding.name);
    var b := front + [coding] + kind;
    forall name | name == "Date" || name == "Server"
      ensures Count(b, name) <= 1
    {
      DropCounts(hs, coding.name, name);
      CountJoin(front, [coding], name);
      CountJoin(front + [coding], kind, name);
      OneHeader(coding);
      assert kind == [] || Count(kind, name) == 0 by { OneHeader(Header("Content-Type", "text/plain")); }
    }
    forall date
      ensures Count(Drop(b, "Date") + [Header("Date", date)], "Server") <= 1
    {
      DropCounts(b, "Date", "Server");
      CountJoin(Drop(b, "Date"), [Header("Date", date)], "Server");
      OneHeader(Header("Date", date));
    }
  }

  lemma DropsThrough(front: seq<Header>, own: seq<Header>, day: Header)
    requires day.name == "Date" && forall h <- own :: h.name != "Date" && h.name != "Server"
    ensures Drop(Drop(front + own, "Date") + [day], "Server") == Drop(Drop(front, "Date"), "Server") + own + [day]
  {
    DropJoin(front, own, "Date");
    DropOther(own, "Date");
    DropJoin(Drop(front, "Date") + own, [day], "Server");
    DropJoin(Drop(front, "Date"), own, "Server");
    DropOther(own, "Server");
    DropOther([day], "Server");
  }

  lemma {:induction false} DropOther(hs: seq<Header>, name: string)
    requires forall h <- hs :: h.name != name
    ensures Drop(hs, name) == hs
    decreases |hs|
  {
    if hs != [] {
      assert hs[0] in hs && forall h | h in hs[1..] :: h in hs;
      DropOther(hs[1..], name);
    }
  }

  lemma {:induction false} DropClean(hs: seq<Header>, name: string)
    requires Clean(hs)
    ensures Clean(Drop(hs, name))
    decreases |hs|
  {
    if hs != [] {
      assert forall i | 0 <= i < |hs| - 1 :: hs[1..][i] == hs[i + 1];
      DropClean(hs[1..], name);
    }
  }

  /** Lines that go in clean come out clean. */
  lemma FinalClean(code: nat, hs: seq<Header>, chunked: bool, length: nat, date: string)
    requires OnceEach(hs) && Clean(hs) && OneLine(date)
    ensures Clean(FinalHeaders(code, hs, chunked, length, date))
  {
    if code != 100 {
      FinalHeadersAre(code, hs, chunked, length, date);
      hide FinalHeaders, Count, Drop, Clean;
      var coding := CodingHeader(chunked, length);
      DropClean(hs, coding.name);
      DropClean(Drop(hs, coding.name), "Date");
      DropClean(Drop(Drop(hs, coding.name), "Date"), "Server");
      var front := Drop(Drop(Drop(hs, coding.name), "Date"), "Server");
      var kind := if Count(hs, "Content-Type") == 0 then [Header("Content-Type", "text/plain")] else [];
      OwnClean(chunked, length, date);
      CleanJoin(front, [coding]);
      CleanJoin(front + [coding], kind);
      CleanJoin(front + [coding] + kind, [Header("Date", date), Header("Server", "KHTTP/0.1")]);
    }
  }

  lemma CleanJoin(xs: seq<Header>, ys: seq<Header>)
    requires Clean(xs) && Clean(ys)
    ensures Clean(xs + ys)
  {
  }

  lemma OwnClean(chunked: bool, length: nat, date: string)
    requires OneLine(date)
    ensures Clean([CodingHeader(chunked, length)]) && Clean([Header("Content-Type", "text/plain")]) && Clean([])
    ensures Clean([Header("Date", date), Header("Server", "KHTTP/0.1")])
  {
    hide Decimal, OneLine;
    DecimalIsDigits(length % 4294967296);
    DigitsAreOneLine(Decimal(length % 4294967296));
    PlainNames();
    CleanJoin([Header("Date", date)], [Header("Server", "KHTTP/0.1")]);
    assert [Header("Date", date)] + [Header("Server", "KHTTP/0.1")] == [Header("Date", date), Header("Server", "KHTTP/0.1")];
  }

  lemma PlainNames()
    ensures PlainName("Transfer-Encoding") && PlainName("Content-Length") && PlainName("Content-Type")
    ensures PlainName("Date") && PlainName("Server") && OneLine("chunked") && OneLine("text/plain") && OneLine("KHTTP/0.1")
  {
    assert PlainName("Transfer-Encoding");
    assert PlainName("Content-Length");
    assert PlainName("Content-Type");
  }

  // ---------------------------------------------------------------- one head, letter by letter

  lemma Hundreds()
    ensures Decimal(2) == "2" && Decimal(20) == "20" && Decimal(200) == "200" && Decimal(404) == "404"
  {
    assert Decimal(2) == "2" && Decimal(20) == "2" + "0" && Decimal(200) == "20" + "0";
    assert Decimal(4) == "4" && Decimal(40) == "4" + "0" && Decimal(404) == "40" + "4";
  }

  /** The head of a plain response with two bytes of body. */
  lemma PlainHead(date: string)
    ensures Head(Http11, 200, "OK", [], false, 2, date) ==
            "HTTP/1.1 200 OK\r\n" + "Content-Length: 2\r\n" + "Content-Type: text/plain\r\n" + ("Date: " + date + "\r\n") +
            "Server: KHTTP/0.1\r\n" + "\r\n"
  {
    Hundreds();
    PlainFinal(date);
    PlainLines(date);
    assert StatusLine(Http11, 200, "OK") == "HTTP/1.1 200 OK\r\n";
    hide *;
    InARow("HTTP/1.1 200 OK\r\n", "Content-Length: 2\r\n", "Content-Type: text/plain\r\n", "Date: " + date + "\r\n",
           "Server: KHTTP/0.1\r\n", "\r\n");
  }

  lemma InARow(a: string, b: string, c: string, d: string, e: string, f: string)
    ensures a + ("" + b + c + d + e) + f == a + b + c + d + e + f
  {
  }

  lemma PlainLines(date: string)
    ensures HeaderText([Header("Content-Length", "2"), Header("Content-Type", "text/plain"), Header("Date", date), Header("Server", "KHTTP/0.1")]) ==
            "" + "Content-Length: 2\r\n" + "Content-Type: text/plain\r\n" + ("Date: " + date + "\r\n") + "Server: KHTTP/0.1\r\n"
  {
    hide HeaderText;
    var length, kind := Header("Content-Length", "2"), Header("Content-Type", "text/plain");
    var day, server := Header("Date", date), Header("Server", "KHTTP/0.1");
    LineAdded([], length, "Content-Length: 2\r\n") by {
      assert "Content-Length" + ": " + "2" + CRLF == "Content-Length: 2\r\n";
    }
    LineAdded([length], kind, "Content-Type: text/plain\r\n") by {
      assert "Content-Type" + ": " + "text/plain" + CRLF == "Content-Type: text/plain\r\n";
    }
    LineAdded([length, kind], day, "Date: " + date + "\r\n") by {
      assert "Date" + ": " + date + CRLF == "Date: " + date + "\r\n";
    }
    LineAdded([length, kind, day], server, "Server: KHTTP/0.1\r\n") by {
      assert "Server" + ": " + "KHTTP/0.1" + CRLF == "Server: KHTTP/0.1\r\n";
    }
    NoLinesYet();
    assert [] + [length] == [length] && [length] + [kind] == [length, kind] && [length, kind] + [day] == [length, kind, day];
    assert [length, kind, day] + [server] == [length, kind, day, server];
  }

  lemma PlainFinal(date: string)
    ensures FinalHeaders(200, [], false, 2, date) ==
            [Header("Content-Length", "2"), Header("Content-Type", "text/plain"), Header("Date", date), Header("Server", "KHTTP/0.1")]
  {
    Hundreds();
    FinalHeadersAre(200, [], false, 2, date);
  }

  lemma LineAdded(hs: seq<Header>, h: Header, line: string)
    requires h.name + ": " + h.content + CRLF == line
    ensures HeaderText(hs + [h]) == HeaderText(hs) + line
  {
    assert (hs + [h])[..|hs|] == hs;
  }

  lemma NoLinesYet()
    ensures HeaderText([]) == ""
  {
  }

  /** What is said for each code, of those that have a phrase. */
  lemma SuccessPhrases()
    ensures CodeMessage(100) == "Continue" && CodeMessage(101) == "Switching Protocols"
    ensures CodeMessage(200) == "OK" && CodeMessage(201) == "Created" && CodeMessage(202) == "Accepted" && CodeMessage(204) == "No Content"
    ensures CodeMessage(203) == "Non-Authoritative Information" && CodeMessage(205) == "Reset Content" && CodeMessage(206) == "Partial Content"
  {
  }

  lemma RedirectionPhrases()
    ensures CodeMessage(300) == "Multiple Choices" && CodeMessage(301) == "Moved Permanently" && CodeMessage(302) == "Found"
    ensures CodeMessage(303) == "See Other" && CodeMessage(304) == "Not Modified" && CodeMessage(305) == "Use Proxy"
    ensures CodeMessage(307) == "Temporary Redirect"
  {
  }

  lemma RequestPhrases()
    ensures CodeMessage(400) == "Bad Request" && CodeMessage(401) == "Unauthorized" && CodeMessage(403) == "Forbidden"
    ensures CodeMessage(404) == "Not Found" && CodeMessage(405) == "Method Not Allowed"
  {
  }

  lemma RefusalPhrases()
    ensures CodeMessage(406) == "Not Acceptable" && CodeMessage(407) == "Proxy Authentication Required"
    ensures CodeMessage(408) == "Request Timeout" && CodeMessage(409) == "Conflict"
  {
  }

  lemma LengthPhrases()
    ensures CodeMessage(410) == "Gone" && CodeMessage(411) == "Length Required" && CodeMessage(412) == "Precondition Failed"
    ensures CodeMessage(413) == "Request Entity Too Large" && CodeMessage(414) == "Request-URI Too Long"
  {
  }

  lemma ExpectationPhrases()
    ensures CodeMessage(415) == "Unsupported Media Type" && CodeMessage(416) == "Requested Range Not Satisfiable"
    ensures CodeMessage(417) == "Expectation Failed"
  {
  }

  lemma FailurePhrases()
    ensures CodeMessage(500) == "Internal Server Error" && CodeMessage(501) == "Not Implemented" && CodeMessage(502) == "Bad Gateway"
  {
  }

  lemma GatewayPhrases()
    ensures CodeMessage(503) == "Service Unavailable" && CodeMessage(504) == "Gateway Timeout"
    ensures CodeMessage(505) == "HTTP Version Not Supported"
  {
  }

  // ---------------------------------------------------------------- a whole stream

  /** What Content-Length says in a list of headers. */
  function SaidIn(hs: seq<Header>): nat {
    if hs == [] then 0 else if hs[0].name == "Content-Length" then DecimalOf(hs[0].content) else SaidIn(hs[1..])
  }

  lemma {:induction false} SaidThere(hs: seq<Header>, i: nat)
    requires i < |hs| && hs[i].name == "Content-Length" && forall j | 0 <= j < i :: hs[j].name != "Content-Length"
    ensures SaidIn(hs) == DecimalOf(hs[i].content)
    decreases i
  {
    if i > 0 {
      SaidThere(hs[1..], i - 1);
    }
  }

  /** The client finds the length of the body exactly when that is below 2^32. */
  lemma SaidExactly(code: nat, hs: seq<Header>, length: nat, date: string)
    requires code != 100 && OnceEach(hs)
    ensures SaidIn(FinalHeaders(code, hs, false, length, date)) == length <==> length < 4294967296
  {
    hide FinalHeaders, Count, DecimalOf, OnceEach;
    ContentLengthExact(code, hs, length, date);
    var r := FinalHeaders(code, hs, false, length, date);
    SaidThere(r, Lookup(r, CONTENT_LENGTH));
  }

  /** What a client takes a response for. */
  datatype Seen = Seen(version: Version, code: nat, message: string, headers: seq<Header>, body: string)

  /** A text as a client takes it apart: a head, as many bytes as its Content-Length says, the next head, and so on. */
  predicate Framed(text: string, replies: seq<Seen>)
    decreases |replies|
  {
    if replies == [] then text == ""
    else
      match ReadHead(text)
      case NoHead => false
      case HeadRead(version, code, message, headers, rest) =>
        var n := SaidIn(headers);
        && n <= |rest| && replies[0] == Seen(version, code, message, headers, rest[..n])
        && Framed(rest[n..], replies[1..])
  }
}
