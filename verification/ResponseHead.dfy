/** `http_response_write`: the status line and the headers of a response, and what its
    Content-Length says. */
module ResponseHead {
  import opened HttpChars
  import opened HttpHeaders

  datatype Version = Http10 | Http11 | HttpXx

  datatype Header = Header(name: string, content: string)

  const CONTENT_LENGTH := "Content-Length"
  const CONTENT_TYPE := "Content-Type"
  const TRANSFER_ENCODING := "Transfer-Encoding"
  const DATE := "Date"
  const SERVER := "Server"
  const CONNECTION := "Connection"
  const CRLF := "\r\n"
  const UINT32: nat := 0x1_0000_0000

  /** `%u` and `%hu`. */
  function Decimal(n: nat): string {
    if n < 10 then [('0' as int + n) as char] else Decimal(n / 10) + [('0' as int + n % 10) as char]
  }

  function CodeMessage(code: nat): string {
    if code == 100 then "Continue" else if code == 101 then "Switching Protocols"
    else if code == 200 then "OK" else if code == 201 then "Created" else if code == 202 then "Accepted"
    else if code == 203 then "Non-Authoritative Information" else if code == 204 then "No Content"
    else if code == 205 then "Reset Content" else if code == 206 then "Partial Content"
    else if code == 300 then "Multiple Choices" else if code == 301 then "Moved Permanently"
    else if code == 302 then "Found" else if code == 303 then "See Other" else if code == 304 then "Not Modified"
    else if code == 305 then "Use Proxy" else if code == 307 then "Temporary Redirect"
    else ErrorMessage(code)
  }

  function ErrorMessage(code: nat): string {
    if code == 400 then "Bad Request" else if code == 401 then "Unauthorized" else if code == 403 then "Forbidden"
    else if code == 404 then "Not Found" else if code == 405 then "Method Not Allowed"
    else if code == 406 then "Not Acceptable" else if code == 407 then "Proxy Authentication Required"
    else if code == 408 then "Request Timeout" else if code == 409 then "Conflict"
    else if code < 500 then LaterErrorMessage(code) else ServerErrorMessage(code)
  }

  function LaterErrorMessage(code: nat): string {
    if code == 410 then "Gone" else if code == 411 then "Length Required" else if code == 412 then "Precondition Failed"
    else if code == 413 then "Request Entity Too Large" else if code == 414 then "Request-URI Too Long"
    else if code == 415 then "Unsupported Media Type" else if code == 416 then "Requested Range Not Satisfiable"
    else if code == 417 then "Expectation Failed" else ""
  }

  function ServerErrorMessage(code: nat): string {
    if code == 500 then "Internal Server Error"
    else if code == 501 then "Not Implemented" else if code == 502 then "Bad Gateway"
    else if code == 503 then "Service Unavailable" else if code == 504 then "Gateway Timeout"
    else if code == 505 then "HTTP Version Not Supported" else ""
  }

  // ---------------------------------------------------------------- header lists

  /** The number of headers called `name`. */
  function Count(hs: seq<Header>, name: string): nat {
    if hs == [] then 0 else Count(hs[1..], name) + if hs[0].name == name then 1 else 0
  }

  /** `http_header_list_get`: the first of that name; names are compared as they are. */
  function Lookup(hs: seq<Header>, name: string): (i: nat)
    ensures i <= |hs| && (i < |hs| ==> hs[i].name == name) && forall j | 0 <= j < i :: hs[j].name != name
  {
    if hs == [] then 0 else if hs[0].name == name then 0 else 1 + Lookup(hs[1..], name)
  }

  /** `http_header_list_remove` of a name that occurs at most once. */
  function Without(hs: seq<Header>, name: string): seq<Header> {
    var i := Lookup(hs, name);
    if i == |hs| then hs else hs[..i] + hs[i + 1..]
  }

  /** `http_header_list_add`. */
  function With(hs: seq<Header>, h: Header, replace: bool): seq<Header> {
    (if replace then Without(hs, h.name) else hs) + [h]
  }

  lemma {:induction false} CountJoin(xs: seq<Header>, ys: seq<Header>, name: string)
    ensures Count(xs + ys, name) == Count(xs, name) + Count(ys, name)
  {
    if xs == [] {
      assert xs + ys == ys;
    } else {
      assert (xs + ys)[1..] == xs[1..] + ys;
      CountJoin(xs[1..], ys, name);
    }
  }

  /** Replacing leaves one header of the name, the new one, and the others as they were. */
  lemma WithReplaces(hs: seq<Header>, h: Header, name: string)
    requires Count(hs, h.name) <= 1
    ensures var r := With(hs, h, true);
            && Count(r, name) == (if name == h.name then 1 else Count(hs, name))
            && |r| > 0 && r[|r| - 1] == h
  {
    var i := Lookup(hs, h.name);
    CountJoin(Without(hs, h.name), [h], name);
    if i < |hs| {
      assert hs == hs[..i] + ([hs[i]] + hs[i + 1..]);
      CountJoin(hs[..i], [hs[i]] + hs[i + 1..], name);
      CountJoin([hs[i]], hs[i + 1..], name);
      CountJoin(hs[..i], hs[i + 1..], name);
      CountJoin(hs[..i], [hs[i]] + hs[i + 1..], h.name);
      CountJoin([hs[i]], hs[i + 1..], h.name);
    } else {
      NoneThere(hs, h.name);
    }
  }

  lemma {:induction false} NoneThere(hs: seq<Header>, name: string)
    requires forall j | 0 <= j < |hs| :: hs[j].name != name
    ensures Count(hs, name) == 0
  {
    if hs != [] {
      NoneThere(hs[1..], name);
    }
  }

  /** The headers a response is sent with. */
  function FinalHeaders(code: nat, hs: seq<Header>, chunked: bool, length: nat, date: string): seq<Header> {
    if code == 100 then hs
    else
      var a := With(hs, if chunked then Header(TRANSFER_ENCODING, "chunked") else Header(CONTENT_LENGTH, Decimal(length % UINT32)), true);
      var b := if Lookup(a, CONTENT_TYPE) == |a| then With(a, Header(CONTENT_TYPE, "text/plain"), false) else a;
      With(With(b, Header(DATE, date), true), Header(SERVER, "KHTTP/0.1"), true)
  }

  function HeaderText(hs: seq<Header>): string {
    if hs == [] then "" else HeaderText(hs[..|hs| - 1]) + (hs[|hs| - 1].name + ": " + hs[|hs| - 1].content + CRLF)
  }

  function StatusLine(v: Version, code: nat, message: string): string {
    (if v.Http10? then "HTTP/1.0 " else if v.Http11? then "HTTP/1.1 " else "") + Decimal(code) + " " + message + CRLF
  }

  /** Everything that goes out before the body. */
  function Head(v: Version, code: nat, message: string, hs: seq<Header>, chunked: bool, length: nat, date: string): string {
    StatusLine(v, code, message) + HeaderText(FinalHeaders(code, hs, chunked, length, date)) + CRLF
  }

  /** The four names `http_response_write` replaces occur at most once. */
  predicate OnceEach(hs: seq<Header>) {
    Count(hs, CONTENT_LENGTH) <= 1 && Count(hs, TRANSFER_ENCODING) <= 1 && Count(hs, DATE) <= 1 && Count(hs, SERVER) <= 1
  }

  // ---------------------------------------------------------------- what Content-Length says

  lemma {:induction false} DecimalIsDigits(n: nat)
    ensures |Decimal(n)| > 0 && forall i | 0 <= i < |Decimal(n)| :: IsNum(Decimal(n)[i])
    ensures DecimalOf(Decimal(n)) == n
  {
    if n >= 10 {
      DecimalIsDigits(n / 10);
      var d := Decimal(n);
      assert d[..|d| - 1] == Decimal(n / 10);
    } else {
      assert Decimal(n)[..0] == "";
    }
  }

  lemma {:induction false} PrefixValue(v: string, i: nat)
    requires i <= |v| && forall k | 0 <= k < |v| :: IsNum(v[k])
    ensures DecimalOf(v[..i]) <= DecimalOf(v) && (i < |v| ==> 10 * DecimalOf(v[..i]) <= DecimalOf(v))
    decreases |v|
  {
    if i < |v| {
      var n := |v| - 1;
      PrefixValue(v[..n], i);
      assert v[..n][..i] == v[..i];
    } else {
      assert v[..i] == v;
    }
  }

  /** A header of the response: where Content-Length is. */
  lemma LengthHeaderOnce(code: nat, hs: seq<Header>, length: nat, date: string)
    requires code != 100 && OnceEach(hs)
    ensures var r := FinalHeaders(code, hs, false, length, date);
            Count(r, CONTENT_LENGTH) == 1 && Lookup(r, CONTENT_LENGTH) < |r| &&
            r[Lookup(r, CONTENT_LENGTH)].content == Decimal(length % UINT32)
  {
    hide Decimal, Count, Lookup, Without;
    var h := Header(CONTENT_LENGTH, Decimal(length % UINT32));
    var a := With(hs, h, true);
    WithReplaces(hs, h, CONTENT_LENGTH);
    WithReplaces(hs, h, DATE);
    WithReplaces(hs, h, SERVER);
    var t := Header(CONTENT_TYPE, "text/plain");
    var b := if Lookup(a, CONTENT_TYPE) == |a| then With(a, t, false) else a;
    OneHeader(t);
    CountJoin(a, [t], CONTENT_LENGTH);
    CountJoin(a, [t], DATE);
    CountJoin(a, [t], SERVER);
    assert h in b by { assert a[|a| - 1] == h; }
    var c := With(b, Header(DATE, date), true);
    WithReplaces(b, Header(DATE, date), CONTENT_LENGTH);
    WithReplaces(b, Header(DATE, date), SERVER);
    KeepsOthers(b, Header(DATE, date), h);
    var d := With(c, Header(SERVER, "KHTTP/0.1"), true);
    WithReplaces(c, Header(SERVER, "KHTTP/0.1"), CONTENT_LENGTH);
    KeepsOthers(c, Header(SERVER, "KHTTP/0.1"), h);
    OnlyOne(d, h);
  }

  lemma OneHeader(h: Header)
    ensures forall name :: Count([h], name) == if name == h.name then 1 else 0
  {
  }

  lemma KeepsOthers(hs: seq<Header>, h: Header, other: Header)
    requires other in hs && other.name != h.name
    ensures other in With(hs, h, true)
  {
    var i := Lookup(hs, h.name);
    if i < |hs| {
      var j :| 0 <= j < |hs| && hs[j] == other;
      if j < i {
        assert (hs[..i] + hs[i + 1..])[j] == other;
      } else {
        assert (hs[..i] + hs[i + 1..])[j - 1] == other;
      }
    }
  }

  lemma {:induction false} OnlyOne(hs: seq<Header>, h: Header)
    requires h in hs && Count(hs, h.name) == 1
    ensures Lookup(hs, h.name) < |hs| && hs[Lookup(hs, h.name)] == h
  {
    if hs[0].name == h.name {
      if hs[0] != h {
        CountOf(hs[1..], h);
      }
    } else {
      OnlyOne(hs[1..], h);
    }
  }

  lemma {:induction false} CountOf(hs: seq<Header>, h: Header)
    requires h in hs
    ensures Count(hs, h.name) > 0
  {
    if hs[0] != h {
      CountOf(hs[1..], h);
    }
  }

  /** The one Content-Length a response carries is a number the request parser of this
      repository reads, and it is the length of the body exactly when that is below 2^32. */
  lemma ContentLengthExact(code: nat, hs: seq<Header>, length: nat, date: string)
    requires code != 100 && OnceEach(hs)
    ensures var r := FinalHeaders(code, hs, false, length, date); var i := Lookup(r, CONTENT_LENGTH);
            && Count(r, CONTENT_LENGTH) == 1 && i < |r|
            && IsLength(r[i].content)
            && (DecimalOf(r[i].content) == length <==> length < UINT32)
  {
    hide FinalHeaders, Count, Lookup, DecimalOf, Decimal;
    LengthHeaderOnce(code, hs, length, date);
    var n := length % UINT32;
    var v := Decimal(n);
    DecimalIsDigits(n);
    forall i | 0 < i < |v|
      ensures v[i] == ' ' || (IsNum(v[i]) && DecimalOf(v[..i]) <= (HttpParser.ULLONG_MAX - 10) / 10)
    {
      PrefixValue(v, i);
    }
  }
}
