/** The callbacks that reassemble headers from the pieces the parser delivers, and when the
    list they build does not depend on how the pieces were cut. */
module HttpReader {
  import opened HttpChars
  import opened HttpParser
  import opened HttpInvariant
  import opened HttpExecute
  import opened HttpSession
  import opened HttpMessages
  import opened HttpBodies
  import opened HttpRoundTrip

  const NUL: char := '\0'

  /** The C string a `calloc`ed copy made by `strncpy` holds: nothing after a NUL survives. */
  function CString(s: string): string {
    if s == [] || s[0] == NUL then [] else [s[0]] + CString(s[1..])
  }

  datatype HeaderState = Nothing | InField | InValue

  /** A header under construction; the content is NULL until a value arrives. */
  datatype Cell = Cell(name: string, content: Option<string>)

  /** `server_parse_status`, as far as headers go, with the list of the current request;
      `Faulted` once a callback has used a header that is NULL. */
  datatype Status =
    | Status(state: HeaderState, current: Option<Cell>, headers: seq<Cell>)
    | Faulted

  const START := Status(Nothing, None, [])

  function Leftover(current: Option<Cell>): seq<Cell> {
    match current case None => [] case Some(c) => [c]
  }

  function AppendContent(c: Cell, str: string): Cell {
    c.(content := Some(match c.content case None => str case Some(prior) => prior + str))
  }

  function OnField(s: Status, at: string): Status
    requires s.Status?
  {
    match s.state
    case Nothing => Status(InField, Some(Cell(CString(at), None)), s.headers)
    case InValue => Status(InField, Some(Cell(CString(at), None)), s.headers + Leftover(s.current))
    case InField =>
      match s.current
      case None => Faulted
      case Some(c) => s.(current := Some(c.(name := c.name + CString(at))))
  }

  function OnValue(s: Status, at: string): Status
    requires s.Status?
  {
    match s.current
    case None => Faulted
    case Some(c) => s.(state := InValue, current := Some(AppendContent(c, CString(at))))
  }

  /** What one callback does to the header under construction and to the list. */
  function On(s: Status, e: Event): Status {
    if s.Faulted? then s
    else
      match e
      case MessageBegin => s.(headers := [])
      case Data(Field, at) => OnField(s, at)
      case Data(Value, at) => OnValue(s, at)
      case HeadersComplete(_) => s.(headers := s.headers + Leftover(s.current), current := None)
      case _ => s
  }

  function ReadFrom(s: Status, events: seq<Event>): Status {
    if events == [] then s else On(ReadFrom(s, events[..|events| - 1]), events[|events| - 1])
  }

  function Read(events: seq<Event>): Status {
    ReadFrom(START, events)
  }

  /** The object the callbacks update. */
  class Reader {
    var state: HeaderState
    var current: Option<Cell>
    var headers: seq<Cell>

    ghost function View(): (s: Status)
      reads this
      ensures s.Status?
    {
      Status(state, current, headers)
    }

    constructor ()
      ensures View() == START
    {
      state, current, headers := Nothing, None, [];
    }

    /** `parser_cb_on_message_begin`: a new request, and the old one is deleted. */
    method Begin() returns (code: int)
      modifies this`headers
      ensures code == 0 && View() == On(old(View()), MessageBegin)
    {
      headers := [];
      return 0;
    }

    /** `parser_cb_on_header_field`; only HTTP/1.0 and HTTP/1.1 are accepted.
        A name is continued in the current header, which must not be NULL. */
    method HeaderField(at: string, major: nat, minor: nat) returns (code: int)
      requires state.InField? ==> current.Some?
      modifies this
      ensures code == if old(state).Nothing? && !(major == 1 && minor <= 1) then -1 else 0
      ensures code == 0 ==> View() == On(old(View()), Data(Field, at))
      ensures code == -1 ==> View() == Status(old(state), Some(Cell(CString(at), None)), old(headers))
    {
      match state {
        case Nothing =>
          current := Some(Cell(CString(at), None));
          if major != 1 || minor > 1 {
            return -1;
          }
        case InValue =>
          if current.Some? {
            headers := headers + [current.value];
          }
          current := Some(Cell(CString(at), None));
        case InField =>
          var c := current.value;
          current := Some(c.(name := c.name + CString(at)));
      }
      state := InField;
      return 0;
    }

    /** `parser_cb_on_header_value`, which asserts that there is a current header. */
    method HeaderValue(at: string) returns (code: int)
      requires current.Some?
      modifies this
      ensures code == 0 && View() == On(old(View()), Data(Value, at))
    {
      var c := current.value;
      var str := CString(at);
      var content := if c.content.None? then str else c.content.value + str;
      current := Some(c.(content := Some(content)));
      state := InValue;
      return 0;
    }

    /** `parser_cb_on_headers_complete`. */
    method HeadersDone(framing: Framing) returns (code: int)
      modifies this
      ensures code == 0 && View() == On(old(View()), HeadersComplete(framing))
    {
      if current.Some? {
        headers := headers + [current.value];
        current := None;
      }
      return 0;
    }

    /** `server_parser_status_reset`: the request has been handed over with its list. */
    method Reset()
      modifies this
      ensures View() == START
    {
      headers := [];
      state := Nothing;
      if current.Some? {
        current := None;
      }
    }
  }

  // ---------------------------------------------------------------- fragments

  /** Only NULs follow a NUL. */
  predicate NulsLast(s: string) {
    forall i, j | 0 <= i < j < |s| :: s[i] == NUL ==> s[j] == NUL
  }

  lemma {:induction false} CStringConcat(a: string, b: string)
    requires NulsLast(a + b)
    ensures CString(a + b) == CString(a) + CString(b)
    decreases |a|
  {
    if a == [] {
      assert a + b == b;
    } else {
      assert (a + b)[1..] == a[1..] + b;
      assert (a + b)[0] == a[0];
      NulsLastTail(a + b);
      if a[0] == NUL {
        NulFirst(a, b);
      } else {
        CStringConcat(a[1..], b);
      }
    }
  }

  lemma NulsLastTail(s: string)
    requires NulsLast(s) && s != []
    ensures NulsLast(s[1..])
  {
  }

  lemma NulFirst(a: string, b: string)
    requires NulsLast(a + b) && a != [] && a[0] == NUL
    ensures CString(b) == []
  {
    if b != [] {
      assert (a + b)[0] == NUL && (a + b)[|a|] == b[0];
    }
  }

  /** What a list of pieces of one value is assembled to. */
  function Assembled(pieces: seq<string>): string {
    if pieces == [] then [] else Assembled(pieces[..|pieces| - 1]) + CString(pieces[|pieces| - 1])
  }

  function Concat(pieces: seq<string>): string {
    if pieces == [] then [] else Concat(pieces[..|pieces| - 1]) + pieces[|pieces| - 1]
  }

  /** The assembled value is the same for every cut exactly when the bytes have no NUL before
      a byte that is not NUL; otherwise some cut into two pieces brings lost bytes back. */
  lemma FragmentationExact(v: string)
    ensures (forall pieces :: Concat(pieces) == v ==> Assembled(pieces) == CString(v)) <==> NulsLast(v)
  {
    hide Assembled, Concat, CString;
    if NulsLast(v) {
      forall pieces | Concat(pieces) == v
        ensures Assembled(pieces) == CString(v)
      {
        AssembledIs(pieces);
      }
    } else {
      var i, j :| 0 <= i < j < |v| && v[i] == NUL && v[j] != NUL;
      BadCut(v, i, j);
      var pieces := [v[..j], v[j..]];
      assert Assembled(pieces) != CString(v);
    }
  }

  lemma {:induction false} AssembledIs(pieces: seq<string>)
    requires NulsLast(Concat(pieces))
    ensures Assembled(pieces) == CString(Concat(pieces))
    decreases |pieces|
  {
    if pieces != [] {
      var init := pieces[..|pieces| - 1];
      var a, b := Concat(init), pieces[|pieces| - 1];
      NulsLastPrefix(a, b);
      AssembledIs(init);
      CStringConcat(a, b);
    }
  }

  lemma NulsLastPrefix(a: string, b: string)
    requires NulsLast(a + b)
    ensures NulsLast(a)
  {
    assert forall i | 0 <= i < |a| :: a[i] == (a + b)[i];
  }

  lemma BadCut(v: string, i: nat, j: nat)
    requires i < j < |v| && v[i] == NUL && v[j] != NUL
    ensures var pieces := [v[..j], v[j..]];
            Concat(pieces) == v && |Assembled(pieces)| > |CString(v)|
  {
    var a, b := v[..j], v[j..];
    var pieces := [a, b];
    assert pieces[..1] == [a] && [a][..0] == [];
    assert Concat([a]) == a && Assembled([a]) == CString(a);
    assert v == a + b;
    CutAtNul(a, b, i);
    assert b[0] == v[j];
  }

  lemma {:induction false} CutAtNul(a: string, b: string, i: nat)
    requires i < |a| && a[i] == NUL
    ensures CString(a + b) == CString(a)
    decreases |a|
  {
    assert (a + b)[0] == a[0];
    if a[0] != NUL {
      assert (a + b)[1..] == a[1..] + b;
      CutAtNul(a[1..], b, i - 1);
    }
  }

  // ---------------------------------------------------------------- whole traces

  /** No name and no value of the trace has a NUL before another byte. */
  predicate NulsHarmless(log: seq<Event>) {
    forall e <- log :: e.Data? && (e.kind.Field? || e.kind.Value?) ==> NulsLast(e.bytes)
  }

  /** Two pieces of one run of data do what the joined piece does. */
  lemma OnTwice(s: Status, k: Kind, x: string, y: string)
    requires (k.Field? || k.Value?) ==> NulsLast(x + y)
    ensures On(On(s, Data(k, x)), Data(k, y)) == On(s, Data(k, x + y))
  {
    if (k.Field? || k.Value?) && s.Status? {
      CStringConcat(x, y);
      var a, b := CString(x), CString(y);
      if s.current.Some? {
        var c := s.current.value;
        assert (c.name + a) + b == c.name + (a + b);
        if c.content.Some? {
          assert (c.content.value + a) + b == c.content.value + (a + b);
        }
      }
    }
  }

  /** Reading a joined trace and one more callback is reading the two joined. */
  lemma ReadAppend(log: seq<Event>, e: Event)
    requires NulsHarmless(Append(log, e))
    ensures Read(Append(log, e)) == On(Read(log), e) && NulsHarmless(log)
  {
    var l := Append(log, e);
    var n := |log| - 1;
    if e.Data? && |log| > 0 && log[n].Data? && log[n].kind == e.kind {
      assert l[..n] == log[..n] && l[n] in l;
      assert NulsHarmless(log) by {
        forall d | d in log && d.Data? && (d.kind.Field? || d.kind.Value?)
          ensures NulsLast(d.bytes)
        {
          if d in log[..n] {
            assert d in l[..n] && d in l;
          } else {
            assert d == log[n];
            NulsLastPrefix(log[n].bytes, e.bytes);
          }
        }
      }
      OnTwice(Read(log[..n]), e.kind, log[n].bytes, e.bytes);
      assert log[n] == Data(e.kind, log[n].bytes);
    } else {
      assert l[..|log|] == log;
      assert forall d <- log :: d in l;
    }
  }

  /** The header list depends on the joined trace alone. */
  lemma {:induction false} ReadJoin(events: seq<Event>)
    requires NulsHarmless(Join(events))
    ensures Read(Join(events)) == Read(events)
    decreases |events|
  {
    if events != [] {
      var init := events[..|events| - 1];
      ReadAppend(Join(init), events[|events| - 1]);
      ReadJoin(init);
    }
  }

  /** Two sessions over one input that is accepted, cut and paused in any two ways, build the same
      list, whatever pieces their callbacks were given. */
  lemma HeaderListIndependent(input: string, calls: seq<CallRecord>, calls': seq<CallRecord>, skip: Fields -> bool,
                              events: seq<Event>, events': seq<Event>)
    requires Session(input, 0, Init(), [], calls, skip) && Session(input, 0, Init(), [], calls', skip)
    requires Ending(0, Init(), [], calls).n == |input| && Ending(0, Init(), [], calls).f.errno.OK?
    requires Ending(0, Init(), [], calls').n == |input| || ParseError(Ending(0, Init(), [], calls').f.errno)
    requires Join(events) == Ending(0, Init(), [], calls).log && Join(events') == Ending(0, Init(), [], calls').log
    requires NulsHarmless(Join(events))
    ensures Read(events) == Read(events')
  {
    hide *;
    InitSound();
    SplitInvariance(input, Init(), [], calls, calls', skip);
    ReadJoin(events);
    ReadJoin(events');
  }

  // ---------------------------------------------------------------- the list a message leaves

  function CellOf(h: Header): Cell {
    Cell(CString(h.name), Some(CString(h.value)))
  }

  function CellsOf(hs: seq<Header>): (cs: seq<Cell>)
    ensures |cs| == |hs|
  {
    if hs == [] then [] else [CellOf(hs[0])] + CellsOf(hs[1..])
  }

  function LastOf(hs: seq<Header>): Option<Cell> {
    if hs == [] then None else Some(CellOf(hs[|hs| - 1]))
  }

  function AllButLast(hs: seq<Header>): seq<Header> {
    if hs == [] then [] else hs[..|hs| - 1]
  }

  /** A header can begin: no name is waiting for its value. */
  predicate Ready(s: Status) {
    s.Status? && !s.state.InField? && (s.state.Nothing? ==> s.current.None?)
  }

  /** Complete header lines move the header under construction to the list and leave the last one there. */
  function AfterBlock(s: Status, hs: seq<Header>): Status
    requires s.Status?
  {
    if hs == [] then s
    else Status(InValue, LastOf(hs), s.headers + Leftover(s.current) + CellsOf(AllButLast(hs)))
  }

  lemma {:induction false} HarmlessBefore(log: seq<Event>, hs: seq<Header>)
    requires NulsHarmless(HeadersLog(log, hs))
    ensures NulsHarmless(log)
    decreases |hs|
  {
    hide NulsHarmless, Read;
    if hs != [] {
      HarmlessBefore(HeaderLog(log, hs[0]), hs[1..]);
      var l := Append(log, Data(Field, hs[0].name));
      ReadAppend(l, Data(Value, hs[0].value));
      ReadAppend(log, Data(Field, hs[0].name));
    }
  }

  lemma {:induction false} ReadBlock(log: seq<Event>, hs: seq<Header>)
    requires NulsHarmless(HeadersLog(log, hs)) && Ready(Read(log))
    ensures Read(HeadersLog(log, hs)) == AfterBlock(Read(log), hs) && Ready(AfterBlock(Read(log), hs))
    decreases |hs|
  {
    hide NulsHarmless, Read, CellOf, HeaderLog, CellsOf;
    if hs != [] {
      var l := HeaderLog(log, hs[0]);
      HarmlessBefore(l, hs[1..]);
      ReadLine(log, hs[0]);
      ReadBlock(l, hs[1..]);
      BlockSplit(Read(log), hs);
    }
  }

  lemma BlockSplit(s: Status, hs: seq<Header>)
    requires s.Status? && hs != []
    ensures AfterBlock(s, hs) == AfterBlock(AfterBlock(s, [hs[0]]), hs[1..])
  {
    hide CellOf;
    var rest := hs[1..];
    assert AllButLast([hs[0]]) == [];
    if rest != [] {
      assert AllButLast(hs)[1..] == AllButLast(rest) && AllButLast(hs)[0] == hs[0];
      Regroup(s.headers + Leftover(s.current), CellOf(hs[0]), CellsOf(AllButLast(rest)));
    }
  }

  lemma Regroup(a: seq<Cell>, c: Cell, b: seq<Cell>)
    ensures a + ([c] + b) == a + [] + [c] + b
  {
  }

  lemma ReadLine(log: seq<Event>, h: Header)
    requires NulsHarmless(HeaderLog(log, h)) && Ready(Read(log))
    ensures Read(HeaderLog(log, h)) == AfterBlock(Read(log), [h]) && Ready(AfterBlock(Read(log), [h]))
  {
    hide NulsHarmless, Read, On, CellOf, Append, AfterBlock;
    var l := Append(log, Data(Field, h.name));
    ReadAppend(l, Data(Value, h.value));
    ReadAppend(log, Data(Field, h.name));
    ReadHeader(Read(log), h);
  }

  lemma ReadHeader(s: Status, h: Header)
    requires Ready(s)
    ensures On(On(s, Data(Field, h.name)), Data(Value, h.value)) == AfterBlock(s, [h]) && Ready(AfterBlock(s, [h]))
  {
    hide CString;
    assert AllButLast([h]) == [];
    assert s.headers + Leftover(s.current) + [] == s.headers + Leftover(s.current);
  }

  function Trailers(b: BodyText): seq<Header> {
    match b case Plain(_) => [] case Coded(c) => c.trailers
  }

  /** What reading a whole message makes of a status: whatever header was left under construction goes
      first, the request's headers follow, then all trailers but the last, which stays behind. */
  function AfterMessage(s: Status, hs: seq<Header>, trailers: seq<Header>): Status
    requires s.Status?
  {
    Status(if hs == [] && trailers == [] then s.state else InValue,
           LastOf(trailers),
           Leftover(s.current) + CellsOf(hs) + CellsOf(AllButLast(trailers)))
  }

  lemma {:induction false} CellsSnoc(hs: seq<Header>)
    requires hs != []
    ensures CellsOf(hs) == CellsOf(AllButLast(hs)) + [CellOf(hs[|hs| - 1])]
    decreases |hs|
  {
    hide CellOf;
    if |hs| > 1 {
      CellsSnoc(hs[1..]);
      assert AllButLast(hs)[1..] == AllButLast(hs[1..]);
    } else {
      assert hs == [hs[0]] && hs[1..] == [] && AllButLast(hs) == [];
    }
  }

  lemma NoCells()
    ensures CellsOf([]) == []
  {
  }

  lemma EmptyBlock(s: Status)
    requires s.Status?
    ensures AfterBlock(s, []) == s
  {
  }

  /** Headers, then headers-complete, then trailers, on a list that begins empty. */
  lemma BlocksAre(s: Status, hs: seq<Header>, trailers: seq<Header>, fr: Framing)
    requires Ready(s) && s.headers == []
    ensures var t := On(AfterBlock(s, hs), HeadersComplete(fr));
            Ready(t) && AfterBlock(t, trailers) == AfterMessage(s, hs, trailers) && Ready(AfterMessage(s, hs, trailers))
  {
    hide CellOf, CellsOf;
    NoCells();
    var t := On(AfterBlock(s, hs), HeadersComplete(fr));
    if hs != [] {
      CellsSnoc(hs);
    }
    assert t.headers == Leftover(s.current) + CellsOf(hs);
  }

  lemma MessageHarmless(log: seq<Event>, r: Request, b: BodyText)
    requires r.Good() && b.Fits(r.BodyFraming()) && NulsHarmless(MessageLog(r, b, log))
    ensures var l0 := Append(Append(log, MessageBegin), Data(Url, r.url));
            var l1 := r.Log(log);
            var l2 := Append(l1, HeadersComplete(r.BodyFraming()));
            var l3 := b.Log(l2);
            NulsHarmless(log) && NulsHarmless(l0) && NulsHarmless(l1) && NulsHarmless(l2) && NulsHarmless(l3)
  {
    hide NulsHarmless, Read, FinalFlags, Append;
    var l0 := Append(Append(log, MessageBegin), Data(Url, r.url));
    var l1 := r.Log(log);
    var l2 := Append(l1, HeadersComplete(r.BodyFraming()));
    ReadAppend(b.Log(l2), MessageComplete(r.StaysOpen(FinalFlags(r, b))));
    BodyHarmless(l2, b);
    ReadAppend(l1, HeadersComplete(r.BodyFraming()));
    HarmlessBefore(l0, r.headers);
    ReadBegin(log, r.url);
  }

  lemma ReadMessage(log: seq<Event>, r: Request, b: BodyText)
    requires r.Good() && b.Fits(r.BodyFraming()) && NulsHarmless(MessageLog(r, b, log)) && Ready(Read(log))
    ensures Read(MessageLog(r, b, log)) == AfterMessage(Read(log), r.headers, Trailers(b))
    ensures Ready(Read(MessageLog(r, b, log)))
  {
    hide NulsHarmless, Read, FinalFlags, Append, Ready, AfterBlock, AfterMessage;
    var fr := r.BodyFraming();
    var l0 := Append(Append(log, MessageBegin), Data(Url, r.url));
    var l1 := r.Log(log);
    var l2 := Append(l1, HeadersComplete(fr));
    MessageHarmless(log, r, b);
    ReadAppend(b.Log(l2), MessageComplete(r.StaysOpen(FinalFlags(r, b))));
    ReadAppend(l1, HeadersComplete(fr));
    ReadBegin(log, r.url);
    BeginLooks(Read(log), r.headers, Trailers(b));
    ReadBlock(l0, r.headers);
    BlocksAre(Read(l0), r.headers, Trailers(b), fr);
    ReadBody(l2, b);
  }

  lemma BeginLooks(s: Status, hs: seq<Header>, trailers: seq<Header>)
    requires Ready(s)
    ensures Ready(On(s, MessageBegin)) && On(s, MessageBegin).headers == []
    ensures AfterMessage(On(s, MessageBegin), hs, trailers) == AfterMessage(s, hs, trailers)
  {
  }

  lemma ReadBegin(log: seq<Event>, url: string)
    requires NulsHarmless(Append(Append(log, MessageBegin), Data(Url, url)))
    ensures NulsHarmless(log) && Read(Append(Append(log, MessageBegin), Data(Url, url))) == On(Read(log), MessageBegin)
  {
    hide NulsHarmless, Read, Append;
    ReadAppend(Append(log, MessageBegin), Data(Url, url));
    ReadAppend(log, MessageBegin);
  }

  lemma BodyHarmless(log: seq<Event>, b: BodyText)
    requires NulsHarmless(b.Log(log))
    ensures NulsHarmless(log)
  {
    hide NulsHarmless, Read;
    var bytes := if b.Plain? then b.bytes else Payload(b.body.chunks);
    if b.Coded? {
      HarmlessBefore(BodyLog(log, bytes), b.body.trailers);
    }
    if bytes != [] {
      ReadAppend(log, Data(Body, bytes));
    }
  }

  /** Body bytes change nothing; trailers are read as any header block. */
  lemma ReadBody(log: seq<Event>, b: BodyText)
    requires NulsHarmless(b.Log(log)) && Ready(Read(log))
    ensures Read(b.Log(log)) == AfterBlock(Read(log), Trailers(b))
  {
    hide NulsHarmless, Read, AfterBlock;
    var bytes := if b.Plain? then b.bytes else Payload(b.body.chunks);
    if b.Coded? {
      HarmlessBefore(BodyLog(log, bytes), b.body.trailers);
    }
    if bytes != [] {
      ReadAppend(log, Data(Body, bytes));
    }
    if b.Coded? {
      ReadBlock(BodyLog(log, bytes), b.body.trailers);
    } else {
      EmptyBlock(Read(log));
    }
  }

  /** The list a fresh reader builds from any delivery of one request: the request's headers, in order,
      and behind them all trailers but the last, which stays under construction.  It is the list of the
      request's own headers exactly when there is at most one trailer. */
  lemma HeaderListRoundTrip(events: seq<Event>, r: Request, b: BodyText)
    requires r.Good() && b.Fits(r.BodyFraming())
    requires Join(events) == MessageLog(r, b, []) && NulsHarmless(Join(events))
    ensures Read(events).Status? && Read(events).current == LastOf(Trailers(b))
    ensures Read(events).headers == CellsOf(r.headers) + CellsOf(AllButLast(Trailers(b)))
    ensures Read(events).headers == CellsOf(r.headers) <==> |Trailers(b)| <= 1
    ensures Refused(events, [Served(r)]) <==> !Served(r) && HasFields(r, b)
  {
    hide NulsHarmless, MessageLog, CellsOf, Read, Ready, FirstField, Begun;
    ReadJoin(events);
    NothingRead();
    ReadMessage([], r, b);
    var own, more := CellsOf(r.headers), CellsOf(AllButLast(Trailers(b)));
    Alone([], own, more);
    assert [] + own + more == own + more;
    RefusedExact(events, [Served(r)]);
    FirstFieldJoin(events);
    FirstFieldMessage([], r, b);
    NoFieldYet();
  }

  lemma NoFieldYet()
    ensures FirstField([]) == None && Begun([]) == 0
  {
  }

  // ---------------------------------------------------------------- messages without NULs

  predicate NulFree(log: seq<Event>) {
    forall e <- log :: e.Data? && (e.kind.Field? || e.kind.Value?) ==> NUL !in e.bytes
  }

  predicate NoNuls(hs: seq<Header>) {
    forall h <- hs :: NUL !in h.name && NUL !in h.value
  }

  lemma NulFreeHarmless(log: seq<Event>)
    requires NulFree(log)
    ensures NulsHarmless(log)
  {
    forall e | e in log && e.Data? && (e.kind.Field? || e.kind.Value?)
      ensures NulsLast(e.bytes)
    {
      assert forall i | 0 <= i < |e.bytes| :: e.bytes[i] in e.bytes;
    }
  }

  lemma NulFreeAppend(log: seq<Event>, e: Event)
    requires NulFree(log) && (e.Data? && (e.kind.Field? || e.kind.Value?) ==> NUL !in e.bytes)
    ensures NulFree(Append(log, e))
  {
    var n := |log| - 1;
    if e.Data? && n >= 0 && log[n].Data? && log[n].kind == e.kind {
      assert log[n] in log;
      assert forall d | d in log[..n] :: d in log;
    }
  }

  lemma {:induction false} NulFreeHeaders(log: seq<Event>, hs: seq<Header>)
    requires NulFree(log) && NoNuls(hs)
    ensures NulFree(HeadersLog(log, hs))
    decreases |hs|
  {
    hide NulFree;
    if hs != [] {
      assert hs[0] in hs && forall h | h in hs[1..] :: h in hs;
      NulFreeAppend(log, Data(Field, hs[0].name));
      NulFreeAppend(Append(log, Data(Field, hs[0].name)), Data(Value, hs[0].value));
      NulFreeHeaders(HeaderLog(log, hs[0]), hs[1..]);
    }
  }

  /** A message with no NUL in its header lines and trailers has a trace without any. */
  lemma MessageNulFree(r: Request, b: BodyText, log: seq<Event>)
    requires r.Good() && b.Fits(r.BodyFraming()) && NulFree(log) && NoNuls(r.headers) && NoNuls(Trailers(b))
    ensures NulFree(MessageLog(r, b, log))
  {
    hide NulFree, NoNuls, FinalFlags, Append;
    NulFreeAppend(log, MessageBegin);
    NulFreeAppend(Append(log, MessageBegin), Data(Url, r.url));
    NulFreeHeaders(Append(Append(log, MessageBegin), Data(Url, r.url)), r.headers);
    NulFreeAppend(r.Log(log), HeadersComplete(r.BodyFraming()));
    var l := Append(r.Log(log), HeadersComplete(r.BodyFraming()));
    var bytes := if b.Plain? then b.bytes else Payload(b.body.chunks);
    if bytes != [] {
      NulFreeAppend(l, Data(Body, bytes));
    }
    if b.Coded? {
      NulFreeHeaders(BodyLog(l, bytes), b.body.trailers);
    }
    NulFreeAppend(b.Log(l), MessageComplete(r.StaysOpen(FinalFlags(r, b))));
  }

  // ---------------------------------------------------------------- versions

  /** The versions `parser_cb_on_header_field` accepts. */
  predicate Served(r: Request) {
    r.major == '1' && (r.minor == '0' || r.minor == '1')
  }

  /** The field callback, asked with the version the parser has read, accepts the first name of a request exactly if its version is served. */
  method AskedOf(r: Request, name: string) returns (code: int)
    requires r.Good()
    ensures code == if Served(r) then 0 else -1
  {
    var reader := new Reader();
    code := reader.HeaderField(name, DigitValue(r.major), DigitValue(r.minor));
  }

  /** How many messages have begun. */
  function Begun(events: seq<Event>): nat {
    if events == [] then 0 else Begun(events[..|events| - 1]) + if events[|events| - 1].MessageBegin? then 1 else 0
  }

  function NextFirst(first: Option<nat>, begun: nat, e: Event): Option<nat> {
    if first.None? && e.Data? && e.kind.Field? then Some(begun) else first
  }

  /** The number of the message in which the first name arrives. */
  function FirstField(events: seq<Event>): Option<nat> {
    if events == [] then None
    else NextFirst(FirstField(events[..|events| - 1]), Begun(events[..|events| - 1]), events[|events| - 1])
  }

  predicate ServedAt(served: seq<bool>, k: nat) {
    0 < k <= |served| && served[k - 1]
  }

  /** Some callback returns -1: it brings a name, no header has been seen since the reader was new, and the
      version of the message is not served; `served` has an entry for each message. */
  predicate Refused(events: seq<Event>, served: seq<bool>) {
    events != [] &&
    var before, e := events[..|events| - 1], events[|events| - 1];
    || Refused(before, served)
    || (e.Data? && e.kind.Field? && Read(before).Status? && Read(before).state.Nothing? && !ServedAt(served, Begun(before)))
  }

  /** Only the first name of all is looked at. */
  lemma {:induction false} RefusedExact(events: seq<Event>, served: seq<bool>)
    requires Read(events).Status?
    ensures Refused(events, served) <==> FirstField(events).Some? && !ServedAt(served, FirstField(events).value)
    ensures Read(events).state.Nothing? <==> FirstField(events).None?
    ensures Read(events).state.Nothing? ==> Read(events).current.None?
    decreases |events|
  {
    if events != [] {
      hide ServedAt;
      RefusedExact(events[..|events| - 1], served);
    }
  }

  lemma FirstFieldAppend(log: seq<Event>, e: Event)
    ensures FirstField(Append(log, e)) == NextFirst(FirstField(log), Begun(log), e)
    ensures Begun(Append(log, e)) == Begun(log) + if e.MessageBegin? then 1 else 0
  {
    var n := |log| - 1;
    var l := Append(log, e);
    if e.Data? && n >= 0 && log[n].Data? && log[n].kind == e.kind {
      assert l[..n] == log[..n];
    } else {
      assert l[..|log|] == log;
    }
  }

  lemma {:induction false} FirstFieldJoin(events: seq<Event>)
    ensures FirstField(Join(events)) == FirstField(events) && Begun(Join(events)) == Begun(events)
    decreases |events|
  {
    if events != [] {
      FirstFieldJoin(events[..|events| - 1]);
      FirstFieldAppend(Join(events[..|events| - 1]), events[|events| - 1]);
    }
  }

  lemma {:induction false} FirstFieldHeaders(log: seq<Event>, hs: seq<Header>)
    ensures FirstField(HeadersLog(log, hs)) == if FirstField(log).None? && hs != [] then Some(Begun(log)) else FirstField(log)
    ensures Begun(HeadersLog(log, hs)) == Begun(log)
    decreases |hs|
  {
    if hs != [] {
      hide FirstField, Begun, Append;
      FirstFieldAppend(log, Data(Field, hs[0].name));
      FirstFieldAppend(Append(log, Data(Field, hs[0].name)), Data(Value, hs[0].value));
      FirstFieldHeaders(HeaderLog(log, hs[0]), hs[1..]);
    }
  }

  predicate HasFields(r: Request, b: BodyText) {
    r.headers != [] || Trailers(b) != []
  }

  lemma FirstFieldMessage(log: seq<Event>, r: Request, b: BodyText)
    requires r.Good() && b.Fits(r.BodyFraming())
    ensures FirstField(MessageLog(r, b, log)) == if FirstField(log).None? && HasFields(r, b) then Some(Begun(log) + 1) else FirstField(log)
    ensures Begun(MessageLog(r, b, log)) == Begun(log) + 1
  {
    hide FirstField, Begun, Append, FinalFlags;
    var l := Append(r.Log(log), HeadersComplete(r.BodyFraming()));
    var bytes := if b.Plain? then b.bytes else Payload(b.body.chunks);
    FirstFieldAppend(log, MessageBegin);
    FirstFieldAppend(Append(log, MessageBegin), Data(Url, r.url));
    FirstFieldHeaders(Append(Append(log, MessageBegin), Data(Url, r.url)), r.headers);
    FirstFieldAppend(r.Log(log), HeadersComplete(r.BodyFraming()));
    if bytes != [] {
      FirstFieldAppend(l, Data(Body, bytes));
    }
    if b.Coded? {
      FirstFieldHeaders(BodyLog(l, bytes), b.body.trailers);
    }
    FirstFieldAppend(b.Log(l), MessageComplete(r.StaysOpen(FinalFlags(r, b))));
  }

  // ---------------------------------------------------------------- messages with no reset between them

  function Requests(s: Status, ms: seq<Message>): Status
    requires s.Status?
    decreases |ms|
  {
    if ms == [] then s else Requests(AfterMessage(s, ms[0].request.headers, Trailers(ms[0].body)), ms[1..])
  }

  lemma {:induction false} PipelineHarmless(log: seq<Event>, ms: seq<Message>, counted: nat)
    requires Pipeline(ms, counted) && NulsHarmless(Logs(ms, counted, log))
    ensures NulsHarmless(log)
    decreases |ms|
  {
    hide NulsHarmless, MessageLog, Request.Log, BodyText.Log, Append;
    if ms != [] {
      PipelineHarmless(ms[0].Log(log), ms[1..], ms[0].body.Counted());
      MessageHarmless(log, ms[0].request, ms[0].body);
    }
  }

  lemma {:induction false} ReadPipeline(log: seq<Event>, ms: seq<Message>, counted: nat)
    requires Pipeline(ms, counted) && NulsHarmless(Logs(ms, counted, log)) && Ready(Read(log))
    ensures Read(Logs(ms, counted, log)) == Requests(Read(log), ms)
    decreases |ms|
  {
    hide NulsHarmless, MessageLog, Read, AfterMessage;
    if ms != [] {
      PipelineHarmless(ms[0].Log(log), ms[1..], ms[0].body.Counted());
      ReadMessage(log, ms[0].request, ms[0].body);
      ReadPipeline(ms[0].Log(log), ms[1..], ms[0].body.Counted());
    }
  }

  /** The number of the first message with a header or a trailer. */
  function FirstWithFields(ms: seq<Message>): (k: nat)
    ensures k <= |ms|
  {
    if ms == [] || HasFields(ms[0].request, ms[0].body) then 0 else 1 + FirstWithFields(ms[1..])
  }

  function Versions(ms: seq<Message>): (served: seq<bool>)
    ensures |served| == |ms|
  {
    if ms == [] then [] else [Served(ms[0].request)] + Versions(ms[1..])
  }

  lemma {:induction false} FirstVersion(ms: seq<Message>)
    ensures var k := FirstWithFields(ms); k < |ms| ==> Versions(ms)[k] == Served(ms[k].request)
  {
    if ms != [] && !HasFields(ms[0].request, ms[0].body) {
      FirstVersion(ms[1..]);
    }
  }

  lemma {:induction false} FirstFieldPipeline(log: seq<Event>, ms: seq<Message>, counted: nat)
    requires Pipeline(ms, counted)
    ensures var k := FirstWithFields(ms);
            FirstField(Logs(ms, counted, log)) == if FirstField(log).None? && k < |ms| then Some(Begun(log) + 1 + k) else FirstField(log)
    decreases |ms|
  {
    hide FirstField, Begun, MessageLog, HasFields, Request.Good, Request.BodyFraming, Request.Upgrades, BodyText.Fits, Message.StaysOpen,
         BodyText.Counted, Request.Head;
    if ms != [] {
      FirstFieldMessage(log, ms[0].request, ms[0].body);
      FirstFieldPipeline(ms[0].Log(log), ms[1..], ms[0].body.Counted());
    }
  }

  function Trailing(ms: seq<Message>): Option<Cell> {
    if ms == [] then None else LastOf(Trailers(ms[|ms| - 1].body))
  }

  lemma {:induction false} RequestsAre(s: Status, ms: seq<Message>)
    requires s.Status? && ms != []
    ensures var m := ms[|ms| - 1];
            var t := Requests(s, ms);
            t.Status? && t.headers == Leftover(if |ms| == 1 then s.current else Trailing(ms[..|ms| - 1])) +
                                      CellsOf(m.request.headers) + CellsOf(AllButLast(Trailers(m.body)))
    decreases |ms|
  {
    hide CellsOf;
    var t := AfterMessage(s, ms[0].request.headers, Trailers(ms[0].body));
    if |ms| == 1 {
      assert ms[1..] == [];
    } else {
      RequestsAre(t, ms[1..]);
      if |ms| > 2 {
        assert ms[1..][..|ms| - 2][|ms| - 3] == ms[|ms| - 2];
      } else {
        assert ms[..1] == [ms[0]];
      }
    }
  }

  /** Several messages in one call, with no reset between them: only the last request is handed over, and its
      list begins with the last trailer of the message before it.  It is the list of its own headers exactly
      when that message had no trailer and it has at most one itself. */
  lemma PipelinedList(events: seq<Event>, ms: seq<Message>)
    requires ms != [] && Pipeline(ms, 0) && Join(events) == Logs(ms, 0, []) && NulsHarmless(Join(events))
    ensures var m := ms[|ms| - 1];
            var before := Trailing(ms[..|ms| - 1]);
            var t := Read(events);
            && t.Status?
            && t.headers == Leftover(before) + CellsOf(m.request.headers) + CellsOf(AllButLast(Trailers(m.body)))
            && (t.headers == CellsOf(m.request.headers) <==> before.None? && |Trailers(m.body)| <= 1)
    ensures var k := FirstWithFields(ms); Refused(events, Versions(ms)) <==> k < |ms| && !Served(ms[k].request)
  {
    hide NulsHarmless, Logs, Pipeline, Read, Requests, CellsOf, FirstField, Begun, FirstWithFields, Versions, Served, Refused;
    ReadJoin(events);
    NothingRead();
    ReadPipeline([], ms, 0);
    RequestsAre(START, ms);
    PipelineRefused(events, ms);
    assert |ms| == 1 ==> ms[..|ms| - 1] == [];
    Alone(Leftover(Trailing(ms[..|ms| - 1])), CellsOf(ms[|ms| - 1].request.headers), CellsOf(AllButLast(Trailers(ms[|ms| - 1].body))));
  }

  lemma PipelineRefused(events: seq<Event>, ms: seq<Message>)
    requires Pipeline(ms, 0) && Join(events) == Logs(ms, 0, []) && Read(events).Status?
    ensures var k := FirstWithFields(ms); Refused(events, Versions(ms)) <==> k < |ms| && !Served(ms[k].request)
  {
    hide Logs, Pipeline, Read, FirstField, Begun, FirstWithFields, Versions, Served, Refused;
    RefusedExact(events, Versions(ms));
    FirstFieldJoin(events);
    FirstFieldPipeline([], ms, 0);
    NoFieldYet();
    FirstVersion(ms);
  }

  lemma NothingRead()
    ensures Read([]) == START && Ready(START)
  {
  }

  lemma Alone(a: seq<Cell>, b: seq<Cell>, c: seq<Cell>)
    ensures a + b + c == b <==> a == [] && c == []
  {
    assert |a + b + c| == |a| + |b| + |c|;
    if a == [] && c == [] {
      assert [] + b + [] == b;
    }
  }

  // ---------------------------------------------------------------- a name without a value

  /** What is true after headers-complete, once a field has been `seen` and before. */
  predicate Afterwards(s: Status, fr: Framing, seen: bool, t: Status)
    requires s.Status?
  {
    if !seen then t == On(s, HeadersComplete(fr))
    else (t.Faulted? <==> s.state.InField?) && (t.Status? ==> t.current.Some?)
  }

  lemma AfterwardsStep(s: Status, fr: Framing, seen: bool, t: Status, e: Event)
    requires s.Status? && Afterwards(s, fr, seen, t) && e.Data? && !e.kind.Url? && (e.kind.Value? ==> seen)
    ensures Afterwards(s, fr, seen || e.kind.Field?, On(t, e))
  {
    hide CString;
  }

  predicate FieldIn(events: seq<Event>) {
    exists e <- events :: e.Data? && e.kind.Field?
  }

  /** Whether the callbacks after headers-complete use a NULL header: exactly when the last header line
      had no value callback (it had no colon) and a trailer follows. */
  lemma {:induction false} FaultExact(s: Status, fr: Framing, later: seq<Event>)
    requires s.Status?
    requires forall e <- later :: e.Data? && !e.kind.Url?
    requires forall j | 0 <= j < |later| :: later[j].kind.Value? ==> FieldIn(later[..j])
    ensures ReadFrom(On(s, HeadersComplete(fr)), later).Faulted? <==> s.state.InField? && FieldIn(later)
    ensures Afterwards(s, fr, FieldIn(later), ReadFrom(On(s, HeadersComplete(fr)), later))
    decreases |later|
  {
    hide On, FieldIn;
    if later != [] {
      var n := |later| - 1;
      var front := later[..n];
      assert later == front + [later[n]];
      assert forall j | 0 <= j < n :: front[..j] == later[..j];
      FaultExact(s, fr, front);
      FieldInMore(front, later[n]);
      AfterwardsStep(s, fr, FieldIn(front), ReadFrom(On(s, HeadersComplete(fr)), front), later[n]);
    } else {
      NoFieldIn();
    }
    NotYetFaulted(s, fr);
  }

  lemma NoFieldIn()
    ensures !FieldIn([])
  {
  }

  lemma NotYetFaulted(s: Status, fr: Framing)
    requires s.Status?
    ensures On(s, HeadersComplete(fr)).Status?
  {
  }

  lemma FieldInMore(events: seq<Event>, e: Event)
    requires e.Data?
    ensures FieldIn(events + [e]) <==> FieldIn(events) || e.kind.Field?
  {
    if FieldIn(events) {
      var d :| d in events && d.Data? && d.kind.Field?;
      assert d in events + [e];
    }
    assert e in events + [e];
  }
}
