/** The send state machine of a connection: `server_loop_write`, `http_response_write` and
    `http_body_writeto_fd` over a socket that may take any part of what it is offered, say
    EAGAIN, or fail. */
module ResponseWriter {
  import opened SocketModel
  import opened DataBuffers
  import opened ResponseHead
  import opened HeadReader
  import opened HttpAlphabet
  import opened VisitOutcome

  // ---------------------------------------------------------------- bodies

  datatype BodyKind = NoBody | StringBody | FileMapBody | FileBody

  datatype BodyResult = Done | More | Blocked | Failed | Cut

  /** A response body; `data` is the string up to its NUL, the mapping, or the file, none
      of which changes while it is being sent. */
  class Body {
    const kind: BodyKind
    const data: string
    var rOffset: nat

    constructor (kind: BodyKind, data: string)
      requires kind.NoBody? ==> data == ""
      ensures Valid() && this.kind == kind && this.data == data && rOffset == 0
    {
      this.kind, this.data, rOffset := kind, data, 0;
    }

    ghost predicate Valid()
      reads this
    {
      rOffset <= |data| && (kind.NoBody? ==> data == "")
    }

    /** `_http_body_file_fill_buffer`; the end-of-file flag is set by a read that comes up short. */
    method FillBuffer(readLen: nat, offset: nat) returns (text: string, r: BodyResult)
      requires offset <= |data|
      ensures r.Done? || r.More?
      ensures |text| <= BODY_BUFFER && offset + |text| <= |data| && text == data[offset..offset + |text|]
      ensures 0 < readLen <= |data| - offset ==> r.More? && |text| == Min(readLen, BODY_BUFFER)
    {
      var want := Min(readLen, BODY_BUFFER);
      var have := Min(want, |data| - offset);
      text := data[offset..offset + have];
      r := if have < want then Done else More;
    }

    /** One `write` of the body: all that is left of it, or a buffer full of the file. */
    method WriteSome(skt: Socket) returns (w: Written, result: BodyResult)
      requires Valid() && rOffset < |data|
      modifies skt
      ensures w.Bytes? ==> 0 < w.n <= |data| - rOffset && skt.wire == old(skt.wire) + data[rOffset..rOffset + w.n]
      ensures !w.Bytes? ==> skt.wire == old(skt.wire)
      ensures var left := |data| - rOffset; w == Answer(old(skt.broken), old(skt.script), if kind.FileBody? then Min(left, BODY_BUFFER) else left)
      ensures skt.broken == (old(skt.broken) || w.Broken?)
      ensures skt.script == if w.CutOff? then [] else old(skt.script)[1..]
      ensures result.More?
    {
      var writeLen := |data| - rOffset;
      result := More;
      if kind.FileBody? {
        var text, got := FillBuffer(writeLen, rOffset);
        w := skt.Write(text);
        if got.Done? {
          result := got;
        }
      } else {
        w := skt.Write(data[rOffset..rOffset + writeLen]);
      }
    }

    /** What the socket is going to make of the rest of the body. */
    function Attempted(skt: Socket): Attempt
      reads this, skt
    {
      PushBody(skt.broken, skt.script, if rOffset <= |data| then |data| - rOffset else 0, kind.FileBody?)
    }

    /** `http_body_writeto_fd`. */
    method WriteTo(skt: Socket) returns (r: BodyResult)
      requires Valid()
      modifies `rOffset, skt
      ensures Valid() && !r.More? && old(rOffset) <= rOffset
      ensures skt.wire == old(skt.wire) + data[old(rOffset)..rOffset]
      ensures if r.Done? then rOffset == |data| else rOffset < |data|
      ensures skt.broken == (old(skt.broken) || r.Failed?)
      ensures old(skt.broken) ==> skt.wire == old(skt.wire)
      ensures var a := old(Attempted(skt)); ResultOf(a.stop) == r && skt.script == old(skt.script)[a.used..]
    {
      ghost var used := 0;
      while rOffset < |data|
        invariant Valid() && old(rOffset) <= rOffset
        invariant skt.wire == old(skt.wire) + data[old(rOffset)..rOffset]
        invariant skt.broken == old(skt.broken) && (skt.broken ==> skt.wire == old(skt.wire))
        invariant 0 <= used <= |old(skt.script)| && skt.script == old(skt.script)[used..]
        invariant old(Attempted(skt)) == After(used, Attempted(skt))
        decreases |skt.script|
      {
        var w, result := WriteSome(skt);
        match w {
          case WouldBlock => return Blocked;
          case Broken => return Failed;
          case CutOff => return Cut;
          case Bytes(n) =>
            rOffset := rOffset + n;
        }
        used := used + 1;
        if result.Done? {
          break;
        }
      }
      return Done;
    }
  }

  function ResultOf(stop: Stop): BodyResult {
    match stop
    case Through => Done
    case Waits => Blocked
    case Fails => Failed
    case Ends => Cut
  }

  // ---------------------------------------------------------------- responses

  datatype SendStatus = ResponseLine | Headers | SendBody | SendDone

  class Response {
    const version: Version
    const code: nat
    const message: string
    const chunked: bool
    /** The date at the time the headers are written. */
    const date: string
    const body: Body
    var headers: seq<Header>
    var sendStatus: SendStatus

    constructor (version: Version, code: nat, custom: string, chunked: bool, date: string, body: Body, headers: seq<Header>)
      requires OnceEach(headers)
      ensures this.body == body && this.headers == headers && sendStatus.ResponseLine?
      ensures this.version == version && this.code == code && this.message == if custom != "" then custom else CodeMessage(code)
      ensures this.chunked == chunked && this.date == date
    {
      this.version, this.code, this.message := version, code, if custom != "" then custom else CodeMessage(code);
      this.chunked, this.date, this.body, this.headers := chunked, date, body, headers;
      sendStatus := ResponseLine;
    }

    ghost function HeadText(): string
      reads this
    {
      Head(version, code, message, headers, chunked, |body.data|, date)
    }

    /** The headers every response but 100 Continue is given. */
    method AddHeaders()
      modifies `headers
      ensures headers == FinalHeaders(code, old(headers), chunked, |body.data|, date)
    {
      hide With, Lookup, Decimal;
      if code != 100 {
        if !chunked {
          var messageLength := |body.data| % UINT32;
          headers := With(headers, Header(CONTENT_LENGTH, Decimal(messageLength)), true);
        } else {
          headers := With(headers, Header(TRANSFER_ENCODING, "chunked"), true);
        }
        if Lookup(headers, CONTENT_TYPE) == |headers| {
          headers := With(headers, Header(CONTENT_TYPE, "text/plain"), false);
        }
        headers := With(headers, Header(DATE, date), true);
        headers := With(headers, Header(SERVER, "KHTTP/0.1"), true);
      }
    }

    /** `http_response_write`: the head, once; nothing when it has been written. */
    method WriteHead() returns (text: string)
      requires !sendStatus.Headers?
      modifies `headers, `sendStatus
      ensures old(sendStatus).ResponseLine? ==> text == old(HeadText()) && text != "" && sendStatus.SendBody?
      ensures old(sendStatus).ResponseLine? ==> headers == FinalHeaders(code, old(headers), chunked, |body.data|, date)
      ensures !old(sendStatus).ResponseLine? ==> text == "" && sendStatus == old(sendStatus) && headers == old(headers)
    {
      hide FinalHeaders, Decimal, CodeMessage;
      if sendStatus.SendBody? || sendStatus.SendDone? {
        return "";
      }
      var output := "";
      if sendStatus.ResponseLine? {
        if version.Http10? {
          output := output + "HTTP/1.0 ";
        } else if version.Http11? {
          output := output + "HTTP/1.1 ";
        }
        output := output + (Decimal(code) + " " + message + CRLF);
        sendStatus := Headers;
      }
      assert output == StatusLine(version, code, message);
      if sendStatus.Headers? {
        AddHeaders();
        var i := 0;
        ghost var line := output;
        while i < |headers|
          invariant 0 <= i <= |headers|
          invariant output == line + ResponseHead.HeaderText(headers[..i])
        {
          output := output + (headers[i].name + ": " + headers[i].content + CRLF);
          assert headers[..i + 1][..i] == headers[..i];
          i := i + 1;
        }
        assert headers[..i] == headers;
        output := output + CRLF;
        sendStatus := SendBody;
      }
      return output;
    }
  }

  /** What a response still has to put on the wire, its buffered head aside. */
  ghost function Unsent(r: Response): string
    reads r, r.body
  {
    if r.sendStatus.SendDone? then ""
    else if r.sendStatus.SendBody? then if r.body.rOffset <= |r.body.data| then r.body.data[r.body.rOffset..] else ""
    else r.HeadText() + r.body.data
  }

  /** The headers a response goes out with. */
  ghost function SentHeaders(r: Response): seq<Header>
    reads r
  {
    if r.sendStatus.ResponseLine? then FinalHeaders(r.code, r.headers, r.chunked, |r.body.data|, r.date) else r.headers
  }

  /** How much of a response is to be sent, and whether it is the last. */
  ghost function JobOf(r: Response): Job
    reads r, r.body
  {
    Job(if r.sendStatus.ResponseLine? then |r.HeadText()| else 0,
        if r.body.rOffset <= |r.body.data| then |r.body.data| - r.body.rOffset else 0,
        r.body.kind.FileBody?, ClosesAfter(SentHeaders(r)))
  }

  ghost function Jobs(rs: seq<Response>): (jobs: seq<Job>)
    reads Things(rs)
    ensures |jobs| == |rs|
  {
    if rs == [] then [] else [JobOf(rs[0])] + Jobs(rs[1..])
  }

  lemma FirstJob(rs: seq<Response>)
    requires rs != []
    ensures Jobs(rs) == [JobOf(rs[0])] + Jobs(rs[1..])
    ensures rs[0].sendStatus.SendBody? ==> (Jobs(rs)[0].closes <==> ClosesAfter(rs[0].headers))
  {
  }

  twostate lemma {:induction false} JobsKept(rs: seq<Response>)
    requires forall r | r in rs :: unchanged(r) && unchanged(r.body)
    ensures Jobs(rs) == old(Jobs(rs))
  {
    if rs != [] {
      hide JobOf;
      assert rs[0] in rs && forall r | r in rs[1..] :: r in rs;
      JobKept(rs[0]);
      JobsKept(rs[1..]);
    }
  }

  twostate lemma JobKept(r: Response)
    requires unchanged(r) && unchanged(r.body)
    ensures JobOf(r) == old(JobOf(r))
  {
  }

  ghost function Things(rs: seq<Response>): (s: set<object>)
    ensures forall r | r in rs :: r in s && r.body in s
  {
    (set r | r in rs :: r as object) + (set r | r in rs :: r.body as object)
  }

  ghost function Rest(rs: seq<Response>): string
    reads Things(rs)
  {
    if rs == [] then "" else Unsent(rs[0]) + Rest(rs[1..])
  }

  /** Responses whose turn has not come. */
  ghost predicate Waiting(rs: seq<Response>)
    reads Things(rs)
  {
    && (forall r | r in rs :: r.sendStatus.ResponseLine? && r.body.Valid() && r.body.rOffset == 0)
    && forall i, j | 0 <= i < j < |rs| :: rs[i] != rs[j] && rs[i].body != rs[j].body
  }

  ghost predicate Turn(r: Response)
    reads r, r.body
  {
    r.body.Valid() && (r.sendStatus.SendBody? || (r.sendStatus.ResponseLine? && r.body.rOffset == 0))
  }

  /** Only the first response may be under way. */
  ghost predicate InLine(rs: seq<Response>)
    reads Things(rs)
  {
    rs == [] || (Turn(rs[0]) && Waiting(rs[1..]) && forall r | r in rs[1..] :: r != rs[0] && r.body != rs[0].body)
  }

  twostate lemma {:induction false} RestKept(rs: seq<Response>)
    requires forall r | r in rs :: unchanged(r) && unchanged(r.body)
    ensures Rest(rs) == old(Rest(rs))
  {
    if rs != [] {
      hide Unsent;
      assert rs[0] in rs && forall r | r in rs[1..] :: r in rs;
      UnsentKept(rs[0]);
      RestKept(rs[1..]);
    }
  }

  twostate lemma UnsentKept(r: Response)
    requires unchanged(r) && unchanged(r.body)
    ensures Unsent(r) == old(Unsent(r))
  {
  }

  twostate lemma {:induction false} WaitingKept(rs: seq<Response>)
    requires old(Waiting(rs)) && forall r | r in rs :: unchanged(r) && unchanged(r.body)
    ensures Waiting(rs)
  {
  }

  twostate lemma InLineKept(rs: seq<Response>)
    requires old(InLine(rs)) && forall r | r in rs :: unchanged(r) && unchanged(r.body)
    ensures InLine(rs)
  {
    if rs != [] {
      WaitingKept(rs[1..]);
    }
  }

  /** Responses that are left alone keep all that is said about them. */
  twostate lemma ListKept(rs: seq<Response>)
    requires forall r | r in rs :: unchanged(r) && unchanged(r.body)
    ensures Rest(rs) == old(Rest(rs)) && Jobs(rs) == old(Jobs(rs))
    ensures (old(Waiting(rs)) ==> Waiting(rs)) && (old(InLine(rs)) ==> InLine(rs))
  {
    hide Waiting, InLine, Rest, Jobs;
    RestKept(rs);
    JobsKept(rs);
    if old(Waiting(rs)) {
      WaitingKept(rs);
    }
    if old(InLine(rs)) {
      InLineKept(rs);
    }
  }

  lemma NoText()
    ensures Apart([]) && TextOf([]) == ""
  {
  }

  lemma AllApart(rs: seq<Response>)
    requires rs != [] && InLine(rs)
    ensures Turn(rs[0]) && Rest(rs) == Unsent(rs[0]) + Rest(rs[1..])
    ensures forall r | r in rs[1..] :: r != rs[0] && r.body != rs[0].body
  {
  }

  /** What happens to the first response leaves the others as they were. */
  twostate lemma FirstMoves(rs: seq<Response>)
    requires rs != [] && old(InLine(rs)) && Turn(rs[0])
    requires forall r | r in rs[1..] :: unchanged(r) && unchanged(r.body)
    ensures InLine(rs) && Rest(rs) == Unsent(rs[0]) + old(Rest(rs[1..]))
    ensures Jobs(rs) == [JobOf(rs[0])] + old(Jobs(rs))[1..]
  {
    ListKept(rs[1..]);
  }

  method WriteHeadOf(r: Response) returns (text: string)
    requires Turn(r)
    modifies r
    ensures Turn(r) && r.sendStatus.SendBody? && text + Unsent(r) == old(Unsent(r))
    ensures text != "" <==> old(r.sendStatus).ResponseLine?
    ensures text != "" ==> r.body.rOffset == 0
    ensures |text| == old(JobOf(r)).head && [JobOf(r)] == HeadOut([old(JobOf(r))])
  {
    hide Head, ClosesAfter;
    text := r.WriteHead();
    assert r.body.data[0..] == r.body.data;
  }

  /** The head of the first response is taken out of what is to be sent. */
  method TakeHead(rs: seq<Response>) returns (text: string)
    requires rs != [] && InLine(rs)
    modifies rs[0]
    ensures InLine(rs) && rs[0].sendStatus.SendBody?
    ensures text + Rest(rs) == old(Rest(rs))
    ensures text != "" <==> old(rs[0].sendStatus).ResponseLine?
    ensures text != "" ==> rs[0].body.rOffset == 0
    ensures |text| == old(Jobs(rs))[0].head && Jobs(rs) == HeadOut(old(Jobs(rs)))
  {
    hide Waiting, InLine, Unsent, Turn, Rest, JobOf;
    var first := rs[0];
    AllApart(rs);
    text := WriteHeadOf(first);
    FirstMoves(rs);
    hide *;
    assert text + (Unsent(first) + old(Rest(rs[1..]))) == (text + Unsent(first)) + old(Rest(rs[1..]));
  }

  // ---------------------------------------------------------------- connections

  /** `strcasecmp(s, "close") == 0`, in the C locale. */
  predicate IsClose(s: string) {
    |s| == 5 && forall i | 0 <= i < 5 :: s[i] == "close"[i] || s[i] == "CLOSE"[i]
  }

  /** How one round of the inner loop ends: the same response again, the next one, or out. */
  datatype RoundEnd = Wait(again: bool) | Next(last: bool) | Return(why: Leave)

  /** What a round makes of the outcome `o` foretold before it: it is led to `o'`, or has come about. */
  predicate Goes(round: RoundEnd, script: seq<Reply>, o: Outcome, rest: seq<Reply>, o': Outcome, left: nat, failed: bool) {
    match round
    case Return(why) => Told(script, o, false, why, left, failed)
    case Wait(again) => if failed then !again && Told(script, o, false, RunEnds, left, true) else Leads(script, o, again, rest, o')
    case Next(last) =>
      if last then Told(script, o, false, Closed, left, failed)
      else if failed then Told(script, o, false, if left == 0 then AllSent else RunEnds, left, true)
      else Leads(script, o, false, rest, o')
  }

  lemma GoesBehind(round: RoundEnd, script: seq<Reply>, o: Outcome, then': seq<Reply>, m: Outcome, rest: seq<Reply>, o': Outcome, left: nat, failed: bool)
    requires Leads(script, o, false, then', m) && Goes(round, then', m, rest, o', left, failed)
    ensures Goes(round, script, o, rest, o', left, failed)
  {
  }

  class Connection {
    const skt: Socket
    const writes: DataBufferList
    var responses: seq<Response>
    var error: bool
    var closed: bool

    constructor (skt: Socket)
      ensures Valid() && this.skt == skt && responses == [] && !error && !closed
      ensures fresh(writes) && writes.buffers == [] && Stream() == skt.wire
    {
      this.skt := skt;
      writes := new DataBufferList();
      responses, error, closed := [], false, false;
    }

    /** A head in the buffers is that of the first response, and none of its body is out yet. */
    ghost predicate Valid()
      reads this, writes, Objects(writes.buffers), Things(responses)
    {
      && writes.Valid() && InLine(responses)
      && (writes.buffers != [] ==>
            writes.Contents() != "" && responses != [] && responses[0].sendStatus.SendBody? && responses[0].body.rOffset == 0)
    }

    /** What the connection has sent and will send: this is all the peer can ever see. */
    ghost function Stream(): string
      reads this, skt, writes, Objects(writes.buffers), Things(responses)
      requires Valid()
    {
      skt.wire + writes.Contents() + Rest(responses)
    }

    /** What a round of the inner loop, and all after it, are going to come to. */
    ghost function Ahead(): Outcome
      reads this, skt, writes, writes.buffers, Things(responses)
    {
      Rounds(skt.broken, skt.script, Lens(writes.buffers), Jobs(responses))
    }

    /** What a visit is going to come to. */
    ghost function Foretold(): Outcome
      reads this, skt, writes, writes.buffers, Things(responses)
    {
      OfVisit(skt.broken, skt.script, Lens(writes.buffers), Jobs(responses))
    }

    /** The buffers are empty whenever the writer appends. */
    method AppendHead(text: string)
      requires writes.buffers == [] && text != "" && InLine(responses)
      modifies writes
      ensures writes.Valid() && writes.Contents() == text && writes.buffers != []
      ensures Lens(writes.buffers) == Chunks(|text|) && Jobs(responses) == old(Jobs(responses))
      ensures forall b | b in writes.buffers :: fresh(b) && fresh(b.buffer)
      ensures InLine(responses) && Rest(responses) == old(Rest(responses))
    {
      hide TextOf, Apart, InLine, Waiting, Rest, Jobs, Lens, Chunks;
      assert writes.Valid() && writes.Contents() == "" by { NoText(); }
      writes.Append(text);
      ListKept(responses);
    }

    /** The first part of a visit: what an earlier one left in the buffers. */
    method PushLeft() returns (w: Written)
      requires Valid() && !error
      modifies `error, skt, writes.Repr()
      ensures Valid() && Stream() == old(Stream()) && skt.wire <= Stream() && writes.Repr() <= old(writes.Repr())
      ensures w.Bytes? <==> writes.buffers == []
      ensures error == w.Broken? && (error ==> skt.broken) && skt.broken == (old(skt.broken) || error)
      ensures old(skt.broken) ==> skt.wire == old(skt.wire)
      ensures var p := old(Push(skt.broken, skt.script, Lens(writes.buffers)));
              StopOf(w) == p.stop && skt.script == old(skt.script)[p.used..]
      ensures Jobs(responses) == old(Jobs(responses))
    {
      hide InLine, Waiting, TextOf, Apart, Rest, Turn, Unsent, Valid, Stream, Jobs;
      StreamAhead();
      w := Bytes(0);
      if writes.buffers != [] {
        w := PushPending();
      } else {
        NothingLeft(skt.broken, skt.script);
      }
    }

    /** The first part of a round: the head of the first response goes to the buffers, which are empty. */
    method StartFirst()
      requires Valid() && responses != []
      modifies responses, writes.Repr()
      ensures Valid() && responses[0].sendStatus.SendBody?
      ensures Stream() == old(Stream()) && skt.wire == old(skt.wire) && skt.script == old(skt.script)
      ensures error == old(error) && skt.broken == old(skt.broken)
      ensures old(responses[0].sendStatus).ResponseLine? ==> writes.buffers != []
      ensures !old(responses[0].sendStatus).ResponseLine? ==> writes.buffers == old(writes.buffers)
      ensures fresh(writes.Repr() - old(writes.Repr()))
      ensures responses[0].body.rOffset == old(responses[0].body.rOffset)
      ensures Lens(writes.buffers) == Buffered(old(Lens(writes.buffers)), old(Jobs(responses))[0])
      ensures Jobs(responses) == HeadOut(old(Jobs(responses)))
    {
      hide TextOf, Apart, Waiting, Rest, Head, Jobs, Lens, JobOf, Response.HeadText;
      var text := TakeHead(responses);
      ghost var rest := Rest(responses);
      NoText();
      if text != "" {
        AppendHead(text);
      } else {
        TextKept(writes.buffers);
        LensKept(writes.buffers);
        assert writes.Contents() + "" == writes.Contents();
      }
      ghost var held := old(writes.Contents());
      assert held + text == writes.Contents();
      assert skt.wire + held + (text + rest) == skt.wire + (held + text) + rest;
    }

    /** Both writes of buffered data: what they get through leaves the buffers for the wire. */
    method PushPending() returns (w: Written)
      requires Valid() && writes.buffers != []
      modifies `error, skt, writes.Repr()
      ensures Valid() && Stream() == old(Stream()) && skt.wire <= Stream() && writes.Repr() <= old(writes.Repr())
      ensures w.Bytes? <==> writes.buffers == []
      ensures error == (old(error) || w.Broken?) && skt.broken == (old(skt.broken) || w.Broken?)
      ensures old(skt.broken) ==> !w.Bytes? && skt.wire == old(skt.wire)
      ensures var p := old(Push(skt.broken, skt.script, Lens(writes.buffers)));
              StopOf(w) == p.stop && Lens(writes.buffers) == p.left && skt.script == old(skt.script)[p.used..]
      ensures Jobs(responses) == old(Jobs(responses))
    {
      hide TextOf, Apart, Waiting, InLine, Rest, Push, Lens, Jobs;
      w := writes.WriteTo(skt);
      if w.Broken? {
        error := true;
      }
      ListKept(responses);
    }

    /** The rest of a round, once the buffers are empty: the body of the first response, and
        its removal when that is through or has failed. */
    method SendFirst() returns (r: BodyResult, last: bool)
      requires Valid() && !error && responses != [] && writes.buffers == [] && responses[0].sendStatus.SendBody?
      modifies this, skt, Things(responses)
      ensures Valid() && writes.buffers == [] && !r.More?
      ensures responses == if r.Done? || r.Failed? then old(responses)[1..] else old(responses)
      ensures skt.wire <= old(Stream()) && (!r.Failed? ==> Stream() == old(Stream()))
      ensures error == r.Failed? && (r.Failed? ==> skt.broken)
      ensures (r.Done? || r.Failed?) && responses != [] ==> responses[0].sendStatus.ResponseLine?
      ensures r.Blocked? || r.Cut? ==> responses[0].sendStatus.SendBody? && Unsent(responses[0]) != ""
      ensures last ==> r.Done? || r.Failed?
      ensures closed == (old(closed) || last) && (last ==> skt.broken)
      ensures r.Done? || r.Failed? ==> (last <==> old(Jobs(responses))[0].closes)
      ensures var job := old(Jobs(responses))[0]; var b := PushBody(old(skt.broken), old(skt.script), job.body, job.file);
              ResultOf(b.stop) == r && skt.script == old(skt.script)[b.used..]
      ensures skt.broken == (old(skt.broken) || last || r.Failed?)
      ensures old(skt.broken) ==> skt.wire == old(skt.wire)
      ensures r.Done? || r.Failed? ==> Jobs(responses) == old(Jobs(responses))[1..]
    {
      hide Waiting, InLine, TextOf, Apart, Rest, Jobs, PushBody, Unsent, JobOf, ClosesAfter;
      FirstJob(responses);
      NoText();
      r := SendBodyOf(responses, skt);
      ghost var rest := responses[1..];
      last := false;
      label Sent:
      if r.Failed? {
        error := true;
      }
      JobsKept@Sent(rest);
      if r.Done? || r.Failed? {
        last := Retire();
      }
      NoText();
      assert old(Stream()) == old(skt.wire) + "" + old(Rest(responses)) == old(skt.wire) + old(Rest(responses));
    }

    /** One visit of the writer to the connection, from fetching its queue item to returning
        it; `blocked` is the flag of the item.  Nothing is lost, added or put out of order:
        while the socket works, what has been sent, what is buffered and what is still to be
        said make up the same stream, and the bytes on the wire are always a prefix of it.
        How the visit ends, what it leaves, and the flag are as foretold. */
    method Serve() returns (blocked: bool, why: Leave)
      requires Valid() && !error
      modifies this, skt, writes.Repr(), Things(responses)
      ensures Valid() && exists k: nat :: k <= |old(responses)| && responses == old(responses)[k..]
      ensures fresh(writes.Repr() - old(writes.Repr()))
      ensures !error ==> Stream() == old(Stream())
      ensures skt.wire <= old(Stream())
      ensures old(skt.broken) ==> skt.broken && skt.wire == old(skt.wire)
      ensures error ==> skt.broken
      ensures why.AllSent? ==> responses == [] && writes.buffers == []
      ensures why.HeadBlocked? ==> writes.buffers != []
      ensures why.BodyBlocked? ==> BodyWaits()
      ensures why.Closed? ==> closed && skt.broken && writes.buffers == []
      ensures ClosesLast(old(Jobs(responses)), old(Foretold()))
      ensures why.Broke? ==> error && writes.buffers != []
      ensures var o := old(Foretold());
              && why == o.why && |responses| == o.left && error == o.failed
              && (blocked <==> AgainInHead(old(skt.script), o.places))
              && (HasMore() <==> o.left > 0)
              && (!error && !why.Closed? && !why.RunEnds? ==>
                    && (HasMore() <==> AgainLast(old(skt.script), o.places))
                    && ((blocked <==> HasMore()) <==> why.HeadBlocked? || (AgainInHead(old(skt.script), o.places) <==> why.BodyBlocked?)))
    {
      hide InLine, Waiting, TextOf, Apart, Rest, Turn, Unsent, Valid, Stream, AgainInHead, AgainLast, OfVisit, Rounds, Lens, Jobs, Push;
      assert responses == responses[0..];
      StreamAhead();
      LeftStops(skt.broken, skt.script, Lens(writes.buffers), Jobs(responses));
      FlagExact(skt.broken, skt.script, Lens(writes.buffers), Jobs(responses));
      LeftExact(skt.broken, skt.script, Lens(writes.buffers), Jobs(responses));
      VisitClosesLast(skt.broken, skt.script, Lens(writes.buffers), Jobs(responses));
      var w := PushLeft();
      StreamAhead();
      if w.CutOff? {
        return false, RunEnds;
      }
      if writes.buffers != [] {
        return w.WouldBlock?, if w.WouldBlock? then HeadBlocked else Broke;
      }
      NothingLeft(skt.broken, skt.script);
      blocked, why := SendRounds();
      StreamAhead();
    }

    /** The inner loop of a visit, once nothing is buffered. */
    method SendRounds() returns (blocked: bool, why: Leave)
      requires Valid() && !error && writes.buffers == []
      modifies this, skt, writes.Repr(), Things(responses)
      ensures Valid() && exists k: nat :: k <= |old(responses)| && responses == old(responses)[k..]
      ensures fresh(writes.Repr() - old(writes.Repr()))
      ensures !error ==> Stream() == old(Stream())
      ensures skt.wire <= old(Stream())
      ensures error ==> skt.broken
      ensures !why.HeadBlocked? && !why.Broke?
      ensures why.AllSent? ==> responses == [] && writes.buffers == []
      ensures why.BodyBlocked? ==> BodyWaits()
      ensures why.Closed? ==> closed && skt.broken && writes.buffers == []
      ensures old(skt.broken) ==> skt.broken && skt.wire == old(skt.wire)
      ensures Told(old(skt.script), old(Ahead()), blocked, why, |responses|, error)
    {
      hide InLine, Waiting, TextOf, Apart, Rest, Turn, Unsent, Valid, Stream, Ahead, AgainInHead;
      blocked := false;
      StreamAhead();
      ghost var all, k, o, script := Stream(), 0, Ahead(), skt.script;
      assert responses == responses[0..];
      var response := NextResponse();
      while response != null
        invariant Valid() && fresh(writes.Repr() - old(writes.Repr()))
        invariant 0 <= k <= |old(responses)| && responses == old(responses)[k..]
        invariant if response == null then responses == [] && writes.buffers == [] else responses != [] && response == responses[0]
        invariant !error ==> Stream() == all && Leads(script, o, blocked, skt.script, Ahead())
        invariant skt.wire <= all
        invariant old(skt.broken) ==> skt.broken && skt.wire == old(skt.wire)
        invariant error ==> skt.broken && (writes.buffers != [] || response == null || response.sendStatus.ResponseLine?)
        invariant error ==> Told(script, o, blocked, if response == null then AllSent else RunEnds, |responses|, true)
        decreases |skt.script|, |responses|
      {
        hide *;
        var round := Round();
        if round.Return? {
          why := round.why;
          return;
        }
        if round.Wait? {
          blocked := blocked || round.again;
        } else {
          k := k + 1;
          if round.last {
            return blocked, Closed;
          }
          response := NextResponse();
        }
      }
      NothingAhead();
      return blocked, AllSent;
    }

    lemma NothingAhead()
      ensures responses == [] ==> Ahead() == Outcome([], AllSent, 0, false) && !AgainInHead(skt.script, [])
    {
    }

    /** The first part of a round: the head of the first response, if it is new, goes to the buffers, and what
        is buffered to the socket.  `Bytes` says that nothing is buffered any more. */
    method PushHead() returns (w: Written)
      requires Valid() && responses != []
      requires error ==> skt.broken && (writes.buffers != [] || responses[0].sendStatus.ResponseLine?)
      modifies `error, skt, writes.Repr(), responses
      ensures Valid() && fresh(writes.Repr() - old(writes.Repr())) && responses[0].sendStatus.SendBody?
      ensures Stream() == old(Stream()) && skt.wire <= Stream() && (old(error) ==> skt.wire == old(skt.wire))
      ensures old(skt.broken) ==> skt.wire == old(skt.wire)
      ensures w.Bytes? <==> writes.buffers == []
      ensures error == (old(error) || w.Broken?) && skt.broken == (old(skt.broken) || w.Broken?) && (error ==> writes.buffers != [])
      ensures var p := Push(old(skt.broken), old(skt.script), Buffered(old(Lens(writes.buffers)), old(Jobs(responses))[0]));
              StopOf(w) == p.stop && Lens(writes.buffers) == p.left && skt.script == old(skt.script)[p.used..]
      ensures Jobs(responses) == HeadOut(old(Jobs(responses)))
      ensures (w.WouldBlock? || w.Broken? ==> |skt.script| < |old(skt.script)|) && (old(skt.broken) ==> !w.WouldBlock?)
      ensures match w
              case CutOff => Told(old(skt.script), old(Ahead()), false, RunEnds, |responses|, false)
              case Broken => Told(old(skt.script), old(Ahead()), false, RunEnds, |responses|, true)
              case WouldBlock => Leads(old(skt.script), old(Ahead()), true, skt.script, Ahead())
              case Bytes(_) => Leads(old(skt.script), old(Ahead()), false, skt.script, BodyRound(skt.broken, skt.script, Jobs(responses)))
    {
      hide InLine, Waiting, TextOf, Apart, Rest, Turn, Unsent, Valid, Stream, Jobs, Push, Lens, Told, Leads, Rounds, BodyRound;
      HeadStops(skt.broken, skt.script, Lens(writes.buffers), Jobs(responses));
      StreamAhead();
      StartFirst();
      w := Bytes(0);
      StreamAhead();
      if writes.buffers != [] {
        w := PushPending();
      } else {
        NothingLeft(skt.broken, skt.script);
      }
    }

    /** The second part of a round, once the buffers are empty. */
    method FinishFirst() returns (round: RoundEnd)
      requires Valid() && !error && responses != [] && writes.buffers == [] && responses[0].sendStatus.SendBody?
      modifies this, skt, Things(responses)
      ensures Valid() && writes.buffers == [] && !round.Wait?
      ensures responses == if round.Next? then old(responses)[1..] else old(responses)
      ensures skt.wire <= old(Stream()) && (!error ==> Stream() == old(Stream()))
      ensures old(skt.broken) ==> skt.broken && skt.wire == old(skt.wire)
      ensures error ==> skt.broken && (responses == [] || responses[0].sendStatus.ResponseLine?)
      ensures round.Next? ==> (round.last ==> closed && skt.broken) && |skt.script| <= |old(skt.script)|
      ensures round.Return? ==> round.why.RunEnds? || (round.why.BodyBlocked? && BodyWaits())
      ensures Goes(round, old(skt.script), BodyRound(old(skt.broken), old(skt.script), old(Jobs(responses))), skt.script, Ahead(), |responses|, error)
    {
      hide InLine, Waiting, TextOf, Apart, Rest, Turn, Unsent, Valid, Stream, Rounds, BodyRound, Jobs, PushBody, Told, Leads;
      BodyStops(skt.broken, skt.script, Jobs(responses));
      var r, last := SendFirst();
      if r.Cut? {
        return Return(RunEnds);
      }
      if r.Blocked? {
        return Return(BodyBlocked);
      }
      return RoundEnd.Next(last);
    }

    /** The body of the writer's inner loop, for the first response of the list. */
    method Round() returns (round: RoundEnd)
      requires Valid() && responses != []
      requires error ==> skt.broken && (writes.buffers != [] || responses[0].sendStatus.ResponseLine?)
      modifies this, skt, writes.Repr(), Things(responses)
      ensures Valid() && fresh(writes.Repr() - old(writes.Repr()))
      ensures responses == if round.Next? then old(responses)[1..] else old(responses)
      ensures !error ==> !old(error) && Stream() == old(Stream())
      ensures if old(error) then skt.wire == old(skt.wire) else skt.wire <= old(Stream())
      ensures old(skt.broken) ==> skt.broken && skt.wire == old(skt.wire)
      ensures !error ==> skt.wire <= Stream()
      ensures error ==> skt.broken && (writes.buffers != [] || responses == [] || responses[0].sendStatus.ResponseLine?)
      ensures round.Next? ==> writes.buffers == [] && (round.last ==> closed && skt.broken) && |skt.script| <= |old(skt.script)|
      ensures round.Wait? ==> |skt.script| < |old(skt.script)|
      ensures round.Return? ==> round.why.RunEnds? || (round.why.BodyBlocked? && BodyWaits())
      ensures old(error) ==> round == Wait(false) || round == Return(RunEnds)
      ensures !old(error) ==> Goes(round, old(skt.script), old(Ahead()), skt.script, Ahead(), |responses|, error)
    {
      hide InLine, Waiting, TextOf, Apart, Rest, Turn, Unsent, Valid, Stream, BodyRound, Lens, Jobs, Told, Leads, Ahead;
      var w := PushHead();
      if w.CutOff? {
        return Return(RunEnds);
      }
      if error || writes.buffers != [] {
        return Wait(w.WouldBlock?);
      }
      ghost var o, m, script := old(Ahead()), BodyRound(skt.broken, skt.script, Jobs(responses)), skt.script;
      round := FinishFirst();
      GoesBehind(round, old(skt.script), o, script, m, skt.script, Ahead(), |responses|, error);
    }

    /** Bytes are buffered, or responses are listed. */
    ghost predicate HasMore()
      reads this, writes
    {
      writes.buffers != [] || responses != []
    }

    /** The first response has body bytes left and nothing is buffered. */
    ghost predicate BodyWaits()
      reads this, writes, Things(responses)
    {
      !error && writes.buffers == [] && responses != [] && responses[0].sendStatus.SendBody? && Unsent(responses[0]) != ""
    }

    /** `http_response_list_append`, by the thread that answers the request. */
    method Enqueue(r: Response)
      requires Valid() && Waiting([r]) && Foreign(responses, [r])
      modifies `responses
      ensures Valid() && responses == old(responses) + [r]
      ensures Stream() == old(Stream()) + Unsent(r) && skt.wire <= Stream()
    {
      hide TextOf, Apart, Waiting, InLine, Rest, Foreign;
      ghost var was := responses;
      ghost var before, tail := skt.wire + writes.Contents(), Rest(was);
      responses := responses + [r];
      RestKept(was);
      InLineKept(was);
      WaitingKept([r]);
      TextKept(writes.buffers);
      InLineJoin(was, r);
      RestJoin(was, [r]);
      RestOfOne(r);
      assert before + (tail + Unsent(r)) == (before + tail) + Unsent(r);
    }

    /** The writer over many visits, with responses arriving in between in the order of `rs`,
        `plan[i]` of them before visit `i`: the wire shows head and body of one after the
        other, from the first on, and never anything else. */
    method Drive(rs: seq<Response>, plan: seq<nat>) returns (n: nat)
      requires Valid() && !error && Waiting(rs) && Foreign(responses, rs)
      modifies this, skt, writes.Repr(), Things(responses), Things(rs)
      ensures Valid() && n <= |rs|
      ensures !error ==> Stream() + Rest(rs[n..]) == old(Stream()) + old(Rest(rs))
      ensures skt.wire <= old(Stream()) + old(Rest(rs))
      ensures old(skt.broken) ==> skt.wire == old(skt.wire)
    {
      hide TextOf, Apart, InLine, Waiting, Valid, Stream, Rest, Turn, Unsent, Foreign;
      n := 0;
      var i := 0;
      StreamAhead();
      assert rs[0..] == rs;
      ghost var all := Stream() + Rest(rs);
      while i < |plan| && !error
        invariant 0 <= i <= |plan| && 0 <= n <= |rs|
        invariant Valid() && fresh(writes.Repr() - old(writes.Repr()))
        invariant Waiting(rs[n..]) && Foreign(responses, rs[n..])
        invariant forall r | r in responses :: r in old(responses) || r in rs
        invariant !error ==> Stream() + Rest(rs[n..]) == all
        invariant skt.wire <= all
        invariant old(skt.broken) ==> skt.broken && skt.wire == old(skt.wire)
      {
        n := Visit(rs, n, plan[i]);
        i := i + 1;
      }
    }

    /** The whole life of a new connection: all the peer ever sees is a beginning of a text that it can
        take apart, whatever it has read so far. */
    method DriveFramed(rs: seq<Response>, plan: seq<nat>) returns (n: nat)
      requires Valid() && !error && Stream() == "" && Waiting(rs) && Sized(rs) && Foreign(responses, rs)
      requires forall r | r in rs :: |r.body.data| < 4294967296
      modifies this, skt, writes.Repr(), Things(responses), Things(rs)
      ensures Valid() && n <= |rs|
      ensures old(Framed(Rest(rs), RepliesOf(rs))) && skt.wire <= old(Rest(rs))
    {
      hide TextOf, Apart, InLine, Waiting, Valid, Stream, Rest, Turn, Unsent, Foreign, Framed, Sized, RepliesOf;
      FramedExact(rs);
      ghost var all := Rest(rs);
      assert "" + all == all;
      n := Drive(rs, plan);
    }

    /** The responses that have come in are appended, and the connection is served. */
    method Visit(rs: seq<Response>, n: nat, count: nat) returns (m: nat)
      requires n <= |rs| && Valid() && !error && Waiting(rs[n..]) && Foreign(responses, rs[n..])
      modifies this, skt, writes.Repr(), Things(responses), Things(rs)
      ensures n <= m <= |rs| && Valid() && fresh(writes.Repr() - old(writes.Repr()))
      ensures Waiting(rs[m..]) && Foreign(responses, rs[m..])
      ensures forall r | r in responses :: r in old(responses) || r in rs
      ensures !error ==> Stream() + Rest(rs[m..]) == old(Stream()) + old(Rest(rs[n..]))
      ensures skt.wire <= old(Stream()) + old(Rest(rs[n..]))
      ensures old(skt.broken) ==> skt.broken && skt.wire == old(skt.wire)
    {
      hide TextOf, Apart, InLine, Waiting, Valid, Stream, Rest, Turn, Unsent;
      m := Arrive(rs, n, count);
      ServeBeside(rs[m..]);
    }

    /** A visit leaves responses that have not come in as they are. */
    method ServeBeside(late: seq<Response>)
      requires Valid() && !error && Waiting(late) && Foreign(responses, late)
      modifies this, skt, writes.Repr(), Things(responses)
      ensures Valid() && fresh(writes.Repr() - old(writes.Repr()))
      ensures Waiting(late) && Rest(late) == old(Rest(late)) && Foreign(responses, late)
      ensures forall r | r in responses :: r in old(responses)
      ensures !error ==> Stream() == old(Stream())
      ensures skt.wire <= old(Stream())
      ensures old(skt.broken) ==> skt.broken && skt.wire == old(skt.wire)
    {
      hide TextOf, Apart, InLine, Waiting, Valid, Stream, Rest, Turn, Unsent, Foretold, AgainInHead, AgainLast, BodyWaits, HasMore, ClosesLast, Jobs;
      var blocked, why := Serve();
      assert forall r | r in late :: unchanged(r) && unchanged(r.body);
      RestKept(late);
      WaitingKept(late);
    }

    /** Up to `count` responses of `rs` from `n` on are appended. */
    method Arrive(rs: seq<Response>, n: nat, count: nat) returns (m: nat)
      requires n <= |rs| && Valid() && Waiting(rs[n..]) && Foreign(responses, rs[n..])
      modifies `responses
      ensures n <= m <= |rs| && Valid() && responses == old(responses) + rs[n..m]
      ensures Waiting(rs[m..]) && Foreign(responses, rs[m..])
      ensures Stream() + Rest(rs[m..]) == old(Stream()) + old(Rest(rs[n..])) && skt.wire <= Stream()
    {
      hide TextOf, Apart, InLine, Valid, Stream, Rest, Turn, Unsent;
      StreamAhead();
      m := n;
      assert rs[n..n] == [] && responses + [] == responses;
      while m < |rs| && m - n < count
        invariant n <= m <= |rs| && Valid() && responses == old(responses) + rs[n..m]
        invariant Waiting(rs[m..]) && Foreign(responses, rs[m..])
        invariant Stream() + Rest(rs[m..]) == old(Stream()) + old(Rest(rs[n..])) && skt.wire <= Stream()
      {
        hide *;
        ArriveOne(rs, m);
        assert rs[n..m + 1] == rs[n..m] + [rs[m]];
        assert (old(responses) + rs[n..m]) + [rs[m]] == old(responses) + (rs[n..m] + [rs[m]]);
        m := m + 1;
      }
    }

    /** One response is appended. */
    method ArriveOne(rs: seq<Response>, m: nat)
      requires m < |rs| && Valid() && Waiting(rs[m..]) && Foreign(responses, rs[m..])
      modifies `responses
      ensures Valid() && responses == old(responses) + [rs[m]]
      ensures Waiting(rs[m + 1..]) && Foreign(responses, rs[m + 1..])
      ensures Stream() + Rest(rs[m + 1..]) == old(Stream()) + old(Rest(rs[m..])) && skt.wire <= Stream()
    {
      hide TextOf, Apart, InLine, Valid, Stream, Rest, Turn, Unsent;
      ghost var rest := rs[m..];
      assert rest[0] == rs[m] && rest[1..] == rs[m + 1..];
      FirstWaits(rest);
      ForeignFirst(responses, rest);
      FirstOfRest(rest);
      ghost var stream, one := Stream(), Unsent(rs[m]);
      Enqueue(rs[m]);
      RestKept(rest[1..]);
      assert (stream + one) + Rest(rest[1..]) == stream + (one + Rest(rest[1..]));
    }

    lemma StreamAhead()
      requires Valid()
      ensures skt.wire <= Stream() && (responses == [] ==> writes.buffers == []) && writes.Valid()
    {
    }

    /** `http_response_list_next`. */
    function NextResponse(): Response?
      reads this
    {
      if responses == [] then null else responses[0]
    }

    /** A finished response leaves the list; the connection is closed if it says so. */
    method Retire() returns (last: bool)
      requires InLine(responses) && responses != [] && writes.buffers == [] && responses[0].sendStatus.SendBody?
      modifies this, skt, responses[0]
      ensures Valid() && writes.buffers == [] && responses == old(responses)[1..]
      ensures Rest(responses) == old(Rest(responses[1..])) && Jobs(responses) == old(Jobs(responses[1..]))
      ensures skt.wire == old(skt.wire) && skt.script == old(skt.script)
      ensures responses != [] ==> responses[0].sendStatus.ResponseLine?
      ensures last <==> ClosesAfter(old(responses[0].headers))
      ensures closed == (old(closed) || last) && skt.broken == (old(skt.broken) || last) && error == old(error)
    {
      hide TextOf, Rest, Jobs;
      NoText();
      last := false;
      var first := responses[0];
      ghost var rest := responses[1..];
      first.sendStatus := SendDone;
      var i := Lookup(first.headers, CONNECTION);
      if i < |first.headers| && IsClose(first.headers[i].content) {
        skt.Close();
        closed := true;
        last := true;
      }
      responses := responses[1..];
      ListKept(rest);
      WaitingInLine(rest);
    }
  }

  /** No response of `xs`, and no body, is one of `ys`. */
  predicate Foreign(xs: seq<Response>, ys: seq<Response>) {
    forall x, y | x in xs && y in ys :: x != y && x.body != y.body
  }

  lemma {:induction false} RestJoin(xs: seq<Response>, ys: seq<Response>)
    ensures Rest(xs + ys) == Rest(xs) + Rest(ys)
  {
    if xs == [] {
      assert xs + ys == ys;
    } else {
      assert (xs + ys)[1..] == xs[1..] + ys;
      RestJoin(xs[1..], ys);
    }
  }

  /** Responses with a Content-Length, and no line ends where they would be taken for the writer's. */
  ghost predicate Sized(rs: seq<Response>)
    reads Things(rs)
  {
    forall r | r in rs :: !r.chunked && r.code != 100 && OnceEach(r.headers) && Clean(r.headers) && OneLine(r.date) && OneLine(r.message)
  }

  /** What the peer should take the responses for. */
  ghost function RepliesOf(rs: seq<Response>): seq<Seen>
    reads Things(rs)
  {
    if rs == [] then []
    else [Seen(rs[0].version, rs[0].code, rs[0].message, SentHeaders(rs[0]), rs[0].body.data)] + RepliesOf(rs[1..])
  }

  /** What is put on the wire for waiting responses, taken apart at line ends, empty lines and Content-Lengths,
      is those responses exactly when all bodies are shorter than 2^32 bytes. */
  lemma {:induction false} FramedExact(rs: seq<Response>)
    requires Waiting(rs) && Sized(rs)
    ensures Framed(Rest(rs), RepliesOf(rs)) <==> forall r | r in rs :: |r.body.data| < 4294967296
  {
    hide FinalHeaders, Head, ReadHead, SaidIn, Clean, OneLine, OnceEach;
    if rs != [] {
      var r, rest := rs[0], Rest(rs[1..]);
      assert r in rs && forall x | x in rs[1..] :: x in rs;
      FinalClean(r.code, r.headers, false, |r.body.data|, r.date);
      HeadReadBack(r.version, r.code, r.message, r.headers, false, |r.body.data|, r.date, r.body.data + rest);
      SaidExactly(r.code, r.headers, |r.body.data|, r.date);
      assert Rest(rs) == r.HeadText() + (r.body.data + rest);
      var n := SaidIn(SentHeaders(r));
      if n == |r.body.data| {
        assert (r.body.data + rest)[..n] == r.body.data && (r.body.data + rest)[n..] == rest;
        FramedExact(rs[1..]);
      }
    }
  }

  lemma FirstOfRest(rs: seq<Response>)
    requires rs != []
    ensures Rest(rs) == Unsent(rs[0]) + Rest(rs[1..])
  {
  }

  lemma RestOfOne(r: Response)
    ensures Rest([r]) == Unsent(r)
  {
    assert [r][1..] == [];
  }

  lemma FirstWaits(rs: seq<Response>)
    requires rs != [] && Waiting(rs)
    ensures Waiting([rs[0]]) && Waiting(rs[1..]) && Foreign([rs[0]], rs[1..])
  {
  }

  lemma ForeignFirst(xs: seq<Response>, ys: seq<Response>)
    requires ys != [] && Foreign(xs, ys) && Foreign([ys[0]], ys[1..])
    ensures Foreign(xs, [ys[0]]) && Foreign(xs + [ys[0]], ys[1..])
  {
    assert ys[0] in [ys[0]] && ys[0] in ys;
    assert forall y | y in ys[1..] :: y in ys;
  }

  lemma InLineJoin(xs: seq<Response>, y: Response)
    requires InLine(xs) && Waiting([y]) && Foreign(xs, [y])
    ensures InLine(xs + [y])
  {
    assert y in [y];
    if xs == [] {
      assert xs + [y] == [y];
    } else {
      assert (xs + [y])[1..] == xs[1..] + [y];
    }
  }

  lemma WaitingInLine(rs: seq<Response>)
    requires Waiting(rs)
    ensures InLine(rs)
  {
    if rs != [] {
      assert forall r | r in rs[1..] :: r in rs;
    }
  }

  /** The body of the first response, as far as the socket takes it. */
  method SendBodyOf(rs: seq<Response>, skt: Socket) returns (r: BodyResult)
    requires rs != [] && InLine(rs) && rs[0].sendStatus.SendBody?
    modifies rs[0].body, skt
    ensures InLine(rs) && rs[0].sendStatus.SendBody? && !r.More?
    ensures skt.wire + Rest(rs) == old(skt.wire) + old(Rest(rs))
    ensures Rest(rs[1..]) == old(Rest(rs[1..])) && (r.Done? ==> Rest(rs) == Rest(rs[1..]))
    ensures r.Blocked? || r.Cut? ==> Unsent(rs[0]) != ""
    ensures skt.broken == (old(skt.broken) || r.Failed?) && (old(skt.broken) ==> skt.wire == old(skt.wire))
    ensures var job := old(Jobs(rs))[0]; var b := PushBody(old(skt.broken), old(skt.script), job.body, job.file);
            ResultOf(b.stop) == r && skt.script == old(skt.script)[b.used..]
    ensures Jobs(rs[1..]) == old(Jobs(rs[1..])) && old(Jobs(rs))[1..] == old(Jobs(rs[1..]))
  {
    hide InLine, Waiting, Turn, Unsent, JobOf, PushBody;
    AllApart(rs);
    r := BodyOf(rs[0], skt);
    FirstMoves(rs);
    ListKept(rs[1..]);
    ghost var tail := Rest(rs[1..]);
    assert r.Done? ==> "" + tail == tail;
    assert skt.wire + (Unsent(rs[0]) + tail) == skt.wire + Unsent(rs[0]) + tail;
  }

  method BodyOf(p: Response, skt: Socket) returns (r: BodyResult)
    requires Turn(p) && p.sendStatus.SendBody?
    modifies p.body, skt
    ensures Turn(p) && !r.More? && (r.Done? ==> Unsent(p) == "")
    ensures skt.wire + Unsent(p) == old(skt.wire) + old(Unsent(p))
    ensures r.Blocked? || r.Cut? ==> Unsent(p) != ""
    ensures skt.broken == (old(skt.broken) || r.Failed?) && (old(skt.broken) ==> skt.wire == old(skt.wire))
    ensures var job := old(JobOf(p)); var b := PushBody(old(skt.broken), old(skt.script), job.body, job.file);
            ResultOf(b.stop) == r && skt.script == old(skt.script)[b.used..]
  {
    var body := p.body;
    ghost var start := body.rOffset;
    if body.kind.NoBody? {
      r := Done;
    } else {
      r := body.WriteTo(skt);
    }
    assert body.data[start..] == body.data[start..body.rOffset] + body.data[body.rOffset..];
  }

  /** The response asks for the connection to be closed after it. */
  predicate ClosesAfter(hs: seq<Header>) {
    var i := Lookup(hs, CONNECTION);
    i < |hs| && IsClose(hs[i].content)
  }

  /** That is so exactly when its first header called "Connection" says "close", in any mixture of cases. */
  lemma ClosesExact(hs: seq<Header>)
    ensures ClosesAfter(hs) <==>
            exists i :: 0 <= i < |hs| && hs[i].name == "Connection" && SameLetters(hs[i].content, "close")
                        && forall j :: 0 <= j < i ==> hs[j].name != "Connection"
  {
    hide IsClose;
    var i := Lookup(hs, CONNECTION);
    if i < |hs| {
      CloseExact(hs[i].content);
    }
  }

  lemma CloseExact(s: string)
    ensures IsClose(s) <==> SameLetters(s, "close")
  {
    hide SameLetter;
    if |s| == 5 {
      forall i | 0 <= i < 5
        ensures s[i] == "close"[i] || s[i] == "CLOSE"[i] <==> SameLetter(s[i], "close"[i])
      {
        CloseLetter(s[i], i);
      }
    }
  }

  lemma CloseLetter(c: char, i: nat)
    requires i < 5
    ensures c == "close"[i] || c == "CLOSE"[i] <==> SameLetter(c, "close"[i])
  {
    var k := [2, 11, 14, 18, 4][i];
    Alphabets(k);
    assert "close"[i] == SMALL[k] && "CLOSE"[i] == CAPITALS[k];
    if SameLetter(c, "close"[i]) && c != "close"[i] {
      var j :| 0 <= j < 26 && ((c == CAPITALS[j] && "close"[i] == SMALL[j]) || (c == SMALL[j] && "close"[i] == CAPITALS[j]));
      Alphabets(j);
    }
  }

  // ---------------------------------------------------------------- two visits

  /** The head of a plain response with two bytes of body fits one buffer, and it does not close the connection. */
  lemma SmallHead(date: string)
    requires |date| <= 1000
    ensures 0 < |Head(Http11, 200, CodeMessage(200), [], false, 2, date)| <= DATA_BUFFER_SIZE
    ensures !ClosesAfter(FinalHeaders(200, [], false, 2, date))
  {
    SuccessPhrases();
    PlainHead(date);
    PlainFinal(date);
    hide Head, FinalHeaders, CodeMessage;
  }

  method PlainResponse(date: string) returns (r: Response)
    requires |date| <= 1000
    ensures fresh(r) && fresh(r.body) && Waiting([r])
    ensures var job := JobOf(r); job == Job(job.head, 2, false, false) && 0 < job.head <= DATA_BUFFER_SIZE
  {
    hide Head, FinalHeaders, CodeMessage, ClosesAfter;
    var body := new Body(StringBody, "hi");
    r := new Response(Http11, 200, "", false, date, body, []);
    SmallHead(date);
  }

  /** The first response of a connection. */
  method EnqueueFirst(c: Connection, r: Response)
    requires c.Valid() && c.responses == [] && c.writes.buffers == [] && Waiting([r])
    modifies c`responses
    ensures c.Valid() && c.responses == [r] && Jobs([r]) == [old(JobOf(r))]
    ensures c.Foretold() == OfVisit(c.skt.broken, c.skt.script, [], Jobs([r]))
  {
    hide JobOf, Rest, Waiting, InLine, OfVisit, TextOf, Apart, Connection.Valid, Connection.Stream, Jobs;
    c.Enqueue(r);
    assert c.responses == [r];
    JobKept(r);
    FirstJob([r]);
    NoJobs();
    NothingLeft(c.skt.broken, c.skt.script);
  }

  lemma NoJobs()
    ensures Jobs([]) == []
  {
  }

  /** A connection with one such response. */
  method OneWaiting(script: seq<Reply>, date: string) returns (c: Connection)
    requires |date| <= 1000
    ensures fresh(c) && fresh(c.skt) && fresh(c.writes.Repr()) && fresh(Things(c.responses)) && c.Valid() && !c.error
    ensures c.skt.script == script
    ensures var jobs := Jobs(c.responses); |jobs| == 1 && jobs[0] == Job(jobs[0].head, 2, false, false) && 0 < jobs[0].head <= DATA_BUFFER_SIZE
    ensures c.Foretold() == OfVisit(false, script, [], Jobs(c.responses))
  {
    hide JobOf, Rest, Waiting, InLine, OfVisit, TextOf, Apart, Connection.Valid, Connection.Stream, Jobs, Lens, Connection.Foretold;
    var r := PlainResponse(date);
    label Made:
    var skt := new Socket(script);
    c := new Connection(skt);
    ListKept@Made([r]);
    JobKept@Made(r);
    EnqueueFirst(c, r);
  }

  /** The head is taken at once and the body meets EAGAIN: the flag is not set, so the item is given
      back as finished, and the body is left on the list. */
  method BodyForgotten(date: string) returns (c: Connection, blocked: bool)
    requires |date| <= 1000
    ensures fresh(c) && c.Valid() && !c.error && c.BodyWaits() && !blocked
  {
    hide Connection.Valid, Connection.Foretold, Connection.Stream, Jobs, OfVisit, AgainInHead, AgainLast, Connection.BodyWaits, Connection.HasMore;
    c := OneWaiting([Take(DATA_BUFFER_SIZE), Again], date);
    TakenThenBlocked(DATA_BUFFER_SIZE, [], Jobs(c.responses)[0], []);
    assert [Take(DATA_BUFFER_SIZE), Again] + [] == [Take(DATA_BUFFER_SIZE), Again] && [Jobs(c.responses)[0]] + [] == Jobs(c.responses);
    var why;
    blocked, why := c.Serve();
  }

  /** The head meets EAGAIN and is then sent with all of the body: the flag is set, so the item is
      kept, and nothing is left. */
  method NothingKept(date: string) returns (c: Connection, blocked: bool)
    requires |date| <= 1000
    ensures fresh(c) && c.Valid() && !c.error && !c.HasMore() && blocked
  {
    hide Connection.Valid, Connection.Foretold, Connection.Stream, Jobs, OfVisit, AgainInHead, AgainLast, Connection.BodyWaits;
    ghost var script := [Again, Take(DATA_BUFFER_SIZE), Take(1)];
    c := OneWaiting([Again, Take(DATA_BUFFER_SIZE), Take(1)], date);
    BlockedThenTaken(DATA_BUFFER_SIZE, 1, [], Jobs(c.responses)[0]);
    assert script + [] == script && [Jobs(c.responses)[0]] == Jobs(c.responses);
    var why;
    blocked, why := c.Serve();
  }
}
