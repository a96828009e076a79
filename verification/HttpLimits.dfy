/** The limit on the head of a message: the URL, field and value bytes delivered since the
    last time headers were complete never exceed `nread`, which never exceeds 80 KiB. */
module HttpLimits {
  import opened HttpChars
  import opened HttpParser
  import opened HttpInvariant
  import opened HttpSteps
  import opened HttpExecute
  import opened HttpSession

  /** URL, field and value bytes since headers were last complete, trailers included. */
  function HeadBytes(log: seq<Event>): nat {
    if log == [] then 0 else NextHead(HeadBytes(log[..|log| - 1]), log[|log| - 1])
  }

  function NextHead(h: nat, e: Event): nat {
    if e.HeadersComplete? then 0 else if e.Data? && !e.kind.Body? then h + |e.bytes| else h
  }

  lemma HeadAppend(log: seq<Event>, e: Event)
    ensures HeadBytes(Append(log, e)) == NextHead(HeadBytes(log), e)
  {
    var n := |log| - 1;
    if e.Data? && n >= 0 && log[n].Data? && log[n].kind == e.kind {
      var l := Append(log, e);
      assert l[..|l| - 1] == log[..n];
    } else {
      assert (log + [e])[..|log|] == log;
    }
  }

  function EmitHead(h: nat, o: Outcome, ch: char): nat {
    var k := if o.keep.Some? && !o.keep.value.Body? then h + 1 else h;
    if o.call.Tell? then NextHead(k, o.call.event) else k
  }

  lemma HeadEmit(log: seq<Event>, o: Outcome, ch: char)
    ensures HeadBytes(Emit(log, o, ch)) == EmitHead(HeadBytes(log), o, ch)
  {
    hide Append, HeadBytes;
    var l := if o.keep.Some? then Append(log, Data(o.keep.value, [ch])) else log;
    if o.keep.Some? {
      HeadAppend(log, Data(o.keep.value, [ch]));
    }
    match o.call {
      case Quiet =>
      case Tell(e) => HeadAppend(l, e);
      case Flush(k) => HeadAppend(l, Data(k, []));
      case Blank(k) => HeadAppend(l, Data(k, []));
    }
  }

  /** States in which no head bytes have come in since headers were complete. */
  predicate Clear(s: State) {
    s.HeadersDone? || ChunkState(s) || s.BodyIdentity? || s.MessageDone?
  }

  predicate Limited(f: Fields, h: nat) {
    h <= f.nread && (Clear(f.state) ==> h == 0)
  }

  /** With the byte at hand counted already. */
  predicate Room(f: Fields, h: nat) {
    Limited(f, h) && (ParsingHeader(f.state) ==> h < f.nread)
  }

  predicate KeepsLimit(h: nat, o: Outcome, ch: char) {
    match o.control
    case Fail(_) => true
    case Again => Room(o.f, EmitHead(h, o, ch))
    case Advance => Limited(o.f, EmitHead(h, o, ch))
    case Exit => Limited(o.f, EmitHead(h, o, ch))
  }

  lemma CaseKeepsLimit(f: Fields, h: nat, ch: char, skip: Fields -> bool)
    requires Room(f, h)
    ensures KeepsLimit(h, Case(f, ch, skip), ch)
  {
    hide StartCase, MethodCase, UrlCase, VersionCase, HeaderCase, ChunkCase, BodyCase, HeadersCase, HeadersDoneCase, KeepsLimit, Room;
    if f.state.Dead? || f.state.StartReq? || f.state.ReqMethod? {
      StartLimit(f, h, ch);
    } else if f.state.HeadersAlmostDone? || f.state.HeadersDone? {
      HeadersLimit(f, h, ch, skip);
    } else if f.state == SpacesBeforeUrl || InUrl(f.state) {
      UrlLimit(f, h, ch);
    } else if InVersion(f.state) {
      VersionLimit(f, h, ch);
    } else if InHeader(f.state) {
      HeaderLimit(f, h, ch);
    } else if InChunkSize(f.state) {
      ChunkLimit(f, h, ch);
    } else {
      BodyLimit(f, h, ch);
    }
  }

  lemma StartLimit(f: Fields, h: nat, ch: char)
    requires Room(f, h)
    ensures f.state.StartReq? ==> KeepsLimit(h, StartCase(f, ch), ch)
    ensures f.state.ReqMethod? ==> KeepsLimit(h, MethodCase(f, ch), ch)
    ensures f.state.Dead? ==> KeepsLimit(h, Go(f), ch) && KeepsLimit(h, Stop(f, ClosedConnection), ch)
  {
    hide IsAlpha, FirstGuess, NextGuess, Name;
  }

  lemma HeadersLimit(f: Fields, h: nat, ch: char, skip: Fields -> bool)
    requires Room(f, h)
    ensures f.state.HeadersAlmostDone? ==> KeepsLimit(h, HeadersCase(f, ch, skip), ch)
    ensures f.state.HeadersDone? ==> KeepsLimit(h, HeadersDoneCase(f, ch), ch)
  {
    hide KeepAlive;
  }

  lemma UrlLimit(f: Fields, h: nat, ch: char)
    requires Room(f, h) && (f.state == SpacesBeforeUrl || InUrl(f.state))
    ensures KeepsLimit(h, UrlCase(f, ch), ch)
  {
    hide ParseUrlChar;
    UrlCharStaysInUrl(if f.state == SpacesBeforeUrl then UrlEntry(f.verb) else f.state, ch);
  }

  lemma VersionLimit(f: Fields, h: nat, ch: char)
    requires Room(f, h) && InVersion(f.state)
    ensures KeepsLimit(h, VersionCase(f, ch), ch)
  {
  }

  lemma HeaderLimit(f: Fields, h: nat, ch: char)
    requires Room(f, h) && InHeader(f.state)
    ensures KeepsLimit(h, HeaderCase(f, ch), ch)
  {
    hide IsToken, Token, FieldByte, FieldStartCase, FieldCase, ValueStartCase, ValueCase, FinishHeader;
    FinishKeeps(f);
    FinishCount(f);
    if f.state.FieldStart? || f.state.HeaderField? {
      FieldLimit(f, h, ch);
    } else if f.state.HeaderValue? || f.state.DiscardWs? || f.state.ValueStart? {
      ValueLimit(f, h, ch);
    }
  }

  lemma FinishCount(f: Fields)
    ensures FinishHeader(f).nread == f.nread && FinishHeader(f).state == f.state
  {
  }

  lemma FieldLimit(f: Fields, h: nat, ch: char)
    requires Room(f, h)
    ensures f.state.FieldStart? ==> KeepsLimit(h, FieldStartCase(f, ch), ch)
    ensures f.state.HeaderField? ==> KeepsLimit(h, FieldCase(f, ch), ch)
  {
    hide IsToken, Token;
  }

  lemma ValueLimit(f: Fields, h: nat, ch: char)
    requires Room(f, h)
    ensures f.state.DiscardWs? || f.state.ValueStart? ==> KeepsLimit(h, ValueStartCase(f, ch), ch)
    ensures f.state.HeaderValue? ==> KeepsLimit(h, ValueCase(f, ch), ch)
  {
    hide Lower, IsNum, Scale;
  }

  lemma ChunkLimit(f: Fields, h: nat, ch: char)
    requires Room(f, h) && InChunkSize(f.state)
    ensures KeepsLimit(h, ChunkCase(f, ch), ch)
  {
    hide Unhex, Scale;
  }

  lemma BodyLimit(f: Fields, h: nat, ch: char)
    requires f.state.BodyIdentity? || f.state.MessageDone? || f.state.ChunkData? || f.state.ChunkDataAlmostDone? || f.state.ChunkDataDone?
    requires Room(f, h)
    ensures KeepsLimit(h, BodyCase(f, ch), ch)
  {
    hide KeepAlive;
  }

  // ---------------------------------------------------------------- whole runs

  /** The delivered head bytes are within the counted ones, and those within the limit. */
  predicate PointLimited(pt: Point) {
    PointSound(pt) && if pt.at.Inside? then Room(pt.f, HeadBytes(pt.log)) else Limited(pt.f, HeadBytes(pt.log))
  }

  lemma StepLimited(pt: Point, data: string, skip: Fields -> bool)
    requires PointLimited(pt)
    ensures PointLimited(Step(pt, data, skip))
  {
    hide Case, Emit, Sound, EmitHead, HeadBytes;
    StepSound(pt, data, skip);
    if pt.at.Inside? && pt.pos < |data| {
      hide Limited, Room;
      var o := Case(pt.f, data[pt.pos], skip);
      HeadEmit(pt.log, o, data[pt.pos]);
      CaseKeepsLimit(pt.f, HeadBytes(pt.log), data[pt.pos], skip);
    }
  }

  /** At every point of a run, the head bytes delivered stay within `nread`, and `nread` within the limit. */
  lemma {:induction false} StepsLimited(start: Point, data: string, skip: Fields -> bool, n: nat)
    requires PointLimited(start)
    ensures var pt := Steps(start, data, skip, n);
            PointLimited(pt) && HeadBytes(pt.log) <= pt.f.nread <= MAX_HEADER_SIZE
    decreases n
  {
    hide PointLimited, Step, HeadBytes;
    if n > 0 {
      StepsLimited(start, data, skip, n - 1);
      StepLimited(Steps(start, data, skip, n - 1), data, skip);
    }
    WithinLimit(Steps(start, data, skip, n));
  }

  lemma WithinLimit(pt: Point)
    requires PointLimited(pt)
    ensures HeadBytes(pt.log) <= pt.f.nread <= MAX_HEADER_SIZE
  {
    hide HeadBytes;
  }

  lemma CallLimited(f: Fields, data: string, log: seq<Event>, skip: Fields -> bool, f': Fields, n: nat, log': seq<Event>)
    requires Inv(f) && Limited(f, HeadBytes(log)) && Delivers(f, data, log, skip, f', n, log')
    ensures HeadBytes(log') <= MAX_HEADER_SIZE
    ensures Unpaused(f').errno.OK? ==> Inv(Unpaused(f')) && Limited(Unpaused(f'), HeadBytes(log'))
  {
    hide Sound, HeadBytes, Limited, Room, Steps, Follows;
    var start := Point(f, 0, Between, log);
    var pt :| Passes(start, data, skip, pt) && Halted(pt, f', n, log');
    var k: nat :| Steps(start, data, skip, k) == pt;
    StepsLimited(start, data, skip, k);
    RoomIsLimited(pt.f, HeadBytes(pt.log));
    if ParseError(f'.errno) && log' != pt.log {
      var kind, d :| pt.log == Append(log', Data(kind, d));
      HeadAppend(log', Data(kind, d));
    }
    FollowsInv(f, data, log, skip, f', n, log');
  }

  lemma RoomIsLimited(f: Fields, h: nat)
    ensures Room(f, h) ==> Limited(f, h)
  {
  }

  lemma {:induction false} CallsLimited(f: Fields, log: seq<Event>, calls: seq<Fed>, skip: Fields -> bool)
    requires Calls(f, log, calls, skip) && (f.errno.OK? ==> Inv(f) && Limited(f, HeadBytes(log)))
    ensures forall c <- calls :: HeadBytes(c.log) <= MAX_HEADER_SIZE
    decreases |calls|
  {
    hide Delivers, Inv, HeadBytes, Limited;
    if calls != [] {
      var c := calls[0];
      CallLimited(f, c.data, log, skip, c.f, c.n, c.log);
      CallsLimited(Unpaused(c.f), c.log, calls[1..], skip);
    }
  }

  /** However long the stream, however it is cut and however the calls end: after no call have more than
      80 KiB of URL, field names and field values been delivered since headers were last complete. */
  lemma HeadIsBounded(calls: seq<Fed>, skip: Fields -> bool)
    requires Calls(Init(), [], calls, skip)
    ensures forall c <- calls :: HeadBytes(c.log) <= 81920
  {
    hide Calls, HeadBytes;
    InitSound();
    NoHead();
    CallsLimited(Init(), [], calls, skip);
  }

  lemma NoHead()
    ensures HeadBytes([]) == 0
  {
  }
}
