/** The order of callbacks, as an automaton over joined traces:
    (begin url (field value?)* headers-complete body* (field value?)* complete)*,
    with the body of an announced length having exactly that length, and nothing at all
    after a message that ends the connection. */
module HttpGrammar {
  import opened HttpChars
  import opened HttpParser
  import opened HttpInvariant
  import opened HttpSteps
  import opened HttpExecute
  import opened HttpSession

  /** `Counted(n)`: `n` body bytes are still due before the message may complete. */
  datatype Phase = Idle | Begun | Request | Header | Counted(due: nat) | Chunks | Trailer | Closed | Broken

  function AfterHeaders(fr: Framing): Phase {
    match fr
    case NoBody => Counted(0)
    case Identity(n) => Counted(n)
    case ChunkedBody => Chunks
  }

  function AfterMessage(keepAlive: bool): Phase {
    if keepAlive then Idle else Closed
  }

  /** The next phase; `Broken` when the callback is out of order. */
  function Next(p: Phase, e: Event): Phase {
    match e
    case MessageBegin => if p.Idle? then Begun else Broken
    case HeadersComplete(fr) => if p.Request? || p.Header? then AfterHeaders(fr) else Broken
    case MessageComplete(k) =>
      if p == Counted(0) || p.Chunks? || p.Trailer? then AfterMessage(k) else Broken
    case Data(Url, _) => if p.Begun? || p.Request? then Request else Broken
    case Data(Field, _) =>
      if p.Request? || p.Header? then Header else if p.Chunks? || p.Trailer? then Trailer else Broken
    case Data(Value, _) => if p.Header? || p.Trailer? then p else Broken
    case Data(Body, b) =>
      if p.Counted? && |b| <= p.due then Counted(p.due - |b|) else if p.Chunks? then Chunks else Broken
  }

  function PhaseOf(log: seq<Event>): Phase {
    if log == [] then Idle else Next(PhaseOf(log[..|log| - 1]), log[|log| - 1])
  }

  lemma PhaseAppend(log: seq<Event>, e: Event)
    ensures PhaseOf(Append(log, e)) == Next(PhaseOf(log), e)
  {
    var l := Append(log, e);
    if e.Data? && |log| > 0 && log[|log| - 1].Data? && log[|log| - 1].kind == e.kind {
      assert l[..|l| - 1] == log[..|log| - 1];
    } else {
      assert l[..|l| - 1] == log;
    }
  }

  function EmitPhase(p: Phase, o: Outcome, ch: char): Phase {
    var q := if o.keep.Some? then Next(p, Data(o.keep.value, [ch])) else p;
    match o.call
    case Quiet => q
    case Tell(e) => Next(q, e)
    case Flush(k) => if k == Body then q else Next(q, Data(k, []))
    case Blank(k) => Next(q, Data(k, []))
  }

  lemma PhaseEmit(log: seq<Event>, o: Outcome, ch: char)
    ensures PhaseOf(Emit(log, o, ch)) == EmitPhase(PhaseOf(log), o, ch)
  {
    hide Append, Next, PhaseOf;
    var l := if o.keep.Some? then Append(log, Data(o.keep.value, [ch])) else log;
    if o.keep.Some? {
      PhaseAppend(log, Data(o.keep.value, [ch]));
    }
    match o.call {
      case Quiet =>
      case Tell(e) => PhaseAppend(l, e);
      case Flush(k) => PhaseAppend(l, Data(k, []));
      case Blank(k) => PhaseAppend(l, Data(k, []));
    }
  }

  predicate InRequest(s: State) {
    InUrl(s) || InVersion(s)
  }

  /** The phase a trace is in is told by the parser's state, its flags and the announced length. */
  predicate Tracks(f: Fields, p: Phase) {
    && (f.state.StartReq? ==> p.Idle?)
    && (f.state.Dead? ==> p.Closed?)
    && (f.state.ReqMethod? || f.state.SpacesBeforeUrl? ==> p.Begun? && !f.flags.trailing)
    && (InRequest(f.state) ==> p.Request? && !f.flags.trailing)
    && (f.state.FieldStart? || f.state.HeadersAlmostDone? ==>
          if f.flags.trailing then p.Chunks? || p.Trailer? else p.Request? || p.Header?)
    && (InHeader(f.state) && !f.state.FieldStart? ==> if f.flags.trailing then p.Trailer? else p.Header?)
    && (f.state.HeadersDone? ==> p == AfterHeaders(FramingOf(f)) && !f.flags.trailing)
    && (ChunkState(f.state) ==> p.Chunks? && !f.flags.trailing)
    && (f.state.BodyIdentity? ==> p == Counted(f.length))
    && (f.state.MessageDone? ==> p == Counted(0))
  }

  /** What a case body must leave behind. */
  predicate Keeps(f: Fields, p: Phase, o: Outcome, ch: char) {
    o.control.Fail? || Tracks(o.f, EmitPhase(p, o, ch))
  }

  lemma CaseTracks(f: Fields, ch: char, skip: Fields -> bool, p: Phase)
    requires CaseAsserts(f) && Tracks(f, p)
    ensures Keeps(f, p, Case(f, ch, skip), ch)
  {
    hide StartCase, MethodCase, UrlCase, VersionCase, HeaderCase, ChunkCase, BodyCase, HeadersCase, HeadersDoneCase;
    hide Keeps, Tracks, CaseAsserts;
    if f.state.Dead? {
      DeadTracks(f, ch, p);
    } else if f.state.StartReq? || f.state.ReqMethod? {
      MethodTracks(f, ch, p);
    } else if f.state.HeadersAlmostDone? {
      HeadersTrack(f, ch, skip, p);
    } else if f.state.HeadersDone? {
      HeadersDoneTrack(f, ch, p);
    } else if f.state == SpacesBeforeUrl || InUrl(f.state) {
      UrlTracks(f, ch, p);
    } else if InVersion(f.state) {
      VersionTracks(f, ch, p);
    } else if InHeader(f.state) {
      HeaderTracks(f, ch, p);
    } else if InChunkSize(f.state) {
      ChunkTracks(f, ch, p);
    } else {
      BodyTracks(f, ch, p);
    }
  }

  lemma DeadTracks(f: Fields, ch: char, p: Phase)
    requires f.state.Dead? && Tracks(f, p)
    ensures Keeps(f, p, Go(f), ch) && Keeps(f, p, Stop(f, ClosedConnection), ch)
  {
  }

  lemma MethodTracks(f: Fields, ch: char, p: Phase)
    requires Tracks(f, p)
    ensures f.state.StartReq? ==> Keeps(f, p, StartCase(f, ch), ch)
    ensures f.state.ReqMethod? ==> Keeps(f, p, MethodCase(f, ch), ch)
  {
    hide IsAlpha, FirstGuess, NextGuess, Name;
  }

  lemma HeadersTrack(f: Fields, ch: char, skip: Fields -> bool, p: Phase)
    requires f.state.HeadersAlmostDone? && Tracks(f, p)
    ensures Keeps(f, p, HeadersCase(f, ch, skip), ch)
  {
    hide KeepAlive;
  }

  lemma HeadersDoneTrack(f: Fields, ch: char, p: Phase)
    requires f.state.HeadersDone? && Tracks(f, p)
    ensures Keeps(f, p, HeadersDoneCase(f, ch), ch)
  {
    hide KeepAlive;
  }

  lemma UrlTracks(f: Fields, ch: char, p: Phase)
    requires f.state == SpacesBeforeUrl || InUrl(f.state)
    requires Tracks(f, p)
    ensures Keeps(f, p, UrlCase(f, ch), ch)
  {
    hide ParseUrlChar, UrlByte;
    UrlByteTracks(f, if f.state == SpacesBeforeUrl then UrlEntry(f.verb) else f.state, ch, p);
  }

  lemma UrlByteTracks(f: Fields, from: State, ch: char, p: Phase)
    requires p.Begun? || p.Request?
    requires !f.flags.trailing
    ensures Keeps(f, p, UrlByte(f, from, ch), ch)
  {
    hide ParseUrlChar;
    UrlCharStaysInUrl(from, ch);
  }

  lemma VersionTracks(f: Fields, ch: char, p: Phase)
    requires InVersion(f.state) && Tracks(f, p)
    ensures Keeps(f, p, VersionCase(f, ch), ch)
  {
  }

  lemma HeaderTracks(f: Fields, ch: char, p: Phase)
    requires InHeader(f.state) && Tracks(f, p)
    ensures Keeps(f, p, HeaderCase(f, ch), ch)
  {
    hide IsToken, Token, FieldStartCase, FieldCase, ValueStartCase, ValueCase, FinishHeader;
    FinishKeeps(f);
    if f.state.FieldStart? || f.state.HeaderField? {
      FieldTracks(f, ch, p);
    } else if f.state.HeaderValue? || f.state.DiscardWs? || f.state.ValueStart? {
      ValueTracks(f, ch, p);
    }
  }

  lemma FieldTracks(f: Fields, ch: char, p: Phase)
    requires Tracks(f, p)
    ensures f.state.FieldStart? ==> Keeps(f, p, FieldStartCase(f, ch), ch)
    ensures f.state.HeaderField? ==> Keeps(f, p, FieldCase(f, ch), ch)
  {
    hide IsToken, Token, FieldByte;
    if f.state.HeaderField? && IsToken(ch) {
      FieldByteChanges(f, Token(ch));
    }
  }

  lemma FieldByteChanges(f: Fields, c: char)
    ensures FieldByte(f, c) == f.(header := FieldByte(f, c).header, index := FieldByte(f, c).index)
  {
  }

  lemma ValueTracks(f: Fields, ch: char, p: Phase)
    requires Tracks(f, p)
    ensures f.state.DiscardWs? || f.state.ValueStart? ==> Keeps(f, p, ValueStartCase(f, ch), ch)
    ensures f.state.HeaderValue? ==> Keeps(f, p, ValueCase(f, ch), ch)
  {
    hide Keeps, Tracks, ValueStartCase, ValueCase;
    if f.state.HeaderValue? {
      InValueTracks(f, ch, p);
    } else if f.state.DiscardWs? || f.state.ValueStart? {
      ValueStartTracks(f, ch, p);
    }
  }

  lemma InValueTracks(f: Fields, ch: char, p: Phase)
    requires f.state.HeaderValue? && Tracks(f, p)
    ensures Keeps(f, p, ValueCase(f, ch), ch)
  {
    hide Lower, IsNum, Scale, ValueByte;
    ValueByteChanges(f, ch);
  }

  lemma ValueStartTracks(f: Fields, ch: char, p: Phase)
    requires (f.state.DiscardWs? || f.state.ValueStart?) && Tracks(f, p)
    ensures Keeps(f, p, ValueStartCase(f, ch), ch)
  {
    hide Lower, IsNum, Scale;
  }

  lemma ValueByteChanges(f: Fields, ch: char)
    ensures ValueByte(f, ch) == f.(header := ValueByte(f, ch).header, index := ValueByte(f, ch).index)
  {
    hide Lower;
  }

  lemma ChunkTracks(f: Fields, ch: char, p: Phase)
    requires InChunkSize(f.state) && Tracks(f, p)
    ensures Keeps(f, p, ChunkCase(f, ch), ch)
  {
    hide Unhex, Scale;
  }

  lemma BodyTracks(f: Fields, ch: char, p: Phase)
    requires f.state.BodyIdentity? || f.state.MessageDone? || f.state.ChunkData? || f.state.ChunkDataAlmostDone? || f.state.ChunkDataDone?
    requires CaseAsserts(f) && Tracks(f, p)
    ensures Keeps(f, p, BodyCase(f, ch), ch)
  {
    hide KeepAlive;
  }

  // ---------------------------------------------------------------- whole runs

  lemma TracksNotBroken(f: Fields, p: Phase)
    requires Tracks(f, p)
    ensures !p.Broken?
  {
  }

  lemma CountingTracks(f: Fields, p: Phase)
    requires Tracks(f, p)
    ensures Tracks(Counting(f), p)
  {
  }

  /** A point of a run that is sound and whose trace is in order. */
  predicate Ordered(pt: Point) {
    PointSound(pt) && Tracks(pt.f, PhaseOf(pt.log))
  }

  lemma StepOrdered(pt: Point, data: string, skip: Fields -> bool)
    requires Ordered(pt)
    ensures Ordered(Step(pt, data, skip))
  {
    hide Case, Emit, Sound, Tracks, EmitPhase, PhaseOf;
    StepSound(pt, data, skip);
    if !pt.at.Gone? && pt.pos < |data| {
      if pt.at.Between? {
        CountingTracks(pt.f, PhaseOf(pt.log));
      } else {
        var o := Case(pt.f, data[pt.pos], skip);
        PhaseEmit(pt.log, o, data[pt.pos]);
        CaseTracks(pt.f, data[pt.pos], skip, PhaseOf(pt.log));
      }
    }
  }

  /** The callbacks made up to any point of any run are in order. */
  lemma {:induction false} StepsOrdered(start: Point, data: string, skip: Fields -> bool, n: nat)
    requires Ordered(start)
    ensures Ordered(Steps(start, data, skip, n))
    decreases n
  {
    hide Ordered, Step;
    if n > 0 {
      StepsOrdered(start, data, skip, n - 1);
      StepOrdered(Steps(start, data, skip, n - 1), data, skip);
    }
  }

  /** Whatever a call ends in, an error, a refusal, a pause or an upgrade, the trace is in order; and a parser
      that can go on still tracks it. */
  lemma CallInOrder(f: Fields, data: string, log: seq<Event>, skip: Fields -> bool, f': Fields, n: nat, log': seq<Event>)
    requires Inv(f) && Tracks(f, PhaseOf(log)) && Delivers(f, data, log, skip, f', n, log')
    ensures !PhaseOf(log').Broken?
    ensures Unpaused(f').errno.OK? ==> Inv(Unpaused(f')) && Tracks(Unpaused(f'), PhaseOf(log'))
  {
    hide Sound, PhaseOf, Tracks, Steps, Follows;
    var start := Point(f, 0, Between, log);
    var pt :| Passes(start, data, skip, pt) && Halted(pt, f', n, log');
    var k: nat :| Steps(start, data, skip, k) == pt;
    StepsOrdered(start, data, skip, k);
    TracksNotBroken(pt.f, PhaseOf(pt.log));
    if ParseError(f'.errno) && log' != pt.log {
      var kind, d :| pt.log == Append(log', Data(kind, d));
      PhaseAppend(log', Data(kind, d));
    }
    FollowsInv(f, data, log, skip, f', n, log');
  }

  lemma {:induction false} CallsInOrder(f: Fields, log: seq<Event>, calls: seq<Fed>, skip: Fields -> bool)
    requires Calls(f, log, calls, skip) && (f.errno.OK? ==> Inv(f) && Tracks(f, PhaseOf(log)))
    ensures forall c <- calls :: !PhaseOf(c.log).Broken?
    decreases |calls|
  {
    hide Delivers, Inv, PhaseOf, Tracks;
    if calls != [] {
      var c := calls[0];
      CallInOrder(f, c.data, log, skip, c.f, c.n, c.log);
      CallsInOrder(Unpaused(c.f), c.log, calls[1..], skip);
    }
  }

  /** After every call of any sequence of calls, whatever the buffers and however each call ends, the
      callbacks made so far are in grammatical order. */
  lemma TraceGrammar(calls: seq<Fed>, skip: Fields -> bool)
    requires Calls(Init(), [], calls, skip)
    ensures forall c <- calls :: !PhaseOf(c.log).Broken?
  {
    hide Calls, PhaseOf, Tracks;
    InitSound();
    InitTracks();
    CallsInOrder(Init(), [], calls, skip);
  }

  lemma InitTracks()
    ensures Tracks(Init(), PhaseOf([])) && !PhaseOf([]).Broken?
  {
  }

  // ---------------------------------------------------------------- what the grammar says

  lemma {:induction false} PrefixNotBroken(log: seq<Event>, i: nat)
    requires i <= |log| && !PhaseOf(log).Broken?
    ensures !PhaseOf(log[..i]).Broken?
    decreases |log|
  {
    if i == |log| {
      assert log[..i] == log;
    } else {
      assert log[..|log| - 1][..i] == log[..i];
      PrefixNotBroken(log[..|log| - 1], i);
    }
  }

  lemma PrefixStep(log: seq<Event>, i: nat)
    requires i < |log| && !PhaseOf(log).Broken?
    ensures PhaseOf(log[..i + 1]) == Next(PhaseOf(log[..i]), log[i]) && !PhaseOf(log[..i + 1]).Broken?
  {
    PrefixNotBroken(log, i + 1);
    assert log[..i + 1][..i] == log[..i];
  }

  /** Nothing follows a message for which keep-alive is false. */
  lemma NothingAfterClose(log: seq<Event>, i: nat)
    requires !PhaseOf(log).Broken? && i < |log| && log[i] == MessageComplete(false)
    ensures i == |log| - 1
  {
    PrefixStep(log, i);
    if i + 1 < |log| {
      PrefixStep(log, i + 1);
    }
  }

  function BodyBytesIn(events: seq<Event>): nat {
    if events == [] then 0
    else BodyBytesIn(events[..|events| - 1]) +
         var e := events[|events| - 1]; if e.Data? && e.kind.Body? then |e.bytes| else 0
  }

  /** A message framed by its length delivers exactly that many body bytes before it completes. */
  lemma IdentityBodyIsExact(log: seq<Event>, i: nat, j: nat)
    requires !PhaseOf(log).Broken? && i < j < |log|
    requires log[i].HeadersComplete? && !log[i].framing.ChunkedBody? && log[j].MessageComplete?
    requires forall k | i < k < j :: !log[k].MessageComplete?
    ensures BodyBytesIn(log[i + 1..j]) == if log[i].framing.Identity? then log[i].framing.total else 0
  {
    var due := if log[i].framing.Identity? then log[i].framing.total else 0;
    PrefixStep(log, i);
    CountDown(log, i, j, due);
    PrefixStep(log, j);
  }

  lemma {:induction false} CountDown(log: seq<Event>, i: nat, k: nat, due: nat)
    requires !PhaseOf(log).Broken? && i < k < |log| && PhaseOf(log[..i + 1]) == Counted(due)
    requires forall m | i < m < k :: !log[m].MessageComplete?
    ensures BodyBytesIn(log[i + 1..k]) <= due && PhaseOf(log[..k]) == Counted(due - BodyBytesIn(log[i + 1..k]))
    decreases k
  {
    hide PhaseOf, Next;
    if k == i + 1 {
      assert log[i + 1..k] == [];
    } else {
      CountDown(log, i, k - 1, due);
      PrefixStep(log, k - 1);
      CountedStep(PhaseOf(log[..k - 1]), log[k - 1]);
      assert log[i + 1..k][..k - 1 - (i + 1)] == log[i + 1..k - 1];
      assert log[i + 1..k][k - 1 - (i + 1)] == log[k - 1];
    }
  }

  /** While body bytes are due, nothing but body data and the end can come. */
  lemma CountedStep(p: Phase, e: Event)
    requires p.Counted? && !Next(p, e).Broken? && !e.MessageComplete?
    ensures e.Data? && e.kind.Body? && |e.bytes| <= p.due && Next(p, e) == Counted(p.due - |e.bytes|)
  {
  }
}
