/** The URLs the request parser delivers, over whole runs: the text handed out since the
    message began takes the URL machine exactly where the request parser is, so a URL
    that `http_parser_execute` let through never sends `http_parser_parse_url` to its
    dead state. */
module HttpUrlRuns {
  import opened HttpChars
  import opened HttpParser
  import opened HttpInvariant
  import opened HttpMessages
  import opened HttpUrl
  import opened HttpHost
  import opened HttpUrlParse

  /** The URL text delivered since the last message began. */
  function CurrentUrl(log: seq<Event>): string {
    if log == [] then ""
    else NextUrl(CurrentUrl(log[..|log| - 1]), log[|log| - 1])
  }

  function NextUrl(u: string, e: Event): string {
    if e.MessageBegin? then "" else if e.Data? && e.kind.Url? then u + e.bytes else u
  }

  lemma UrlAppend(log: seq<Event>, e: Event)
    ensures CurrentUrl(Append(log, e)) == NextUrl(CurrentUrl(log), e)
  {
    var n := |log| - 1;
    if e.Data? && n >= 0 && log[n].Data? && log[n].kind == e.kind {
      var l := Append(log, e);
      assert l[..|l| - 1] == log[..n];
      if e.kind.Url? {
        assert CurrentUrl(log[..n]) + log[n].bytes + e.bytes == CurrentUrl(log[..n]) + (log[n].bytes + e.bytes);
      }
    } else {
      assert (log + [e])[..|log|] == log;
    }
  }

  function EmitUrl(u: string, o: Outcome, ch: char): string {
    var v := if o.keep == Some(Url) then u + [ch] else u;
    if o.call.Tell? then NextUrl(v, o.call.event) else v
  }

  lemma UrlEmit(log: seq<Event>, o: Outcome, ch: char)
    ensures CurrentUrl(Emit(log, o, ch)) == EmitUrl(CurrentUrl(log), o, ch)
  {
    hide Append, CurrentUrl;
    var l := if o.keep.Some? then Append(log, Data(o.keep.value, [ch])) else log;
    if o.keep.Some? {
      UrlAppend(log, Data(o.keep.value, [ch]));
    }
    match o.call {
      case Quiet =>
      case Tell(e) => UrlAppend(l, e);
      case Flush(k) => UrlAppend(l, Data(k, []));
      case Blank(k) => UrlAppend(l, Data(k, []));
    }
  }

  /** Past the URL of a message. */
  predicate Late(s: State) {
    !s.StartReq? && !s.Dead? && !s.ReqMethod? && !s.SpacesBeforeUrl? && !InUrl(s)
  }

  predicate UrlTracked(f: Fields, u: string) {
    if f.state.ReqMethod? || f.state.SpacesBeforeUrl? then u == ""
    else if InUrl(f.state) then u != "" && UrlState(UrlEntry(f.verb), u) == f.state
    else GoodUrl(f.verb, u) || (!Late(f.state) && u == "")
  }

  predicate KeepsUrl(f: Fields, u: string, o: Outcome, ch: char) {
    o.control.Fail? || UrlTracked(o.f, EmitUrl(u, o, ch))
  }

  /** What the cases after the URL leave alone. */
  predicate StaysLate(f: Fields, o: Outcome) {
    o.control.Fail? ||
    (o.f.verb == f.verb && o.keep != Some(Url) && (o.call.Tell? ==> !o.call.event.MessageBegin? && !o.call.event.Data?) &&
     (Late(o.f.state) || o.f.state.StartReq? || o.f.state.Dead?))
  }

  lemma LateCase(f: Fields, ch: char, skip: Fields -> bool)
    requires Late(f.state)
    ensures StaysLate(f, Case(f, ch, skip))
  {
    hide StartCase, MethodCase, UrlCase, VersionCase, HeaderCase, ChunkCase, BodyCase, HeadersCase, HeadersDoneCase, StaysLate;
    if f.state.HeadersAlmostDone? || f.state.HeadersDone? {
      LateHeaders(f, ch, skip);
    } else if InVersion(f.state) {
      LateVersion(f, ch);
    } else if InHeader(f.state) {
      LateHeader(f, ch);
    } else if InChunkSize(f.state) {
      LateChunk(f, ch);
    } else {
      LateBody(f, ch);
    }
  }

  lemma LateHeaders(f: Fields, ch: char, skip: Fields -> bool)
    ensures f.state.HeadersAlmostDone? ==> StaysLate(f, HeadersCase(f, ch, skip))
    ensures f.state.HeadersDone? ==> StaysLate(f, HeadersDoneCase(f, ch))
  {
    hide KeepAlive;
  }

  lemma LateVersion(f: Fields, ch: char)
    requires InVersion(f.state)
    ensures StaysLate(f, VersionCase(f, ch))
  {
  }

  lemma LateHeader(f: Fields, ch: char)
    requires InHeader(f.state)
    ensures StaysLate(f, HeaderCase(f, ch))
  {
    hide IsToken, Token, FieldByte, FieldStartCase, FieldCase, ValueStartCase, ValueCase, FinishHeader;
    FinishKeeps(f);
    if f.state.FieldStart? || f.state.HeaderField? {
      LateField(f, ch);
    } else if f.state.HeaderValue? || f.state.DiscardWs? || f.state.ValueStart? {
      LateValue(f, ch);
    }
  }

  lemma LateField(f: Fields, ch: char)
    ensures f.state.FieldStart? ==> StaysLate(f, FieldStartCase(f, ch))
    ensures f.state.HeaderField? ==> StaysLate(f, FieldCase(f, ch))
  {
    hide IsToken, Token;
  }

  lemma LateValue(f: Fields, ch: char)
    ensures f.state.DiscardWs? || f.state.ValueStart? ==> StaysLate(f, ValueStartCase(f, ch))
    ensures f.state.HeaderValue? ==> StaysLate(f, ValueCase(f, ch))
  {
    hide Lower, IsNum, Scale;
  }

  lemma LateChunk(f: Fields, ch: char)
    requires InChunkSize(f.state)
    ensures StaysLate(f, ChunkCase(f, ch))
  {
    hide Unhex, Scale;
  }

  lemma LateBody(f: Fields, ch: char)
    requires f.state.BodyIdentity? || f.state.MessageDone? || f.state.ChunkData? || f.state.ChunkDataAlmostDone? || f.state.ChunkDataDone?
    ensures StaysLate(f, BodyCase(f, ch))
  {
    hide KeepAlive;
  }

  lemma LateKeeps(f: Fields, u: string, o: Outcome, ch: char)
    requires Late(f.state) && UrlTracked(f, u) && StaysLate(f, o)
    ensures KeepsUrl(f, u, o, ch)
  {
    hide UrlState;
  }

  lemma StartUrlKeeps(f: Fields, u: string, ch: char)
    requires UrlTracked(f, u)
    ensures f.state.StartReq? ==> KeepsUrl(f, u, StartCase(f, ch), ch)
    ensures f.state.ReqMethod? ==> KeepsUrl(f, u, MethodCase(f, ch), ch)
    ensures f.state.Dead? ==> KeepsUrl(f, u, Go(f), ch) && KeepsUrl(f, u, Stop(f, ClosedConnection), ch)
  {
    hide IsAlpha, FirstGuess, NextGuess, Name, UrlState;
  }

  lemma UrlUrlKeeps(f: Fields, u: string, ch: char)
    requires UrlTracked(f, u) && (f.state.SpacesBeforeUrl? || InUrl(f.state))
    ensures KeepsUrl(f, u, UrlCase(f, ch), ch)
  {
    hide ParseUrlChar;
    var from := if f.state.SpacesBeforeUrl? then UrlEntry(f.verb) else f.state;
    UrlCharStaysInUrl(from, ch);
    NoUrlYet(UrlEntry(f.verb));
    UrlStateLast(UrlEntry(f.verb), u + [ch]);
    assert (u + [ch])[..|u|] == u;
    hide UrlState;
  }

  lemma CaseKeepsUrl(f: Fields, u: string, ch: char, skip: Fields -> bool)
    requires UrlTracked(f, u)
    ensures KeepsUrl(f, u, Case(f, ch, skip), ch)
  {
    hide StartCase, MethodCase, UrlCase, VersionCase, HeaderCase, ChunkCase, BodyCase, HeadersCase, HeadersDoneCase;
    hide KeepsUrl, StaysLate, UrlTracked;
    if f.state.Dead? || f.state.StartReq? || f.state.ReqMethod? {
      StartUrlKeeps(f, u, ch);
    } else if f.state == SpacesBeforeUrl || InUrl(f.state) {
      UrlUrlKeeps(f, u, ch);
    } else {
      LateCase(f, ch, skip);
      LateKeeps(f, u, Case(f, ch, skip), ch);
    }
  }

  lemma SettleKeepsUrl(f: Fields, ch: char, log: seq<Event>, skip: Fields -> bool)
    requires UrlTracked(f, CurrentUrl(log))
    ensures var r := Settle(f, ch, log, skip); r.end != Failed ==> UrlTracked(r.f, CurrentUrl(r.log))
    decreases Rank(f.state)
  {
    hide Case, Emit, EmitUrl, CurrentUrl, UrlTracked;
    var o := Case(f, ch, skip);
    UrlEmit(log, o, ch);
    CaseKeepsUrl(f, CurrentUrl(log), ch, skip);
    if o.control.Again? {
      AgainLowersRank(f, ch, skip);
      SettleKeepsUrl(o.f, ch, Emit(log, o, ch), skip);
    }
  }

  lemma TrackedAnyCount(f: Fields, n: nat, u: string)
    requires UrlTracked(f, u)
    ensures UrlTracked(f.(nread := n), u)
  {
  }

  lemma {:induction false} RunKeepsUrl(f: Fields, data: string, log: seq<Event>, skip: Fields -> bool)
    requires UrlTracked(f, CurrentUrl(log))
    ensures var r := RunAll(f, data, log, skip); r.end != Failed ==> UrlTracked(r.f, CurrentUrl(r.log))
    decreases |data|
  {
    hide Settle, CurrentUrl, UrlTracked;
    if data != [] {
      TrackedAnyCount(f, f.nread + 1, CurrentUrl(log));
      var g := if ParsingHeader(f.state) then f.(nread := f.nread + 1) else f;
      SettleKeepsUrl(g, data[0], log, skip);
      var r := RunByte(f, data[0], log, skip);
      if r.end == Finished {
        RunKeepsUrl(r.f, data[1..], r.log, skip);
      }
    }
  }

  /** In every run from the start, once the parser is past the URL the text delivered for
      it leads `http_parser_parse_url`, told whether the method is CONNECT, to none but
      the states of a URL: it can only be refused for its authority, for being more
      than host and port, or for its port. */
  lemma DeliveredUrlIsAlive(data: string, skip: Fields -> bool)
    requires var r := RunAll(Init(), data, [], skip); r.end != Failed && Late(r.f.state)
    ensures var r := RunAll(Init(), data, [], skip); var connect := r.f.verb == CONNECT; var u := CurrentUrl(r.log);
            && u != "" && UrlMayEnd(Read(Origin(connect), u).state)
            && (forall n | 0 <= n <= |u| :: Read(Origin(connect), u[..n]).state != Dead)
            && (Parses(connect, u) <==>
                  var t := TargetOf(connect, u); var q := AuthorityOf(t.authority);
                  && (t.schema != "" || t.authority != "" ==> HostMayEnd(q.state))
                  && (connect ==> AllFields(t, q.who) == {UF_HOST, UF_PORT}))
  {
    hide RunAll, CurrentUrl, UrlState, Read, Shape, AllFields, AuthorityOf, HostMayEnd, Origin;
    var r := RunAll(Init(), data, [], skip);
    NoUrl();
    RunKeepsUrl(Init(), data, [], skip);
    var u := CurrentUrl(r.log);
    ReadState(r.f.verb == CONNECT, u);
    assert UrlEntry(r.f.verb) == Entry(r.f.verb == CONNECT);
    ReadKeeps(r.f.verb == CONNECT, u);
  }

  lemma NoUrl()
    ensures CurrentUrl([]) == ""
  {
  }
}
