/** Whole sessions: a caller feeds a stream to the parser in fragments of its choice,
    re-feeds from the returned offset after a pause, and learns the same thing. */
module HttpSession {
  import opened HttpChars
  import opened HttpParser
  import opened HttpInvariant
  import opened HttpRuns
  import opened HttpSteps
  import opened HttpExecute

  /** One call: how many bytes were offered, and what the call left behind. */
  datatype CallRecord = CallRecord(offered: nat, f: Fields, n: nat, log: seq<Event>)

  /** Every call was offered a non-empty piece of the stream starting at the first byte
      not yet consumed, and followed the contract of `Parser.Execute`.  A paused parser is
      unpaused before the next call; a rejected byte ends the session.  No request asks
      for an upgrade, and the size limit is not hit. */
  ghost predicate Session(input: string, pos: nat, f: Fields, log: seq<Event>, calls: seq<CallRecord>, skip: Fields -> bool)
    decreases |calls|
  {
    && pos <= |input|
    && (calls != [] ==>
          var c := calls[0];
          && 0 < c.offered <= |input| - pos && c.n <= c.offered
          && Delivers(f, input[pos..pos + c.offered], log, skip, c.f, c.n, c.log)
          && !c.f.upgrade && !c.f.errno.CallbackFailed? && !c.f.errno.HeaderOverflow?
          && (ParseError(c.f.errno) ==> |calls| == 1)
          && Session(input, pos + c.n, if c.f.errno.Paused? then c.f.(errno := OK) else c.f, c.log, calls[1..], skip))
  }

  /** Where a session stands. */
  function Ending(pos: nat, f: Fields, log: seq<Event>, calls: seq<CallRecord>): CallRecord
    decreases |calls|
  {
    if calls == [] then CallRecord(0, f, pos, log)
    else
      var c := calls[0];
      Ending(pos + c.n, if c.f.errno.Paused? then c.f.(errno := OK) else c.f, c.log, calls[1..])
  }

  function Unpaused(f: Fields): Fields {
    if f.errno.Paused? then f.(errno := OK) else f
  }

  /** One call on a buffer of any content, and what it left behind. */
  datatype Fed = Fed(data: string, f: Fields, n: nat, log: seq<Event>)

  /** Calls on any buffers, one after the other, on a parser that is unpaused when it was paused; the
      last one may end in any way at all: in an error, a refused callback, a pause or an upgrade. */
  ghost predicate Calls(f: Fields, log: seq<Event>, calls: seq<Fed>, skip: Fields -> bool)
    decreases |calls|
  {
    calls != [] ==>
      var c := calls[0];
      && f.errno.OK? && c.data != []
      && Delivers(f, c.data, log, skip, c.f, c.n, c.log)
      && Calls(Unpaused(c.f), c.log, calls[1..], skip)
  }

  lemma FollowsInv(f: Fields, data: string, log: seq<Event>, skip: Fields -> bool, f': Fields, n: nat, log': seq<Event>)
    requires Delivers(f, data, log, skip, f', n, log')
    ensures Unpaused(f').errno.OK? ==> Inv(Unpaused(f'))
  {
    hide Inv, RunAll, Resumes, CutShort, Stops;
  }

  predicate NeverPaused(calls: seq<CallRecord>) {
    forall c <- calls :: !c.f.errno.Paused?
  }

  /** What the reference run over the stream says about a session that stands at `e`. */
  ghost predicate Agrees(r: Run, pos: nat, e: CallRecord) {
    && SameButCount(r.f, e.f) && r.f.nread <= e.f.nread && pos + r.used == e.n
    && (if ParseError(e.f.errno) then r.end == Failed && CutShort(e.log, r.log)
        else r.end == Finished && r.log == e.log)
  }

  lemma ExitUpgrades(f: Fields, ch: char, skip: Fields -> bool)
    requires Case(f, ch, skip).control.Exit?
    ensures Case(f, ch, skip).f.upgrade && f.state.HeadersDone?
  {
    hide FieldStartCase, FieldCase, ValueStartCase, ValueCase, ChunkCase, VersionCase, UrlCase, StartCase, MethodCase;
    NoExit(f, ch);
  }

  lemma NoExit(f: Fields, ch: char)
    ensures !FieldStartCase(f, ch).control.Exit? && !FieldCase(f, ch).control.Exit?
    ensures !ValueStartCase(f, ch).control.Exit? && !ValueCase(f, ch).control.Exit?
  {
    hide IsToken, Token, IsNum, FieldByte, ValueByte, Scale, Lower;
  }

  lemma SettleLeftUpgrades(f: Fields, ch: char, log: seq<Event>, skip: Fields -> bool)
    ensures Settle(f, ch, log, skip).end == Left ==> Settle(f, ch, log, skip).f.upgrade
    decreases Rank(f.state)
  {
    hide Case, Emit;
    var o := Case(f, ch, skip);
    if o.control.Exit? {
      ExitUpgrades(f, ch, skip);
    } else if o.control.Again? {
      AgainLowersRank(f, ch, skip);
      SettleLeftUpgrades(o.f, ch, Emit(log, o, ch), skip);
    }
  }

  lemma {:induction false} LeftUpgrades(f: Fields, data: string, log: seq<Event>, skip: Fields -> bool)
    ensures RunAll(f, data, log, skip).end == Left ==> RunAll(f, data, log, skip).f.upgrade
    decreases |data|
  {
    hide Settle;
    if data != [] {
      SettleLeftUpgrades(f.(nread := f.nread + 1), data[0], log, skip);
      SettleLeftUpgrades(f, data[0], log, skip);
      var r := RunByte(f, data[0], log, skip);
      if r.end == Finished {
        LeftUpgrades(r.f, data[1..], r.log, skip);
      }
    }
  }

  lemma FailedHasError(f: Fields, data: string, log: seq<Event>, skip: Fields -> bool)
    requires Inv(f)
    ensures var r := RunAll(f, data, log, skip);
            (r.end == Failed <==> ParseError(r.f.errno)) && (r.end != Failed ==> r.f.errno.OK?)
  {
    hide RunAll;
    RunAllSound(f, data, log, skip);
    RunAllFails(f, data, log, skip);
  }

  lemma SettleFails(f: Fields, ch: char, log: seq<Event>, skip: Fields -> bool)
    requires Sound(f) && CaseAsserts(f)
    ensures var r := Settle(f, ch, log, skip); r.end == Failed ==> ParseError(r.f.errno)
    decreases Rank(f.state)
  {
    hide Case, Emit, Sound, CaseAsserts, OutcomeFits;
    var o := Case(f, ch, skip);
    CaseKeepsSound(f, ch, skip);
    if o.control.Fail? {
      FailIsError(f, ch, skip);
    } else if o.control.Again? {
      AgainLowersRank(f, ch, skip);
      SettleFails(o.f, ch, Emit(log, o, ch), skip);
    }
  }

  lemma FailIsError(f: Fields, ch: char, skip: Fields -> bool)
    requires Case(f, ch, skip).control.Fail?
    ensures ParseError(Case(f, ch, skip).control.error)
  {
    hide HeaderCase, StartCase, MethodCase, UrlCase, VersionCase, ChunkCase, HeadersCase, HeadersDoneCase;
    if !f.state.BodyIdentity? && !f.state.ChunkData? {
      hide Case, BodyCase, OutcomeFits;
      CaseFits(f, ch, skip);
    }
  }

  lemma {:induction false} RunAllFails(f: Fields, data: string, log: seq<Event>, skip: Fields -> bool)
    requires Inv(f)
    ensures var r := RunAll(f, data, log, skip); r.end == Failed ==> ParseError(r.f.errno)
    decreases |data|
  {
    hide Settle, Sound, CaseAsserts;
    if data != [] {
      CountedSound(f);
      var g := if ParsingHeader(f.state) then f.(nread := f.nread + 1) else f;
      if !(ParsingHeader(f.state) && g.nread > MAX_HEADER_SIZE) {
        SettleFails(g, data[0], log, skip);
        SettleSound(g, data[0], log, skip);
      }
      var r := RunByte(f, data[0], log, skip);
      if r.end == Finished {
        RunAllFails(r.f, data[1..], r.log, skip);
      }
    }
  }

  /** A call that was not paused, against the rest of the stream. */
  lemma PlainCall(f: Fields, d: string, tail: string, log: seq<Event>, skip: Fields -> bool, c: CallRecord)
    requires Inv(f) && d != [] && !c.f.upgrade && (c.f.errno.OK? || ParseError(c.f.errno))
    requires Delivers(f, d, log, skip, c.f, c.n, c.log)
    ensures var r := RunAll(f, d + tail, log, skip);
            if c.f.errno.OK? then c.n == |d| && Inv(c.f) && r == Shift(RunAll(c.f, tail, c.log, skip), |d|)
            else r.f == c.f && r.used == c.n && r.end == Failed && CutShort(c.log, r.log)
  {
    hide RunAll, Inv, CutShort;
    RunAllConcat(f, d, tail, log, skip);
    FailedHasError(f, d, log, skip);
    RunAllSound(f, d, log, skip);
    LeftUpgrades(f, d, log, skip);
  }

  /** A call that was paused, given what resuming it on the rest of the stream ends in. */
  lemma PausedCall(f: Fields, d: string, tail: string, log: seq<Event>, skip: Fields -> bool, c: CallRecord)
    requires Inv(f) && d != [] && c.f.errno.Paused? && !c.f.upgrade
    requires Delivers(f, d, log, skip, c.f, c.n, c.log)
    requires RunAll(c.f.(errno := OK), d[c.n..] + tail, c.log, skip).f.errno != HeaderOverflow
    ensures SameRun(RunAll(f, d + tail, log, skip), Shift(RunAll(c.f.(errno := OK), d[c.n..] + tail, c.log, skip), c.n))
  {
    hide RunAll, Inv;
    var g := c.f.(errno := OK);
    var r1 := RunAll(f, d, log, skip);
    var q1 := RunAll(g, d[c.n..], c.log, skip);
    RunAllConcat(f, d, tail, log, skip);
    RunAllConcat(g, d[c.n..], tail, c.log, skip);
    LeftUpgrades(f, d, log, skip);
    FailedHasError(g, d[c.n..], c.log, skip);
    assert SameRun(r1, Shift(q1, c.n));
    if q1.end == Finished {
      assert q1.f == r1.f.(nread := q1.f.nread);
      RunIgnoresCount(r1.f, q1.f.nread, tail, r1.log, skip);
    }
  }

  /** Fragmentation and pauses are invisible.  However a stream is cut into calls and wherever
      callbacks pause, a session that consumes it leaves the struct of the reference run, header
      byte count aside, and has delivered exactly its joined trace; a session that rejects a byte
      rejects it at the same offset with the same error, having delivered all but a last piece. */
  lemma {:induction false} SessionAgrees(input: string, pos: nat, f: Fields, log: seq<Event>, calls: seq<CallRecord>, skip: Fields -> bool)
    requires Inv(f) && Session(input, pos, f, log, calls, skip)
    requires var e := Ending(pos, f, log, calls); e.n == |input| || ParseError(e.f.errno)
    ensures var e := Ending(pos, f, log, calls);
            Agrees(RunAll(f, input[pos..], log, skip), pos, e) && !e.f.errno.HeaderOverflow?
    ensures NeverPaused(calls) ==> RunAll(f, input[pos..], log, skip).f == Ending(pos, f, log, calls).f
    decreases |calls|
  {
    hide RunAll, Sound, Delivers, CutShort;
    var e := Ending(pos, f, log, calls);
    if calls == [] {
      NothingLeft(f, input, pos, log, skip);
    } else {
      var c := calls[0];
      var g := if c.f.errno.Paused? then c.f.(errno := OK) else c.f;
      var d, tail := input[pos..pos + c.offered], input[pos + c.offered..];
      assert input[pos..] == d + tail;
      assert input[pos + c.n..] == d[c.n..] + tail;
      if c.f.errno.Paused? {
        PausedKeepsInv(f, d, log, skip, c);
        SessionAgrees(input, pos + c.n, g, c.log, calls[1..], skip);
        PausedCall(f, d, tail, log, skip, c);
        assert !NeverPaused(calls);
      } else {
        PlainCall(f, d, tail, log, skip, c);
        if c.f.errno.OK? {
          assert d[c.n..] + tail == tail;
          SessionAgrees(input, pos + c.n, g, c.log, calls[1..], skip);
        } else {
          assert Ending(pos + c.n, g, c.log, calls[1..]) == CallRecord(0, g, pos + c.n, c.log);
        }
      }
    }
  }

  lemma NothingLeft(f: Fields, input: string, pos: nat, log: seq<Event>, skip: Fields -> bool)
    requires pos == |input|
    ensures RunAll(f, input[pos..], log, skip) == Run(f, log, 0, Finished)
  {
  }

  lemma PausedKeepsInv(f: Fields, d: string, log: seq<Event>, skip: Fields -> bool, c: CallRecord)
    requires c.f.errno.Paused? && Delivers(f, d, log, skip, c.f, c.n, c.log)
    ensures Inv(c.f.(errno := OK))
  {
    hide Inv, RunAll, Resumes;
  }

  /** Two sessions over the same stream, cut and paused in any two ways, deliver the same joined
      trace and leave the same struct but for the header byte count; without pauses, the same struct. */
  lemma SplitInvariance(input: string, f: Fields, log: seq<Event>, one: seq<CallRecord>, two: seq<CallRecord>, skip: Fields -> bool)
    requires Inv(f) && Session(input, 0, f, log, one, skip) && Session(input, 0, f, log, two, skip)
    requires Ending(0, f, log, one).n == |input| && Ending(0, f, log, one).f.errno.OK?
    requires Ending(0, f, log, two).n == |input| || ParseError(Ending(0, f, log, two).f.errno)
    ensures var a, b := Ending(0, f, log, one), Ending(0, f, log, two);
            SameButCount(a.f, b.f) && a.log == b.log && a.n == b.n &&
            (NeverPaused(one) && NeverPaused(two) ==> a.f == b.f)
  {
    hide RunAll, Inv, Session;
    SessionAgrees(input, 0, f, log, one, skip);
    SessionAgrees(input, 0, f, log, two, skip);
  }

  // ---------------------------------------------------------------- cuts without pauses

  /** Between the blank line and the end of its message, the upgrade flag may be up. */
  predicate UpgradePending(f: Fields) {
    f.upgrade ==> f.state.HeadersDone?
  }

  lemma CaseUpgrade(f: Fields, ch: char, skip: Fields -> bool)
    requires UpgradePending(f)
    ensures var o := Case(f, ch, skip);
            && (o.control.Advance? ==> !o.f.upgrade)
            && (o.control.Again? ==> UpgradePending(o.f))
  {
    hide StartCase, MethodCase, UrlCase, VersionCase, HeaderCase, ChunkCase, BodyCase, UpgradePending;
    if f.state.HeadersAlmostDone? || f.state.HeadersDone? {
      HeadersUpgrade(f, ch, skip);
    } else {
      NotPending(f);
      NotPending(Case(f, ch, skip).f);
      if f.state == SpacesBeforeUrl || InUrl(f.state) {
        UrlKeepsUpgrade(f, ch);
      } else if InHeader(f.state) {
        HeaderKeepsUpgrade(f, ch);
      } else {
        OtherKeepsUpgrade(f, ch);
      }
    }
  }

  lemma NotPending(f: Fields)
    ensures !f.state.HeadersDone? ==> (UpgradePending(f) <==> !f.upgrade)
    ensures !f.upgrade ==> UpgradePending(f)
  {
  }

  lemma HeadersUpgrade(f: Fields, ch: char, skip: Fields -> bool)
    requires UpgradePending(f)
    ensures var o := HeadersCase(f, ch, skip);
            f.state.HeadersAlmostDone? ==> (o.control.Advance? ==> !o.f.upgrade) && (o.control.Again? ==> UpgradePending(o.f))
    ensures var o := HeadersDoneCase(f, ch);
            f.state.HeadersDone? ==> (o.control.Advance? ==> !o.f.upgrade) && (o.control.Again? ==> UpgradePending(o.f))
  {
    hide KeepAlive;
  }

  lemma UrlKeepsUpgrade(f: Fields, ch: char)
    ensures UrlCase(f, ch).f.upgrade == f.upgrade
  {
    hide ParseUrlChar;
  }

  lemma HeaderKeepsUpgrade(f: Fields, ch: char)
    requires InHeader(f.state)
    ensures HeaderCase(f, ch).f.upgrade == f.upgrade
  {
    hide IsToken, Token, Lower, Scale;
  }

  lemma OtherKeepsUpgrade(f: Fields, ch: char)
    ensures StartCase(f, ch).f.upgrade == f.upgrade
    ensures f.state.ReqMethod? ==> MethodCase(f, ch).f.upgrade == f.upgrade
    ensures InVersion(f.state) ==> VersionCase(f, ch).f.upgrade == f.upgrade
    ensures ChunkCase(f, ch).f.upgrade == f.upgrade && BodyCase(f, ch).f.upgrade == f.upgrade
  {
    hide IsAlpha, FirstGuess, NextGuess, Name, Unhex, Scale, KeepAlive;
  }

  lemma SettleUpgrade(f: Fields, ch: char, log: seq<Event>, skip: Fields -> bool)
    requires UpgradePending(f)
    ensures Settle(f, ch, log, skip).end == Finished ==> !Settle(f, ch, log, skip).f.upgrade
    decreases Rank(f.state)
  {
    hide Case, Emit, UpgradePending;
    var o := Case(f, ch, skip);
    CaseUpgrade(f, ch, skip);
    if o.control.Again? {
      AgainLowersRank(f, ch, skip);
      SettleUpgrade(o.f, ch, Emit(log, o, ch), skip);
    }
  }

  /** A run that uses up its input leaves no upgrade pending. */
  lemma {:induction false} FinishedHasNoUpgrade(f: Fields, data: string, log: seq<Event>, skip: Fields -> bool)
    requires !f.upgrade && RunAll(f, data, log, skip).end == Finished
    ensures !RunAll(f, data, log, skip).f.upgrade
    decreases |data|
  {
    hide Settle;
    if data != [] {
      SettleUpgrade(f.(nread := f.nread + 1), data[0], log, skip);
      SettleUpgrade(f, data[0], log, skip);
      var r := RunByte(f, data[0], log, skip);
      if r.end == Finished {
        FinishedHasNoUpgrade(r.f, data[1..], r.log, skip);
      }
    }
  }

  /** What one call may leave, on a parser in any condition. */
  ghost predicate Called(f: Fields, data: string, log: seq<Event>, skip: Fields -> bool, c: CallRecord) {
    if f.errno.OK? then Delivers(f, data, log, skip, c.f, c.n, c.log)
    else c.f == f && c.n == 0 && c.log == log
  }

  /** The stream from `pos` on, cut into non-empty pieces that are offered one after the other whatever
      the calls return; the callbacks return normally. */
  ghost predicate Cut(input: string, pos: nat, f: Fields, log: seq<Event>, calls: seq<CallRecord>, skip: Fields -> bool)
    decreases |calls|
  {
    && pos <= |input|
    && (if calls == [] then pos == |input|
        else
          var c := calls[0];
          && 0 < c.offered <= |input| - pos
          && Called(f, input[pos..pos + c.offered], log, skip, c)
          && !c.f.errno.Paused? && !c.f.errno.CallbackFailed?
          && Cut(input, pos + c.offered, c.f, c.log, calls[1..], skip))
  }

  /** A piece of a run that uses up its input. */
  lemma PieceCall(f: Fields, d: string, tail: string, log: seq<Event>, skip: Fields -> bool, c: CallRecord)
    requires Inv(f) && !f.upgrade && Called(f, d, log, skip, c) && !c.f.errno.Paused? && !c.f.errno.CallbackFailed?
    requires RunAll(f, d + tail, log, skip).end == Finished
    ensures c.f.errno.OK? && !c.f.upgrade && c.n == |d| && Inv(c.f) && Delivers(f, d, log, skip, c.f, c.n, c.log)
    ensures RunAll(f, d + tail, log, skip) == Shift(RunAll(c.f, tail, c.log, skip), |d|)
  {
    hide RunAll, Sound, CutShort, Stops;
    RunAllConcat(f, d, tail, log, skip);
    FailedHasError(f, d, log, skip);
    RunAllSound(f, d, log, skip);
    FinishedHasNoUpgrade(f, d, log, skip);
  }

  lemma {:induction false} CutIsSession(input: string, pos: nat, f: Fields, log: seq<Event>, calls: seq<CallRecord>, skip: Fields -> bool)
    requires Inv(f) && !f.upgrade && Cut(input, pos, f, log, calls, skip)
    requires RunAll(f, input[pos..], log, skip).end == Finished
    ensures var r := RunAll(f, input[pos..], log, skip);
            Session(input, pos, f, log, calls, skip) && Ending(pos, f, log, calls) == CallRecord(0, r.f, |input|, r.log)
    decreases |calls|
  {
    hide RunAll, Inv, Called, Delivers;
    if calls == [] {
      NothingLeft(f, input, pos, log, skip);
    } else {
      var c := calls[0];
      var d, tail := input[pos..pos + c.offered], input[pos + c.offered..];
      assert input[pos..] == d + tail;
      PieceCall(f, d, tail, log, skip, c);
      CutIsSession(input, pos + c.offered, c.f, c.log, calls[1..], skip);
    }
  }

  /** The split law.  If one call on a whole buffer ends without error and without an upgrade, then offering the
      buffer in any non-empty pieces, with callbacks that return normally, is a session that consumes all of it
      and leaves the same struct, the same joined trace, and no error anywhere. */
  lemma AnyCutAgrees(input: string, f: Fields, log: seq<Event>, whole: CallRecord, calls: seq<CallRecord>, skip: Fields -> bool)
    requires Inv(f) && !f.upgrade && input != []
    requires Delivers(f, input, log, skip, whole.f, whole.n, whole.log) && whole.f.errno.OK? && !whole.f.upgrade
    requires Cut(input, 0, f, log, calls, skip)
    ensures Session(input, 0, f, log, calls, skip)
    ensures Ending(0, f, log, calls) == CallRecord(0, whole.f, |input|, whole.log) && whole.n == |input|
  {
    hide RunAll, Sound, CutShort, Stops, Cut, Session, Ending;
    assert input[0..] == input;
    FailedHasError(f, input, log, skip);
    LeftUpgrades(f, input, log, skip);
    RunAllSound(f, input, log, skip);
    CutIsSession(input, 0, f, log, calls, skip);
  }

  // ---------------------------------------------------------------- the caller's loop

  /** One more call at the end of a session that is still open. */
  ghost predicate NextCall(input: string, e: CallRecord, c: CallRecord, skip: Fields -> bool) {
    && e.n <= |input| && 0 < c.offered <= |input| - e.n && c.n <= c.offered
    && Delivers(e.f, input[e.n..e.n + c.offered], e.log, skip, c.f, c.n, c.log)
    && !c.f.upgrade && !c.f.errno.CallbackFailed? && !c.f.errno.HeaderOverflow?
  }

  lemma {:induction false} SessionSnoc(input: string, pos: nat, f: Fields, log: seq<Event>, calls: seq<CallRecord>, c: CallRecord, skip: Fields -> bool)
    requires Session(input, pos, f, log, calls, skip)
    requires var e := Ending(pos, f, log, calls);
             e.f.errno.OK? && NextCall(input, e, c, skip)
    ensures Session(input, pos, f, log, calls + [c], skip)
    ensures Ending(pos, f, log, calls + [c]) == CallRecord(0, Unpaused(c.f), Ending(pos, f, log, calls).n + c.n, c.log)
    decreases |calls|
  {
    hide Delivers;
    if calls == [] {
      assert calls + [c] == [c] && [c][1..] == [];
      assert Session(input, pos + c.n, Unpaused(c.f), c.log, [], skip);
    } else {
      var d := calls[0];
      assert (calls + [c])[1..] == calls[1..] + [c];
      assert |calls| == 1 ==> calls[1..] == [];
      assert !ParseError(d.f.errno);
      SessionSnoc(input, pos + d.n, Unpaused(d.f), d.log, calls[1..], c, skip);
    }
  }

  /** A caller's loop: each call offers the bytes that have arrived, `sizes` says how many,
      and a paused parser is resumed at the returned offset.  Whenever the loop runs to its end
      or a byte is rejected, the calls made form a session. */
  method Feed(parser: Parser, input: string, sizes: seq<nat>, s: Settings)
    returns (consumed: nat, stopped: bool, ghost calls: seq<CallRecord>)
    requires parser.Valid() && parser.errno.OK?
    modifies parser
    ensures parser.Valid() && consumed <= |input|
    ensures !stopped ==>
              && Session(input, 0, old(parser.View()), Join(old(parser.log)), calls, s.skip)
              && Ending(0, old(parser.View()), Join(old(parser.log)), calls)
                 == CallRecord(0, parser.View(), consumed, Join(parser.log))
    ensures stopped ==> parser.upgrade || parser.errno.CallbackFailed? || parser.errno.HeaderOverflow?
  {
    hide Session, Ending, Delivers, Inv;
    ghost var f0, l0 := parser.View(), Join(parser.log);
    consumed, stopped, calls := 0, false, [];
    EmptySession(input, f0, l0, s.skip);
    for i := 0 to |sizes|
      invariant parser.Valid() && consumed <= |input| && parser.errno.OK? && !stopped
      invariant Session(input, 0, f0, l0, calls, s.skip)
      invariant Ending(0, f0, l0, calls) == CallRecord(0, parser.View(), consumed, Join(parser.log))
    {
      var offered := if sizes[i] < |input| - consumed then sizes[i] else |input| - consumed;
      if offered > 0 {
        var n := parser.Execute(input[consumed..consumed + offered], s);
        ghost var c := CallRecord(offered, parser.View(), n, Join(parser.log));
        DeliversBounds(Ending(0, f0, l0, calls).f, input[consumed..consumed + offered], Ending(0, f0, l0, calls).log, s.skip, c);
        consumed := consumed + n;
        if parser.upgrade || parser.errno.CallbackFailed? || parser.errno.HeaderOverflow? {
          stopped := true;
          return;
        }
        SessionSnoc(input, 0, f0, l0, calls, c, s.skip);
        calls := calls + [c];
        if parser.errno.Paused? {
          parser.SetPaused(false);
        }
        if !parser.errno.OK? {
          return;
        }
      }
    }
  }

  lemma EmptySession(input: string, f: Fields, log: seq<Event>, skip: Fields -> bool)
    ensures Session(input, 0, f, log, [], skip) && Ending(0, f, log, []) == CallRecord(0, f, 0, log)
  {
  }

  lemma DeliversBounds(f: Fields, d: string, log: seq<Event>, skip: Fields -> bool, c: CallRecord)
    requires Delivers(f, d, log, skip, c.f, c.n, c.log)
    ensures c.n <= |d|
    ensures c.f.errno.Paused? ==> Inv(c.f.(errno := OK))
  {
    hide Inv, RunAll, Resumes, CutShort;
  }
}
