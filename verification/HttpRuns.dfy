/** Laws of the reference run: how it composes over concatenation, how a body is read
    in bulk, and how little it depends on the byte count. */
module HttpRuns {
  import opened HttpChars
  import opened HttpParser

  function Shift(r: Run, n: nat): Run {
    r.(used := r.used + n)
  }

  /** Goes on with the rest of the input after a run that used up its own. */
  function Then(r: Run, rest: string, skip: Fields -> bool): Run {
    if r.end != Finished then r else Shift(RunAll(r.f, rest, r.log, skip), r.used)
  }

  lemma SettleUses(f: Fields, ch: char, log: seq<Event>, skip: Fields -> bool)
    ensures Settle(f, ch, log, skip).end == Finished ==> Settle(f, ch, log, skip).used == 1
    decreases Rank(f.state)
  {
    hide Case, Emit;
    var o := Case(f, ch, skip);
    if o.control == Again {
      AgainLowersRank(f, ch, skip);
      SettleUses(o.f, ch, Emit(log, o, ch), skip);
    }
  }

  lemma RunAllStep(f: Fields, data: string, log: seq<Event>, skip: Fields -> bool)
    requires data != []
    ensures RunAll(f, data, log, skip) == Then(RunByte(f, data[0], log, skip), data[1..], skip)
  {
    hide Settle;
    SettleUses(f.(nread := f.nread + 1), data[0], log, skip);
    SettleUses(f, data[0], log, skip);
  }

  lemma SingleByte(f: Fields, ch: char, log: seq<Event>, skip: Fields -> bool)
    ensures RunAll(f, [ch], log, skip) == RunByte(f, ch, log, skip)
  {
    hide RunByte;
    RunAllStep(f, [ch], log, skip);
    assert [ch][1..] == [];
  }

  /** The run over a concatenation is the run over the first part, then over the second. */
  lemma {:induction false} RunAllConcat(f: Fields, a: string, b: string, log: seq<Event>, skip: Fields -> bool)
    ensures RunAll(f, a + b, log, skip) == Then(RunAll(f, a, log, skip), b, skip)
    decreases |a|
  {
    hide RunByte;
    if a == [] {
      assert a + b == b;
    } else {
      var r := RunByte(f, a[0], log, skip);
      assert (a + b)[1..] == a[1..] + b;
      RunAllStep(f, a + b, log, skip);
      RunAllStep(f, a, log, skip);
      if r.end == Finished {
        RunAllConcat(r.f, a[1..], b, r.log, skip);
      }
    }
  }

  // ---------------------------------------------------------------- bodies in bulk

  predicate ReadsBody(f: Fields) {
    (f.state.BodyIdentity? || f.state.ChunkData?) && f.length > 0
  }

  /** The struct after `n` body bytes. */
  function AfterBody(f: Fields, n: nat): Fields
    requires n <= f.length
  {
    if n < f.length then f.(length := f.length - n)
    else f.(length := 0, state := if f.state.ChunkData? then ChunkDataAlmostDone else MessageDone)
  }

  lemma BodyByte(f: Fields, ch: char, log: seq<Event>, skip: Fields -> bool)
    requires ReadsBody(f)
    ensures var g := AfterBody(f, 1);
            var l := Append(log, Data(Body, [ch]));
            RunByte(f, ch, log, skip) ==
            if g.state.MessageDone? then Settle(g, ch, l, skip) else Run(g, l, 1, Finished)
  {
    hide HeaderCase, UrlCase, StartCase, MethodCase, VersionCase, ChunkCase;
    assert Case(f, ch, skip) == BodyCase(f, ch);
  }

  /** Bytes short of the announced length only count it down. */
  lemma {:induction false} BodyBytes(f: Fields, d: string, rest: string, log: seq<Event>, skip: Fields -> bool)
    requires ReadsBody(f) && 0 < |d| < f.length
    ensures RunAll(f, d + rest, log, skip) ==
            Shift(RunAll(AfterBody(f, |d|), rest, Append(log, Data(Body, d)), skip), |d|)
    decreases |d|
  {
    hide RunByte;
    BodyByte(f, d[0], log, skip);
    RunAllStep(f, d + rest, log, skip);
    assert (d + rest)[1..] == d[1..] + rest;
    if |d| == 1 {
      assert d == [d[0]] && d[1..] + rest == rest;
    } else {
      BodyBytes(AfterBody(f, 1), d[1..], rest, Append(log, Data(Body, [d[0]])), skip);
      AppendTwice(log, Body, [d[0]], d[1..]);
      assert [d[0]] + d[1..] == d;
    }
  }

  /** The last announced byte is re-executed as the end of the message, or ends the chunk. */
  lemma BodyWhole(f: Fields, d: string, rest: string, log: seq<Event>, skip: Fields -> bool)
    requires ReadsBody(f) && |d| == f.length
    ensures var g := AfterBody(f, |d|);
            var l := Append(log, Data(Body, d));
            RunAll(f, d + rest, log, skip) ==
            if g.state.MessageDone? then Shift(Then(Settle(g, d[|d| - 1], l, skip), rest, skip), |d| - 1)
            else Shift(RunAll(g, rest, l, skip), |d|)
  {
    hide RunByte, Settle, RunAll, Append;
    var n := |d| - 1;
    var last := d[n..] + rest;
    assert d + rest == d[..n] + last;
    assert last[0] == d[n] && last[1..] == rest;
    if n == 0 {
      assert d[..n] + last == last && d == [d[n]];
      BodyByte(f, d[n], log, skip);
      RunAllStep(f, last, log, skip);
    } else {
      BodyBytes(f, d[..n], last, log, skip);
      var l := Append(log, Data(Body, d[..n]));
      BodyByte(AfterBody(f, n), d[n], l, skip);
      RunAllStep(AfterBody(f, n), last, l, skip);
      AppendTwice(log, Body, d[..n], [d[n]]);
      assert d[..n] + [d[n]] == d;
    }
  }

  // ---------------------------------------------------------------- the byte count

  predicate SameButCount(f: Fields, g: Fields) {
    f == g.(nread := f.nread)
  }

  /** `q` ends as `r` does, having counted at least as many header bytes. */
  predicate SameRun(r: Run, q: Run) {
    SameButCount(r.f, q.f) && r.f.nread <= q.f.nread && r.log == q.log && r.used == q.used && r.end == q.end
  }

  /** Two outcomes of one case body for structs that differ only in the byte count. */
  predicate SameOutcome(f: Fields, n: nat, o: Outcome, q: Outcome) {
    && o.keep == q.keep && o.call == q.call && o.control == q.control
    && SameButCount(o.f, q.f)
    && ((o.f.nread == f.nread && q.f.nread == n) || (o.f.nread == 0 && q.f.nread == 0))
  }

  lemma CaseIgnoresCount(f: Fields, n: nat, ch: char, skip: Fields -> bool)
    ensures SameOutcome(f, n, Case(f, ch, skip), Case(f.(nread := n), ch, skip))
  {
    hide StartCase, MethodCase, UrlCase, VersionCase, HeaderCase, ChunkCase, BodyCase, HeadersCase, HeadersDoneCase, SameOutcome;
    if f.state.Dead? {
      assert SameOutcome(f, n, Case(f, ch, skip), Case(f.(nread := n), ch, skip)) by { DeadIgnoresCount(f, n); }
    } else if f.state.StartReq? || f.state.ReqMethod? {
      MethodIgnoresCount(f, n, ch);
    } else if f.state.HeadersAlmostDone? || f.state.HeadersDone? {
      HeadersIgnoreCount(f, n, ch, skip);
    } else if f.state == SpacesBeforeUrl || InUrl(f.state) {
      UrlIgnoresCount(f, n, ch);
    } else if InVersion(f.state) {
      VersionIgnoresCount(f, n, ch);
    } else if InHeader(f.state) {
      HeaderIgnoresCount(f, n, ch);
    } else if InChunkSize(f.state) {
      ChunkIgnoresCount(f, n, ch);
    } else {
      BodyIgnoresCount(f, n, ch);
    }
  }

  lemma DeadIgnoresCount(f: Fields, n: nat)
    ensures SameOutcome(f, n, Go(f), Go(f.(nread := n)))
    ensures SameOutcome(f, n, Stop(f, ClosedConnection), Stop(f.(nread := n), ClosedConnection))
  {
  }

  lemma HeadersIgnoreCount(f: Fields, n: nat, ch: char, skip: Fields -> bool)
    ensures SameOutcome(f, n, HeadersCase(f, ch, skip), HeadersCase(f.(nread := n), ch, skip))
    ensures SameOutcome(f, n, HeadersDoneCase(f, ch), HeadersDoneCase(f.(nread := n), ch))
  {
    var g := f.(state := HeadersDone, upgrade := f.flags.upgrade || f.verb == CONNECT, nread := 0);
    assert skip(g) == skip(g);
  }

  lemma MethodIgnoresCount(f: Fields, n: nat, ch: char)
    ensures SameOutcome(f, n, StartCase(f, ch), StartCase(f.(nread := n), ch))
    ensures SameOutcome(f, n, MethodCase(f, ch), MethodCase(f.(nread := n), ch))
  {
    hide IsAlpha, FirstGuess, NextGuess, Name;
  }

  lemma UrlIgnoresCount(f: Fields, n: nat, ch: char)
    ensures SameOutcome(f, n, UrlCase(f, ch), UrlCase(f.(nread := n), ch))
  {
    hide ParseUrlChar;
  }

  lemma VersionIgnoresCount(f: Fields, n: nat, ch: char)
    requires InVersion(f.state)
    ensures SameOutcome(f, n, VersionCase(f, ch), VersionCase(f.(nread := n), ch))
  {
  }

  lemma HeaderIgnoresCount(f: Fields, n: nat, ch: char)
    requires InHeader(f.state)
    ensures SameOutcome(f, n, HeaderCase(f, ch), HeaderCase(f.(nread := n), ch))
  {
    hide FieldStartCase, FieldCase;
    if f.state.FieldStart? {
      hide SameOutcome;
      FieldStartIgnoresCount(f, n, ch);
    } else if f.state.HeaderField? {
      hide SameOutcome;
      FieldIgnoresCount(f, n, ch);
    } else {
      LaterIgnoresCount(f, n, ch);
    }
  }

  lemma LaterIgnoresCount(f: Fields, n: nat, ch: char)
    requires InHeader(f.state) && !f.state.FieldStart? && !f.state.HeaderField?
    ensures SameOutcome(f, n, HeaderCase(f, ch), HeaderCase(f.(nread := n), ch))
  {
    hide ValueCase, ValueStartCase, FinishHeader, FieldStartCase, FieldCase, SameOutcome;
    ValueIgnoresCount(f, n, ch);
    if f.state.ValueStart? || f.state.HeaderValue? {
      return;
    }
    BlanksIgnoreCount(f, n, ch);
  }

  /** The states around a value. */
  lemma BlanksIgnoreCount(f: Fields, n: nat, ch: char)
    requires f.state.DiscardWs? || f.state.DiscardWsAlmostDone? || f.state.DiscardLws? || f.state.ValueLws? || f.state.HeaderAlmostDone?
    ensures SameOutcome(f, n, HeaderCase(f, ch), HeaderCase(f.(nread := n), ch))
  {
    hide ValueCase, ValueStartCase, FinishHeader, FieldStartCase, FieldCase;
    FinishIgnoresCount(f, n);
    ValueIgnoresCount(f, n, ch);
  }

  lemma FinishIgnoresCount(f: Fields, n: nat)
    ensures FinishHeader(f.(nread := n)) == FinishHeader(f).(nread := n) && FinishHeader(f).nread == f.nread
  {
  }

  lemma FieldStartIgnoresCount(f: Fields, n: nat, ch: char)
    ensures SameOutcome(f, n, FieldStartCase(f, ch), FieldStartCase(f.(nread := n), ch))
  {
    hide IsToken, Token;
  }

  lemma FieldIgnoresCount(f: Fields, n: nat, ch: char)
    ensures SameOutcome(f, n, FieldCase(f, ch), FieldCase(f.(nread := n), ch))
  {
    hide IsToken, Token, FieldByte;
    if IsToken(ch) {
      FieldByteIgnoresCount(f, n, Token(ch));
    }
  }

  lemma MatchIgnoresCount(f: Fields, n: nat, c: char)
    ensures forall keyword: string, done | |keyword| > 0 ::
              MatchKeyword(f.(nread := n), c, keyword, done) == MatchKeyword(f, c, keyword, done).(nread := n) &&
              MatchKeyword(f, c, keyword, done).nread == f.nread
  {
  }

  lemma FieldByteIgnoresCount(f: Fields, n: nat, c: char)
    ensures FieldByte(f.(nread := n), c) == FieldByte(f, c).(nread := n) && FieldByte(f, c).nread == f.nread
  {
    hide MatchKeyword;
    MatchIgnoresCount(f, n, c);
  }

  lemma ValueIgnoresCount(f: Fields, n: nat, ch: char)
    ensures SameOutcome(f, n, ValueStartCase(f, ch), ValueStartCase(f.(nread := n), ch))
    ensures SameOutcome(f, n, ValueCase(f, ch), ValueCase(f.(nread := n), ch))
  {
    hide Lower, Scale, ValueByte;
    assert ValueByte(f.(nread := n), ch) == ValueByte(f, ch).(nread := n) && ValueByte(f, ch).nread == f.nread by {
      ValueByteIgnoresCount(f, n, ch);
    }
  }

  lemma ValueByteIgnoresCount(f: Fields, n: nat, ch: char)
    ensures ValueByte(f.(nread := n), ch) == ValueByte(f, ch).(nread := n) && ValueByte(f, ch).nread == f.nread
  {
    hide Lower, MatchKeyword;
    MatchIgnoresCount(f, n, Lower(ch));
  }

  lemma ChunkIgnoresCount(f: Fields, n: nat, ch: char)
    ensures SameOutcome(f, n, ChunkCase(f, ch), ChunkCase(f.(nread := n), ch))
  {
    hide Unhex, Scale;
  }

  lemma BodyIgnoresCount(f: Fields, n: nat, ch: char)
    ensures SameOutcome(f, n, BodyCase(f, ch), BodyCase(f.(nread := n), ch))
  {
  }

  lemma SettleIgnoresCount(f: Fields, n: nat, ch: char, log: seq<Event>, skip: Fields -> bool)
    requires f.nread <= n
    ensures var r := Settle(f, ch, log, skip);
            var q := Settle(f.(nread := n), ch, log, skip);
            SameRun(r, q)
    decreases Rank(f.state)
  {
    hide Case, Emit;
    CaseIgnoresCount(f, n, ch, skip);
    var o := Case(f, ch, skip);
    var q := Case(f.(nread := n), ch, skip);
    assert Emit(log, o, ch) == Emit(log, q, ch) by { EmitAgrees(log, o, q, ch); }
    if o.control == Again {
      AgainLowersRank(f, ch, skip);
      SettleIgnoresCount(o.f, q.f.nread, ch, Emit(log, o, ch), skip);
      assert q.f == o.f.(nread := q.f.nread);
    }
  }

  lemma EmitAgrees(log: seq<Event>, o: Outcome, q: Outcome, ch: char)
    requires o.keep == q.keep && o.call == q.call
    ensures Emit(log, o, ch) == Emit(log, q, ch)
  {
  }

  /** Counting more header bytes changes nothing but the count, short of the size limit. */
  lemma {:induction false} RunIgnoresCount(f: Fields, n: nat, data: string, log: seq<Event>, skip: Fields -> bool)
    requires f.nread <= n
    requires RunAll(f.(nread := n), data, log, skip).f.errno != HeaderOverflow
    ensures SameRun(RunAll(f, data, log, skip), RunAll(f.(nread := n), data, log, skip))
    decreases |data|
  {
    hide Settle;
    if data != [] {
      var g := f.(nread := n);
      var d := if ParsingHeader(f.state) then 1 else 0;
      SettleIgnoresCount(f.(nread := f.nread + d), n + d, data[0], log, skip);
      assert f.(nread := f.nread + d).(nread := n + d) == g.(nread := n + d);
      var r := RunByte(f, data[0], log, skip);
      var q := RunByte(g, data[0], log, skip);
      if q.end == Finished {
        assert q.f == r.f.(nread := q.f.nread);
        RunIgnoresCount(r.f, q.f.nread, data[1..], r.log, skip);
      }
    }
  }
}
