/** What the reference run makes of the pieces a request is built from: method names,
    header names, keyword values and numbers, each against a plain definition. */
module HttpSegments {
  import opened HttpChars
  import opened HttpParser
  import opened HttpRuns

  /** Feeding `s` takes the parser from `f` to `g` and the trace from `log` to `l`. */
  predicate Takes(f: Fields, s: string, log: seq<Event>, skip: Fields -> bool, g: Fields, l: seq<Event>) {
    RunAll(f, s, log, skip) == Run(g, l, |s|, Finished)
  }

  lemma Compose(f: Fields, a: string, b: string, log: seq<Event>, skip: Fields -> bool,
                g: Fields, l: seq<Event>, h: Fields, m: seq<Event>)
    requires Takes(f, a, log, skip, g, l) && Takes(g, b, l, skip, h, m)
    ensures Takes(f, a + b, log, skip, h, m)
  {
    hide RunAll;
    RunAllConcat(f, a, b, log, skip);
  }

  /** One more byte in a header state. */
  lemma OneByte(f: Fields, ch: char, log: seq<Event>, skip: Fields -> bool)
    requires ParsingHeader(f.state) && f.nread < MAX_HEADER_SIZE
    requires Case(f.(nread := f.nread + 1), ch, skip).control.Advance?
    ensures var o := Case(f.(nread := f.nread + 1), ch, skip);
            Takes(f, [ch], log, skip, o.f, Emit(log, o, ch))
  {
    hide Case, Emit;
    var r := RunByte(f, ch, log, skip);
    assert [ch][1..] == [];
    assert RunAll(r.f, [], r.log, skip) == Run(r.f, r.log, 0, Finished);
  }

  lemma MoreBytes(f: Fields, s: string, log: seq<Event>, skip: Fields -> bool, g: Fields, l: seq<Event>)
    requires |s| > 0 && Takes(f, s[..|s| - 1], log, skip, g, l)
    requires ParsingHeader(g.state) && g.nread < MAX_HEADER_SIZE
    requires Case(g.(nread := g.nread + 1), s[|s| - 1], skip).control.Advance?
    ensures var o := Case(g.(nread := g.nread + 1), s[|s| - 1], skip);
            Takes(f, s, log, skip, o.f, Emit(l, o, s[|s| - 1]))
  {
    hide Case, Emit, Takes;
    var n := |s| - 1;
    OneByte(g, s[n], l, skip);
    assert s[..n] + [s[n]] == s;
    var o := Case(g.(nread := g.nread + 1), s[n], skip);
    Compose(f, s[..n], [s[n]], log, skip, g, l, o.f, Emit(l, o, s[n]));
  }

  // ---------------------------------------------------------------- method names

  /** The method a switch comes from, and the length at which it is switched to. */
  function Parent(m: Method): Method {
    if m.CHECKOUT? || m.COPY? then CONNECT
    else if m.MOVE? || m.MERGE? || m.MSEARCH? || m.MKACTIVITY? || m.MKCALENDAR? then MKCOL
    else if m.SEARCH? then SUBSCRIBE
    else if m.PROPFIND? || m.PUT? || m.PATCH? then POST
    else if m.PURGE? then PUT
    else if m.UNSUBSCRIBE? then UNLOCK
    else if m.PROPPATCH? then PROPFIND
    else m
  }

  function Birth(m: Method): nat {
    if m.CHECKOUT? || m.MOVE? || m.MERGE? || m.MSEARCH? || m.SEARCH? || m.PROPFIND? || m.PUT? || m.PATCH? then 2
    else if m.COPY? || m.MKACTIVITY? || m.PURGE? || m.UNSUBSCRIBE? then 3
    else if m.MKCALENDAR? then 4
    else if m.PROPPATCH? then 5
    else 1
  }

  /** The guess after `i` letters of the name of `m`. */
  function GuessAt(m: Method, i: nat): Method {
    if i >= Birth(m) then m
    else if i >= Birth(Parent(m)) then Parent(m)
    else Parent(Parent(m))
  }

  /** The matcher follows the guesses: a letter either matches or switches. */
  predicate Follows(m: Method, i: nat)
    requires 1 <= i < |Name(m)|
  {
    var g := GuessAt(m, i);
    if i < |Name(g)| && Name(m)[i] == Name(g)[i] then GuessAt(m, i + 1) == g
    else NextGuess(g, i, Name(m)[i]) == Some(GuessAt(m, i + 1))
  }

  lemma NameStep(m: Method, i: nat)
    requires 1 <= i < |Name(m)|
    ensures Follows(m, i)
  {
    if i < Birth(m) {
      hide Follows, Name;
      if Parent(m) == CONNECT {
        ConnectStep(m, i);
      } else if Parent(m) == MKCOL {
        MkcolStep(m, i);
      } else if Parent(m) == POST || Parent(m) == PUT {
        PostStep(m, i);
      } else if Parent(m) == SUBSCRIBE {
        SubscribeStep(m, i);
      } else if Parent(m) == UNLOCK {
        UnlockStep(m, i);
      } else {
        PropfindStep(m, i);
      }
    } else {
      hide Name, NextGuess;
    }
  }

  lemma ConnectStep(m: Method, i: nat)
    requires 1 <= i < |Name(m)| && i < Birth(m) && Parent(m) == CONNECT
    ensures Follows(m, i)
  {
  }

  lemma MkcolStep(m: Method, i: nat)
    requires 1 <= i < |Name(m)| && i < Birth(m) && Parent(m) == MKCOL && Birth(m) > 1
    ensures Follows(m, i)
  {
    if m.MKCALENDAR? || m.MKACTIVITY? {
      assert Name(MKCOL) == "MKCOL" && Name(MKCALENDAR) == "MKCALENDAR" && Name(MKACTIVITY) == "MKACTIVITY";
    }
  }

  lemma PostStep(m: Method, i: nat)
    requires 1 <= i < |Name(m)| && i < Birth(m) && (Parent(m) == POST || Parent(m) == PUT) && Birth(m) > 1
    ensures Follows(m, i)
  {
  }

  lemma SubscribeStep(m: Method, i: nat)
    requires 1 <= i < |Name(m)| && i < Birth(m) && Parent(m) == SUBSCRIBE && Birth(m) > 1
    ensures Follows(m, i)
  {
  }

  lemma UnlockStep(m: Method, i: nat)
    requires 1 <= i < |Name(m)| && i < Birth(m) && Parent(m) == UNLOCK && Birth(m) > 1
    ensures Follows(m, i)
  {
  }

  lemma PropfindStep(m: Method, i: nat)
    requires 1 <= i < |Name(m)| && i < Birth(m) && Parent(m) == PROPFIND && Birth(m) > 1
    ensures Follows(m, i)
  {
  }

  lemma NameLengths(m: Method)
    ensures Birth(m) <= |Name(m)| <= 11 && |Name(m)| >= 3
  {
  }

  lemma FirstLetter(m: Method)
    ensures Birth(m) <= |Name(m)| <= 11 && |Name(m)| >= 3
    ensures FirstGuess(Name(m)[0]) == Some(GuessAt(m, 1)) && 'A' <= Name(m)[0] <= 'Z'
  {
    NameLengths(m);
    RootLetter(m);
    if Birth(m) > 1 {
      hide Name, FirstGuess;
      RootLetter(Parent(m));
      RootLetter(Parent(Parent(m)));
      SharedPrefix(m);
      if Birth(Parent(m)) > 1 {
        SharedPrefix(Parent(m));
      }
    }
  }

  lemma RootLetter(m: Method)
    ensures |Name(m)| >= 3 && 'A' <= Name(m)[0] <= 'Z'
    ensures Birth(m) == 1 ==> FirstGuess(Name(m)[0]) == Some(m)
  {
  }

  /** A method shares the letters before the switch with the method it comes from. */
  lemma SharedPrefix(m: Method)
    requires Birth(m) > 1
    ensures var i := Birth(m) - 1;
            i < |Name(m)| && i < |Name(Parent(m))| && Name(m)[..i] == Name(Parent(m))[..i] && Name(m)[0] == Name(Parent(m))[0]
  {
    hide Name, Parent;
    var i := Birth(m) - 1;
    SharedLetters(m);
    assert forall k | 0 <= k < i :: Name(m)[k] == Name(Parent(m))[k];
  }

  lemma SharedLetters(m: Method)
    requires Birth(m) > 1
    ensures var i, n, p := Birth(m) - 1, Name(m), Name(Parent(m));
            && i <= 4 && i < |n| && i < |p| && n[0] == p[0]
            && (i > 1 ==> n[1] == p[1]) && (i > 2 ==> n[2] == p[2]) && (i > 3 ==> n[3] == p[3])
  {
  }

  lemma NoNulInNames(m: Method, i: nat)
    requires i < |Name(m)|
    ensures Name(m)[i] == '-' || 'A' <= Name(m)[i] <= 'Z'
  {
  }

  /** The struct after `i` letters of the name of `m`. */
  function AfterLetters(f: Fields, m: Method, i: nat): Fields {
    f.(state := ReqMethod, verb := GuessAt(m, i), index := i, flags := NO_FLAGS, length := ULLONG_MAX, nread := f.nread + i)
  }

  lemma {:induction false} MethodPrefix(f: Fields, m: Method, i: nat, log: seq<Event>, skip: Fields -> bool)
    requires f.state.StartReq? && f.nread + |Name(m)| < MAX_HEADER_SIZE && 1 <= i <= |Name(m)|
    ensures Takes(f, Name(m)[..i], log, skip, AfterLetters(f, m, i), Append(log, MessageBegin))
    decreases i
  {
    hide Takes, Name, FirstGuess, NextGuess, GuessAt;
    FirstLetter(m);
    if i == 1 {
      assert Name(m)[..1] == [Name(m)[0]];
      var o := StartCase(f.(nread := f.nread + 1), Name(m)[0]);
      assert o == Outcome(AfterLetters(f, m, 1), None, Tell(MessageBegin), Advance);
      OneByte(f, Name(m)[0], log, skip);
    } else {
      MethodPrefix(f, m, i - 1, log, skip);
      var g := AfterLetters(f, m, i - 1);
      assert Name(m)[..i][..i - 1] == Name(m)[..i - 1];
      NoNulInNames(m, i - 1);
      NameStep(m, i - 1);
      assert MethodCase(g.(nread := g.nread + 1), Name(m)[i - 1]) == Go(AfterLetters(f, m, i));
      MoreBytes(f, Name(m)[..i], log, skip, g, Append(log, MessageBegin));
    }
  }

  /** Each of the 27 names, then a space, is recognised as its method. */
  lemma MethodAccepted(f: Fields, m: Method, log: seq<Event>, skip: Fields -> bool)
    requires f.state.StartReq? && f.nread + |Name(m)| < MAX_HEADER_SIZE
    ensures var n := |Name(m)|;
            Takes(f, Name(m) + [' '], log, skip,
                  AfterLetters(f, m, n).(state := SpacesBeforeUrl, verb := m, index := n + 1, nread := f.nread + n + 1),
                  Append(log, MessageBegin))
  {
    hide Takes, Name, NextGuess;
    var n := |Name(m)|;
    FirstLetter(m);
    MethodPrefix(f, m, n, log, skip);
    var s := Name(m) + [' '];
    assert s[..|s| - 1] == Name(m)[..n] && s[|s| - 1] == ' ';
    MoreBytes(f, s, log, skip, AfterLetters(f, m, n), Append(log, MessageBegin));
  }

  /** The consumed token is a prefix of the name of the current guess. */
  predicate MethodSeen(f: Fields, w: string) {
    f.state.ReqMethod? && f.index == |w| <= |Name(f.verb)| && w == Name(f.verb)[..|w|]
  }

  lemma SwitchTarget(v: Method, i: nat, ch: char)
    requires NextGuess(v, i, ch).Some?
    ensures var m := NextGuess(v, i, ch).value;
            Parent(m) == v && Birth(m) == i + 1 && i < |Name(m)| <= 11 && Name(m)[i] == ch
  {
    hide Name;
    SwitchFamily(v, i, ch);
    SwitchLetter(NextGuess(v, i, ch).value);
    NameLengths(NextGuess(v, i, ch).value);
  }

  lemma SwitchFamily(v: Method, i: nat, ch: char)
    requires NextGuess(v, i, ch).Some?
    ensures var m := NextGuess(v, i, ch).value; Parent(m) == v && Birth(m) == i + 1 > 1 && SwitchOn(m) == ch
  {
  }

  /** The byte that makes the matcher switch to `m`. */
  function SwitchOn(m: Method): char {
    if m.CHECKOUT? then 'H' else if m.COPY? || m.PROPPATCH? then 'P' else if m.MOVE? then 'O'
    else if m.MERGE? || m.SEARCH? then 'E' else if m.MSEARCH? then '-' else if m.PROPFIND? || m.PURGE? then 'R'
    else if m.PUT? then 'U' else if m.UNSUBSCRIBE? then 'S' else 'A'
  }

  lemma SwitchLetter(m: Method)
    requires Birth(m) > 1
    ensures Birth(m) - 1 < |Name(m)| && Name(m)[Birth(m) - 1] == SwitchOn(m)
  {
  }

  lemma SwitchAgrees(v: Method, i: nat, ch: char)
    requires NextGuess(v, i, ch).Some? && i <= |Name(v)|
    ensures var n := Name(NextGuess(v, i, ch).value);
            i < |n| <= 11 && n[i] == ch && n[..i] == Name(v)[..i]
  {
    hide Name, NextGuess, Parent, Birth;
    SwitchTarget(v, i, ch);
    if i > 0 {
      SharedPrefix(NextGuess(v, i, ch).value);
    }
  }

  /** The consumed token stays a prefix of the current guess, or the byte is rejected. */
  lemma MethodStep(f: Fields, w: string, ch: char)
    requires MethodSeen(f, w) && ch != ' ' && !MethodCase(f, ch).control.Fail?
    ensures MethodCase(f, ch) == Go(MethodCase(f, ch).f) && MethodSeen(MethodCase(f, ch).f, w + [ch])
    ensures MethodCase(f, ch).f.nread == f.nread
  {
    hide Name, NextGuess;
    NameLengths(f.verb);
    var n := Name(f.verb);
    if f.index < |n| && ch == n[f.index] {
      assert n[..|w| + 1] == w + [ch];
    } else {
      SwitchAgrees(f.verb, f.index, ch);
      var m := Name(NextGuess(f.verb, f.index, ch).value);
      assert m[..|w| + 1] == w + [ch];
    }
  }

  /** Sound for every token: whatever survives is a prefix of a method name. */
  lemma {:induction false} TokenIsPrefix(f: Fields, w: string, log: seq<Event>, skip: Fields -> bool)
    requires f.state.StartReq? && |w| > 0 && w[0] != CR && w[0] != LF && ' ' !in w
    requires f.nread + |w| <= MAX_HEADER_SIZE && RunAll(f, w, log, skip).end == Finished
    ensures var r := RunAll(f, w, log, skip);
            MethodSeen(r.f, w) && r.f.nread == f.nread + |w| && r.used == |w|
    decreases |w|
  {
    hide RunAll, RunByte, Name, FirstGuess, MethodCase;
    var n := |w| - 1;
    assert w == w[..n] + [w[n]];
    RunAllConcat(f, w[..n], [w[n]], log, skip);
    if n == 0 {
      assert w[..0] == [];
      EmptyRun(f, log, skip);
      FirstSurvives(f, w[0], log, skip);
      assert w == [w[0]];
    } else {
      TokenIsPrefix(f, w[..n], log, skip);
      var r := RunAll(f, w[..n], log, skip);
      LetterSurvives(r.f, w[..n], w[n], r.log, skip);
    }
  }

  lemma EmptyRun(f: Fields, log: seq<Event>, skip: Fields -> bool)
    ensures RunAll(f, [], log, skip) == Run(f, log, 0, Finished)
  {
  }

  lemma FirstSurvives(f: Fields, ch: char, log: seq<Event>, skip: Fields -> bool)
    requires f.state.StartReq? && ch != CR && ch != LF && f.nread < MAX_HEADER_SIZE
    requires RunAll(f, [ch], log, skip).end == Finished
    ensures var r := RunAll(f, [ch], log, skip); MethodSeen(r.f, [ch]) && r.f.nread == f.nread + 1 && r.used == 1
  {
    hide Name, FirstGuess;
    assert [ch][1..] == [];
    var o := StartCase(f.(nread := f.nread + 1), ch);
    assert Case(f.(nread := f.nread + 1), ch, skip) == o;
    var m := FirstGuess(ch);
    assert m.Some?;
    FirstGuessLetter(ch);
    assert Name(m.value)[..1] == [ch];
  }

  lemma FirstGuessLetter(ch: char)
    requires FirstGuess(ch).Some?
    ensures var n := Name(FirstGuess(ch).value); |n| >= 1 && n[0] == ch
  {
  }

  lemma LetterSurvives(f: Fields, w: string, ch: char, log: seq<Event>, skip: Fields -> bool)
    requires MethodSeen(f, w) && ch != ' ' && f.nread < MAX_HEADER_SIZE
    requires RunAll(f, [ch], log, skip).end == Finished
    ensures var r := RunAll(f, [ch], log, skip); MethodSeen(r.f, w + [ch]) && r.f.nread == f.nread + 1 && r.used == 1
  {
    hide Name, MethodCase;
    assert [ch][1..] == [];
    var g := f.(nread := f.nread + 1);
    assert MethodSeen(g, w);
    assert Case(g, ch, skip) == MethodCase(g, ch);
    if !MethodCase(g, ch).control.Fail? {
      MethodStep(g, w, ch);
    }
  }

  /** The URL is awaited exactly when the token is the name of a method, and that is the method. */
  lemma MethodTokenExact(f: Fields, w: string, log: seq<Event>, skip: Fields -> bool)
    requires f.state.StartReq? && |w| > 0 && w[0] != CR && w[0] != LF && ' ' !in w
    requires f.nread + |w| < MAX_HEADER_SIZE
    ensures var r := RunAll(f, w + [' '], log, skip);
            (r.end == Finished && r.f.state.SpacesBeforeUrl? <==> exists m :: w == Name(m)) &&
            (r.end == Finished ==> w == Name(r.f.verb))
  {
    hide RunAll, Name;
    var r := RunAll(f, w + [' '], log, skip);
    RunAllConcat(f, w, [' '], log, skip);
    if r.end == Finished {
      var q := RunAll(f, w, log, skip);
      TokenIsPrefix(f, w, log, skip);
      SpaceEndsName(q.f, w, q.log, skip);
    }
    if m :| w == Name(m) {
      MethodAccepted(f, m, log, skip);
    }
  }

  lemma SpaceEndsName(f: Fields, w: string, log: seq<Event>, skip: Fields -> bool)
    requires MethodSeen(f, w) && f.nread < MAX_HEADER_SIZE
    requires RunAll(f, [' '], log, skip).end == Finished
    ensures var r := RunAll(f, [' '], log, skip); w == Name(r.f.verb) && r.f.state.SpacesBeforeUrl?
  {
    hide Name, NextGuess;
    assert [' '][1..] == [];
    var g := f.(nread := f.nread + 1);
    assert Case(g, ' ', skip) == MethodCase(g, ' ');
    if f.index == |Name(f.verb)| {
      assert w == Name(f.verb);
    } else {
      NoNulInNames(f.verb, f.index);
      NoSpaceSwitch(f.verb, f.index);
    }
  }

  lemma NoSpaceSwitch(v: Method, i: nat)
    ensures NextGuess(v, i, ' ').None?
  {
  }
}
