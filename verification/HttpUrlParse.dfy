/** The two passes together: the result struct in place, and the theorems that relate
    its fields to the URL's text. */
module HttpUrlParse {
  import opened HttpChars
  import opened HttpParser
  import opened HttpUrl
  import opened HttpHost

  // ---------------------------------------------------------------- every URL is read back

  lemma {:induction false} ReadJoin(p: Spot, x: string, y: string)
    ensures Read(p, x + y) == Read(Read(p, x), y)
  {
    hide ReadByte;
    if y == [] {
      assert x + y == x;
    } else {
      var n := |y| - 1;
      assert (x + y)[..|x + y| - 1] == x + y[..n];
      ReadJoin(p, x, y[..n]);
    }
  }

  lemma ReadNone(p: Spot)
    ensures Read(p, "") == p
  {
  }

  /** A part whose bytes all lead to the same state is filed whole. */
  lemma {:induction false} ReadPart(p: Spot, v: string, s: State)
    requires v != "" && ParseUrlChar(p.state, v[0]) == s
    requires forall i | 0 < i < |v| :: ParseUrlChar(s, v[i]) == s
    ensures Read(p, v) == Spot(s, File(p.target, s, v))
  {
    hide ParseUrlChar;
    var n := |v| - 1;
    if n == 0 {
      assert v == [v[0]] && v[..0] == [];
    } else {
      ReadPart(p, v[..n], s);
      assert v[..n] + [v[n]] == v;
    }
  }

  function AfterAuthority(v: string): State
    requires v != ""
  {
    if v[|v| - 1] == '@' then ServerWithAt else Server
  }

  lemma {:induction false} ReadAuthority(p: Spot, v: string)
    requires v != "" && AuthorityText(v) && p.state.ServerStart?
    ensures Read(p, v) == Spot(AfterAuthority(v), p.target.(authority := p.target.authority + v))
  {
    hide IsUserinfoChar, ParseUrlChar, IsAuthorityByte;
    var n := |v| - 1;
    if n == 0 {
      assert v == [v[0]] && v[..0] == [];
      AuthorityByteRead(p.state, v[0]);
    } else {
      ReadAuthority(p, v[..n]);
      AuthorityByteRead(AfterAuthority(v[..n]), v[n]);
      assert v[..n] + [v[n]] == v;
    }
  }

  lemma AuthorityByteRead(s: State, ch: char)
    requires IsAuthorityByte(ch) && (s.ServerStart? || s.Server? || (s.ServerWithAt? && ch != '@'))
    ensures ParseUrlChar(s, ch) == if ch == '@' then ServerWithAt else Server
  {
  }

  /** The state after a URL, and after its first `k` parts. */
  function StateAfter(connect: bool, t: Target, k: nat): State {
    if k > 7 && t.fragment != "" then Fragment
    else if k > 6 && t.hashes > 0 then FragmentStart
    else if k > 5 && t.query != "" then Query
    else if k > 4 && t.mark then QueryStart
    else if k > 3 && t.path != "" then Path
    else if k > 2 && t.authority != "" then AfterAuthority(t.authority)
    else if k > 1 && t.schema != "" then ServerStart
    else if k > 0 && t.schema != "" then Schema
    else Entry(connect)
  }

  function Cut(t: Target, k: nat): Target {
    Target(if k > 0 then t.schema else "", if k > 1 then t.slashes else 0, if k > 2 then t.authority else "",
           if k > 3 then t.path else "", k > 4 && t.mark, if k > 5 then t.query else "",
           if k > 6 then t.hashes else 0, if k > 7 then t.fragment else "")
  }

  lemma {:induction false} PartsRead(connect: bool, t: Target, k: nat)
    requires GoodTarget(connect, t) && AuthorityText(t.authority) && k <= 8
    ensures Read(Origin(connect), Upto(TargetParts(t), k)) == Spot(StateAfter(connect, t, k), Cut(t, k))
  {
    hide Read, ReadByte, ParseUrlChar, StateAfter, Cut, Parts, AuthorityText, TargetParts, GoodTarget;
    if k == 0 {
      ReadNone(Origin(connect));
      NothingRead(connect, t);
    } else {
      PartsRead(connect, t, k - 1);
      ReadJoin(Origin(connect), Upto(TargetParts(t), k - 1), TargetParts(t)[k - 1]);
      PartRead(connect, t, k - 1);
    }
  }

  lemma NothingRead(connect: bool, t: Target)
    ensures StateAfter(connect, t, 0) == Entry(connect) && Cut(t, 0) == NOTHING
  {
  }

  lemma PartRead(connect: bool, t: Target, k: nat)
    requires GoodTarget(connect, t) && AuthorityText(t.authority) && k < 8
    ensures Read(Spot(StateAfter(connect, t, k), Cut(t, k)), TargetParts(t)[k]) == Spot(StateAfter(connect, t, k + 1), Cut(t, k + 1))
  {
    hide *;
    if k <= 2 {
      FrontRead(connect, t, k);
    } else if k <= 4 {
      MiddleRead(connect, t, k);
    } else {
      EndRead(connect, t, k);
    }
  }

  lemma FrontRead(connect: bool, t: Target, k: nat)
    requires GoodTarget(connect, t) && AuthorityText(t.authority) && k <= 2
    ensures Read(Spot(StateAfter(connect, t, k), Cut(t, k)), TargetParts(t)[k]) == Spot(StateAfter(connect, t, k + 1), Cut(t, k + 1))
  {
    hide Read, ReadByte, AuthorityText, IsAlpha, IsUserinfoChar, ParseUrlChar;
    var p := Spot(StateAfter(connect, t, k), Cut(t, k));
    if TargetParts(t)[k] == "" {
      ReadNone(p);
    } else if k == 0 {
      SchemaBytes(t.schema);
      ReadPart(p, t.schema, Schema);
    } else if k == 1 {
      assert TargetParts(t)[1] == "://";
      SlashesRead(p);
    } else {
      ReadAuthority(p, t.authority);
    }
  }

  lemma MiddleRead(connect: bool, t: Target, k: nat)
    requires GoodTarget(connect, t) && 3 <= k <= 4
    ensures Read(Spot(StateAfter(connect, t, k), Cut(t, k)), TargetParts(t)[k]) == Spot(StateAfter(connect, t, k + 1), Cut(t, k + 1))
  {
    hide Read, ReadByte, IsAlpha, IsUrlChar, ParseUrlChar;
    var p := Spot(StateAfter(connect, t, k), Cut(t, k));
    if TargetParts(t)[k] == "" {
      ReadNone(p);
    } else if k == 3 {
      PathBytes(p.state, t.path);
      ReadPart(p, t.path, Path);
    } else {
      MarkByte(p.state);
      ReadPart(p, "?", QueryStart);
    }
  }

  lemma QueryRead(connect: bool, t: Target)
    requires GoodTarget(connect, t)
    ensures Read(Spot(StateAfter(connect, t, 5), Cut(t, 5)), t.query) == Spot(StateAfter(connect, t, 6), Cut(t, 6))
  {
    hide Read, ReadByte, IsAlpha, IsUrlChar, IsTail, ParseUrlChar;
    var p := Spot(StateAfter(connect, t, 5), Cut(t, 5));
    if t.query == "" {
      ReadNone(p);
    } else {
      QueryBytes(t.query);
      ReadPart(p, t.query, Query);
    }
  }

  lemma HashesRead(connect: bool, t: Target)
    requires GoodTarget(connect, t)
    ensures Read(Spot(StateAfter(connect, t, 6), Cut(t, 6)), Hashes(t.hashes)) == Spot(StateAfter(connect, t, 7), Cut(t, 7))
  {
    hide Read, ReadByte, IsAlpha, IsUrlChar, IsTail, ParseUrlChar;
    var p := Spot(StateAfter(connect, t, 6), Cut(t, 6));
    if Hashes(t.hashes) == "" {
      ReadNone(p);
    } else {
      HashBytes(p.state, Hashes(t.hashes));
      ReadPart(p, Hashes(t.hashes), FragmentStart);
    }
  }

  lemma FragmentRead(connect: bool, t: Target)
    requires GoodTarget(connect, t)
    ensures Read(Spot(StateAfter(connect, t, 7), Cut(t, 7)), t.fragment) == Spot(StateAfter(connect, t, 8), Cut(t, 8))
  {
    hide Read, ReadByte, IsAlpha, IsUrlChar, IsTail, ParseUrlChar;
    var p := Spot(StateAfter(connect, t, 7), Cut(t, 7));
    if t.fragment == "" {
      ReadNone(p);
    } else {
      FragmentBytes(t.fragment);
      ReadPart(p, t.fragment, Fragment);
    }
  }

  lemma EndRead(connect: bool, t: Target, k: nat)
    requires GoodTarget(connect, t) && 5 <= k <= 7
    ensures Read(Spot(StateAfter(connect, t, k), Cut(t, k)), TargetParts(t)[k]) == Spot(StateAfter(connect, t, k + 1), Cut(t, k + 1))
  {
    hide Read, StateAfter, Cut, GoodTarget;
    if k == 5 {
      QueryRead(connect, t);
    } else if k == 6 {
      HashesRead(connect, t);
    } else {
      FragmentRead(connect, t);
    }
  }

  lemma SchemaBytes(v: string)
    requires forall i | 0 <= i < |v| :: IsAlpha(v[i])
    ensures forall i | 0 <= i < |v| :: ParseUrlChar(SpacesBeforeUrl, v[i]) == ParseUrlChar(Schema, v[i]) == Schema
  {
  }

  lemma SlashesRead(p: Spot)
    requires p.state.Schema? && p.target.slashes == 0
    ensures Read(p, "://") == Spot(ServerStart, p.target.(slashes := 3))
  {
    hide Read;
    var q := Spot(SchemaSlash, p.target.(slashes := 1));
    var r := Spot(SchemaSlashSlash, p.target.(slashes := 2));
    ReadPart(p, ":", SchemaSlash);
    ReadPart(q, "/", SchemaSlashSlash);
    ReadPart(r, "/", ServerStart);
    ReadJoin(p, ":", "/");
    ReadJoin(p, "://"[..2], "/");
    assert ":" + "/" == "://"[..2] && "://"[..2] + "/" == "://";
  }

  lemma PathBytes(s: State, v: string)
    requires forall i | 0 <= i < |v| :: IsUrlChar(v[i])
    requires v != "" && (v[0] == '/' || (v[0] == '*' && s.SpacesBeforeUrl?))
    requires s.SpacesBeforeUrl? || s.ServerStart? || s.Server? || s.ServerWithAt?
    ensures ParseUrlChar(s, v[0]) == Path
    ensures forall i | 0 < i < |v| :: ParseUrlChar(Path, v[i]) == Path
  {
  }

  lemma MarkByte(s: State)
    requires s.Server? || s.ServerWithAt? || s.Path?
    ensures ParseUrlChar(s, '?') == QueryStart
  {
  }

  lemma QueryBytes(v: string)
    requires forall i | 0 <= i < |v| :: IsUrlChar(v[i]) || v[i] == '?'
    ensures forall i | 0 <= i < |v| :: ParseUrlChar(QueryStart, v[i]) == ParseUrlChar(Query, v[i]) == Query
  {
  }

  lemma HashBytes(s: State, v: string)
    requires s.Path? || s.QueryStart? || s.Query?
    ensures ParseUrlChar(s, '#') == ParseUrlChar(FragmentStart, '#') == FragmentStart
  {
  }

  lemma FragmentBytes(v: string)
    requires v != "" && v[0] != '#' && forall i | 0 <= i < |v| :: IsTail(v[i])
    ensures ParseUrlChar(FragmentStart, v[0]) == Fragment
    ensures forall i | 0 < i < |v| :: ParseUrlChar(Fragment, v[i]) == Fragment
  {
  }

  lemma TargetRoundTrip(connect: bool, t: Target)
    requires GoodTarget(connect, t) && AuthorityText(t.authority)
    ensures Read(Origin(connect), Spell(t)) == Spot(StateAfter(connect, t, 8), t)
    ensures StateAfter(connect, t, 8) != Dead
  {
    hide Read, ReadByte, Parts, AuthorityText, TargetParts, GoodTarget;
    PartsRead(connect, t, 8);
  }

  // ---------------------------------------------------------------- fields of the result

  const UF_SCHEMA: nat := 0
  const UF_HOST: nat := 1
  const UF_PORT: nat := 2
  const UF_PATH: nat := 3
  const UF_QUERY: nat := 4
  const UF_FRAGMENT: nat := 5
  const UF_USERINFO: nat := 6
  const UF_MAX: nat := 7

  /** The field a state files under; `UF_MAX` for the states that skip a delimiter. */
  function FieldOf(s: State): nat {
    if s.Schema? then UF_SCHEMA
    else if s.Server? || s.ServerWithAt? then UF_HOST
    else if s.Path? then UF_PATH
    else if s.Query? then UF_QUERY
    else if s.Fragment? then UF_FRAGMENT
    else UF_MAX
  }

  /** The number of the part a field of the first pass holds. */
  function PartOf(uf: nat): (k: nat)
    ensures k < 8
  {
    if uf == UF_SCHEMA then 0 else if uf == UF_HOST then 2 else if uf == UF_PATH then 3
    else if uf == UF_QUERY then 5 else 7
  }

  function Spans(t: Target): (d: seq<Span>)
    ensures |d| == 7
  {
    var ps := TargetParts(t);
    [SpanIn(ps, 0, 0), SpanIn(ps, 2, 0), Span(0, 0), SpanIn(ps, 3, 0), SpanIn(ps, 5, 0), SpanIn(ps, 7, 0), Span(0, 0)]
  }

  function When(there: bool, uf: nat): set<nat> {
    if there then {uf} else {}
  }

  function FieldSet(t: Target): set<nat> {
    When(t.schema != "", UF_SCHEMA) + When(t.authority != "", UF_HOST) + When(t.path != "", UF_PATH) +
    When(t.query != "", UF_QUERY) + When(t.fragment != "", UF_FRAGMENT)
  }

  function LastField(t: Target): nat {
    if t.fragment != "" then UF_FRAGMENT
    else if t.query != "" then UF_QUERY
    else if t.path != "" then UF_PATH
    else if t.authority != "" then UF_HOST
    else if t.schema != "" then UF_SCHEMA
    else UF_MAX
  }

  /** What one byte does to the fields of the first pass. */
  lemma FieldStep(connect: bool, s: State, t: Target, ch: char)
    requires Shape(connect, s, t) && ParseUrlChar(s, ch) != Dead
    ensures var r := ParseUrlChar(s, ch); var n := File(t, r, [ch]); var uf := FieldOf(r);
            if uf == UF_MAX then Spans(n) == Spans(t) && FieldSet(n) == FieldSet(t) && LastField(n) == LastField(t)
            else
              && LastField(n) == uf && FieldSet(n) == FieldSet(t) + {uf}
              && Spans(n) == Spans(t)[uf := if uf == LastField(t) then Span(Spans(t)[uf].off, Spans(t)[uf].len + 1)
                                            else Span(|Spell(t)|, 1)]
  {
    hide ParseUrlChar, Shape, Level, TargetParts, LastField, FieldSet;
    FileAppends(connect, s, t, ch);
    Appended(TargetParts(t), Level(ParseUrlChar(s, ch)), ch, 0);
    FieldChange(connect, s, t, ch);
  }

  /** What the byte `ch` does to the fields seen so far, when it leads to `r`. */
  predicate ChangesField(t: Target, r: State, ch: char) {
    var n := File(t, r, [ch]); var uf := FieldOf(r);
    && (if uf == UF_MAX then FieldSet(n) == FieldSet(t) && LastField(n) == LastField(t)
        else LastField(n) == uf && FieldSet(n) == FieldSet(t) + {uf} && Level(r) == PartOf(uf))
    && (uf == UF_MAX ==> Level(r) == 1 || Level(r) == 4 || Level(r) == 6)
    && (uf != UF_MAX ==> (uf == LastField(t) <==> TargetParts(t)[Level(r)] != ""))
  }

  lemma EarlyFieldChange(connect: bool, s: State, t: Target, ch: char)
    requires Shape(connect, s, t) && ParseUrlChar(s, ch) != Dead
    requires s.SpacesBeforeUrl? || s.Schema? || s.SchemaSlash? || s.SchemaSlashSlash?
    ensures ChangesField(t, ParseUrlChar(s, ch), ch)
  {
    hide ParseUrlChar, Parts, AuthorityText, IsAuthorityByte, IsTail, IsUrlChar, IsAlpha;
    ByteClass(s, ch);
    ShapeStep(connect, s, t, ch);
  }

  lemma ServerFieldChange(connect: bool, s: State, t: Target, ch: char)
    requires Shape(connect, s, t) && ParseUrlChar(s, ch) != Dead && (s.ServerStart? || s.Server? || s.ServerWithAt?)
    ensures ChangesField(t, ParseUrlChar(s, ch), ch)
  {
    hide ParseUrlChar, Parts, AuthorityText, IsAuthorityByte, IsTail, IsUrlChar, IsAlpha;
    ByteClass(s, ch);
    ShapeStep(connect, s, t, ch);
  }

  lemma LateFieldChange(connect: bool, s: State, t: Target, ch: char)
    requires Shape(connect, s, t) && ParseUrlChar(s, ch) != Dead
    requires s.Path? || s.QueryStart? || s.Query? || s.FragmentStart? || s.Fragment?
    ensures ChangesField(t, ParseUrlChar(s, ch), ch)
  {
    hide ParseUrlChar, Parts, AuthorityText, IsAuthorityByte, IsTail, IsUrlChar, IsAlpha;
    ByteClass(s, ch);
    ShapeStep(connect, s, t, ch);
  }

  lemma FieldChange(connect: bool, s: State, t: Target, ch: char)
    requires Shape(connect, s, t) && ParseUrlChar(s, ch) != Dead
    ensures ChangesField(t, ParseUrlChar(s, ch), ch)
  {
    hide Shape, ChangesField;
    if s.SpacesBeforeUrl? || s.Schema? || s.SchemaSlash? || s.SchemaSlashSlash? {
      EarlyFieldChange(connect, s, t, ch);
    } else if s.ServerStart? || s.Server? || s.ServerWithAt? {
      ServerFieldChange(connect, s, t, ch);
    } else {
      LateFieldChange(connect, s, t, ch);
    }
  }

  // ---------------------------------------------------------------- what is accepted

  /** The fields of an accepted URL. */
  function AllFields(t: Target, a: Authority): set<nat> {
    FieldSet(t) + When(a.port != "", UF_PORT) + When(a.userinfo != "", UF_USERINFO)
  }

  /** The spans of an accepted URL: the host, the port and the user information lie in the authority. */
  function AllSpans(t: Target, a: Authority): (d: seq<Span>)
    ensures |d| == 7
  {
    var ps := AuthorityParts(a);
    var base := |Upto(TargetParts(t), 2)|;
    Spans(t)[UF_HOST := SpanIn(ps, 3, base)][UF_PORT := SpanIn(ps, 6, base)][UF_USERINFO := SpanIn(ps, 0, base)]
  }

  /** What the two machines and the test for CONNECT accept. */
  predicate Parses(connect: bool, url: string) {
    var p := Read(Origin(connect), url);
    var q := AuthorityOf(p.target.authority);
    && p.state != Dead
    && (p.target.schema != "" || p.target.authority != "" ==> HostMayEnd(q.state))
    && (connect ==> AllFields(p.target, q.who) == {UF_HOST, UF_PORT})
  }

  /** The URLs of the grammar.  Beside host and port, the target of CONNECT may still have
      a lone '@' before the host and a '?' followed by nothing but '#'s after the port. */
  predicate IsUrl(connect: bool, t: Target, a: Authority) {
    && GoodTarget(connect, t)
    && (if t.authority == "" then a == NOBODY else GoodAuthority(a) && t.authority == SpellAuthority(a))
    && (connect ==> a.userinfo == "" && a.port != "" && t.path == "" && t.query == "" && t.fragment == "")
  }

  lemma NoAuthority()
    ensures AuthorityOf("") == HostSpot(HostStart, NOBODY)
    ensures AuthorityText("")
  {
  }

  /** Every URL of the grammar is accepted and taken apart into the parts it was made of. */
  lemma UrlRoundTrip(connect: bool, t: Target, a: Authority)
    requires IsUrl(connect, t, a)
    ensures Parses(connect, Spell(t))
    ensures TargetOf(connect, Spell(t)) == t && AuthorityOf(t.authority).who == a
  {
    hide Read, AuthorityOf, GoodAuthority, SpellAuthority, Spell, StateAfter, Parts, HostMayEnd, AuthorityText;
    NoAuthority();
    if t.authority != "" {
      AuthorityRoundTrip(a);
    }
    TargetRoundTrip(connect, t);
  }

  /** And an accepted URL is one of the grammar, spelt by its parts. */
  lemma ParsedIsUrl(connect: bool, url: string)
    requires Parses(connect, url)
    ensures var t := TargetOf(connect, url); IsUrl(connect, t, AuthorityOf(t.authority).who) && Spell(t) == url
  {
    hide Read, AuthorityOf, GoodAuthority, SpellAuthority, Spell, Parts, HostMayEnd, AuthorityText, Shape;
    var p := Read(Origin(connect), url);
    NoAuthority();
    ReadKeeps(connect, url);
    if HostMayEnd(AuthorityOf(p.target.authority).state) {
      AuthorityIsGood(p.target.authority);
    }
    assert !HostMayEnd(HostStart) by { HostStartIsNoEnd(); }
    GoodShape(connect, p.state, p.target);
    if connect {
      ConnectFields(p.target, AuthorityOf(p.target.authority).who);
    }
  }

  lemma HostStartIsNoEnd()
    ensures !HostMayEnd(HostStart)
  {
  }

  lemma GoodShape(connect: bool, s: State, t: Target)
    requires Shape(connect, s, t) && (t.schema != "" ==> t.authority != "") && (connect ==> t.authority != "")
    ensures GoodTarget(connect, t)
  {
    hide Parts, AuthorityText;
  }

  lemma ConnectFields(t: Target, a: Authority)
    requires AllFields(t, a) == {UF_HOST, UF_PORT}
    ensures t.authority != "" && t.schema == "" && t.path == "" && t.query == "" && t.fragment == "" && a.port != "" && a.userinfo == ""
  {
    assert UF_HOST in AllFields(t, a) && UF_PORT in AllFields(t, a);
    assert UF_SCHEMA !in AllFields(t, a) && UF_PATH !in AllFields(t, a) && UF_QUERY !in AllFields(t, a);
    assert UF_FRAGMENT !in AllFields(t, a) && UF_USERINFO !in AllFields(t, a);
  }

  /** The target of CONNECT is a host, ':' and a port, as the comment in the source has it,
      exactly when it does not start with '@' and has no '?'. */
  lemma ConnectExact(url: string)
    requires Parses(true, url)
    ensures var t := TargetOf(true, url); var a := AuthorityOf(t.authority).who;
            && url != "" && GoodAuthority(a) && a.colon
            && (url == SpellAuthority(a) && !a.at <==> url[0] != '@' && '?' !in url)
  {
    hide Parses, TargetOf, AuthorityOf, GoodAuthority, SpellAuthority;
    var t := TargetOf(true, url);
    var a := AuthorityOf(t.authority).who;
    ParsedIsUrl(true, url);
    ConnectSpelling(t);
    AuthorityBytes(a);
    ConnectFront(a);
    NoQuestion(t.authority);
    assert url[0] == t.authority[0];
    if t.mark {
      assert url[|t.authority|] == '?';
    }
  }

  lemma ConnectSpelling(t: Target)
    requires GoodTarget(true, t) && t.path == "" && t.query == "" && t.fragment == ""
    ensures Spell(t) == t.authority + if t.mark then "?" + Hashes(t.hashes) else ""
  {
    var ps := TargetParts(t);
    UptoLast(ps, 0, 2);
    assert Upto(ps, 3) == t.authority;
    UptoLast(ps, 3, 4);
    if t.mark {
      assert Upto(ps, 5) == t.authority + "?";
      UptoLast(ps, 5, 6);
      assert Upto(ps, 7) == t.authority + ("?" + Hashes(t.hashes));
      UptoLast(ps, 7, 8);
    } else {
      UptoLast(ps, 3, 8);
    }
  }

  lemma ConnectFront(a: Authority)
    requires GoodAuthority(a) && a.userinfo == "" && a.port != ""
    ensures a.colon && SpellAuthority(a) != "" && (a.at <==> SpellAuthority(a)[0] == '@')
  {
    var ps := AuthorityParts(a);
    AuthorityBytes(a);
    UptoFrom(ps, 2, 7);
    UptoLast(ps, 0, 1);
    assert Upto(ps, 2) == ps[1];
  }

  lemma NoQuestion(v: string)
    requires AuthorityText(v)
    ensures '?' !in v
  {
  }

  const LONE_AT := Authority("", true, false, "h", false, true, "1")

  lemma LoneAtSpelling()
    ensures SpellAuthority(LONE_AT) == "@h:1"
  {
    var ps := AuthorityParts(LONE_AT);
    assert ps == ["", "@", "", "h", "", ":", "1"];
    hide AuthorityParts;
    UptoLast(ps, 0, 1);
    assert Upto(ps, 2) == "@";
    UptoLast(ps, 2, 3);
    assert Upto(ps, 4) == "@h";
    UptoLast(ps, 4, 5);
    assert Upto(ps, 6) == "@h:";
  }

  lemma LoneAtGood()
    ensures GoodAuthority(LONE_AT)
  {
  }

  /** One that is not: it is accepted with the same two fields set. */
  lemma ConnectWithMore()
    ensures Parses(true, "@h:1?#")
  {
    hide SpellAuthority, GoodAuthority, Spell, Parses;
    var t := Target("", 0, "@h:1", "", true, "", 1, "");
    LoneAtSpelling();
    LoneAtGood();
    ConnectSpelling(t);
    assert t.authority + ("?" + Hashes(1)) == "@h:1?#";
    UrlRoundTrip(true, t, LONE_AT);
  }
}
