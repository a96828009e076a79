/** `struct http_parser_url` and the two loops that fill it in, proved against the
    parts of the URL; the port; and what the request parser's own URLs guarantee. */
module HttpUrlFields {
  import opened HttpChars
  import opened HttpParser
  import opened HttpUrl
  import opened HttpHost
  import opened HttpUrlParse
  import opened HttpHeaders

  /** `unsigned long` is 64 bits wide. */
  const ULONG_MAX: nat := 0xFFFF_FFFF_FFFF_FFFF
  const PORT_MAX: nat := 0xFFFF

  /** The digits `strtoul` reads at `i`: as far as they go, whatever the length of the URL. */
  function DigitsAt(buf: string, i: nat): string
    decreases |buf| - i
  {
    if i < |buf| && IsNum(buf[i]) then [buf[i]] + DigitsAt(buf, i + 1) else ""
  }

  /** `strtoul(buf + i, NULL, 10)`, where the end of `buf` stands for the NUL. */
  function NumberAt(buf: string, i: nat): nat {
    var v := DecimalOf(DigitsAt(buf, i));
    if v > ULONG_MAX then ULONG_MAX else v
  }

  class UrlFields {
    var fieldSet: set<nat>
    var port: nat
    const data: array<Span>

    ghost predicate Valid()
      reads this
    {
      data.Length == 7
    }

    /** As `calloc` leaves it. */
    constructor ()
      ensures Valid() && fresh(data) && fieldSet == {} && port == 0
      ensures data[..] == seq(7, _ => Span(0, 0))
    {
      fieldSet, port := {}, 0;
      data := new Span[7](_ => Span(0, 0));
    }

    /** `http_parse_host`: the bytes the host field has covered so far are split again. */
    method ParseHost(buf: string, foundAt: bool) returns (failed: bool)
      requires Valid() && data[UF_HOST].off + data[UF_HOST].len <= |buf|
      requires data[UF_PORT] == data[UF_USERINFO] == Span(0, 0) && UF_PORT !in fieldSet && UF_USERINFO !in fieldSet
      modifies `fieldSet, data
      ensures var start := old(data[UF_HOST].off);
              var q := HostRead(HostOrigin(foundAt), buf[start..start + old(data[UF_HOST].len)]);
              && (failed <==> !HostMayEnd(q.state))
              && (!failed ==>
                    && fieldSet == old(fieldSet) + HostFields(q.who)
                    && data[..] == old(data[..])[UF_HOST := SpanIn(AuthorityParts(q.who), 3, start)]
                                                [UF_PORT := SpanIn(AuthorityParts(q.who), 6, start)]
                                                [UF_USERINFO := SpanIn(AuthorityParts(q.who), 0, start)])
    {
      hide HostRead, HostChar, HostShape, HostFile, SpellAuthority, HostOrigin, HostMarks, HostFields, Noted;
      hide AuthorityParts, SpanIn, HostMayEnd, When;
      ghost var whole := buf[data[UF_HOST].off..data[UF_HOST].off + data[UF_HOST].len];
      ghost var start := data[UF_HOST].off;
      ghost var was := data[..];
      var buflen := data[UF_HOST].off + data[UF_HOST].len;
      data[UF_HOST] := Span(data[UF_HOST].off, 0);
      var s := if foundAt then UserinfoStart else HostStart;
      var p := data[UF_HOST].off;
      ghost var q := HostOrigin(foundAt);
      assert buf[start..p] == "";
      StartHost(foundAt, was, data[..], start);
      while p < buflen
        invariant start <= p <= buflen == start + |whole| <= |buf|
        invariant q == HostRead(HostOrigin(foundAt), buf[start..p]) && q.state == s != HostDead
        invariant HostShape(foundAt, s, q.who)
        invariant |SpellAuthority(q.who)| == p - start
        invariant HostMarks(data[..], was, q.who, start)
        invariant fieldSet == old(fieldSet) + HostFields(q.who)
      {
        var newS := HostChar(s, buf[p]);
        assert buf[start..p + 1] == buf[start..p] + [buf[p]];
        ReadOneMore(HostOrigin(foundAt), buf[start..p], buf[p]);
        if newS.HostDead? {
          assert whole[..p + 1 - start] == buf[start..p + 1];
          HostStaysDead(foundAt, whole, p + 1 - start);
          DeadIsNoEnd();
          return true;
        }
        NotedStep(foundAt, s, q.who, buf[p], start, data[..], was);
        NoteByte(s, newS, p);
        q := HostSpot(newS, HostFile(q.who, newS, [buf[p]]));
        s := newS;
        p := p + 1;
      }
      assert buf[start..p] == whole;
      failed := s.HostStart? || s.V6Start? || s.V6? || s.PortStart? || s.Userinfo? || s.UserinfoStart?;
      HostEnds(foundAt, s, q.who, data[..], was, start);
    }

    /** The loop of `http_parser_parse_url` over the bytes of the URL. */
    method Scan(buf: string, buflen: nat, connect: bool) returns (failed: bool, foundAt: bool)
      requires Valid() && data[..] == seq(7, _ => Span(0, 0)) && fieldSet == {} && buflen <= |buf|
      modifies `fieldSet, data
      ensures failed <==> Read(Origin(connect), buf[..buflen]).state == Dead
      ensures var t := TargetOf(connect, buf[..buflen]);
              !failed ==> data[..] == Spans(t) && fieldSet == FieldSet(t) && (foundAt <==> '@' in t.authority)
    {
      hide Read, Origin, Shape, Spans, FieldSet, LastField, ParseUrlChar, File, Spell, When;
      var s := if connect then ServerStart else SpacesBeforeUrl;
      var uf, oldUf := UF_MAX, UF_MAX;
      foundAt := false;
      var p := 0;
      ghost var q := Spot(s, NOTHING);
      ghost var url := buf[..buflen];
      assert buf[..0] == "";
      StartUrl(connect, data[..]);
      while p < buflen
        invariant p <= buflen && data.Length == 7
        invariant q == Read(Origin(connect), buf[..p]) && q.state == s != Dead
        invariant Shape(connect, s, q.target) && |Spell(q.target)| == p
        invariant data[..] == Spans(q.target) && fieldSet == FieldSet(q.target)
        invariant uf == oldUf == LastField(q.target)
        invariant foundAt <==> '@' in q.target.authority
      {
        ghost var from := s;
        s := ParseUrlChar(s, buf[p]);
        assert buf[..p + 1] == buf[..p] + [buf[p]];
        UrlOneMore(Origin(connect), buf[..p], buf[p]);
        if s.Dead? {
          assert url[..p + 1] == buf[..p + 1];
          UrlStaysDead(connect, url, p + 1);
          return true, foundAt;
        }
        UrlByteFiled(connect, from, q.target, buf[p]);
        q := Spot(s, File(q.target, s, [buf[p]]));
        if s.SchemaSlash? || s.SchemaSlashSlash? || s.ServerStart? || s.QueryStart? || s.FragmentStart? {
          p := p + 1;
          continue;
        }
        if s.Schema? {
          uf := UF_SCHEMA;
        } else if s.ServerWithAt? {
          foundAt := true;
          uf := UF_HOST;
        } else if s.Server? {
          uf := UF_HOST;
        } else if s.Path? {
          uf := UF_PATH;
        } else if s.Query? {
          uf := UF_QUERY;
        } else if s.Fragment? {
          uf := UF_FRAGMENT;
        } else {
          assert false;
        }
        if uf == oldUf {
          data[uf] := Span(data[uf].off, data[uf].len + 1);
          p := p + 1;
          continue;
        }
        data[uf] := Span(p, 1);
        fieldSet := fieldSet + {uf};
        oldUf := uf;
        p := p + 1;
      }
      assert buf[..p] == url;
      return false, foundAt;
    }

    /** `http_parser_parse_url` into a zeroed struct.  The offsets and lengths are 16 bits
        wide, which bounds the URL; `buf` goes on past it to where the NUL would be. */
    method ParseUrl(buf: string, buflen: nat, connect: bool) returns (failed: bool)
      requires Valid() && data[..] == seq(7, _ => Span(0, 0))
      requires buflen <= |buf| && buflen <= 0xFFFF
      modifies this, data
      ensures var url := buf[..buflen];
              var t := TargetOf(connect, url);
              var a := AuthorityOf(t.authority).who;
              var number := NumberAt(buf, AllSpans(t, a)[UF_PORT].off);
              && (failed <==> !(Parses(connect, url) && (a.port != "" ==> number <= PORT_MAX)))
              && (!failed ==> fieldSet == AllFields(t, a) && data[..] == AllSpans(t, a)
                              && port == if a.port == "" then 0 else number)
    {
      hide Read, Origin, Shape, Spans, FieldSet, Parses, When, AuthorityOf;
      hide AllFields, AllSpans, HostRead, HostOrigin, HostMayEnd, HostFields, AuthorityParts, SpanIn;
      port, fieldSet := 0, {};
      ghost var url := buf[..buflen];
      var dead, foundAt := Scan(buf, buflen, connect);
      if dead {
        DeadIsRefused(connect, url);
        return true;
      }
      ghost var t := TargetOf(connect, url);
      ghost var a := AuthorityOf(t.authority);
      FirstPass(connect, url);
      SecondPass(connect, url);
      FieldsThere(t, a.who);
      if t.authority == "" {
        NoSecondPass(t);
      }
      ParsesMeans(connect, url);
      assert forall i, j | 0 <= i <= j <= buflen :: url[i..j] == buf[i..j];
      if UF_SCHEMA in fieldSet || UF_HOST in fieldSet {
        var bad := ParseHost(buf, foundAt);
        if bad {
          return true;
        }
      }
      if connect && fieldSet != {UF_HOST, UF_PORT} {
        return true;
      }
      if UF_PORT in fieldSet {
        var v := StrToUl(buf, data[UF_PORT].off);
        if v > PORT_MAX {
          return true;
        }
        port := v;
      }
      return false;
    }

    /** The switch of the host loop on the state `r` that the byte at `p` led to from `s`. */
    method NoteByte(s: HostState, r: HostState, p: nat)
      requires Valid()
      modifies `fieldSet, data
      ensures data[..] == Noted(old(data[..]), s, r, p)
      ensures fieldSet == old(fieldSet) + When(r.Port? && s != r, UF_PORT) + When(r.Userinfo? && s != r, UF_USERINFO)
    {
      if r.Host? {
        if !s.Host? { data[UF_HOST] := Span(p, data[UF_HOST].len); }
        data[UF_HOST] := Span(data[UF_HOST].off, data[UF_HOST].len + 1);
      } else if r.V6? {
        if !s.V6? { data[UF_HOST] := Span(p, data[UF_HOST].len); }
        data[UF_HOST] := Span(data[UF_HOST].off, data[UF_HOST].len + 1);
      } else if r.Port? {
        if !s.Port? {
          data[UF_PORT] := Span(p, 0);
          fieldSet := fieldSet + {UF_PORT};
        }
        data[UF_PORT] := Span(data[UF_PORT].off, data[UF_PORT].len + 1);
      } else if r.Userinfo? {
        if !s.Userinfo? {
          data[UF_USERINFO] := Span(p, 0);
          fieldSet := fieldSet + {UF_USERINFO};
        }
        data[UF_USERINFO] := Span(data[UF_USERINFO].off, data[UF_USERINFO].len + 1);
      }
    }
  }

  // ---------------------------------------------------------------- the host loop

  function Noted(d: seq<Span>, s: HostState, r: HostState, p: nat): seq<Span>
    requires |d| == 7
  {
    if r.Host? || r.V6? then d[UF_HOST := Span(if r != s then p else d[UF_HOST].off, d[UF_HOST].len + 1)]
    else if r.Port? then d[UF_PORT := if r != s then Span(p, 1) else Span(d[UF_PORT].off, d[UF_PORT].len + 1)]
    else if r.Userinfo? then
      d[UF_USERINFO := if r != s then Span(p, 1) else Span(d[UF_USERINFO].off, d[UF_USERINFO].len + 1)]
    else d
  }

  function HostFields(a: Authority): set<nat> {
    When(a.port != "", UF_PORT) + When(a.userinfo != "", UF_USERINFO)
  }

  /** The entries while the authority at `start` is being split. */
  predicate HostMarks(d: seq<Span>, was: seq<Span>, a: Authority, start: nat) {
    && |d| == |was| == 7
    && d[UF_HOST] == (if a.host == "" then Span(start, 0) else SpanIn(AuthorityParts(a), 3, start))
    && d[UF_PORT] == SpanIn(AuthorityParts(a), 6, start)
    && d[UF_USERINFO] == SpanIn(AuthorityParts(a), 0, start)
    && forall k | 0 <= k < 7 && k != UF_HOST && k != UF_PORT && k != UF_USERINFO :: d[k] == was[k]
  }

  lemma StartHost(at: bool, was: seq<Span>, d: seq<Span>, start: nat)
    requires |was| == 7 && d == was[UF_HOST := Span(start, 0)] && was[UF_PORT] == was[UF_USERINFO] == Span(0, 0)
    ensures HostShape(at, HostOrigin(at).state, NOBODY) && |SpellAuthority(NOBODY)| == 0
    ensures HostRead(HostOrigin(at), "") == HostOrigin(at) == HostSpot(if at then UserinfoStart else HostStart, NOBODY)
    ensures HostMarks(d, was, NOBODY, start) && HostFields(NOBODY) == {}
  {
    NobodyShape(at);
  }

  lemma NotedStep(at: bool, s: HostState, a: Authority, ch: char, start: nat, d: seq<Span>, was: seq<Span>)
    requires HostShape(at, s, a) && HostChar(s, ch) != HostDead && HostMarks(d, was, a, start)
    ensures var r := HostChar(s, ch); var n := HostFile(a, r, [ch]);
            && HostShape(at, r, n) && |SpellAuthority(n)| == |SpellAuthority(a)| + 1
            && HostMarks(Noted(d, s, r, start + |SpellAuthority(a)|), was, n, start)
            && HostFields(n) == HostFields(a) + When(r.Port? && s != r, UF_PORT) + When(r.Userinfo? && s != r, UF_USERINFO)
  {
    hide HostChar, HostShape, HostFile, AuthorityParts, SpellAuthority;
    HostFieldStep(at, s, a, ch, start);
  }

  lemma ReadOneMore(o: HostSpot, v: string, ch: char)
    ensures var p := HostRead(o, v); var s := HostChar(p.state, ch);
            HostRead(o, v + [ch]) == HostSpot(s, HostFile(p.who, s, [ch]))
  {
    hide HostChar, HostFile;
    assert (v + [ch])[..|v|] == v;
  }

  lemma HostStaysDead(at: bool, v: string, n: nat)
    requires n <= |v| && HostRead(HostOrigin(at), v[..n]).state == HostDead
    ensures HostRead(HostOrigin(at), v).state == HostDead
  {
    hide HostRead, HostOrigin;
    if HostRead(HostOrigin(at), v).state != HostDead {
      HostReadKeeps(at, v);
    }
  }

  lemma DeadIsNoEnd()
    ensures !HostMayEnd(HostDead)
  {
  }

  lemma HostEnds(at: bool, s: HostState, a: Authority, d: seq<Span>, was: seq<Span>, start: nat)
    requires HostShape(at, s, a) && HostMarks(d, was, a, start)
    ensures HostMayEnd(s) <==> !(s.HostStart? || s.V6Start? || s.V6? || s.PortStart? || s.Userinfo? || s.UserinfoStart?)
    ensures HostMayEnd(s) ==> d == was[UF_HOST := SpanIn(AuthorityParts(a), 3, start)]
                                      [UF_PORT := SpanIn(AuthorityParts(a), 6, start)]
                                      [UF_USERINFO := SpanIn(AuthorityParts(a), 0, start)]
  {
    hide IsUserinfoChar, IsHostChar, IsAddressByte, IsNum, Upto;
    if HostMayEnd(s) {
      assert a.host != "";
      hide HostShape;
    }
  }

  /** What one byte of the authority does to the fields of the second pass. */
  lemma HostFieldStep(at: bool, s: HostState, a: Authority, ch: char, base: nat)
    requires HostShape(at, s, a) && HostChar(s, ch) != HostDead
    ensures var r := HostChar(s, ch); var n := HostFile(a, r, [ch]);
            var ps, qs := AuthorityParts(a), AuthorityParts(n);
            var end := base + |SpellAuthority(a)|;
            && HostShape(at, r, n)
            && |SpellAuthority(n)| == |SpellAuthority(a)| + 1
            && (if r.Host? || r.V6? then
                  && (a.host == "" <==> r != s) && n.host != ""
                  && SpanIn(qs, 3, base) == if r != s then Span(end, 1) else Span(SpanIn(ps, 3, base).off, SpanIn(ps, 3, base).len + 1)
                else n.host == a.host && SpanIn(qs, 3, base) == SpanIn(ps, 3, base))
            && (if r.Port? then
                  && (a.port == "" <==> r != s) && n.port != ""
                  && SpanIn(qs, 6, base) == if r != s then Span(end, 1) else Span(SpanIn(ps, 6, base).off, SpanIn(ps, 6, base).len + 1)
                else n.port == a.port && SpanIn(qs, 6, base) == SpanIn(ps, 6, base))
            && (if r.Userinfo? then
                  && (a.userinfo == "" <==> r != s) && n.userinfo != ""
                  && SpanIn(qs, 0, base) == if r != s then Span(end, 1) else Span(SpanIn(ps, 0, base).off, SpanIn(ps, 0, base).len + 1)
                else n.userinfo == a.userinfo && SpanIn(qs, 0, base) == SpanIn(ps, 0, base))
  {
    hide IsUserinfoChar, IsHostChar, IsAddressByte, IsNum, Joined, Upto;
    HostShapeStep(at, s, a, ch);
    HostAppends(at, s, a, ch);
    var ps := AuthorityParts(a);
    Appended(ps, HostLevel(HostChar(s, ch)), ch, base);
    assert ps[3] == a.host && ps[6] == a.port && ps[0] == a.userinfo;
  }

  /** `strtoul(buf + i, NULL, 10)` at a digit. */
  method StrToUl(buf: string, i: nat) returns (v: nat)
    requires i <= |buf|
    ensures v == NumberAt(buf, i)
  {
    var end := i;
    v := 0;
    while end < |buf| && IsNum(buf[end])
      invariant i <= end <= |buf|
      invariant DigitsAt(buf, i) == buf[i..end] + DigitsAt(buf, end)
      invariant v == DecimalOf(buf[i..end])
    {
      assert buf[i..end + 1] == buf[i..end] + [buf[end]];
      assert buf[i..end + 1][..end - i] == buf[i..end];
      v := 10 * v + DigitValue(buf[end]);
      end := end + 1;
    }
    assert DigitsAt(buf, end) == "" && buf[i..end] + "" == buf[i..end];
    if v > ULONG_MAX {
      v := ULONG_MAX;
    }
  }

  // ---------------------------------------------------------------- the URL loop

  lemma StartUrl(connect: bool, d: seq<Span>)
    requires d == seq(7, _ => Span(0, 0))
    ensures Read(Origin(connect), "") == Origin(connect) == Spot(if connect then ServerStart else SpacesBeforeUrl, NOTHING)
    ensures Shape(connect, Entry(connect), NOTHING) && |Spell(NOTHING)| == 0
    ensures d == Spans(NOTHING) && FieldSet(NOTHING) == {} && LastField(NOTHING) == UF_MAX
  {
    EmptyShape(connect);
    hide Shape, Spell;
    assert d == Spans(NOTHING);
  }

  lemma UrlOneMore(o: Spot, v: string, ch: char)
    ensures var p := Read(o, v); var s := ParseUrlChar(p.state, ch); Read(o, v + [ch]) == Spot(s, File(p.target, s, [ch]))
  {
    hide ParseUrlChar, File;
    assert (v + [ch])[..|v|] == v;
  }

  lemma UrlStaysDead(connect: bool, url: string, n: nat)
    requires n <= |url| && Read(Origin(connect), url[..n]).state == Dead
    ensures Read(Origin(connect), url).state == Dead
  {
    hide Read, Origin;
    if Read(Origin(connect), url).state != Dead {
      ReadKeeps(connect, url);
    }
  }

  lemma DeadIsRefused(connect: bool, url: string)
    requires Read(Origin(connect), url).state == Dead
    ensures !Parses(connect, url)
  {
  }

  lemma UrlByteFiled(connect: bool, s: State, t: Target, ch: char)
    requires Shape(connect, s, t) && ParseUrlChar(s, ch) != Dead
    ensures var r := ParseUrlChar(s, ch); var n := File(t, r, [ch]); var uf := FieldOf(r);
            && InUrl(r)
            && Shape(connect, r, n) && |Spell(n)| == |Spell(t)| + 1
            && ('@' in n.authority <==> '@' in t.authority || r.ServerWithAt?)
            && if uf == UF_MAX then Spans(n) == Spans(t) && FieldSet(n) == FieldSet(t) && LastField(n) == LastField(t)
               else
                 && LastField(n) == uf && FieldSet(n) == FieldSet(t) + {uf}
                 && (uf == LastField(t) ==> uf in FieldSet(t))
                 && Spans(n) == Spans(t)[uf := if uf == LastField(t) then Span(Spans(t)[uf].off, Spans(t)[uf].len + 1)
                                               else Span(|Spell(t)|, 1)]
  {
    hide ParseUrlChar, Shape, TargetParts, Spans, IsAuthorityByte, IsAlpha, IsUrlChar, IsTail;
    ByteClass(s, ch);
    ShapeStep(connect, s, t, ch);
    FileAppends(connect, s, t, ch);
    Appended(TargetParts(t), Level(ParseUrlChar(s, ch)), ch, 0);
    FieldStep(connect, s, t, ch);
  }

  lemma ParsesMeans(connect: bool, url: string)
    requires Read(Origin(connect), url).state != Dead
    ensures var t := TargetOf(connect, url); var q := AuthorityOf(t.authority);
            Parses(connect, url) <==>
              (t.schema != "" || t.authority != "" ==> HostMayEnd(q.state)) && (connect ==> AllFields(t, q.who) == {UF_HOST, UF_PORT})
  {
  }

  /** The whole authority is in the host field when the host loop starts. */
  lemma FirstPass(connect: bool, url: string)
    requires Read(Origin(connect), url).state != Dead
    ensures var t := TargetOf(connect, url);
            && Spans(t)[UF_PORT] == Spans(t)[UF_USERINFO] == Span(0, 0)
            && Spans(t)[UF_HOST].off + Spans(t)[UF_HOST].len <= |url|
            && url[Spans(t)[UF_HOST].off..Spans(t)[UF_HOST].off + Spans(t)[UF_HOST].len] == t.authority
            && (t.authority != "" ==> Spans(t)[UF_HOST].off == |Upto(TargetParts(t), 2)|)
  {
    hide Read, Shape, SpanIn, Upto;
    ReadKeeps(connect, url);
    var t := TargetOf(connect, url);
    SpanText(TargetParts(t), 2, 8);
    assert TargetParts(t)[2] == t.authority;
    HostSpan(t);
  }

  lemma HostSpan(t: Target)
    ensures t.authority != "" ==> SpanIn(TargetParts(t), 2, 0).off == |Upto(TargetParts(t), 2)|
  {
  }

  lemma FieldsThere(t: Target, a: Authority)
    ensures UF_PORT !in FieldSet(t) && UF_USERINFO !in FieldSet(t)
    ensures UF_SCHEMA in FieldSet(t) <==> t.schema != ""
    ensures UF_HOST in FieldSet(t) <==> t.authority != ""
    ensures AllFields(t, a) == FieldSet(t) + HostFields(a)
    ensures UF_PORT in AllFields(t, a) <==> a.port != ""
  {
  }

  /** Without an authority the host loop is not run, and has nothing to add. */
  lemma NoSecondPass(t: Target)
    requires t.authority == ""
    ensures AuthorityOf(t.authority) == HostSpot(HostStart, NOBODY)
    ensures HostFields(NOBODY) == {} && AllSpans(t, NOBODY) == Spans(t)
    ensures !HostMayEnd(HostStart)
  {
    hide Upto;
  }

  lemma SecondPass(connect: bool, url: string)
    requires Read(Origin(connect), url).state != Dead
    ensures var t := TargetOf(connect, url); var q := AuthorityOf(t.authority);
            && q == HostRead(HostOrigin('@' in t.authority), t.authority)
            && (t.authority != "" ==>
                  AllSpans(t, q.who) == Spans(t)[UF_HOST := SpanIn(AuthorityParts(q.who), 3, Spans(t)[UF_HOST].off)]
                                                [UF_PORT := SpanIn(AuthorityParts(q.who), 6, Spans(t)[UF_HOST].off)]
                                                [UF_USERINFO := SpanIn(AuthorityParts(q.who), 0, Spans(t)[UF_HOST].off)])
            && (HostMayEnd(q.state) ==> AllSpans(t, q.who)[UF_PORT].off + |q.who.port| <= |url|)
  {
    hide Read, Shape, SpanIn, HostRead, HostMayEnd, Spans;
    var t := TargetOf(connect, url);
    var q := AuthorityOf(t.authority);
    FirstPass(connect, url);
    if HostMayEnd(q.state) {
      AuthorityIsGood(t.authority);
      ReadKeeps(connect, url);
      PortInUrl(t, q.who);
    }
  }

  lemma PortInUrl(t: Target, a: Authority)
    requires t.authority == SpellAuthority(a)
    ensures AllSpans(t, a)[UF_PORT].off + |a.port| <= |Spell(t)|
  {
    hide TargetParts, AuthorityParts;
    var ps := AuthorityParts(a);
    var ts := TargetParts(t);
    assert ps[6] == a.port && ts[2] == t.authority by { AuthorityPartsAre(t, a); }
    assert Upto(ps, 7) == Upto(ps, 6) + a.port;
    assert Upto(ts, 3) == Upto(ts, 2) + t.authority;
    UptoFrom(ts, 3, 8);
  }

  lemma AuthorityPartsAre(t: Target, a: Authority)
    ensures AuthorityParts(a)[6] == a.port && TargetParts(t)[2] == t.authority
  {
  }

  // ---------------------------------------------------------------- what the fields cover

  /** The URL with its authority taken apart. */
  function FlatParts(t: Target, a: Authority): (ps: seq<string>)
    ensures |ps| == 14
  {
    TargetParts(t)[..2] + AuthorityParts(a) + TargetParts(t)[3..]
  }

  /** The place of a field among the fourteen parts; the other seven are delimiters. */
  function Place(uf: nat): (k: nat)
    ensures k < 14
  {
    if uf == UF_SCHEMA then 0 else if uf == UF_USERINFO then 2 else if uf == UF_HOST then 5 else if uf == UF_PORT then 8
    else if uf == UF_PATH then 9 else if uf == UF_QUERY then 11 else 13
  }

  lemma {:induction false} FlatFront(t: Target, a: Authority, j: nat)
    requires j <= 7
    ensures Upto(FlatParts(t, a), 2 + j) == Upto(TargetParts(t), 2) + Upto(AuthorityParts(a), j)
  {
    hide TargetParts, AuthorityParts;
    var ps := FlatParts(t, a);
    if j == 0 {
      UptoSame(ps, TargetParts(t), 2);
      assert Upto(TargetParts(t), 2) + "" == Upto(TargetParts(t), 2);
    } else {
      FlatFront(t, a, j - 1);
      assert ps[1 + j] == AuthorityParts(a)[j - 1];
      hide FlatParts;
      assert Upto(ps, 2 + j) == Upto(ps, 1 + j) + ps[1 + j];
    }
  }

  lemma {:induction false} FlatBack(t: Target, a: Authority, i: nat)
    requires i <= 5 && t.authority == SpellAuthority(a)
    ensures Upto(FlatParts(t, a), 9 + i) == Upto(TargetParts(t), 3 + i)
  {
    hide TargetParts, AuthorityParts;
    var ps := FlatParts(t, a);
    if i == 0 {
      FlatFront(t, a, 7);
      assert TargetParts(t)[2] == t.authority by { AuthorityPartsAre(t, a); }
    } else {
      FlatBack(t, a, i - 1);
      assert ps[8 + i] == TargetParts(t)[2 + i];
    }
  }

  lemma SameSpan(ps: seq<string>, i: nat, qs: seq<string>, j: nat, base: nat)
    requires i < |ps| && j < |qs| && ps[i] == qs[j] && |Upto(ps, i)| == base + |Upto(qs, j)|
    ensures SpanIn(ps, i, 0) == SpanIn(qs, j, base)
  {
  }

  lemma FlatPlaces(t: Target, a: Authority, uf: nat)
    requires uf < UF_MAX && t.authority == SpellAuthority(a)
    ensures AllSpans(t, a)[uf] == SpanIn(FlatParts(t, a), Place(uf), 0)
  {
    hide TargetParts, AuthorityParts, Upto, SpanIn, SpellAuthority;
    var ps := FlatParts(t, a);
    var k := Place(uf);
    if k == 0 {
      UptoSame(ps, TargetParts(t), 0);
      SameSpan(ps, 0, TargetParts(t), 0, 0);
    } else if k < 9 {
      FlatFront(t, a, k - 2);
      SameSpan(ps, k, AuthorityParts(a), k - 2, |Upto(TargetParts(t), 2)|);
    } else {
      FlatBack(t, a, k - 9);
      SameSpan(ps, k, TargetParts(t), k - 6, 0);
    }
  }

  predicate Before(x: Span, y: Span) {
    x.len == 0 || y.len == 0 || x.off + x.len <= y.off
  }

  lemma {:induction false} SpansInOrder(ps: seq<string>, i: nat, j: nat)
    requires i < j < |ps|
    ensures Before(SpanIn(ps, i, 0), SpanIn(ps, j, 0)) && |Upto(ps, i + 1)| <= |Upto(ps, j)|
  {
    if i + 1 < j {
      SpansInOrder(ps, i, j - 1);
    }
  }

  predicate InSpan(s: Span, i: nat) {
    s.off <= i < s.off + s.len
  }

  predicate IsDelimiter(c: char) {
    c == ':' || c == '/' || c == '@' || c == '[' || c == ']' || c == '?' || c == '#'
  }

  /** Which part a byte of a joined text comes from. */
  lemma {:induction false} PartAt(ps: seq<string>, k: nat, i: nat) returns (j: nat)
    requires k <= |ps| && i < |Upto(ps, k)|
    ensures j < k && |Upto(ps, j)| <= i < |Upto(ps, j)| + |ps[j]| && Upto(ps, k)[i] == ps[j][i - |Upto(ps, j)|]
    decreases k
  {
    if i < |Upto(ps, k - 1)| {
      j := PartAt(ps, k - 1, i);
    } else {
      j := k - 1;
    }
  }

  /** The field whose place is `k`, or `UF_MAX`. */
  function FieldAt(k: nat): (uf: nat)
    ensures uf < UF_MAX ==> Place(uf) == k
  {
    if k == 0 then UF_SCHEMA else if k == 2 then UF_USERINFO else if k == 5 then UF_HOST else if k == 8 then UF_PORT
    else if k == 9 then UF_PATH else if k == 11 then UF_QUERY else if k == 13 then UF_FRAGMENT else UF_MAX
  }

  lemma {:induction false} HashesAreHashes(n: nat)
    ensures forall c <- Hashes(n) :: c == '#'
  {
    if n > 0 {
      HashesAreHashes(n - 1);
    }
  }

  /** The parts that are no fields are made of delimiters. */
  lemma OtherParts(t: Target, a: Authority, k: nat, i: nat)
    requires k < 14 && FieldAt(k) == UF_MAX && i < |FlatParts(t, a)[k]|
    ensures IsDelimiter(FlatParts(t, a)[k][i])
  {
    var ps := FlatParts(t, a);
    if k == 1 {
      assert ps[1] == TargetParts(t)[1];
    } else if k == 10 {
      assert ps[10] == TargetParts(t)[4];
    } else if k == 12 {
      assert ps[12] == TargetParts(t)[6];
      HashesAreHashes(t.hashes);
      assert ps[12][i] in Hashes(t.hashes);
    } else {
      assert ps[k] == AuthorityParts(a)[k - 2];
    }
  }

  /** A byte of the URL lies in the span of a field or is a delimiter. */
  lemma ByteIsCovered(t: Target, a: Authority, i: nat)
    requires t.authority == SpellAuthority(a) && i < |Joined(FlatParts(t, a))|
    ensures (exists uf: nat :: uf < UF_MAX && InSpan(AllSpans(t, a)[uf], i)) || IsDelimiter(Joined(FlatParts(t, a))[i])
  {
    hide AllSpans, Upto, FlatParts, IsDelimiter, FieldAt, Place;
    var ps := FlatParts(t, a);
    var k := PartAt(ps, 14, i);
    if FieldAt(k) < UF_MAX {
      FlatPlaces(t, a, FieldAt(k));
      assert InSpan(AllSpans(t, a)[FieldAt(k)], i);
    } else {
      FieldAtBound(k);
      OtherParts(t, a, k, i - |Upto(ps, k)|);
    }
  }

  lemma FieldAtBound(k: nat)
    ensures FieldAt(k) <= UF_MAX
  {
  }

  /** The fields of an accepted URL lie in it, in order and without overlap; each covers
      its part, and what no field covers are the delimiters. */
  lemma FieldsCover(connect: bool, url: string)
    requires Parses(connect, url)
    ensures var t := TargetOf(connect, url); var a := AuthorityOf(t.authority).who;
            var d := AllSpans(t, a); var ps := FlatParts(t, a);
            && Joined(ps) == url
            && (forall uf | 0 <= uf < UF_MAX :: d[uf].off + d[uf].len <= |url| && url[d[uf].off..d[uf].off + d[uf].len] == FieldText(t, a, uf))
            && (forall uf, vf | 0 <= uf < UF_MAX && 0 <= vf < UF_MAX && Place(uf) < Place(vf) :: Before(d[uf], d[vf]))
            && (forall uf | 0 <= uf < UF_MAX :: uf in AllFields(t, a) <==> FieldText(t, a, uf) != "")
            && (forall i: nat | i < |url| :: (exists uf: nat :: uf < UF_MAX && InSpan(d[uf], i)) || IsDelimiter(url[i]))
  {
    hide TargetParts, AuthorityParts, SpanIn, Upto, AllSpans, AllFields, FieldText, Place, FlatParts, Parses, TargetOf, AuthorityOf, InSpan, IsDelimiter;
    var t := TargetOf(connect, url);
    var a := AuthorityOf(t.authority).who;
    var ps := FlatParts(t, a);
    ParsedIsUrl(connect, url);
    SpelledAuthority(connect, t, a);
    FlatBack(t, a, 5);
    forall uf: nat | uf < UF_MAX
      ensures AllSpans(t, a)[uf] == SpanIn(ps, Place(uf), 0)
      ensures var s := AllSpans(t, a)[uf]; s.off + s.len <= |url| && url[s.off..s.off + s.len] == FieldText(t, a, uf)
      ensures uf in AllFields(t, a) <==> FieldText(t, a, uf) != ""
    {
      FlatPlaces(t, a, uf);
      SpanText(ps, Place(uf), 14);
      TextAtPlace(t, a, uf);
      FieldPresent(t, a, uf);
    }
    forall uf: nat, vf: nat | uf < UF_MAX && vf < UF_MAX && Place(uf) < Place(vf)
      ensures Before(AllSpans(t, a)[uf], AllSpans(t, a)[vf])
    {
      SpansInOrder(ps, Place(uf), Place(vf));
    }
    forall i: nat | i < |url|
      ensures (exists uf: nat :: uf < UF_MAX && InSpan(AllSpans(t, a)[uf], i)) || IsDelimiter(url[i])
    {
      ByteIsCovered(t, a, i);
    }
  }

  lemma SpelledAuthority(connect: bool, t: Target, a: Authority)
    requires IsUrl(connect, t, a)
    ensures t.authority == SpellAuthority(a) && (t.authority != "" <==> a.host != "")
  {
    hide GoodTarget;
    if t.authority == "" {
      UptoLast(AuthorityParts(NOBODY), 0, 7);
    }
  }

  /** The text a field stands for. */
  function FieldText(t: Target, a: Authority, uf: nat): string {
    if uf == UF_SCHEMA then t.schema else if uf == UF_USERINFO then a.userinfo else if uf == UF_HOST then a.host
    else if uf == UF_PORT then a.port else if uf == UF_PATH then t.path else if uf == UF_QUERY then t.query
    else t.fragment
  }

  lemma TextAtPlace(t: Target, a: Authority, uf: nat)
    requires uf < UF_MAX
    ensures FlatParts(t, a)[Place(uf)] == FieldText(t, a, uf)
  {
  }

  lemma FieldPresent(t: Target, a: Authority, uf: nat)
    requires uf < UF_MAX && (t.authority != "" <==> a.host != "")
    ensures uf in AllFields(t, a) <==> FieldText(t, a, uf) != ""
  {
  }

  // ---------------------------------------------------------------- the port

  predicate AllDigits(v: string) {
    forall i | 0 <= i < |v| :: IsNum(v[i])
  }

  lemma {:induction false} DigitsAhead(buf: string, i: nat, v: string)
    requires i + |v| <= |buf| && buf[i..i + |v|] == v && AllDigits(v)
    ensures DigitsAt(buf, i) == v + DigitsAt(buf, i + |v|)
    decreases |v|
  {
    if v != "" {
      assert buf[i] == v[0];
      assert buf[i + 1..i + |v|] == buf[i..i + |v|][1..] == v[1..];
      DigitsAhead(buf, i + 1, v[1..]);
      assert v == [v[0]] + v[1..];
    }
  }

  lemma {:induction false} ZeroDigits(v: string)
    requires AllDigits(v)
    ensures DecimalOf(v) == 0 <==> forall i | 0 <= i < |v| :: v[i] == '0'
  {
    if v != "" {
      ZeroDigits(v[..|v| - 1]);
    }
  }

  lemma {:induction false} MoreDigits(v: string, more: string)
    requires AllDigits(v) && AllDigits(more)
    ensures DecimalOf(v + more) >= DecimalOf(v)
    ensures DecimalOf(v + more) == DecimalOf(v) <==> more == "" || DecimalOf(v + more) == 0
  {
    if more == "" {
      assert v + more == v;
    } else {
      var n := |more| - 1;
      MoreDigits(v, more[..n]);
      assert (v + more)[..|v + more| - 1] == v + more[..n];
    }
  }

  /** Nothing but '/' or '?' follows an authority. */
  lemma AfterAuthorityByte(connect: bool, t: Target)
    requires GoodTarget(connect, t) && t.authority != ""
    ensures var n := |Upto(TargetParts(t), 3)|; n <= |Spell(t)| && (n < |Spell(t)| ==> Spell(t)[n] == '/' || Spell(t)[n] == '?')
  {
    hide Parts;
    var ps := TargetParts(t);
    UptoFrom(ps, 3, 8);
    if t.path != "" {
      UptoFrom(ps, 4, 8);
      assert Upto(ps, 4) == Upto(ps, 3) + t.path;
    } else if t.mark {
      UptoFrom(ps, 5, 8);
      assert Upto(ps, 5) == Upto(ps, 3) + "" + "?";
    } else {
      UptoLast(ps, 3, 8);
    }
  }

  /** Where the port is, and what can come behind it in the URL. */
  lemma PortSpan(connect: bool, url: string)
    requires Parses(connect, url) && AuthorityOf(TargetOf(connect, url).authority).who.port != ""
    ensures var t := TargetOf(connect, url); var a := AuthorityOf(t.authority).who;
            var off := AllSpans(t, a)[UF_PORT].off; var end := off + |a.port|;
            && end <= |url| && url[off..end] == a.port && AllDigits(a.port)
            && (end < |url| ==> url[end] == '/' || url[end] == '?')
  {
    hide TargetParts, AuthorityParts, SpanIn, Upto, AllSpans, FlatParts, Parses, TargetOf, AuthorityOf, GoodTarget, AllFields, InSpan, Before, Place,
         IsUserinfoChar, IsAddressByte, IsHostChar, IsNum, IsDelimiter, SpellAuthority, Spell;
    var t := TargetOf(connect, url);
    var a := AuthorityOf(t.authority).who;
    FieldsCover(connect, url);
    ParsedIsUrl(connect, url);
    SpelledAuthority(connect, t, a);
    FlatPort(t, a);
    AfterAuthorityByte(connect, t);
  }

  /** The number `strtoul` finds at the port is read past the end of the URL when the port
      is the last thing in it and the byte after the URL happens to be a digit. */
  lemma PortDigits(connect: bool, buf: string, buflen: nat)
    requires buflen <= |buf| && Parses(connect, buf[..buflen])
    requires AuthorityOf(TargetOf(connect, buf[..buflen]).authority).who.port != ""
    ensures var t := TargetOf(connect, buf[..buflen]); var a := AuthorityOf(t.authority).who;
            var off := AllSpans(t, a)[UF_PORT].off; var end := off + |a.port|;
            && end <= buflen && buf[off..end] == a.port && AllDigits(a.port)
            && DigitsAt(buf, off) == a.port + if end == buflen then DigitsAt(buf, buflen) else ""
  {
    hide AllSpans, Parses, TargetOf, AuthorityOf, IsNum, DigitsAt;
    var url := buf[..buflen];
    var t := TargetOf(connect, url);
    var a := AuthorityOf(t.authority).who;
    var off := AllSpans(t, a)[UF_PORT].off;
    PortSpan(connect, url);
    assert url[off..off + |a.port|] == buf[off..off + |a.port|];
    DigitsAhead(buf, off, a.port);
    NotDigits();
    var end := off + |a.port|;
    if end < buflen {
      assert url[end] == buf[end];
      NoDigitsAt(buf, end);
    }
  }

  lemma NoDigitsAt(buf: string, i: nat)
    requires i < |buf| && !IsNum(buf[i])
    ensures DigitsAt(buf, i) == ""
  {
  }

  lemma NotDigits()
    ensures !IsNum('/') && !IsNum('?')
  {
  }

  lemma FlatPort(t: Target, a: Authority)
    requires t.authority == SpellAuthority(a) && a.port != ""
    ensures FlatParts(t, a)[Place(UF_PORT)] == a.port
    ensures t.authority != ""
    ensures var d := AllSpans(t, a)[UF_PORT]; d.len == |a.port| && d.off + d.len == |Upto(TargetParts(t), 3)|
  {
    FlatPlaces(t, a, UF_PORT);
    SpanText(FlatParts(t, a), 8, 9);
    FlatBack(t, a, 0);
  }

  /** The port of an accepted URL is the decimal value of its field exactly when the port
      is not run together with a digit after the URL, or all the digits are zeros. */
  lemma PortExact(connect: bool, buf: string, buflen: nat)
    requires buflen <= |buf| && Parses(connect, buf[..buflen])
    requires AuthorityOf(TargetOf(connect, buf[..buflen]).authority).who.port != ""
    ensures var t := TargetOf(connect, buf[..buflen]); var a := AuthorityOf(t.authority).who;
            var off := AllSpans(t, a)[UF_PORT].off;
            NumberAt(buf, off) <= PORT_MAX ==>
              (NumberAt(buf, off) == DecimalOf(a.port) <==>
                 || off + |a.port| < buflen || buflen == |buf| || !IsNum(buf[buflen])
                 || forall i | 0 <= i < |DigitsAt(buf, off)| :: DigitsAt(buf, off)[i] == '0')
  {
    hide AllSpans, Parses, TargetOf, AuthorityOf, DecimalOf;
    PortDigits(connect, buf, buflen);
    var t := TargetOf(connect, buf[..buflen]);
    var a := AuthorityOf(t.authority).who;
    var off := AllSpans(t, a)[UF_PORT].off;
    var more := if off + |a.port| == buflen then DigitsAt(buf, buflen) else "";
    DigitsAreDigits(buf, buflen);
    DigitsAreDigits(buf, off);
    MoreDigits(a.port, more);
    ZeroDigits(a.port + more);
  }

  lemma {:induction false} DigitsAreDigits(buf: string, i: nat)
    ensures AllDigits(DigitsAt(buf, i))
    decreases |buf| - i
  {
    if i < |buf| && IsNum(buf[i]) {
      DigitsAreDigits(buf, i + 1);
    }
  }

  /** One that is: four bytes of a buffer are parsed, `@h:1`, and the port found is that of `@h:10`. */
  lemma PortReadPast()
    ensures var buf := "@h:10"; var url := buf[..4]; var t := TargetOf(true, url); var a := AuthorityOf(t.authority).who;
            && url == "@h:1" && Parses(true, url) && a.port == "1" && DecimalOf(a.port) == 1
            && NumberAt(buf, AllSpans(t, a)[UF_PORT].off) == 10
  {
    hide SpellAuthority, GoodAuthority, Spell, Parses, AllSpans, TargetOf, AuthorityOf, AllDigits;
    var buf := "@h:10";
    assert buf[..4] == "@h:1";
    var t := Target("", 0, "@h:1", "", false, "", 0, "");
    LoneAtSpelling();
    LoneAtGood();
    ConnectSpelling(t);
    assert Spell(t) == "@h:1" by {
      assert t.authority + "" == "@h:1";
    }
    UrlRoundTrip(true, t, LONE_AT);
    PortDigits(true, buf, 4);
    var off := AllSpans(t, LONE_AT)[UF_PORT].off;
    assert buf[off..off + 1] == "1" && off == 3;
    TenAhead();
  }

  lemma TenAhead()
    ensures DigitsAt("@h:10", 3) == "10" && DecimalOf("10") == 10 && DecimalOf("1") == 1
  {
    var buf := "@h:10";
    assert DigitsAt(buf, 5) == "" && DigitsAt(buf, 4) == ['0'] + "" && DigitsAt(buf, 3) == ['1'] + "0";
    assert "10"[..1] == "1" && "1"[..0] == "";
    assert DecimalOf("1") == 1;
  }
}
