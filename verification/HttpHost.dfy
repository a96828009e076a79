/** The second pass over an authority, `http_parse_host`: its state machine, what the
    machine files where, and the grammar
    [userinfo "@"] (host | "[" address "]") [":" port] it amounts to. */
module HttpHost {
  import opened HttpChars
  import opened HttpUrl

  datatype HostState =
    UserinfoStart | Userinfo | HostStart | V6Start | Host | V6 | V6End | PortStart | Port | HostDead

  /** The parts of an authority; the flags say whether '@', '[', ']' and ':' are there. */
  datatype Authority = Authority(userinfo: string, at: bool, open: bool, host: string,
                                 close: bool, colon: bool, port: string)

  const NOBODY := Authority("", false, false, "", false, false, "")

  function AuthorityParts(a: Authority): (ps: seq<string>)
    ensures |ps| == 7
  {
    [a.userinfo, if a.at then "@" else "", if a.open then "[" else "", a.host,
     if a.close then "]" else "", if a.colon then ":" else "", a.port]
  }

  function SpellAuthority(a: Authority): string {
    Joined(AuthorityParts(a))
  }

  predicate IsAddressByte(c: char) {
    IsHex(c) || c == ':' || c == '.'
  }

  /** `http_parse_host_char`. */
  function HostChar(s: HostState, ch: char): HostState {
    if s.Userinfo? || s.UserinfoStart? then
      if ch == '@' then HostStart else if IsUserinfoChar(ch) then Userinfo else HostDead
    else if s.HostStart? then
      if ch == '[' then V6Start else if IsHostChar(ch) then Host else HostDead
    else if s.Host? then
      if IsHostChar(ch) then Host else if ch == ':' then PortStart else HostDead
    else if s.V6End? then
      if ch == ':' then PortStart else HostDead
    else if s.V6? then
      if ch == ']' then V6End else if IsAddressByte(ch) then V6 else HostDead
    else if s.V6Start? then
      if IsAddressByte(ch) then V6 else HostDead
    else if s.Port? || s.PortStart? then
      if IsNum(ch) then Port else HostDead
    else HostDead
  }

  /** The states an authority may end in. */
  predicate HostMayEnd(s: HostState) {
    s.Host? || s.V6End? || s.Port?
  }

  datatype HostSpot = HostSpot(state: HostState, who: Authority)

  function HostFile(a: Authority, s: HostState, text: string): Authority {
    if s.Userinfo? then a.(userinfo := a.userinfo + text)
    else if s.HostStart? then a.(at := true)
    else if s.V6Start? then a.(open := true)
    else if s.Host? || s.V6? then a.(host := a.host + text)
    else if s.V6End? then a.(close := true)
    else if s.PortStart? then a.(colon := true)
    else if s.Port? then a.(port := a.port + text)
    else a
  }

  function HostLevel(s: HostState): (k: nat)
    ensures k <= 6
  {
    if s.Userinfo? then 0
    else if s.HostStart? then 1
    else if s.V6Start? then 2
    else if s.Host? || s.V6? then 3
    else if s.V6End? then 4
    else if s.PortStart? then 5
    else 6
  }

  function HostByte(p: HostSpot, ch: char): HostSpot {
    var s := HostChar(p.state, ch);
    HostSpot(s, HostFile(p.who, s, [ch]))
  }

  function HostRead(p: HostSpot, text: string): HostSpot {
    if text == [] then p else HostByte(HostRead(p, text[..|text| - 1]), text[|text| - 1])
  }

  /** A host with an '@' somewhere starts with the user information. */
  function HostOrigin(foundAt: bool): HostSpot {
    HostSpot(if foundAt then UserinfoStart else HostStart, NOBODY)
  }

  function AuthorityOf(v: string): HostSpot {
    HostRead(HostOrigin('@' in v), v)
  }

  // ---------------------------------------------------------------- the grammar

  predicate GoodAuthority(a: Authority) {
    && (forall i | 0 <= i < |a.userinfo| :: IsUserinfoChar(a.userinfo[i]))
    && (a.userinfo != "" ==> a.at)
    && a.open == a.close
    && a.host != ""
    && (forall i | 0 <= i < |a.host| :: if a.open then IsAddressByte(a.host[i]) else IsHostChar(a.host[i]))
    && (a.colon <==> a.port != "")
    && (forall i | 0 <= i < |a.port| :: IsNum(a.port[i]))
  }

  // ---------------------------------------------------------------- reading keeps the text

  predicate HostShape(at: bool, s: HostState, a: Authority) {
    && (forall i | 0 <= i < |a.userinfo| :: IsUserinfoChar(a.userinfo[i]))
    && (forall i | 0 <= i < |a.host| :: if a.open then IsAddressByte(a.host[i]) else IsHostChar(a.host[i]))
    && (forall i | 0 <= i < |a.port| :: IsNum(a.port[i]))
    && !s.HostDead?
    && (a.userinfo != "" ==> at)
    && (a.close ==> a.open)
    && (if s.UserinfoStart? || s.Userinfo? then at && !a.at else a.at == at)
    && (s.UserinfoStart? ==> a == NOBODY)
    && (s.Userinfo? ==> a.userinfo != "")
    && (HostLevel(s) < 2 || s.UserinfoStart? ==> !a.open)
    && (HostLevel(s) < 3 || s.UserinfoStart? <==> a.host == "")
    && (s.Host? ==> !a.open)
    && (s.V6Start? || s.V6? || s.V6End? ==> a.open)
    && (if HostLevel(s) <= 3 || s.UserinfoStart? then !a.close else a.close == a.open)
    && (a.colon <==> s.PortStart? || s.Port?)
    && (a.port != "" <==> s.Port?)
  }

  lemma HostShapeStep(at: bool, s: HostState, a: Authority, ch: char)
    requires HostShape(at, s, a) && HostChar(s, ch) != HostDead
    ensures var r := HostChar(s, ch); HostShape(at, r, HostFile(a, r, [ch]))
  {
    hide IsUserinfoChar, IsHostChar, IsAddressByte, IsNum;
  }

  lemma HostPartAppends(at: bool, s: HostState, a: Authority, ch: char)
    requires HostShape(at, s, a) && HostChar(s, ch) != HostDead
    ensures var r := HostChar(s, ch); var ps := AuthorityParts(a); var qs := AuthorityParts(HostFile(a, r, [ch]));
            && qs[HostLevel(r)] == ps[HostLevel(r)] + [ch]
            && forall i | 0 <= i < 7 && i != HostLevel(r) :: qs[i] == ps[i]
  {
    hide IsUserinfoChar, IsHostChar, IsAddressByte, IsNum;
  }

  lemma LaterHostPartsEmpty(at: bool, s: HostState, a: Authority)
    requires HostShape(at, s, a) && !s.UserinfoStart?
    ensures forall i | HostLevel(s) < i < 7 :: AuthorityParts(a)[i] == ""
  {
    hide IsUserinfoChar, IsHostChar, IsAddressByte, IsNum;
  }

  lemma HostAppends(at: bool, s: HostState, a: Authority, ch: char)
    requires HostShape(at, s, a) && HostChar(s, ch) != HostDead
    ensures var r := HostChar(s, ch); var ps := AuthorityParts(a); var k := HostLevel(r);
            && AuthorityParts(HostFile(a, r, [ch])) == ps[k := ps[k] + [ch]]
            && forall i | k < i < 7 :: ps[i] == ""
  {
    hide IsUserinfoChar, IsHostChar, IsAddressByte, IsNum;
    var r := HostChar(s, ch);
    var ps, k := AuthorityParts(a), HostLevel(r);
    var qs := AuthorityParts(HostFile(a, r, [ch]));
    assert !r.UserinfoStart?;
    HostShapeStep(at, s, a, ch);
    HostPartAppends(at, s, a, ch);
    hide *;
    LaterHostPartsEmpty(at, r, HostFile(a, r, [ch]));
    assert qs == ps[k := ps[k] + [ch]];
  }

  lemma HostDeadStays(ch: char)
    ensures HostChar(HostDead, ch) == HostDead
  {
  }

  lemma {:induction false} HostReadKeeps(at: bool, v: string)
    requires HostRead(HostOrigin(at), v).state != HostDead
    ensures var p := HostRead(HostOrigin(at), v); HostShape(at, p.state, p.who) && SpellAuthority(p.who) == v
    ensures forall n | 0 <= n <= |v| :: HostRead(HostOrigin(at), v[..n]).state != HostDead
  {
    hide HostChar, HostShape, HostFile, HostLevel, AuthorityParts;
    if v == [] {
      NobodyShape(at);
    } else {
      var n := |v| - 1;
      var p := HostRead(HostOrigin(at), v[..n]);
      HostDeadStays(v[n]);
      HostReadKeeps(at, v[..n]);
      HostShapeStep(at, p.state, p.who, v[n]);
      HostAppends(at, p.state, p.who, v[n]);
      Appended(AuthorityParts(p.who), HostLevel(HostChar(p.state, v[n])), v[n], 0);
      forall i | 0 <= i <= |v|
        ensures HostRead(HostOrigin(at), v[..i]).state != HostDead
      {
        assert if i == |v| then v[..i] == v else v[..n][..i] == v[..i];
      }
    }
  }

  lemma NobodyShape(at: bool)
    ensures HostShape(at, HostOrigin(at).state, NOBODY) && SpellAuthority(NOBODY) == ""
  {
    UptoLast(AuthorityParts(NOBODY), 0, 7);
  }

  // ---------------------------------------------------------------- every authority is read back

  lemma {:induction false} HostReadJoin(p: HostSpot, x: string, y: string)
    ensures HostRead(p, x + y) == HostRead(HostRead(p, x), y)
  {
    hide HostByte;
    if y == [] {
      assert x + y == x;
    } else {
      var n := |y| - 1;
      assert (x + y)[..|x + y| - 1] == x + y[..n];
      HostReadJoin(p, x, y[..n]);
    }
  }

  /** A part whose bytes all lead to the same state is filed whole. */
  lemma {:induction false} HostPart(p: HostSpot, v: string, s: HostState)
    requires v != "" && HostChar(p.state, v[0]) == s
    requires forall i | 0 < i < |v| :: HostChar(s, v[i]) == s
    ensures HostRead(p, v) == HostSpot(s, HostFile(p.who, s, v))
  {
    hide HostChar;
    var n := |v| - 1;
    if n == 0 {
      assert v == [v[0]] && v[..0] == [];
    } else {
      HostPart(p, v[..n], s);
      assert v[..n] + [v[n]] == v;
    }
  }

  lemma UserinfoRun(a: Authority)
    requires GoodAuthority(a)
    ensures HostRead(HostOrigin(a.at), Upto(AuthorityParts(a), 2)) == HostSpot(HostStart, Authority(a.userinfo, a.at, false, "", false, false, ""))
  {
    hide HostRead, IsUserinfoChar, HostByte;
    var p := HostOrigin(a.at);
    var ps := AuthorityParts(a);
    assert Upto(ps, 1) == a.userinfo by { assert Upto(ps, 0) == ""; }
    assert HostRead(p, "") == p by { EmptyHost(p); }
    if a.at {
      if a.userinfo != "" {
        assert '@' !in a.userinfo by { NoAt(a.userinfo); }
        HostPart(p, a.userinfo, Userinfo);
      }
      var q := HostSpot(if a.userinfo == "" then UserinfoStart else Userinfo, NOBODY.(userinfo := a.userinfo));
      assert HostRead(p, a.userinfo) == q;
      HostReadJoin(p, a.userinfo, "@");
      HostPart(q, "@", HostStart);
      assert Upto(ps, 2) == a.userinfo + "@";
    } else {
      assert Upto(ps, 2) == "";
    }
  }

  lemma EmptyHost(p: HostSpot)
    ensures HostRead(p, "") == p
  {
  }

  lemma NoAt(v: string)
    requires forall i | 0 <= i < |v| :: IsUserinfoChar(v[i])
    ensures '@' !in v
  {
  }

  lemma NameRun(a: Authority)
    requires GoodAuthority(a)
    ensures HostRead(HostOrigin(a.at), Upto(AuthorityParts(a), 5)) ==
            HostSpot(if a.open then V6End else Host, a.(colon := false, port := ""))
  {
    hide HostRead, IsUserinfoChar, HostByte, IsAddressByte, IsHostChar, Upto, HostOrigin;
    var o := HostOrigin(a.at);
    UserinfoRun(a);
    UptoParts(a);
    var two := Upto(AuthorityParts(a), 2);
    var p := HostSpot(HostStart, Authority(a.userinfo, a.at, false, "", false, false, ""));
    assert HostRead(o, two) == p;
    if a.open {
      HostPart(p, "[", V6Start);
      HostReadJoin(o, two, "[");
      var q := HostSpot(V6Start, p.who.(open := true));
      assert HostRead(o, two + "[") == q;
      AddressBytes(a.host);
      HostPart(q, a.host, V6);
      HostReadJoin(o, two + "[", a.host);
      var r := HostSpot(V6, q.who.(host := a.host));
      assert HostRead(o, two + "[" + a.host) == r;
      HostPart(r, "]", V6End);
      HostReadJoin(o, two + "[" + a.host, "]");
    } else {
      HostBytes(a.host);
      HostPart(p, a.host, Host);
      HostReadJoin(o, two, a.host);
    }
  }

  lemma UptoParts(a: Authority)
    requires a.open == a.close
    ensures var two := Upto(AuthorityParts(a), 2);
            Upto(AuthorityParts(a), 5) == if a.open then two + "[" + a.host + "]" else two + a.host
  {
    var ps := AuthorityParts(a);
    assert Upto(ps, 3) == Upto(ps, 2) + ps[2];
    assert Upto(ps, 4) == Upto(ps, 3) + ps[3];
    assert Upto(ps, 5) == Upto(ps, 4) + ps[4];
    if !a.open {
      assert Upto(ps, 2) + "" == Upto(ps, 2) && Upto(ps, 4) + "" == Upto(ps, 4);
    }
  }

  lemma AddressBytes(v: string)
    requires forall i | 0 <= i < |v| :: IsAddressByte(v[i])
    ensures forall i | 0 <= i < |v| :: v[i] != ']'
  {
  }

  lemma HostBytes(v: string)
    requires forall i | 0 <= i < |v| :: IsHostChar(v[i])
    ensures forall i | 0 <= i < |v| :: v[i] != '['
  {
  }

  /** Every authority of the grammar is accepted and taken apart into the parts it was made of. */
  lemma AuthorityRoundTrip(a: Authority)
    requires GoodAuthority(a)
    ensures AuthorityOf(SpellAuthority(a)).who == a && HostMayEnd(AuthorityOf(SpellAuthority(a)).state)
    ensures AuthorityText(SpellAuthority(a)) && SpellAuthority(a) != ""
  {
    hide HostRead, HostByte, IsAddressByte, IsUserinfoChar, IsNum, AuthorityText;
    var o := HostOrigin(a.at);
    var ps := AuthorityParts(a);
    NameRun(a);
    if a.colon {
      var p := HostRead(o, Upto(ps, 5));
      ColonEndsHost();
      HostPart(p, ":", PortStart);
      HostReadJoin(o, Upto(ps, 5), ":");
      HostPart(HostSpot(PortStart, p.who.(colon := true)), a.port, Port);
      HostReadJoin(o, Upto(ps, 6), a.port);
    } else {
      assert Upto(ps, 7) == Upto(ps, 6) == Upto(ps, 5);
    }
    AuthorityBytes(a);
  }

  lemma ColonEndsHost()
    ensures !IsHostChar(':')
  {
  }

  /** The text of the parts from `k` up to `n`. */
  function From(ps: seq<string>, k: nat, n: nat): string
    requires k <= n <= |ps|
  {
    if n == k then "" else From(ps, k, n - 1) + ps[n - 1]
  }

  lemma {:induction false} UptoFrom(ps: seq<string>, k: nat, n: nat)
    requires k <= n <= |ps|
    ensures Upto(ps, n) == Upto(ps, k) + From(ps, k, n)
  {
    if k < n {
      UptoFrom(ps, k, n - 1);
    }
  }

  predicate IsBackByte(c: char) {
    IsAuthorityByte(c) && c != '@'
  }

  predicate AllBack(v: string) {
    forall i | 0 <= i < |v| :: IsBackByte(v[i])
  }

  lemma {:induction false} FromBytes(ps: seq<string>, k: nat, n: nat)
    requires k <= n <= |ps| && forall i | k <= i < n :: AllBack(ps[i])
    ensures AllBack(From(ps, k, n))
    ensures forall i | k <= i < n :: |ps[i]| <= |From(ps, k, n)|
  {
    hide IsBackByte;
    if k < n {
      FromBytes(ps, k, n - 1);
    }
  }

  /** An '@' in the text is the one after the user information. */
  lemma AuthorityBytes(a: Authority)
    requires GoodAuthority(a)
    ensures AuthorityText(SpellAuthority(a)) && SpellAuthority(a) != ""
    ensures a.at <==> '@' in SpellAuthority(a)
  {
    var ps := AuthorityParts(a);
    var front, back := Upto(ps, 2), From(ps, 2, 7);
    UptoFrom(ps, 2, 7);
    FrontBytes(a);
    HostAreAuthority(a);
    FromBytes(ps, 2, 7);
    assert |ps[3]| > 0;
    hide Upto, From, AuthorityParts, IsUserinfoChar, IsAuthorityByte, GoodAuthority;
    var v := SpellAuthority(a);
    if a.at {
      assert v[|front| - 1] == '@';
    }
    assert forall i | |front| <= i < |v| :: v[i] == back[i - |front|] && IsBackByte(back[i - |front|]);
  }

  lemma FrontBytes(a: Authority)
    requires GoodAuthority(a)
    ensures var v := Upto(AuthorityParts(a), 2);
            && (forall i | 0 <= i < |v| :: IsAuthorityByte(v[i]) && (v[i] == '@' ==> i == |v| - 1 && a.at))
            && (a.at ==> |v| > 0 && v[|v| - 1] == '@')
  {
    hide IsUserinfoChar;
    var ps := AuthorityParts(a);
    assert Upto(ps, 2) == a.userinfo + ps[1] by { assert Upto(ps, 1) == a.userinfo; }
    NoAt(a.userinfo);
  }

  lemma HostAreAuthority(a: Authority)
    requires GoodAuthority(a)
    ensures forall i | 2 <= i < 7 :: AllBack(AuthorityParts(a)[i])
  {
    HostAreBack(a);
    hide IsBackByte, IsHostChar, IsAddressByte, IsNum;
  }

  lemma HostAreBack(a: Authority)
    requires GoodAuthority(a)
    ensures AllBack(a.host) && AllBack(a.port) && AllBack("[") && AllBack("]") && AllBack(":") && AllBack("")
  {
  }

  /** And an accepted authority is one of the grammar, spelt by its parts. */
  lemma AuthorityIsGood(v: string)
    requires HostMayEnd(AuthorityOf(v).state)
    ensures GoodAuthority(AuthorityOf(v).who) && SpellAuthority(AuthorityOf(v).who) == v
  {
    hide HostRead, IsUserinfoChar, IsAddressByte, IsHostChar, IsNum;
    HostReadKeeps('@' in v, v);
  }
}
