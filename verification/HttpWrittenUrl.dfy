/** URLs as a client writes them, over the alphabets of the standards, and the fields they are read back as. */
module HttpWrittenUrl {
  import opened HttpChars
  import opened HttpParser
  import opened HttpHeaders
  import opened HttpAlphabet
  import opened HttpUrl
  import opened HttpHost
  import opened HttpUrlParse
  import opened HttpUrlFields

  /** An absolute URL; parts that are empty are left out with their delimiters. */
  datatype Written = Written(scheme: string, userinfo: string, bracketed: bool, host: string, port: string,
                             path: string, query: string, fragment: string) {
    function AuthorityText(): string {
      (if userinfo == "" then "" else userinfo + "@") + (if bracketed then "[" + host + "]" else host)
      + (if port == "" then "" else ":" + port)
    }

    function Text(): string {
      scheme + "://" + AuthorityText() + path + (if query == "" then "" else "?" + query)
      + (if fragment == "" then "" else "#" + fragment)
    }

    /** The letters each part may have. */
    predicate Spelled() {
      && scheme != "" && (forall i | 0 <= i < |scheme| :: Letter(scheme[i]))
      && (forall i | 0 <= i < |userinfo| :: UserinfoByte(userinfo[i]))
      && host != "" && (forall i | 0 <= i < |host| :: if bracketed then AddressByte(host[i]) else HostNameByte(host[i]))
      && (forall i | 0 <= i < |port| :: Digit(port[i]))
      && (path != "" ==> path[0] == '/') && (forall i | 0 <= i < |path| :: Visible(path[i]) && path[i] != '?' && path[i] != '#')
      && (forall i | 0 <= i < |query| :: Visible(query[i]) && query[i] != '#')
      && (forall i | 0 <= i < |fragment| :: Visible(fragment[i]))
    }

    /** The parser refuses a fragment that follows the host directly, and takes one '#' more for its own. */
    predicate Good() {
      && Spelled()
      && (fragment != "" ==> (path != "" || query != "") && fragment[0] != '#')
      && DecimalOf(port) <= 65535 && |Text()| <= 65535
    }

    function Who(): Authority {
      Authority(userinfo, userinfo != "", bracketed, host, bracketed, port != "", port)
    }

    function Parts(): Target {
      Target(scheme, 3, AuthorityText(), path, query != "", query, if fragment == "" then 0 else 1, fragment)
    }
  }

  lemma JoinedSeven(ps: seq<string>)
    requires |ps| == 7
    ensures Joined(ps) == ps[0] + ps[1] + ps[2] + ps[3] + ps[4] + ps[5] + ps[6]
  {
    assert Upto(ps, 0) + ps[0] == ps[0];
    assert Upto(ps, 7) == Upto(ps, 6) + ps[6] && Upto(ps, 6) == Upto(ps, 5) + ps[5] && Upto(ps, 5) == Upto(ps, 4) + ps[4];
    assert Upto(ps, 4) == Upto(ps, 3) + ps[3] && Upto(ps, 3) == Upto(ps, 2) + ps[2] && Upto(ps, 2) == Upto(ps, 1) + ps[1];
  }

  lemma JoinedEight(ps: seq<string>)
    requires |ps| == 8
    ensures Joined(ps) == ps[0] + ps[1] + ps[2] + ps[3] + ps[4] + ps[5] + ps[6] + ps[7]
  {
    JoinedSeven(ps[..7]);
    UptoSame(ps, ps[..7], 7);
    assert Upto(ps, 8) == Upto(ps, 7) + ps[7];
  }

  lemma WhoSpelled(u: Written)
    ensures SpellAuthority(u.Who()) == u.AuthorityText()
  {
    hide Upto;
    JoinedSeven(AuthorityParts(u.Who()));
  }

  lemma PartsSpelled(u: Written)
    ensures Spell(u.Parts()) == u.Text()
  {
    hide Written.AuthorityText, Upto;
    JoinedEight(TargetParts(u.Parts()));
    assert "://"[..3] == "://";
  }

  lemma WhoIsGood(u: Written)
    requires u.Spelled()
    ensures GoodAuthority(u.Who())
  {
    hide UserinfoByte, HostNameByte, IsUserinfoChar, IsHostChar, IsHex, Digit, IsNum, Letter, Visible;
    forall i | 0 <= i < |u.userinfo|
      ensures IsUserinfoChar(u.userinfo[i])
    {
      ClassesExact(u.userinfo[i]);
    }
    forall i | 0 <= i < |u.host|
      ensures if u.bracketed then IsAddressByte(u.host[i]) else IsHostChar(u.host[i])
    {
      ClassesExact(u.host[i]);
    }
    forall i | 0 <= i < |u.port|
      ensures IsNum(u.port[i])
    {
      ClassesExact(u.port[i]);
    }
  }

  lemma PartsAreGood(u: Written)
    requires u.Good()
    ensures GoodTarget(false, u.Parts())
  {
    hide UserinfoByte, HostNameByte, IsUrlChar, IsAlpha, Digit, Letter, AddressByte, DecimalOf, Written.Text;
    forall i | 0 <= i < |u.scheme|
      ensures IsAlpha(u.scheme[i])
    {
      ClassesExact(u.scheme[i]);
    }
    forall i | 0 <= i < |u.path|
      ensures IsUrlChar(u.path[i])
    {
      ClassesExact(u.path[i]);
    }
    forall i | 0 <= i < |u.query|
      ensures IsUrlChar(u.query[i]) || u.query[i] == '?'
    {
      ClassesExact(u.query[i]);
    }
    forall i | 0 <= i < |u.fragment|
      ensures IsTail(u.fragment[i])
    {
      ClassesExact(u.fragment[i]);
    }
    assert u.AuthorityText() != "";
  }

  /** Every URL that is written like this is accepted and taken apart into the parts it was made of. */
  lemma WrittenIsParsed(u: Written)
    requires u.Good()
    ensures Parses(false, u.Text()) && TargetOf(false, u.Text()) == u.Parts() && AuthorityOf(u.Parts().authority).who == u.Who()
  {
    hide Parses, TargetOf, AuthorityOf, GoodTarget, GoodAuthority, Spell, SpellAuthority, Written.Spelled, DecimalOf;
    WhoSpelled(u);
    PartsSpelled(u);
    WhoIsGood(u);
    PartsAreGood(u);
    assert u.AuthorityText() != "" by { HostThere(u); }
    UrlRoundTrip(false, u.Parts(), u.Who());
  }

  lemma HostThere(u: Written)
    requires u.Good()
    ensures u.AuthorityText() != ""
  {
    hide DecimalOf;
  }

  function Slice(text: string, d: Span): string
    requires d.off + d.len <= |text|
  {
    text[d.off..d.off + d.len]
  }

  lemma PortNumber(u: Written)
    requires u.Good() && u.port != ""
    ensures NumberAt(u.Text(), AllSpans(u.Parts(), u.Who())[UF_PORT].off) == DecimalOf(u.port)
  {
    hide Parses, TargetOf, AuthorityOf, DecimalOf, Written.Spelled, AllSpans, DigitsAt;
    var url := u.Text();
    assert url[..|url|] == url;
    WrittenIsParsed(u);
    PortDigits(false, url, |url|);
    NoDigitsBehind(url);
    assert u.port + "" == u.port;
  }

  lemma NoDigitsBehind(url: string)
    ensures DigitsAt(url, |url|) == ""
  {
  }

  /** `http_parser_parse_url` on a URL that is written like this: it succeeds, each of the seven fields, in the order
      of their numbers, is the text of its part, a field is there exactly when its part is, and the port is its number. */
  method ReadWritten(u: Written) returns (f: UrlFields, failed: bool)
    requires u.Good()
    ensures !failed && fresh(f) && f.data.Length == 7
    ensures forall k | 0 <= k < 7 :: f.data[k].off + f.data[k].len <= |u.Text()|
    ensures Slice(u.Text(), f.data[0]) == u.scheme && Slice(u.Text(), f.data[1]) == u.host && Slice(u.Text(), f.data[2]) == u.port
    ensures Slice(u.Text(), f.data[3]) == u.path && Slice(u.Text(), f.data[4]) == u.query && Slice(u.Text(), f.data[5]) == u.fragment
    ensures Slice(u.Text(), f.data[6]) == u.userinfo
    ensures 0 in f.fieldSet && 1 in f.fieldSet && (2 in f.fieldSet <==> u.port != "") && (3 in f.fieldSet <==> u.path != "")
    ensures (4 in f.fieldSet <==> u.query != "") && (5 in f.fieldSet <==> u.fragment != "") && (6 in f.fieldSet <==> u.userinfo != "")
    ensures f.port == if u.port == "" then 0 else DecimalOf(u.port)
  {
    hide Parses, TargetOf, AuthorityOf, DecimalOf, Written.Text, AllFields, AllSpans, FlatParts, Joined, InSpan, Before, IsDelimiter;
    f := new UrlFields();
    ghost var text := u.Text();
    assert text[..|text|] == text;
    WrittenIsParsed(u);
    FieldsCover(false, text);
    if u.port != "" {
      PortNumber(u);
    }
    assert f.data[..] == seq(7, _ => Span(0, 0));
    failed := f.ParseUrl(u.Text(), |u.Text()|, false);
    assert forall k | 0 <= k < 7 :: f.data[k] == f.data[..][k];
  }

  /** A fragment directly behind the host is refused. */
  lemma FragmentRefused(u: Written)
    requires u.Spelled() && u.path == "" && u.query == "" && u.fragment != "" && DecimalOf(u.port) <= 65535 && |u.Text()| <= 65535
    ensures !Parses(false, u.Text())
  {
    var plain := u.(fragment := "");
    var front, url := plain.Text(), u.Text();
    assert url == front + "#" + u.fragment;
    WrittenIsParsed(plain);
    var p := Read(Origin(false), front);
    assert p.state != Dead && p.target == plain.Parts() by { ParsedMeans(front); }
    ReadKeeps(false, front);
    BehindHost(p.state, p.target);
    var n := |front| + 1;
    assert url[..n] == front + "#" && url[..n][..n - 1] == front && url[..n][n - 1] == '#';
    assert Read(Origin(false), url[..n]) == ReadByte(p, '#');
    if Parses(false, url) {
      ParsedMeans(url);
      ReadKeeps(false, url);
    }
  }

  lemma ParsedMeans(url: string)
    requires Parses(false, url)
    ensures Read(Origin(false), url).state != Dead && Read(Origin(false), url).target == TargetOf(false, url)
  {
  }

  lemma BehindHost(s: State, t: Target)
    requires Shape(false, s, t) && s != Dead && t.authority != "" && t.path == "" && !t.mark && t.hashes == 0 && t.query == "" && t.fragment == ""
    ensures ParseUrlChar(s, '#') == Dead
  {
  }

  // ---------------------------------------------------------------- the other forms

  /** The target of CONNECT: a host name and a port. */
  lemma ConnectIsParsed(host: string, port: string)
    requires host != "" && (forall i | 0 <= i < |host| :: HostNameByte(host[i])) && port != "" && forall i | 0 <= i < |port| :: Digit(port[i])
    ensures var url := host + ":" + port; var t := TargetOf(true, url); var a := AuthorityOf(t.authority).who;
            && Parses(true, url) && t.authority == url && t.schema == "" && t.path == "" && t.query == "" && t.fragment == ""
            && a.host == host && a.port == port && a.userinfo == ""
  {
    var u := Written("x", "", false, host, port, "", "", "");
    var t := Target("", 0, host + ":" + port, "", false, "", 0, "");
    assert u.Spelled() && u.AuthorityText() == host + ":" + port;
    hide Parses, TargetOf, AuthorityOf, GoodAuthority, Spell, SpellAuthority, Written.Spelled, Written.AuthorityText;
    WhoIsGood(u);
    WhoSpelled(u);
    PlainSpelled(t);
    UrlRoundTrip(true, t, u.Who());
  }

  lemma PlainSpelled(t: Target)
    requires t == Target("", 0, t.authority, "", false, "", 0, "")
    ensures Spell(t) == t.authority
  {
    hide Upto;
    JoinedEight(TargetParts(t));
    assert "://"[..0] == "" && Hashes(0) == "";
  }

  /** A path with a query and a fragment, or `*`: no host is looked for. */
  lemma PathIsParsed(path: string, query: string, fragment: string)
    requires path != "" && (path[0] == '/' || path[0] == '*')
    requires (forall i | 0 <= i < |path| :: Visible(path[i]) && path[i] != '?' && path[i] != '#')
    requires (forall i | 0 <= i < |query| :: Visible(query[i]) && query[i] != '#') && (forall i | 0 <= i < |fragment| :: Visible(fragment[i]))
    requires fragment != "" ==> fragment[0] != '#'
    ensures var url := path + (if query == "" then "" else "?" + query) + (if fragment == "" then "" else "#" + fragment);
            var t := TargetOf(false, url);
            Parses(false, url) && t.schema == "" && t.authority == "" && t.path == path && t.query == query && t.fragment == fragment
  {
    var t := Target("", 0, "", path, query != "", query, if fragment == "" then 0 else 1, fragment);
    hide Parses, TargetOf, AuthorityOf, Spell, IsUrlChar, Visible;
    forall i | 0 <= i < |path|
      ensures IsUrlChar(path[i])
    {
      ClassesExact(path[i]);
    }
    forall i | 0 <= i < |query|
      ensures IsUrlChar(query[i]) || query[i] == '?'
    {
      ClassesExact(query[i]);
    }
    forall i | 0 <= i < |fragment|
      ensures IsTail(fragment[i])
    {
      ClassesExact(fragment[i]);
    }
    PathSpelled(t);
    assert Spell(t) == path + (if query == "" then "" else "?" + query) + (if fragment == "" then "" else "#" + fragment);
    UrlRoundTrip(false, t, NOBODY);
  }

  lemma PathSpelled(t: Target)
    requires t.schema == "" && t.slashes == 0 && t.authority == "" && t.hashes <= 1
    ensures Spell(t) == t.path + (if t.mark then "?" + t.query else t.query) + (if t.hashes == 0 then "" else "#") + t.fragment
  {
    hide Upto;
    JoinedEight(TargetParts(t));
    assert "://"[..0] == "" && Hashes(0) == "" && Hashes(1) == "#";
  }

  /** One URL with all its fields. */
  const EXAMPLE := Written("http", "u:p", false, "www.example.com", "80", "/a", "q=1", "top")

  lemma ExampleSpelled()
    ensures EXAMPLE.Spelled()
  {
    assert forall i | 0 <= i < 3 :: UserinfoByte("u:p"[i]);
    assert forall i | 0 <= i < 15 :: HostNameByte("www.example.com"[i]);
  }

  lemma ExampleText()
    ensures EXAMPLE.Text() == "http://u:p@" + "www.example.com:80" + "/a?q=1#top"
  {
    assert EXAMPLE.AuthorityText() == "u:p@" + "www.example.com:80";
    assert "http" + "://" + ("u:p@" + "www.example.com:80") == "http://u:p@" + "www.example.com:80";
  }

  lemma ExampleIsGood()
    ensures EXAMPLE.Good() && EXAMPLE.Text() == "http://u:p@" + "www.example.com:80" + "/a?q=1#top"
  {
    hide Written.Spelled, Written.Text;
    ExampleSpelled();
    ExampleText();
    assert "80"[..1] == "8" && "8"[..0] == "";
    assert DecimalOf("8") == 8 && DecimalOf("80") == 80;
  }
}
