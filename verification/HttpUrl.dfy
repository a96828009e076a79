/** `http_parser_parse_url` and `http_parse_host`.  The URL loop files the bytes of a
    URL under fields by the state the request-line machine is in after each; the host
    loop splits the authority again with a machine of its own.  `TargetOf` and
    `AuthorityOf` say what has been filed where, `IsUrl` is the grammar, and the two
    agree on every string. */
module HttpUrl {
  import opened HttpChars
  import opened HttpParser
  import opened HttpMessages

  // ---------------------------------------------------------------- texts in numbered parts

  /** The text of the first `k` parts. */
  function Upto(ps: seq<string>, k: nat): string
    requires k <= |ps|
  {
    if k == 0 then "" else Upto(ps, k - 1) + ps[k - 1]
  }

  function Joined(ps: seq<string>): string {
    Upto(ps, |ps|)
  }

  datatype Span = Span(off: nat, len: nat)

  /** Where part `k` lies in a buffer in which the text starts at `base`; a part that
      is not there has the zeroed entry. */
  function SpanIn(ps: seq<string>, k: nat, base: nat): Span
    requires k < |ps|
  {
    if ps[k] == "" then Span(0, 0) else Span(base + |Upto(ps, k)|, |ps[k]|)
  }

  lemma {:induction false} UptoSame(ps: seq<string>, qs: seq<string>, k: nat)
    requires k <= |ps| && k <= |qs| && forall i | 0 <= i < k :: ps[i] == qs[i]
    ensures Upto(ps, k) == Upto(qs, k)
  {
    if k > 0 {
      UptoSame(ps, qs, k - 1);
    }
  }

  lemma {:induction false} UptoLast(ps: seq<string>, k: nat, n: nat)
    requires k <= n <= |ps| && forall i | k <= i < n :: ps[i] == ""
    ensures Upto(ps, n) == Upto(ps, k)
  {
    if k < n {
      UptoLast(ps, k, n - 1);
    }
  }

  /** Adding a byte to the last part there is adds it to the text, moves no other part,
      and either starts the part at the end of the text or makes it one longer. */
  lemma Appended(ps: seq<string>, k: nat, ch: char, base: nat)
    requires k < |ps| && forall i | k < i < |ps| :: ps[i] == ""
    ensures var qs := ps[k := ps[k] + [ch]];
            && Joined(qs) == Joined(ps) + [ch]
            && (forall i | 0 <= i < |ps| && i != k :: SpanIn(qs, i, base) == SpanIn(ps, i, base))
            && SpanIn(qs, k, base) == if ps[k] == "" then Span(base + |Joined(ps)|, 1)
                                      else Span(SpanIn(ps, k, base).off, SpanIn(ps, k, base).len + 1)
  {
    var qs := ps[k := ps[k] + [ch]];
    UptoSame(ps, qs, k);
    UptoLast(ps, k + 1, |ps|);
    UptoLast(qs, k + 1, |ps|);
    forall i | 0 <= i < |ps| && i != k
      ensures SpanIn(qs, i, base) == SpanIn(ps, i, base)
    {
      if i < k {
        UptoSame(ps, qs, i);
      }
    }
  }

  /** The bytes a span covers are the part it stands for. */
  lemma {:induction false} SpanText(ps: seq<string>, k: nat, n: nat)
    requires k < n <= |ps|
    ensures var s := SpanIn(ps, k, 0); s.off + s.len <= |Upto(ps, n)| && Upto(ps, n)[s.off..s.off + s.len] == ps[k]
    ensures ps[k] != "" ==> SpanIn(ps, k, 0).off + SpanIn(ps, k, 0).len == |Upto(ps, k + 1)|
  {
    if n > k + 1 {
      SpanText(ps, k, n - 1);
    }
  }

  // ---------------------------------------------------------------- the URL machine

  /** The parts of a URL: `schema` "://" `authority` `path` "?" `query` "#"… `fragment`,
      where `slashes` is how much of "://" there is and `mark` whether there is a '?'. */
  datatype Target = Target(schema: string, slashes: nat, authority: string, path: string,
                           mark: bool, query: string, hashes: nat, fragment: string)

  const NOTHING := Target("", 0, "", "", false, "", 0, "")

  function Hashes(n: nat): string {
    seq(n, _ => '#')
  }

  function TargetParts(t: Target): (ps: seq<string>)
    ensures |ps| == 8
  {
    [t.schema, if t.slashes <= 3 then "://"[..t.slashes] else "", t.authority, t.path,
     if t.mark then "?" else "", t.query, Hashes(t.hashes), t.fragment]
  }

  function Spell(t: Target): string {
    Joined(TargetParts(t))
  }

  /** A state of the machine and what has been filed so far. */
  datatype Spot = Spot(state: State, target: Target)

  function Entry(connect: bool): State {
    if connect then ServerStart else SpacesBeforeUrl
  }

  /** Files bytes under the part that `s`, the state they lead to, stands for. */
  function File(t: Target, s: State, v: string): Target {
    if s.Schema? then t.(schema := t.schema + v)
    else if s.SchemaSlash? || s.SchemaSlashSlash? || s.ServerStart? then t.(slashes := t.slashes + |v|)
    else if s.Server? || s.ServerWithAt? then t.(authority := t.authority + v)
    else if s.Path? then t.(path := t.path + v)
    else if s.QueryStart? then t.(mark := true)
    else if s.Query? then t.(query := t.query + v)
    else if s.FragmentStart? then t.(hashes := t.hashes + |v|)
    else if s.Fragment? then t.(fragment := t.fragment + v)
    else t
  }

  /** The number of the part that `s` stands for. */
  function Level(s: State): (k: nat)
    ensures k <= 7
  {
    if s.Schema? then 0
    else if s.SchemaSlash? || s.SchemaSlashSlash? || s.ServerStart? then 1
    else if s.Server? || s.ServerWithAt? then 2
    else if s.Path? then 3
    else if s.QueryStart? then 4
    else if s.Query? then 5
    else if s.FragmentStart? then 6
    else 7
  }

  function ReadByte(p: Spot, ch: char): Spot {
    var s := ParseUrlChar(p.state, ch);
    Spot(s, File(p.target, s, [ch]))
  }

  function Read(p: Spot, text: string): Spot {
    if text == [] then p else ReadByte(Read(p, text[..|text| - 1]), text[|text| - 1])
  }

  function Origin(connect: bool): Spot {
    Spot(Entry(connect), NOTHING)
  }

  function TargetOf(connect: bool, url: string): Target {
    Read(Origin(connect), url).target
  }

  // ---------------------------------------------------------------- the grammar

  predicate IsTail(c: char) {
    IsUrlChar(c) || c == '?' || c == '#'
  }

  predicate IsAuthorityByte(c: char) {
    IsUserinfoChar(c) || c == '[' || c == ']' || c == '@'
  }

  /** The texts the URL machine takes for an authority. */
  predicate AuthorityText(v: string) {
    && (forall i | 0 <= i < |v| :: IsAuthorityByte(v[i]))
    && (forall i | 0 < i < |v| :: !(v[i - 1] == '@' && v[i] == '@'))
  }

  /** What the other parts of a URL are made of. */
  predicate Parts(t: Target) {
    && (forall i | 0 <= i < |t.schema| :: IsAlpha(t.schema[i]))
    && (forall i | 0 <= i < |t.path| :: IsUrlChar(t.path[i]))
    && (forall i | 0 <= i < |t.query| :: IsUrlChar(t.query[i]) || t.query[i] == '?')
    && (forall i | 0 <= i < |t.fragment| :: IsTail(t.fragment[i]))
    && (t.fragment != "" ==> t.fragment[0] != '#')
  }

  /** The parts a complete URL has.  A URL with a scheme, and the target of CONNECT, has an
      authority; any other starts with '/' or '*', or is empty. */
  predicate GoodTarget(connect: bool, t: Target) {
    && Parts(t)
    && t.slashes == (if t.schema == "" then 0 else 3)
    && (t.schema != "" ==> !connect)
    && (t.authority != "" <==> connect || t.schema != "")
    && (t.path != "" ==> t.path[0] == '/' || (t.authority == "" && t.path[0] == '*'))
    && (t.query != "" ==> t.mark)
    && (t.fragment != "" ==> t.hashes > 0)
    && (t.mark ==> t.authority != "" || t.path != "")
    && (t.hashes > 0 ==> t.mark || t.path != "")
  }

  // ---------------------------------------------------------------- reading keeps the text

  /** What has been filed when the machine is in state `s`. */
  predicate Shape(connect: bool, s: State, t: Target) {
    && Parts(t) && AuthorityText(t.authority)
    && t.slashes <= 3
    && (t.schema != "" ==> !connect)
    && (t.slashes > 0 ==> t.schema != "")
    && (t.authority != "" || s.ServerStart? ==> connect || t.slashes == 3)
    && (t.path != "" ==> if connect || t.schema != "" then t.slashes == (if connect then 0 else 3) && t.path[0] == '/'
                         else t.path[0] == '/' || t.path[0] == '*')
    && (t.query != "" ==> t.mark)
    && (t.fragment != "" ==> t.hashes > 0)
    && (t.mark ==> connect || t.slashes == 3 || t.path != "")
    && (t.hashes > 0 ==> t.mark || t.path != "")
    && (if s.Fragment? then t.fragment != ""
        else if s.FragmentStart? then t.fragment == "" && t.hashes > 0
        else if s.Query? then t.fragment == "" && t.hashes == 0 && t.query != ""
        else t.fragment == "" && t.hashes == 0 && t.query == "" &&
             if s.QueryStart? then t.mark
             else if s.Path? then !t.mark && t.path != ""
             else !t.mark && t.path == "" &&
                  if s.Server? || s.ServerWithAt? then
                    t.authority != "" && (s.ServerWithAt? <==> t.authority[|t.authority| - 1] == '@')
                  else t.authority == "" &&
                       if s.ServerStart? then true
                       else if s.SchemaSlashSlash? then t.slashes == 2
                       else if s.SchemaSlash? then t.slashes == 1
                       else t.slashes == 0 && if s.Schema? then t.schema != "" else s.SpacesBeforeUrl? && t == NOTHING && !connect)
  }

  /** What the byte was and where it came from, told by the state it led to. */
  lemma ByteClass(s: State, ch: char)
    requires ParseUrlChar(s, ch) != Dead
    ensures var r := ParseUrlChar(s, ch);
            && InUrl(r)
            && (r.Schema? ==> IsAlpha(ch))
            && (r.SchemaSlash? ==> ch == ':' && s.Schema?)
            && (r.SchemaSlashSlash? ==> ch == '/' && s.SchemaSlash?)
            && (r.ServerStart? ==> ch == '/' && s.SchemaSlashSlash?)
            && (r.Server? || r.ServerWithAt? ==> IsAuthorityByte(ch) && (s.Server? || s.ServerWithAt? || s.ServerStart?))
            && (r.Server? || r.ServerWithAt? ==> (r.ServerWithAt? <==> ch == '@') && (s.ServerWithAt? ==> ch != '@'))
            && (r.Path? ==> IsUrlChar(ch))
            && (r.QueryStart? ==> ch == '?' && (s.Path? || s.Server? || s.ServerWithAt? || s.ServerStart?))
            && (r.Query? ==> IsUrlChar(ch) || ch == '?')
            && (r.FragmentStart? ==> ch == '#')
            && (r.Fragment? ==> IsTail(ch) && (s.Fragment? || (s.FragmentStart? && ch != '#')))
  {
    hide IsAlpha, IsUserinfoChar;
  }

  lemma PartsStep(connect: bool, s: State, t: Target, ch: char)
    requires Shape(connect, s, t) && ParseUrlChar(s, ch) != Dead
    ensures var n := File(t, ParseUrlChar(s, ch), [ch]); Parts(n) && AuthorityText(n.authority)
  {
    hide IsAlpha, IsAuthorityByte, IsUrlChar, ParseUrlChar, IsTail;
    ByteClass(s, ch);
  }

  lemma SchemaShape(connect: bool, s: State, t: Target, ch: char)
    requires Shape(connect, s, t) && (s.SpacesBeforeUrl? || s.Schema? || s.SchemaSlash? || s.SchemaSlashSlash?)
    requires ParseUrlChar(s, ch) != Dead
    ensures var r := ParseUrlChar(s, ch); Shape(connect, r, File(t, r, [ch]))
  {
    hide IsAlpha, IsUserinfoChar, IsUrlChar, Parts, AuthorityText;
    PartsStep(connect, s, t, ch);
  }

  lemma ServerShape(connect: bool, s: State, t: Target, ch: char)
    requires Shape(connect, s, t) && (s.ServerStart? || s.Server? || s.ServerWithAt?) && ParseUrlChar(s, ch) != Dead
    ensures var r := ParseUrlChar(s, ch); Shape(connect, r, File(t, r, [ch]))
  {
    hide IsAlpha, IsUserinfoChar, IsUrlChar, Parts, AuthorityText;
    PartsStep(connect, s, t, ch);
  }

  lemma PathShape(connect: bool, s: State, t: Target, ch: char)
    requires Shape(connect, s, t) && (s.Path? || s.QueryStart? || s.Query?) && ParseUrlChar(s, ch) != Dead
    ensures var r := ParseUrlChar(s, ch); Shape(connect, r, File(t, r, [ch]))
  {
    hide IsAlpha, IsUserinfoChar, IsUrlChar, Parts, AuthorityText;
    PartsStep(connect, s, t, ch);
  }

  lemma FragmentShape(connect: bool, s: State, t: Target, ch: char)
    requires Shape(connect, s, t) && (s.FragmentStart? || s.Fragment?) && ParseUrlChar(s, ch) != Dead
    ensures var r := ParseUrlChar(s, ch); Shape(connect, r, File(t, r, [ch]))
  {
    hide IsAlpha, IsUserinfoChar, IsUrlChar, Parts, AuthorityText;
    PartsStep(connect, s, t, ch);
  }

  lemma ShapeStep(connect: bool, s: State, t: Target, ch: char)
    requires Shape(connect, s, t) && ParseUrlChar(s, ch) != Dead
    ensures var r := ParseUrlChar(s, ch); Shape(connect, r, File(t, r, [ch]))
  {
    hide Shape, File;
    if s.SpacesBeforeUrl? || s.Schema? || s.SchemaSlash? || s.SchemaSlashSlash? {
      SchemaShape(connect, s, t, ch);
    } else if s.ServerStart? || s.Server? || s.ServerWithAt? {
      ServerShape(connect, s, t, ch);
    } else if s.FragmentStart? || s.Fragment? {
      FragmentShape(connect, s, t, ch);
    } else {
      PathShape(connect, s, t, ch);
    }
  }

  lemma PartAppends(connect: bool, s: State, t: Target, ch: char, i: nat)
    requires Shape(connect, s, t) && ParseUrlChar(s, ch) != Dead && i < 8
    ensures var r := ParseUrlChar(s, ch);
            TargetParts(File(t, r, [ch]))[i] == if i == Level(r) then TargetParts(t)[i] + [ch] else TargetParts(t)[i]
  {
    hide ParseUrlChar, IsAuthorityByte, IsTail, IsAlpha, IsUserinfoChar, IsUrlChar, Parts, AuthorityText;
    ByteClass(s, ch);
    var r := ParseUrlChar(s, ch);
    if Level(r) == 1 {
      assert t.slashes == (if s.Schema? then 0 else if s.SchemaSlash? then 1 else 2);
      assert "://"[..t.slashes + 1] == "://"[..t.slashes] + [ch];
    } else if r.FragmentStart? {
      assert Hashes(t.hashes + 1) == Hashes(t.hashes) + [ch];
    }
  }

  lemma LaterPartsEmpty(connect: bool, s: State, t: Target)
    requires Shape(connect, s, t) && InUrl(s)
    ensures forall i | Level(s) < i < 8 :: TargetParts(t)[i] == ""
  {
    hide Parts, AuthorityText;
  }

  /** A byte goes to the end of one part, and no later part has any bytes yet. */
  lemma FileAppends(connect: bool, s: State, t: Target, ch: char)
    requires Shape(connect, s, t) && ParseUrlChar(s, ch) != Dead
    ensures var r := ParseUrlChar(s, ch); var ps := TargetParts(t); var k := Level(r);
            && TargetParts(File(t, r, [ch])) == ps[k := ps[k] + [ch]]
            && forall i | k < i < 8 :: ps[i] == ""
  {
    hide ParseUrlChar, Shape, TargetParts, File, Level;
    var r := ParseUrlChar(s, ch);
    ByteClass(s, ch);
    ShapeStep(connect, s, t, ch);
    LaterPartsEmpty(connect, r, File(t, r, [ch]));
    forall i: nat | i < 8
      ensures TargetParts(File(t, r, [ch]))[i] == if i == Level(r) then TargetParts(t)[i] + [ch] else TargetParts(t)[i]
    {
      PartAppends(connect, s, t, ch, i);
    }
  }

  lemma {:induction false} ReadKeeps(connect: bool, url: string)
    requires Read(Origin(connect), url).state != Dead
    ensures var p := Read(Origin(connect), url); Shape(connect, p.state, p.target) && Spell(p.target) == url
    ensures forall n | 0 <= n <= |url| :: Read(Origin(connect), url[..n]).state != Dead
  {
    hide ParseUrlChar, Shape, File, Level, TargetParts;
    if url == [] {
      EmptyShape(connect);
    } else {
      var n := |url| - 1;
      var p := Read(Origin(connect), url[..n]);
      DeadStays(url[n]);
      ReadKeeps(connect, url[..n]);
      ShapeStep(connect, p.state, p.target, url[n]);
      FileAppends(connect, p.state, p.target, url[n]);
      Appended(TargetParts(p.target), Level(ParseUrlChar(p.state, url[n])), url[n], 0);
      forall i | 0 <= i <= |url|
        ensures Read(Origin(connect), url[..i]).state != Dead
      {
        assert if i == |url| then url[..i] == url else url[..n][..i] == url[..i];
      }
    }
  }

  lemma EmptyShape(connect: bool)
    ensures Shape(connect, Entry(connect), NOTHING) && Spell(NOTHING) == ""
  {
    UptoLast(TargetParts(NOTHING), 0, 8);
  }

  lemma DeadStays(ch: char)
    ensures ParseUrlChar(Dead, ch) == Dead
  {
  }

  lemma {:induction false} ReadState(connect: bool, url: string)
    ensures Read(Origin(connect), url).state == UrlState(Entry(connect), url)
  {
    hide ParseUrlChar;
    if url != [] {
      ReadState(connect, url[..|url| - 1]);
    }
  }
}
