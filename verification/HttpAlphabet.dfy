/** The byte classes of the parser against the ones the standards write down, letter by letter. */
module HttpAlphabet {
  import opened HttpChars
  import opened HttpParser
  import opened HttpHeaders

  const CAPITALS := "ABCDEFGHIJKLMNOPQRSTUVWXYZ"
  const SMALL := "abcdefghijklmnopqrstuvwxyz"

  predicate Letter(c: char) {
    'A' <= c <= 'Z' || 'a' <= c <= 'z'
  }

  predicate Digit(c: char) {
    '0' <= c <= '9'
  }

  /** `tchar` of section 3.2.6 of RFC 7230. */
  predicate Tchar(c: char) {
    Letter(c) || Digit(c) || c in "!#$%&'*+-.^_`|~"
  }

  /** `unreserved` of section 2.3 of RFC 3986. */
  predicate Unreserved(c: char) {
    Letter(c) || Digit(c) || c in "-._~"
  }

  /** `sub-delims` of section 2.2 of RFC 3986. */
  predicate SubDelim(c: char) {
    c in "!$&'()*+,;="
  }

  /** A character of the user information of section 3.2.1 of RFC 3986; escapes are not looked into. */
  predicate UserinfoByte(c: char) {
    Unreserved(c) || SubDelim(c) || c == '%' || c == ':'
  }

  /** A character of a host name of section 2.1 of RFC 1123. */
  predicate HostNameByte(c: char) {
    Letter(c) || Digit(c) || c == '-' || c == '.'
  }

  /** A character of an address in brackets. */
  predicate AddressByte(c: char) {
    Digit(c) || 'A' <= c <= 'F' || 'a' <= c <= 'f' || c == ':' || c == '.'
  }

  /** Printable ASCII but the blank. */
  predicate Visible(c: char) {
    33 <= c as int <= 126
  }

  /** Each class of the parser is the one of the standard, for every byte. */
  lemma ClassesExact(c: char)
    ensures IsAlpha(c) <==> Letter(c)
    ensures IsNum(c) <==> Digit(c)
    ensures IsToken(c) <==> Tchar(c)
    ensures IsUserinfoChar(c) <==> UserinfoByte(c)
    ensures IsHostChar(c) <==> HostNameByte(c)
    ensures IsHex(c) <==> Digit(c) || 'A' <= c <= 'F' || 'a' <= c <= 'f'
    ensures IsUrlChar(c) <==> Visible(c) && c != '#' && c != '?'
  {
  }

  // ---------------------------------------------------------------- capitals

  /** The same letter, whatever its case, or the same character. */
  predicate SameLetter(a: char, b: char) {
    a == b || exists k :: 0 <= k < 26 && ((a == CAPITALS[k] && b == SMALL[k]) || (a == SMALL[k] && b == CAPITALS[k]))
  }

  predicate SameLetters(s: string, t: string) {
    |s| == |t| && forall i :: 0 <= i < |s| ==> SameLetter(s[i], t[i])
  }

  lemma Alphabets(k: nat)
    requires k < 26
    ensures CAPITALS[k] == (65 + k) as char && SMALL[k] == (97 + k) as char
  {
  }

  /** The `tokens` table turns capitals into small letters and leaves everything else. */
  lemma TokenFolds(c: char)
    requires IsToken(c)
    ensures SameLetter(Token(c), c) && !('A' <= Token(c) <= 'Z')
  {
    if 'A' <= c <= 'Z' {
      Alphabets(c as int - 65);
    }
  }

  /** The LOWER macro folds letters; it does not touch other printable bytes that are compared with. */
  lemma LowerFolds(c: char)
    ensures Letter(c) ==> SameLetter(Lower(c), c) && 'a' <= Lower(c) <= 'z'
    ensures Lower(c) == '-' <==> c == '-' || c == CR
    ensures 'a' <= Lower(c) <= 'z' ==> Letter(c)
  {
    if 'A' <= c <= 'Z' {
      Alphabets(c as int - 65);
    }
  }

  lemma SameSmall(a: char, b: char)
    requires SameLetter(a, b) && !('A' <= a <= 'Z') && !('A' <= b <= 'Z')
    ensures a == b
  {
    if a != b {
      var k :| 0 <= k < 26 && ((a == CAPITALS[k] && b == SMALL[k]) || (a == SMALL[k] && b == CAPITALS[k]));
      Alphabets(k);
      assert false;
    }
  }

  lemma SameTrans(a: char, b: char, c: char)
    requires SameLetter(a, b) && SameLetter(b, c)
    ensures SameLetter(a, c)
  {
    if a != b && b != c {
      var k :| 0 <= k < 26 && ((a == CAPITALS[k] && b == SMALL[k]) || (a == SMALL[k] && b == CAPITALS[k]));
      var j :| 0 <= j < 26 && ((b == CAPITALS[j] && c == SMALL[j]) || (b == SMALL[j] && c == CAPITALS[j]));
      Alphabets(k);
      Alphabets(j);
    }
  }

  lemma SameSym(a: char, b: char)
    requires SameLetter(a, b)
    ensures SameLetter(b, a)
  {
  }

  predicate NoCapitals(s: string) {
    forall i :: 0 <= i < |s| ==> !('A' <= s[i] <= 'Z')
  }

  lemma {:induction false} FoldedAt(name: string, i: nat)
    requires AllTokens(name) && i < |name|
    ensures IsToken(name[i]) && Folded(name)[i] == Token(name[i])
    decreases |name|
  {
    assert name[i] in name;
    if i < |name| - 1 {
      FoldedAt(name[..|name| - 1], i);
    }
  }

  /** Names are compared without regard to case. */
  lemma NamesFold(name: string, low: string)
    requires AllTokens(name) && NoCapitals(low)
    ensures Folded(name) == low <==> SameLetters(name, low)
  {
    hide IsToken, Token, SameLetter;
    if Folded(name) == low {
      forall i | 0 <= i < |name|
        ensures SameLetter(name[i], low[i])
      {
        FoldedAt(name, i);
        TokenFolds(name[i]);
        SameSym(Token(name[i]), name[i]);
      }
    }
    if SameLetters(name, low) {
      forall i | 0 <= i < |name|
        ensures Folded(name)[i] == low[i]
      {
        FoldedAt(name, i);
        TokenFolds(name[i]);
        SameTrans(Token(name[i]), name[i], low[i]);
        SameSmall(Token(name[i]), low[i]);
      }
    }
  }

  lemma SmallNames()
    ensures NoCapitals("content-length") && NoCapitals("transfer-encoding") && NoCapitals("upgrade")
    ensures NoCapitals("connection") && NoCapitals("proxy-connection")
  {
    assert NoCapitals("content-length");
    assert NoCapitals("transfer-encoding");
    assert NoCapitals("proxy-connection");
  }

  /** The names that mean something to the parser, in any mixture of cases; all others mean nothing. */
  lemma SpecialNames(name: string)
    requires AllTokens(name) && |name| > 0
    ensures var h := NameState(Folded(name));
            && (h == HeaderState.ContentLength <==> SameLetters(name, "content-length"))
            && (h == HeaderState.TransferEncoding <==> SameLetters(name, "transfer-encoding"))
            && (h == HeaderState.Upgrade <==> SameLetters(name, "upgrade"))
            && (h == HeaderState.Connection <==> SameLetters(name, "connection") || SameLetters(name, "proxy-connection"))
  {
    hide NameState, SameLetters, NoCapitals;
    NameStateExact(Folded(name));
    SmallNames();
    NamesFold(name, "content-length");
    NamesFold(name, "transfer-encoding");
    NamesFold(name, "upgrade");
    NamesFold(name, "connection");
    NamesFold(name, "proxy-connection");
  }

  lemma {:induction false} LoweredAt(v: string, i: nat)
    requires i < |v|
    ensures Lowered(v)[i] == Lower(v[i])
    decreases |v|
  {
    if i < |v| - 1 {
      LoweredAt(v[..|v| - 1], i);
    }
  }

  /** A word of small letters and dashes. */
  predicate Word(low: string) {
    forall i :: 0 <= i < |low| ==> 'a' <= low[i] <= 'z' || low[i] == '-'
  }

  lemma LowerIs(c: char, l: char)
    requires c != CR && ('a' <= l <= 'z' || l == '-')
    ensures Lower(c) == l <==> SameLetter(c, l)
  {
    hide Lower;
    LowerFolds(c);
    if Lower(c) == l && l != '-' {
      SameSym(Lower(c), c);
    }
    if SameLetter(c, l) {
      if l == '-' {
        if c != '-' {
          var k :| 0 <= k < 26 && ((c == CAPITALS[k] && l == SMALL[k]) || (c == SMALL[k] && l == CAPITALS[k]));
          Alphabets(k);
          assert false;
        }
      } else {
        LetterOf(c, l);
        SameTrans(Lower(c), c, l);
        SameSmall(Lower(c), l);
      }
    }
  }

  lemma LetterOf(c: char, l: char)
    requires SameLetter(c, l) && 'a' <= l <= 'z'
    ensures Letter(c)
  {
    if c != l {
      var k :| 0 <= k < 26 && ((c == CAPITALS[k] && l == SMALL[k]) || (c == SMALL[k] && l == CAPITALS[k]));
      Alphabets(k);
    }
  }

  /** Keywords in values are compared without regard to case. */
  lemma WordsFold(v: string, low: string)
    requires AllText(v) && Word(low)
    ensures Lowered(v) == low <==> SameLetters(v, low)
  {
    hide Lower, SameLetter;
    if |v| == |low| {
      forall i | 0 <= i < |v|
        ensures Lowered(v)[i] == low[i] <==> SameLetter(v[i], low[i])
      {
        LoweredAt(v, i);
        assert v[i] in v;
        LowerIs(v[i], low[i]);
      }
      assert Lowered(v) == low <==> forall i :: 0 <= i < |v| ==> Lowered(v)[i] == low[i];
    }
  }

  /** A word in any mixture of cases, then blanks. */
  predicate SaysWord(v: string, low: string) {
    |v| >= |low| && SameLetters(v[..|low|], low) && forall i :: |low| <= i < |v| ==> v[i] == ' '
  }

  lemma WordIs(v: string, low: string)
    requires AllText(v) && Word(low)
    ensures IsWord(v, low) <==> SaysWord(v, low)
  {
    if |v| >= |low| {
      hide Lowered, SameLetters;
      assert forall c | c in v[..|low|] :: c in v;
      WordsFold(v[..|low|], low);
      assert AllSpaces(v[|low|..]) <==> forall i :: |low| <= i < |v| ==> v[i] == ' ' by {
        var tail := v[|low|..];
        assert forall i | |low| <= i < |v| :: v[i] == tail[i - |low|] && tail[i - |low|] in tail;
      }
    }
  }

  lemma SmallWords()
    ensures Word("chunked") && Word("keep-alive") && Word("close")
  {
    assert Word("chunked");
    assert Word("keep-alive");
  }

  /** The values that mean something to the parser: one word in any mixture of cases, and blanks behind it. */
  lemma SpecialValues(h: HeaderState, v: string)
    requires |v| > 0 && AllText(v)
    ensures ValueState(h, v) == Chunked <==> h.TransferEncoding? && SaysWord(v, "chunked")
    ensures ValueState(h, v) == KeepAliveSeen <==> h.Connection? && SaysWord(v, "keep-alive")
    ensures ValueState(h, v) == CloseSeen <==> h.Connection? && SaysWord(v, "close")
  {
    hide ValueState, SaysWord, IsWord, Word;
    ValueStateExact(h, v);
    SmallWords();
    WordIs(v, "chunked");
    WordIs(v, "keep-alive");
    WordIs(v, "close");
  }

  // ---------------------------------------------------------------- method names

  /** The names of the methods, in the order of their numbers. */
  lemma FirstNames()
    ensures Name(DELETE) == "DELETE" && Name(GET) == "GET" && Name(HEAD) == "HEAD" && Name(POST) == "POST" && Name(PUT) == "PUT"
    ensures Name(CONNECT) == "CONNECT" && Name(OPTIONS) == "OPTIONS" && Name(TRACE) == "TRACE"
  {
  }

  lemma DavNames()
    ensures Name(COPY) == "COPY" && Name(LOCK) == "LOCK" && Name(MKCOL) == "MKCOL" && Name(MOVE) == "MOVE"
    ensures Name(PROPFIND) == "PROPFIND" && Name(PROPPATCH) == "PROPPATCH" && Name(SEARCH) == "SEARCH" && Name(UNLOCK) == "UNLOCK"
  {
  }

  lemma OtherNames()
    ensures Name(REPORT) == "REPORT" && Name(MKACTIVITY) == "MKACTIVITY" && Name(CHECKOUT) == "CHECKOUT" && Name(MERGE) == "MERGE"
    ensures Name(MSEARCH) == "M-SEARCH" && Name(NOTIFY) == "NOTIFY"
  {
  }

  lemma LastNames()
    ensures Name(SUBSCRIBE) == "SUBSCRIBE" && Name(UNSUBSCRIBE) == "UNSUBSCRIBE"
    ensures Name(PATCH) == "PATCH" && Name(PURGE) == "PURGE" && Name(MKCALENDAR) == "MKCALENDAR"
  {
  }
}
