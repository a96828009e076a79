/** A client that writes chunked bodies: sizes in hexadecimal, in small letters or capitals. */
module HttpChunks {
  import opened HttpChars
  import opened HttpParser
  import opened HttpRuns
  import opened HttpSegments
  import opened HttpMessages
  import opened HttpBodies

  const DIGITS := "0123456789abcdef"
  const CAPITAL_DIGITS := "0123456789ABCDEF"

  function HexDigit(n: nat, capitals: bool): char
    requires n < 16
  {
    if capitals then CAPITAL_DIGITS[n] else DIGITS[n]
  }

  /** A number in base 16. */
  function Hex(n: nat, capitals: bool): string {
    if n < 16 then [HexDigit(n, capitals)] else Hex(n / 16, capitals) + [HexDigit(n % 16, capitals)]
  }

  lemma DigitReadBack(n: nat, capitals: bool)
    requires n < 16
    ensures Unhex(HexDigit(n, capitals)) == n
  {
  }

  /** The parser reads the number that was written. */
  lemma {:induction false} HexReadBack(n: nat, capitals: bool)
    ensures |Hex(n, capitals)| > 0 && forall c <- Hex(n, capitals) :: IsSizeByte(c)
    ensures HexOf(Hex(n, capitals)) == n
    decreases n
  {
    hide Unhex;
    var s := Hex(n, capitals);
    if n < 16 {
      DigitReadBack(n, capitals);
      assert s[..0] == "";
    } else {
      HexReadBack(n / 16, capitals);
      DigitReadBack(n % 16, capitals);
      assert s[..|s| - 1] == Hex(n / 16, capitals);
    }
  }

  lemma {:induction false} PrefixIsLess(s: string, i: nat)
    requires i < |s| && forall c <- s :: IsSizeByte(c)
    ensures (forall c <- s[..i] :: IsSizeByte(c)) && 16 * HexOf(s[..i]) <= HexOf(s)
    decreases |s|
  {
    hide Unhex;
    HexLast(s);
    var n := |s| - 1;
    if i < n {
      PrefixIsLess(s[..n], i);
      assert s[..n][..i] == s[..i];
    }
  }

  /** The sizes the parser takes are those below 2^64 - 16, and no others: beyond them the guard against overflow refuses the last digit. */
  lemma HexIsGood(n: nat, capitals: bool)
    ensures GoodSize(Hex(n, capitals)) <==> n < 18446744073709551600
  {
    hide HexOf, Unhex;
    HexReadBack(n, capitals);
    var s := Hex(n, capitals);
    if n < 18446744073709551600 {
      forall i | 0 < i < |s|
        ensures (forall c <- s[..i] :: IsSizeByte(c)) && HexOf(s[..i]) <= (ULLONG_MAX - 16) / 16
      {
        PrefixIsLess(s, i);
      }
    } else {
      HexReadBack(n / 16, capitals);
      var i := |s| - 1;
      assert s[..i] == Hex(n / 16, capitals);
    }
  }

  // ---------------------------------------------------------------- bodies

  /** A chunk as a client has it. */
  datatype Piece = Piece(bytes: string, capitals: bool, extension: string) {
    function Text(): string {
      Hex(|bytes|, capitals) + extension + "\r\n" + bytes + "\r\n"
    }

    predicate Good() {
      && 0 < |bytes| < 18446744073709551600
      && (extension == "" || ((extension[0] == ';' || extension[0] == ' ') && '\r' !in extension))
      && |Hex(|bytes|, capitals)| + |extension| + 2 <= 81920
    }

    function Chunk(): Chunk {
      HttpBodies.Chunk(SizeLine(Hex(|bytes|, capitals), extension), bytes)
    }
  }

  function PiecesText(ps: seq<Piece>): string {
    if ps == [] then "" else ps[0].Text() + PiecesText(ps[1..])
  }

  function PiecesBytes(ps: seq<Piece>): string {
    if ps == [] then "" else ps[0].bytes + PiecesBytes(ps[1..])
  }

  function Chunks(ps: seq<Piece>): seq<Chunk> {
    if ps == [] then [] else [ps[0].Chunk()] + Chunks(ps[1..])
  }

  lemma PieceIsChunk(p: Piece)
    requires p.Good()
    ensures p.Chunk().Good() && p.Chunk().Text() == p.Text()
  {
    hide Hex, HexOf, GoodSize;
    HexIsGood(|p.bytes|, p.capitals);
    HexReadBack(|p.bytes|, p.capitals);
    assert CRLF == "\r\n";
  }

  lemma {:induction false} PiecesAreChunks(ps: seq<Piece>)
    requires forall p <- ps :: p.Good()
    ensures GoodChunks(Chunks(ps)) && ChunkText(Chunks(ps)) == PiecesText(ps) && Payload(Chunks(ps)) == PiecesBytes(ps)
    decreases |ps|
  {
    hide Chunk.Good, Chunk.Text, Piece.Text, Piece.Chunk, Piece.Good;
    if ps != [] {
      assert ps[0] in ps;
      PieceIsChunk(ps[0]);
      PiecesAreChunks(ps[1..]);
      assert Chunks(ps)[1..] == Chunks(ps[1..]) && Chunks(ps)[0].bytes == ps[0].bytes by { ChunkBytes(ps[0]); }
    }
  }

  lemma ChunkBytes(p: Piece)
    ensures p.Chunk().bytes == p.bytes
  {
  }

  /** A body as a client writes it: its pieces, the last line "0", trailers and a blank line. */
  function WrittenBody(ps: seq<Piece>, trailers: seq<Header>, blank: Eol): CodedBody {
    CodedBody(Chunks(ps), SizeLine("0", ""), trailers, blank)
  }

  /** Its bytes, and that it is one the parser takes. */
  lemma WrittenIsGood(ps: seq<Piece>, trailers: seq<Header>, blank: Eol)
    requires (forall p <- ps :: p.Good()) && GoodHeaders(trailers) && |Lines(trailers)| + |blank.Text()| <= 81920
    ensures var b := WrittenBody(ps, trailers, blank);
            && b.Good() && b.Text() == PiecesText(ps) + ("0\r\n" + (Lines(trailers) + blank.Text()))
            && Payload(b.chunks) == PiecesBytes(ps)
  {
    hide Piece.Good, Piece.Text, ChunkText, Lines, GoodHeaders, GoodChunks;
    PiecesAreChunks(ps);
    NoughtIsLast();
  }

  lemma NoughtIsLast()
    ensures SizeLine("0", "").Good() && GoodSize("0") && HexOf("0") == 0 && SizeLine("0", "").Text() == "0\r\n"
  {
    assert Hex(0, false) == "0";
    HexReadBack(0, false);
    HexIsGood(0, false);
  }

  /** Chunked round trip from the client's side: whatever pieces it makes of a payload, in whatever case it writes
      the sizes, the payload is delivered in one run, then the trailers, then one message-complete. */
  lemma WrittenBodyRun(f: Fields, ps: seq<Piece>, trailers: seq<Header>, blank: Eol, rest: string, log: seq<Event>, skip: Fields -> bool)
      returns (g: Fields)
    requires f.state.ChunkSizeStart? && f.nread == 0
    requires (forall p <- ps :: p.Good()) && GoodHeaders(trailers) && |Lines(trailers)| + |blank.Text()| <= 81920
    ensures var text := PiecesText(ps) + ("0\r\n" + (Lines(trailers) + blank.Text()));
            var l := if PiecesBytes(ps) == "" then log else Append(log, Data(Body, PiecesBytes(ps)));
            RunAll(f, text + rest, log, skip) ==
            Shift(RunAll(g, rest, Append(HeadersLog(l, trailers), MessageComplete(KeepAlive(g))), skip), |text|)
    ensures g.state == if KeepAlive(g) then StartReq else Dead
  {
    hide RunAll, Piece.Good, Piece.Text, Append, KeepAlive, CodedBody.Good, CodedBody.Text, Lines;
    WrittenIsGood(ps, trailers, blank);
    g := CodedBodyRun(f, WrittenBody(ps, trailers, blank), rest, log, skip);
  }

  /** Ten bytes have the size `a`, sixteen and ten the size `1A` or `1a`. */
  lemma SmallSizes()
    ensures Piece("0123456789", false, "").Good() && Piece("0123456789", false, "").Text() == "a\r\n0123456789\r\n"
    ensures Hex(26, false) == "1a" && Hex(26, true) == "1A" && HexOf(Hex(26, true)) == 26
  {
    HexReadBack(26, true);
    assert Hex(1, false) == "1" && Hex(1, true) == "1";
  }
}
