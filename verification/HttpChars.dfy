/** The byte classes of the request parser, in strict mode.  A byte of the input
    is a `char` whose code is the byte's value; a buffer is a `string`. */
module HttpChars {

  const CR: char := '\r'
  const LF: char := '\n'

  /** Sets bit 5 of the byte, as the LOWER macro does. */
  function Lower(c: char): char {
    if c as int < 256 && c as int / 32 % 2 == 0 then (c as int + 32) as char else c
  }

  predicate IsAlpha(c: char) {
    'a' <= Lower(c) <= 'z'
  }

  predicate IsNum(c: char) {
    '0' <= c <= '9'
  }

  predicate IsAlphaNum(c: char) {
    IsAlpha(c) || IsNum(c)
  }

  predicate IsHex(c: char) {
    IsNum(c) || 'a' <= Lower(c) <= 'f'
  }

  predicate IsMark(c: char) {
    c == '-' || c == '_' || c == '.' || c == '!' || c == '~' || c == '*' || c == '\'' || c == '(' || c == ')'
  }

  predicate IsUserinfoChar(c: char) {
    IsAlphaNum(c) || IsMark(c) || c == '%' || c == ';' || c == ':' || c == '&' || c == '=' ||
    c == '+' || c == '$' || c == ','
  }

  predicate IsHostChar(c: char) {
    IsAlphaNum(c) || c == '.' || c == '-'
  }

  /** The bits set in `normal_url_char`: the visible ASCII bytes but '#' and '?'. */
  predicate IsUrlChar(c: char) {
    '!' <= c <= '~' && c != '#' && c != '?'
  }

  /** Membership in the `tokens` table: its entry is not zero. */
  predicate IsToken(c: char) {
    IsAlphaNum(c) || c == '!' || '#' <= c <= '\'' || c == '*' || c == '+' || c == '-' || c == '.' ||
    '^' <= c <= '`' || c == '|' || c == '~'
  }

  /** The entry of the `tokens` table for a token byte: letters are lower-cased. */
  function Token(c: char): char
    requires IsToken(c)
  {
    if 'A' <= c <= 'Z' then Lower(c) else c
  }

  /** `unhex` as written: 128 entries are listed, so the upper half of the table is zero. */
  function Unhex(c: char): int {
    if IsNum(c) then c as int - '0' as int
    else if 'a' <= c <= 'f' then c as int - 'a' as int + 10
    else if 'A' <= c <= 'F' then c as int - 'A' as int + 10
    else if c as int < 128 then -1
    else 0
  }

  function DigitValue(c: char): nat
    requires IsNum(c)
  {
    c as int - '0' as int
  }
}
