/** Knuth-Morris-Pratt search with the strong failure table, from the left and from the right. */
module Kmp {

  // ---------------------------------------------------------------- specification

  /** The first `k` letters of `p` are also the last `k` of its first `i`. */
  predicate Border(p: string, i: nat, k: nat) {
    k < i <= |p| && p[..k] == p[i - k..i]
  }

  /** `t` is the longest proper border of the first `i` letters, or -1 when `i` is 0. */
  predicate Longest(p: string, i: nat, t: int) {
    && i <= |p| && -1 <= t < i
    && (t >= 0 ==> Border(p, i, t))
    && (i > 0 ==> t >= 0)
    && forall k | t < k < i && k >= 0 :: !Border(p, i, k)
  }

  /** `t` is the longest border after which `p` goes on with another letter than at `i`; -1 if there is none. */
  predicate Strong(p: string, i: nat, t: int) {
    && i < |p| && -1 <= t < i
    && (t >= 0 ==> Border(p, i, t) && p[t] != p[i])
    && forall k | t < k < i && k >= 0 && Border(p, i, k) :: p[k] == p[i]
  }

  /** The failure table: strong entries, and the longest border of the whole word at the end. */
  ghost predicate IsTable(p: string, table: seq<int>) {
    && |table| > |p|
    && (forall i | 0 <= i < |p| :: Strong(p, i, table[i]))
    && Longest(p, |p|, table[|p|])
  }

  predicate OccursAt(p: string, text: string, s: int) {
    0 <= s && s + |p| <= |text| && text[s..s + |p|] == p
  }

  function Reverse(s: string): (r: string)
    ensures |r| == |s|
  {
    seq(|s|, i requires 0 <= i < |s| => s[|s| - 1 - i])
  }

  lemma ReverseAt(s: string, i: nat)
    requires i < |s|
    ensures Reverse(s)[i] == s[|s| - 1 - i]
  {
  }

  // ---------------------------------------------------------------- borders

  /** A shorter border is a border of the longer one, and conversely. */
  lemma BorderOfBorder(p: string, i: nat, j: nat, k: nat)
    requires Border(p, i, j) && k < j
    ensures Border(p, i, k) <==> Border(p, j, k)
  {
    assert p[..j][j - k..j] == p[j - k..j];
    assert p[i - j..i][j - k..j] == p[i - k..i];
  }

  /** Borders grow by one matching letter. */
  lemma BorderGrows(p: string, i: nat, k: nat)
    requires i < |p| && k < i
    ensures Border(p, i + 1, k + 1) <==> Border(p, i, k) && p[k] == p[i]
  {
    assert p[..k + 1] == p[..k] + [p[k]];
    assert p[i - k..i + 1] == p[i - k..i] + [p[i]];
  }

  /** Falling back through the table skips no border that could be extended. */
  lemma FallBack(p: string, i: nat, j: nat, t: int, c: char)
    requires i <= |p| && (Border(p, i, j) || j == i) && j < |p| && Strong(p, j, t) && p[j] != c
    ensures t >= 0 ==> Border(p, i, t)
    ensures forall k | t < k < j && k >= 0 && Border(p, i, k) :: p[k] != c
  {
    if t >= 0 && j != i {
      BorderOfBorder(p, i, j, t);
    }
    forall k | t < k < j && k >= 0 && Border(p, i, k)
      ensures p[k] != c
    {
      if j != i {
        BorderOfBorder(p, i, j, k);
      }
    }
  }

  /** The next longest border, found where the letters match. */
  lemma NextLongest(p: string, i: nat, j: int)
    requires i < |p| && -1 <= j < i + 1 && (j >= 0 ==> j < i && Border(p, i, j) && p[j] == p[i])
    requires i == 0 ==> j == -1
    requires forall k | j < k < i && k >= 0 && Border(p, i, k) :: p[k] != p[i]
    ensures Longest(p, i + 1, j + 1)
  {
    if j >= 0 {
      BorderGrows(p, i, j);
    } else {
      assert p[..0] == p[i + 1..i + 1];
    }
    var n := i + 1;
    forall k | j + 1 < k < n && k >= 0
      ensures !Border(p, n, k)
    {
      BorderGrows(p, i, k - 1);
    }
  }

  /** The entry the builder stores is the strong one. */
  lemma StoreStrong(p: string, i: nat, j: int, t: int)
    requires i < |p| && Longest(p, i, j) && j >= 0 && Strong(p, j, t)
    ensures Strong(p, i, if p[i] == p[j] then t else j)
  {
    if p[i] == p[j] {
      if t >= 0 {
        BorderOfBorder(p, i, j, t);
      }
      forall k | t < k < i && k >= 0 && Border(p, i, k)
        ensures p[k] == p[i]
      {
        if k < j {
          BorderOfBorder(p, i, j, k);
        }
      }
    }
  }

  lemma LongestParts(p: string, i: nat, j: int)
    requires Longest(p, i, j)
    ensures i <= |p| && -1 <= j < i && (j >= 0 ==> Border(p, i, j)) && (i == 0 <==> j == -1)
    ensures forall k | j < k < i && k >= 0 && Border(p, i, k) :: i < |p| ==> p[k] != p[i]
  {
  }

  lemma StrongParts(p: string, i: nat, t: int)
    requires Strong(p, i, t)
    ensures -1 <= t < i < |p|
  {
  }

  lemma FirstEntry(p: string)
    ensures Longest(p, 0, -1) && (|p| > 0 ==> Strong(p, 0, -1))
  {
  }

  // ---------------------------------------------------------------- the left-to-right builder

  /** `_utstring_BuildTable`; `falls` counts the steps of the inner loop. */
  method BuildTable(needle: string, table: array<int>) returns (ghost falls: nat)
    requires table.Length == |needle| + 1
    modifies table
    ensures |needle| > 0 ==> IsTable(needle, table[..])
    ensures falls <= |needle|
  {
    hide Border, Strong, Longest;
    var i, j := 0, -1;
    falls := 0;
    table[i] := j;
    FirstEntry(needle);
    while i < |needle|
      invariant 0 <= i <= |needle| && Longest(needle, i, j)
      invariant forall k | 0 <= k <= i && k < |needle| :: Strong(needle, k, table[k])
      invariant i == |needle| && i > 0 ==> table[i] == j
      invariant falls + j + 1 <= i
    {
      LongestParts(needle, i, j);
      while j > -1 && needle[i] != needle[j]
        invariant -1 <= j < |needle| && (j >= 0 ==> j < i && Border(needle, i, j))
        invariant forall k | j < k < i && k >= 0 && Border(needle, i, k) :: needle[k] != needle[i]
        invariant i == 0 ==> j == -1
        invariant falls + j + 1 <= i
        modifies {}
        decreases j + 1
      {
        StrongParts(needle, j, table[j]);
        FallBack(needle, i, j, table[j], needle[i]);
        falls := falls + 1;
        j := table[j];
      }
      NextLongest(needle, i, j);
      i := i + 1;
      j := j + 1;
      if i < |needle| {
        StoreStrong(needle, i, j, table[j]);
        if needle[i] == needle[j] {
          table[i] := table[j];
        } else {
          table[i] := j;
        }
      } else {
        table[i] := j;
      }
    }
    LongestParts(needle, i, j);
  }

  // ---------------------------------------------------------------- searching

  /** The first `i` letters of the needle end at `j`, and no occurrence starts before them. */
  predicate Matched(p: string, text: string, i: int, j: int) {
    && 0 <= i <= |p| && i <= j <= |text| && text[j - i..j] == p[..i]
    && forall s | 0 <= s < j - i :: !OccursAt(p, text, s)
  }

  /** Shifting the needle by the table passes over no occurrence. */
  lemma Shift(p: string, text: string, i: nat, j: nat, t: int)
    requires Matched(p, text, i, j) && i < |p| && j < |text| && p[i] != text[j] && Strong(p, i, t)
    ensures t >= 0 ==> Matched(p, text, t, j)
    ensures forall s | 0 <= s < j - t :: !OccursAt(p, text, s)
  {
    forall s | j - i <= s < j - t && s >= 0
      ensures !OccursAt(p, text, s)
    {
      var k := j - s;
      if OccursAt(p, text, s) {
        OccurrenceLetter(p, text, s, k);
        if k < i {
          SuffixIsBorder(p, text, i, j, k);
        }
      }
    }
    if t >= 0 {
      assert text[j - i..j][i - t..] == text[j - t..j];
      assert p[..i][i - t..] == p[i - t..i];
    }
  }

  lemma OccurrenceLetter(p: string, text: string, s: nat, k: nat)
    requires OccursAt(p, text, s) && k < |p|
    ensures text[s + k] == p[k]
  {
    assert text[s..s + |p|][k] == text[s + k];
  }

  lemma SuffixIsBorder(p: string, text: string, i: nat, j: nat, k: nat)
    requires i <= |p| && i <= j <= |text| && text[j - i..j] == p[..i]
    requires k < i && OccursAt(p, text, j - k)
    ensures Border(p, i, k)
  {
    var s := j - k;
    assert text[s..s + |p|][..k] == text[s..j];
    assert text[j - i..j][i - k..] == text[s..j];
    assert p[..i][i - k..] == p[i - k..i];
  }

  /** One more letter of the needle has matched. */
  lemma Extend(p: string, text: string, i: int, j: nat)
    requires j < |text| && -1 <= i < |p| && i <= j
    requires i >= 0 ==> Matched(p, text, i, j) && p[i] == text[j]
    requires forall s | 0 <= s < j - i :: !OccursAt(p, text, s)
    ensures Matched(p, text, i + 1, j + 1)
  {
    if i >= 0 {
      assert text[j - i..j + 1] == text[j - i..j] + [text[j]];
      assert p[..i + 1] == p[..i] + [p[i]];
    } else {
      assert text[j + 1..j + 1] == p[..0];
    }
  }

  /** `_utstring_find`: the least position at which the needle occurs, or -1. */
  method Find(haystack: string, needle: string, table: array<int>) returns (pos: int, ghost falls: nat)
    requires |needle| > 0 && table.Length == |needle| + 1 && IsTable(needle, table[..])
    ensures pos >= 0 ==> OccursAt(needle, haystack, pos) && forall s | 0 <= s < pos :: !OccursAt(needle, haystack, s)
    ensures pos == -1 || pos >= 0
    ensures pos == -1 ==> forall s :: !OccursAt(needle, haystack, s)
    ensures falls <= |haystack|
  {
    pos := -1;
    var i, j := 0, 0;
    falls := 0;
    while j < |haystack| && (|haystack| - j) + i >= |needle|
      invariant 0 <= i < |needle| && Matched(needle, haystack, i, j)
      invariant falls + i <= j
    {
      ghost var j0 := j;
      while i > -1 && needle[i] != haystack[j]
        invariant -1 <= i < |needle| && i <= j
        invariant i >= 0 ==> Matched(needle, haystack, i, j)
        invariant forall s | 0 <= s < j - i :: !OccursAt(needle, haystack, s)
        invariant falls + i <= j
        decreases i + 1
      {
        assert Strong(needle, i, table[..][i]);
        Shift(needle, haystack, i, j, table[i]);
        i := table[i];
        falls := falls + 1;
      }
      Extend(needle, haystack, i, j);
      i := i + 1;
      j := j + 1;
      if i >= |needle| {
        pos := j - i;
        assert needle[..i] == needle;
        return;
      }
    }
    forall s
      ensures !OccursAt(needle, haystack, s)
    {
    }
  }

  // ---------------------------------------------------------------- from the right

  /** The table of the right-to-left search: the failure table of the reversed needle, with
      every position counted from the other end. */
  ghost predicate IsTableR(p: string, table: seq<int>) {
    && |table| > |p|
    && (forall e | 1 <= e <= |p| :: Strong(Reverse(p), |p| - e, |p| - 1 - table[e]))
    && Longest(Reverse(p), |p|, |p| - 1 - table[0])
  }

  lemma FallBackR(needle: string, i: nat, j: nat, t: int)
    requires i < j < |needle| && needle[i] != needle[j]
    requires var m := |needle|; Border(Reverse(needle), m - 1 - i, m - 1 - j) && Strong(Reverse(needle), m - 1 - j, m - 1 - t)
    ensures var m, p := |needle|, Reverse(needle);
            && j < t <= m && (t < m ==> Border(p, m - 1 - i, m - 1 - t))
            && forall k | m - 1 - t < k <= m - 1 - j && k >= 0 && Border(p, m - 1 - i, k) :: p[k] != p[m - 1 - i]
  {
    hide Border, Strong;
    var m, p := |needle|, Reverse(needle);
    ReverseAt(needle, m - 1 - i);
    ReverseAt(needle, m - 1 - j);
    StrongParts(p, m - 1 - j, m - 1 - t);
    FallBack(p, m - 1 - i, m - 1 - j, m - 1 - t, needle[i]);
  }

  lemma NextLongestR(needle: string, i: nat, j: nat)
    requires i < j <= |needle| && (j < |needle| ==> needle[i] == needle[j])
    requires var m, p := |needle|, Reverse(needle);
             && (j < m ==> Border(p, m - 1 - i, m - 1 - j)) && (i == m - 1 ==> j == m)
             && forall k | m - 1 - j < k < m - 1 - i && k >= 0 && Border(p, m - 1 - i, k) :: p[k] != p[m - 1 - i]
    ensures Longest(Reverse(needle), |needle| - i, |needle| - j)
  {
    hide Border, Longest;
    var m := |needle|;
    ReverseAt(needle, m - 1 - i);
    if j < m {
      ReverseAt(needle, m - 1 - j);
    }
    NextLongest(Reverse(needle), m - 1 - i, m - 1 - j);
  }

  lemma StoreStrongR(needle: string, i: nat, j: nat, t: int)
    requires i < j < |needle|
    requires var m, p := |needle|, Reverse(needle); Longest(p, m - 1 - i, m - 1 - j) && Strong(p, m - 1 - j, m - 1 - t)
    ensures var m := |needle|;
            Strong(Reverse(needle), m - 1 - i, m - 1 - if needle[i] == needle[j] then t else j)
  {
    hide Border, Longest, Strong;
    var m := |needle|;
    ReverseAt(needle, m - 1 - i);
    ReverseAt(needle, m - 1 - j);
    StoreStrong(Reverse(needle), m - 1 - i, m - 1 - j, m - 1 - t);
  }

  /** `_utstring_BuildTableR`. */
  method BuildTableR(needle: string, table: array<int>) returns (ghost falls: nat)
    requires |needle| > 0 && table.Length == |needle| + 1
    modifies table
    ensures IsTableR(needle, table[..])
    ensures falls <= |needle|
  {
    hide Border, Strong, Longest, Reverse;
    ghost var p := Reverse(needle);
    var m := |needle|;
    var i, j := m - 1, m;
    falls := 0;
    table[i + 1] := j;
    FirstEntry(p);
    while i >= 0
      invariant -1 <= i < m && Longest(p, m - 1 - i, m - 1 - j)
      invariant forall e | i + 1 <= e <= m && e >= 1 :: Strong(p, m - e, m - 1 - table[e])
      invariant i == -1 ==> table[0] == j
      invariant falls + m - j <= m - 1 - i
      decreases i
    {
      LongestParts(p, m - 1 - i, m - 1 - j);
      while j < m && needle[i] != needle[j]
        invariant i < j <= m && (j < m ==> Border(p, m - 1 - i, m - 1 - j))
        invariant forall k | m - 1 - j < k < m - 1 - i && k >= 0 && Border(p, m - 1 - i, k) :: p[k] != p[m - 1 - i]
        invariant i == m - 1 ==> j == m
        invariant falls + m - j <= m - 1 - i
        modifies {}
        decreases m - j
      {
        assert m - (j + 1) == m - 1 - j;
        FallBackR(needle, i, j, table[j + 1]);
        falls := falls + 1;
        j := table[j + 1];
      }
      NextLongestR(needle, i, j);
      i := i - 1;
      j := j - 1;
      if i >= 0 {
        LongestParts(p, m - 1 - i, m - 1 - j);
        assert m - (j + 1) == m - 1 - j;
        StoreStrongR(needle, i, j, table[j + 1]);
        if needle[i] == needle[j] {
          table[i + 1] := table[j + 1];
        } else {
          table[i + 1] := j;
        }
        assert m - (i + 1) == m - 1 - i;
      } else {
        table[i + 1] := j;
      }
    }
    LongestParts(p, m - 1 - i, m - 1 - j);
  }

  /** An occurrence is an occurrence of the reversed needle in the reversed text. */
  lemma OccursReversed(p: string, text: string, s: int)
    ensures OccursAt(p, text, s) <==> OccursAt(Reverse(p), Reverse(text), |text| - |p| - s)
  {
    hide Reverse, OccursAt;
    var q, t, u := Reverse(p), Reverse(text), |text| - |p| - s;
    if OccursAt(p, text, s) {
      OccursBounds(p, text, s);
      forall k | 0 <= k < |q|
        ensures t[u + k] == q[k]
      {
        ReverseAt(text, u + k);
        ReverseAt(p, k);
        OccurrenceLetter(p, text, s, |p| - 1 - k);
      }
      LettersOccur(q, t, u);
    }
    if OccursAt(q, t, u) {
      OccursBounds(q, t, u);
      forall k | 0 <= k < |p|
        ensures text[s + k] == p[k]
      {
        var b := |p| - 1 - k;
        ReverseAt(text, u + b);
        ReverseAt(p, b);
        OccurrenceLetter(q, t, u, b);
      }
      LettersOccur(p, text, s);
    }
  }

  lemma OccursBounds(p: string, text: string, s: int)
    requires OccursAt(p, text, s)
    ensures 0 <= s && s + |p| <= |text|
  {
  }

  lemma LettersOccur(p: string, text: string, s: int)
    requires 0 <= s && s + |p| <= |text| && forall k | 0 <= k < |p| :: text[s + k] == p[k]
    ensures OccursAt(p, text, s)
  {
    forall k | 0 <= k < |p|
      ensures text[s..s + |p|][k] == p[k]
    {
      assert text[s + k] == p[k];
    }
  }

  lemma ShiftR(needle: string, haystack: string, i: nat, j: nat, t: int)
    requires i < |needle| && j < |haystack| && needle[i] != haystack[j]
    requires Matched(Reverse(needle), Reverse(haystack), |needle| - 1 - i, |haystack| - 1 - j)
    requires Strong(Reverse(needle), |needle| - 1 - i, |needle| - 1 - t)
    ensures i < t <= |needle|
    ensures t < |needle| ==> Matched(Reverse(needle), Reverse(haystack), |needle| - 1 - t, |haystack| - 1 - j)
    ensures forall s | 0 <= s < (|haystack| - 1 - j) - (|needle| - 1 - t) :: !OccursAt(Reverse(needle), Reverse(haystack), s)
  {
    hide Strong, Matched, OccursAt, Reverse;
    ReverseAt(needle, |needle| - 1 - i);
    ReverseAt(haystack, |haystack| - 1 - j);
    StrongParts(Reverse(needle), |needle| - 1 - i, |needle| - 1 - t);
    Shift(Reverse(needle), Reverse(haystack), |needle| - 1 - i, |haystack| - 1 - j, |needle| - 1 - t);
  }

  lemma ExtendR(needle: string, haystack: string, i: nat, j: nat)
    requires j < |haystack| && i <= |needle| && |needle| - 1 - i <= |haystack| - 1 - j && |needle| > 0
    requires i < |needle| ==>
               Matched(Reverse(needle), Reverse(haystack), |needle| - 1 - i, |haystack| - 1 - j) && needle[i] == haystack[j]
    requires forall s | 0 <= s < (|haystack| - 1 - j) - (|needle| - 1 - i) :: !OccursAt(Reverse(needle), Reverse(haystack), s)
    ensures Matched(Reverse(needle), Reverse(haystack), |needle| - i, |haystack| - j)
  {
    hide Matched, OccursAt, Reverse;
    ReverseAt(haystack, |haystack| - 1 - j);
    if i < |needle| {
      ReverseAt(needle, |needle| - 1 - i);
    }
    Extend(Reverse(needle), Reverse(haystack), |needle| - 1 - i, |haystack| - 1 - j);
  }

  /** `_utstring_findR`: the greatest position at which the needle occurs, or -1. */
  method FindR(haystack: string, needle: string, table: array<int>) returns (pos: int, ghost falls: nat)
    requires |needle| > 0 && table.Length == |needle| + 1 && IsTableR(needle, table[..])
    ensures pos >= 0 ==> OccursAt(needle, haystack, pos) && forall s | s > pos :: !OccursAt(needle, haystack, s)
    ensures pos == -1 || pos >= 0
    ensures pos == -1 ==> forall s :: !OccursAt(needle, haystack, s)
    ensures falls <= |haystack|
  {
    hide Reverse, Strong, OccursAt, Matched;
    ghost var p, text := Reverse(needle), Reverse(haystack);
    var m, n := |needle|, |haystack|;
    pos := -1;
    var j := n - 1;
    var i := m - 1;
    falls := 0;
    NothingMatched(p, text);
    while j >= 0 && j >= i
      invariant -1 <= j < n && 0 <= i < m && Matched(p, text, m - 1 - i, n - 1 - j)
      invariant falls + m - 1 - i <= n - 1 - j
      decreases j
    {
      MatchedParts(p, text, m - 1 - i, n - 1 - j);
      while i < m && needle[i] != haystack[j]
        invariant 0 <= i <= m && m - 1 - i <= n - 1 - j
        invariant i < m ==> Matched(p, text, m - 1 - i, n - 1 - j)
        invariant forall s | 0 <= s < (n - 1 - j) - (m - 1 - i) :: !OccursAt(p, text, s)
        invariant falls + m - 1 - i <= n - 1 - j
        decreases m - i
      {
        assert Strong(p, m - (i + 1), m - 1 - table[..][i + 1]);
        ShiftR(needle, haystack, i, j, table[i + 1]);
        i := table[i + 1];
        falls := falls + 1;
      }
      ExtendR(needle, haystack, i, j);
      i := i - 1;
      j := j - 1;
      MatchedParts(p, text, m - 1 - i, n - 1 - j);
      if i < 0 {
        pos := j + 1;
        WholeNeedle(p, text, n - 1 - j);
        LastIsFirst(needle, haystack, pos);
        return;
      }
    }
    NoneLeft(needle, haystack, m - 1 - i, n - 1 - j);
  }

  lemma MatchedParts(p: string, text: string, i: int, j: int)
    requires Matched(p, text, i, j)
    ensures 0 <= i <= |p| && i <= j <= |text| && forall s | 0 <= s < j - i :: !OccursAt(p, text, s)
  {
  }

  lemma NothingMatched(p: string, text: string)
    ensures Matched(p, text, 0, 0)
  {
  }

  lemma WholeNeedle(p: string, text: string, j: nat)
    requires Matched(p, text, |p|, j)
    ensures OccursAt(p, text, j - |p|) && forall s | 0 <= s < j - |p| :: !OccursAt(p, text, s)
  {
    assert p[..|p|] == p;
  }

  /** The first occurrence in the reversed text is the last one in the text. */
  lemma LastIsFirst(needle: string, haystack: string, pos: int)
    requires var u := |haystack| - |needle| - pos;
             OccursAt(Reverse(needle), Reverse(haystack), u) &&
             forall s | 0 <= s < u :: !OccursAt(Reverse(needle), Reverse(haystack), s)
    ensures OccursAt(needle, haystack, pos) && forall s | s > pos :: !OccursAt(needle, haystack, s)
  {
    OccursReversed(needle, haystack, pos);
    forall s | s > pos
      ensures !OccursAt(needle, haystack, s)
    {
      OccursReversed(needle, haystack, s);
    }
  }

  lemma NoneLeft(needle: string, haystack: string, i: int, j: int)
    requires Matched(Reverse(needle), Reverse(haystack), i, j)
    requires j == |haystack| || |haystack| - 1 - j < |needle| - 1 - i
    requires i < |needle|
    ensures forall s :: !OccursAt(needle, haystack, s)
  {
    hide Reverse, OccursAt, Matched;
    forall s
      ensures !OccursAt(needle, haystack, s)
    {
      OccursReversed(needle, haystack, s);
      NotBefore(Reverse(needle), Reverse(haystack), i, j, |haystack| - |needle| - s);
    }
  }

  lemma NotBefore(p: string, text: string, i: int, j: int, s: int)
    requires Matched(p, text, i, j) && i < |p| && (j == |text| || |text| - 1 - j < |p| - 1 - i)
    ensures !OccursAt(p, text, s)
  {
  }

  // ---------------------------------------------------------------- the string's own searches

  /** `utstring_find` on a string with contents `d`; a negative start counts from the end.
      A start past the end makes the length of the haystack negative: that passes the
      unsigned comparison of the source, but the search casts it back and finds nothing. */
  method UtFind(d: string, start: int, needle: string) returns (pos: int)
    requires -|d| <= start
    ensures var from := if start < 0 then |d| + start else start;
            if pos < 0 then pos == -1 && (needle == [] || forall s | s >= from :: !OccursAt(needle, d, s))
            else pos >= from && OccursAt(needle, d, pos) && forall s | from <= s < pos :: !OccursAt(needle, d, s)
    ensures needle == [] ==> pos == -1
  {
    var from := if start < 0 then |d| + start else start;
    pos := -1;
    if |d| - from >= |needle| && |needle| > 0 {
      var table := new int[|needle| + 1];
      ghost var falls := BuildTable(needle, table);
      pos, falls := Find(d[from..], needle, table);
      forall s: int
        ensures s >= from ==> (OccursAt(needle, d, s) <==> OccursAt(needle, d[from..], s - from))
      {
        if s >= from && s + |needle| <= |d| {
          assert d[from..][s - from..s - from + |needle|] == d[s..s + |needle|];
        }
      }
      if pos >= 0 {
        pos := pos + from;
      }
    }
  }

  /** `utstring_findR`: the haystack ends with the letter at the start position. */
  method UtFindR(d: string, start: int, needle: string) returns (pos: int)
    requires start < |d|
    ensures var end := (if start < 0 then |d| + start else start) + 1;
            if pos < 0 then pos == -1 && (needle == [] || forall s | s + |needle| <= end :: !OccursAt(needle, d, s))
            else pos + |needle| <= end && OccursAt(needle, d, pos) &&
                 forall s | pos < s && s + |needle| <= end :: !OccursAt(needle, d, s)
    ensures needle == [] ==> pos == -1
  {
    var end := (if start < 0 then |d| + start else start) + 1;
    pos := -1;
    if end >= |needle| && |needle| > 0 {
      var table := new int[|needle| + 1];
      ghost var falls := BuildTableR(needle, table);
      pos, falls := FindR(d[..end], needle, table);
      forall s: int
        ensures s + |needle| <= end ==> (OccursAt(needle, d, s) <==> OccursAt(needle, d[..end], s))
      {
        if s >= 0 && s + |needle| <= end {
          assert d[..end][s..s + |needle|] == d[s..s + |needle|];
        }
      }
    }
  }
}
