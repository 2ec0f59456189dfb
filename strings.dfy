/**
 * The two pieces of Python string behaviour the bot relies on:
 * `s.split(sep)[0]` (the text before the first separator) and
 * `s.replace(pat, rep)` (every non-overlapping occurrence, scanned left to right),
 * and `repr(s)` as it appears in the text of an `OSError`.
 */
module Strings {

  /** A file extension: its first character (the dot) occurs nowhere else in it. */
  predicate ExtensionShaped(x: string) {
    |x| > 0 && forall k :: 1 <= k < |x| ==> x[k] != x[0]
  }

  /** `pat` occurs in `s` starting at index `i`. */
  predicate OccursAt(s: string, i: nat, pat: string) {
    i + |pat| <= |s| && s[i..i + |pat|] == pat
  }

  /** Python's `pat in s` for strings. */
  predicate Contains(s: string, pat: string) {
    exists i: nat :: i <= |s| && OccursAt(s, i, pat)
  }

  /** Python's `s.split(sep)[0]`: the longest prefix of `s` free of `sep`. */
  function BeforeFirst(s: string, sep: char): (r: string)
    ensures r <= s
    ensures sep !in r
    ensures |r| < |s| ==> s[|r|] == sep
    ensures sep !in s ==> r == s
  {
    if s == [] then []
    else if s[0] == sep then []
    else [s[0]] + BeforeFirst(s[1..], sep)
  }

  /** Python's `s.replace(pat, rep)` for a non-empty `pat`. */
  function Replace(s: string, pat: string, rep: string): (r: string)
    requires |pat| > 0
    // replacing a pattern by itself changes nothing
    ensures rep == pat ==> r == s
    // a replacement as long as the pattern keeps the length
    ensures |rep| == |pat| ==> |r| == |s|
    decreases |s|
  {
    if |s| < |pat| then s
    else if s[..|pat|] == pat then
      assert s == s[..|pat|] + s[|pat|..];
      rep + Replace(s[|pat|..], pat, rep)
    else [s[0]] + Replace(s[1..], pat, rep)
  }

  /** An occurrence in a suffix is an occurrence in the whole text. */
  lemma ContainsOfSuffix(s: string, j: nat, pat: string)
    requires j <= |s|
    ensures Contains(s[j..], pat) ==> Contains(s, pat)
  {
    if Contains(s[j..], pat) {
      var i: nat :| i <= |s[j..]| && OccursAt(s[j..], i, pat);
      assert s[j..][i..i + |pat|] == s[i + j..i + j + |pat|];
      assert OccursAt(s, i + j, pat);
    }
  }

  /**
   * Characters of `stem` that start no occurrence of `pat` inside `stem + tail`
   * are copied unchanged: the replacement only acts on `tail`.
   */
  lemma {:induction false} ReplaceKeepsStem(stem: string, tail: string, pat: string, rep: string)
    requires |pat| > 0
    requires forall i: nat :: i < |stem| ==> !OccursAt(stem + tail, i, pat)
    ensures Replace(stem + tail, pat, rep) == stem + Replace(tail, pat, rep)
    decreases |stem|
  {
    if stem == [] {
      assert stem + tail == tail;
    } else if |stem + tail| < |pat| {
      assert Replace(tail, pat, rep) == tail;
    } else {
      var s := stem + tail;
      assert !OccursAt(s, 0, pat);
      assert s[1..] == stem[1..] + tail;
      StemShift(stem, tail, pat);
      ReplaceKeepsStem(stem[1..], tail, pat, rep);
      assert Replace(s, pat, rep) == [s[0]] + Replace(s[1..], pat, rep);
      assert [stem[0]] + stem[1..] == stem;
    }
  }

  /** The precondition of `ReplaceKeepsStem` carries over to the stem without its first character. */
  lemma StemShift(stem: string, tail: string, pat: string)
    requires |stem| > 0
    requires forall i: nat :: i < |stem| ==> !OccursAt(stem + tail, i, pat)
    ensures forall i: nat :: i < |stem[1..]| ==> !OccursAt(stem[1..] + tail, i, pat)
  {
    var s := stem + tail;
    assert s[1..] == stem[1..] + tail;
    forall i: nat | i < |stem[1..]|
      ensures !OccursAt(stem[1..] + tail, i, pat)
    {
      assert !OccursAt(s, i + 1, pat);
      if i + |pat| <= |s[1..]| {
        assert s[1..][i..i + |pat|] == s[i + 1..i + 1 + |pat|];
      }
    }
  }

  /** A text in which `pat` does not occur comes back unchanged. */
  lemma ReplaceAbsent(s: string, pat: string, rep: string)
    requires |pat| > 0
    requires !Contains(s, pat)
    ensures Replace(s, pat, rep) == s
  {
    assert s + [] == s;
    forall i: nat | i < |s|
      ensures !OccursAt(s + [], i, pat)
    {
      assert !OccursAt(s, i, pat);
    }
    ReplaceKeepsStem(s, [], pat, rep);
  }

  /**
   * An occurrence of `pat` in `stem + tail` cannot start inside `stem` when `stem`
   * has none of its own, `pat` is extension-shaped and `tail` starts with `pat`'s
   * first character.
   */
  lemma NoOccurrenceInStem(stem: string, tail: string, pat: string)
    requires ExtensionShaped(pat) && |tail| > 0 && tail[0] == pat[0]
    requires !Contains(stem, pat)
    ensures forall i: nat :: i < |stem| ==> !OccursAt(stem + tail, i, pat)
  {
    var s := stem + tail;
    forall i: nat | i < |stem|
      ensures !OccursAt(s, i, pat)
    {
      if i + |pat| <= |stem| {
        assert stem[i..i + |pat|] == s[i..i + |pat|];
        assert !OccursAt(stem, i, pat);
      } else if i + |pat| <= |s| {
        var k := |stem| - i;
        assert 1 <= k < |pat|;
        assert s[i..i + |pat|][k] == tail[0] != pat[k];
      }
    }
  }

  /** `ReplaceKeepsStem` for an extension-shaped `pat` and `tail`. */
  lemma ReplaceAfterStem(stem: string, tail: string, pat: string, rep: string)
    requires ExtensionShaped(pat) && |tail| > 0 && tail[0] == pat[0]
    requires !Contains(stem, pat)
    ensures Replace(stem + tail, pat, rep) == stem + Replace(tail, pat, rep)
  {
    NoOccurrenceInStem(stem, tail, pat);
    ReplaceKeepsStem(stem, tail, pat, rep);
  }

  /**
   * Where the first `n` characters of `Replace`'s output hold no `c`, and every
   * replacement starts with `c`, no replacement happened there: they are the
   * first `n` characters of the input.
   */
  lemma {:induction false} ReplaceKeepsUnmarkedPrefix(t: string, pat: string, rep: string, c: char, n: nat)
    requires |pat| > 0 && |rep| > 0 && rep[0] == c
    requires n <= |Replace(t, pat, rep)| && c !in Replace(t, pat, rep)[..n]
    ensures n <= |t| && Replace(t, pat, rep)[..n] == t[..n]
    decreases |t|
  {
    var r := Replace(t, pat, rep);
    if n > 0 && |t| >= |pat| {
      assert r[0] != c by { assert r[..n][0] == r[0]; }
      var rt := Replace(t[1..], pat, rep);
      assert r == [t[0]] + rt;
      assert rt[..n - 1] == r[..n][1..];
      ReplaceKeepsUnmarkedPrefix(t[1..], pat, rep, c, n - 1);
      assert t[..n] == [t[0]] + t[1..][..n - 1];
    }
  }

  /**
   * `Replace` leaves no occurrence of `q` behind when `rep` and `q` are
   * extension-shaped with the same dot, `rep` and `q` differ after it, and `q`
   * is either `pat` itself or absent from `s` already: no replacement can
   * complete a `q` with the text around it.
   */
  lemma {:induction false} ReplaceAvoids(s: string, pat: string, rep: string, q: string)
    requires |pat| > 0 && ExtensionShaped(rep) && ExtensionShaped(q) && rep[0] == q[0]
    requires exists k :: 0 < k < |rep| && k < |q| && rep[k] != q[k]
    requires q == pat || !Contains(s, q)
    ensures !Contains(Replace(s, pat, rep), q)
    decreases |s|
  {
    if |s| < |pat| {
      if q == pat {
        ShorterContainsNot(s, q);
      }
    } else if s[..|pat|] == pat {
      ContainsOfSuffix(s, |pat|, q);
      ReplaceAvoids(s[|pat|..], pat, rep, q);
      AvoidsAfterReplacement(rep, Replace(s[|pat|..], pat, rep), q);
    } else {
      ContainsOfSuffix(s, 1, q);
      ReplaceAvoids(s[1..], pat, rep, q);
      AvoidsAfterCopy(s, pat, rep, q);
    }
  }

  lemma ShorterContainsNot(s: string, q: string)
    requires |s| < |q|
    ensures !Contains(s, q)
  {
  }

  /** A replacement followed by a text without `q` holds no `q`. */
  lemma AvoidsAfterReplacement(rep: string, rest: string, q: string)
    requires ExtensionShaped(rep) && ExtensionShaped(q) && rep[0] == q[0]
    requires exists k :: 0 < k < |rep| && k < |q| && rep[k] != q[k]
    requires !Contains(rest, q)
    ensures !Contains(rep + rest, q)
  {
    var r := rep + rest;
    var k :| 0 < k < |rep| && k < |q| && rep[k] != q[k];
    forall i: nat | i <= |r|
      ensures !OccursAt(r, i, q)
    {
      if i + |q| <= |r| {
        if i == 0 {
          assert r[i..i + |q|][k] == rep[k];
        } else if i < |rep| {
          assert r[i..i + |q|][0] == rep[i];
        } else {
          assert r[i..i + |q|] == rest[i - |rep|..i - |rep| + |q|];
          assert !OccursAt(rest, i - |rep|, q);
        }
      }
    }
  }

  /** A copied first character followed by a replaced text without `q` holds no `q`. */
  lemma AvoidsAfterCopy(s: string, pat: string, rep: string, q: string)
    requires |pat| > 0 && |s| >= |pat| && s[..|pat|] != pat
    requires ExtensionShaped(rep) && ExtensionShaped(q) && rep[0] == q[0]
    requires q == pat || !Contains(s, q)
    requires !Contains(Replace(s[1..], pat, rep), q)
    ensures !Contains(Replace(s, pat, rep), q)
  {
    if |q| <= |Replace(s, pat, rep)| {
      FirstCharacterStartsNoOccurrence(s, pat, rep, q);
    }
    ConsAvoids(s[0], Replace(s[1..], pat, rep), q);
  }

  /** One character in front of a text without `q` adds no `q` unless one starts right there. */
  lemma ConsAvoids(x: char, rest: string, q: string)
    requires !Contains(rest, q) && !OccursAt([x] + rest, 0, q)
    ensures !Contains([x] + rest, q)
  {
    var r := [x] + rest;
    forall i: nat | 0 < i <= |r|
      ensures !OccursAt(r, i, q)
    {
      if i + |q| <= |r| {
        assert r[i..i + |q|] == rest[i - 1..i - 1 + |q|];
      }
      assert !OccursAt(rest, i - 1, q);
    }
  }

  /** The case of `ReplaceAvoids` where `s` does not start with `pat` and `q` would start at 0. */
  lemma FirstCharacterStartsNoOccurrence(s: string, pat: string, rep: string, q: string)
    requires |pat| > 0 && |s| >= |pat| && s[..|pat|] != pat
    requires ExtensionShaped(rep) && ExtensionShaped(q) && rep[0] == q[0]
    requires q == pat || !Contains(s, q)
    requires |q| <= |Replace(s, pat, rep)|
    ensures !OccursAt(Replace(s, pat, rep), 0, q)
  {
    var r := Replace(s, pat, rep);
    var rt := Replace(s[1..], pat, rep);
    var n := |q| - 1;
    assert r == [s[0]] + rt;
    assert r[..|q|] == [s[0]] + rt[..n];
    if s[0] != q[0] {
      assert r[..|q|][0] == s[0];
    } else if q[0] in rt[..n] {
      var j :| 0 <= j < n && rt[..n][j] == q[0];
      assert r[..|q|][j + 1] == q[0];
    } else {
      ReplaceKeepsUnmarkedPrefix(s[1..], pat, rep, q[0], n);
      assert s[..|q|] == [s[0]] + s[1..][..n];
      assert !OccursAt(s, 0, q);
    }
  }

  // ---------------------------------------------------------------------------
  // repr(s)
  // ---------------------------------------------------------------------------

  /** The quote `repr` puts around a string: `"` when it holds `'` but no `"`, else `'`. */
  function ReprQuote(s: string): (q: char)
    ensures q == '\'' || q == '"'
    ensures q in s ==> q == '\'' && '"' in s
  {
    if '\'' in s && '"' !in s then '"' else '\''
  }

  /** A character `repr` copies as it is between quotes `q`. */
  predicate Verbatim(c: char, q: char) {
    c != '\\' && c != q && 32 <= c as int && c as int != 127
  }

  /** The lower-case hexadecimal digit of `n`. */
  function HexDigit(n: int): char
    requires 0 <= n < 16
  {
    if n < 10 then ('0' as int + n) as char else ('a' as int + n - 10) as char
  }

  predicate IsHexDigit(d: char) {
    '0' <= d <= '9' || 'a' <= d <= 'f'
  }

  function HexValue(d: char): int
    requires IsHexDigit(d)
  {
    if d <= '9' then d as int - '0' as int else d as int - 'a' as int + 10
  }

  /** How `repr` writes one character between quotes `q`. */
  function EscapeChar(c: char, q: char): string {
    if c == '\\' || c == q then ['\\', c]
    else if c == '\t' then "\\t"
    else if c == '\n' then "\\n"
    else if c == '\r' then "\\r"
    else if c as int < 32 || c as int == 127 then "\\x" + [HexDigit(c as int / 16), HexDigit(c as int % 16)]
    else [c]
  }

  /** The characters of `repr(s)` between its quotes `q`. */
  function Escape(s: string, q: char): (r: string)
    // a text of plain characters is written as it is
    ensures (forall i :: 0 <= i < |s| ==> Verbatim(s[i], q)) ==> r == s
    // escaping never shortens
    ensures |r| >= |s|
  {
    if s == [] then [] else EscapeChar(s[0], q) + Escape(s[1..], q)
  }

  /** Python's `repr(s)`, for the characters it escapes below code point 128. */
  function Repr(s: string): (r: string)
    ensures |r| >= 2 && r[0] == r[|r| - 1] == ReprQuote(s)
    ensures (forall i :: 0 <= i < |s| ==> Verbatim(s[i], ReprQuote(s))) ==> r == [ReprQuote(s)] + s + [ReprQuote(s)]
  {
    var q := ReprQuote(s);
    [q] + Escape(s, q) + [q]
  }

  /** The character an escape `\e` stands for between quotes `q`. */
  function Unescaped(e: char): char {
    if e == 't' then '\t' else if e == 'n' then '\n' else if e == 'r' then '\r' else e
  }

  /** How Python reads the body of a string literal between quotes `q`: the inverse of `Escape`. */
  function Unescape(r: string, q: char): string
    decreases |r|
  {
    if r == [] then []
    else if |r| >= 4 && r[0] == '\\' && r[1] == 'x' && IsHexDigit(r[2]) && IsHexDigit(r[3]) then
      [(HexValue(r[2]) * 16 + HexValue(r[3])) as char] + Unescape(r[4..], q)
    else if |r| >= 2 && r[0] == '\\' && (r[1] == '\\' || r[1] == q || r[1] == 't' || r[1] == 'n' || r[1] == 'r') then
      [Unescaped(r[1])] + Unescape(r[2..], q)
    else [r[0]] + Unescape(r[1..], q)
  }

  /** Reading back one escaped character gives the character. */
  lemma EscapeCharRoundTrip(c: char, q: char, rest: string)
    requires q == '\'' || q == '"'
    ensures Unescape(EscapeChar(c, q) + rest, q) == [c] + Unescape(rest, q)
  {
    var e := EscapeChar(c, q);
    if c == '\\' || c == q || c == '\t' || c == '\n' || c == '\r' {
      assert (e + rest)[2..] == rest;
    } else if c as int < 32 || c as int == 127 {
      var hi, lo := c as int / 16, c as int % 16;
      assert HexValue(HexDigit(hi)) == hi && HexValue(HexDigit(lo)) == lo;
      assert (e + rest)[4..] == rest;
    } else {
      assert (e + rest)[1..] == rest;
    }
  }

  /** Python reads `repr(s)` back as `s`: the text is recovered from between the quotes. */
  lemma {:induction false} ReprRoundTrip(s: string)
    ensures var r := Repr(s); Unescape(r[1..|r| - 1], ReprQuote(s)) == s
  {
    var q := ReprQuote(s);
    var r := Repr(s);
    assert r[1..|r| - 1] == Escape(s, q);
    EscapeRoundTrip(s, q);
  }

  lemma {:induction false} EscapeRoundTrip(s: string, q: char)
    requires q == '\'' || q == '"'
    ensures Unescape(Escape(s, q), q) == s
    decreases |s|
  {
    if s != [] {
      EscapeCharRoundTrip(s[0], q, Escape(s[1..], q));
      EscapeRoundTrip(s[1..], q);
      assert [s[0]] + s[1..] == s;
    }
  }
}
