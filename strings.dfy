/**
 * Text operations the system relies on, written out because the model has
 * no string library: JavaScript whitespace, `trim`, ASCII lower-casing,
 * substring search, SQL `LIKE` patterns, decimal rendering of integers
 * and JavaScript `parseInt(s, 10)`.
 */
module Strings {
  import opened Wrappers

  // ---------------------------------------------------------------------
  // Whitespace and trimming
  // ---------------------------------------------------------------------

  /**
   * The code points JavaScript treats as white space (WhiteSpace and
   * LineTerminator): the class `\s` of regular expressions, and what
   * `String.prototype.trim` and `parseInt` skip.
   */
  predicate IsWhitespace(c: char) {
    c == '\t' || c == '\n' || c == '\U{000B}' || c == '\U{000C}' || c == '\r' ||
    c == ' ' || c == '\U{00A0}' || c == '\U{1680}' ||
    ('\U{2000}' <= c <= '\U{200A}') ||
    c == '\U{2028}' || c == '\U{2029}' || c == '\U{202F}' || c == '\U{205F}' ||
    c == '\U{3000}' || c == '\U{FEFF}'
  }

  /** Every character is white space (the empty string included). */
  predicate Blank(s: string) {
    forall i :: 0 <= i < |s| ==> IsWhitespace(s[i])
  }

  predicate HasWhitespace(s: string) {
    exists i :: 0 <= i < |s| && IsWhitespace(s[i])
  }

  /** `s` with its leading white space removed. */
  function TrimStart(s: string): (r: string)
    ensures |r| <= |s|
    ensures forall i :: 0 <= i < |s| - |r| ==> IsWhitespace(s[i])
    ensures r == [] || !IsWhitespace(r[0])
  {
    if s == [] || !IsWhitespace(s[0]) then s else TrimStart(s[1..])
  }

  /** `s` with its trailing white space removed. */
  function TrimEnd(s: string): (r: string)
    ensures |r| <= |s|
    ensures forall i :: |r| <= i < |s| ==> IsWhitespace(s[i])
    ensures r == [] || !IsWhitespace(r[|r| - 1])
  {
    if s == [] || !IsWhitespace(s[|s| - 1]) then s else TrimEnd(s[..|s| - 1])
  }

  /** What `TrimStart` leaves is a suffix of its argument. */
  lemma {:induction false} TrimStartIsSuffix(s: string)
    ensures TrimStart(s) == s[|s| - |TrimStart(s)|..]
  {
    if s != [] && IsWhitespace(s[0]) {
      TrimStartIsSuffix(s[1..]);
    }
  }

  /** What `TrimEnd` leaves is a prefix of its argument. */
  lemma {:induction false} TrimEndIsPrefix(s: string)
    ensures TrimEnd(s) == s[..|TrimEnd(s)|]
  {
    if s != [] && IsWhitespace(s[|s| - 1]) {
      TrimEndIsPrefix(s[..|s| - 1]);
    }
  }

  /** JavaScript `s.trim()`. */
  function Trim(s: string): string {
    TrimEnd(TrimStart(s))
  }

  /**
   * `trim` removes exactly a blank prefix and a blank suffix and leaves a
   * result that neither starts nor ends with white space.
   */
  lemma TrimShape(s: string)
    ensures exists i, j :: 0 <= i <= j <= |s| && Trim(s) == s[i..j] && Blank(s[..i]) && Blank(s[j..])
    ensures Trim(s) == [] || (!IsWhitespace(Trim(s)[0]) && !IsWhitespace(Trim(s)[|Trim(s)| - 1]))
  {
    var t := TrimStart(s);
    var i := |s| - |t|;
    var r := TrimEnd(t);
    var j := i + |r|;
    TrimStartIsSuffix(s);
    TrimEndIsPrefix(t);
    assert r == s[i..j];
    assert Blank(s[..i]) by {
      forall k | 0 <= k < i ensures IsWhitespace(s[..i][k]) {
        assert s[..i][k] == s[k];
      }
    }
    assert Blank(s[j..]) by {
      forall k | 0 <= k < |s| - j ensures IsWhitespace(s[j..][k]) {
        assert s[j..][k] == t[|r| + k];
      }
    }
    assert 0 <= i <= j <= |s| && Trim(s) == s[i..j] && Blank(s[..i]) && Blank(s[j..]);
  }

  /** A string trims to "" exactly when it is blank: JavaScript's `!s.trim()`. */
  lemma {:induction false} TrimEmptyIffBlank(s: string)
    ensures Trim(s) == [] <==> Blank(s)
  {
    var t := TrimStart(s);
    var n := |s| - |t|;
    TrimStartIsSuffix(s);
    if !Blank(s) {
      var k :| 0 <= k < |s| && !IsWhitespace(s[k]);
      var r := TrimEnd(t);
      assert t[k - n] == s[k];
    }
  }

  // ---------------------------------------------------------------------
  // Case and substrings
  // ---------------------------------------------------------------------

  /** Lower-cases the ASCII letters A-Z and leaves every other character alone. */
  function LowerChar(c: char): char {
    if 'A' <= c <= 'Z' then (c as int + 32) as char else c
  }

  function ToLower(s: string): (r: string)
    ensures |r| == |s|
    ensures forall i :: 0 <= i < |s| ==> r[i] == LowerChar(s[i])
  {
    if s == [] then [] else [LowerChar(s[0])] + ToLower(s[1..])
  }

  lemma ToLowerAppend(a: string, b: string)
    ensures ToLower(a + b) == ToLower(a) + ToLower(b)
  {
    assert forall i :: 0 <= i < |a + b| ==> ToLower(a + b)[i] == (ToLower(a) + ToLower(b))[i];
  }

  /** `t` occurs in `s` starting at position `i`. */
  predicate OccursAt(s: string, t: string, i: int) {
    0 <= i <= |s| - |t| && s[i..i + |t|] == t
  }

  /** `t` occurs in `s` as a contiguous piece. */
  predicate Contains(s: string, t: string) {
    exists i :: 0 <= i <= |s| - |t| && OccursAt(s, t, i)
  }

  predicate IsPrefix(t: string, s: string) {
    |t| <= |s| && s[..|t|] == t
  }

  // ---------------------------------------------------------------------
  // SQL LIKE patterns
  // ---------------------------------------------------------------------

  /**
   * SQL `s LIKE p` with the default escape character: `%` matches any run
   * of characters, `_` exactly one, a backslash makes the character after
   * it literal, and anything else matches itself. A backslash that ends the
   * pattern is taken literally.
   */
  predicate Like(s: string, p: string)
    decreases |s| + |p|
  {
    if p == [] then s == []
    else if p[0] == '%' then Like(s, p[1..]) || (s != [] && Like(s[1..], p))
    else if p[0] == '_' then s != [] && Like(s[1..], p[1..])
    else if p[0] == '\\' && |p| >= 2 then s != [] && s[0] == p[1] && Like(s[1..], p[2..])
    else s != [] && s[0] == p[0] && Like(s[1..], p[1..])
  }

  /** The text holds none of the three characters `LIKE` treats specially. */
  predicate NoWildcards(t: string) {
    forall i :: 0 <= i < |t| ==> t[i] != '%' && t[i] != '_' && t[i] != '\\'
  }

  /** An escaped wildcard matches only itself: `\%` is the one-character string `%`. */
  lemma EscapedWildcard(s: string)
    ensures Like(s, "\\%") <==> s == "%"
    ensures Like(s, "\\_") <==> s == "_"
  {
    assert "\\%"[2..] == [] && "\\_"[2..] == [];
  }

  /** A pattern that ends in `%` and is otherwise literal matches exactly the strings it prefixes. */
  lemma {:induction false} LikePrefix(s: string, t: string)
    requires NoWildcards(t)
    ensures Like(s, t + "%") <==> IsPrefix(t, s)
    decreases |t|
  {
    if t == [] {
      assert [] + "%" == "%";
      LikeAnything(s);
    } else {
      assert (t + "%")[0] == t[0];
      assert (t + "%")[1..] == t[1..] + "%";
      if s != [] {
        LikePrefix(s[1..], t[1..]);
        if IsPrefix(t, s) {
          assert s[1..][..|t[1..]|] == s[..|t|][1..];
        }
        if s[0] == t[0] && IsPrefix(t[1..], s[1..]) {
          assert s[..|t|] == [s[0]] + s[1..][..|t[1..]|];
        }
      }
    }
  }

  lemma OccursShift(s: string, t: string, i: nat)
    requires s != []
    ensures OccursAt(s[1..], t, i) <==> OccursAt(s, t, i + 1)
  {
    if i + 1 <= |s| - |t| {
      assert s[1..][i..i + |t|] == s[i + 1..i + 1 + |t|];
    }
  }

  /** The pattern `%` matches every string. */
  lemma {:induction false} LikeAnything(s: string)
    ensures Like(s, "%")
    decreases |s|
  {
    assert "%"[1..] == [];
    if s != [] {
      LikeAnything(s[1..]);
    }
  }

  /**
   * The search pattern `%t%`, with `t` free of wildcards, matches exactly
   * the strings that contain `t`.
   */
  lemma {:induction false} LikeContains(s: string, t: string)
    requires NoWildcards(t)
    ensures Like(s, "%" + t + "%") <==> Contains(s, t)
    decreases |s|
  {
    var p := "%" + t + "%";
    assert p[0] == '%' && p[1..] == t + "%";
    LikePrefix(s, t);
    if s == [] {
      assert Contains(s, t) <==> t == [] by {
        if t == [] {
          assert OccursAt(s, t, 0);
        }
      }
      assert Like(s, p) <==> Like(s, p[1..]);
    } else {
      LikeContains(s[1..], t);
      assert Like(s, p) <==> IsPrefix(t, s) || Like(s[1..], p);
      if Contains(s, t) {
        var i :| 0 <= i <= |s| - |t| && OccursAt(s, t, i);
        if i > 0 {
          OccursShift(s, t, i - 1);
        } else {
          assert IsPrefix(t, s);
        }
      }
      if Contains(s[1..], t) {
        var i :| 0 <= i <= |s[1..]| - |t| && OccursAt(s[1..], t, i);
        OccursShift(s, t, i);
      }
      if IsPrefix(t, s) {
        assert OccursAt(s, t, 0);
      }
    }
  }

  /** Case-insensitive `LIKE` (`ILIKE`, or `LOWER(s) LIKE LOWER(p)`). */
  predicate ILike(s: string, p: string) {
    Like(ToLower(s), ToLower(p))
  }

  /** Lower-casing leaves `%` and `_` alone and never produces them. */
  lemma ToLowerNoWildcards(t: string)
    requires NoWildcards(t)
    ensures NoWildcards(ToLower(t))
  {
  }

  /**
   * The case-insensitive search pattern `%t%`, with `t` free of wildcards,
   * matches exactly the strings that contain `t` once both are lower-cased.
   */
  lemma ILikeContains(s: string, t: string)
    requires NoWildcards(t)
    ensures ILike(s, "%" + t + "%") <==> Contains(ToLower(s), ToLower(t))
  {
    ToLowerAppend("%", t);
    ToLowerAppend("%" + t, "%");
    assert ToLower("%" + t + "%") == "%" + ToLower(t) + "%";
    ToLowerNoWildcards(t);
    LikeContains(ToLower(s), ToLower(t));
  }

  // ---------------------------------------------------------------------
  // Decimal numbers
  // ---------------------------------------------------------------------

  predicate IsDigit(c: char) {
    '0' <= c <= '9'
  }

  function DigitValue(c: char): nat
    requires IsDigit(c)
  {
    c as int - '0' as int
  }

  function DigitChar(d: nat): (c: char)
    requires d < 10
    ensures IsDigit(c) && DigitValue(c) == d
  {
    ('0' as int + d) as char
  }

  /** The value of a string of decimal digits, most significant first. */
  function DigitsValue(s: string): nat
    requires forall i :: 0 <= i < |s| ==> IsDigit(s[i])
    decreases |s|
  {
    if s == [] then 0 else DigitsValue(s[..|s| - 1]) * 10 + DigitValue(s[|s| - 1])
  }

  /** Decimal rendering of a natural number, without leading zeros. */
  function NatToString(n: nat): (r: string)
    ensures |r| >= 1
    ensures forall i :: 0 <= i < |r| ==> IsDigit(r[i])
    ensures DigitsValue(r) == n
    decreases n
  {
    if n < 10 then [DigitChar(n)]
    else
      var r := NatToString(n / 10) + [DigitChar(n % 10)];
      assert r[..|r| - 1] == NatToString(n / 10);
      r
  }

  /** Decimal rendering of an integer, as JavaScript and Java print one. */
  function IntToString(n: int): (r: string)
    ensures |r| >= 1
    ensures n >= 0 ==> r == NatToString(n)
    ensures n < 0 ==> r == "-" + NatToString(-n)
  {
    if n >= 0 then NatToString(n) else "-" + NatToString(-n)
  }

  /** Number of leading characters of `s` that are decimal digits. */
  function DigitRun(s: string): (k: nat)
    ensures k <= |s|
    ensures forall i :: 0 <= i < k ==> IsDigit(s[i])
    ensures k < |s| ==> !IsDigit(s[k])
  {
    if s == [] || !IsDigit(s[0]) then 0 else 1 + DigitRun(s[1..])
  }

  /** Number of leading white-space characters of `s`. */
  function WhitespaceRun(s: string): (k: nat)
    ensures k <= |s|
    ensures forall i :: 0 <= i < k ==> IsWhitespace(s[i])
    ensures k < |s| ==> !IsWhitespace(s[k])
  {
    if s == [] || !IsWhitespace(s[0]) then 0 else 1 + WhitespaceRun(s[1..])
  }

  /**
   * JavaScript `parseInt(s, 10)`: skip leading white space, read an
   * optional sign and the longest run of decimal digits after it, and
   * ignore the rest. `None` stands for NaN (no digit at that point).
   */
  function ParseInt(s: string): Option<int> {
    var t := s[WhitespaceRun(s)..];
    var neg := t != [] && t[0] == '-';
    var u := if t != [] && (t[0] == '-' || t[0] == '+') then t[1..] else t;
    var k := DigitRun(u);
    if k == 0 then None
    else if neg then Some(-(DigitsValue(u[..k]) as int))
    else Some(DigitsValue(u[..k]))
  }

  /** `parseInt` reads back every integer `IntToString` renders. */
  lemma ParseIntToString(n: int)
    ensures ParseInt(IntToString(n)) == Some(n)
  {
    var r := IntToString(n);
    assert WhitespaceRun(r) == 0;
    var digits := if n >= 0 then NatToString(n) else NatToString(-n);
    DigitRunAll(digits);
    if n < 0 {
      assert r[1..] == digits;
    }
    assert digits[..|digits|] == digits;
  }

  lemma {:induction false} DigitRunAll(s: string)
    requires forall i :: 0 <= i < |s| ==> IsDigit(s[i])
    ensures DigitRun(s) == |s|
    decreases |s|
  {
    if s != [] {
      DigitRunAll(s[1..]);
    }
  }

  /** Text that starts with no digit (after white space and sign) is NaN. */
  lemma ParseIntNoDigits(s: string)
    requires s == [] || (!IsDigit(s[0]) && !IsWhitespace(s[0]) && s[0] != '-' && s[0] != '+')
    ensures ParseInt(s) == None
  {
  }
}
