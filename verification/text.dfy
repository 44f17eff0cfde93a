/**
  The string helpers the components rely on: ASCII `toLowerCase`, `includes`,
  `trim`, JavaScript truthiness of a string, and decimal rendering of a
  non-negative integer (what a template literal does with a number).
 */
module Text {

  /** A prop is "truthy" when it is a non-empty string; `undefined` is modelled as "". */
  predicate Truthy(s: string) {
    |s| > 0
  }

  predicate IsUpper(c: char) {
    'A' <= c <= 'Z'
  }

  function LowerChar(c: char): char {
    if IsUpper(c) then (c as int - 'A' as int + 'a' as int) as char else c
  }

  /** `toLowerCase`, restricted to the ASCII letters. */
  function Lower(s: string): string {
    seq(|s|, i requires 0 <= i < |s| => LowerChar(s[i]))
  }

  /** Lower-casing a lower-cased text changes nothing. */
  lemma LowerIdempotent(s: string)
    ensures Lower(Lower(s)) == Lower(s)
  {
    var t := Lower(s);
    assert forall i :: 0 <= i < |t| ==> LowerChar(t[i]) == t[i];
  }

  /** Strings that lower-case alike have the same length. */
  lemma LowerSameLength(a: string, b: string)
    requires Lower(a) == Lower(b)
    ensures |a| == |b|
  {
    assert |a| == |Lower(a)|;
  }

  /** Every character of `s` is a single UTF-16 code unit: none lies above U+FFFF. */
  predicate Bmp(s: string) {
    forall i :: 0 <= i < |s| ==> s[i] <= '\U{FFFF}'
  }

  /** `String.prototype.length`: UTF-16 code units, so a character above U+FFFF counts twice. */
  function JsLength(s: string): (n: nat)
    ensures |s| <= n <= 2 * |s|
    decreases |s|
  {
    if s == [] then 0 else (if s[0] > '\U{FFFF}' then 2 else 1) + JsLength(s[1..])
  }

  /** The JavaScript length is the number of characters exactly when no character lies above U+FFFF. */
  lemma {:induction false} JsLengthIsSize(s: string)
    ensures JsLength(s) == |s| <==> Bmp(s)
    decreases |s|
  {
    if s != [] {
      JsLengthIsSize(s[1..]);
      assert forall i :: 1 <= i < |s| ==> s[i] == s[1..][i - 1];
    }
  }

  /** Texts whose characters agree, position by position, on lying above U+FFFF have the same JavaScript length. */
  lemma {:induction false} JsLengthPointwise(a: string, b: string)
    requires |a| == |b|
    requires forall i :: 0 <= i < |a| ==> (a[i] > '\U{FFFF}' <==> b[i] > '\U{FFFF}')
    ensures JsLength(a) == JsLength(b)
    decreases |a|
  {
    if a != [] {
      assert forall i :: 0 <= i < |a| - 1 ==> a[1..][i] == a[i + 1] && b[1..][i] == b[i + 1];
      JsLengthPointwise(a[1..], b[1..]);
    }
  }

  /** Texts that lower-case alike have the same JavaScript length. */
  lemma LowerSameJsLength(a: string, b: string)
    requires Lower(a) == Lower(b)
    ensures JsLength(a) == JsLength(b)
  {
    LowerSameLength(a, b);
    forall i | 0 <= i < |a|
      ensures a[i] > '\U{FFFF}' <==> b[i] > '\U{FFFF}'
    {
      assert Lower(a)[i] == LowerChar(a[i]) && Lower(b)[i] == LowerChar(b[i]);
    }
    JsLengthPointwise(a, b);
  }

  /** `hay` has `needle` at position `i`. */
  predicate OccursAt(hay: string, needle: string, i: int) {
    0 <= i && i + |needle| <= |hay| && hay[i..i + |needle|] == needle
  }

  /** The meaning of `hay.includes(needle)`: an occurrence at some position. */
  ghost predicate Contains(hay: string, needle: string) {
    exists i :: OccursAt(hay, needle, i)
  }

  /** `String.prototype.includes`: scan the positions left to right. */
  function Includes(hay: string, needle: string): (b: bool)
    ensures b <==> Contains(hay, needle)
    decreases |hay|
  {
    if |needle| > |hay| then
      assert forall i :: !OccursAt(hay, needle, i);
      false
    else if hay[..|needle|] == needle then
      assert OccursAt(hay, needle, 0);
      true
    else
      var rest := Includes(hay[1..], needle);
      assert forall i :: 1 <= i ==> (OccursAt(hay, needle, i) <==> OccursAt(hay[1..], needle, i - 1)) by {
        forall i | 1 <= i
          ensures OccursAt(hay, needle, i) <==> OccursAt(hay[1..], needle, i - 1)
        {
          if i + |needle| <= |hay| {
            var tail := hay[1..];
            var a, b := hay[i..i + |needle|], tail[i - 1..i - 1 + |needle|];
            assert |a| == |b|;
            assert forall j :: 0 <= j < |a| ==> a[j] == hay[i + j] == b[j];
          }
        }
      }
      assert rest ==> OccursAt(hay, needle, (var j :| OccursAt(hay[1..], needle, j); j) + 1);
      assert !OccursAt(hay, needle, 0);
      rest
  }

  /** A needle whose first character the hay lacks does not occur in it. */
  lemma AbsentHead(hay: string, needle: string)
    requires |needle| > 0 && forall i :: 0 <= i < |hay| ==> hay[i] != needle[0]
    ensures !Contains(hay, needle)
  {
    forall i ensures !OccursAt(hay, needle, i) {
      if 0 <= i && i + |needle| <= |hay| {
        assert hay[i..i + |needle|][0] == hay[i];
      }
    }
  }

  /**
    The characters `String.prototype.trim` removes: the ECMAScript WhiteSpace
    code points (TAB, VT, FF, SP, NBSP, ZWNBSP and the Zs category) and the
    LineTerminator code points (LF, CR, LS, PS).
   */
  predicate IsWhitespace(c: char) {
    || c == '\t' || c == '\n' || c == '\U{000B}' || c == '\U{000C}' || c == '\r'
    || c == ' ' || c == '\U{00A0}' || c == '\U{1680}'
    || ('\U{2000}' <= c <= '\U{200A}')
    || c == '\U{2028}' || c == '\U{2029}' || c == '\U{202F}' || c == '\U{205F}'
    || c == '\U{3000}' || c == '\U{FEFF}'
  }

  /** Some character of `s` survives trimming. */
  predicate HasVisible(s: string) {
    exists i :: 0 <= i < |s| && !IsWhitespace(s[i])
  }

  function TrimStart(s: string): (r: string)
    ensures |r| <= |s| && r == s[|s| - |r|..]
    ensures forall i :: 0 <= i < |s| - |r| ==> IsWhitespace(s[i])
    ensures |r| > 0 ==> !IsWhitespace(r[0])
  {
    if |s| > 0 && IsWhitespace(s[0]) then TrimStart(s[1..]) else s
  }

  function TrimEnd(s: string): (r: string)
    ensures |r| <= |s| && r == s[..|r|]
    ensures forall i :: |r| <= i < |s| ==> IsWhitespace(s[i])
    ensures |r| > 0 ==> !IsWhitespace(r[|r| - 1])
  {
    if |s| > 0 && IsWhitespace(s[|s| - 1]) then TrimEnd(s[..|s| - 1]) else s
  }

  /** `String.prototype.trim`: drop leading and trailing white space. */
  function Trim(s: string): string {
    TrimEnd(TrimStart(s))
  }

  /** Trimming leaves something exactly when the text has a non-white-space character. */
  lemma TrimNonEmptyIff(s: string)
    ensures |Trim(s)| > 0 <==> HasVisible(s)
  {
    var t := TrimStart(s);
    var k := |s| - |t|;
    if |Trim(s)| > 0 {
      assert !IsWhitespace(s[k]);
    }
  }

  predicate IsDigit(c: char) {
    '0' <= c <= '9'
  }

  function DigitChar(d: nat): char
    requires d < 10
  {
    ('0' as int + d) as char
  }

  function DigitValue(c: char): nat
    requires IsDigit(c)
  {
    c as int - '0' as int
  }

  /** Every character of `s` is a decimal digit. */
  predicate Digits(s: string) {
    forall i :: 0 <= i < |s| ==> IsDigit(s[i])
  }

  /** Decimal rendering of a non-negative integer, as `${n}` produces it. */
  function NatToString(n: nat): string
    decreases n
  {
    if n < 10 then [DigitChar(n)] else NatToString(n / 10) + [DigitChar(n % 10)]
  }

  /** The rendering is a non-empty run of decimal digits without a leading zero. */
  lemma {:induction false} NatToStringDigits(n: nat)
    ensures |NatToString(n)| >= 1
    ensures Digits(NatToString(n))
    ensures |NatToString(n)| > 1 ==> NatToString(n)[0] != '0'
    decreases n
  {
    if n >= 10 {
      NatToStringDigits(n / 10);
    }
  }

  /** Reads a string of decimal digits back as the number it denotes. */
  function ParseDecimal(s: string): nat
    requires Digits(s)
  {
    if |s| == 0 then 0 else ParseDecimal(s[..|s| - 1]) * 10 + DigitValue(s[|s| - 1])
  }

  lemma {:induction false} ParseNatToString(n: nat)
    ensures Digits(NatToString(n)) && ParseDecimal(NatToString(n)) == n
    decreases n
  {
    NatToStringDigits(n);
    var r := NatToString(n);
    if n >= 10 {
      NatToStringDigits(n / 10);
      ParseNatToString(n / 10);
      assert r[..|r| - 1] == NatToString(n / 10);
    }
  }

  /** The leading run of decimal digits of `s`. */
  function DigitRun(s: string): (r: string)
    ensures |r| <= |s|
    decreases |s|
  {
    if |s| > 0 && IsDigit(s[0]) then [s[0]] + DigitRun(s[1..]) else ""
  }

  /** The leading run is a prefix of `s` made only of digits, and the longest one: what follows it is not a digit. */
  lemma {:induction false} DigitRunSpec(s: string)
    ensures var r := DigitRun(s);
      r == s[..|r|] && Digits(r) && (|r| < |s| ==> !IsDigit(s[|r|]))
    decreases |s|
  {
    if |s| > 0 && IsDigit(s[0]) {
      var t := DigitRun(s[1..]);
      DigitRunSpec(s[1..]);
      var r := [s[0]] + t;
      assert forall i :: 0 < i < |r| ==> r[i] == t[i - 1] == s[i];
      assert |r| < |s| ==> s[|r|] == s[1..][|t|];
      assert r == s[..|r|];
    }
  }

  /** A run of digits followed by a non-digit, or by nothing, is read off exactly. */
  lemma DigitRunPrefix(a: string, t: string)
    requires Digits(a) && (|t| > 0 ==> !IsDigit(t[0]))
    ensures DigitRun(a + t) == a
  {
    DigitRunSpec(a + t);
    assert forall i :: 0 <= i < |a| ==> (a + t)[i] == a[i];
    assert |t| > 0 ==> (a + t)[|a|] == t[0];
    assert (a + t)[..|a|] == a;
  }

  /** Two splits into a run of digits and a rest that starts with a non-digit are the same split. */
  lemma DigitsSplit(a: string, t: string, b: string, u: string)
    requires a + t == b + u && Digits(a) && Digits(b)
    requires (|t| > 0 ==> !IsDigit(t[0])) && (|u| > 0 ==> !IsDigit(u[0]))
    ensures a == b && t == u
  {
    DigitRunPrefix(a, t);
    DigitRunPrefix(b, u);
    assert t == (a + t)[|a|..];
    assert u == (b + u)[|b|..];
  }

  /**
    Two numbers with the same separator after each, such as "H hr M min":
    the two runs of digits are determined by the text.
   */
  lemma TwoNumbersSplit(a: string, b: string, c: string, d: string, s1: string, s2: string)
    requires Digits(a) && Digits(b) && Digits(c) && Digits(d)
    requires |s1| > 0 && !IsDigit(s1[0]) && (|s2| > 0 ==> !IsDigit(s2[0]))
    requires a + s1 + b + s2 == c + s1 + d + s2
    ensures a == c && b == d
  {
    var t, u := s1 + b + s2, s1 + d + s2;
    assert a + s1 + b + s2 == a + t;
    assert c + s1 + d + s2 == c + u;
    assert t[0] == s1[0] && u[0] == s1[0];
    DigitsSplit(a, t, c, u);
    assert t[|s1|..] == b + s2;
    assert u[|s1|..] == d + s2;
    DigitsSplit(b, s2, d, s2);
  }
}
