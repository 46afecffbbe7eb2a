/** Character classes and string operations of JavaScript that the invoice
    code relies on: the regular-expression classes `\s` and `\d`, the line
    terminators excluded by `.`, ASCII case folding, `includes`, `split`,
    decimal rendering of a non-negative integer and `parseFloat`. */
module Text {
  import opened Collections

  /** `\s` of a JavaScript regular expression (WhiteSpace and LineTerminator
      of ECMA-262 section 12.2-12.3); also the characters `parseFloat` trims. */
  predicate IsWhitespace(c: char) {
    c == '\t' || c == '\n' || c == '\U{000B}' || c == '\U{000C}' || c == '\r' || c == ' '
    || c == '\U{00A0}' || c == '\U{1680}' || ('\U{2000}' <= c <= '\U{200A}')
    || c == '\U{2028}' || c == '\U{2029}' || c == '\U{202F}' || c == '\U{205F}'
    || c == '\U{3000}' || c == '\U{FEFF}'
  }

  predicate IsNotWhitespace(c: char) { !IsWhitespace(c) }

  /** The characters the regular-expression atom `.` refuses (no `s` flag). */
  predicate IsLineTerminator(c: char) {
    c == '\n' || c == '\r' || c == '\U{2028}' || c == '\U{2029}'
  }

  predicate IsNotLineTerminator(c: char) { !IsLineTerminator(c) }

  /** `\d`: the ASCII digits only. */
  predicate IsDigit(c: char) { '0' <= c <= '9' }

  predicate AllDigits(s: string) {
    forall i :: 0 <= i < |s| ==> IsDigit(s[i])
  }

  /** ASCII `toLowerCase`. */
  function LowerChar(c: char): char {
    if 'A' <= c <= 'Z' then (c as int + 32) as char else c
  }

  function Lower(s: string): (r: string)
    ensures |r| == |s|
    ensures forall i :: 0 <= i < |s| ==> r[i] == LowerChar(s[i])
  {
    seq(|s|, i requires 0 <= i < |s| => LowerChar(s[i]))
  }

  /** Two strings that differ at most in the ASCII case of their letters. */
  predicate SameIgnoringCase(a: string, b: string) {
    |a| == |b| && forall i :: 0 <= i < |a| ==> LowerChar(a[i]) == LowerChar(b[i])
  }

  predicate IsPrefix(p: string, s: string) {
    |p| <= |s| && s[..|p|] == p
  }

  predicate IsSuffix(p: string, s: string) {
    |p| <= |s| && s[|s| - |p|..] == p
  }

  /** `hay.includes(needle)`. */
  predicate Contains(hay: string, needle: string) {
    exists i :: 0 <= i <= |hay| && OccursAt(hay, needle, i)
  }

  predicate OccursAt(hay: string, needle: string, i: nat)
    requires i <= |hay|
  {
    IsPrefix(needle, hay[i..])
  }

  /** Length of the longest run of characters satisfying p that starts at i. */
  function Span(s: string, i: nat, p: char -> bool): (n: nat)
    requires i <= |s|
    ensures i + n <= |s|
    decreases |s| - i
  {
    if i == |s| || !p(s[i]) then 0 else 1 + Span(s, i + 1, p)
  }

  /** Every character of s[a..b] satisfies p. */
  predicate AllIn(s: string, a: nat, b: nat, p: char -> bool)
    requires a <= b <= |s|
  {
    forall j :: a <= j < b ==> p(s[j])
  }

  /** Every character of the span satisfies p and the next one does not. */
  lemma {:induction false} SpanRun(s: string, i: nat, p: char -> bool)
    requires i <= |s|
    ensures forall j :: i <= j < i + Span(s, i, p) ==> p(s[j])
    ensures i + Span(s, i, p) == |s| || !p(s[i + Span(s, i, p)])
    decreases |s| - i
  {
    if i < |s| && p(s[i]) {
      SpanRun(s, i + 1, p);
    }
  }

  // ---------------------------------------------------------------------
  // String.prototype.split
  // ---------------------------------------------------------------------

  /** `s.split(sep)` for a one-character separator. */
  function SplitOn(s: string, sep: char): (parts: seq<string>)
    ensures |parts| >= 1
    ensures forall k, i :: 0 <= k < |parts| && 0 <= i < |parts[k]| ==> parts[k][i] != sep
  {
    if |s| == 0 then [""]
    else
      var rest := SplitOn(s[1..], sep);
      if s[0] == sep then [""] + rest
      else
        var r := [[s[0]] + rest[0]] + rest[1..];
        assert forall k :: 1 <= k < |r| ==> r[k] == rest[k];
        r
  }

  /** `parts.join(sep)`. */
  function JoinOn(parts: seq<string>, sep: char): string
    requires |parts| >= 1
  {
    if |parts| == 1 then parts[0] else parts[0] + [sep] + JoinOn(parts[1..], sep)
  }

  /** Splitting loses nothing: joining the parts with the separator restores s. */
  lemma {:induction false} SplitOnJoin(s: string, sep: char)
    ensures JoinOn(SplitOn(s, sep), sep) == s
  {
    if |s| > 0 {
      SplitOnJoin(s[1..], sep);
      var rest := SplitOn(s[1..], sep);
      if s[0] != sep {
        var r := [[s[0]] + rest[0]] + rest[1..];
        assert r[1..] == rest[1..];
        if |rest| > 1 {
          assert JoinOn(rest, sep) == rest[0] + [sep] + JoinOn(rest[1..], sep);
        }
      } else {
        assert ([""] + rest)[1..] == rest;
      }
    }
  }

  function Concat(parts: seq<string>): string
  {
    if |parts| == 0 then [] else parts[0] + Concat(parts[1..])
  }

  /** s with every `\s` character removed. */
  function RemoveWhitespace(s: string): string
  {
    if |s| == 0 then []
    else (if IsWhitespace(s[0]) then [] else [s[0]]) + RemoveWhitespace(s[1..])
  }

  predicate NoWhitespace(s: string) {
    forall i :: 0 <= i < |s| ==> !IsWhitespace(s[i])
  }

  lemma {:induction false} RemoveWhitespaceRun(s: string, w: nat)
    requires w <= |s|
    requires forall i :: 0 <= i < w ==> IsWhitespace(s[i])
    ensures RemoveWhitespace(s) == RemoveWhitespace(s[w..])
  {
    if w > 0 {
      RemoveWhitespaceRun(s[1..], w - 1);
      assert s[1..][w - 1..] == s[w..];
    }
  }

  /** `s.split(/\s+/)`: the separators are the maximal runs of whitespace. */
  function SplitWhitespace(s: string): (parts: seq<string>)
    ensures |parts| >= 1
    decreases |s|
  {
    if |s| == 0 then [""]
    else if IsWhitespace(s[0]) then [""] + SplitWhitespace(s[Span(s, 0, IsWhitespace)..])
    else
      var rest := SplitWhitespace(s[1..]);
      [[s[0]] + rest[0]] + rest[1..]
  }

  lemma PrefixCons(c: char, p: string, t: string)
    requires IsPrefix(p, t)
    ensures IsPrefix([c] + p, [c] + t)
  {
    assert ([c] + t)[..|p| + 1] == [c] + t[..|p|];
  }

  lemma SuffixCons(c: char, p: string, t: string)
    requires IsSuffix(p, t)
    ensures IsSuffix(p, [c] + t)
  {
    assert ([c] + t)[|t| + 1 - |p|..] == t[|t| - |p|..];
  }

  lemma SuffixDrop(p: string, s: string, w: nat)
    requires w <= |s| && IsSuffix(p, s[w..])
    ensures IsSuffix(p, s)
  {
    assert s[w..][|s| - w - |p|..] == s[|s| - |p|..];
  }

  /** No part of a whitespace split holds whitespace. */
  lemma {:induction false} SplitWhitespaceParts(s: string)
    ensures forall k :: 0 <= k < |SplitWhitespace(s)| ==> NoWhitespace(SplitWhitespace(s)[k])
    decreases |s|
  {
    if |s| > 0 {
      if IsWhitespace(s[0]) {
        SplitWhitespaceParts(s[Span(s, 0, IsWhitespace)..]);
      } else {
        var rest := SplitWhitespace(s[1..]);
        SplitWhitespaceParts(s[1..]);
        var parts := SplitWhitespace(s);
        assert parts == [[s[0]] + rest[0]] + rest[1..];
        assert forall k :: 1 <= k < |parts| ==> parts[k] == rest[k];
      }
    }
  }

  /** The first part is the leading non-whitespace run of s: "" when s starts
      with whitespace. */
  lemma {:induction false} SplitWhitespaceFirst(s: string)
    ensures IsPrefix(SplitWhitespace(s)[0], s)
    ensures |SplitWhitespace(s)[0]| == |s| || IsWhitespace(s[|SplitWhitespace(s)[0]|])
    decreases |s|
  {
    if |s| > 0 && !IsWhitespace(s[0]) {
      var t := s[1..];
      var rest := SplitWhitespace(t);
      SplitWhitespaceFirst(t);
      assert SplitWhitespace(s)[0] == [s[0]] + rest[0];
      assert s == [s[0]] + t;
      PrefixCons(s[0], rest[0], t);
      if |rest[0]| < |t| {
        assert s[|rest[0]| + 1] == t[|rest[0]|];
      }
    }
  }

  /** w ends s, and s either is w or has whitespace just before it. */
  predicate EndsRun(w: string, s: string) {
    IsSuffix(w, s) && (|w| == |s| || IsWhitespace(s[|s| - |w| - 1]))
  }

  /** The last part is the trailing non-whitespace run of s: "" when s ends
      with whitespace. */
  lemma {:induction false} SplitWhitespaceLast(s: string)
    ensures EndsRun(Last(SplitWhitespace(s)), s)
    decreases |s|
  {
    if |s| == 0 {
      assert s[0..] == s;
    } else if IsWhitespace(s[0]) {
      SpanRun(s, 0, IsWhitespace);
      SplitWhitespaceLast(s[Span(s, 0, IsWhitespace)..]);
      SplitWhitespaceLastSpace(s);
    } else {
      SplitWhitespaceLast(s[1..]);
      SplitWhitespaceLastWord(s);
    }
  }

  /** The last element of a non-empty sequence. */
  function Last<T>(xs: seq<T>): T
    requires |xs| > 0
  {
    xs[|xs| - 1]
  }

  /** The step of SplitWhitespaceLast over a leading whitespace run. */
  lemma SplitWhitespaceLastSpace(s: string)
    requires |s| > 0 && IsWhitespace(s[0])
    requires Span(s, 0, IsWhitespace) > 0 && IsWhitespace(s[Span(s, 0, IsWhitespace) - 1])
    requires EndsRun(Last(SplitWhitespace(s[Span(s, 0, IsWhitespace)..])), s[Span(s, 0, IsWhitespace)..])
    ensures EndsRun(Last(SplitWhitespace(s)), s)
  {
    var w := Span(s, 0, IsWhitespace);
    var rest := SplitWhitespace(s[w..]);
    assert SplitWhitespace(s) == [""] + rest;
    assert Last(SplitWhitespace(s)) == Last(rest);
    EndsRunDrop(Last(rest), s, w);
  }

  /** The step of SplitWhitespaceLast over a leading non-whitespace character. */
  lemma SplitWhitespaceLastWord(s: string)
    requires |s| > 0 && !IsWhitespace(s[0])
    requires EndsRun(Last(SplitWhitespace(s[1..])), s[1..])
    ensures EndsRun(Last(SplitWhitespace(s)), s)
  {
    var t := s[1..];
    var rest := SplitWhitespace(t);
    SplitWhitespaceCons(s);
    if |rest| == 1 {
      SplitWhitespaceOne(t);
    } else {
      SplitWhitespaceMany(t);
    }
    EndsRunWordStep(s[0], t, rest, SplitWhitespace(s), s);
  }

  /** One unfolding of SplitWhitespace at a leading non-whitespace character. */
  lemma SplitWhitespaceCons(s: string)
    requires |s| > 0 && !IsWhitespace(s[0])
    ensures s == [s[0]] + s[1..]
    ensures SplitWhitespace(s)
      == [[s[0]] + SplitWhitespace(s[1..])[0]] + SplitWhitespace(s[1..])[1..]
  {
  }

  /** Gluing a non-whitespace character to the first part keeps the last
      part a run that ends the text. */
  lemma EndsRunWordStep(c: char, t: string, rest: seq<string>, parts: seq<string>, s: string)
    requires s == [c] + t
    requires !IsWhitespace(c) && |rest| >= 1
    requires parts == [[c] + rest[0]] + rest[1..]
    requires EndsRun(Last(rest), t)
    requires |rest| == 1 ==> NoWhitespace(t)
    requires |rest| > 1 ==> !NoWhitespace(t) && NoWhitespace(Last(rest))
    ensures EndsRun(Last(parts), s)
  {
    LastOfCons(parts, [c] + rest[0], rest);
    if |rest| == 1 {
      EndsRunNoWhitespace(rest[0], t);
      EndsRunWhole([c] + t);
    } else {
      EndsRunShort(Last(rest), t);
      EndsRunCons(c, Last(rest), t);
    }
  }

  lemma SplitWhitespaceOne(t: string)
    requires |SplitWhitespace(t)| == 1
    ensures NoWhitespace(t) && Last(SplitWhitespace(t)) == SplitWhitespace(t)[0]
  {
    SplitWhitespaceSingle(t);
  }

  lemma SplitWhitespaceMany(t: string)
    requires |SplitWhitespace(t)| > 1
    ensures !NoWhitespace(t) && NoWhitespace(Last(SplitWhitespace(t)))
  {
    SplitWhitespaceSingle(t);
    SplitWhitespaceParts(t);
  }

  lemma LastOfCons(parts: seq<string>, head: string, rest: seq<string>)
    requires |rest| >= 1 && parts == [head] + rest[1..]
    ensures Last(parts) == if |rest| == 1 then head else Last(rest)
  {
  }

  /** A string ends itself. */
  lemma EndsRunWhole(s: string)
    ensures EndsRun(s, s)
  {
    assert s[0..] == s;
  }

  /** A run that ends a whitespace-free string is all of it. */
  lemma EndsRunNoWhitespace(l: string, t: string)
    requires EndsRun(l, t) && NoWhitespace(t)
    ensures l == t
  {
    assert |l| == |t|;
    assert t[0..] == t;
  }

  /** A whitespace-free run cannot end a string that holds whitespace and be all of it. */
  lemma EndsRunShort(l: string, t: string)
    requires EndsRun(l, t) && NoWhitespace(l) && !NoWhitespace(t)
    ensures |l| < |t|
  {
    assert t[0..] == t;
  }

  /** Dropping a leading whitespace run does not change how s ends. */
  lemma EndsRunDrop(l: string, s: string, w: nat)
    requires 0 < w <= |s| && IsWhitespace(s[w - 1])
    requires EndsRun(l, s[w..])
    ensures EndsRun(l, s)
  {
    SuffixDrop(l, s, w);
    if |l| < |s| - w {
      assert s[|s| - |l| - 1] == s[w..][|s| - w - |l| - 1];
    }
  }

  /** Prepending a character keeps a run that stops short of the start. */
  lemma EndsRunCons(c: char, l: string, t: string)
    requires EndsRun(l, t) && |l| < |t|
    ensures EndsRun(l, [c] + t)
  {
    SuffixCons(c, l, t);
    assert ([c] + t)[|t| - |l|] == t[|t| - |l| - 1];
  }

  lemma NoWhitespaceCons(c: char, t: string)
    ensures NoWhitespace([c] + t) <==> !IsWhitespace(c) && NoWhitespace(t)
  {
    var s := [c] + t;
    assert s[0] == c;
    assert forall j :: 0 <= j < |t| ==> s[j + 1] == t[j];
    assert forall i :: 1 <= i < |s| ==> s[i] == t[i - 1];
  }

  /** When the text after the whitespace at k holds no whitespace, that
      text is the last part of the split. */
  lemma LastAfterWhitespace(s: string, k: nat)
    requires k < |s| && IsWhitespace(s[k]) && NoWhitespace(s[k + 1..])
    ensures Last(SplitWhitespace(s)) == s[k + 1..]
  {
    var parts := SplitWhitespace(s);
    var last := Last(parts);
    SplitWhitespaceLast(s);
    SplitWhitespaceParts(s);
    assert NoWhitespace(parts[|parts| - 1]);
    var start := |s| - |last|;
    assert forall j :: 0 <= j < |last| ==> last[j] == s[start + j];
  }

  /** There is a single part exactly when s has no whitespace. */
  lemma {:induction false} SplitWhitespaceSingle(s: string)
    ensures |SplitWhitespace(s)| == 1 <==> NoWhitespace(s)
    decreases |s|
  {
    if |s| > 0 {
      assert s == [s[0]] + s[1..];
      NoWhitespaceCons(s[0], s[1..]);
      if !IsWhitespace(s[0]) {
        SplitWhitespaceSingle(s[1..]);
      }
    }
  }

  /** A whitespace split drops exactly the whitespace of s and nothing else. */
  lemma {:induction false} SplitWhitespaceConcat(s: string)
    ensures Concat(SplitWhitespace(s)) == RemoveWhitespace(s)
    decreases |s|
  {
    if |s| > 0 {
      if IsWhitespace(s[0]) {
        var w := Span(s, 0, IsWhitespace);
        SpanRun(s, 0, IsWhitespace);
        SplitWhitespaceConcat(s[w..]);
        RemoveWhitespaceRun(s, w);
        var parts := SplitWhitespace(s);
        assert parts == [""] + SplitWhitespace(s[w..]);
        assert parts[1..] == SplitWhitespace(s[w..]);
      } else {
        var rest := SplitWhitespace(s[1..]);
        SplitWhitespaceConcat(s[1..]);
        var parts := SplitWhitespace(s);
        assert parts[1..] == rest[1..];
        assert Concat(rest) == rest[0] + Concat(rest[1..]);
      }
    }
  }

  // ---------------------------------------------------------------------
  // Decimal numerals
  // ---------------------------------------------------------------------

  /** The value of a digit character; callers only pass digits. */
  function DigitValue(c: char): nat
  {
    if IsDigit(c) then c as int - '0' as int else 0
  }

  /** The value of a string of decimal digits ("" is 0). */
  function DigitsValue(s: string): nat
  {
    if |s| == 0 then 0 else DigitsValue(s[..|s| - 1]) * 10 + DigitValue(s[|s| - 1])
  }

  /** The decimal rendering of n, as `${n}` produces for a non-negative integer. */
  function NatToString(n: nat): (s: string)
    ensures |s| >= 1 && AllDigits(s)
    ensures |s| > 1 ==> s[0] != '0'
  {
    var d := ['0' + (n % 10) as char];
    if n < 10 then d else NatToString(n / 10) + d
  }

  /** Reading back the rendering of n gives n. */
  lemma {:induction false} NatToStringValue(n: nat)
    ensures DigitsValue(NatToString(n)) == n
  {
    if n >= 10 {
      NatToStringValue(n / 10);
      var s := NatToString(n);
      assert s[..|s| - 1] == NatToString(n / 10);
    }
  }

  /** Different numbers render differently, so file names built from distinct
      timestamps differ. */
  lemma NatToStringInjective(m: nat, n: nat)
    requires NatToString(m) == NatToString(n)
    ensures m == n
  {
    NatToStringValue(m);
    NatToStringValue(n);
  }

  // ---------------------------------------------------------------------
  // JavaScript numbers and parseFloat
  // ---------------------------------------------------------------------

  /** A JavaScript number, with amounts as exact reals (no IEEE rounding). */
  datatype JsNumber = Finite(value: real) | NaN | Infinite(negative: bool)

  function Pow10(n: nat): (r: real)
    ensures r >= 1.0
  {
    if n == 0 then 1.0 else 10.0 * Pow10(n - 1)
  }

  function Scale10(x: real, e: int): real {
    if e >= 0 then x * Pow10(e) else x / Pow10(-e)
  }

  /** The value of the digits after a decimal point. */
  function FractionValue(s: string): real
  {
    DigitsValue(s) as real / Pow10(|s|)
  }

  /** The exponent `e[+-]digits` starting at m, or 0 when there is none. */
  function ExponentAt(u: string, m: nat): int
    requires m <= |u|
  {
    if m < |u| && (u[m] == 'e' || u[m] == 'E') then
      var signed := m + 1 < |u| && (u[m + 1] == '+' || u[m + 1] == '-');
      var start := if signed then m + 2 else m + 1;
      var c := Span(u, start, IsDigit);
      if c == 0 then 0
      else
        var v: int := DigitsValue(u[start..start + c]);
        if signed && u[m + 1] == '-' then -v else v
    else 0
  }

  /** `parseFloat(s)`: skip leading whitespace, then read the longest prefix
      that is a StrDecimalLiteral (optional sign, then `Infinity` or digits
      with an optional fraction and exponent); NaN when there is none. */
  function ParseFloat(s: string): JsNumber
  {
    var t := s[Span(s, 0, IsWhitespace)..];
    if |t| > 0 && t[0] == '-' then Negate(ParseUnsigned(t[1..]))
    else if |t| > 0 && t[0] == '+' then ParseUnsigned(t[1..])
    else ParseUnsigned(t)
  }

  function Negate(x: JsNumber): JsNumber
  {
    match x
    case Finite(v) => Finite(-v)
    case NaN => NaN
    case Infinite(neg) => Infinite(!neg)
  }

  /** The longest prefix of u that is `Infinity` or an unsigned decimal literal. */
  function ParseUnsigned(u: string): JsNumber
  {
    if IsPrefix("Infinity", u) then Infinite(false) else ParseDecimal(u)
  }

  /** Digits, an optional `.` and digits (at least one digit in all), and an
      optional exponent. */
  function ParseDecimal(u: string): JsNumber
  {
    var a := Span(u, 0, IsDigit);
    var dot := a < |u| && u[a] == '.';
    var b := if dot then Span(u, a + 1, IsDigit) else 0;
    if a == 0 && b == 0 then NaN
    else
      Finite(Scale10(Mantissa(u[..a], if dot then u[a + 1..a + 1 + b] else ""),
                     ExponentAt(u, if dot then a + 1 + b else a)))
  }

  /** The value of `whole.frac`. */
  function Mantissa(whole: string, frac: string): real
  {
    DigitsValue(whole) as real + FractionValue(frac)
  }

  /** A string starting with a digit is read by the decimal grammar alone. */
  lemma ParseFloatFromDigit(s: string)
    requires |s| > 0 && IsDigit(s[0])
    ensures ParseFloat(s) == ParseDecimal(s)
  {
    SpanExact(s, 0, 0, IsWhitespace);
    assert s[0..] == s;
    assert !IsPrefix("Infinity", s) by { if |s| >= 8 { assert s[..8][0] == s[0]; } }
  }

  /** parseFloat yields NaN when the first character cannot begin a number:
      in particular for "" and for a string starting with "$". */
  lemma ParseFloatNaN(s: string)
    requires |s| == 0 || !(IsWhitespace(s[0]) || IsDigit(s[0]) || s[0] in "+-.I")
    ensures ParseFloat(s) == NaN
  {
    SpanExact(s, 0, 0, IsWhitespace);
    assert s[0..] == s;
    if |s| > 0 {
      assert !IsPrefix("Infinity", s) by { if |s| >= 8 { assert s[..8][0] == s[0]; } }
      SpanExact(s, 0, 0, IsDigit);
    }
  }

  lemma SpanExact(s: string, i: nat, n: nat, p: char -> bool)
    requires i + n <= |s|
    requires forall j :: i <= j < i + n ==> p(s[j])
    requires i + n == |s| || !p(s[i + n])
    ensures Span(s, i, p) == n
    decreases n
  {
    if n > 0 {
      SpanExact(s, i + 1, n - 1, p);
    }
  }

  /** No run of characters satisfying p at i is longer than the span. */
  lemma {:induction false} SpanMax(s: string, i: nat, n: nat, p: char -> bool)
    requires i + n <= |s| && AllIn(s, i, i + n, p)
    ensures n <= Span(s, i, p)
    decreases n
  {
    if n > 0 {
      SpanMax(s, i + 1, n - 1, p);
    }
  }

  /** Digits, a point and digits, with nothing after them. */
  lemma ParseDecimalPlain(u: string, a: nat, b: nat)
    requires a >= 1 && a + 1 + b == |u| && u[a] == '.'
    requires Span(u, 0, IsDigit) == a && Span(u, a + 1, IsDigit) == b
    ensures ParseDecimal(u) == Finite(DigitsValue(u[..a]) as real + FractionValue(u[a + 1..]))
  {
    assert u[a + 1..a + 1 + b] == u[a + 1..];
    ParseDecimalPoint(u, a, b);
    Scale10Zero(Mantissa(u[..a], u[a + 1..]));
  }

  /** The decimal grammar on digits, a point and digits, before the exponent. */
  lemma ParseDecimalPoint(u: string, a: nat, b: nat)
    requires a >= 1 && a + 1 + b <= |u| && u[a] == '.'
    requires Span(u, 0, IsDigit) == a && Span(u, a + 1, IsDigit) == b
    ensures ParseDecimal(u) == Finite(Scale10(Mantissa(u[..a], u[a + 1..a + 1 + b]), ExponentAt(u, a + 1 + b)))
  {
  }

  lemma Scale10Zero(x: real)
    ensures Scale10(x, 0) == x
  {
  }

  /** parseFloat of `digits.dd` (at least one integer digit, two fraction
      digits) is exactly the decimal value written. */
  lemma ParseFloatDecimal(whole: string, frac: string)
    requires |whole| >= 1 && AllDigits(whole)
    requires |frac| == 2 && AllDigits(frac)
    ensures ParseFloat(whole + "." + frac)
            == Finite(DigitsValue(whole) as real + DigitsValue(frac) as real / 100.0)
  {
    var s := whole + "." + frac;
    var a := |whole|;
    DecimalShape(whole, frac);
    ParseFloatFromDigit(s);
    ParseDecimalPlain(s, a, 2);
    FractionTwoDigits(frac);
  }

  /** The pieces of `whole.frac` and the digit runs the decimal grammar finds. */
  lemma DecimalShape(whole: string, frac: string)
    requires |whole| >= 1 && AllDigits(whole)
    requires |frac| == 2 && AllDigits(frac)
    ensures var s := whole + "." + frac;
      && |s| == |whole| + 3 && IsDigit(s[0]) && s[|whole|] == '.'
      && s[..|whole|] == whole && s[|whole| + 1..] == frac
      && Span(s, 0, IsDigit) == |whole| && Span(s, |whole| + 1, IsDigit) == 2
  {
    var s := whole + "." + frac;
    var a := |whole|;
    assert s[..a] == whole;
    assert s[a + 1..] == frac;
    SpanExact(s, 0, a, IsDigit);
    SpanExact(s, a + 1, 2, IsDigit);
  }

  lemma FractionTwoDigits(f: string)
    requires |f| == 2
    ensures FractionValue(f) == DigitsValue(f) as real / 100.0
  {
    assert Pow10(2) == 100.0;
  }

  /** parseFloat reads back the decimal rendering of a non-negative integer. */
  lemma ParseFloatNatToString(n: nat)
    ensures ParseFloat(NatToString(n)) == Finite(n as real)
  {
    var s := NatToString(n);
    NatToStringValue(n);
    ParseFloatFromDigit(s);
    SpanExact(s, 0, |s|, IsDigit);
    ParseDecimalWhole(s);
  }

  /** Digits with nothing after them. */
  lemma ParseDecimalWhole(u: string)
    requires |u| >= 1 && Span(u, 0, IsDigit) == |u|
    ensures ParseDecimal(u) == Finite(DigitsValue(u) as real)
  {
    assert u[..|u|] == u;
    assert ParseDecimal(u) == Finite(Scale10(Mantissa(u, ""), 0));
    Scale10Zero(Mantissa(u, ""));
    assert FractionValue("") == 0.0;
  }
}
