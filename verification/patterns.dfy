/** The regular expressions the invoice text extractors use, each written as
    a declarative description of its parses plus a deterministic matcher
    proved to pick the parse a backtracking JavaScript engine reports:

      `LIT\s*\$?(\d+\.\d{2})`  the amount after a label (flag `i`),
      `LIT\s*(.*)` / `LIT\s*(.+)`  the rest of a labelled line,
      `\$\d+\.\d{2}`           a price tag somewhere in a line.

    `String.prototype.match` without the `g` flag reports the match that
    starts leftmost; among the parses at that start it reports the first in
    backtracking order, in which each greedy quantifier prefers more. */
module Patterns {
  import opened Collections
  import opened Text

  // ---------------------------------------------------------------------
  // Literals and the leftmost start
  // ---------------------------------------------------------------------

  /** How one pattern character matches one text character. Under the `i`
      flag (without `u`) ASCII letters compare case-insensitively; since the
      literals here are ASCII, no other character folds onto them. */
  predicate CharMatches(c: char, pc: char, ignoreCase: bool) {
    if ignoreCase then LowerChar(c) == LowerChar(pc) else c == pc
  }

  /** The literal lit occurs at position i of t. */
  predicate LiteralAt(t: string, i: nat, lit: string, ignoreCase: bool) {
    i + |lit| <= |t| && forall k :: 0 <= k < |lit| ==> CharMatches(t[i + k], lit[k], ignoreCase)
  }

  /** The first position in [lo, hi] at which m succeeds, with its result. */
  function Leftmost<R>(m: nat -> Option<R>, lo: nat, hi: nat): Option<(nat, R)>
    decreases hi - lo
  {
    if lo > hi then None
    else if m(lo).Some? then Some((lo, m(lo).value))
    else Leftmost(m, lo + 1, hi)
  }

  /** Leftmost reports a success and no earlier one, or reports none when
      there is none in the range. */
  lemma {:induction false} LeftmostSpec<R>(m: nat -> Option<R>, lo: nat, hi: nat)
    ensures match Leftmost(m, lo, hi) {
      case Some((i, x)) =>
        lo <= i <= hi && m(i) == Some(x) && (forall j :: lo <= j < i ==> m(j).None?)
      case None => (forall j :: lo <= j <= hi ==> m(j).None?)
    }
    decreases hi + 1 - lo
  {
    if lo <= hi && m(lo).None? {
      LeftmostSpec(m, lo + 1, hi);
    }
  }

  // ---------------------------------------------------------------------
  // \d+\.\d{2}
  // ---------------------------------------------------------------------

  /** n >= 1 digits at r, a point, and two digits. */
  predicate DecimalAt(t: string, r: nat, n: nat) {
    n >= 1 && r + n + 3 <= |t| && AllIn(t, r, r + n, IsDigit)
    && t[r + n] == '.' && IsDigit(t[r + n + 1]) && IsDigit(t[r + n + 2])
  }

  /** The number of integer digits of the decimal at r, if there is one. */
  function MatchDecimalAt(t: string, r: nat): Option<nat>
  {
    if r > |t| then None
    else
      var n := Span(t, r, IsDigit);
      if n >= 1 && r + n + 3 <= |t| && t[r + n] == '.' && IsDigit(t[r + n + 1]) && IsDigit(t[r + n + 2])
      then Some(n) else None
  }

  /** The decimal at r has exactly one parse, and the matcher finds it:
      backing `\d+` off would leave a digit where the point must be. */
  lemma MatchDecimalAtSpec(t: string, r: nat, n: nat)
    ensures MatchDecimalAt(t, r) == Some(n) <==> DecimalAt(t, r, n)
  {
    if r <= |t| {
      SpanRun(t, r, IsDigit);
      if DecimalAt(t, r, n) {
        SpanExact(t, r, n, IsDigit);
      }
    }
  }

  // ---------------------------------------------------------------------
  // LIT\s*\$?(\d+\.\d{2})
  // ---------------------------------------------------------------------

  /** The optional dollar sign at q: how many characters `\$?` consumes. */
  function DollarAt(t: string, q: nat): (d: nat)
    ensures d <= 1
    ensures d == 1 <==> q < |t| && t[q] == '$'
  {
    if q < |t| && t[q] == '$' then 1 else 0
  }

  /** One parse of `\s*\$?(\d+\.\d{2})` at p: w whitespace characters, an
      optional dollar sign, then a decimal with n integer digits. */
  predicate AmountTail(t: string, p: nat, w: nat, dollar: bool, n: nat) {
    var q := p + w;
    q <= |t| && AllIn(t, p, q, IsWhitespace)
    && (dollar ==> q < |t| && t[q] == '$')
    && DecimalAt(t, q + (if dollar then 1 else 0), n)
  }

  /** One parse of the amount pattern at i. */
  predicate AmountParse(t: string, i: nat, lit: string, ignoreCase: bool, w: nat, dollar: bool, n: nat) {
    LiteralAt(t, i, lit, ignoreCase) && AmountTail(t, i + |lit|, w, dollar, n)
  }

  datatype AmountMatch = AmountMatch(w: nat, dollar: bool, n: nat)

  /** The start of the captured decimal of a parse. */
  function AmountStart(p: nat, a: AmountMatch): nat
  {
    p + a.w + (if a.dollar then 1 else 0)
  }

  /** The captured text of a parse: the decimal. */
  function AmountCapture(t: string, i: nat, lit: string, a: AmountMatch): string
  {
    var r := AmountStart(i + |lit|, a);
    if r + a.n + 3 <= |t| then t[r..r + a.n + 3] else ""
  }

  /** `\s*\$?(\d+\.\d{2})` tried at p: all whitespace, the dollar sign when
      present, then the decimal. */
  function MatchAmountTail(t: string, p: nat): Option<AmountMatch>
  {
    if p > |t| then None
    else
      var w := Span(t, p, IsWhitespace);
      var d := DollarAt(t, p + w);
      match MatchDecimalAt(t, p + w + d)
      case Some(n) => Some(AmountMatch(w, d == 1, n))
      case None => None
  }

  /** The amount pattern tried at i. */
  function MatchAmountAt(t: string, i: nat, lit: string, ignoreCase: bool): Option<AmountMatch>
  {
    if LiteralAt(t, i, lit, ignoreCase) then MatchAmountTail(t, i + |lit|) else None
  }

  /** What the tail matcher reports is a parse. */
  lemma MatchAmountTailSound(t: string, p: nat, a: AmountMatch)
    requires MatchAmountTail(t, p) == Some(a)
    ensures AmountTail(t, p, a.w, a.dollar, a.n)
  {
    SpanRun(t, p, IsWhitespace);
    MatchDecimalAtSpec(t, AmountStart(p, a), a.n);
  }

  /** Every parse of the tail is the one the matcher reports: it has at most
      one parse, so backtracking order does not matter. */
  lemma MatchAmountTailComplete(t: string, p: nat, w: nat, dollar: bool, n: nat)
    requires AmountTail(t, p, w, dollar, n)
    ensures MatchAmountTail(t, p) == Some(AmountMatch(w, dollar, n))
  {
    var r := p + w + (if dollar then 1 else 0);
    assert IsDigit(t[r]);
    SpanExact(t, p, w, IsWhitespace);
    MatchDecimalAtSpec(t, r, n);
  }

  /** What the matcher reports is a parse. */
  lemma MatchAmountAtSound(t: string, i: nat, lit: string, ignoreCase: bool, a: AmountMatch)
    requires MatchAmountAt(t, i, lit, ignoreCase) == Some(a)
    ensures AmountParse(t, i, lit, ignoreCase, a.w, a.dollar, a.n)
  {
    MatchAmountTailSound(t, i + |lit|, a);
  }

  /** Every parse at i is the one the matcher reports. */
  lemma MatchAmountAtComplete(t: string, i: nat, lit: string, ignoreCase: bool, w: nat, dollar: bool, n: nat)
    requires AmountParse(t, i, lit, ignoreCase, w, dollar, n)
    ensures MatchAmountAt(t, i, lit, ignoreCase) == Some(AmountMatch(w, dollar, n))
  {
    MatchAmountTailComplete(t, i + |lit|, w, dollar, n);
  }

  /** The amount pattern as a function of the start. */
  function AmountMatcher(t: string, lit: string, ignoreCase: bool): nat -> Option<AmountMatch>
  {
    (i: nat) => MatchAmountAt(t, i, lit, ignoreCase)
  }

  /** `text.match(LIT\s*\$?(\d+\.\d{2}))?.[1]`: the capture at the leftmost start. */
  function FindAmount(t: string, lit: string, ignoreCase: bool): Option<string>
  {
    match Leftmost(AmountMatcher(t, lit, ignoreCase), 0, |t|)
    case Some((i, a)) => Some(AmountCapture(t, i, lit, a))
    case None => None
  }

  /** The leftmost start of the amount pattern and the match there. */
  lemma FindAmountAt(t: string, lit: string, ignoreCase: bool) returns (i: nat, a: AmountMatch)
    requires FindAmount(t, lit, ignoreCase).Some?
    ensures MatchAmountAt(t, i, lit, ignoreCase) == Some(a)
    ensures FindAmount(t, lit, ignoreCase) == Some(AmountCapture(t, i, lit, a))
    ensures forall j: nat :: j < i ==> MatchAmountAt(t, j, lit, ignoreCase).None?
  {
    var m := AmountMatcher(t, lit, ignoreCase);
    LeftmostSpec(m, 0, |t|);
    i, a := Leftmost(m, 0, |t|).value.0, Leftmost(m, 0, |t|).value.1;
    assert m(i) == Some(a);
    forall j: nat | j < i ensures MatchAmountAt(t, j, lit, ignoreCase).None? {
      assert m(j).None?;
    }
  }

  /** A capture exists exactly when the pattern has a parse somewhere; it
      is the decimal of the unique parse at the leftmost start that has one. */
  lemma FindAmountSpec(t: string, lit: string, ignoreCase: bool)
    ensures FindAmount(t, lit, ignoreCase).None? <==>
      forall i: nat, w: nat, dollar: bool, n: nat :: !AmountParse(t, i, lit, ignoreCase, w, dollar, n)
    ensures FindAmount(t, lit, ignoreCase).Some? ==>
      exists i: nat, w: nat, dollar: bool, n: nat ::
        && AmountParse(t, i, lit, ignoreCase, w, dollar, n)
        && FindAmount(t, lit, ignoreCase) == Some(AmountCapture(t, i, lit, AmountMatch(w, dollar, n)))
        && forall j: nat, w': nat, dollar': bool, n': nat :: j < i ==> !AmountParse(t, j, lit, ignoreCase, w', dollar', n')
  {
    var m := AmountMatcher(t, lit, ignoreCase);
    if FindAmount(t, lit, ignoreCase).Some? {
      var i, a := FindAmountAt(t, lit, ignoreCase);
      MatchAmountAtSound(t, i, lit, ignoreCase, a);
      forall j: nat, w': nat, dollar': bool, n': nat | j < i
        ensures !AmountParse(t, j, lit, ignoreCase, w', dollar', n')
      {
        if AmountParse(t, j, lit, ignoreCase, w', dollar', n') {
          MatchAmountAtComplete(t, j, lit, ignoreCase, w', dollar', n');
        }
      }
      assert AmountParse(t, i, lit, ignoreCase, a.w, a.dollar, a.n);
    } else {
      LeftmostSpec(m, 0, |t|);
      forall j: nat | j <= |t| ensures MatchAmountAt(t, j, lit, ignoreCase).None? {
        assert m(j).None?;
      }
      forall j: nat, w': nat, dollar': bool, n': nat
        ensures !AmountParse(t, j, lit, ignoreCase, w', dollar', n')
      {
        if AmountParse(t, j, lit, ignoreCase, w', dollar', n') {
          MatchAmountAtComplete(t, j, lit, ignoreCase, w', dollar', n');
        }
      }
    }
  }

  /** The text of a decimal at r: digits, a point, two digits. */
  lemma DecimalText(t: string, r: nat, n: nat)
    requires DecimalAt(t, r, n)
    ensures var c := t[r..r + n + 3];
      |c| >= 4 && AllDigits(c[..|c| - 3]) && c[|c| - 3] == '.' && AllDigits(c[|c| - 2..])
  {
    var c := t[r..r + n + 3];
    assert forall j :: 0 <= j < n ==> c[..n][j] == t[r + j];
    assert c[..|c| - 3] == c[..n];
  }

  /** The capture of a match is its decimal. */
  lemma AmountCaptureText(t: string, i: nat, lit: string, ignoreCase: bool, a: AmountMatch)
    requires MatchAmountAt(t, i, lit, ignoreCase) == Some(a)
    ensures var c := AmountCapture(t, i, lit, a);
      |c| >= 4 && AllDigits(c[..|c| - 3]) && c[|c| - 3] == '.' && AllDigits(c[|c| - 2..])
  {
    MatchAmountAtSound(t, i, lit, ignoreCase, a);
    DecimalText(t, AmountStart(i + |lit|, a), a.n);
  }

  /** The capture is a decimal with exactly two fraction digits. */
  lemma FindAmountDecimal(t: string, lit: string, ignoreCase: bool)
    requires FindAmount(t, lit, ignoreCase).Some?
    ensures var c := FindAmount(t, lit, ignoreCase).value;
      |c| >= 4 && AllDigits(c[..|c| - 3]) && c[|c| - 3] == '.' && AllDigits(c[|c| - 2..])
  {
    var i, a := FindAmountAt(t, lit, ignoreCase);
    AmountCaptureText(t, i, lit, ignoreCase, a);
  }

  /** `m ? parseFloat(m[1]) : 0` for the amount pattern's match m. */
  function LabelledAmount(t: string, lit: string, ignoreCase: bool): JsNumber
  {
    match FindAmount(t, lit, ignoreCase)
    case Some(c) => ParseFloat(c)
    case None => Finite(0.0)
  }

  /** The amount is never NaN: 0 without a match, and otherwise the decimal
      value of the captured digits, which have exactly two fraction digits. */
  lemma LabelledAmountValue(t: string, lit: string, ignoreCase: bool)
    ensures FindAmount(t, lit, ignoreCase).None? ==> LabelledAmount(t, lit, ignoreCase) == Finite(0.0)
    ensures FindAmount(t, lit, ignoreCase).Some? ==>
      var c := FindAmount(t, lit, ignoreCase).value;
      && |c| >= 4 && c == c[..|c| - 3] + "." + c[|c| - 2..]
      && LabelledAmount(t, lit, ignoreCase)
         == Finite(DigitsValue(c[..|c| - 3]) as real + DigitsValue(c[|c| - 2..]) as real / 100.0)
  {
    if FindAmount(t, lit, ignoreCase).Some? {
      var c := FindAmount(t, lit, ignoreCase).value;
      FindAmountDecimal(t, lit, ignoreCase);
      var whole, frac := c[..|c| - 3], c[|c| - 2..];
      assert c == whole + "." + frac;
      ParseFloatDecimal(whole, frac);
    }
  }

  // ---------------------------------------------------------------------
  // LIT\s*(.*) and LIT\s*(.+)
  // ---------------------------------------------------------------------

  /** One parse of the line pattern at i: w whitespace characters (newlines
      included), then k >= minLen characters that are not line terminators.
      minLen is 0 for `(.*)` and 1 for `(.+)`. */
  predicate LineParse(t: string, i: nat, lit: string, ignoreCase: bool, minLen: nat, w: nat, k: nat) {
    var p := i + |lit|;
    LiteralAt(t, i, lit, ignoreCase) && p + w + k <= |t| && k >= minLen
    && AllIn(t, p, p + w, IsWhitespace) && AllIn(t, p + w, p + w + k, IsNotLineTerminator)
  }

  /** Backtracking order of two parses: `\s*` is tried longest first, and for
      each choice the capture is tried longest first. */
  predicate TriedNoLater(w: nat, k: nat, w': nat, k': nat) {
    w > w' || (w == w' && k >= k')
  }

  /** Tries w, w - 1, ..., 0 whitespace characters for `\s*` after p, taking
      the longest capture for each, until a capture is long enough. */
  function BackOff(t: string, p: nat, w: nat, minLen: nat): Option<(nat, nat)>
    requires p + w <= |t|
    decreases w
  {
    var k := Span(t, p + w, IsNotLineTerminator);
    if k >= minLen then Some((w, k))
    else if w == 0 then None
    else BackOff(t, p, w - 1, minLen)
  }

  /** The line pattern tried at i: the parse a backtracking engine reaches first. */
  function MatchLineAt(t: string, i: nat, lit: string, ignoreCase: bool, minLen: nat): Option<(nat, nat)>
  {
    if !LiteralAt(t, i, lit, ignoreCase) then None
    else BackOff(t, i + |lit|, Span(t, i + |lit|, IsWhitespace), minLen)
  }

  lemma {:induction false} BackOffSound(t: string, p: nat, w: nat, minLen: nat)
    requires p + w <= |t|
    ensures match BackOff(t, p, w, minLen)
      case Some((w', k)) =>
        w' <= w && p + w' + k <= |t| && k >= minLen && AllIn(t, p + w', p + w' + k, IsNotLineTerminator)
      case None => true
    decreases w
  {
    SpanRun(t, p + w, IsNotLineTerminator);
    if Span(t, p + w, IsNotLineTerminator) < minLen && w > 0 {
      BackOffSound(t, p, w - 1, minLen);
    }
  }

  /** BackOff finds a parse whenever one with at most w whitespace characters
      exists, and none of those comes earlier in backtracking order. */
  lemma {:induction false} BackOffFirst(t: string, p: nat, w: nat, minLen: nat, w': nat, k': nat)
    requires p + w <= |t| && w' <= w && p + w' + k' <= |t| && k' >= minLen
    requires AllIn(t, p + w', p + w' + k', IsNotLineTerminator)
    ensures match BackOff(t, p, w, minLen)
      case Some((w0, k0)) => TriedNoLater(w0, k0, w', k')
      case None => false
    decreases w
  {
    var k := Span(t, p + w, IsNotLineTerminator);
    if w == w' {
      SpanMax(t, p + w, k', IsNotLineTerminator);
    } else if k < minLen {
      BackOffFirst(t, p, w - 1, minLen, w', k');
    }
  }

  /** What the matcher reports is a parse. */
  lemma MatchLineAtSound(t: string, i: nat, lit: string, ignoreCase: bool, minLen: nat, wk: (nat, nat))
    requires MatchLineAt(t, i, lit, ignoreCase, minLen) == Some(wk)
    ensures LineParse(t, i, lit, ignoreCase, minLen, wk.0, wk.1)
  {
    var p := i + |lit|;
    SpanRun(t, p, IsWhitespace);
    BackOffSound(t, p, Span(t, p, IsWhitespace), minLen);
  }

  /** Whenever the pattern has a parse at i, the matcher reports one, and it
      is the first of them in backtracking order. */
  lemma MatchLineAtFirst(t: string, i: nat, lit: string, ignoreCase: bool, minLen: nat, w: nat, k: nat)
    requires LineParse(t, i, lit, ignoreCase, minLen, w, k)
    ensures match MatchLineAt(t, i, lit, ignoreCase, minLen)
      case Some((w0, k0)) => TriedNoLater(w0, k0, w, k)
      case None => false
  {
    var p := i + |lit|;
    SpanMax(t, p, w, IsWhitespace);
    BackOffFirst(t, p, Span(t, p, IsWhitespace), minLen, w, k);
  }

  /** The capture of a line parse. */
  function LineCapture(t: string, i: nat, lit: string, wk: (nat, nat)): string
  {
    var p := i + |lit|;
    if p + wk.0 + wk.1 <= |t| then t[p + wk.0..p + wk.0 + wk.1] else ""
  }

  /** The line pattern as a function of the start. */
  function LineMatcher(t: string, lit: string, ignoreCase: bool, minLen: nat): nat -> Option<(nat, nat)>
  {
    (i: nat) => MatchLineAt(t, i, lit, ignoreCase, minLen)
  }

  /** `text.match(LIT\s*(.*))?.[1]` (minLen 0) or with `(.+)` (minLen 1). */
  function FindLine(t: string, lit: string, ignoreCase: bool, minLen: nat): Option<string>
  {
    match Leftmost(LineMatcher(t, lit, ignoreCase, minLen), 0, |t|)
    case Some((i, wk)) => Some(LineCapture(t, i, lit, wk))
    case None => None
  }

  /** The leftmost start of the line pattern and the match there. */
  lemma FindLineAt(t: string, lit: string, ignoreCase: bool, minLen: nat) returns (i: nat, wk: (nat, nat))
    requires FindLine(t, lit, ignoreCase, minLen).Some?
    ensures MatchLineAt(t, i, lit, ignoreCase, minLen) == Some(wk)
    ensures FindLine(t, lit, ignoreCase, minLen) == Some(LineCapture(t, i, lit, wk))
    ensures forall j: nat :: j < i ==> MatchLineAt(t, j, lit, ignoreCase, minLen).None?
  {
    var m := LineMatcher(t, lit, ignoreCase, minLen);
    LeftmostSpec(m, 0, |t|);
    i, wk := Leftmost(m, 0, |t|).value.0, Leftmost(m, 0, |t|).value.1;
    assert m(i) == Some(wk);
    forall j: nat | j < i ensures MatchLineAt(t, j, lit, ignoreCase, minLen).None? {
      assert m(j).None?;
    }
  }

  /** A capture exists exactly when the pattern has a parse somewhere; it is
      taken from the parse tried first at the leftmost start that has one. */
  lemma FindLineSpec(t: string, lit: string, ignoreCase: bool, minLen: nat)
    ensures FindLine(t, lit, ignoreCase, minLen).None? <==>
      forall i: nat, w: nat, k: nat :: !LineParse(t, i, lit, ignoreCase, minLen, w, k)
    ensures FindLine(t, lit, ignoreCase, minLen).Some? ==>
      exists i: nat, w: nat, k: nat ::
        && LineParse(t, i, lit, ignoreCase, minLen, w, k)
        && FindLine(t, lit, ignoreCase, minLen) == Some(LineCapture(t, i, lit, (w, k)))
        && (forall w': nat, k': nat :: LineParse(t, i, lit, ignoreCase, minLen, w', k') ==> TriedNoLater(w, k, w', k'))
        && forall j: nat, w': nat, k': nat :: j < i ==> !LineParse(t, j, lit, ignoreCase, minLen, w', k')
  {
    var m := LineMatcher(t, lit, ignoreCase, minLen);
    if FindLine(t, lit, ignoreCase, minLen).Some? {
      var i, wk := FindLineAt(t, lit, ignoreCase, minLen);
      MatchLineAtSound(t, i, lit, ignoreCase, minLen, wk);
      forall w': nat, k': nat | LineParse(t, i, lit, ignoreCase, minLen, w', k')
        ensures TriedNoLater(wk.0, wk.1, w', k')
      {
        MatchLineAtFirst(t, i, lit, ignoreCase, minLen, w', k');
      }
      forall j: nat, w': nat, k': nat | j < i
        ensures !LineParse(t, j, lit, ignoreCase, minLen, w', k')
      {
        if LineParse(t, j, lit, ignoreCase, minLen, w', k') {
          MatchLineAtFirst(t, j, lit, ignoreCase, minLen, w', k');
        }
      }
      assert LineParse(t, i, lit, ignoreCase, minLen, wk.0, wk.1);
    } else {
      LeftmostSpec(m, 0, |t|);
      forall j: nat | j <= |t| ensures MatchLineAt(t, j, lit, ignoreCase, minLen).None? {
        assert m(j).None?;
      }
      forall j: nat, w': nat, k': nat
        ensures !LineParse(t, j, lit, ignoreCase, minLen, w', k')
      {
        if LineParse(t, j, lit, ignoreCase, minLen, w', k') {
          MatchLineAtFirst(t, j, lit, ignoreCase, minLen, w', k');
        }
      }
    }
  }

  /** A capture holds no line terminator; with `(.+)` it is never empty. */
  lemma FindLineCapture(t: string, lit: string, ignoreCase: bool, minLen: nat)
    requires FindLine(t, lit, ignoreCase, minLen).Some?
    ensures var c := FindLine(t, lit, ignoreCase, minLen).value;
      |c| >= minLen && forall j :: 0 <= j < |c| ==> !IsLineTerminator(c[j])
  {
    var i, wk := FindLineAt(t, lit, ignoreCase, minLen);
    MatchLineAtSound(t, i, lit, ignoreCase, minLen, wk);
    var p := i + |lit| + wk.0;
    var c := t[p..p + wk.1];
    assert forall j :: 0 <= j < |c| ==> c[j] == t[p + j];
  }

  // ---------------------------------------------------------------------
  // \$\d+\.\d{2}
  // ---------------------------------------------------------------------

  /** One parse of the price-tag pattern at i. */
  predicate PriceParse(t: string, i: nat, n: nat) {
    i < |t| && t[i] == '$' && DecimalAt(t, i + 1, n)
  }

  function MatchPriceAt(t: string, i: nat): Option<nat>
  {
    if i < |t| && t[i] == '$' then MatchDecimalAt(t, i + 1) else None
  }

  /** Every price tag at i is the one the matcher reports. */
  lemma MatchPriceAtComplete(line: string, i: nat, n: nat)
    requires PriceParse(line, i, n)
    ensures MatchPriceAt(line, i) == Some(n)
  {
    MatchDecimalAtSpec(line, i + 1, n);
  }

  /** The price-tag pattern as a function of the start. */
  function PriceMatcher(line: string): nat -> Option<nat>
  {
    (i: nat) => MatchPriceAt(line, i)
  }

  /** `/\$\d+\.\d{2}/.test(line)`. */
  predicate HasPriceTag(line: string) {
    Leftmost(PriceMatcher(line), 0, |line|).Some?
  }

  /** The test succeeds exactly when a price tag occurs somewhere in the line. */
  lemma HasPriceTagSpec(line: string)
    ensures HasPriceTag(line) <==> exists i: nat, n: nat :: PriceParse(line, i, n)
  {
    var m := PriceMatcher(line);
    LeftmostSpec(m, 0, |line|);
    if HasPriceTag(line) {
      var i := Leftmost(m, 0, |line|).value.0;
      assert m(i).Some?;
      var n := MatchPriceAt(line, i).value;
      MatchDecimalAtSpec(line, i + 1, n);
      assert PriceParse(line, i, n);
    } else {
      forall i: nat | i <= |line| ensures MatchPriceAt(line, i).None? {
        assert m(i).None?;
      }
      forall i: nat, n: nat ensures !PriceParse(line, i, n) {
        if PriceParse(line, i, n) {
          MatchPriceAtComplete(line, i, n);
        }
      }
    }
  }
}
