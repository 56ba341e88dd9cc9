/** The regular expression with which `setVariables` decides that a variable
    value is already a colour or length token of the stylesheet language
    (CssCompiler.php, line 253), hand-encoded as predicates over strings.

    The pattern has three alternatives joined at the top level:
      `^#([a-fA-F0-9]{6})`                          anchored at the start only
      `^rgba\(\s*O\s*,\s*O\s*,\s*O\s*,\s*((0.[0-9]+)|[01])\s*\)`
                                                    anchored at the start only
      `\d+(\.\d+){0,1}(rem|em|…|pc)$`               anchored at the end only
    where O is `(0|[1-9]\d?|1\d\d?|2[0-4]\d|25[0-5])`. `preg_match` looks for a
    match anywhere, so whatever follows the first two alternatives and
    whatever precedes the third is ignored. The `i` flag makes "rgba" and the
    units case-insensitive; `\d` is ASCII; `$` (without the D modifier)
    matches at the end of the subject or just before a final newline.

    Strings stand for UTF-8 text. Without the `u` flag PCRE reads the subject
    byte by byte, so the unescaped `.` in the alpha matches one byte other
    than a newline: an ASCII character, or only the first byte of any other
    character, whose next byte is then no digit. Everywhere else the pattern
    names ASCII characters only, and a non-ASCII character fails them as
    each of its bytes does. */
module CssValuePattern {
  import opened Wrappers
  import opened PhpStrings

  predicate IsDigit(c: char) { '0' <= c <= '9' }

  predicate IsHexDigit(c: char) { IsDigit(c) || 'a' <= c <= 'f' || 'A' <= c <= 'F' }

  /** PCRE `\s`: space, tab, line feed, vertical tab, form feed, carriage return. */
  predicate IsSpace(c: char) {
    c == ' ' || c == '\t' || c == '\n' || c == '\U{000B}' || c == '\U{000C}' || c == '\r'
  }

  predicate AllDigits(t: string) { forall k | 0 <= k < |t| :: IsDigit(t[k]) }

  // First alternative

  /** `^#([a-fA-F0-9]{6})`: a hash and six hex digits at the start; anything may follow. */
  predicate HexColorPrefix(s: string) {
    |s| >= 7 && s[0] == '#' && forall k | 1 <= k < 7 :: IsHexDigit(s[k])
  }

  // Second alternative. Every `\s*` and digit run in it is followed by a token
  // that cannot begin with a space or a digit, so the longest run is the only
  // choice that can lead to a match and the scan below needs no backtracking.

  /** End of the run of `\s` that starts at `i`. */
  function SkipSpaces(s: string, i: nat): (j: nat)
    requires i <= |s|
    ensures i <= j <= |s|
    ensures forall k | i <= k < j :: IsSpace(s[k])
    ensures j == |s| || !IsSpace(s[j])
    decreases |s| - i
  {
    if i < |s| && IsSpace(s[i]) then SkipSpaces(s, i + 1) else i
  }

  /** End of the run of digits that starts at `i`. */
  function SkipDigits(s: string, i: nat): (j: nat)
    requires i <= |s|
    ensures i <= j <= |s|
    ensures forall k | i <= k < j :: IsDigit(s[k])
    ensures j == |s| || !IsDigit(s[j])
    decreases |s| - i
  {
    if i < |s| && IsDigit(s[i]) then SkipDigits(s, i + 1) else i
  }

  lemma SkipDigitsRun(s: string, i: nat, j: nat)
    requires i <= j <= |s|
    requires forall k | i <= k < j :: IsDigit(s[k])
    requires j == |s| || !IsDigit(s[j])
    ensures SkipDigits(s, i) == j
    decreases j - i
  {
    if i < j {
      SkipDigitsRun(s, i + 1, j);
    }
  }

  /** The octet group `(0|[1-9]\d?|1\d\d?|2[0-4]\d|25[0-5])`, one disjunct per branch. */
  predicate Octet(t: string) {
    || t == "0"
    || (1 <= |t| <= 2 && '1' <= t[0] <= '9' && AllDigits(t))
    || (2 <= |t| <= 3 && t[0] == '1' && AllDigits(t))
    || (|t| == 3 && t[0] == '2' && '0' <= t[1] <= '4' && IsDigit(t[2]))
    || (|t| == 3 && t[0] == '2' && t[1] == '5' && '0' <= t[2] <= '5')
  }

  /** `O\s*,\s*` at `i`; the position after it when it matches. The octet must
      be followed by `\s*,`, so it ends where the run of digits ends. */
  function OctetComma(s: string, i: nat): (r: Option<nat>)
    requires i <= |s|
    ensures r.Some? ==> i < r.value <= |s|
  {
    var j := SkipDigits(s, i);
    var k := SkipSpaces(s, j);
    if Octet(s[i..j]) && k < |s| && s[k] == ',' then Some(SkipSpaces(s, k + 1)) else None
  }

  /** An octet written without spaces around it and followed by a comma. */
  lemma OctetCommaAt(s: string, i: nat, j: nat)
    requires i < j && j + 1 < |s|
    requires forall k | i <= k < j :: IsDigit(s[k])
    requires Octet(s[i..j]) && s[j] == ',' && !IsSpace(s[j + 1])
    ensures OctetComma(s, i) == Some(j + 1)
  {
    SkipDigitsRun(s, i, j);
  }

  /** A run of digits that is not an octet. */
  lemma OctetCommaFails(s: string, i: nat, j: nat)
    requires i <= j <= |s|
    requires forall k | i <= k < j :: IsDigit(s[k])
    requires j == |s| || !IsDigit(s[j])
    requires !Octet(s[i..j])
    ensures OctetComma(s, i) == None
  {
    SkipDigitsRun(s, i, j);
  }

  /** `\s*\)` at `i`. */
  predicate CloseParen(s: string, i: nat)
    requires i <= |s|
  {
    var k := SkipSpaces(s, i);
    k < |s| && s[k] == ')'
  }

  /** A character that the unescaped `.` matches whole: one byte, not a newline. */
  predicate IsDotChar(c: char) {
    c != '\n' && c < '\U{0080}'
  }

  /** `((0.[0-9]+)|[01])\s*\)` at `i`. */
  predicate AlphaClose(s: string, i: nat)
    requires i <= |s|
  {
    || (i + 2 < |s| && s[i] == '0' && IsDotChar(s[i + 1]) && IsDigit(s[i + 2])
        && CloseParen(s, SkipDigits(s, i + 2)))
    || (i < |s| && (s[i] == '0' || s[i] == '1') && CloseParen(s, i + 1))
  }

  /** `^rgba\(\s*O\s*,\s*O\s*,\s*O\s*,\s*((0.[0-9]+)|[01])\s*\)`; anything may follow. */
  predicate RgbaPrefix(s: string) {
    && |s| >= 5 && LowerChar(s[0]) == 'r' && LowerChar(s[1]) == 'g'
    && LowerChar(s[2]) == 'b' && LowerChar(s[3]) == 'a' && s[4] == '('
    && var r := OctetComma(s, SkipSpaces(s, 5));
    && r.Some?
    && var g := OctetComma(s, r.value);
    && g.Some?
    && var b := OctetComma(s, g.value);
    && b.Some?
    && AlphaClose(s, b.value)
  }

  // Third alternative

  /** The unit alternation `rem|em|ex|ch|vw|vh|vmin|vmax|%|px|cm|mm|in|pt|pc`. */
  predicate IsUnit(w: string) {
    w in {"rem", "em", "ex", "ch", "vw", "vh", "vmin", "vmax", "%", "px", "cm", "mm", "in", "pt", "pc"}
  }

  /** `\d+(\.\d+){0,1}` matching all of `t`. */
  predicate DecimalNumber(t: string) {
    || (|t| > 0 && AllDigits(t))
    || exists k | 0 < k < |t| - 1 :: t[k] == '.' && AllDigits(t[..k]) && AllDigits(t[k + 1..])
  }

  /** The last `n` characters of `t` are a unit, in any case. */
  predicate UnitAtEnd(t: string, n: nat) {
    n <= |t| && IsUnit(ToLower(t[|t| - n..]))
  }

  /** `\d+(\.\d+){0,1}(rem|…|pc)` matching all of `t`. */
  predicate LengthLiteral(t: string) {
    exists n | 0 < n < |t| :: UnitAtEnd(t, n) && DecimalNumber(t[..|t| - n])
  }

  /** Where `$` matches: the end of the subject, or just before a final newline. */
  predicate AtDollar(s: string, e: nat) {
    e == |s| || (e + 1 == |s| && s[e] == '\n')
  }

  /** `\d+(\.\d+){0,1}(rem|…|pc)$` found anywhere in `s`. */
  predicate LengthSuffix(s: string) {
    exists i, e | 0 <= i <= e <= |s| :: AtDollar(s, e) && LengthLiteral(s[i..e])
  }

  /** `preg_match` of the whole pattern. */
  predicate Matches(s: string) {
    HexColorPrefix(s) || RgbaPrefix(s) || LengthSuffix(s)
  }

  // Consequences of the anchoring

  /** `s` without one final newline. */
  function Chomp(s: string): (t: string)
    ensures |t| <= |s| && t == s[..|t|]
  {
    if |s| > 0 && s[|s| - 1] == '\n' then s[..|s| - 1] else s
  }

  /** `t` ends with a unit (in any case) right after a digit. */
  predicate EndsWithDigitAndUnit(t: string) {
    exists n | 0 < n < |t| :: UnitAtEnd(t, n) && IsDigit(t[|t| - n - 1])
  }

  /** The characters a unit can end with. */
  predicate EndsUnit(c: char) {
    c == 'm' || c == 'x' || c == 'h' || c == 'w' || c == 'n' || c == 't' || c == 'c' || c == '%'
  }

  /** Every unit ends with one of the letters m, x, h, w, n, t, c or with %. */
  lemma UnitShape(w: string)
    requires IsUnit(w)
    ensures 0 < |w| && EndsUnit(w[|w| - 1])
  {
  }

  lemma DecimalNumberEndsWithDigit(t: string)
    requires DecimalNumber(t)
    ensures |t| > 0 && IsDigit(t[|t| - 1])
  {
    if !(|t| > 0 && AllDigits(t)) {
      var k :| 0 < k < |t| - 1 && t[k] == '.' && AllDigits(t[..k]) && AllDigits(t[k + 1..]);
      assert t[|t| - 1] == t[k + 1..][|t| - k - 2];
    }
  }

  /** `$` matches where `Chomp` cuts the subject. */
  lemma ChompAtDollar(s: string)
    ensures AtDollar(s, |Chomp(s)|)
  {
  }

  /** A `$` position not preceded by a final newline is where `Chomp` cuts. */
  lemma DollarIsChompEnd(s: string, e: nat)
    requires AtDollar(s, e)
    requires !(e == |s| && |s| > 0 && s[|s| - 1] == '\n')
    ensures e == |Chomp(s)|
  {
  }

  /** A digit followed by a unit at the end of the subject (less a final
      newline) is a match of the length alternative. */
  lemma DigitAndUnitIsLengthSuffix(s: string)
    requires EndsWithDigitAndUnit(Chomp(s))
    ensures LengthSuffix(s)
  {
    var t := Chomp(s);
    var n :| 0 < n < |t| && UnitAtEnd(t, n) && IsDigit(t[|t| - n - 1]);
    var i, e := |t| - n - 1, |t|;
    var lit := s[i..e];
    assert lit == t[i..];
    assert lit[|lit| - n..] == t[|t| - n..];
    assert lit[..|lit| - n] == [t[i]];
    assert DecimalNumber(lit[..|lit| - n]);
    assert UnitAtEnd(lit, n);
    ChompAtDollar(s);
  }

  /** A length literal ends with a digit followed by a unit. */
  lemma LiteralEndsWithDigitAndUnit(lit: string) returns (n: nat)
    requires LengthLiteral(lit)
    ensures 0 < n < |lit| && UnitAtEnd(lit, n) && IsDigit(lit[|lit| - n - 1])
  {
    n :| 0 < n < |lit| && UnitAtEnd(lit, n) && DecimalNumber(lit[..|lit| - n]);
    var num := lit[..|lit| - n];
    DecimalNumberEndsWithDigit(num);
    assert lit[|lit| - n - 1] == num[|num| - 1];
  }

  /** A literal ending with a unit cannot end at `$` after a final newline,
      since no unit ends with one. */
  lemma UnitLiteralEndsAtChomp(s: string, i: nat, e: nat, n: nat)
    requires i <= e <= |s| && AtDollar(s, e) && 0 < n < e - i && UnitAtEnd(s[i..e], n)
    ensures e == |Chomp(s)|
  {
    var w := ToLower(s[i..e][e - i - n..]);
    UnitShape(w);
    assert w[n - 1] == LowerChar(s[e - 1]);
    assert s[e - 1] != '\n';
    DollarIsChompEnd(s, e);
  }

  /** A digit and a unit at the end of a suffix of `t` are at the end of `t`. */
  lemma DigitAndUnitOfSuffix(t: string, i: nat, n: nat)
    requires i <= |t| && 0 < n < |t| - i
    requires UnitAtEnd(t[i..], n) && IsDigit(t[i..][|t| - i - n - 1])
    ensures EndsWithDigitAndUnit(t)
  {
    assert t[i..][|t| - i - n..] == t[|t| - n..];
    assert UnitAtEnd(t, n);
  }

  /** Every match of the length alternative ends, at `$`, with a digit
      followed by a unit. */
  lemma LengthSuffixIsDigitAndUnit(s: string)
    requires LengthSuffix(s)
    ensures EndsWithDigitAndUnit(Chomp(s))
  {
    var i, e :| 0 <= i <= e <= |s| && AtDollar(s, e) && LengthLiteral(s[i..e]);
    var n := LiteralEndsWithDigitAndUnit(s[i..e]);
    DigitAndUnitAtDollar(s, i, e, n);
  }

  lemma DigitAndUnitAtDollar(s: string, i: nat, e: nat, n: nat)
    requires i <= e <= |s| && AtDollar(s, e) && 0 < n < e - i
    requires UnitAtEnd(s[i..e], n) && IsDigit(s[i..e][e - i - n - 1])
    ensures EndsWithDigitAndUnit(Chomp(s))
  {
    UnitLiteralEndsAtChomp(s, i, e, n);
    var t := Chomp(s);
    assert s[i..e] == t[i..];
    DigitAndUnitOfSuffix(t, i, n);
  }

  /** Because the length alternative is not anchored at the start, its
      optional fraction and everything before the unit but one digit are
      irrelevant: it matches exactly when the subject, less a final newline,
      ends with a digit followed by a unit. */
  lemma LengthSuffixIff(s: string)
    ensures LengthSuffix(s) <==> EndsWithDigitAndUnit(Chomp(s))
  {
    if EndsWithDigitAndUnit(Chomp(s)) {
      DigitAndUnitIsLengthSuffix(s);
    }
    if LengthSuffix(s) {
      LengthSuffixIsDigitAndUnit(s);
    }
  }

  /** A string with a unit at its end ends with a character that can end a unit. */
  lemma UnitAtEndLastChar(t: string, n: nat)
    requires 0 < n && UnitAtEnd(t, n)
    ensures EndsUnit(LowerChar(t[|t| - 1]))
  {
    var w := ToLower(t[|t| - n..]);
    UnitShape(w);
    assert w[n - 1] == LowerChar(t[|t| - 1]);
  }

  /** A subject whose last character (before a final newline) cannot end a
      unit does not match the length alternative. */
  lemma NoUnitLetterAtEnd(s: string)
    requires var t := Chomp(s); t == [] || !EndsUnit(LowerChar(t[|t| - 1]))
    ensures !LengthSuffix(s)
  {
    if LengthSuffix(s) {
      var t := Chomp(s);
      LengthSuffixIsDigitAndUnit(s);
      var n :| 0 < n < |t| && UnitAtEnd(t, n) && IsDigit(t[|t| - n - 1]);
      UnitAtEndLastChar(t, n);
      assert false;
    }
  }

  /** The characters units are spelled with, after lower-casing. */
  predicate IsUnitChar(c: char) {
    'a' <= c <= 'z' || c == '%'
  }

  lemma UnitChars(w: string)
    requires IsUnit(w)
    ensures forall k | 0 <= k < |w| :: IsUnitChar(w[k])
  {
  }

  /** A character of the unit at the end of `t`. */
  lemma UnitAtEndChar(t: string, n: nat, k: nat)
    requires UnitAtEnd(t, n) && |t| - n <= k < |t|
    ensures IsUnitChar(LowerChar(t[k]))
  {
    var w := ToLower(t[|t| - n..]);
    UnitChars(w);
    assert w[k - (|t| - n)] == LowerChar(t[k]);
  }

  /** When the run of unit characters at the end of `t` is not preceded by a
      digit, `t` does not end with a digit and a unit: the unit would have to
      start inside the run or at its start. */
  lemma NoDigitBeforeUnitChars(t: string, m: nat)
    requires m <= |t| && forall k | |t| - m <= k < |t| :: IsUnitChar(LowerChar(t[k]))
    requires m == |t| || (!IsUnitChar(LowerChar(t[|t| - m - 1])) && !IsDigit(t[|t| - m - 1]))
    ensures !EndsWithDigitAndUnit(t)
  {
    if n :| 0 < n < |t| && UnitAtEnd(t, n) && IsDigit(t[|t| - n - 1]) {
      if n > m {
        UnitAtEndChar(t, n, |t| - m - 1);
      }
      assert false;
    }
  }

  /** The rgba alternative, assembled from its parts: the head "rgba(" in
      any case, three octets each followed by a comma, and an alpha with the
      closing parenthesis. */
  lemma RgbaFromParts(s: string, p: nat, q1: nat, q2: nat, q3: nat)
    requires |s| >= 5 && LowerChar(s[0]) == 'r' && LowerChar(s[1]) == 'g'
    requires LowerChar(s[2]) == 'b' && LowerChar(s[3]) == 'a' && s[4] == '('
    requires SkipSpaces(s, 5) == p && q3 <= |s|
    requires OctetComma(s, p) == Some(q1) && OctetComma(s, q1) == Some(q2) && OctetComma(s, q2) == Some(q3)
    requires AlphaClose(s, q3)
    ensures RgbaPrefix(s)
  {
  }

  /** Anything may follow a colour written as six hex digits. */
  lemma HexColorAnyTail(s: string, tail: string)
    requires HexColorPrefix(s)
    ensures Matches(s + tail)
  {
    assert HexColorPrefix(s + tail) by {
      assert forall k | 1 <= k < 7 :: (s + tail)[k] == s[k];
    }
  }

  /** Anything may precede a length. */
  lemma LengthAnyHead(head: string, s: string)
    requires LengthSuffix(s)
    ensures Matches(head + s)
  {
    var i, e :| 0 <= i <= e <= |s| && AtDollar(s, e) && LengthLiteral(s[i..e]);
    var hs := head + s;
    assert hs[|head| + i..|head| + e] == s[i..e];
    assert AtDollar(hs, |head| + e);
  }
}
