/** The PHP string built-ins that the modelled code calls, over `seq<char>`.
    Case mapping is ASCII-only, as `strtolower`, `ucwords` and the PCRE `/i`
    flag are in PHP 8 without a locale. */
module PhpStrings {

  predicate IsUpperAscii(c: char) { 'A' <= c <= 'Z' }

  function LowerChar(c: char): char {
    if IsUpperAscii(c) then (c as int + 32) as char else c
  }

  function UpperChar(c: char): char {
    if 'a' <= c <= 'z' then (c as int - 32) as char else c
  }

  /** A string in which `strtolower` changes nothing. */
  predicate IsLowerCase(s: string) {
    forall i | 0 <= i < |s| :: !IsUpperAscii(s[i])
  }

  /** `strtolower`: the result is lower case and differs from `s` only where
      `s` holds an upper-case ASCII letter, which becomes its lower-case
      partner. */
  function ToLower(s: string): (r: string)
    ensures |r| == |s| && IsLowerCase(r)
    ensures forall i {:trigger r[i]} | 0 <= i < |s| :: r[i] == LowerChar(s[i])
    ensures IsLowerCase(s) ==> r == s
  {
    seq(|s|, i requires 0 <= i < |s| => LowerChar(s[i]))
  }

  /** The default delimiters of `ucwords`: " \t\r\n\f\v". */
  predicate IsWordDelimiter(c: char) {
    c == ' ' || c == '\t' || c == '\r' || c == '\n' || c == '\U{000C}' || c == '\U{000B}'
  }

  predicate IsLowerAscii(c: char) { 'a' <= c <= 'z' }

  /** A word starts at `i`: it is the first character or follows a delimiter. */
  predicate WordStart(s: string, i: nat)
    requires i < |s|
  {
    i == 0 || IsWordDelimiter(s[i - 1])
  }

  /** `ucwords`: no word starts with a lower-case letter afterwards, and the
      only characters that change are lower-case letters that started a word. */
  function UcWords(s: string): (r: string)
    ensures |r| == |s|
    ensures forall i | 0 <= i < |s| && WordStart(s, i) :: !IsLowerAscii(r[i])
    ensures forall i | 0 <= i < |s| ::
      r[i] == s[i] || (IsLowerAscii(s[i]) && WordStart(s, i) && IsUpperAscii(r[i]) && LowerChar(r[i]) == s[i])
    ensures forall i | 0 <= i < |s| :: IsWordDelimiter(r[i]) <==> IsWordDelimiter(s[i])
  {
    seq(|s|, i requires 0 <= i < |s| => if WordStart(s, i) then UpperChar(s[i]) else s[i])
  }

  /** `ucwords` introduces only upper-case letters. */
  lemma UcWordsKeepsAbsent(s: string, c: char)
    requires c !in s && !IsUpperAscii(c)
    ensures c !in UcWords(s)
  {
    var t := UcWords(s);
    forall i | 0 <= i < |t|
      ensures t[i] != c
    {
      assert s[i] in s;
    }
  }

  /** `ucwords` keeps a string trimmed. */
  lemma UcWordsKeepsEnds(s: string)
    requires s == [] || (!IsTrimmed(s[0]) && !IsTrimmed(s[|s| - 1]))
    ensures var t := UcWords(s); t == [] || (!IsTrimmed(t[0]) && !IsTrimmed(t[|t| - 1]))
  {
  }

  /** No word of the result of `ucwords` starts with a lower-case letter. */
  lemma UcWordsCapitalised(s: string)
    ensures var t := UcWords(s); forall i | 0 <= i < |t| && WordStart(t, i) :: !IsLowerAscii(t[i])
  {
    var t := UcWords(s);
    forall i | 0 < i < |t|
      ensures WordStart(t, i) == WordStart(s, i)
    {
      assert IsWordDelimiter(t[i - 1]) == IsWordDelimiter(s[i - 1]);
    }
  }

  /** The default character list of `trim`: " \t\n\r\0\x0B". */
  predicate IsTrimmed(c: char) {
    c == ' ' || c == '\t' || c == '\n' || c == '\r' || c == '\0' || c == '\U{000B}'
  }

  /** `ltrim`: the longest suffix of `s` that does not start with a trimmed character. */
  function TrimLeft(s: string): (r: string)
    ensures |r| <= |s| && r == s[|s| - |r|..]
    ensures forall k | 0 <= k < |s| - |r| :: IsTrimmed(s[k])
    ensures r == [] || !IsTrimmed(r[0])
    decreases |s|
  {
    if |s| > 0 && IsTrimmed(s[0]) then TrimLeft(s[1..]) else s
  }

  /** `rtrim`: the longest prefix of `s` that does not end with a trimmed character. */
  function TrimRight(s: string): (r: string)
    ensures |r| <= |s| && r == s[..|r|]
    ensures forall k | |r| <= k < |s| :: IsTrimmed(s[k])
    ensures r == [] || !IsTrimmed(r[|r| - 1])
    decreases |s|
  {
    if |s| > 0 && IsTrimmed(s[|s| - 1]) then TrimRight(s[..|s| - 1]) else s
  }

  /** The number of trimmed characters `s` starts with. */
  function Lead(s: string): (n: nat)
    ensures n <= |s|
    ensures forall k | 0 <= k < n :: IsTrimmed(s[k])
    ensures n == |s| || !IsTrimmed(s[n])
  {
    |s| - |TrimLeft(s)|
  }

  /** `trim`: strips trimmed characters at both ends and nothing else; the
      result is the part of `s` after its leading run of trimmed characters
      and before its trailing one. */
  function Trim(s: string): (r: string)
    ensures r == [] || (!IsTrimmed(r[0]) && !IsTrimmed(r[|r| - 1]))
    ensures Lead(s) + |r| <= |s| && forall k | 0 <= k < |r| :: r[k] == s[Lead(s) + k]
    ensures forall k | Lead(s) + |r| <= k < |s| :: IsTrimmed(s[k])
    ensures forall c | c in s && !IsTrimmed(c) :: c in r
  {
    TrimBetween(s);
    TrimKeeps(s);
    TrimRight(TrimLeft(s))
  }

  lemma TrimBetween(s: string)
    ensures var r := TrimRight(TrimLeft(s));
      && Lead(s) + |r| <= |s|
      && (forall k | 0 <= k < |r| :: r[k] == s[Lead(s) + k])
      && forall k | Lead(s) + |r| <= k < |s| :: IsTrimmed(s[k])
  {
    var l := TrimLeft(s);
    SliceOfSuffix(s, l, TrimRight(l), Lead(s));
  }

  /** `r`, a prefix of the suffix `l` of `s` that starts at `n`, followed in
      `l` by trimmed characters only, sits at `n` in `s` with only trimmed
      characters after it. */
  lemma SliceOfSuffix(s: string, l: string, r: string, n: nat)
    requires n <= |s| && l == s[n..] && |r| <= |l| && r == l[..|r|]
    requires forall k | |r| <= k < |l| :: IsTrimmed(l[k])
    ensures n + |r| <= |s|
    ensures forall k | 0 <= k < |r| :: r[k] == s[n + k]
    ensures forall k | n + |r| <= k < |s| :: IsTrimmed(s[k])
  {
    forall k | n + |r| <= k < |s|
      ensures IsTrimmed(s[k])
    {
      assert s[k] == l[k - n];
    }
  }

  lemma TrimKeeps(s: string)
    ensures forall c | c in s && !IsTrimmed(c) :: c in TrimRight(TrimLeft(s))
  {
    var l := TrimLeft(s);
    var r := TrimRight(l);
    forall c | c in s && !IsTrimmed(c)
      ensures c in r
    {
      var k :| 0 <= k < |s| && s[k] == c;
      assert s[|s| - |l|..][k - (|s| - |l|)] == c;
      assert l[..|r|][k - (|s| - |l|)] == c;
    }
  }

  /** `trim` leaves a string without blanks at its ends as it is. */
  lemma TrimTrimmed(s: string)
    requires s == [] || (!IsTrimmed(s[0]) && !IsTrimmed(s[|s| - 1]))
    ensures Trim(s) == s
  {
    assert TrimLeft(s) == s;
  }

  /** Number of occurrences of `d` in `s`. */
  function Count(d: char, s: string): nat {
    if s == [] then 0 else Count(d, s[..|s| - 1]) + (if s[|s| - 1] == d then 1 else 0)
  }

  /** The part of `s` after its last `d` (all of `s` when there is no `d`). */
  function AfterLast(d: char, s: string): (r: string)
    ensures |r| <= |s| && r == s[|s| - |r|..]
    ensures d !in r
    ensures |r| == |s| || s[|s| - |r| - 1] == d
  {
    if s == [] then []
    else if s[|s| - 1] == d then []
    else AfterLast(d, s[..|s| - 1]) + [s[|s| - 1]]
  }

  /** `s` without any run of `d` at its end. */
  function StripTrailing(d: char, s: string): (r: string)
    ensures |r| <= |s| && r == s[..|r|]
    ensures r == [] || r[|r| - 1] != d
  {
    if s != [] && s[|s| - 1] == d then StripTrailing(d, s[..|s| - 1]) else s
  }

  /** `basename`: trailing slashes are dropped, then everything up to the last slash. */
  function Basename(p: string): (r: string)
    ensures '/' !in r
  {
    AfterLast('/', StripTrailing('/', p))
  }

  /** The part after the last `d` of `p + [d] + x`, when `x` has no `d`, is `x`. */
  lemma {:induction false} AfterLastOfSuffix(d: char, p: string, x: string)
    requires d !in x
    ensures AfterLast(d, p + [d] + x) == x
  {
    var s := p + [d] + x;
    if x != [] {
      assert s[..|s| - 1] == p + [d] + x[..|x| - 1];
      AfterLastOfSuffix(d, p, x[..|x| - 1]);
      assert x == x[..|x| - 1] + [x[|x| - 1]];
    } else {
      assert s[|s| - 1] == d;
    }
  }

  /** `basename` of a path whose last segment is `x`. */
  lemma BasenameOfSuffix(p: string, x: string)
    requires '/' !in x && x != []
    ensures Basename(p + "/" + x) == x
  {
    var s := p + "/" + x;
    assert s[|s| - 1] == x[|x| - 1];
    assert StripTrailing('/', s) == s;
    AfterLastOfSuffix('/', p, x);
  }

  /** `explode(d, s)`: the pieces of `s` between occurrences of `d`. */
  function Explode(d: char, s: string): (parts: seq<string>)
    ensures |parts| >= 1
  {
    if s == [] then [[]]
    else
      var init := Explode(d, s[..|s| - 1]);
      if s[|s| - 1] == d then init + [[]]
      else init[..|init| - 1] + [init[|init| - 1] + [s[|s| - 1]]]
  }

  /** `implode(d, parts)`: the pieces joined by `d`. */
  function Implode(d: char, parts: seq<string>): string
    requires |parts| >= 1
  {
    if |parts| == 1 then parts[0]
    else Implode(d, parts[..|parts| - 1]) + [d] + parts[|parts| - 1]
  }

  /** `explode` yields one more piece than there are delimiters. */
  lemma {:induction false} ExplodeCount(d: char, s: string)
    ensures |Explode(d, s)| == Count(d, s) + 1
  {
    if s != [] {
      ExplodeCount(d, s[..|s| - 1]);
    }
  }

  /** `end(explode(d, s))` is the part after the last delimiter. */
  lemma {:induction false} ExplodeLast(d: char, s: string)
    ensures var parts := Explode(d, s); parts[|parts| - 1] == AfterLast(d, s)
  {
    if s != [] {
      ExplodeLast(d, s[..|s| - 1]);
    }
  }

  /** No piece of `explode` contains the delimiter. */
  lemma {:induction false} ExplodePiecesFree(d: char, s: string)
    ensures forall i | 0 <= i < |Explode(d, s)| :: d !in Explode(d, s)[i]
  {
    if s != [] {
      ExplodePiecesFree(d, s[..|s| - 1]);
    }
  }

  lemma ImplodeSnoc(d: char, parts: seq<string>, x: string)
    requires |parts| >= 1
    ensures Implode(d, parts + [x]) == Implode(d, parts) + [d] + x
  {
    assert (parts + [x])[..|parts|] == parts;
  }

  lemma ImplodeExtendLast(d: char, parts: seq<string>, c: char)
    requires |parts| >= 1
    ensures Implode(d, parts[..|parts| - 1] + [parts[|parts| - 1] + [c]]) == Implode(d, parts) + [c]
  {
    var init, last := parts[..|parts| - 1], parts[|parts| - 1];
    if |parts| > 1 {
      ImplodeSnoc(d, init, last + [c]);
      assert parts == init + [last];
      ImplodeSnoc(d, init, last);
    }
  }

  /** `explode` of a non-empty string, by its last character. */
  lemma ExplodeSnoc(d: char, s: string)
    requires s != []
    ensures var init := Explode(d, s[..|s| - 1]);
      Explode(d, s) == if s[|s| - 1] == d then init + [[]]
                       else init[..|init| - 1] + [init[|init| - 1] + [s[|s| - 1]]]
  {
  }

  /** One more character keeps `implode` undoing `explode`. */
  lemma ImplodeExplodeStep(d: char, s: string)
    requires s != [] && Implode(d, Explode(d, s[..|s| - 1])) == s[..|s| - 1]
    ensures Implode(d, Explode(d, s)) == s
  {
    ExplodeSnoc(d, s);
    if s[|s| - 1] == d {
      ImplodeExplodeAtDelimiter(d, s);
    } else {
      ImplodeExplodeInPart(d, s);
    }
  }

  lemma ImplodeExplodeAtDelimiter(d: char, s: string)
    requires s != [] && s[|s| - 1] == d
    requires Implode(d, Explode(d, s[..|s| - 1])) == s[..|s| - 1]
    ensures Implode(d, Explode(d, s[..|s| - 1]) + [[]]) == s
  {
    var init := Explode(d, s[..|s| - 1]);
    ImplodeSnoc(d, init, []);
    assert s[..|s| - 1] + [d] + [] == s;
  }

  lemma ImplodeExplodeInPart(d: char, s: string)
    requires s != []
    requires Implode(d, Explode(d, s[..|s| - 1])) == s[..|s| - 1]
    ensures var init := Explode(d, s[..|s| - 1]);
      Implode(d, init[..|init| - 1] + [init[|init| - 1] + [s[|s| - 1]]]) == s
  {
    var init := Explode(d, s[..|s| - 1]);
    ImplodeExtendLast(d, init, s[|s| - 1]);
    assert s[..|s| - 1] + [s[|s| - 1]] == s;
  }

  lemma {:induction false} ImplodeExplode(d: char, s: string)
    ensures Implode(d, Explode(d, s)) == s
  {
    if s != [] {
      ImplodeExplode(d, s[..|s| - 1]);
      ImplodeExplodeStep(d, s);
    }
  }

  /** `str_repeat(t, n)`. */
  function Repeat(t: string, n: nat): (r: string)
    ensures |r| == n * |t|
    ensures n > 0 ==> r[..|t|] == t
    ensures forall i | |t| <= i < |r| :: r[i] == r[i - |t|]
  {
    if n == 0 then [] else t + Repeat(t, n - 1)
  }

  function DigitChar(d: nat): char
    requires d < 10
  {
    ('0' as int + d) as char
  }

  /** The decimal text PHP produces for a non-negative integer. */
  function NatToString(n: nat): (r: string)
    ensures |r| >= 1 && forall i | 0 <= i < |r| :: '0' <= r[i] <= '9'
    ensures r[0] == '0' <==> n == 0
  {
    if n < 10 then [DigitChar(n)] else NatToString(n / 10) + [DigitChar(n % 10)]
  }

  /** The `(string)` cast of an integer. */
  function IntToString(i: int): string {
    if i < 0 then "-" + NatToString(-i) else NatToString(i)
  }
}
