/** `setVariables` of CssCompiler.php: falsy entries are dropped, a value the
    stylesheet language already understands (a colour or length token, or a
    colour name) is passed on as it is, and every other value is quoted so
    that the engine reads it as a string. */
module CssVariables {
  import opened PhpStrings
  import opened PhpValues
  import opened CssValuePattern

  /** Variables as the stylesheet engine receives them. */
  type Variables = map<string, string>

  /** The engine's table of colour names holds lower-case words. */
  predicate WellFormedColors(colors: set<string>) {
    forall name | name in colors :: forall k | 0 <= k < |name| :: 'a' <= name[k] <= 'z'
  }

  /** A value the pattern or the colour table accepts. */
  predicate Recognised(s: string, colors: set<string>) {
    Matches(s) || ToLower(s) in colors
  }

  function Quote(s: string): string {
    "'" + s + "'"
  }

  /** The body of the loop of `setVariables` for one value. */
  function NormalizeValue(v: Scalar, colors: set<string>): (r: string)
    ensures r == ToString(v) || r == Quote(ToString(v))
    ensures r == ToString(v) <==> Recognised(ToString(v), colors)
  {
    var s := ToString(v);
    if Recognised(s, colors) then s else Quote(s)
  }

  /** `setVariables`: the truthy entries, each normalised. */
  function SetVariables(raw: map<string, Scalar>, colors: set<string>): (r: Variables)
    ensures r.Keys == set k | k in raw && Truthy(raw[k])
    ensures forall k | k in r :: r[k] == ToString(raw[k]) || r[k] == Quote(ToString(raw[k]))
    ensures forall k | k in r :: r[k] == ToString(raw[k]) <==> Recognised(ToString(raw[k]), colors)
  {
    map k | k in raw && Truthy(raw[k]) :: NormalizeValue(raw[k], colors)
  }

  /** A quoted value is never recognised: it starts with a quote, which no
      colour, rgba or colour name starts with, and ends with one, which no
      length ends with. */
  lemma QuotedNotRecognised(s: string, colors: set<string>)
    requires WellFormedColors(colors)
    ensures !Recognised(Quote(s), colors)
  {
    var q := Quote(s);
    assert q[0] == '\'' && q[|q| - 1] == '\'';
    assert LowerChar(q[0]) != 'r';
    assert Chomp(q) == q;
    NoUnitLetterAtEnd(q);
    assert ToLower(q)[0] == '\'';
  }

  /** The inverse of the quoting. */
  function Unquote(s: string): string {
    if |s| >= 2 && s[0] == '\'' && s[|s| - 1] == '\'' then s[1..|s| - 1] else s
  }

  /** A recognised value is never itself enclosed in quotes. */
  lemma RecognisedNotQuoted(s: string, colors: set<string>)
    requires WellFormedColors(colors) && Recognised(s, colors)
    ensures Unquote(s) == s
  {
    QuotedShapeNotRecognised(s, colors);
  }

  lemma QuotedShapeNotRecognised(s: string, colors: set<string>)
    requires WellFormedColors(colors)
    ensures |s| >= 2 && s[0] == '\'' && s[|s| - 1] == '\'' ==> !Recognised(s, colors)
  {
    if |s| >= 2 && s[0] == '\'' && s[|s| - 1] == '\'' {
      assert s == Quote(s[1..|s| - 1]);
      QuotedNotRecognised(s[1..|s| - 1], colors);
    }
  }

  /** Normalising loses nothing: the string form of the value is recovered
      by removing the quotes, if any. */
  lemma UnquoteNormalized(v: Scalar, colors: set<string>)
    requires WellFormedColors(colors)
    ensures Unquote(NormalizeValue(v, colors)) == ToString(v)
  {
    var s := ToString(v);
    if Recognised(s, colors) {
      RecognisedNotQuoted(s, colors);
    } else {
      assert Quote(s)[1..|Quote(s)| - 1] == s;
    }
  }

  /** Two values with different string forms are staged differently. */
  lemma NormalizeInjective(v: Scalar, w: Scalar, colors: set<string>)
    requires WellFormedColors(colors) && ToString(v) != ToString(w)
    ensures NormalizeValue(v, colors) != NormalizeValue(w, colors)
  {
    UnquoteNormalized(v, colors);
    UnquoteNormalized(w, colors);
  }

  /** The staged variables, fed back as strings. */
  function AsRaw(vars: Variables): (raw: map<string, Scalar>)
    ensures raw.Keys == vars.Keys
  {
    map k | k in vars :: Str(vars[k])
  }

  /** Normalising is not idempotent: a second pass keeps every entry and
      every value that was passed on as it was, and quotes every quoted
      value once more. */
  lemma NormalizeTwice(raw: map<string, Scalar>, colors: set<string>)
    requires WellFormedColors(colors)
    ensures var once := SetVariables(raw, colors);
      var twice := SetVariables(AsRaw(once), colors);
      && twice.Keys == once.Keys
      && forall k | k in once ::
           twice[k] == if once[k] == ToString(raw[k]) then once[k] else Quote(once[k])
  {
    var once := SetVariables(raw, colors);
    var again := AsRaw(once);
    forall k | k in once
      ensures Truthy(again[k])
    {
      TruthyIffStringTruthy(raw[k]);
      if once[k] != ToString(raw[k]) {
        assert once[k][0] == '\'';
      }
    }
    forall k | k in once && once[k] != ToString(raw[k])
      ensures !Recognised(once[k], colors)
    {
      QuotedNotRecognised(ToString(raw[k]), colors);
    }
  }
}
