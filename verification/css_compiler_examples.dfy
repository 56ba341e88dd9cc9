/** The documented behaviour of `setVariables` on the values listed beside
    its pattern, and the two-call scenario of the build cache: a first check
    without metadata compiles and stages normalised variables, and after the
    build a second check with the same inputs does not. */
module CssCompilerExamples {
  import opened Wrappers
  import opened PhpStrings
  import opened PhpValues
  import opened CssValuePattern
  import opened CssValuePatternExamples
  import opened CssVariables
  import opened CssCompiler

  /** A value the pattern rejects and that has a character other than a
      letter is quoted. */
  lemma QuotedValue(s: string, k: nat, colors: set<string>)
    requires WellFormedColors(colors) && !Matches(s)
    requires k < |s| && !('a' <= LowerChar(s[k]) <= 'z')
    ensures NormalizeValue(Str(s), colors) == Quote(s)
  {
    assert ToLower(s)[k] == LowerChar(s[k]);
  }

  lemma TokensPassUnquoted(colors: set<string>)
    ensures NormalizeValue(Str("#ffaaff"), colors) == "#ffaaff"
    ensures NormalizeValue(Str("33em"), colors) == "33em"
    ensures NormalizeValue(Str("0.5px"), colors) == "0.5px"
    ensures NormalizeValue(Str(Rgba), colors) == Rgba
  {
    HexColorMatches();
    EmLengthMatches();
    FractionLengthMatches();
    RgbaMatches();
  }

  lemma FontFamilyQuoted(colors: set<string>)
    requires WellFormedColors(colors)
    ensures NormalizeValue(Str("family=Aguafina+Script"), colors) == Quote("family=Aguafina+Script")
  {
    FontFamilyDoesNotMatch();
    QuotedValue("family=Aguafina+Script", 6, colors);
  }

  lemma BadColorsQuoted(colors: set<string>)
    requires WellFormedColors(colors)
    ensures NormalizeValue(Str("#fff"), colors) == Quote("#fff")
    ensures NormalizeValue(Str("#zzzzzz"), colors) == Quote("#zzzzzz")
    ensures NormalizeValue(Str("rgb(120,12,12)"), colors) == Quote("rgb(120,12,12)")
  {
    ShortHexDoesNotMatch();
    QuotedValue("#fff", 0, colors);
    BadHexDigitsDoNotMatch();
    QuotedValue("#zzzzzz", 0, colors);
    RgbDoesNotMatch();
    QuotedValue("rgb(120,12,12)", 3, colors);
  }

  lemma MalformedTokensQuoted(colors: set<string>)
    requires WellFormedColors(colors)
    ensures NormalizeValue(Str("50 rem"), colors) == Quote("50 rem")
    ensures NormalizeValue(Str("rgba(323,323,2323)"), colors) == Quote("rgba(323,323,2323)")
  {
    SpacedUnitDoesNotMatch();
    QuotedValue("50 rem", 0, colors);
    ByteOverflowDoesNotMatch();
    QuotedValue("rgba(323,323,2323)", 4, colors);
  }

  const ScenarioRaw: map<string, Scalar> :=
    map["color" := Str("#ffaaff"), "font" := Str("family=Aguafina+Script")]

  const ScenarioStaged: Variables :=
    map["color" := "#ffaaff", "font" := Quote("family=Aguafina+Script")]

  lemma ScenarioKeys(colors: set<string>)
    ensures SetVariables(ScenarioRaw, colors).Keys == {"color", "font"}
  {
    assert Truthy(ScenarioRaw["color"]) && Truthy(ScenarioRaw["font"]);
    assert ScenarioRaw.Keys == {"color", "font"};
  }

  lemma ScenarioNormalized(colors: set<string>)
    requires WellFormedColors(colors)
    ensures SetVariables(ScenarioRaw, colors) == ScenarioStaged
  {
    var r := SetVariables(ScenarioRaw, colors);
    ScenarioKeys(colors);
    HexColorMatches();
    FontFamilyQuoted(colors);
    assert r["color"] == ScenarioStaged["color"];
    assert r["font"] == ScenarioStaged["font"];
  }

  /** The compiled stylesheet "theme" of the default outline. */
  lemma ScenarioUrl()
    ensures GetCssUrl(Initial(), "theme") == "gantry-theme://css-compiled/theme.css"
  {
  }

  /** The stylesheet "theme" under the default target and outline: with no
      output and no metadata the check compiles and stages the normalised
      variables; after the build, the same check asks for nothing. */
  lemma Scenario(env: Environment, mtime: int, md5: string)
    requires WellFormedColors(env.colors) && !env.production
    requires GetCssUrl(Initial(), "theme") !in env.locator
    ensures var c := Initial();
      var d := NeedsCompile(c, env, "theme", ScenarioRaw);
      && d == Decision(true, Some(ScenarioStaged))
      && var out := GetCssUrl(c, "theme");
         var c1 := AfterCheck(c, d);
         var env2 := CreateMeta(c1, env.(locator := env.locator[out := mtime]), out, md5, map[]);
         !NeedsCompile(c1, env2, "theme", ScenarioRaw).stale
  {
    var c := Initial();
    ScenarioNormalized(env.colors);
    EarlyExits(c, env, "theme", ScenarioRaw);
    BuildCycle(c, env, "theme", ScenarioRaw, mtime, md5, map[]);
  }
}
