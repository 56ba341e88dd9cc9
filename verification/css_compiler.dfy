/** The stylesheet build cache of `CssCompiler` (CssCompiler.php): the
    compiler's configuration, the output URL of a stylesheet, the
    normalisation of the variables handed to the stylesheet engine, the
    staleness decision `needsCompile` and the metadata record `createMeta`
    writes for it to read back.

    The host is plain data: the resource locator is a map from URI to the
    modification time of the file it resolves to (a missing key is a URI
    that does not resolve), the metadata store is a map from the metadata
    file's URI to its record, the production flag is a boolean and the
    stylesheet engine's table of colour names is a set. */
module CssCompiler {
  import opened Wrappers
  import opened PhpStrings
  import opened PhpValues
  import opened CssVariables

  const DefaultTarget: string := "gantry-theme://css-compiled"
  const DefaultOutline: string := "default"
  const MetaRoot: string := "gantry-cache://scss/"

  /** The font weights of one family, each mapped to its URL. */
  type Weights = map<int, string>

  /** A value of the fonts array: a weight table, or a bare URL. */
  datatype FontData = WeightTable(weights: Weights) | BareUrl(url: Scalar)

  datatype Compiler = Compiler(
    target: string,
    outline: string,
    fonts: map<string, Weights>,
    variables: Variables,
    paths: seq<string>,
    files: seq<string>)

  /** A compiler before any setter has run. */
  function Initial(): (c: Compiler)
    ensures c.target == DefaultTarget && c.outline == DefaultOutline
    ensures c.fonts == map[] && c.variables == map[]
  {
    Compiler(DefaultTarget, DefaultOutline, map[], map[], [], [])
  }

  // Setters: an absent (null) argument leaves the compiler as it is.

  function SetTarget(c: Compiler, target: Option<string>): (r: Compiler)
    ensures r.target == target.GetOr(c.target)
    ensures r.(target := c.target) == c
  {
    if target.Some? then c.(target := target.value) else c
  }

  function SetConfiguration(c: Compiler, outline: Option<string>): (r: Compiler)
    ensures r.outline == outline.GetOr(c.outline)
    ensures r.(outline := c.outline) == c
  {
    if outline.Some? then c.(outline := outline.value) else c
  }

  function SetPaths(c: Compiler, paths: Option<seq<string>>): (r: Compiler)
    ensures r.paths == paths.GetOr(c.paths)
    ensures r.(paths := c.paths) == c
  {
    if paths.Some? then c.(paths := paths.value) else c
  }

  function SetFiles(c: Compiler, files: Option<seq<string>>): (r: Compiler)
    ensures r.files == files.GetOr(c.files)
    ensures r.(files := c.files) == c
  {
    if files.Some? then c.(files := files.value) else c
  }

  // Fonts

  /** A bare URL stands for weight 400. */
  function FontEntry(d: FontData): (w: Weights)
    ensures d.WeightTable? ==> w == d.weights
    ensures d.BareUrl? ==> w.Keys == {400} && w[400] == ToString(d.url)
  {
    match d
    case WeightTable(weights) => weights
    case BareUrl(url) => map[400 := ToString(url)]
  }

  /** The fonts array in its order, family names as given. */
  type FontList = seq<(string, FontData)>

  /** The normalisation loop of `setFonts`, one entry at a time. */
  function NormalizeFonts(fonts: FontList): map<string, Weights> {
    if fonts == [] then map[]
    else
      var (family, data) := fonts[|fonts| - 1];
      NormalizeFonts(fonts[..|fonts| - 1])[ToLower(family) := FontEntry(data)]
  }

  /** No later entry of `fonts` names the family of entry `i`, up to case. */
  predicate LastOfFamily(fonts: FontList, i: nat)
    requires i < |fonts|
  {
    forall j | i < j < |fonts| :: ToLower(fonts[j].0) != ToLower(fonts[i].0)
  }

  /** Some entry of `fonts` names family `f`, up to case. */
  predicate NamesFamily(fonts: FontList, f: string) {
    exists i | 0 <= i < |fonts| :: ToLower(fonts[i].0) == f
  }

  /** Every family name `setFonts` hands to the engine is lower case. */
  lemma {:induction false} NormalizedFamiliesLowerCase(fonts: FontList)
    ensures forall f | f in NormalizeFonts(fonts) :: IsLowerCase(f)
  {
    if fonts != [] {
      NormalizedFamiliesLowerCase(fonts[..|fonts| - 1]);
    }
  }

  /** `setFonts` keeps one entry per family named, up to case. */
  lemma {:induction false} NormalizedFamilies(fonts: FontList, f: string)
    ensures f in NormalizeFonts(fonts) <==> NamesFamily(fonts, f)
  {
    if fonts != [] {
      NormalizedFamilies(fonts[..|fonts| - 1], f);
      NamesFamilySnoc(fonts, f);
    }
  }

  /** Some entry names `f` iff an earlier one does or the last one does. */
  lemma NamesFamilySnoc(fonts: FontList, f: string)
    requires fonts != []
    ensures NamesFamily(fonts, f)
        <==> NamesFamily(fonts[..|fonts| - 1], f) || ToLower(fonts[|fonts| - 1].0) == f
  {
    var init, n := fonts[..|fonts| - 1], |fonts| - 1;
    if NamesFamily(init, f) {
      var i :| 0 <= i < |init| && ToLower(init[i].0) == f;
      assert fonts[i] == init[i];
    }
    if NamesFamily(fonts, f) && f != ToLower(fonts[n].0) {
      var i :| 0 <= i < |fonts| && ToLower(fonts[i].0) == f;
      assert i < n && init[i] == fonts[i];
    }
  }

  /** When two family names differ only in case, the later entry wins; a
      bare URL becomes a table with weight 400. */
  lemma {:induction false} NormalizedFamilyEntry(fonts: FontList, i: nat)
    requires i < |fonts| && LastOfFamily(fonts, i)
    ensures var f := ToLower(fonts[i].0);
      f in NormalizeFonts(fonts) && NormalizeFonts(fonts)[f] == FontEntry(fonts[i].1)
  {
    var init, n := fonts[..|fonts| - 1], |fonts| - 1;
    if i < n {
      assert init[i] == fonts[i];
      assert LastOfFamily(init, i);
      NormalizedFamilyEntry(init, i);
    }
  }

  function SetFonts(c: Compiler, fonts: Option<FontList>): (r: Compiler)
    ensures fonts.None? ==> r == c
    ensures fonts.Some? ==> r.fonts == NormalizeFonts(fonts.value) && r.(fonts := c.fonts) == c
  {
    if fonts.Some? then c.(fonts := NormalizeFonts(fonts.value)) else c
  }

  // Output URL

  /** The suffix that distinguishes the stylesheet of a non-default outline. */
  function OutlineSuffix(outline: string): string {
    if outline != DefaultOutline then "_" + outline else ""
  }

  /** The file name of the compiled stylesheet of `name`. */
  function CssFileName(outline: string, name: string): string {
    name + OutlineSuffix(outline) + ".css"
  }

  /** `getCssUrl`: the compiled stylesheet of `name` below the target. */
  function GetCssUrl(c: Compiler, name: string): (url: string)
    ensures c.outline == DefaultOutline ==> url == c.target + "/" + name + ".css"
    ensures c.outline != DefaultOutline ==> url == c.target + "/" + name + "_" + c.outline + ".css"
  {
    c.target + "/" + CssFileName(c.outline, name)
  }

  /** The URI of the metadata file that belongs to an output: only the file
      name of the output enters it. */
  function MetaKey(out: string): string {
    MetaRoot + Basename(out) + ".php"
  }

  /** An output URL is never one of PHP's empty strings. */
  lemma CssUrlNotEmpty(c: Compiler, name: string)
    ensures !IsFalsyString(GetCssUrl(c, name))
  {
    var url := GetCssUrl(c, name);
    assert url[|url| - 1] == 's';
  }

  /** The metadata key of an output is fixed by the name and the outline
      alone when neither contains a slash. */
  lemma MetaKeyOfCssUrl(c: Compiler, name: string)
    requires '/' !in name && '/' !in c.outline
    ensures MetaKey(GetCssUrl(c, name)) == MetaRoot + CssFileName(c.outline, name) + ".php"
  {
    var x := CssFileName(c.outline, name);
    assert '/' !in OutlineSuffix(c.outline) && '/' !in ".css";
    BasenameOfSuffix(c.target, x);
  }

  /** Two targets share every metadata record: the outputs differ while the
      key they are recorded under does not. */
  lemma TargetsShareMetaKey(c: Compiler, target: string, name: string)
    requires '/' !in name && '/' !in c.outline && target != c.target
    ensures var c' := SetTarget(c, Some(target));
      && GetCssUrl(c', name) != GetCssUrl(c, name)
      && MetaKey(GetCssUrl(c', name)) == MetaKey(GetCssUrl(c, name))
  {
    var c' := SetTarget(c, Some(target));
    MetaKeyOfCssUrl(c, name);
    MetaKeyOfCssUrl(c', name);
    if GetCssUrl(c', name) == GetCssUrl(c, name) {
      SuffixCancels(target + "/", c.target + "/", CssFileName(c.outline, name));
      SuffixCancels(target, c.target, "/");
    }
  }

  lemma SuffixCancels(a: string, b: string, x: string)
    requires a + x == b + x
    ensures a == b
  {
    assert |a| == |b|;
    assert a == (a + x)[..|a|] && b == (b + x)[..|b|];
  }

  /** The stylesheet `name` of outline `o` and the stylesheet `name_o` of the
      default outline are the same file. */
  lemma OutlineSuffixCollision(c: Compiler, name: string, outline: string)
    requires outline != DefaultOutline
    ensures GetCssUrl(SetConfiguration(c, Some(outline)), name)
         == GetCssUrl(SetConfiguration(c, Some(DefaultOutline)), name + "_" + outline)
  {
  }

  // The build cache

  /** A metadata record. A field the stored array lacks reads as empty. */
  datatype Meta = Meta(
    file: string,
    timestamp: int,
    md5: string,
    variables: Variables,
    imports: map<string, int>)

  datatype Environment = Environment(
    locator: map<string, int>,
    cache: map<string, Meta>,
    production: bool,
    colors: set<string>)

  /** The answer of `needsCompile`, and the variables it staged on the way
      (`None` when it returned before staging them). */
  datatype Decision = Decision(stale: bool, staged: Option<Variables>)

  /** Every recorded import still resolves, with the recorded time. */
  predicate ImportsCurrent(imports: map<string, int>, locator: map<string, int>) {
    forall r | r in imports :: r in locator && locator[r] == imports[r]
  }

  /** The loop over the recorded imports: it reports a stale import as soon
      as it meets one. */
  method ScanImports(imports: map<string, int>, locator: map<string, int>) returns (stale: bool)
    ensures stale <==> !ImportsCurrent(imports, locator)
  {
    var pending := imports.Keys;
    while pending != {}
      invariant pending <= imports.Keys
      invariant forall r | r in imports && r !in pending :: r in locator && locator[r] == imports[r]
      decreases pending
    {
      var r :| r in pending;
      if r !in locator || locator[r] != imports[r] {
        return true;
      }
      pending := pending - {r};
    }
    return false;
  }

  /** `needsCompile($name, $variables)`: `raw` is what the variables supplier
      would return; it is consulted only on the paths that stage variables. */
  function NeedsCompile(c: Compiler, env: Environment, name: string, raw: map<string, Scalar>): (d: Decision)
    ensures d.staged.None? <==> GetCssUrl(c, name) in env.locator && env.production
    ensures d.staged.Some? ==> d.staged.value == SetVariables(raw, env.colors)
    ensures d.stale <==> !Fresh(c, env, name, raw)
  {
    var out := GetCssUrl(c, name);
    var staged := Some(SetVariables(raw, env.colors));
    CssUrlNotEmpty(c, name);
    if out !in env.locator then Decision(true, staged)
    else if env.production then Decision(false, None)
    else if MetaKey(out) !in env.cache then Decision(true, staged)
    else
      var meta := env.cache[MetaKey(out)];
      if IsFalsyString(meta.file) || meta.file != out then Decision(true, staged)
      else if env.locator[out] != meta.timestamp then Decision(true, staged)
      else if meta.variables != staged.value then Decision(true, staged)
      else Decision(!ImportsCurrent(meta.imports, env.locator), staged)
  }

  /** When the compiled stylesheet can be kept: it exists, and either the
      site is in production or its metadata record describes this very
      output, its modification time, the variables the supplier now yields
      and imports that are all unchanged. */
  predicate Fresh(c: Compiler, env: Environment, name: string, raw: map<string, Scalar>) {
    var out := GetCssUrl(c, name);
    && out in env.locator
    && (env.production || RecordCurrent(env, out, SetVariables(raw, env.colors)))
  }

  /** The record under the key of `out` describes `out` as it is now. */
  predicate RecordCurrent(env: Environment, out: string, vars: Variables)
    requires out in env.locator
  {
    && MetaKey(out) in env.cache
    && var meta := env.cache[MetaKey(out)];
    && meta.file == out
    && meta.timestamp == env.locator[out]
    && meta.variables == vars
    && ImportsCurrent(meta.imports, env.locator)
  }

  /** `createMeta($out, $md5)`: outside production, records the output, its
      modification time, the staged variables and the imports the engine
      read, under the key `needsCompile` looks up; nothing else changes. */
  function CreateMeta(c: Compiler, env: Environment, out: string, md5: string, imports: map<string, int>): (r: Environment)
    requires env.production || out in env.locator
    ensures env.production ==> r == env
    ensures !env.production ==> r.(cache := env.cache) == env && MetaKey(out) in r.cache
    ensures !env.production ==> r.cache[MetaKey(out)] == Meta(out, env.locator[out], md5, c.variables, imports)
    ensures forall key | key != MetaKey(out) :: (key in r.cache <==> key in env.cache)
    ensures forall key | key != MetaKey(out) && key in r.cache :: r.cache[key] == env.cache[key]
  {
    if env.production then env
    else env.(cache := env.cache[MetaKey(out) := Meta(out, env.locator[out], md5, c.variables, imports)])
  }

  /** `needsCompile` stores the variables it staged in the compiler. */
  function AfterCheck(c: Compiler, d: Decision): (r: Compiler)
    ensures r.variables == d.staged.GetOr(c.variables)
    ensures r.(variables := c.variables) == c
  {
    if d.staged.Some? then c.(variables := d.staged.value) else c
  }

  /** The early exits of `needsCompile`, in the order the code takes them. */
  lemma EarlyExits(c: Compiler, env: Environment, name: string, raw: map<string, Scalar>)
    ensures var out, d := GetCssUrl(c, name), NeedsCompile(c, env, name, raw);
      && (out !in env.locator ==> d == Decision(true, Some(SetVariables(raw, env.colors))))
      && (out in env.locator && env.production ==> d == Decision(false, None))
      && (out in env.locator && !env.production && MetaKey(out) !in env.cache ==> d.stale)
      && (out in env.locator && !env.production && MetaKey(out) in env.cache ==>
            var meta := env.cache[MetaKey(out)];
            (meta.file != out || meta.timestamp != env.locator[out] ||
             meta.variables != SetVariables(raw, env.colors)) ==> d.stale)
  {
  }

  /** Writing the record of a freshly compiled output and checking again,
      with nothing changed in between, finds nothing to compile. */
  lemma WriteThenCheck(c: Compiler, env: Environment, name: string, raw: map<string, Scalar>,
                       md5: string, imports: map<string, int>)
    requires GetCssUrl(c, name) in env.locator
    requires c.variables == SetVariables(raw, env.colors)
    requires ImportsCurrent(imports, env.locator)
    ensures var env' := CreateMeta(c, env, GetCssUrl(c, name), md5, imports);
      !NeedsCompile(c, env', name, raw).stale
  {
    var out := GetCssUrl(c, name);
    var env' := CreateMeta(c, env, out, md5, imports);
    if !env.production {
      assert RecordCurrent(env', out, SetVariables(raw, env.colors));
    }
  }

  /** One build: a check that asks for compilation stages the variables; the
      engine writes the output (modification time `mtime`) after reading
      `imports`; `createMeta` records it. The next check with the same
      variables and no file changed asks for nothing and stages the same
      variables. */
  lemma BuildCycle(c: Compiler, env: Environment, name: string, raw: map<string, Scalar>,
                   mtime: int, md5: string, imports: map<string, int>)
    requires NeedsCompile(c, env, name, raw).stale
    requires var out := GetCssUrl(c, name);
      ImportsCurrent(imports, env.locator[out := mtime])
    ensures var out := GetCssUrl(c, name);
      var c1 := AfterCheck(c, NeedsCompile(c, env, name, raw));
      var env1 := env.(locator := env.locator[out := mtime]);
      var env2 := CreateMeta(c1, env1, out, md5, imports);
      var d := NeedsCompile(c1, env2, name, raw);
      && !d.stale
      && AfterCheck(c1, d) == c1
  {
    var out := GetCssUrl(c, name);
    var d0 := NeedsCompile(c, env, name, raw);
    var c1 := AfterCheck(c, d0);
    var env1 := env.(locator := env.locator[out := mtime]);
    assert GetCssUrl(c1, name) == out;
    WriteThenCheck(c1, env1, name, raw, md5, imports);
  }

  /** Variable drift: against a current record, variables that stage
      differently force a compilation, while the recorded ones do not. */
  lemma VariableDrift(c: Compiler, env: Environment, name: string,
                      raw: map<string, Scalar>, raw': map<string, Scalar>)
    requires !env.production && Fresh(c, env, name, raw)
    requires SetVariables(raw', env.colors) != SetVariables(raw, env.colors)
    ensures NeedsCompile(c, env, name, raw').stale
    ensures !NeedsCompile(c, env, name, raw).stale
  {
  }

  /** Changing the string form of one variable, where the old or the new
      value is truthy, changes what is staged. */
  lemma ChangedValueChangesStaged(raw: map<string, Scalar>, k: string, v: Scalar, colors: set<string>)
    requires WellFormedColors(colors) && k in raw
    requires ToString(v) != ToString(raw[k]) && (Truthy(v) || Truthy(raw[k]))
    ensures SetVariables(raw[k := v], colors) != SetVariables(raw, colors)
  {
    var before, after := SetVariables(raw, colors), SetVariables(raw[k := v], colors);
    if Truthy(v) && Truthy(raw[k]) {
      NormalizeInjective(v, raw[k], colors);
      assert after[k] != before[k];
    } else if Truthy(v) {
      assert k in after && k !in before;
    } else {
      assert k !in after && k in before;
    }
  }

  /** Import drift: touching, or removing, any import of a current record
      forces a compilation. */
  lemma ImportDrift(c: Compiler, env: Environment, name: string, raw: map<string, Scalar>,
                    r: string, mtime: Option<int>)
    requires !env.production && Fresh(c, env, name, raw)
    requires var meta := env.cache[MetaKey(GetCssUrl(c, name))];
      r in meta.imports && mtime != Some(meta.imports[r])
    ensures var locator' := if mtime.Some? then env.locator[r := mtime.value] else env.locator - {r};
      NeedsCompile(c, env.(locator := locator'), name, raw).stale
  {
  }

  /** Every import `createMeta` records is watched: touching or removing any
      of them afterwards makes the next check compile again. */
  lemma RecordedImportDrift(c: Compiler, env: Environment, name: string, raw: map<string, Scalar>,
                            md5: string, imports: map<string, int>, r: string, mtime: Option<int>)
    requires !env.production && GetCssUrl(c, name) in env.locator
    requires r in imports && mtime != Some(imports[r])
    ensures var env' := CreateMeta(c, env, GetCssUrl(c, name), md5, imports);
      var locator' := if mtime.Some? then env'.locator[r := mtime.value] else env'.locator - {r};
      NeedsCompile(c, env'.(locator := locator'), name, raw).stale
  {
    var out := GetCssUrl(c, name);
    var env' := CreateMeta(c, env, out, md5, imports);
    var locator' := if mtime.Some? then env'.locator[r := mtime.value] else env'.locator - {r};
    assert !ImportsCurrent(imports, locator');
  }

  /** Because only the file name enters the metadata key, the record written
      for one target is read by another target's check, which then finds a
      different output in it and compiles. */
  lemma SharedRecordForcesCompile(c: Compiler, env: Environment, target: string, name: string,
                                  raw: map<string, Scalar>, md5: string, imports: map<string, int>)
    requires '/' !in name && '/' !in c.outline && target != c.target && !env.production
    requires GetCssUrl(c, name) in env.locator
    ensures var c' := SetTarget(c, Some(target));
      var env' := CreateMeta(c, env, GetCssUrl(c, name), md5, imports);
      NeedsCompile(c', env', name, raw).stale
  {
    TargetsShareMetaKey(c, target, name);
  }
}
