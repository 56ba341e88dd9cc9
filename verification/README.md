# Gantry5 stylesheet cache, outlines and page assignments in Dafny

This project models three parts of the Gantry5 theme framework.

- **The stylesheet build cache of `CssCompiler`.** This covers:
  - the compiler's configuration setters
  - the URL of a compiled stylesheet
  - the normalisation of the variables handed to the SCSS engine, including the regular expression that decides which values pass unquoted
  - the staleness decision `needsCompile`
  - the metadata record `createMeta` writes for `needsCompile` to read back
- **The outline collection `Outlines`.** It loads outline directories, titles them, sorts them and adds the built-in outlines. It also merges the positions of all outlines.
- **The page assignments of the stand-alone platform.** This is the list of pages an outline can be assigned to.

The host is plain data throughout:
- The resource locator is a map from URI to file modification time. A URI that does not resolve is a missing key.
- The metadata store is a map from metadata URI to record.
- The production flag is a boolean.
- The colour-name table of the SCSS engine is a set of strings.
- A directory listing is a sequence of entries.
- The layout index of an outline is a function from outline name to positions.
- The page enumeration is a sequence of page paths.

PHP's ordered arrays are sequences of key/value pairs with distinct keys (`OrderedMaps`). PHP's string built-ins are written out over `seq<char>` (`PhpStrings`). PHP's truthiness and string casts are in `PhpValues`.

The regular expression of `setVariables` has three alternatives:
- a hex colour, anchored at the start only
- an `rgba(...)` colour, anchored at the start only
- a length, anchored at the end only

`preg_match` searches anywhere in the value. So the first two accept any tail, and the third accepts any head. The model encodes this as written:
- `HexColorAnyTail`, `LengthAnyHead` and `LengthSuffixIff` state the consequences.
- The `0.` of the alpha channel uses an unescaped `.`, so it accepts any single byte other than a newline. `LooseAlphaMatches` shows this.

The normalisation of variables is not idempotent. A quoted value is never recognised by the pattern or the colour table, so a second pass quotes it again. `CssVariables.NormalizeTwice` states exactly what a second pass does.

Strings stand for UTF-8 text, one `char` per byte where it matters. The regular expression has no `u` modifier, so PCRE matches bytes. The unescaped `.` of the alpha channel therefore takes one byte, and a multi-byte character there does not match (`CssValuePatternExamples.WideAlphaDoesNotMatch`).

Files:
- `wrappers.dfy`, `php_strings.dfy`, `php_values.dfy`, `ordered_maps.dfy`: PHP semantics.
- `css_value_pattern.dfy`, `css_variables.dfy`, `css_compiler.dfy`: `CssCompiler`.
- `outlines.dfy`: `Outlines`.
- `assignments.dfy`: `Assignments`.
- `*_examples.dfy`: the values listed in the comment above the regular expression, a build scenario, and an outline title.

## Model

| member | source | states |
|---|---|---|
| CssCompiler.Initial | src/classes/Gantry/Component/Stylesheet/CssCompiler.php:47-52 | a fresh compiler targets `gantry-theme://css-compiled` with outline `default` and has no fonts or variables |
| CssCompiler.SetTarget | src/classes/Gantry/Component/Stylesheet/CssCompiler.php:76-83 | a given target replaces the old one, a null one keeps it, and nothing else changes |
| CssCompiler.SetConfiguration | src/classes/Gantry/Component/Stylesheet/CssCompiler.php:89-96 | a given outline replaces the old one, a null one keeps it, and nothing else changes |
| CssCompiler.SetPaths | src/classes/Gantry/Component/Stylesheet/CssCompiler.php:128-135 | given paths replace the old ones, null keeps them, and nothing else changes |
| CssCompiler.SetFiles | src/classes/Gantry/Component/Stylesheet/CssCompiler.php:141-148 | given files replace the old ones, null keeps them, and nothing else changes |
| CssCompiler.FontEntry | src/classes/Gantry/Component/Stylesheet/CssCompiler.php:110-116 | a weight table is kept as it is; a bare URL becomes the table {400: URL as a string} |
| CssCompiler.NormalizeFonts | src/classes/Gantry/Component/Stylesheet/CssCompiler.php:105-118 | the `setFonts` loop: each entry, in order, stores its weights under its lower-cased family, so a later entry overrides an earlier one; `NormalizedFamilies` and `NormalizedFamilyEntry` state the result |
| CssCompiler.NormalizedFamiliesLowerCase | src/classes/Gantry/Component/Stylesheet/CssCompiler.php:107-108 | every family name handed to the engine is lower case |
| CssCompiler.NormalizedFamilies | src/classes/Gantry/Component/Stylesheet/CssCompiler.php:104-118 | the normalised fonts hold a family iff some entry names it, up to case |
| CssCompiler.NormalizedFamilyEntry | src/classes/Gantry/Component/Stylesheet/CssCompiler.php:107-117 | the last entry naming a family, up to case, gives that family's weights |
| CssCompiler.SetFonts | src/classes/Gantry/Component/Stylesheet/CssCompiler.php:102-122 | null fonts change nothing; given fonts replace the compiler's fonts with their normalisation and change nothing else |
| CssCompiler.GetCssUrl | src/classes/Gantry/Component/Stylesheet/CssCompiler.php:155-160 | the URL is `target/name.css` for the default outline and `target/name_outline.css` otherwise |
| CssCompiler.CssUrlNotEmpty | src/classes/Gantry/Component/Stylesheet/CssCompiler.php:155-160 | an output URL is never one of PHP's empty strings |
| CssCompiler.MetaKey | src/classes/Gantry/Component/Stylesheet/CssCompiler.php:196-197 | the metadata URI is `gantry-cache://scss/` followed by the base name of the output and `.php`; `MetaKeyOfCssUrl` and `TargetsShareMetaKey` state what that implies |
| CssCompiler.MetaKeyOfCssUrl | src/classes/Gantry/Component/Stylesheet/CssCompiler.php:196-197 | when name and outline hold no slash, the metadata key depends on the file name only, not on the target |
| CssCompiler.TargetsShareMetaKey | src/classes/Gantry/Component/Stylesheet/CssCompiler.php:196-197 | two different targets give different output URLs but the same metadata key |
| CssCompiler.OutlineSuffixCollision | src/classes/Gantry/Component/Stylesheet/CssCompiler.php:157 | stylesheet `name` of outline `o` and stylesheet `name_o` of the default outline have the same URL |
| CssCompiler.ScanImports | src/classes/Gantry/Component/Stylesheet/CssCompiler.php:223-229 | the import loop reports staleness iff some recorded import no longer resolves or has a different modification time |
| CssCompiler.NeedsCompile | src/classes/Gantry/Component/Stylesheet/CssCompiler.php:174-232 | variables are staged, as the normalisation of the supplied ones, unless the output resolves in production; the answer is "compile" iff the output is not fresh (missing, or outside production the record is missing or names another file, time, variables or stale imports) |
| CssCompiler.CreateMeta | src/classes/Gantry/Component/Stylesheet/CssCompiler.php:281-305 | in production nothing changes; otherwise the record under the output's metadata key becomes: the output URL, its modification time, the md5, the compiler's variables and the given imports; every other record is unchanged |
| CssCompiler.RecordedImportDrift | src/classes/Gantry/Component/Stylesheet/CssCompiler.php:297-303 | after `createMeta` records a set of imports, touching or deleting any one of them makes the next check compile |
| CssCompiler.AfterCheck | src/classes/Gantry/Component/Stylesheet/CssCompiler.php:216 | the staged variables become the compiler's variables; nothing else changes |
| CssCompiler.EarlyExits | src/classes/Gantry/Component/Stylesheet/CssCompiler.php:184-214 | a missing output compiles with staged variables; production keeps a resolving output without staging; a missing record, a wrong file, time or variables compile |
| CssCompiler.WriteThenCheck | src/classes/Gantry/Component/Stylesheet/CssCompiler.php:296-303 | right after `createMeta` records the output with current variables and imports, `needsCompile` asks for nothing |
| CssCompiler.BuildCycle | src/classes/Gantry/Component/Stylesheet/CssCompiler.php:174-232 | check (stale), stage, write output, `createMeta`: the next check with the same variables is not stale and stages the same variables |
| CssCompiler.VariableDrift | src/classes/Gantry/Component/Stylesheet/CssCompiler.php:216-221 | against a current record, variables that normalise differently force compilation and the recorded ones do not |
| CssCompiler.ChangedValueChangesStaged | src/classes/Gantry/Component/Stylesheet/CssCompiler.php:236-264 | changing the string form of a truthy variable changes the staged variables |
| CssCompiler.ImportDrift | src/classes/Gantry/Component/Stylesheet/CssCompiler.php:223-229 | touching or deleting any recorded import of a current record forces compilation |
| CssCompiler.SharedRecordForcesCompile | src/classes/Gantry/Component/Stylesheet/CssCompiler.php:296 | the record written for one target makes the same stylesheet under another target compile |
| CssVariables.NormalizeValue | src/classes/Gantry/Component/Stylesheet/CssCompiler.php:253-263 | a value is passed on as its string form iff the pattern or the colour table recognises it, and is quoted otherwise |
| CssVariables.SetVariables | src/classes/Gantry/Component/Stylesheet/CssCompiler.php:234-267 | exactly the truthy entries are kept; each value is its string form if recognised and that string quoted otherwise |
| CssVariables.QuotedNotRecognised | src/classes/Gantry/Component/Stylesheet/CssCompiler.php:253-263 | a quoted value is recognised neither by the pattern nor by a colour table of lower-case words |
| CssVariables.RecognisedNotQuoted | src/classes/Gantry/Component/Stylesheet/CssCompiler.php:253-263 | a recognised value is never itself enclosed in quotes |
| CssVariables.UnquoteNormalized | src/classes/Gantry/Component/Stylesheet/CssCompiler.php:263 | removing the quotes, if any, from a normalised value gives back the value's string form |
| CssVariables.NormalizeInjective | src/classes/Gantry/Component/Stylesheet/CssCompiler.php:253-263 | values with different string forms normalise differently |
| CssVariables.NormalizeTwice | src/classes/Gantry/Component/Stylesheet/CssCompiler.php:234-267 | normalising the normalised variables keeps every key and every unquoted value, and quotes every quoted value again |
| PhpValues.Truthy | src/classes/Gantry/Component/Stylesheet/CssCompiler.php:236 | the test of `array_filter`: null, false, 0, "" and "0" are falsy and every other modelled value is truthy; `TruthyIffStringTruthy` relates it to the string form |
| PhpValues.ToString | src/classes/Gantry/Component/Stylesheet/CssCompiler.php:115 | the `(string)` cast: null and false give "", true gives "1", an integer its decimal form and a string itself; `TruthyIffStringTruthy` relates it to truthiness |
| PhpValues.TruthyIffStringTruthy | src/classes/Gantry/Component/Stylesheet/CssCompiler.php:236 | a scalar is truthy iff its string form is |
| CssValuePattern.Matches | src/classes/Gantry/Component/Stylesheet/CssCompiler.php:253 | the value matches iff it starts with a hex colour, or starts with an `rgba(...)` colour, or ends (before one final newline) with a length; the lemmas below state each alternative |
| CssValuePattern.LengthSuffixIff | src/classes/Gantry/Component/Stylesheet/CssCompiler.php:253 | the length alternative matches iff the value, less one final newline, ends with a digit followed by a unit in any case |
| CssValuePattern.NoUnitLetterAtEnd | src/classes/Gantry/Component/Stylesheet/CssCompiler.php:253 | a value whose last character (before a final newline) cannot end a unit is not a length |
| CssValuePattern.NoDigitBeforeUnitChars | src/classes/Gantry/Component/Stylesheet/CssCompiler.php:253 | a trailing run of letters not preceded by a digit is not a length ending |
| CssValuePattern.RgbaFromParts | src/classes/Gantry/Component/Stylesheet/CssCompiler.php:253 | "rgba(", three octets each followed by a comma, and an alpha with a closing parenthesis make an rgba match |
| CssValuePattern.HexColorAnyTail | src/classes/Gantry/Component/Stylesheet/CssCompiler.php:253 | anything may follow a six-digit hex colour and the value still matches |
| CssValuePattern.LengthAnyHead | src/classes/Gantry/Component/Stylesheet/CssCompiler.php:253 | anything may precede a length at the end and the value still matches |
| CssValuePatternExamples.FontFamilyDoesNotMatch | src/classes/Gantry/Component/Stylesheet/CssCompiler.php:242 | `family=Aguafina+Script` does not match |
| CssValuePatternExamples.BadHexDigitsDoNotMatch | src/classes/Gantry/Component/Stylesheet/CssCompiler.php:243 | `#zzzzzz` does not match |
| CssValuePatternExamples.ShortHexDoesNotMatch | src/classes/Gantry/Component/Stylesheet/CssCompiler.php:244 | `#fff` does not match |
| CssValuePatternExamples.HexColorMatches | src/classes/Gantry/Component/Stylesheet/CssCompiler.php:245 | `#ffaaff` matches |
| CssValuePatternExamples.EmLengthMatches | src/classes/Gantry/Component/Stylesheet/CssCompiler.php:246 | `33em` matches |
| CssValuePatternExamples.FractionLengthMatches | src/classes/Gantry/Component/Stylesheet/CssCompiler.php:247 | `0.5px` matches |
| CssValuePatternExamples.SpacedUnitDoesNotMatch | src/classes/Gantry/Component/Stylesheet/CssCompiler.php:248 | `50 rem` does not match |
| CssValuePatternExamples.ByteOverflowDoesNotMatch | src/classes/Gantry/Component/Stylesheet/CssCompiler.php:249 | `rgba(323,323,2323)` does not match |
| CssValuePatternExamples.RgbaMatches | src/classes/Gantry/Component/Stylesheet/CssCompiler.php:250 | `rgba(125,200,100,0.3)` matches |
| CssValuePatternExamples.RgbDoesNotMatch | src/classes/Gantry/Component/Stylesheet/CssCompiler.php:251 | `rgb(120,12,12)` does not match |
| CssValuePatternExamples.LooseAlphaMatches | src/classes/Gantry/Component/Stylesheet/CssCompiler.php:253 | `rgba(0,0,0,0x5)` matches, because the `.` of the alpha is unescaped |
| CssValuePatternExamples.WideAlphaDoesNotMatch | src/classes/Gantry/Component/Stylesheet/CssCompiler.php:253 | `rgba(0,0,0,0é5)` does not match, because the `.` of the alpha takes one byte and `é` has two |
| CssValuePatternExamples.HexColorWithTailMatches | src/classes/Gantry/Component/Stylesheet/CssCompiler.php:253 | `#ffaaff; color: red` matches |
| CssValuePatternExamples.LengthWithHeadMatches | src/classes/Gantry/Component/Stylesheet/CssCompiler.php:253 | `calc(100% - 33em` matches |
| CssCompilerExamples.TokensPassUnquoted | src/classes/Gantry/Component/Stylesheet/CssCompiler.php:245-250 | the four values marked to match are passed on unquoted |
| CssCompilerExamples.FontFamilyQuoted | src/classes/Gantry/Component/Stylesheet/CssCompiler.php:242 | `family=Aguafina+Script` is quoted |
| CssCompilerExamples.BadColorsQuoted | src/classes/Gantry/Component/Stylesheet/CssCompiler.php:243-251 | `#fff`, `#zzzzzz` and `rgb(120,12,12)` are quoted |
| CssCompilerExamples.MalformedTokensQuoted | src/classes/Gantry/Component/Stylesheet/CssCompiler.php:248-249 | `50 rem` and `rgba(323,323,2323)` are quoted |
| CssCompilerExamples.ScenarioNormalized | src/classes/Gantry/Component/Stylesheet/CssCompiler.php:234-264 | of the two variables, the hex colour passes unquoted and the font-family string is quoted |
| CssCompilerExamples.ScenarioUrl | src/classes/Gantry/Component/Stylesheet/CssCompiler.php:155-160 | stylesheet `theme` of a fresh compiler is `gantry-theme://css-compiled/theme.css` |
| CssCompilerExamples.Scenario | src/classes/Gantry/Component/Stylesheet/CssCompiler.php:174-232 | for stylesheet `theme` of a fresh compiler, with no output, the first check compiles and stages those variables; after the build, the check asks for nothing |
| PhpStrings.ToLower | src/classes/Gantry/Component/Stylesheet/CssCompiler.php:108 | `strtolower` replaces each character by its lower-case partner (only upper-case ASCII letters change), so the result has the same length and is lower case; a lower-case string is left as it is |
| PhpStrings.Basename | src/classes/Gantry/Component/Stylesheet/CssCompiler.php:196 | `basename` of a path has no slash; `BasenameOfSuffix` states which part of the path it is |
| PhpStrings.BasenameOfSuffix | src/classes/Gantry/Component/Stylesheet/CssCompiler.php:196 | `basename` of a path ending in `/x`, where `x` has no slash, is `x` |
| PhpStrings.UcWords | src/classes/Gantry/Framework/Base/Outlines.php:48 | `ucwords` keeps the length and the word delimiters, and changes only lower-case letters at word starts, to upper case |
| PhpStrings.UcWordsCapitalised | src/classes/Gantry/Framework/Base/Outlines.php:48 | no word of the result of `ucwords` starts with a lower-case letter |
| PhpStrings.Trim | src/classes/Gantry/Framework/Base/Outlines.php:48 | `trim` returns the part of the string after its leading blanks up to its trailing blanks: every character at its place, nothing but blanks after it, no blank at either end, and every non-blank character kept |
| PhpStrings.TrimTrimmed | src/classes/Gantry/Framework/Base/Outlines.php:48 | `trim` leaves a string without blanks at its ends as it is |
| PhpStrings.Explode | src/platforms/prime/Framework/Assignments.php:32 | `explode` yields at least one piece; `ExplodeCount`, `ExplodeLast` and `ImplodeExplode` state the pieces |
| PhpStrings.ExplodeCount | src/platforms/prime/Framework/Assignments.php:32 | `explode` yields one more piece than there are delimiters |
| PhpStrings.ExplodeLast | src/platforms/prime/Framework/Assignments.php:37 | `end(explode(...))` is the part after the last delimiter |
| PhpStrings.ImplodeExplode | src/platforms/prime/Framework/Assignments.php:32 | joining the pieces of `explode` with the delimiter gives back the string |
| PhpStrings.Repeat | src/platforms/prime/Framework/Assignments.php:37 | `str_repeat(t, n)` has length `n` times that of `t`, starts with `t` and repeats with period `|t|`, so it is `t` written `n` times |
| OrderedMaps.Get | src/classes/Gantry/Framework/Base/Outlines.php:51 | a lookup finds a value iff the key is present, and the value is that key's entry |
| OrderedMaps.Put | src/classes/Gantry/Framework/Base/Outlines.php:48 | assignment keeps keys distinct, replaces an existing key in place, appends a new key, and keeps every other entry |
| OrderedMaps.Remove | src/classes/Gantry/Framework/Base/Outlines.php:55-56 | `unset` cuts out the entry with the key, if there is one, and keeps every other entry in its place and order; without the key the array is unchanged |
| OrderedMaps.Union | src/classes/Gantry/Framework/Base/Outlines.php:157-162 | `a + b` starts with all of `a`, and after it come exactly the entries of `b` whose key `a` lacks |
| OrderedMaps.UnionOrder | src/classes/Gantry/Framework/Base/Outlines.php:157-162 | `a + (b1 + b2)` is `a + b1` followed by the entries of `b2` whose key `a` lacks, in `b2`'s order: `+` appends `b`'s new entries keeping their order |
| OrderedMaps.MissingAppend | src/classes/Gantry/Framework/Base/Outlines.php:157-162 | the entries `+` takes from `b1 + b2` are those it takes from `b1`, then those from `b2` |
| OrderedMaps.UnionGet | src/classes/Gantry/Framework/Base/Outlines.php:157-162 | `a + b` has distinct keys, the keys of both, and `a`'s value wherever `a` has the key |
| Outlines.Spaced | src/classes/Gantry/Framework/Base/Outlines.php:48 | the replacements leave no underscore, keep every other character and add only spaces; `SpacedChar` and `SpacedAppend` give the exact rewriting |
| OutlinesExamples.SpacedChar | src/classes/Gantry/Framework/Base/Outlines.php:48 | one character is rewritten as `_` to a space, `/` to ` / `, and any other character to itself |
| OutlinesExamples.SpacedAppend | src/classes/Gantry/Framework/Base/Outlines.php:48 | the rewriting works character by character: it distributes over concatenation |
| Outlines.Title | src/classes/Gantry/Framework/Base/Outlines.php:48 | a directory name is titled by replacing `_` by a space and `/` by ` / `, trimming, then capitalising words; `TitleShape` and `BlogPageTitle` state the result |
| Outlines.TitleShape | src/classes/Gantry/Framework/Base/Outlines.php:48 | a title has no underscore, no blank at either end, and no word starting with a lower-case letter |
| Outlines.Scan | src/classes/Gantry/Framework/Base/Outlines.php:44-49 | the loop keeps exactly the directories not starting with a dot, under distinct names, each with the title of its name |
| Outlines.SortByTitle | src/classes/Gantry/Framework/Base/Outlines.php:58 | `asort` permutes the entries |
| Outlines.SortByTitleSorted | src/classes/Gantry/Framework/Base/Outlines.php:58 | after `asort` the titles are in ascending byte order |
| Outlines.SortByTitleKeys | src/classes/Gantry/Framework/Base/Outlines.php:58 | `asort` keeps the same entries and keeps keys distinct |
| Outlines.DefaultsKeys | src/classes/Gantry/Framework/Base/Outlines.php:157-162 | the built-in outlines are `default`, `_body_only`, `_error` and `_offline`, all distinct |
| Outlines.AddDefaults | src/classes/Gantry/Framework/Base/Outlines.php:155-163 | the result starts with the four built-in outlines and their fixed titles |
| Outlines.AddDefaultsKeys | src/classes/Gantry/Framework/Base/Outlines.php:155-163 | the result has distinct keys: the built-in ones and the given ones |
| Outlines.AddDefaultsWins | src/classes/Gantry/Framework/Base/Outlines.php:157-162 | on a name both sides have, the built-in title wins; every other name keeps its own title |
| Outlines.AddDefaultsBase | src/classes/Gantry/Framework/Base/Outlines.php:157-162 | whatever outlines are given (none named `menu`), `default` is titled "Base Outline" and no `menu` is added |
| Outlines.MissingSorted | src/classes/Gantry/Framework/Base/Outlines.php:157-162 | the entries `+` takes from a sorted right operand stay sorted |
| Outlines.KeptKey | src/classes/Gantry/Framework/Base/Outlines.php:55-56 | after the two `unset`s, a key is present iff it was present and is neither `default` nor `menu` |
| Outlines.SortedKept | src/classes/Gantry/Framework/Base/Outlines.php:55-58 | the sorted outlines are ordered by title, have distinct keys, and are the listed directories other than `default` and `menu` |
| Outlines.Load | src/classes/Gantry/Framework/Base/Outlines.php:30-63 | loading fails iff no listed directory is named `default`, with the exception "Fatal error: Theme does not have default outline" |
| Outlines.LoadKeys | src/classes/Gantry/Framework/Base/Outlines.php:51-60 | a loaded collection starts with the built-in outlines, has distinct names, and holds exactly those and the listed directories other than `menu` |
| Outlines.LoadMenuAndDefault | src/classes/Gantry/Framework/Base/Outlines.php:51-60 | a loaded collection never holds `menu`, and its `default` is titled "Base Outline" even when the theme has its own `default` directory |
| Outlines.LoadOrder | src/classes/Gantry/Framework/Base/Outlines.php:55-60 | after the built-in outlines come the others, sorted by title, each with the title of its name |
| Outlines.Positions | src/classes/Gantry/Framework/Base/Outlines.php:70-80 | the positions of each outline, in order, are added with `+` to the list so far; `PositionsSpec` states the result |
| Outlines.PositionsSpec | src/classes/Gantry/Framework/Base/Outlines.php:70-80 | the merged positions have distinct names, and each has the value the first outline defining it gives it |
| Outlines.Unimplemented | src/classes/Gantry/Framework/Base/Outlines.php:86-149 | the preset of an outline is itself, every outline may be deleted, and duplicate, rename and delete fail with "Not Implemented", code 501 |
| OutlinesExamples.BlogPageTitle | src/classes/Gantry/Framework/Base/Outlines.php:48 | the directory `blog_page` is titled "Blog Page" |
| Assignments.New | src/platforms/prime/Framework/Assignments.php:21-24 | a new instance keeps its outline and has no pages yet |
| Assignments.Sanitize | src/platforms/prime/Framework/Assignments.php:35 | the link id keeps the length, keeps `[a-zA-Z0-9-]` characters and turns every other one into `-` |
| Assignments.SanitizeFixed | src/platforms/prime/Framework/Assignments.php:35 | sanitising leaves a string unchanged iff it already holds only `[a-zA-Z0-9-]` |
| Assignments.SanitizeIdempotent | src/platforms/prime/Framework/Assignments.php:35 | sanitising twice is sanitising once |
| Assignments.LabelShape | src/platforms/prime/Framework/Assignments.php:37 | the label is one `- ` per path segment, then the last segment with capitalised words |
| Assignments.Label | src/platforms/prime/Framework/Assignments.php:32-37 | the label is `- ` repeated once per path segment, then the last segment with capitalised words; `LabelShape` states the result |
| Assignments.NameRoundTrip | src/platforms/prime/Framework/Assignments.php:34 | the page is recovered from the form name `page[...]` |
| Assignments.LinkIdOfPage | src/platforms/prime/Framework/Assignments.php:35 | the field id is five characters longer than the page and holds only `[a-zA-Z0-9-]` |
| Assignments.PageItem | src/platforms/prime/Framework/Assignments.php:33-38 | the item of a page: form name, field, value 0 and label; `PageItemSpec` states it |
| Assignments.PageItemSpec | src/platforms/prime/Framework/Assignments.php:32-38 | an item is named `page[` + page + `]` and gives its page back from that name, has the field `["id", "link-" + sanitised page]`, value 0, and the label described above |
| Assignments.PageItemInjective | src/platforms/prime/Framework/Assignments.php:34 | two pages never share a form name |
| Assignments.Items | src/platforms/prime/Framework/Assignments.php:31-39 | there is one item per enumerated page, in order |
| Assignments.Get | src/platforms/prime/Framework/Assignments.php:26-43 | the result is one group "Pages" with the state's items; memoised items are kept; otherwise the items are exactly one per enumerated page, in order |
| Assignments.GetMemoises | src/platforms/prime/Framework/Assignments.php:28 | once items exist, later calls return the same whatever the enumeration; the list is empty only if nothing was enumerated, and then the next call enumerates again |
| Assignments.Types | src/platforms/prime/Framework/Assignments.php:49-52 | the only assignment type is `pages` |

## Left out

- The SCSS compilation itself is not modelled, because it lives in the engine: `compileFile`, `compileAll`, `reset` and the engine calls. `getTarget` only returns the target, which is the field `target` of `Compiler`. Only the imports the engine reports reach the model, as a parameter of `CreateMeta`.
- The resource locator, `PhpFile`, `filemtime` and the global configuration are modelled as the maps and the flag of `Environment`. Only their values matter; how the file system produces them does not.
- The debug flag and the compiler name are not modelled, because no modelled operation reads them.
- PHP converts array keys that are numeric strings to integers. Font families, variable names, outline names and positions are modelled as strings, because that conversion does not change which keys are present.
- CssCompiler.NormalizedFamilies: the normalised fonts are an unordered map, so the order of families in the PHP array is not modelled.
- CssCompiler.NeedsCompile: the comparisons of `file`, `timestamp` and `variables` with the record are PHP loose comparisons. They are modelled as strict equality, so numeric strings such as "1e3" and "1000" are treated as different.
- CssCompiler.NeedsCompile: a record field that is missing reads as an empty value. `timestamp` is modelled as always present; without it PHP compares the time with null.
- CssCompiler.NeedsCompile: the variables supplier is a callable. It is modelled by the array it returns, with null, boolean, integer and string values only; a nested array as a value is not modelled.
- PhpValues.TruthyIffStringTruthy: floats are not modelled (`Scalar` has no float case). For floats the property fails in PHP: `-0.0` is falsy, while its string form "-0" is truthy.
- CssCompiler.CreateMeta requires that, outside production, the output resolves. The source calls `filemtime` on the unresolved path otherwise, which only warns.
- CssVariables.SetVariables: the colour table is a parameter. Its contents are not modelled, only that its names are lower-case words (`WellFormedColors`).
- CssVariables.SetVariables: `strtolower` and the pattern's case-insensitivity are modelled for ASCII only, with no locale.
- Outlines.SortByTitle: `asort` with the default flags compares two numeric strings as numbers. Titles are compared byte-wise here.
- Outlines.SortByTitle: entries with equal titles keep their listing order. Older PHP sorting is not stable, so that order is unspecified in the source runtime.
- Outlines.Load: the iterator and its flags are replaced by the listing they produce (file name, is-directory). An empty name is listed: PHP reads `$name[0]` of an empty name as an empty string, which is not a dot.
- Outlines.PositionsSpec: `Layout::index` is a parameter `index`; the layout files are not part of this model. `layout` and `layoutPreset` only load layouts and are not part of this model either.
- Assignments.Sanitize works on characters, while `preg_replace` without the `u` modifier works on bytes. A multi-byte UTF-8 character becomes one `-` here but several in PHP.
- Assignments.Get: the page enumeration (`Gantry\Prime\Pages`) is a parameter, the sequence of page paths it yields.
- `Assignments::set` has an empty body and is not modelled.
