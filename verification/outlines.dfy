/** The outline collection of Outlines.php: the outlines of a theme are the
    directories of its configuration folder, titled after their names,
    sorted by title and preceded by the four built-in outlines. The
    directory listing and the layout index are given as data. */
module Outlines {
  import opened Wrappers
  import opened PhpStrings
  import opened OrderedMaps

  /** One entry of the configuration folder. */
  datatype DirEntry = DirEntry(name: string, isDir: bool)

  /** A `RuntimeException` with its message and code. */
  datatype Error = RuntimeError(message: string, code: int)

  const MissingDefault: Error := RuntimeError("Fatal error: Theme does not have default outline", 0)
  const NotImplemented: Error := RuntimeError("Not Implemented", 501)

  /** The entries the loop looks at: directories whose name does not start
      with a dot. */
  predicate Listed(e: DirEntry) {
    e.isDir && !(|e.name| > 0 && e.name[0] == '.')
  }

  /** The replacements `_` to " " and `/` to " / ". */
  function Spaced(name: string): (r: string)
    ensures '_' !in r
    ensures forall c | c in name && c != '_' :: c in r
    ensures forall c | c in r :: c in name || c == ' '
  {
    if name == [] then []
    else
      var c := name[|name| - 1];
      Spaced(name[..|name| - 1]) + (if c == '_' then " " else if c == '/' then " / " else [c])
  }

  /** The title of an outline directory. */
  function Title(name: string): string {
    UcWords(Trim(Spaced(name)))
  }

  /** A title has no underscore, no blank at either end, and no word of it
      starts with a lower-case letter. */
  lemma TitleShape(name: string)
    ensures var t := Title(name);
      && '_' !in t
      && (t == [] || (!IsTrimmed(t[0]) && !IsTrimmed(t[|t| - 1])))
      && forall i | 0 <= i < |t| && WordStart(t, i) :: !IsLowerAscii(t[i])
  {
    var trimmed := Trim(Spaced(name));
    TrimKeepsOnly(Spaced(name));
    assert '_' !in trimmed;
    UcWordsKeepsAbsent(trimmed, '_');
    UcWordsKeepsEnds(trimmed);
    UcWordsCapitalised(trimmed);
  }

  lemma TrimKeepsOnly(s: string)
    ensures forall c | c in Trim(s) :: c in s
  {
    var l := TrimLeft(s);
    assert forall c | c in l :: c in s;
    var r := TrimRight(l);
    assert forall c | c in r :: c in l;
  }

  // Ordering by title

  /** `strcmp(a, b) <= 0`. */
  predicate LexLe(a: string, b: string) {
    if a == [] then true
    else if b == [] then false
    else if a[0] != b[0] then a[0] < b[0]
    else LexLe(a[1..], b[1..])
  }

  lemma {:induction false} LexTotal(a: string, b: string)
    ensures LexLe(a, b) || LexLe(b, a)
  {
    if a != [] && b != [] && a[0] == b[0] {
      LexTotal(a[1..], b[1..]);
    }
  }

  lemma {:induction false} LexTransitive(a: string, b: string, c: string)
    requires LexLe(a, b) && LexLe(b, c)
    ensures LexLe(a, c)
  {
    if a != [] && b != [] && c != [] && a[0] == b[0] && b[0] == c[0] {
      LexTransitive(a[1..], b[1..], c[1..]);
    }
  }

  predicate SortedByTitle(m: Entries) {
    forall i, j | 0 <= i < j < |m| :: LexLe(m[i].1, m[j].1)
  }

  /** Inserts `e` after every entry whose title is not greater. */
  function Insert(s: Entries, e: (string, string)): (r: Entries)
    ensures multiset(r) == multiset(s) + multiset{e}
    ensures |r| == |s| + 1 && (r[0] == e || (s != [] && r[0] == s[0]))
  {
    if s == [] then [e]
    else if !LexLe(s[0].1, e.1) then [e] + s
    else
      assert s == [s[0]] + s[1..];
      [s[0]] + Insert(s[1..], e)
  }

  lemma {:induction false} InsertSorted(s: Entries, e: (string, string))
    requires SortedByTitle(s)
    ensures SortedByTitle(Insert(s, e))
  {
    if s != [] {
      var r := Insert(s, e);
      if !LexLe(s[0].1, e.1) {
        LexTotal(s[0].1, e.1);
        forall j | 1 < j < |r|
          ensures LexLe(e.1, r[j].1)
        {
          LexTransitive(e.1, s[0].1, s[j - 1].1);
        }
      } else {
        InsertSorted(s[1..], e);
        var tail := Insert(s[1..], e);
        assert r == [s[0]] + tail;
        forall j | 0 <= j < |tail|
          ensures LexLe(s[0].1, tail[j].1)
        {
          assert tail[j] in multiset(tail);
          assert tail[j] in s[1..] || tail[j] == e;
        }
      }
    }
  }

  /** `asort`: by title, entries with equal titles in their original order. */
  function SortByTitle(m: Entries): (r: Entries)
    ensures multiset(r) == multiset(m)
  {
    if m == [] then []
    else
      assert m == m[..|m| - 1] + [m[|m| - 1]];
      Insert(SortByTitle(m[..|m| - 1]), m[|m| - 1])
  }

  lemma {:induction false} SortByTitleSorted(m: Entries)
    ensures SortedByTitle(SortByTitle(m))
  {
    if m != [] {
      SortByTitleSorted(m[..|m| - 1]);
      InsertSorted(SortByTitle(m[..|m| - 1]), m[|m| - 1]);
    }
  }

  /** The entries of a sorted list that `+` keeps stay sorted. */
  lemma {:induction false} MissingSorted(a: Entries, b: Entries)
    requires SortedByTitle(b)
    ensures SortedByTitle(Missing(a, b))
  {
    if b != [] {
      var init := b[..|b| - 1];
      MissingSorted(a, init);
      var r := Missing(a, b);
      var head := Missing(a, init);
      if !HasKey(a, b[|b| - 1].0) {
        assert r == head + [b[|b| - 1]];
        forall i | 0 <= i < |head|
          ensures LexLe(head[i].1, b[|b| - 1].1)
        {
          assert head[i] in init;
        }
      }
    }
  }

  lemma {:induction false} InsertUnique(s: Entries, e: (string, string))
    requires UniqueKeys(s) && !HasKey(s, e.0)
    ensures UniqueKeys(Insert(s, e))
  {
    if s != [] && LexLe(s[0].1, e.1) {
      InsertUnique(s[1..], e);
      var tail := Insert(s[1..], e);
      forall j | 0 <= j < |tail|
        ensures tail[j].0 != s[0].0
      {
        assert tail[j] in multiset(tail);
        if tail[j] != e {
          var i :| 0 <= i < |s[1..]| && s[1..][i] == tail[j];
          assert s[i + 1] == tail[j];
        }
      }
    }
  }

  /** Sorting keeps the keys and keeps them distinct. */
  lemma {:induction false} SortByTitleKeys(m: Entries)
    requires UniqueKeys(m)
    ensures UniqueKeys(SortByTitle(m))
    ensures forall e :: e in SortByTitle(m) <==> e in m
  {
    var r := SortByTitle(m);
    forall e
      ensures e in r <==> e in m
    {
      assert e in r <==> e in multiset(r);
    }
    if m != [] {
      var init := m[..|m| - 1];
      var last := m[|m| - 1];
      SortByTitleKeys(init);
      assert !HasKey(SortByTitle(init), last.0) by {
        assert forall i | 0 <= i < |init| :: init[i] == m[i];
        SameEntriesSameKeys(init, SortByTitle(init), last.0);
      }
      InsertUnique(SortByTitle(init), last);
    }
  }

  // Loading

  /** The name of a listed entry. */
  predicate NamedIn(listing: seq<DirEntry>, k: string) {
    exists i | 0 <= i < |listing| :: Listed(listing[i]) && listing[i].name == k
  }

  lemma NamedInSnoc(init: seq<DirEntry>, e: DirEntry, k: string)
    ensures NamedIn(init + [e], k) <==> NamedIn(init, k) || (Listed(e) && e.name == k)
  {
    var listing := init + [e];
    if NamedIn(listing, k) && !(Listed(e) && e.name == k) {
      var i :| 0 <= i < |listing| && Listed(listing[i]) && listing[i].name == k;
      assert listing[i] == init[i];
    }
    if NamedIn(init, k) {
      var i :| 0 <= i < |init| && Listed(init[i]) && init[i].name == k;
      assert listing[i] == init[i];
    }
    if Listed(e) && e.name == k {
      assert listing[|init|] == e;
    }
  }

  /** What one more entry of the listing does to the outlines found so far. */
  ghost predicate ScanInvariant(listing: seq<DirEntry>, m: Entries) {
    && UniqueKeys(m)
    && (forall k :: HasKey(m, k) <==> NamedIn(listing, k))
    && (forall e | e in m :: e.1 == Title(e.0))
  }

  lemma ScanStep(init: seq<DirEntry>, e: DirEntry, m: Entries)
    requires ScanInvariant(init, m)
    ensures ScanInvariant(init + [e], if Listed(e) then Put(m, e.name, Title(e.name)) else m)
  {
    if Listed(e) {
      var v := Title(e.name);
      var r := Put(m, e.name, v);
      ScanKeysStep(init, e, m, v);
      forall x | x in r
        ensures x.1 == Title(x.0)
      {
        PutEntry(m, e.name, v, x);
      }
      assert ScanInvariant(init + [e], r);
    } else {
      ScanKeysStep(init, e, m, "");
    }
  }

  lemma ScanKeysStep(init: seq<DirEntry>, e: DirEntry, m: Entries, v: string)
    requires UniqueKeys(m) && forall k :: HasKey(m, k) <==> NamedIn(init, k)
    ensures var r := if Listed(e) then Put(m, e.name, v) else m;
      UniqueKeys(r) && forall k :: HasKey(r, k) <==> NamedIn(init + [e], k)
  {
    forall k
      ensures HasKey(if Listed(e) then Put(m, e.name, v) else m, k) <==> NamedIn(init + [e], k)
    {
      NamedInSnoc(init, e, k);
    }
  }

  /** The loop of `load`: every listed directory, titled. */
  function Scan(listing: seq<DirEntry>): (r: Entries)
    ensures UniqueKeys(r)
    ensures forall k :: HasKey(r, k) <==> NamedIn(listing, k)
    ensures forall e | e in r :: e.1 == Title(e.0)
  {
    if listing == [] then []
    else
      var init, e := listing[..|listing| - 1], listing[|listing| - 1];
      var m := Scan(init);
      ScanStep(init, e, m);
      assert init + [e] == listing;
      if Listed(e) then Put(m, e.name, Title(e.name)) else m
  }

  /** The built-in outlines, in their order. */
  const Defaults: Entries := [("default", "Base Outline"), ("_body_only", "Body Only"), ("_error", "Error"), ("_offline", "Offline")]

  predicate IsDefault(k: string) {
    k == "default" || k == "_body_only" || k == "_error" || k == "_offline"
  }

  lemma DefaultsKeys()
    ensures UniqueKeys(Defaults)
    ensures forall k :: HasKey(Defaults, k) <==> IsDefault(k)
  {
    forall k | IsDefault(k)
      ensures HasKey(Defaults, k)
    {
      if k == "default" { assert Defaults[0].0 == k; }
      else if k == "_body_only" { assert Defaults[1].0 == k; }
      else if k == "_error" { assert Defaults[2].0 == k; }
      else { assert Defaults[3].0 == k; }
    }
  }

  /** `addDefaults`: the built-in outlines first, then the others. */
  function AddDefaults(outlines: Entries): (r: Entries)
    ensures |r| >= 4 && r[..4] == Defaults
  {
    Union(Defaults, outlines)
  }

  /** `load`: fails without a `default` directory; otherwise the listed
      outlines other than `default` and `menu`, sorted by title, after the
      built-in ones. */
  function Load(listing: seq<DirEntry>): (r: Result<Entries, Error>)
    ensures r.Failure? <==> !NamedIn(listing, "default")
    ensures r.Failure? ==> r.error == MissingDefault
  {
    var files := Scan(listing);
    if !HasKey(files, "default") then Failure(MissingDefault)
    else Success(AddDefaults(SortByTitle(Remove(Remove(files, "default"), "menu"))))
  }

  /** The outlines `load` sorts. */
  function Kept(listing: seq<DirEntry>): (r: Entries)
    ensures UniqueKeys(r)
  {
    Remove(Remove(Scan(listing), "default"), "menu")
  }

  /** What sorting the kept outlines yields: the same entries, in order. */
  lemma SortedKept(listing: seq<DirEntry>)
    ensures var sorted := SortByTitle(Kept(listing));
      && UniqueKeys(sorted)
      && SortedByTitle(sorted)
      && forall k :: HasKey(sorted, k) <==> NamedIn(listing, k) && k != "default" && k != "menu"
  {
    var kept := Kept(listing);
    var sorted := SortByTitle(kept);
    SortByTitleKeys(kept);
    SortByTitleSorted(kept);
    forall k
      ensures HasKey(sorted, k) <==> NamedIn(listing, k) && k != "default" && k != "menu"
    {
      KeptKey(Scan(listing), k);
      SameEntriesSameKeys(kept, sorted, k);
    }
  }

  lemma SameEntriesSameKeys(a: Entries, b: Entries, k: string)
    requires forall e :: e in a <==> e in b
    ensures HasKey(a, k) <==> HasKey(b, k)
  {
    if HasKey(a, k) {
      var i :| 0 <= i < |a| && a[i].0 == k;
      assert a[i] in b;
    }
    if HasKey(b, k) {
      var i :| 0 <= i < |b| && b[i].0 == k;
      assert b[i] in a;
    }
  }

  /** `addDefaults` yields distinct names: the built-in ones and the
      given ones. */
  lemma AddDefaultsKeys(outlines: Entries)
    requires UniqueKeys(outlines)
    ensures UniqueKeys(AddDefaults(outlines))
    ensures forall k :: HasKey(AddDefaults(outlines), k) <==> IsDefault(k) || HasKey(outlines, k)
  {
    DefaultsKeys();
    forall k
      ensures HasKey(Union(Defaults, outlines), k) <==> IsDefault(k) || HasKey(outlines, k)
    {
      UnionGet(Defaults, outlines, k);
    }
    UnionGet(Defaults, outlines, "");
  }

  /** On a name both sides have, the built-in title wins; every other name
      keeps its title. */
  lemma AddDefaultsWins(outlines: Entries, k: string)
    requires UniqueKeys(outlines)
    ensures Get(AddDefaults(outlines), k) == if IsDefault(k) then Get(Defaults, k) else Get(outlines, k)
  {
    DefaultsKeys();
    UnionGet(Defaults, outlines, k);
  }

  /** The loaded outlines have distinct names: the built-in ones and every
      other listed directory but `menu`. */
  lemma LoadKeys(listing: seq<DirEntry>)
    requires NamedIn(listing, "default")
    ensures var r := Load(listing).value;
      && r[..4] == Defaults
      && UniqueKeys(r)
      && forall k :: HasKey(r, k) <==> IsDefault(k) || (NamedIn(listing, k) && k != "menu")
  {
    var sorted := SortByTitle(Kept(listing));
    assert Load(listing).value == AddDefaults(sorted);
    SortedKept(listing);
    AddDefaultsKeys(sorted);
  }

  /** `menu` is never an outline, and `default` is always the base outline. */
  lemma LoadMenuAndDefault(listing: seq<DirEntry>)
    requires NamedIn(listing, "default")
    ensures !HasKey(Load(listing).value, "menu")
    ensures Get(Load(listing).value, "default") == Some("Base Outline")
  {
    LoadValue(listing);
    SortedKeptNoMenu(listing);
    AddDefaultsBase(SortByTitle(Kept(listing)));
  }

  /** What a successful `load` yields. */
  lemma LoadValue(listing: seq<DirEntry>)
    requires NamedIn(listing, "default")
    ensures Load(listing).value == AddDefaults(SortByTitle(Kept(listing)))
  {
  }

  lemma SortedKeptNoMenu(listing: seq<DirEntry>)
    ensures UniqueKeys(SortByTitle(Kept(listing))) && !HasKey(SortByTitle(Kept(listing)), "menu")
  {
    SortedKept(listing);
  }

  /** Whatever the theme lists, `addDefaults` titles `default` as the base
      outline and adds no `menu`. */
  lemma AddDefaultsBase(outlines: Entries)
    requires UniqueKeys(outlines) && !HasKey(outlines, "menu")
    ensures Get(AddDefaults(outlines), "default") == Some("Base Outline")
    ensures !HasKey(AddDefaults(outlines), "menu")
  {
    AddDefaultsWins(outlines, "default");
    AddDefaultsWins(outlines, "menu");
    DefaultsKeys();
    assert Defaults[0] == ("default", "Base Outline");
    GetEntry(Defaults, "default", "Base Outline");
  }

  /** After the built-in outlines come the others, sorted by title, each
      with the title of its name. */
  lemma LoadOrder(listing: seq<DirEntry>)
    requires NamedIn(listing, "default")
    ensures var r := Load(listing).value;
      && SortedByTitle(r[4..])
      && forall e | e in r[4..] :: !IsDefault(e.0) && e.1 == Title(e.0)
  {
    var kept := Kept(listing);
    var sorted := SortByTitle(kept);
    SortedKept(listing);
    SortByTitleKeys(kept);
    DefaultsKeys();
    MissingSorted(Defaults, sorted);
    var r := Union(Defaults, sorted);
    assert r[4..] == Missing(Defaults, sorted);
    forall e | e in r[4..]
      ensures e.1 == Title(e.0)
    {
      assert e in kept;
      assert e in Remove(Scan(listing), "default");
    }
  }

  /** What the two `unset`s keep. */
  lemma KeptKey(files: Entries, k: string)
    requires UniqueKeys(files)
    ensures HasKey(Remove(Remove(files, "default"), "menu"), k)
      <==> HasKey(files, k) && k != "default" && k != "menu"
  {
    var once := Remove(files, "default");
    var twice := Remove(once, "menu");
    if HasKey(files, k) && k != "default" && k != "menu" {
      var i :| 0 <= i < |files| && files[i].0 == k;
      assert files[i] in once;
      assert files[i] in twice;
    }
    if HasKey(twice, k) {
      var i :| 0 <= i < |twice| && twice[i].0 == k;
      assert twice[i] in once;
      assert twice[i] in files;
    }
  }

  // Positions

  /** `positions`: the positions of every outline's layout, the first
      outline that defines a position giving its value. `index` stands
      for the positions of `Layout::index`. */
  function Positions(items: Entries, index: string -> Entries): Entries {
    if items == [] then []
    else Union(Positions(items[..|items| - 1], index), index(items[|items| - 1].0))
  }

  /** The value of position `k`: that of the first outline that has it. */
  function FirstPosition(items: Entries, index: string -> Entries, k: string): Option<string> {
    if items == [] then None
    else if HasKey(index(items[0].0), k) then Get(index(items[0].0), k)
    else FirstPosition(items[1..], index, k)
  }

  /** The first value found among all outlines: that of the outlines but
      the last, or else that of the last. */
  lemma {:induction false} FirstPositionLast(items: Entries, index: string -> Entries, k: string)
    requires items != []
    ensures var p := FirstPosition(items[..|items| - 1], index, k);
      FirstPosition(items, index, k) == if p.Some? then p else Get(index(items[|items| - 1].0), k)
  {
    if |items| > 1 {
      var tail := items[1..];
      FirstPositionLast(tail, index, k);
      assert tail[..|tail| - 1] == items[..|items| - 1][1..];
      assert items[..|items| - 1][0] == items[0];
      assert tail[|tail| - 1] == items[|items| - 1];
    }
  }

  lemma {:induction false} PositionsUnique(items: Entries, index: string -> Entries)
    requires forall name :: UniqueKeys(index(name))
    ensures UniqueKeys(Positions(items, index))
  {
    if items != [] {
      var init, x := items[..|items| - 1], items[|items| - 1];
      PositionsUnique(init, index);
      assert UniqueKeys(index(x.0));
      UnionGet(Positions(init, index), index(x.0), x.0);
    }
  }

  /** One more outline: `+=` keeps the first value found. */
  lemma PositionsStep(items: Entries, index: string -> Entries, k: string)
    requires items != []
    requires var init := items[..|items| - 1];
      && UniqueKeys(Positions(init, index)) && UniqueKeys(index(items[|items| - 1].0))
      && Get(Positions(init, index), k) == FirstPosition(init, index, k)
    ensures Get(Positions(items, index), k) == FirstPosition(items, index, k)
  {
    var init, x := items[..|items| - 1], items[|items| - 1];
    UnionGet(Positions(init, index), index(x.0), k);
    FirstPositionLast(items, index, k);
  }

  /** The positions have distinct names, and each has the value the first
      outline defining it gives it. */
  lemma {:induction false} PositionsSpec(items: Entries, index: string -> Entries, k: string)
    requires forall name :: UniqueKeys(index(name))
    ensures UniqueKeys(Positions(items, index))
    ensures Get(Positions(items, index), k) == FirstPosition(items, index, k)
  {
    PositionsUnique(items, index);
    if items != [] {
      var init := items[..|items| - 1];
      PositionsSpec(init, index, k);
      assert UniqueKeys(index(items[|items| - 1].0));
      PositionsStep(items, index, k);
    }
  }

  // Operations the collection does not implement

  function Preset(id: string): string { id }

  function CanDelete(id: string): bool { true }

  function Duplicate(id: string): Result<Entries, Error> { Failure(NotImplemented) }

  function Rename(id: string, title: string): Result<Entries, Error> { Failure(NotImplemented) }

  function Delete(id: string): Result<Entries, Error> { Failure(NotImplemented) }

  /** The preset of an outline is the outline itself, every outline may be
      deleted, and copying, renaming and deleting fail with code 501. */
  lemma Unimplemented(id: string, title: string)
    ensures Preset(id) == id && CanDelete(id)
    ensures Duplicate(id) == Rename(id, title) == Delete(id) == Failure(RuntimeError("Not Implemented", 501))
  {
  }
}
