/** A worked example of an outline title. */
module OutlinesExamples {
  import opened Wrappers
  import opened PhpStrings
  import opened OrderedMaps
  import opened Outlines

  /** The replacements distribute over concatenation. */
  lemma {:induction false} SpacedAppend(a: string, b: string)
    ensures Spaced(a + b) == Spaced(a) + Spaced(b)
  {
    if b != [] {
      assert (a + b)[..|a + b| - 1] == a + b[..|b| - 1];
      SpacedAppend(a, b[..|b| - 1]);
    } else {
      assert a + b == a;
    }
  }

  /** A name without `_` and `/` is not changed by the replacements. */
  lemma {:induction false} SpacedPlain(s: string)
    requires '_' !in s && '/' !in s
    ensures Spaced(s) == s
  {
    if s != [] {
      var prefix, c := s[..|s| - 1], s[|s| - 1];
      assert s == prefix + [c];
      assert '_' !in prefix && '/' !in prefix && c != '_' && c != '/';
      SpacedPlain(prefix);
    }
  }

  /** The replacement of a single character. */
  lemma SpacedChar(c: char)
    ensures Spaced([c]) == if c == '_' then " " else if c == '/' then " / " else [c]
  {
    assert [c][..0] == [];
  }

  /** The replacements on `a`, a separator and `b`, where `a` and `b` have
      neither `_` nor `/`. */
  lemma SpacedJoin(a: string, c: char, b: string)
    requires '_' !in a && '/' !in a && '_' !in b && '/' !in b
    ensures Spaced(a + [c] + b) == a + Spaced([c]) + b
  {
    SpacedAppend(a + [c], b);
    SpacedAppend(a, [c]);
    SpacedPlain(a);
    SpacedPlain(b);
  }

  lemma BlogPageSpaced()
    ensures Spaced("blog_page") == "blog page"
  {
    assert "blog_page" == "blog" + ['_'] + "page";
    SpacedJoin("blog", '_', "page");
    SpacedChar('_');
  }

  lemma BlogPageWords()
    ensures UcWords("blog page") == "Blog Page"
  {
    var t := UcWords("blog page");
    assert WordStart("blog page", 0) && WordStart("blog page", 5);
    assert forall i | 0 < i < 9 && i != 5 :: !WordStart("blog page", i);
    assert t[0] == 'B' && t[5] == 'P';
  }

  /** An underscore separates two words of the title. */
  lemma BlogPageTitle()
    ensures Title("blog_page") == "Blog Page"
  {
    BlogPageSpaced();
    TitleOfSpaced("blog page");
    BlogPageWords();
  }

  lemma TitleOfSpaced(s: string)
    requires s == [] || (!IsTrimmed(s[0]) && !IsTrimmed(s[|s| - 1]))
    ensures UcWords(Trim(s)) == UcWords(s)
  {
    TrimTrimmed(s);
  }
}
