/** The assignments of the stand-alone platform: an outline can be assigned
    to pages, listed once per page in a single group "Pages". The pages
    come from the page enumeration, given here as the sequence of page
    paths it yields. */
module Assignments {
  import opened PhpStrings

  /** One assignable page: the form name, the field path, the assigned
      value and the label shown for it. */
  datatype Item = Item(name: string, field: seq<string>, value: int, caption: string)

  datatype Group = Group(caption: string, items: seq<Item>)

  /** The outline and the memoised page items. */
  datatype State = State(outline: string, pages: seq<Item>)

  /** A new instance: no page items yet. */
  function New(outline: string): (a: State)
    ensures a.outline == outline && a.pages == []
  {
    State(outline, [])
  }

  /** The characters `[a-zA-Z0-9-]` that a link id keeps. */
  predicate IsLinkChar(c: char) {
    'a' <= c <= 'z' || 'A' <= c <= 'Z' || '0' <= c <= '9' || c == '-'
  }

  predicate IsLinkId(s: string) {
    forall i | 0 <= i < |s| :: IsLinkChar(s[i])
  }

  /** `preg_replace('|[^a-zA-Z0-9-]|', '-', page)`. */
  function Sanitize(page: string): (r: string)
    ensures |r| == |page| && IsLinkId(r)
    ensures forall i | 0 <= i < |page| && IsLinkChar(page[i]) :: r[i] == page[i]
    ensures forall i | 0 <= i < |page| && !IsLinkChar(page[i]) :: r[i] == '-'
  {
    seq(|page|, i requires 0 <= i < |page| => if IsLinkChar(page[i]) then page[i] else '-')
  }

  /** A link id is left as it is, and only a link id is. */
  lemma SanitizeFixed(page: string)
    ensures Sanitize(page) == page <==> IsLinkId(page)
  {
    if IsLinkId(page) {
      assert forall i | 0 <= i < |page| :: Sanitize(page)[i] == page[i];
    }
  }

  /** Sanitizing twice is sanitizing once. */
  lemma SanitizeIdempotent(page: string)
    ensures Sanitize(Sanitize(page)) == Sanitize(page)
  {
    SanitizeFixed(Sanitize(page));
  }

  /** The label of a page: a dash per path segment, then the last segment
      with its words capitalised. */
  function Label(page: string): string {
    var path := Explode('/', page);
    Repeat("- ", |path|) + UcWords(path[|path| - 1])
  }

  /** The label counts the slashes of the path and shows its last segment. */
  lemma LabelShape(page: string)
    ensures Label(page) == Repeat("- ", Count('/', page) + 1) + UcWords(AfterLast('/', page))
  {
    ExplodeCount('/', page);
    ExplodeLast('/', page);
  }

  /** The item of one page. */
  function PageItem(page: string): Item {
    Item("page[" + page + "]", ["id", "link-" + Sanitize(page)], 0, Label(page))
  }

  /** The page a form name stands for. */
  function PageOfName(name: string): string {
    if |name| >= 6 && name[..5] == "page[" && name[|name| - 1] == ']' then name[5..|name| - 1] else name
  }

  /** The form name gives back its page. */
  lemma NameRoundTrip(page: string)
    ensures PageOfName("page[" + page + "]") == page
  {
    var name := "page[" + page + "]";
    assert name[..5] == "page[" && name[5..|name| - 1] == page;
  }

  /** The link id of a page is a valid id as long as the page path plus the
      prefix. */
  lemma LinkIdOfPage(page: string)
    ensures var id := "link-" + Sanitize(page); |id| == |page| + 5 && IsLinkId(id)
  {
    var id := "link-" + Sanitize(page);
    assert forall i | 0 <= i < 5 :: IsLinkChar(id[i]) by {
      assert id[..5] == "link-";
    }
    assert forall i | 5 <= i < |id| :: id[i] == Sanitize(page)[i - 5];
  }

  /** Everything an item holds is determined by its page, and the page is
      recovered from the form name. */
  lemma PageItemSpec(page: string)
    ensures var it := PageItem(page);
      && it.name == "page[" + page + "]" && PageOfName(it.name) == page
      && it.value == 0
      && it.field == ["id", "link-" + Sanitize(page)]
      && |it.field[1]| == |page| + 5 && IsLinkId(it.field[1])
      && it.caption == Repeat("- ", Count('/', page) + 1) + UcWords(AfterLast('/', page))
  {
    NameRoundTrip(page);
    LinkIdOfPage(page);
    LabelShape(page);
  }

  /** Two pages never share a form name. */
  lemma PageItemInjective(p: string, q: string)
    requires PageItem(p).name == PageItem(q).name
    ensures p == q
  {
    PageItemSpec(p);
    PageItemSpec(q);
  }

  /** The loop of `get`: one item per enumerated page, in order. */
  function Items(pages: seq<string>): (r: seq<Item>)
    ensures |r| == |pages|
    ensures forall i | 0 <= i < |pages| :: r[i] == PageItem(pages[i])
  {
    if pages == [] then [] else Items(pages[..|pages| - 1]) + [PageItem(pages[|pages| - 1])]
  }

  /** `get`: the page items, enumerated when none are memoised, in one
      group "Pages"; the state afterwards holds the items. */
  function Get(a: State, enumeration: seq<string>): (r: (State, seq<Group>))
    ensures r.0.outline == a.outline
    ensures r.1 == [Group("Pages", r.0.pages)]
    ensures a.pages != [] ==> r.0.pages == a.pages
    ensures a.pages == [] ==> r.0.pages == Items(enumeration)
    ensures a.pages == [] ==>
      && |r.0.pages| == |enumeration|
      && forall i | 0 <= i < |enumeration| :: PageOfName(r.0.pages[i].name) == enumeration[i]
  {
    var pages := if a.pages == [] then Items(enumeration) else a.pages;
    assert a.pages == [] ==> forall i | 0 <= i < |enumeration| :: PageOfName(pages[i].name) == enumeration[i] by {
      forall i | a.pages == [] && 0 <= i < |enumeration|
        ensures PageOfName(pages[i].name) == enumeration[i]
      {
        PageItemSpec(enumeration[i]);
      }
    }
    (a.(pages := pages), [Group("Pages", pages)])
  }

  /** Once a page has been found, later calls return the same groups
      whatever the enumeration yields; the list is empty only when nothing
      was memoised and nothing enumerated, and then the next call enumerates
      again. */
  lemma GetMemoises(a: State, first: seq<string>, later: seq<string>)
    ensures var (b, groups) := Get(a, first);
      && (b.pages != [] ==> Get(b, later) == (b, groups))
      && (b.pages == [] <==> a.pages == [] && first == [])
      && (b.pages == [] ==> |Get(b, later).0.pages| == |later|)
  {
  }

  /** `types`. */
  function Types(): (r: seq<string>)
    ensures r == ["pages"]
  {
    ["pages"]
  }
}
