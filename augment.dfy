/**
 * Catalog augmentation: which labelled URLs the catalog lacks, the text
 * heuristics applied to a fetched product page, the fallbacks that complete
 * a new row, and the merge that keeps existing rows first.
 *
 * Fetching is a parameter `fetch` that yields the extracted page, or nothing
 * when the request or the status check raises. HTML parsing is not
 * modelled: a page arrives as what the selectors find, and the fallbacks
 * between them (heading, then og:title; meta description, then
 * og:description, then the first paragraph) are.
 */
module Augment {
  import opened Wrappers
  import opened Text
  import opened Seqs
  import opened Cells
  import opened Urls
  import opened DurationParse
  import opened Keywords

  /**
   * What the selectors of `parse_product_page` find: the stripped text of the
   * first `h1`/`h2`; the `content` attributes of the `og:title`, description
   * and `og:description` `<meta>` tags; the text of the first `<p>`; and the
   * page text.
   */
  datatype Page = Page(
    heading: Option<string>, ogTitle: Option<string>, metaDescription: Option<string>,
    ogDescription: Option<string>, firstParagraph: Option<string>, body: string)

  /** The dictionary `parse_product_page` returns. */
  datatype Parsed = Parsed(
    title: Option<string>, url: string, description: Option<string>,
    category: string, testType: Option<string>, level: Option<string>,
    durationMin: Option<nat>, language: Option<string>, tags: string)

  /** A catalog row, one cell per column. */
  datatype Row = Row(
    url: Cell, title: Cell, description: Cell, category: Cell, testType: Cell,
    level: Cell, durationMin: Cell, language: Cell, tags: Cell, assessmentId: Cell)

  // ---------------------------------------------------------------------
  // Page heuristics
  // ---------------------------------------------------------------------

  const PKeywords: seq<string> := [
    "personality", "behavior", "behaviour", "interpersonal", "communication",
    "situational judgment", "sjq", "sjt"]

  const KKeywords: seq<string> := [
    "knowledge", "skill", "technical", "coding", "programming", "python", "java", "sql",
    "numerical", "verbal", "logical", "cognitive", "aptitude", "automata"]

  /** The level words, in the order they are tried. */
  const Levels: seq<string> := ["graduate", "entry", "junior", "mid", "senior", "manager", "lead"]

  /** The reported level name: "Graduate" for "graduate", the capitalised word otherwise. */
  function LevelName(lvl: string): string
  {
    if lvl == "graduate" then "Graduate" else Capitalize(lvl)
  }

  /** The special case for "graduate" gives what `capitalize()` gives anyway. */
  lemma GraduateCapitalized()
    ensures LevelName("graduate") == Capitalize("graduate")
  {
    assert Lower("raduate") == "raduate";
  }

  /** The first level word of `levels` that occurs in `s` as a whole word, named. */
  function FirstLevel(levels: seq<string>, s: string): Option<string>
    decreases |levels|
  {
    if levels == [] then None
    else if HasWholeWord(s, levels[0]) then Some(LevelName(levels[0]))
    else FirstLevel(levels[1..], s)
  }

  /** Nothing is found exactly when no level word occurs as a whole word. */
  lemma {:induction false} FirstLevelNone(levels: seq<string>, s: string)
    ensures FirstLevel(levels, s).None? <==> forall i :: 0 <= i < |levels| ==> !HasWholeWord(s, levels[i])
    decreases |levels|
  {
    if levels != [] && !HasWholeWord(s, levels[0]) {
      FirstLevelNone(levels[1..], s);
      assert forall i :: 1 <= i < |levels| ==> levels[i] == levels[1..][i - 1];
    }
  }

  /** A found level names the earliest level word of the list that occurs as a whole word. */
  lemma {:induction false} FirstLevelSome(levels: seq<string>, s: string) returns (i: nat)
    requires FirstLevel(levels, s).Some?
    ensures i < |levels| && HasWholeWord(s, levels[i])
    ensures FirstLevel(levels, s).value == LevelName(levels[i])
    ensures forall j :: 0 <= j < i ==> !HasWholeWord(s, levels[j])
    decreases |levels|
  {
    if HasWholeWord(s, levels[0]) {
      i := 0;
    } else {
      var k := FirstLevelSome(levels[1..], s);
      i := k + 1;
      forall j | 0 <= j < i
        ensures !HasWholeWord(s, levels[j])
      {
        if j > 0 {
          assert levels[j] == levels[1..][j - 1];
        }
      }
    }
  }

  // ---------------------------------------------------------------------
  // Title and description
  // ---------------------------------------------------------------------

  /** A `<meta>` content as the source takes it: stripped, when the attribute is present and non-empty. */
  function Content(attr: Option<string>): Option<string>
  {
    if attr.Some? && attr.value != "" then Some(Strip(attr.value)) else None
  }

  /** A `<meta>` tag that yields nothing usable: absent, or all white space. */
  predicate Blank(attr: Option<string>) { attr.None? || Strip(attr.value) == "" }

  /** The heading's text, unless it is missing or empty; then the `og:title` content, if any. */
  function PageTitle(page: Page): Option<string>
  {
    if Falsy(page.heading) && Content(page.ogTitle).Some? then Content(page.ogTitle) else page.heading
  }

  /** The meta description; failing that the `og:description`; failing that the first paragraph. */
  function PageDescription(page: Page): Option<string>
  {
    var fromMeta := Content(page.metaDescription);
    var fromOg := if Falsy(fromMeta) && Content(page.ogDescription).Some? then Content(page.ogDescription) else fromMeta;
    if Falsy(fromOg) && page.firstParagraph.Some? then page.firstParagraph else fromOg
  }

  /**
   * A non-empty heading is the title; otherwise a non-blank `og:title` is;
   * the title is missing or empty exactly when neither gives text.
   */
  lemma TitleChoice(page: Page)
    ensures !Falsy(page.heading) ==> PageTitle(page) == page.heading
    ensures Falsy(page.heading) && !Blank(page.ogTitle) ==> PageTitle(page) == Some(Strip(page.ogTitle.value))
    ensures Falsy(PageTitle(page)) <==> Falsy(page.heading) && Blank(page.ogTitle)
  {
    StripEmptyIffBlank("");
  }

  /**
   * The first non-blank of the meta description and the `og:description`
   * wins, stripped; with neither, the first paragraph; the description is
   * missing or empty exactly when none of the three gives text.
   */
  lemma DescriptionChoice(page: Page)
    ensures !Blank(page.metaDescription) ==> PageDescription(page) == Some(Strip(page.metaDescription.value))
    ensures Blank(page.metaDescription) && !Blank(page.ogDescription) ==>
      PageDescription(page) == Some(Strip(page.ogDescription.value))
    ensures Blank(page.metaDescription) && Blank(page.ogDescription) && page.firstParagraph.Some? ==>
      PageDescription(page) == page.firstParagraph
    ensures Falsy(PageDescription(page)) <==>
      Blank(page.metaDescription) && Blank(page.ogDescription) && Falsy(page.firstParagraph)
  {
    StripEmptyIffBlank("");
  }

  /**
   * What `parse_product_page` returns for a page: the test type is "K" when
   * any knowledge keyword occurs, "P" when only personality keywords do; the
   * level is the first level word present as a whole word; the language is
   * "English" exactly when "english" occurs; category and tags are empty.
   */
  function ProductPage(page: Page, url: string): Parsed
  {
    var low := Lower(page.body);
    var testType := if AnyIn(KKeywords, low) then Some("K") else if AnyIn(PKeywords, low) then Some("P") else None;
    var language := if Contains(low, "english") then Some("English") else None;
    Parsed(PageTitle(page), url, PageDescription(page), "", testType, FirstLevel(Levels, low),
      ParseDuration(page.body), language, "")
  }

  /** The fields of the parsed page, as the heuristics decide them. */
  lemma ProductPageFields(page: Page, url: string)
    ensures var r := ProductPage(page, url);
      r.title == PageTitle(page) && r.url == url && r.description == PageDescription(page)
      && r.category == "" && r.tags == ""
      && r.durationMin == ParseDuration(page.body)
      && r.level == FirstLevel(Levels, Lower(page.body))
    ensures var r := ProductPage(page, url);
      (r.testType == Some("K") <==> AnyIn(KKeywords, Lower(page.body)))
      && (r.testType == Some("P") <==> AnyIn(PKeywords, Lower(page.body)) && !AnyIn(KKeywords, Lower(page.body)))
      && (r.testType.None? <==> !AnyIn(PKeywords, Lower(page.body)) && !AnyIn(KKeywords, Lower(page.body)))
    ensures var r := ProductPage(page, url);
      (r.language == Some("English") <==> Contains(Lower(page.body), "english"))
      && (r.language.None? <==> !Contains(Lower(page.body), "english"))
  {
  }

  /** The title section of `parse_product_page`: the heading, replaced by `og:title` when it gives nothing. */
  method ChooseTitle(page: Page) returns (title: Option<string>)
    ensures title == PageTitle(page)
  {
    title := page.heading;
    if Falsy(title) && page.ogTitle.Some? && page.ogTitle.value != "" {
      title := Some(Strip(page.ogTitle.value));
    }
  }

  /** The description section of `parse_product_page`: each later source is tried only while nothing usable is set. */
  method ChooseDescription(page: Page) returns (desc: Option<string>)
    ensures desc == PageDescription(page)
  {
    desc := None;
    if page.metaDescription.Some? && page.metaDescription.value != "" {
      desc := Some(Strip(page.metaDescription.value));
    }
    if Falsy(desc) && page.ogDescription.Some? && page.ogDescription.value != "" {
      desc := Some(Strip(page.ogDescription.value));
    }
    if Falsy(desc) && page.firstParagraph.Some? {
      desc := page.firstParagraph;
    }
  }

  /**
   * `parse_product_page` on an extracted page: the test type is set to "P"
   * and then overwritten by "K"; the level loop stops at the first hit.
   */
  method ParseProductPage(page: Page, url: string) returns (r: Parsed)
    ensures r == ProductPage(page, url)
  {
    var title := ChooseTitle(page);
    var desc := ChooseDescription(page);

    var bodyLow := Lower(page.body);

    var testType: Option<string> := None;
    var personality := AnyKeyword(PKeywords, bodyLow);
    if personality {
      testType := Some("P");
    }
    var knowledge := AnyKeyword(KKeywords, bodyLow);
    if knowledge {
      testType := Some("K");
    }

    var durationMin := ParseDurationMinutes(page.body);

    var level: Option<string> := None;
    var i := 0;
    while i < |Levels|
      invariant 0 <= i <= |Levels|
      invariant level.None? && FirstLevel(Levels, bodyLow) == FirstLevel(Levels[i..], bodyLow)
    {
      if HasWholeWord(bodyLow, Levels[i]) {
        level := Some(LevelName(Levels[i]));
        break;
      }
      assert Levels[i..][1..] == Levels[i + 1..];
      i := i + 1;
    }

    var language := if Contains(bodyLow, "english") then Some("English") else None;
    r := Parsed(title, url, desc, "", testType, level, durationMin, language, "");
  }

  /** "mid" is not found inside "middle": level words must stand alone. */
  lemma MidNotInMiddle()
    ensures !HasWholeWord("middle", "mid")
  {
    forall i | 0 <= i <= |"middle"|
      ensures !WholeWordAt("middle", "mid", i)
    {
      if i == 0 {
        assert IsWordChar("middle"[3]);
      } else if i + 3 <= 6 {
        assert "middle"[i..i + 3] != "mid" by {
          assert "middle"[i..i + 3][0] == "middle"[i];
        }
      }
    }
  }

  // ---------------------------------------------------------------------
  // Missing labelled URLs
  // ---------------------------------------------------------------------

  predicate Present(c: Cell) { !IsNa(c) }

  /** `set(cat["url"].dropna().map(norm_url))` */
  function HaveNorm(catUrls: seq<Cell>): set<string>
  {
    set c | c in catUrls && Present(c) :: NormUrl(c)
  }

  /** `train["relevant_url"].dropna().astype(str)` */
  function TrainUrls(train: seq<Cell>): seq<string>
  {
    Map(PyStr, Filter(Present, train))
  }

  /** The test "not already in the catalog, after normalisation by `norm`". */
  function Lacking(norm: string -> string, have: set<string>): string -> bool
  {
    u => norm(u) !in have
  }

  /** The labelled URLs to fetch, in training-file order. */
  function MissingUrls(catUrls: seq<Cell>, train: seq<Cell>): seq<string>
  {
    Filter(Lacking(NormText, HaveNorm(catUrls)), TrainUrls(train))
  }

  lemma TrainUrlsAppend(train: seq<Cell>, c: Cell)
    ensures TrainUrls(train + [c]) == TrainUrls(train) + (if Present(c) then [PyStr(c)] else [])
  {
    FilterAppend(Present, train, c);
    if Present(c) {
      MapAppend(PyStr, Filter(Present, train), c);
    }
  }

  /** The selection loop of `main`. */
  method SelectMissing(catUrls: seq<Cell>, train: seq<Cell>) returns (need: seq<string>)
    ensures need == MissingUrls(catUrls, train)
  {
    need := SelectLacking(NormText, HaveNorm(catUrls), train);
  }

  /** The loop over the training URLs, against the set `have` of normalised catalog URLs. */
  method SelectLacking(norm: string -> string, have: set<string>, train: seq<Cell>) returns (need: seq<string>)
    ensures need == Filter(Lacking(norm, have), TrainUrls(train))
  {
    need := [];
    var i := 0;
    while i < |train|
      invariant 0 <= i <= |train|
      invariant need == Filter(Lacking(norm, have), TrainUrls(train[..i]))
    {
      SelectStep(norm, have, train, i);
      if Present(train[i]) {
        var u := PyStr(train[i]);
        if norm(u) !in have {
          need := need + [u];
        }
      }
      i := i + 1;
    }
    assert train[..i] == train;
  }

  lemma SelectStep(norm: string -> string, have: set<string>, train: seq<Cell>, i: nat)
    requires i < |train|
    ensures Filter(Lacking(norm, have), TrainUrls(train[..i + 1])) ==
      Filter(Lacking(norm, have), TrainUrls(train[..i]))
      + if Present(train[i]) && norm(PyStr(train[i])) !in have then [PyStr(train[i])] else []
  {
    var before := TrainUrls(train[..i]);
    assert train[..i + 1] == train[..i] + [train[i]];
    TrainUrlsAppend(train[..i], train[i]);
    if Present(train[i]) {
      var u := PyStr(train[i]);
      assert TrainUrls(train[..i + 1]) == before + [u];
      FilterAppend(Lacking(norm, have), before, u);
      assert Lacking(norm, have)(u) == (norm(u) !in have);
    } else {
      assert TrainUrls(train[..i + 1]) == before;
    }
  }

  /** A URL passes the filter exactly when a present training cell reads as it and its normal form is new. */
  lemma LackingMembers(norm: string -> string, have: set<string>, train: seq<Cell>, u: string)
    ensures u in Filter(Lacking(norm, have), TrainUrls(train)) <==>
      (exists c :: c in train && Present(c) && PyStr(c) == u) && norm(u) !in have
  {
    var present := Filter(Present, train);
    FilterMembers(Lacking(norm, have), TrainUrls(train));
    FilterMembers(Present, train);
    if u in TrainUrls(train) {
      var k :| 0 <= k < |present| && PyStr(present[k]) == u;
      assert present[k] in present;
    }
    if exists c :: c in train && Present(c) && PyStr(c) == u {
      var c :| c in train && Present(c) && PyStr(c) == u;
      assert c in present;
      var k :| 0 <= k < |present| && present[k] == c;
      assert TrainUrls(train)[k] == u;
    }
  }

  /**
   * A URL is selected exactly when some present training cell reads as it
   * and its normal form is not the normal form of any present catalog URL.
   */
  lemma MissingUrlsMembers(catUrls: seq<Cell>, train: seq<Cell>, u: string)
    ensures u in MissingUrls(catUrls, train) <==>
      (exists c :: c in train && Present(c) && PyStr(c) == u) && NormText(u) !in HaveNorm(catUrls)
  {
    LackingMembers(NormText, HaveNorm(catUrls), train, u);
  }

  /** A URL whose normal form is already had is never selected. */
  lemma HadNotLacking(norm: string -> string, have: set<string>, train: seq<Cell>, u: string)
    requires norm(u) in have
    ensures u !in Filter(Lacking(norm, have), TrainUrls(train))
  {
    LackingMembers(norm, have, train, u);
  }

  /** A URL the catalog already lists, in any letter case, is never fetched again. */
  lemma ListedNotMissing(catUrls: seq<Cell>, train: seq<Cell>, u: string)
    requires Str(Lower(u)) in catUrls
    ensures u !in MissingUrls(catUrls, train)
  {
    InHave(catUrls, Str(Lower(u)));
    NormIgnoresCase(u);
    HadNotLacking(NormText, HaveNorm(catUrls), train, u);
  }

  lemma InHave(catUrls: seq<Cell>, c: Cell)
    requires c in catUrls && Present(c)
    ensures NormUrl(c) in HaveNorm(catUrls)
  {
  }

  // ---------------------------------------------------------------------
  // Completing a new row
  // ---------------------------------------------------------------------

  /** The title made from the URL path, or "SHL Assessment" when that is empty. */
  function FallbackTitle(u: string): (t: string)
    ensures t != ""
    ensures |t| == |PathOf(u)| || t == "SHL Assessment"
  {
    var t := TitleCase(ReplaceChar(PathOf(u), '-', ' '));
    if t == "" then "SHL Assessment" else t
  }

  /** The id made from the URL path, or "shl-item" when the slug is empty. */
  function AssessmentId(u: string): string
  {
    IdOf(Lower(PathOf(u)))
  }

  /** `re.sub(r"[^a-z0-9]+", "-", path).strip("-") or "shl-item"` */
  function IdOf(path: string): string
  {
    var s := Slug(path);
    if s == "" then "shl-item" else s
  }

  lemma DefaultIdIsSlug()
    ensures IsSlug("shl-item")
  {
    var t := "shl-item";
    assert forall i :: 0 <= i < |t| ==> IsSlugChar(t[i]) || t[i] == '-';
  }

  /** Every id is a non-empty slug. */
  lemma IdIsSlug(u: string)
    ensures AssessmentId(u) != "" && IsSlug(AssessmentId(u))
  {
    SlugIsSlug(Lower(PathOf(u)));
    DefaultIdIsSlug();
  }

  function OptCell(o: Option<string>): Cell
  {
    match o
    case None => Null
    case Some(s) => Str(s)
  }

  function NatCell(o: Option<nat>): Cell
  {
    match o
    case None => Null
    case Some(n) => Num(n as real, ShowNat(n))
  }

  /** The fallbacks `main` applies to the parsed dictionary: the title, then the description. */
  function WithFallbacks(u: string, p: Parsed): Parsed
  {
    var p1 := if Falsy(p.title) then p.(title := Some(FallbackTitle(u))) else p;
    if Falsy(p1.description) then p1.(description := p1.title) else p1
  }

  /** The dictionary as a catalog row, with the id made from `u`. */
  function ToRow(u: string, p: Parsed): Row
  {
    Row(Str(u), OptCell(p.title), OptCell(p.description), Str(p.category), OptCell(p.testType),
      OptCell(p.level), NatCell(p.durationMin), OptCell(p.language), Str(p.tags), Str(AssessmentId(u)))
  }

  /** The row added for a fetched URL. */
  function NewRow(u: string, page: Page): Row
  {
    ToRow(u, WithFallbacks(u, ProductPage(page, u)))
  }

  /**
   * A new row always has a non-empty title, a non-empty description and a
   * non-empty slug as its id; the page's own title and description win when present.
   */
  lemma NewRowFields(u: string, page: Page)
    ensures var row := NewRow(u, page);
      row.url == Str(u) && row.category == Str("") && row.tags == Str("")
      && row.title.Str? && row.title.s != ""
      && (!Falsy(PageTitle(page)) ==> row.title == Str(PageTitle(page).value))
      && (Falsy(PageTitle(page)) ==> row.title == Str(FallbackTitle(u)))
    ensures var row := NewRow(u, page);
      row.description.Str? && row.description.s != ""
      && row.description == if Falsy(PageDescription(page)) then row.title else Str(PageDescription(page).value)
    ensures var row := NewRow(u, page);
      row.assessmentId.Str? && row.assessmentId.s != "" && IsSlug(row.assessmentId.s)
  {
    ProductPageFields(page, u);
    IdIsSlug(u);
  }

  /** The requested URLs whose fetch succeeds, with their pages, in order. */
  function Fetched(need: seq<string>, fetch: string -> Option<Page>): (r: seq<(string, Page)>)
    ensures |r| <= |need|
    decreases |need|
  {
    if need == [] then []
    else
      var init := need[..|need| - 1];
      var u := need[|need| - 1];
      Fetched(init, fetch) + match fetch(u) case None => [] case Some(page) => [(u, page)]
  }

  /** Every fetched pair comes from a requested URL and its successful fetch. */
  lemma {:induction false} FetchedFrom(need: seq<string>, fetch: string -> Option<Page>, k: nat)
    requires k < |Fetched(need, fetch)|
    ensures Fetched(need, fetch)[k].0 in need
    ensures fetch(Fetched(need, fetch)[k].0) == Some(Fetched(need, fetch)[k].1)
    decreases |need|
  {
    var init := need[..|need| - 1];
    if k < |Fetched(init, fetch)| {
      FetchedFrom(init, fetch, k);
    }
  }

  /** When every fetch succeeds, every requested URL is fetched, in the same order. */
  lemma {:induction false} FetchedAll(need: seq<string>, fetch: string -> Option<Page>)
    requires forall i :: 0 <= i < |need| ==> fetch(need[i]).Some?
    ensures |Fetched(need, fetch)| == |need|
    ensures forall i :: 0 <= i < |need| ==> Fetched(need, fetch)[i].0 == need[i]
    decreases |need|
  {
    if need != [] {
      var init := need[..|need| - 1];
      FetchedAll(init, fetch);
    }
  }

  function NewRowOf(x: (string, Page)): Row { NewRow(x.0, x.1) }

  /** The rows added for `need`: one per URL whose fetch succeeds, in order. */
  function NewRows(need: seq<string>, fetch: string -> Option<Page>): seq<Row>
  {
    Map(NewRowOf, Fetched(need, fetch))
  }

  /** The fetch loop of `main`: parse, fill in the fallbacks on the dictionary, then append. */
  method FetchRows(need: seq<string>, fetch: string -> Option<Page>) returns (rows: seq<Row>)
    ensures rows == NewRows(need, fetch)
  {
    rows := [];
    var i := 0;
    while i < |need|
      invariant 0 <= i <= |need|
      invariant rows == Map(NewRowOf, Fetched(need[..i], fetch))
    {
      var u := need[i];
      assert need[..i + 1][..i] == need[..i];
      match fetch(u) {
        case None =>
        case Some(page) =>
          var p := ParseProductPage(page, u);
          if Falsy(p.title) {
            p := p.(title := Some(FallbackTitle(u)));
          }
          if Falsy(p.description) {
            p := p.(description := p.title);
          }
          MapAppend(NewRowOf, Fetched(need[..i], fetch), (u, page));
          rows := rows + [ToRow(u, p)];
      }
      i := i + 1;
    }
    assert need[..i] == need;
  }

  // ---------------------------------------------------------------------
  // Merge
  // ---------------------------------------------------------------------

  function RowUrl(r: Row): Cell { r.url }

  /**
   * The catalog written out: nothing when no row was added; otherwise the
   * existing rows followed by the new ones, keeping the first row per URL.
   */
  function Merged(cat: seq<Row>, added: seq<Row>): Option<seq<Row>>
  {
    if added == [] then None else Some(DedupBy(RowUrl, cat + added))
  }

  /**
   * The merge keeps the deduplicated catalog as its front, adds only rows
   * with URLs the catalog lacks, loses no URL and lists each URL once.
   */
  lemma MergedProperties(cat: seq<Row>, added: seq<Row>)
    requires added != []
    ensures DedupBy(RowUrl, cat) <= Merged(cat, added).value
    ensures forall i :: |DedupBy(RowUrl, cat)| <= i < |Merged(cat, added).value| ==>
      Merged(cat, added).value[i].url !in Keys(RowUrl, cat)
    ensures Keys(RowUrl, Merged(cat, added).value) == Keys(RowUrl, cat + added)
    ensures DistinctKeys(RowUrl, Merged(cat, added).value)
  {
    DedupByConcat(RowUrl, cat, added);
    DedupByKeys(RowUrl, cat + added);
  }

  /**
   * `main` after reading the two files: select the missing URLs, fetch and
   * complete them, and merge; nothing is written when no row was added.
   */
  method AugmentCatalog(cat: seq<Row>, train: seq<Cell>, fetch: string -> Option<Page>)
    returns (out: Option<seq<Row>>)
    ensures out == Merged(cat, NewRows(MissingUrls(Map(RowUrl, cat), train), fetch))
  {
    var need := SelectMissing(Map(RowUrl, cat), train);
    var added := FetchRows(need, fetch);
    if added != [] {
      out := Some(DedupBy(RowUrl, cat + added));
    } else {
      out := None;
    }
  }
}
