/**
 * The catalog crawler: which links of the catalog page are product links,
 * the text heuristics applied to a product page, and the crawl loop that
 * visits each product URL once and keeps individual tests only.
 *
 * HTML parsing is not modelled: a catalog page arrives as its anchors, a
 * product page as the texts the selectors pick out. `urljoin(BASE, href)`
 * and fetching are parameters.
 */
module Crawler {
  import opened Wrappers
  import opened Text
  import opened Seqs
  import opened Urls
  import opened DurationRegex
  import opened DurationParse
  import opened Keywords

  // ---------------------------------------------------------------------
  // Pre-packaged job solutions
  // ---------------------------------------------------------------------

  /** `is_prepackaged(name)`: a missing name reads as the empty one. */
  predicate IsPrepackaged(name: Option<string>)
  {
    var low := Lower(if name.Some? then name.value else "");
    Contains(low, "pre-packaged") || Contains(low, "prepackaged")
    || Contains(low, "job solution") || Contains(low, "solution:")
  }

  /** Neither a missing nor an empty name is pre-packaged. */
  lemma PrepackagedEmpty()
    ensures !IsPrepackaged(None) && !IsPrepackaged(Some(""))
  {
    assert Lower("") == "";
    ContainsNone("", "pre-packaged");
    ContainsNone("", "prepackaged");
    ContainsNone("", "job solution");
    ContainsNone("", "solution:");
  }

  /** Letter case does not matter. */
  lemma PrepackagedIgnoresCase(name: string)
    ensures IsPrepackaged(Some(Lower(name))) == IsPrepackaged(Some(name))
  {
    LowerIdempotent(name);
  }

  lemma LowerConcat3(a: string, b: string, c: string)
    ensures Lower(a + b + c) == Lower(a) + Lower(b) + Lower(c)
  {
  }

  /** A name stays pre-packaged whatever is written around it. */
  lemma PrepackagedExtend(before: string, name: string, after: string)
    requires IsPrepackaged(Some(name))
    ensures IsPrepackaged(Some(before + name + after))
  {
    var low := Lower(name);
    LowerConcat3(before, name, after);
    assert Lower(before + name + after) == Lower(before) + low + Lower(after);
    if Contains(low, "pre-packaged") {
      ContainsExtend(low, "pre-packaged", Lower(before), Lower(after));
    } else if Contains(low, "prepackaged") {
      ContainsExtend(low, "prepackaged", Lower(before), Lower(after));
    } else if Contains(low, "job solution") {
      ContainsExtend(low, "job solution", Lower(before), Lower(after));
    } else {
      ContainsExtend(low, "solution:", Lower(before), Lower(after));
    }
  }

  // ---------------------------------------------------------------------
  // The catalog page
  // ---------------------------------------------------------------------

  /** An `<a href>` of the catalog page: the raw `href` and the stripped link text. */
  datatype Anchor = Anchor(href: string, text: string)

  /** A product link found on the catalog page. */
  datatype Item = Item(title: string, url: string)

  function ItemUrl(it: Item): string { it.url }

  /** The product-path test on the absolute URL. */
  predicate IsProductUrl(u: string)
  {
    Contains(u, "/products/") || Contains(u, "/solutions/products/")
  }

  /** The second alternative of the product-path test adds nothing: it contains the first. */
  lemma ProductUrlIff(u: string)
    ensures IsProductUrl(u) <==> Contains(u, "/products/")
  {
    if Contains(u, "/solutions/products/") {
      var i := ContainsWitness(u, "/solutions/products/");
      assert u[i + 10..i + 20] == "/solutions/products/"[10..];
      ContainsAt(u, "/products/", i + 10);
    }
  }

  /**
   * What one anchor contributes to `items`: nothing for an empty `href`, a
   * non-product URL or a title under three characters; otherwise the title
   * and the absolute URL. `join` is `urljoin(BASE, ·)`.
   */
  function Candidate(join: string -> string, a: Anchor): Option<Item>
  {
    var href := Strip(a.href);
    if href == "" then None
    else if IsProductUrl(join(href)) && |a.text| >= 3 then Some(Item(a.text, join(href)))
    else None
  }

  function CandidateOf(join: string -> string): Anchor -> Option<Item>
  {
    a => Candidate(join, a)
  }

  /** The links `parse_catalog_list` returns: product links, the first of each URL, in page order. */
  function CatalogList(join: string -> string, anchors: seq<Anchor>): seq<Item>
  {
    DedupBy(ItemUrl, FilterMap(CandidateOf(join), anchors))
  }

  /** `parse_catalog_list`: the anchor loop, then the `seen`-set loop. */
  method ParseCatalogList(join: string -> string, anchors: seq<Anchor>) returns (uniq: seq<Item>)
    ensures uniq == CatalogList(join, anchors)
  {
    var items: seq<Item> := [];
    var i := 0;
    while i < |anchors|
      invariant 0 <= i <= |anchors|
      invariant items == FilterMap(CandidateOf(join), anchors[..i])
    {
      var a := anchors[i];
      CandidateStep(join, anchors, i);
      i := i + 1;
      var href := Strip(a.href);
      if href == "" {
        continue;
      }
      var absUrl := join(href);
      if IsProductUrl(absUrl) {
        var title := a.text;
        if |title| < 3 {
          continue;
        }
        items := items + [Item(title, absUrl)];
      }
    }
    assert anchors[..i] == anchors;
    uniq := DedupUrls(items);
  }

  /** One anchor of the loop adds its candidate, if it has one. */
  lemma CandidateStep(join: string -> string, anchors: seq<Anchor>, i: nat)
    requires i < |anchors|
    ensures FilterMap(CandidateOf(join), anchors[..i + 1]) ==
      FilterMap(CandidateOf(join), anchors[..i]) +
      match Candidate(join, anchors[i]) case None => [] case Some(it) => [it]
  {
    assert anchors[..i + 1] == anchors[..i] + [anchors[i]];
    FilterMapAppend(CandidateOf(join), anchors[..i], anchors[i]);
    assert CandidateOf(join)(anchors[i]) == Candidate(join, anchors[i]);
  }

  /** The `seen`-set loop: keep an item when its URL has not been seen. */
  method DedupUrls(items: seq<Item>) returns (uniq: seq<Item>)
    ensures uniq == DedupBy(ItemUrl, items)
  {
    uniq := [];
    var seen: set<string> := {};
    var i := 0;
    while i < |items|
      invariant DedupState(ItemUrl, items, i, seen, uniq)
    {
      var it := items[i];
      if it.url !in seen {
        DedupStateNew(ItemUrl, items, i, seen, uniq);
        uniq := uniq + [it];
        seen := seen + {it.url};
      } else {
        DedupStateKnown(ItemUrl, items, i, seen, uniq);
      }
      i := i + 1;
    }
    DedupStateDone(ItemUrl, items, seen, uniq);
  }

  /**
   * Every returned link is a product link with a title of at least three
   * characters, made from a non-empty `href` of some anchor.
   */
  lemma CatalogListItems(join: string -> string, anchors: seq<Anchor>, k: nat)
    requires k < |CatalogList(join, anchors)|
    ensures var it := CatalogList(join, anchors)[k];
      |it.title| >= 3 && Contains(it.url, "/products/")
      && exists a :: a in anchors && Strip(a.href) != "" && join(Strip(a.href)) == it.url && a.text == it.title
  {
    var items := FilterMap(CandidateOf(join), anchors);
    var it := CatalogList(join, anchors)[k];
    assert it in multiset(items);
    var m :| 0 <= m < |items| && items[m] == it;
    var i := FilterMapFrom(CandidateOf(join), anchors, m);
    var a := anchors[i];
    assert Candidate(join, a) == Some(it);
    ProductUrlIff(it.url);
  }

  /**
   * An anchor with a non-empty `href`, a product URL and a title of three or
   * more characters is not lost: some returned link has its URL.
   */
  lemma CatalogListKeepsProducts(join: string -> string, anchors: seq<Anchor>, i: nat)
    requires i < |anchors| && Strip(anchors[i].href) != ""
    requires Contains(join(Strip(anchors[i].href)), "/products/") && |anchors[i].text| >= 3
    ensures join(Strip(anchors[i].href)) in Keys(ItemUrl, CatalogList(join, anchors))
  {
    var items := FilterMap(CandidateOf(join), anchors);
    ProductUrlIff(join(Strip(anchors[i].href)));
    assert CandidateOf(join)(anchors[i]) == Candidate(join, anchors[i]);
    FilterMapHas(CandidateOf(join), anchors, i);
    var it := Candidate(join, anchors[i]).value;
    assert ItemUrl(it) in Keys(ItemUrl, items);
    DedupByKeys(ItemUrl, items);
  }

  /**
   * No URL is returned twice, and the result is the product-link list with
   * later repeats left out, order kept.
   */
  lemma CatalogListUnique(join: string -> string, anchors: seq<Anchor>)
    ensures DistinctKeys(ItemUrl, CatalogList(join, anchors))
    ensures SubsequenceOf(CatalogList(join, anchors), FilterMap(CandidateOf(join), anchors))
  {
    var items := FilterMap(CandidateOf(join), anchors);
    DedupByKeys(ItemUrl, items);
    var idx := DedupBySubsequence(ItemUrl, items);
  }

  // ---------------------------------------------------------------------
  // A product page
  // ---------------------------------------------------------------------

  /**
   * What the selectors of `parse_product_page` find: the stripped text of
   * the first `h1`/`h2`, the `content` of the description `<meta>`, the
   * text of the first `<p>`, the stripped texts of the tag, badge and label
   * elements and of the breadcrumb links, and the page text.
   */
  datatype ProductHtml = ProductHtml(
    heading: Option<string>, metaContent: Option<string>, firstParagraph: Option<string>,
    badges: seq<string>, crumbs: seq<string>, text: string)

  /** The dictionary `parse_product_page` returns. */
  datatype Product = Product(
    title: Option<string>, url: string, description: Option<string>,
    category: Option<string>, testType: Option<string>, level: Option<string>,
    durationMin: Option<nat>, language: Option<string>, tags: Option<string>)

  const PersonalityWords: seq<string> := ["personality", "behavior", "behaviour", "openness", "conscientiousness"]

  const KnowledgeWords: seq<string> := [
    "knowledge", "skill", "technical", "coding", "numerical", "verbal", "logical", "cognitive", "aptitude"]

  /** The level words, in the order they are tried. */
  const LevelWords: seq<string> := ["entry", "graduate", "junior", "mid", "senior", "manager", "lead"]

  predicate NonEmpty(s: string) { s != "" }

  /** The `<meta>` description when it is non-empty, stripped; else the first paragraph, if any. */
  function Description(h: ProductHtml): Option<string>
  {
    var fromMeta := if h.metaContent.Some? && h.metaContent.value != "" then Some(Strip(h.metaContent.value)) else None;
    if Falsy(fromMeta) && h.firstParagraph.Some? then h.firstParagraph else fromMeta
  }

  /**
   * The meta description wins unless it strips to nothing; then the first
   * paragraph; a blank meta description with no paragraph leaves "".
   */
  lemma DescriptionChoice(h: ProductHtml)
    ensures h.metaContent.Some? && Strip(h.metaContent.value) != "" ==>
      Description(h) == Some(Strip(h.metaContent.value))
    ensures (h.metaContent.None? || Strip(h.metaContent.value) == "") && h.firstParagraph.Some? ==>
      Description(h) == h.firstParagraph
    ensures h.firstParagraph.None? ==>
      Description(h) == if h.metaContent.Some? && h.metaContent.value != "" then Some(Strip(h.metaContent.value)) else None
  {
    if h.metaContent.Some? && h.metaContent.value == "" {
      StripEmptyIffBlank("");
    }
  }

  /** The first level word of `levels` that occurs in `s`, capitalised. */
  function FirstSubstring(levels: seq<string>, s: string): Option<string>
    decreases |levels|
  {
    if levels == [] then None
    else if Contains(s, levels[0]) then Some(Capitalize(levels[0]))
    else FirstSubstring(levels[1..], s)
  }

  /** Nothing is found exactly when no level word occurs. */
  lemma {:induction false} FirstSubstringNone(levels: seq<string>, s: string)
    ensures FirstSubstring(levels, s).None? <==> forall i :: 0 <= i < |levels| ==> !Contains(s, levels[i])
    decreases |levels|
  {
    if levels != [] && !Contains(s, levels[0]) {
      FirstSubstringNone(levels[1..], s);
      assert forall i :: 1 <= i < |levels| ==> levels[i] == levels[1..][i - 1];
    }
  }

  /** A found level is the capitalised earliest word of the list that occurs. */
  lemma {:induction false} FirstSubstringSome(levels: seq<string>, s: string) returns (i: nat)
    requires FirstSubstring(levels, s).Some?
    ensures i < |levels| && Contains(s, levels[i])
    ensures FirstSubstring(levels, s).value == Capitalize(levels[i])
    ensures forall j :: 0 <= j < i ==> !Contains(s, levels[j])
    decreases |levels|
  {
    if Contains(s, levels[0]) {
      i := 0;
    } else {
      var k := FirstSubstringSome(levels[1..], s);
      i := k + 1;
      forall j | 0 <= j < i
        ensures !Contains(s, levels[j])
      {
        if j > 0 {
          assert levels[j] == levels[1..][j - 1];
        }
      }
    }
  }

  /** The substring scan finds "mid" inside "middle": the crawler reports level "Mid". */
  lemma MiddleIsMid()
    ensures FirstSubstring(LevelWords, "middle") == Some("Mid")
  {
    var s := "middle";
    ContainsNone(s[2..], "entry");
    assert !("entry" <= s[1..]) by { assert s[1..][0] != 'e'; }
    assert !("entry" <= s) by { assert s[0] != 'e'; }
    assert !Contains(s, "entry");
    ContainsNone(s, "graduate");
    ContainsNone(s[1..], "junior");
    assert !("junior" <= s) by { assert s[0] != 'j'; }
    assert !Contains(s, "junior");
    assert "mid" <= s;
    assert Contains(s, "mid");
    var rest := ["mid", "senior", "manager", "lead"];
    assert LevelWords[0] == "entry" && LevelWords[1..][0] == "graduate" && LevelWords[1..][1..][0] == "junior";
    assert LevelWords[1..][1..][1..] == rest;
    assert FirstSubstring(rest, s) == Some(Capitalize("mid"));
    assert FirstSubstring(LevelWords[1..][1..], s) == FirstSubstring(rest, s);
    assert FirstSubstring(LevelWords[1..], s) == FirstSubstring(LevelWords[1..][1..], s);
    assert FirstSubstring(LevelWords, s) == FirstSubstring(LevelWords[1..], s);
    assert Lower("id") == "id";
    assert UpperChar('m') == 'M';
    assert Capitalize("mid") == "Mid";
  }

  /** `(\d{1,3})\s*(minutes|min)\b` searched in the lower-cased page text. */
  function Minutes(low: string): Option<nat>
  {
    match Search(MinuteSingle, low)
    case None => None
    case Some(m) => Some(m.value)
  }

  /** A duration has at most three digits. */
  lemma MinutesBound(low: string)
    ensures Minutes(low).Some? ==> Minutes(low).value < 1000
  {
    if Search(MinuteSingle, low).Some? {
      SearchBound(MinuteSingle, low);
    }
  }

  /** `sep.join(texts)` over the non-empty texts, or nothing when there are none. */
  function JoinNonEmpty(texts: seq<string>, sep: string): Option<string>
  {
    var kept := Filter(NonEmpty, texts);
    if kept == [] then None else Some(Join(kept, sep))
  }

  lemma JoinKeepsFirst(ws: seq<string>, sep: string)
    requires ws != [] && ws[0] != ""
    ensures Join(ws, sep) != "" && ws[0] <= Join(ws, sep)
  {
  }

  /** Something is joined exactly when some text is non-empty, and the join is then non-empty. */
  lemma JoinNonEmptyIff(texts: seq<string>, sep: string)
    ensures JoinNonEmpty(texts, sep).Some? <==> exists i :: 0 <= i < |texts| && texts[i] != ""
    ensures JoinNonEmpty(texts, sep).Some? ==> JoinNonEmpty(texts, sep).value != ""
  {
    var kept := Filter(NonEmpty, texts);
    FilterMembers(NonEmpty, texts);
    if exists i :: 0 <= i < |texts| && texts[i] != "" {
      var i :| 0 <= i < |texts| && texts[i] != "";
      assert texts[i] in kept;
    }
    if kept != [] {
      JoinKeepsFirst(kept, sep);
    }
  }

  /** What `parse_product_page` extracts from a page fetched from `url`. */
  function CrawlProduct(h: ProductHtml, url: string): Product
  {
    var low := Lower(h.text);
    var testType :=
      if AnyIn(PersonalityWords, low) then Some("P")
      else if AnyIn(KnowledgeWords, low) then Some("K")
      else None;
    var language := if Contains(low, "english") then Some("English") else None;
    Product(h.heading, url, Description(h), JoinNonEmpty(h.crumbs, " > "), testType,
      FirstSubstring(LevelWords, low), Minutes(low), language, JoinNonEmpty(h.badges, ";"))
  }

  /**
   * Personality words win over knowledge words; the language is "English"
   * exactly when "english" occurs; the level is the first level word found.
   */
  lemma CrawlProductFields(h: ProductHtml, url: string)
    ensures var r := CrawlProduct(h, url); var low := Lower(h.text);
      r.title == h.heading && r.url == url
      && (r.testType == Some("P") <==> AnyIn(PersonalityWords, low))
      && (r.testType == Some("K") <==> !AnyIn(PersonalityWords, low) && AnyIn(KnowledgeWords, low))
      && (r.testType.None? <==> !AnyIn(PersonalityWords, low) && !AnyIn(KnowledgeWords, low))
    ensures var r := CrawlProduct(h, url); var low := Lower(h.text);
      (r.language == Some("English") <==> Contains(low, "english"))
      && (r.language.None? <==> !Contains(low, "english"))
      && r.level == FirstSubstring(LevelWords, low)
      && (r.durationMin.Some? ==> r.durationMin.value < 1000)
  {
    MinutesBound(Lower(h.text));
  }

  /**
   * `parse_product_page` on an extracted page: the test type by if/elif,
   * the duration search, and the level loop that stops at the first hit.
   */
  method ParseProductPage(h: ProductHtml, url: string) returns (r: Product)
    ensures r == CrawlProduct(h, url)
  {
    var desc: Option<string> := None;
    if h.metaContent.Some? && h.metaContent.value != "" {
      desc := Some(Strip(h.metaContent.value));
    }
    if Falsy(desc) {
      if h.firstParagraph.Some? {
        desc := h.firstParagraph;
      }
    }

    var bodyText := Lower(h.text);

    var testType: Option<string> := None;
    var personality := AnyKeyword(PersonalityWords, bodyText);
    if personality {
      testType := Some("P");
    } else {
      var knowledge := AnyKeyword(KnowledgeWords, bodyText);
      if knowledge {
        testType := Some("K");
      }
    }

    var durationMin := Minutes(bodyText);

    var language: Option<string> := None;
    if Contains(bodyText, "english") {
      language := Some("English");
    }

    var level: Option<string> := None;
    var i := 0;
    while i < |LevelWords|
      invariant 0 <= i <= |LevelWords|
      invariant level.None? && FirstSubstring(LevelWords, bodyText) == FirstSubstring(LevelWords[i..], bodyText)
    {
      if Contains(bodyText, LevelWords[i]) {
        level := Some(Capitalize(LevelWords[i]));
        break;
      }
      assert LevelWords[i..][1..] == LevelWords[i + 1..];
      i := i + 1;
    }

    var category := JoinNonEmpty(h.crumbs, " > ");
    var tags := JoinNonEmpty(h.badges, ";");
    r := Product(h.heading, url, desc, category, testType, level, durationMin, language, tags);
  }

  // ---------------------------------------------------------------------
  // The crawl
  // ---------------------------------------------------------------------

  /** A row of the crawled catalog, in the written column order. */
  datatype Record = Record(
    assessmentId: string, title: string, url: string, description: Option<string>,
    category: Option<string>, testType: Option<string>, level: Option<string>,
    durationMin: Option<nat>, language: Option<string>, tags: Option<string>)

  function RecordUrl(r: Record): string { r.url }

  /** The id made from the URL path: lower-cased, runs of other characters as '-', no '-' at the ends. */
  function CrawlId(u: string): string
  {
    Slug(Lower(PathOf(u)))
  }

  /** The record kept for a parsed page, or nothing when its title is empty or pre-packaged. */
  function Keep(it: Item, pr: Product): Option<Record>
  {
    var title := if Falsy(pr.title) then it.title else pr.title.value;
    if title == "" || IsPrepackaged(Some(title)) then None
    else Some(Record(CrawlId(it.url), title, pr.url, pr.description, pr.category, pr.testType,
      pr.level, pr.durationMin, pr.language, pr.tags))
  }

  /** One visit of `main`: fetch (nothing when it raises), parse, then keep or skip. */
  function Visit(fetch: string -> Option<ProductHtml>, it: Item): Option<Record>
  {
    match fetch(it.url)
    case None => None
    case Some(h) => Keep(it, CrawlProduct(h, it.url))
  }

  function Visitor(fetch: string -> Option<ProductHtml>): Item -> Option<Record>
  {
    it => Visit(fetch, it)
  }

  /** The records `main` collects: one visit per distinct candidate URL, in order. */
  function Crawl(fetch: string -> Option<ProductHtml>, candidates: seq<Item>): seq<Record>
  {
    FilterMap(Visitor(fetch), DedupBy(ItemUrl, candidates))
  }

  /** The loop of `main`, with its `seen_urls` set. */
  method CrawlCatalog(fetch: string -> Option<ProductHtml>, candidates: seq<Item>) returns (records: seq<Record>)
    ensures records == Crawl(fetch, candidates)
  {
    records := [];
    var seenUrls: set<string> := {};
    var i := 0;
    while i < |candidates|
      invariant 0 <= i <= |candidates|
      invariant seenUrls == Keys(ItemUrl, candidates[..i])
      invariant records == FilterMap(Visitor(fetch), DedupBy(ItemUrl, candidates[..i]))
    {
      var it := candidates[i];
      var url := it.url;
      DedupFilterMapStep(ItemUrl, Visitor(fetch), candidates, i);
      i := i + 1;
      if url in seenUrls {
        continue;
      }
      seenUrls := seenUrls + {url};
      var record := VisitOnce(fetch, it);
      if record.Some? {
        records := records + [record.value];
      }
    }
    assert candidates[..i] == candidates;
  }

  /**
   * The body of the loop for one new URL: fetch and parse the page, take the
   * link title when the page has none, skip an empty or pre-packaged title,
   * and make the id.
   */
  method VisitOnce(fetch: string -> Option<ProductHtml>, it: Item) returns (record: Option<Record>)
    ensures record == Visitor(fetch)(it)
  {
    var url := it.url;
    record := None;
    match fetch(url) {
      case None =>
      case Some(h) =>
        var pr := ParseProductPage(h, url);
        var title := if Falsy(pr.title) then it.title else pr.title.value;
        if title == "" || IsPrepackaged(Some(title)) {
          return;
        }
        var id := CrawlId(url);
        record := Some(Record(id, title, pr.url, pr.description, pr.category, pr.testType,
          pr.level, pr.durationMin, pr.language, pr.tags));
    }
  }

  /**
   * A kept record has the URL it was fetched from, the page heading or else
   * the link title as a non-empty, not pre-packaged title, and a slug id.
   */
  lemma VisitFields(fetch: string -> Option<ProductHtml>, it: Item)
    requires Visit(fetch, it).Some?
    ensures var r := Visit(fetch, it).value; var h := fetch(it.url).value;
      fetch(it.url).Some? && r.url == it.url
      && r.title != "" && !IsPrepackaged(Some(r.title))
      && r.title == (if Falsy(h.heading) then it.title else h.heading.value)
      && IsSlug(r.assessmentId)
  {
    SlugIsSlug(Lower(PathOf(it.url)));
  }

  /** A visit keeps the item's URL. */
  lemma VisitUrl(fetch: string -> Option<ProductHtml>, it: Item)
    requires Visit(fetch, it).Some?
    ensures Visit(fetch, it).value.url == it.url
  {
    var h := fetch(it.url).value;
    assert CrawlProduct(h, it.url).url == it.url;
  }

  /**
   * Every URL is visited at most once, so no two records share a URL and the
   * final `drop_duplicates(subset=["url"])` removes nothing.
   */
  lemma CrawlUnique(fetch: string -> Option<ProductHtml>, candidates: seq<Item>)
    ensures DistinctKeys(RecordUrl, Crawl(fetch, candidates))
    ensures DedupBy(RecordUrl, Crawl(fetch, candidates)) == Crawl(fetch, candidates)
  {
    var visited := DedupBy(ItemUrl, candidates);
    DedupByKeys(ItemUrl, candidates);
    forall i | 0 <= i < |visited| && Visitor(fetch)(visited[i]).Some?
      ensures RecordUrl(Visitor(fetch)(visited[i]).value) == ItemUrl(visited[i])
    {
      VisitUrl(fetch, visited[i]);
    }
    FilterMapDistinct(Visitor(fetch), visited, ItemUrl, RecordUrl);
    DedupByDistinct(RecordUrl, Crawl(fetch, candidates));
  }

  /** Every record comes from a candidate link whose page was fetched, and keeps an acceptable title. */
  lemma CrawlFrom(fetch: string -> Option<ProductHtml>, candidates: seq<Item>, k: nat)
    requires k < |Crawl(fetch, candidates)|
    ensures var r := Crawl(fetch, candidates)[k];
      r.title != "" && !IsPrepackaged(Some(r.title)) && IsSlug(r.assessmentId)
      && exists it :: it in candidates && it.url == r.url && fetch(it.url).Some?
  {
    var visited := DedupBy(ItemUrl, candidates);
    var i := FilterMapFrom(Visitor(fetch), visited, k);
    var it := visited[i];
    assert Visitor(fetch)(it) == Visit(fetch, it);
    VisitFields(fetch, it);
    assert it in multiset(candidates);
  }

  /** Crawling the deduplicated catalog list visits every listed link: the second dedup changes nothing. */
  lemma CrawlCatalogList(fetch: string -> Option<ProductHtml>, join: string -> string, anchors: seq<Anchor>)
    ensures Crawl(fetch, CatalogList(join, anchors)) == FilterMap(Visitor(fetch), CatalogList(join, anchors))
  {
    CatalogListUnique(join, anchors);
    DedupByDistinct(ItemUrl, CatalogList(join, anchors));
  }
}
