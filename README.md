# SHL assessment recommender — a Dafny model

The repository builds a small retrieval-augmented recommender over the SHL
product catalogue. It has these parts:

- A crawler collects the individual-test product pages into a catalogue.
- An augmentation step adds labelled URLs that are missing from the catalogue.
- An indexer turns each catalogue row into a text document for embedding.
- A FastAPI service answers queries. It gates the retrieved pool on strong
  keywords, reranks it by similarity fused with how well the duration fits,
  and returns the top K.
- An evaluation script computes Recall@K against labelled queries.
- A submission writer pairs each test query with its retrieved URLs.
- A Streamlit front end selects the columns to show and renders links.

This project models the logic of those programs as Dafny functions, methods
and one class, and proves what each promises.

Modules:

- `Wrappers`, `Cells`, `Text`, `Seqs`, `Keywords` are shared vocabulary:
  - Option and Result;
  - pandas cell values (missing, NaN, text, number);
  - ASCII `str.lower`, `str.strip` and `str.capitalize`, substring tests, digit strings;
  - filtering, mapping, and keyed deduplication in first-appearance order (`drop_duplicates(subset=...)` and the `seen`-set loops);
  - `any(k in s for k in ks)` and whole-word `\b…\b` search.
- `DurationRegex` implements the fixed duration regular expressions as a scanner. `SearchLeftmost` proves that the scanner's `Search` agrees with the first position where `MatchAt` succeeds.
- `Urls` holds URL normalisation (`norm_url` / `norm`), `urlparse(...).path` (with the `;` parameters of the last segment split off), and the slug used for assessment ids.
- `Crawler` models `src/shl_catalog_crawler.py`.
- `DurationParse` and `Augment` model `src/augment_catalog.py`.
- `Indexer` models `src/indexer.py`. Its data frame is a class whose methods update columns and rows in place.
- `QueryConstraints` and `Rerank` model `src/api_fastapi.py`.
- `Evaluate` models `src/evaluate.py`.
- `Submission` models `src/generate_submission.py`.
- `StreamlitApp` models the pure helpers of `src/app_streamlit.py`.

The network, the HTML parser, `urljoin`, the retriever and the embedding
model are parameters of the operations that use them:

- a fetch is a function returning an optional extracted page;
- a search is a function from a query and a count to result rows;
- `urljoin(BASE, ·)` is a function on strings.

Where a loop of the source builds a list, dictionary or frame step by step,
the model is a method with that loop. It is proved equal to a specification
function, and the properties are lemmas about that function.

## Model

| member | source | states |
|---|---|---|
| Urls.AuthorityAndPath | src/evaluate.py:12-13 | netloc plus path of `"https://" + u` with trailing slashes removed: a prefix of `u` with its tabs, CRs and LFs deleted, that covers the whole authority, contains no `?` or `#`, and does not end in `/` |
| Urls.DropParams | src/augment_catalog.py:33-34 | `urlparse` splits the parameters off the path: the result is the path up to the first `;` of its last segment, and it is the whole path exactly when that segment has no `;` |
| Urls.UrlPathOf | src/augment_catalog.py:162 | on a URL `scheme://host/path?…`, `urlparse(u).path` is the path without its last segment's parameters when the scheme is one of `uses_params`, and the whole path otherwise |
| Urls.WebSchemes | src/augment_catalog.py:33 | `https` and `http` are schemes whose paths carry parameters |
| Urls.NormTextShape | src/augment_catalog.py:28-34 | a normalised URL is lower-case, has no query or fragment, no tab, CR or LF, and no trailing `/` |
| Urls.NormIgnoresCase | src/augment_catalog.py:31 | normalisation gives the same result for any letter case of the input |
| Urls.NormFixpoint | src/augment_catalog.py:28-34 | a text already in normal form (lower-case, stripped, no web scheme, no `?`/`#`, no tab, CR or LF, no `;` after its last `/`, no trailing `/`) normalises to itself |
| Urls.NormIdempotent | src/evaluate.py:8-13 | normalising twice equals normalising once, whenever the first result is stripped, does not start with a web scheme and has no `;` after its last `/` |
| Urls.NormNotIdempotent | src/augment_catalog.py:33-34 | without that last condition normalising twice can differ: `shl.com/a;x/` normalises to `shl.com/a;x`, and that to `shl.com/a` |
| Urls.NormDropsScheme | src/augment_catalog.py:32 | a leading `http://` or `https://` makes no difference to the normal form |
| Urls.NormDropsSchemeAndWww | src/augment_catalog.py:32 | `www.` right after the scheme is removed with it |
| Urls.NormKeepsBareWww | src/augment_catalog.py:32 | a leading `www.` with no scheme before it is kept |
| Urls.CollapseToDash | src/augment_catalog.py:168 | `re.sub(r"[^a-z0-9]+", "-", s)`: only `[a-z0-9-]`, never two dashes in a row, a leading dash exactly when `s` starts with another character, non-empty for non-empty input |
| Urls.SlugIsSlug | src/augment_catalog.py:168 | after `.strip("-")` the id is a slug: only `[a-z0-9-]`, no dash at either end, no two dashes in a row |
| Urls.SlugOfSlug | src/shl_catalog_crawler.py:197 | making a slug of a slug changes nothing |
| Urls.SlugKeepsAlnum | src/shl_catalog_crawler.py:197 | the slug keeps every lower-case letter and digit of the path, in order, and adds only dashes |
| Urls.CollapseKeepsAlnum | src/augment_catalog.py:168 | collapsing runs to dashes keeps every lower-case letter and digit, in order |
| Seqs.DedupByKeys | src/augment_catalog.py:181 | keyed deduplication loses no key and leaves no key twice |
| Seqs.DedupByKeepsFirst | src/shl_catalog_crawler.py:84-91 | the first element with each key survives deduplication |
| Seqs.DedupByDistinct | src/shl_catalog_crawler.py:212 | when the keys are already distinct, deduplication changes nothing |
| Seqs.DedupByConcat | src/augment_catalog.py:179-181 | deduplicating a concatenation keeps the deduplicated front unchanged; every later element has a key the front lacks |
| Seqs.DedupBySubsequence | src/shl_catalog_crawler.py:84-91 | deduplication only leaves elements out and keeps their order |
| Seqs.PySlicePrefix | src/api_fastapi.py:140 | `s[:k]` / `head(k)`: a prefix of length `min(k, |s|)` for `k >= 0`, and of length `max(0, |s| + k)` for negative `k` |
| Keywords.AnyKeyword | src/api_fastapi.py:112 | the short-circuit scan returns true exactly when some keyword occurs in the text |
| Keywords.WholeWordContains | src/augment_catalog.py:117 | a whole-word match is in particular a substring |
| Crawler.PrepackagedEmpty | src/shl_catalog_crawler.py:42-43 | neither a missing name nor an empty name is pre-packaged |
| Crawler.PrepackagedIgnoresCase | src/shl_catalog_crawler.py:43 | the pre-packaged test gives the same answer for any letter case |
| Crawler.PrepackagedExtend | src/shl_catalog_crawler.py:45-50 | a pre-packaged name stays pre-packaged whatever text surrounds it |
| Crawler.ProductUrlIff | src/shl_catalog_crawler.py:71-74 | the product-path condition holds exactly when the URL contains `/products/`; the second alternative adds nothing |
| Crawler.ParseCatalogList | src/shl_catalog_crawler.py:53-91 | the anchor loop followed by the `seen` loop yields exactly the catalogue list: the product candidates, with repeated URLs removed |
| Crawler.DedupUrls | src/shl_catalog_crawler.py:84-91 | the `seen`-set loop returns the first item for each URL, in order |
| Crawler.CatalogListItems | src/shl_catalog_crawler.py:62-82 | every returned link has a title of at least three characters and a URL containing `/products/`; it comes from an anchor whose stripped href is non-empty and joins to that URL |
| Crawler.CatalogListKeepsProducts | src/shl_catalog_crawler.py:62-82 | an anchor with a non-empty href, a product URL and a title of three or more characters is never lost: its URL is among the results |
| Crawler.CatalogListUnique | src/shl_catalog_crawler.py:84-91 | no URL is returned twice, and the list is the product candidates with later repeats left out, order kept |
| Crawler.DescriptionChoice | src/shl_catalog_crawler.py:105-112 | a non-blank meta description wins, stripped; otherwise the first paragraph; with neither the result is nothing, or "" when the meta content is blank but non-empty |
| Crawler.FirstSubstringNone | src/shl_catalog_crawler.py:142-146 | no level is found exactly when no level word occurs in the page text |
| Crawler.FirstSubstringSome | src/shl_catalog_crawler.py:142-146 | a found level is the capitalised earliest level word in the list that occurs |
| Crawler.MiddleIsMid | src/shl_catalog_crawler.py:144 | the substring scan finds "mid" inside "middle" and reports level "Mid" |
| Crawler.MinutesBound | src/shl_catalog_crawler.py:128-134 | a duration found by `(\d{1,3})\s*(minutes\|min)\b` is below 1000 |
| Crawler.JoinNonEmptyIff | src/shl_catalog_crawler.py:151-154 | a category or tag string is produced exactly when some text is non-empty, and it is then non-empty |
| Crawler.CrawlProductFields | src/shl_catalog_crawler.py:94-166 | title and URL are passed through; "P" exactly when a personality word occurs; "K" exactly when none does and a knowledge word does; the language is "English" exactly when "english" occurs; the level is the first level word found; the duration is below 1000 |
| Crawler.ParseProductPage | src/shl_catalog_crawler.py:94-166 | the if/elif test type, the duration search and the level loop with its `break` compute the specified product record |
| Crawler.CrawlCatalog | src/shl_catalog_crawler.py:175-199 | the loop with its `seen_urls` set visits each distinct candidate URL once, in order, and collects exactly the kept records |
| Crawler.VisitOnce | src/shl_catalog_crawler.py:184-199 | one visit fetches and parses the page, falls back to the link title, skips an empty or pre-packaged title, and makes the id |
| Crawler.VisitFields | src/shl_catalog_crawler.py:187-197 | a kept record has the fetched URL, a non-empty title that is not pre-packaged (the page heading, else the link title) and a slug id |
| Crawler.CrawlUnique | src/shl_catalog_crawler.py:212 | the records have distinct URLs, so the final `drop_duplicates(subset=["url"])` removes nothing |
| Crawler.CrawlFrom | src/shl_catalog_crawler.py:178-199 | every record comes from a candidate link whose fetch succeeded, and has an acceptable title and a slug id |
| Crawler.CrawlCatalogList | src/shl_catalog_crawler.py:172-182 | on the already deduplicated catalogue list, the `seen_urls` check skips nothing: every listed link is visited |
| DurationRegex.SearchLeftmost | src/augment_catalog.py:51 | a found match starts at the leftmost position where the pattern matches, and it is the match at that position |
| DurationRegex.SearchNone | src/augment_catalog.py:51-53 | the search fails exactly when the pattern matches at no position |
| DurationRegex.SearchBound | src/augment_catalog.py:39-44 | a number matched by `\d{1,n}` is below `10^n` |
| DurationRegex.RangeEndsInSingle | src/api_fastapi.py:54-62 | the second number of a range match, with its unit, is also a match of the single-value pattern with the same digits and units |
| DurationRegex.NoDigitsNoMatch | src/augment_catalog.py:39-44 | a text without digits matches no duration pattern |
| DurationRegex.SearchSingleText | src/augment_catalog.py:42-43 | in a digit-free text around one number, a space and a unit word, a single-value pattern finds exactly that number and unit when it accepts the unit |
| DurationRegex.SearchRangeText | src/augment_catalog.py:40-41 | in a digit-free text around `a-b unit`, a range pattern finds exactly that range when it accepts the unit |
| DurationRegex.SearchLongRun | src/augment_catalog.py:42 | in a longer run of digits, `\d{1,n}` matches the last `n` digits before the unit |
| DurationParse.HalfToEven | src/augment_catalog.py:59 | `int(round(x / 2))` rounds a half to the even neighbour |
| DurationParse.MidpointBetween | src/augment_catalog.py:59 | the rounded midpoint lies between the two bounds, within half a minute of the exact middle, and does not depend on their order |
| DurationParse.ParseDurationMinutes | src/augment_catalog.py:46-66 | the pattern loop, with its `continue` and its returns from inside the loop, computes the specified duration |
| DurationParse.ParseIgnoresCase | src/augment_catalog.py:49 | the result is the same for any letter case of the text |
| DurationParse.NoDigitsNoDuration | src/augment_catalog.py:46-66 | a text without digits has no duration |
| DurationParse.ParseBound | src/augment_catalog.py:39-66 | a parsed duration never exceeds 59940 minutes (999 hours) |
| DurationParse.MinuteRangeFirst | src/augment_catalog.py:50-59 | a minute range anywhere in the text decides: the result is its rounded midpoint |
| DurationParse.HourRangeSecond | src/augment_catalog.py:55-59 | without a minute range, an hour range decides; only a unit starting with "hour" is scaled by 60 ("hrs" and "hr" are not) |
| DurationParse.MinuteSingleThird | src/augment_catalog.py:60-62 | without any range, a single minute value is the result |
| DurationParse.HourSingleLast | src/augment_catalog.py:63-66 | otherwise a single "hour"/"hours" value is scaled to minutes, and a single "hr"/"hrs" value yields nothing |
| DurationParse.ParseLoneRange | src/augment_catalog.py:55-59 | a text that is just `a-b unit` gives that range's minutes |
| DurationParse.ParseLoneSingle | src/augment_catalog.py:60-66 | a text with one number of up to two digits and a unit: minutes are kept, "hour"/"hours" are scaled, and "hr"/"hrs" give nothing |
| DurationParse.ExampleMinuteRange | src/augment_catalog.py:40 | "45-60 minutes" gives 52, because 52.5 rounds to the even neighbour |
| DurationParse.ExampleHourRange | src/augment_catalog.py:41 | "1-2 hours" gives 90 |
| DurationParse.ExampleHrsRange | src/augment_catalog.py:57 | "1-2 hrs" gives 2: the unit is not scaled |
| DurationParse.ExampleTwoHours | src/augment_catalog.py:64-65 | "2 hours" gives 120 |
| DurationParse.ExampleTwoHr | src/augment_catalog.py:61-66 | "2 hr" gives nothing |
| DurationParse.ExampleLongNumber | src/augment_catalog.py:42 | "1234 minutes" gives 234 |
| Augment.GraduateCapitalized | src/augment_catalog.py:118 | the special case for "graduate" gives what `capitalize()` gives |
| Augment.FirstLevelNone | src/augment_catalog.py:115-119 | no level is found exactly when no level word occurs as a whole word |
| Augment.FirstLevelSome | src/augment_catalog.py:115-119 | a found level names the earliest level word in the list that occurs as a whole word |
| Augment.MidNotInMiddle | src/augment_catalog.py:117 | "mid" is not a whole word in "middle" |
| Augment.TitleChoice | src/augment_catalog.py:74-82 | a non-empty `h1`/`h2` text is the title; otherwise a non-blank `og:title` content, stripped; the title is missing or empty exactly when neither gives text |
| Augment.DescriptionChoice | src/augment_catalog.py:84-96 | a non-blank meta description wins, stripped; then a non-blank `og:description`; then the first paragraph; the description is missing or empty exactly when none of the three gives text |
| Augment.ChooseTitle | src/augment_catalog.py:74-82 | the title section's assignments compute `PageTitle` |
| Augment.ChooseDescription | src/augment_catalog.py:84-96 | the description section's assignments compute `PageDescription` |
| Augment.ProductPageFields | src/augment_catalog.py:98-135 | the title and description are the chosen ones and the URL is passed through; category and tags are ""; the duration is the parsed one; "K" exactly when a knowledge keyword occurs; "P" exactly when only personality keywords do; the language is "English" exactly when "english" occurs; the level is the first whole-word level |
| Augment.ParseProductPage | src/augment_catalog.py:71-135 | setting "P" and then overwriting it with "K", plus the level loop with `break`, computes the specified dictionary |
| Augment.SelectMissing | src/augment_catalog.py:145-149 | the selection loop returns exactly the missing labelled URLs, in training order |
| Augment.SelectLacking | src/augment_catalog.py:146-149 | the loop over the non-missing training cells keeps exactly those whose normal form is not already known |
| Augment.LackingMembers | src/augment_catalog.py:147-149 | a URL is selected exactly when a present training cell reads as it and its normal form is not in the known set |
| Augment.MissingUrlsMembers | src/augment_catalog.py:145-149 | a URL is selected exactly when a present training cell reads as it and its normal form is that of no present catalogue URL |
| Augment.HadNotLacking | src/augment_catalog.py:148 | a URL whose normal form is already known is never selected |
| Augment.ListedNotMissing | src/augment_catalog.py:145-149 | a URL the catalogue already lists, in any letter case, is never fetched again |
| Augment.FallbackTitle | src/augment_catalog.py:162 | the fallback title is never empty: the title-cased path (same length) or "SHL Assessment" |
| Augment.IdIsSlug | src/augment_catalog.py:167-168 | every id is a non-empty slug |
| Augment.NewRowFields | src/augment_catalog.py:158-168 | a new row has its URL and empty category and tags; a non-empty title (the page's if any, else the fallback); a non-empty description (the page's if any, else the title); and a non-empty slug id |
| Augment.FetchedFrom | src/augment_catalog.py:154-174 | every fetched pair comes from a requested URL and its successful fetch |
| Augment.FetchedAll | src/augment_catalog.py:154-174 | when every fetch succeeds, every requested URL is fetched, in the same order |
| Augment.FetchRows | src/augment_catalog.py:153-174 | the fetch loop yields exactly one row per successfully fetched URL, in order, with the fallbacks applied |
| Augment.MergedProperties | src/augment_catalog.py:176-181 | the merge keeps the deduplicated catalogue as its front, adds only rows whose URLs the catalogue lacks, loses no URL, and lists each URL once |
| Augment.AugmentCatalog | src/augment_catalog.py:140-185 | `main` composes selection, fetching and merging; nothing is written when no row was added |
| Indexer.Sg | src/indexer.py:34-38 | a missing column or NaN reads as ""; text reads as itself; a number reads as its rendering |
| Indexer.FillSplit | src/indexer.py:40-50 | the filled template is the fields before slot `j`, then slot `j` with its value, then the fields after |
| Indexer.FillLength | src/indexer.py:18-27 | a document is the fixed template text plus the field values, nothing else |
| Indexer.FillIgnores | src/indexer.py:40-50 | a document reads only the template's columns; any other column may change freely |
| Indexer.DocEnds | src/indexer.py:18-27 | every document opens with `Assessment Name: <title>. ` and ends with `. ` |
| Indexer.DocDuration | src/indexer.py:23 | the duration value is always followed by " minutes. ", even when it is empty |
| Indexer.DocLength | src/indexer.py:18-50 | a document has 103 characters of template text plus the eight field values |
| Indexer.DocIgnoresDocColumn | src/indexer.py:66 | the added "doc" column plays no part in the document |
| Indexer.FilledColumns | src/indexer.py:60-63 | after the fill, every expected column is present exactly once, after the columns the frame already had |
| Indexer.Frame.constructor | src/indexer.py:56 | a frame with distinct column labels and one full row map per row |
| Indexer.Frame.Assign | src/indexer.py:63 | `df[c] = values` appends a new column or overwrites an existing one, row by row |
| Indexer.FillSafeCols | src/indexer.py:60-63 | the loop adds exactly the missing expected columns, in `SAFE_COLS` order, each filled with "" in every row |
| Indexer.PrepareCatalog | src/indexer.py:56-66 | an empty frame aborts with "Catalog is empty: <path>" and nothing changes; otherwise the missing columns are filled and every row gets its document in "doc" |
| QueryConstraints.ExtractDurationWindow | src/api_fastapi.py:43-70 | a window, when there is one, has `0 <= lo <= hi` |
| QueryConstraints.HourUnits | src/api_fastapi.py:57 | among the unit words, exactly "hour" and "hours" contain "hour"; "hr" and "hrs" do not |
| QueryConstraints.WindowIgnoresCase | src/api_fastapi.py:51 | the window is the same for any letter case of the query |
| QueryConstraints.NoTextNoWindow | src/api_fastapi.py:51 | no text and empty text ask for no duration |
| QueryConstraints.NoDigitsNoWindow | src/api_fastapi.py:43-70 | a query without digits asks for no duration |
| QueryConstraints.SingleWindowWidth | src/api_fastapi.py:62-68 | a window from a single value is at most 30 minutes wide, exactly 30 once its upper end reaches 30, and always ends at 15 or later |
| QueryConstraints.RangeHasSingle | src/api_fastapi.py:54-62 | wherever the range pattern matches, the single pattern matches later, at the second number |
| QueryConstraints.WindowIffSingle | src/api_fastapi.py:54-70 | a query yields a window exactly when the single-value pattern matches |
| QueryConstraints.WindowOfSingle | src/api_fastapi.py:62-68 | without a range, the window is the value (scaled by 60 for "hour" units) widened by 15 each way and clipped at 0 |
| QueryConstraints.ExampleFortyMinutes | src/api_fastapi.py:46 | "40 minutes" gives (25, 55) |
| QueryConstraints.ExampleAboutSixtyMin | src/api_fastapi.py:48 | "about 60 min" gives (45, 75) |
| QueryConstraints.ExampleOneToTwoHours | src/api_fastapi.py:47 | "1-2 hours" gives (60, 120) |
| QueryConstraints.ExampleTwoHrsAsMinutes | src/api_fastapi.py:65 | "2 hrs" gives (0, 17): "hrs" is not scaled |
| QueryConstraints.ExampleNoTime | src/api_fastapi.py:70 | a query with no number gives no window |
| QueryConstraints.LetterRunsAreTheLetters | src/api_fastapi.py:74 | the letter runs, read together, are exactly the letters of the text, in order |
| QueryConstraints.LetterRunsOfJoin | src/api_fastapi.py:74 | words separated by single spaces come back as one run per word |
| QueryConstraints.StrongTerms | src/api_fastapi.py:72-80 | every strong term is in the whitelist |
| QueryConstraints.StrongTermsMembers | src/api_fastapi.py:74-80 | a word is a strong term exactly when it is whitelisted and some letter run lower-cases to it, and it appears once per such run |
| QueryConstraints.StrongTermsIgnoreCase | src/api_fastapi.py:74 | the strong terms are the same for any letter case of the query |
| Rerank.ClampTopK | src/api_fastapi.py:102 | `k` is in 1..10; 0 gives 10; 1..10 are kept; a negative value gives 1; a value above 10 gives 10 |
| Rerank.GateInert | src/api_fastapi.py:109 | without strong terms the pool is unchanged |
| Rerank.GateMembers | src/api_fastapi.py:109-113 | with strong terms, a row survives exactly when it is a pool row whose topic text mentions a strong term, as often as it occurs in the pool, and the survivors keep the pool's order |
| Rerank.Tolerance | src/api_fastapi.py:129 | the tolerance is at least 15 minutes |
| Rerank.Triangular | src/api_fastapi.py:129 | the fall-off lies in [0, 1]; it is 1 exactly at the centre and 0 exactly at a tolerance's distance or further |
| Rerank.TriangularSymmetric | src/api_fastapi.py:129 | the fall-off is the same on both sides of the centre |
| Rerank.TriangularMonotone | src/api_fastapi.py:129 | a duration closer to the centre never scores lower |
| Rerank.ParseDecimalOfShowNat | src/api_fastapi.py:125 | `float(str(n))` of a whole number reads back as `n` |
| Rerank.DurScore | src/api_fastapi.py:117-132 | the duration score lies in [0, 1]; it is 0 when no window was asked for or the value is missing or not a number, and otherwise the triangular fit of the value to the window |
| Rerank.DurScoreAtCenter | src/api_fastapi.py:119-129 | a duration at the window's centre scores 1 |
| Rerank.FinalScoreProperties | src/api_fastapi.py:136 | the fused score rises with each input, strictly with similarity, and stays in [0, 1] when both inputs do |
| Rerank.SortDesc | src/api_fastapi.py:137 | sorting yields a descending permutation of the scored rows |
| Rerank.InsertSorted | src/api_fastapi.py:137 | inserting into a descending sequence keeps it descending |
| Rerank.TopOfSorted | src/api_fastapi.py:140 | the first `k` rows of a descending sequence are descending, there are `min(k, n)` of them, and none scores below a row left out |
| Rerank.RankedProperties | src/api_fastapi.py:105-140 | the ranking is descending, holds `min(k, survivors)` rows drawn from the survivors, and no survivor left out scores higher than a kept row |
| Rerank.RankedFromPool | src/api_fastapi.py:105-140 | every recommended row comes from the search result, and mentions a strong term when the query has any |
| Rerank.ToRecommendation | src/api_fastapi.py:145-153 | each of the eight response fields comes from the row: name from title, URL from url, then test type, level, language, duration, similarity and description |
| Rerank.BuildRecommendations | src/api_fastapi.py:143-154 | the loop yields one response entry per ranked row, in order |
| Rerank.Recommend | src/api_fastapi.py:93-156 | 503 when no index is loaded; 400 for a blank query; otherwise the ranked rows of a `4k` over-fetch for the stripped query, with `count` their number (at most `k`) |
| Evaluate.RecallEmptyTruth | src/evaluate.py:17-20 | with no usable truth URL the truth set is empty and recall is 0 |
| Evaluate.RecallIgnoresBlankTruth | src/evaluate.py:17 | a truth cell that normalises to "" changes neither the truth set nor recall |
| Evaluate.RecallIgnoresTail | src/evaluate.py:16 | predictions after the first `k` play no part |
| Evaluate.RecallGrowsWithK | src/evaluate.py:15-20 | a larger `k` never lowers recall |
| Evaluate.HitsBound | src/evaluate.py:18 | with distinct predictions, the hits are at most the number of truth URLs that were predicted |
| Evaluate.RecallBounds | src/evaluate.py:15-20 | recall is never negative, and is at most 1 when the normalised top-k predictions are distinct |
| Evaluate.RecallAtKBounds | src/evaluate.py:15-20 | the same bounds for `recall_at_k` with the URL normalisation |
| Evaluate.RepeatCountsTwice | src/evaluate.py:18-19 | a repeated correct prediction counts twice: recall is 2 against one truth URL |
| Evaluate.GroupTruth | src/evaluate.py:27-32 | the `defaultdict(list)` loop: its keys are the queries with a labelled pair, in first-appearance order, and each key's list is that query's URLs in file order |
| Evaluate.QueriesAreKeys | src/evaluate.py:27-37 | the key order lists each grouped query exactly once, and only those |
| Evaluate.GroupedUrlsNonEmpty | src/evaluate.py:31-32 | every grouped query has at least one URL, and no URL is empty |
| Evaluate.Scores | src/evaluate.py:36-40 | one result row per grouped query, in key order, each with the query and its number of truth URLs |
| Evaluate.ScoreQueries | src/evaluate.py:36-40 | the scoring loop yields exactly the specified rows |
| Evaluate.MeanRecallBounds | src/evaluate.py:44 | with every recall in [0, 1], so is the mean |
| Evaluate.ScoresOfGroups | src/evaluate.py:36-40 | every scored query has at least one truth URL and a recall that is never negative |
| Submission.FindQueryColumn | src/generate_submission.py:19-26 | the first column whose stripped, lower-cased name is accepted, or the `ValueError` message exactly when no column qualifies |
| Submission.BuildRows | src/generate_submission.py:28-32 | the nested loop yields the specified rows: query by query, each query's result URLs in order |
| Submission.FlattenLength | src/generate_submission.py:28-34 | there is one row per result URL |
| Submission.FlattenAt | src/generate_submission.py:28-32 | result `j` of query `i` is the row after all results of the earlier queries and the first `j` results of query `i` |
| Submission.Submit | src/generate_submission.py:13-34 | an error exactly when no column qualifies, raised before any search; otherwise the rows of the first accepted column |
| StreamlitApp.SelectColumnsProperties | src/app_streamlit.py:64-69 | the selection holds exactly the preferred columns the frame has, each once, in preferred order |
| StreamlitApp.SelectColumnsEmpty | src/app_streamlit.py:64-69 | the selection is empty exactly when the frame has none of the preferred columns |
| StreamlitApp.Linkify | src/app_streamlit.py:71-72 | a non-empty result comes from a string cell and has the form `[link](...)` |
| StreamlitApp.LinkifyEmpty | src/app_streamlit.py:71-72 | no link for a missing value, a number or a blank string; a link otherwise |
| StreamlitApp.LinkifyKeepsUrl | src/app_streamlit.py:72 | the link target is the cell text exactly as given, surrounding white space included |

## Left out

- HTML parsing with BeautifulSoup is not modelled. The selectors' results are record fields: the heading, the `content` of the description, `og:title` and `og:description` `<meta>` tags, the first paragraph, the tag and breadcrumb texts, and the page text. The choices the code makes between them are modelled.
- HTTP requests, time-outs, `raise_for_status` and `time.sleep` are not modelled. A fetch is a function returning an optional page, where none stands for any exception caught by the source.
- `urljoin` is a function parameter. `urlparse` is modelled only as far as the code uses it: the netloc and path of `"https://" + u`, and the path of a URL. It follows CPython 3.12: leading controls and spaces are stripped, tabs, CRs and LFs are deleted, and for the schemes of `uses_params` the `;` parameters of the last path segment are split off.
- Urls.AuthorityAndPath: an unbalanced `[` or `]` in the netloc, or a bracketed host that is not an IP address, makes `urlsplit` raise `ValueError`. `norm_url` and `norm` call it outside any `try` (src/augment_catalog.py:145-148, src/evaluate.py:39), so the program stops there. The model returns a normal form instead.
- Urls.UrlPath: the same `ValueError` is raised inside the `try` blocks of src/augment_catalog.py:155-174 and src/shl_catalog_crawler.py:183-205, whose `except Exception` skips the URL. The model computes a path instead, and so do `Augment.FallbackTitle`, `Augment.AssessmentId` and `Crawler.CrawlId`, which use it.
- Urls.NormIdempotent: normalisation is not idempotent when removing a trailing `/` leaves a `;` in the last segment. The lemma therefore promises idempotence only when no `;` follows the last `/`; `Urls.NormNotIdempotent` shows the counterexample.
- Characters are ASCII. Python's Unicode case mapping, Unicode white space and Unicode `\w`/`\d` are not modelled.
- Retrieval is a function parameter: the FAISS index, the sentence-transformer embedding and `src/retriever.py`. The indexer's encoding, index build and file writes (lines 68-83) are not modelled, including the `df[SAFE_COLS]` metadata selection.
- Reading and writing CSV and parquet files, argparse, `print`, and the FastAPI application are not modelled. Left out of the FastAPI application: the request schema, the `/health` and `/` endpoints, and loading the index at start-up, which is a boolean parameter of `Recommend`.
- The Streamlit widgets, caching, the rename and the CSV download are not modelled. Only `_select_columns` and `_linkify` are.
- Python floats are modelled as exact reals. The rendering of a number as text is a field of the number cell.
- Rerank.SortDesc: does not fix the order of rows with equal fused scores. pandas' `sort_values` (quicksort) leaves that order unspecified; the model uses a stable insertion sort, and its contract states only a descending permutation.
- Rerank.Recommend: assumes every row of the search result has `similarity` and `duration_min` columns, as the index's metadata always does. The branches for a frame without them are not modelled.
- Evaluate.MeanRecallBounds: with no grouped query the source crashes before the mean: `sort_values("recall_at_10")` (src/evaluate.py:42) raises `KeyError` on the column-less empty frame. The model's `MeanRecall` gives none instead. Sorting and printing the result table is not modelled.
- Evaluate.GroupTruth: the check that both columns exist (which raises `SystemExit`) is left out. The model takes the two columns as pairs of cells.
- Rerank.DurationValue: `float()` is modelled for plain decimal numerals with an optional sign and at most one point. Exponents, `inf`, `nan` and underscores give none, as a failed conversion does.
