/**
 * The offline evaluation: recall@k of a ranked URL list against the
 * labelled URLs of a query, compared after URL normalisation, and the
 * grouping of the labelled (query, URL) rows by query.
 *
 * The retriever is a parameter `search` from a query to its predicted URL
 * cells; reading the CSV file and printing the table are not modelled.
 */
module Evaluate {
  import opened Wrappers
  import opened Text
  import opened Seqs
  import opened Cells
  import opened Urls

  // ---------------------------------------------------------------------
  // recall@k
  // ---------------------------------------------------------------------

  /** `[norm(u) for u in pred_urls[:k]]`, for a normaliser `norm`. */
  function Predicted(norm: Cell -> string, pred: seq<Cell>, k: int): seq<string>
  {
    Map(norm, PySlicePrefix(pred, k))
  }

  /** `{norm(u) for u in true_urls if norm(u)}` */
  function TruthSet(norm: Cell -> string, truth: seq<Cell>): set<string>
  {
    set c | c in truth && norm(c) != "" :: norm(c)
  }

  function InSet(t: set<string>): string -> bool
  {
    u => u in t
  }

  /** `sum(1 for u in P if u in T)`: repeated hits count each time. */
  function Hits(p: seq<string>, t: set<string>): nat
  {
    |Filter(InSet(t), p)|
  }

  /** `max(1, n)` */
  function AtLeastOne(n: nat): (r: nat)
    ensures r >= 1
  {
    if n < 1 then 1 else n
  }

  /** The body of `recall_at_k`, for a normaliser `norm`. */
  function Recall(norm: Cell -> string, pred: seq<Cell>, truth: seq<Cell>, k: int): real
  {
    var t := TruthSet(norm, truth);
    (Hits(Predicted(norm, pred, k), t) as real) / (AtLeastOne(|t|) as real)
  }

  /** `recall_at_k(pred_urls, true_urls, k)`, with `norm` the URL normalisation. */
  function RecallAtK(pred: seq<Cell>, truth: seq<Cell>, k: int): real
  {
    Recall(NormUrl, pred, truth, k)
  }

  lemma NoHitsInEmpty(p: seq<string>)
    ensures Hits(p, {}) == 0
  {
    FilterMembers(InSet({}), p);
    if Filter(InSet({}), p) != [] {
      assert InSet({})(Filter(InSet({}), p)[0]);
    }
  }

  /** No hit is possible without a usable truth URL, so recall is then 0. */
  lemma RecallEmptyTruth(norm: Cell -> string, pred: seq<Cell>, truth: seq<Cell>, k: int)
    requires forall c :: c in truth ==> norm(c) == ""
    ensures TruthSet(norm, truth) == {}
    ensures Recall(norm, pred, truth, k) == 0.0
  {
    NoHitsInEmpty(Predicted(norm, pred, k));
  }

  /** A truth cell normalising to "" (a missing value, a blank string) changes nothing. */
  lemma RecallIgnoresBlankTruth(norm: Cell -> string, pred: seq<Cell>, truth: seq<Cell>, c: Cell, k: int)
    requires norm(c) == ""
    ensures TruthSet(norm, truth + [c]) == TruthSet(norm, truth)
    ensures Recall(norm, pred, truth + [c], k) == Recall(norm, pred, truth, k)
  {
    assert forall d :: d in truth + [c] && norm(d) != "" ==> d in truth;
  }

  /** Predictions after the first `k` play no part. */
  lemma RecallIgnoresTail(norm: Cell -> string, pred: seq<Cell>, extra: seq<Cell>, truth: seq<Cell>, k: int)
    requires 0 <= k <= |pred|
    ensures Recall(norm, pred + extra, truth, k) == Recall(norm, pred, truth, k)
  {
    assert PySlicePrefix(pred + extra, k) == pred[..k] == PySlicePrefix(pred, k);
  }

  /** The hits among a prefix never outnumber those among a longer prefix. */
  lemma {:induction false} FilterPrefixGrows<T>(f: T -> bool, s: seq<T>, a: nat, b: nat)
    requires a <= b <= |s|
    ensures |Filter(f, s[..a])| <= |Filter(f, s[..b])|
    decreases b - a
  {
    if a < b {
      FilterPrefixGrows(f, s, a, b - 1);
      assert s[..b] == s[..b - 1] + [s[b - 1]];
      FilterAppend(f, s[..b - 1], s[b - 1]);
    }
  }

  /** Looking further down the ranking never lowers recall. */
  lemma RecallGrowsWithK(norm: Cell -> string, pred: seq<Cell>, truth: seq<Cell>, k1: int, k2: int)
    requires 0 <= k1 <= k2
    ensures Recall(norm, pred, truth, k1) <= Recall(norm, pred, truth, k2)
  {
    var t := TruthSet(norm, truth);
    var b := if k2 < |pred| then k2 else |pred|;
    var a := if k1 < |pred| then k1 else |pred|;
    var all := Map(norm, pred);
    assert Predicted(norm, pred, k1) == all[..a];
    assert Predicted(norm, pred, k2) == all[..b];
    FilterPrefixGrows(InSet(t), all, a, b);
    DivMonotone(Hits(all[..a], t) as real, Hits(all[..b], t) as real, AtLeastOne(|t|) as real);
  }

  lemma DivMonotone(x: real, y: real, d: real)
    requires x <= y && d > 0.0
    ensures x / d <= y / d
  {
  }

  /** Without repeats, the hits are at most the truth URLs that were predicted. */
  lemma {:induction false} HitsBound(p: seq<string>, t: set<string>)
    requires NoDuplicates(p)
    ensures Hits(p, t) <= |t * (set u | u in p)|
    decreases |p|
  {
    if p != [] {
      var init := p[..|p| - 1];
      var x := p[|p| - 1];
      assert p == init + [x];
      assert NoDuplicates(init);
      HitsBound(init, t);
      FilterAppend(InSet(t), init, x);
      var before := t * (set u | u in init);
      var after := t * (set u | u in p);
      if x in t {
        assert x !in init;
        assert after == before + {x};
        assert Hits(p, t) == Hits(init, t) + 1;
      } else {
        assert after == before;
        assert Hits(p, t) == Hits(init, t);
      }
    }
  }

  /**
   * Recall is never negative; when the normalised top-k predictions are
   * distinct it is at most 1.
   */
  lemma RecallBounds(norm: Cell -> string, pred: seq<Cell>, truth: seq<Cell>, k: int)
    ensures Recall(norm, pred, truth, k) >= 0.0
    ensures NoDuplicates(Predicted(norm, pred, k)) ==> Recall(norm, pred, truth, k) <= 1.0
  {
    var t := TruthSet(norm, truth);
    var p := Predicted(norm, pred, k);
    DivNonNegative(Hits(p, t) as real, AtLeastOne(|t|) as real);
    if NoDuplicates(p) {
      HitsBound(p, t);
      var common := t * (set u | u in p);
      SubsetCard(common, t);
      if |t| == 0 {
        assert t == {};
        NoHitsInEmpty(p);
      }
      DivAtMostOne(Hits(p, t) as real, AtLeastOne(|t|) as real);
    }
  }

  /** `recall_at_k` itself: never negative, and at most 1 when its top-k normalised URLs are distinct. */
  lemma RecallAtKBounds(pred: seq<Cell>, truth: seq<Cell>, k: int)
    ensures RecallAtK(pred, truth, k) >= 0.0
    ensures NoDuplicates(Predicted(NormUrl, pred, k)) ==> RecallAtK(pred, truth, k) <= 1.0
  {
    RecallBounds(NormUrl, pred, truth, k);
  }

  lemma SubsetCard(a: set<string>, b: set<string>)
    requires a <= b
    ensures |a| <= |b|
  {
    assert b == a + (b - a);
  }

  lemma DivNonNegative(x: real, d: real)
    requires 0.0 <= x && d > 0.0
    ensures x / d >= 0.0
  {
  }

  lemma DivAtMostOne(x: real, d: real)
    requires 0.0 <= x <= d && d > 0.0
    ensures x / d <= 1.0
  {
  }

  /** A repeated correct prediction counts twice: recall 2 against a single truth URL. */
  lemma RepeatCountsTwice(norm: Cell -> string, c: Cell)
    requires norm(c) != ""
    ensures Recall(norm, [c, c], [c], 10) == 2.0
  {
    var u := norm(c);
    SingleTruth(norm, c);
    RepeatPredicted(norm, c);
    HitsTwice(u);
  }

  lemma SingleTruth(norm: Cell -> string, c: Cell)
    requires norm(c) != ""
    ensures TruthSet(norm, [c]) == {norm(c)} && |TruthSet(norm, [c])| == 1
  {
  }

  lemma RepeatPredicted(norm: Cell -> string, c: Cell)
    ensures Predicted(norm, [c, c], 10) == [norm(c), norm(c)]
  {
  }

  lemma HitsTwice(u: string)
    ensures Hits([u, u], {u}) == 2
  {
    FilterAppend(InSet({u}), [], u);
    FilterAppend(InSet({u}), [u], u);
    assert [u] + [u] == [u, u];
  }

  // ---------------------------------------------------------------------
  // Grouping the labelled rows by query
  // ---------------------------------------------------------------------

  /** A labelled row, after `str(...).strip()` of both columns, when neither is empty. */
  function Tidy(row: (Cell, Cell)): Option<(string, string)>
  {
    var q := Strip(PyStr(row.0));
    var u := Strip(PyStr(row.1));
    if q != "" && u != "" then Some((q, u)) else None
  }

  function TidyOf(): ((Cell, Cell)) -> Option<(string, string)>
  {
    row => Tidy(row)
  }

  /** The (query, URL) pairs the grouping loop keeps, in file order. */
  function Labelled(rows: seq<(Cell, Cell)>): seq<(string, string)>
  {
    FilterMap(TidyOf(), rows)
  }

  function QueryOf(x: (string, string)): string { x.0 }
  function UrlOf(x: (string, string)): string { x.1 }

  function IsQuery(q: string): ((string, string)) -> bool
  {
    (x: (string, string)) => x.0 == q
  }

  /** The queries of the pairs in order of first appearance: the order of `truth.items()`. */
  function QueryOrder(pairs: seq<(string, string)>): seq<string>
  {
    Map(QueryOf, DedupBy(QueryOf, pairs))
  }

  /** The URLs paired with `q`, in order, repeats kept: `truth[q]`. */
  function UrlsOf(pairs: seq<(string, string)>, q: string): seq<string>
  {
    Map(UrlOf, Filter(IsQuery(q), pairs))
  }

  function Queries(rows: seq<(Cell, Cell)>): seq<string>
  {
    QueryOrder(Labelled(rows))
  }

  function UrlsFor(rows: seq<(Cell, Cell)>, q: string): seq<string>
  {
    UrlsOf(Labelled(rows), q)
  }

  /** The `defaultdict(list)` loop of `main`, with the keys' insertion order kept beside the map. */
  method GroupTruth(rows: seq<(Cell, Cell)>) returns (order: seq<string>, truth: map<string, seq<string>>)
    ensures order == Queries(rows)
    ensures forall q :: q in truth <==> q in Keys(QueryOf, Labelled(rows))
    ensures forall q :: q in truth ==> truth[q] == UrlsFor(rows, q)
  {
    order := [];
    truth := map[];
    var i := 0;
    while i < |rows|
      invariant 0 <= i <= |rows|
      invariant Grouped(Labelled(rows[..i]), order, truth)
    {
      var q := Strip(PyStr(rows[i].0));
      var u := Strip(PyStr(rows[i].1));
      if q != "" && u != "" {
        if q !in truth {
          GroupRowNew(rows, i, order, truth, q, u);
          order := order + [q];
          truth := truth[q := [u]];
        } else {
          GroupRowKnown(rows, i, order, truth, q, u);
          truth := truth[q := truth[q] + [u]];
        }
      } else {
        GroupRowSkipped(rows, i, order, truth);
      }
      i := i + 1;
    }
    assert rows[..i] == rows;
  }

  /** `order` and `truth` are the key order and the grouping of `pairs`. */
  ghost predicate Grouped(pairs: seq<(string, string)>, order: seq<string>, truth: map<string, seq<string>>)
  {
    && order == QueryOrder(pairs)
    && (forall q :: q in truth <==> q in Keys(QueryOf, pairs))
    && (forall q :: q in truth ==> truth[q] == UrlsOf(pairs, q))
  }

  /** A kept row with a query not seen before. */
  lemma GroupRowNew(rows: seq<(Cell, Cell)>, i: nat, order: seq<string>, truth: map<string, seq<string>>, q: string, u: string)
    requires i < |rows| && Grouped(Labelled(rows[..i]), order, truth)
    requires Tidy(rows[i]) == Some((q, u)) && q !in truth
    ensures Grouped(Labelled(rows[..i + 1]), order + [q], truth[q := [u]])
  {
    LabelledStep(rows, i);
    GroupAddNew(Labelled(rows[..i]), order, truth, q, u);
  }

  /** A kept row with a query seen before. */
  lemma GroupRowKnown(rows: seq<(Cell, Cell)>, i: nat, order: seq<string>, truth: map<string, seq<string>>, q: string, u: string)
    requires i < |rows| && Grouped(Labelled(rows[..i]), order, truth)
    requires Tidy(rows[i]) == Some((q, u)) && q in truth
    ensures Grouped(Labelled(rows[..i + 1]), order, truth[q := truth[q] + [u]])
  {
    LabelledStep(rows, i);
    GroupAddKnown(Labelled(rows[..i]), order, truth, q, u);
  }

  /** A row with an empty query or URL changes nothing. */
  lemma GroupRowSkipped(rows: seq<(Cell, Cell)>, i: nat, order: seq<string>, truth: map<string, seq<string>>)
    requires i < |rows| && Grouped(Labelled(rows[..i]), order, truth)
    requires Tidy(rows[i]).None?
    ensures Grouped(Labelled(rows[..i + 1]), order, truth)
  {
    LabelledStep(rows, i);
    var pairs := Labelled(rows[..i]);
    assert pairs + [] == pairs;
    assert Labelled(rows[..i + 1]) == pairs;
  }

  /** A pair with a new query appends the query to the order and starts its list. */
  lemma GroupAddNew(pairs: seq<(string, string)>, order: seq<string>, truth: map<string, seq<string>>, q: string, u: string)
    requires Grouped(pairs, order, truth) && q !in truth
    ensures Grouped(pairs + [(q, u)], order + [q], truth[q := [u]])
  {
    QueryOrderStep(pairs, (q, u));
    UrlsOfStep(pairs, (q, u));
    UrlsOfAbsent(pairs, q);
  }

  /** A pair with a known query only appends its URL to that query's list. */
  lemma GroupAddKnown(pairs: seq<(string, string)>, order: seq<string>, truth: map<string, seq<string>>, q: string, u: string)
    requires Grouped(pairs, order, truth) && q in truth
    ensures Grouped(pairs + [(q, u)], order, truth[q := truth[q] + [u]])
  {
    QueryOrderStep(pairs, (q, u));
    UrlsOfStep(pairs, (q, u));
  }

  /** One more row adds its pair when both its columns are non-empty. */
  lemma LabelledStep(rows: seq<(Cell, Cell)>, i: nat)
    requires i < |rows|
    ensures Labelled(rows[..i + 1]) ==
      Labelled(rows[..i]) + match Tidy(rows[i]) case None => [] case Some(x) => [x]
  {
    assert rows[..i + 1] == rows[..i] + [rows[i]];
    FilterMapAppend(TidyOf(), rows[..i], rows[i]);
    assert TidyOf()(rows[i]) == Tidy(rows[i]);
  }

  /** A new pair adds its query to the keys, and to the key order when it is new. */
  lemma QueryOrderStep(pairs: seq<(string, string)>, x: (string, string))
    ensures Keys(QueryOf, pairs + [x]) == Keys(QueryOf, pairs) + {x.0}
    ensures QueryOrder(pairs + [x]) ==
      QueryOrder(pairs) + if x.0 in Keys(QueryOf, pairs) then [] else [x.0]
  {
    KeysAppend(QueryOf, pairs, x);
    assert (pairs + [x])[..|pairs|] == pairs;
    if x.0 !in Keys(QueryOf, pairs) {
      MapAppend(QueryOf, DedupBy(QueryOf, pairs), x);
    }
  }

  /** A new pair appends its URL to the list of its query and leaves the others alone. */
  lemma UrlsOfStep(pairs: seq<(string, string)>, x: (string, string))
    ensures forall q :: UrlsOf(pairs + [x], q) == UrlsOf(pairs, q) + if x.0 == q then [x.1] else []
  {
    forall q
      ensures UrlsOf(pairs + [x], q) == UrlsOf(pairs, q) + if x.0 == q then [x.1] else []
    {
      FilterAppend(IsQuery(q), pairs, x);
      assert IsQuery(q)(x) == (x.0 == q);
      if x.0 == q {
        MapAppend(UrlOf, Filter(IsQuery(q), pairs), x);
      }
    }
  }

  /** A query with no pair has no URLs. */
  lemma UrlsOfAbsent(pairs: seq<(string, string)>, q: string)
    requires q !in Keys(QueryOf, pairs)
    ensures UrlsOf(pairs, q) == []
  {
    FilterMembers(IsQuery(q), pairs);
    if Filter(IsQuery(q), pairs) != [] {
      var y := Filter(IsQuery(q), pairs)[0];
      assert IsQuery(q)(y) && y in pairs;
    }
  }

  /** The key order lists each grouped query once, and only those. */
  lemma QueriesAreKeys(rows: seq<(Cell, Cell)>)
    ensures NoDuplicates(Queries(rows))
    ensures forall q :: q in Queries(rows) <==> q in Keys(QueryOf, Labelled(rows))
  {
    var d := DedupBy(QueryOf, Labelled(rows));
    DedupByKeys(QueryOf, Labelled(rows));
    forall q | q in Keys(QueryOf, d)
      ensures q in Queries(rows)
    {
      var x :| x in d && QueryOf(x) == q;
      var j :| 0 <= j < |d| && d[j] == x;
      assert Queries(rows)[j] == q;
    }
  }

  /** Every grouped query has at least one URL, and each of its URLs is non-empty. */
  lemma GroupedUrlsNonEmpty(rows: seq<(Cell, Cell)>, q: string)
    requires q in Keys(QueryOf, Labelled(rows))
    ensures |UrlsFor(rows, q)| >= 1
    ensures forall j :: 0 <= j < |UrlsFor(rows, q)| ==> UrlsFor(rows, q)[j] != ""
  {
    LabelledNonEmpty(rows);
    UrlsOfNonEmpty(Labelled(rows), q);
  }

  /** The kept pairs have a non-empty query and a non-empty URL. */
  lemma LabelledNonEmpty(rows: seq<(Cell, Cell)>)
    ensures forall k :: 0 <= k < |Labelled(rows)| ==> Labelled(rows)[k].0 != "" && Labelled(rows)[k].1 != ""
  {
    forall k | 0 <= k < |Labelled(rows)|
      ensures Labelled(rows)[k].0 != "" && Labelled(rows)[k].1 != ""
    {
      var r := FilterMapFrom(TidyOf(), rows, k);
      assert TidyOf()(rows[r]) == Tidy(rows[r]);
    }
  }

  lemma UrlsOfNonEmpty(pairs: seq<(string, string)>, q: string)
    requires forall k :: 0 <= k < |pairs| ==> pairs[k].1 != ""
    requires q in Keys(QueryOf, pairs)
    ensures |UrlsOf(pairs, q)| >= 1
    ensures forall j :: 0 <= j < |UrlsOf(pairs, q)| ==> UrlsOf(pairs, q)[j] != ""
  {
    var x :| x in pairs && QueryOf(x) == q;
    FilterMembers(IsQuery(q), pairs);
    assert IsQuery(q)(x);
    assert x in Filter(IsQuery(q), pairs);
    forall j | 0 <= j < |UrlsOf(pairs, q)|
      ensures UrlsOf(pairs, q)[j] != ""
    {
      var y := Filter(IsQuery(q), pairs)[j];
      assert y in pairs;
    }
  }

  // ---------------------------------------------------------------------
  // Scoring every query
  // ---------------------------------------------------------------------

  /** A row of the result table. */
  datatype Score = Score(query: string, nTruth: nat, recall: real)

  function AsCells(urls: seq<string>): seq<Cell>
  {
    Map(u => Str(u), urls)
  }

  /**
   * The score of one query against the retriever's predictions; `main`
   * scores with `norm` the URL normalisation `NormUrl`.
   */
  function ScoreOf(norm: Cell -> string, q: string, urls: seq<string>, search: string -> seq<Cell>, k: int): Score
  {
    Score(q, |urls|, Recall(norm, search(q), AsCells(urls), k))
  }

  /** The result table: one row per grouped query, in key order. */
  function Scores(norm: Cell -> string, order: seq<string>, truth: map<string, seq<string>>, search: string -> seq<Cell>, k: int): (r: seq<Score>)
    requires forall q :: q in order ==> q in truth
    ensures |r| == |order|
    ensures forall j :: 0 <= j < |r| ==> r[j].query == order[j] && r[j].nTruth == |truth[order[j]]|
    decreases |order|
  {
    if order == [] then []
    else
      var q := order[|order| - 1];
      Scores(norm, order[..|order| - 1], truth, search, k) + [ScoreOf(norm, q, truth[q], search, k)]
  }

  /** The scoring loop of `main`. */
  method ScoreQueries(norm: Cell -> string, order: seq<string>, truth: map<string, seq<string>>, search: string -> seq<Cell>, k: int)
    returns (rows: seq<Score>)
    requires forall q :: q in order ==> q in truth
    ensures rows == Scores(norm, order, truth, search, k)
  {
    rows := [];
    var i := 0;
    while i < |order|
      invariant 0 <= i <= |order|
      invariant rows == Scores(norm, order[..i], truth, search, k)
    {
      var q := order[i];
      var urls := truth[q];
      var r := Recall(norm, search(q), AsCells(urls), k);
      ScoresStep(norm, order, truth, search, k, i);
      rows := rows + [Score(q, |urls|, r)];
      i := i + 1;
    }
    assert order[..i] == order;
  }

  /** One query of the loop appends its score. */
  lemma ScoresStep(norm: Cell -> string, order: seq<string>, truth: map<string, seq<string>>, search: string -> seq<Cell>, k: int, i: nat)
    requires forall q :: q in order ==> q in truth
    requires i < |order|
    ensures forall q :: q in order[..i + 1] ==> q in truth
    ensures Scores(norm, order[..i + 1], truth, search, k) ==
      Scores(norm, order[..i], truth, search, k) + [ScoreOf(norm, order[i], truth[order[i]], search, k)]
  {
    assert order[..i + 1][..i] == order[..i];
  }

  function SumRecall(rows: seq<Score>): real
    decreases |rows|
  {
    if rows == [] then 0.0 else SumRecall(rows[..|rows| - 1]) + rows[|rows| - 1].recall
  }

  /**
   * `res["recall_at_10"].mean()`. With no row `main` never reaches the mean:
   * the frame built from no rows has no `recall_at_10` column, so the sort
   * before it raises `KeyError`; the model gives nothing there.
   */
  function MeanRecall(rows: seq<Score>): Option<real>
  {
    if rows == [] then None else Some(SumRecall(rows) / (|rows| as real))
  }

  lemma {:induction false} SumRecallBounds(rows: seq<Score>)
    requires forall j :: 0 <= j < |rows| ==> 0.0 <= rows[j].recall <= 1.0
    ensures 0.0 <= SumRecall(rows) <= |rows| as real
    decreases |rows|
  {
    if rows != [] {
      SumRecallBounds(rows[..|rows| - 1]);
    }
  }

  /** With every recall in [0, 1], so is the mean. */
  lemma MeanRecallBounds(rows: seq<Score>)
    requires forall j :: 0 <= j < |rows| ==> 0.0 <= rows[j].recall <= 1.0
    ensures MeanRecall(rows).Some? ==> 0.0 <= MeanRecall(rows).value <= 1.0
  {
    if rows != [] {
      SumRecallBounds(rows);
      DivAtMostOne(SumRecall(rows), |rows| as real);
    }
  }

  /**
   * Every scored query has at least one labelled URL, and a recall that is
   * never negative.
   */
  lemma ScoresOfGroups(norm: Cell -> string, rows: seq<(Cell, Cell)>, search: string -> seq<Cell>, k: int, q: string)
    requires q in Keys(QueryOf, Labelled(rows))
    ensures ScoreOf(norm, q, UrlsFor(rows, q), search, k).nTruth >= 1
    ensures ScoreOf(norm, q, UrlsFor(rows, q), search, k).recall >= 0.0
  {
    GroupedUrlsNonEmpty(rows, q);
    RecallBounds(norm, search(q), AsCells(UrlsFor(rows, q)), k);
  }
}
