/**
 * The `/recommend` endpoint: validate the request, over-fetch candidates from
 * the semantic search, keep the on-topic ones, score how well each fits the
 * duration the query asks for, fuse that with the similarity, sort and keep
 * the best `topk`.
 *
 * The semantic search is a parameter: any function from (query, count) to a
 * sequence of catalog records with their similarity. Scores are reals.
 */
module Rerank {
  import opened Wrappers
  import opened Text
  import opened Seqs
  import opened Cells
  import opened QueryConstraints

  /** A catalog row as the index metadata holds it (every indexed column is present). */
  datatype Record = Record(
    assessmentId: Cell, title: Cell, url: Cell, description: Cell, category: Cell,
    testType: Cell, level: Cell, durationMin: Cell, language: Cell, tags: Cell)

  /** One row of the search result: the record and its `similarity` column. */
  datatype Hit = Hit(rec: Record, similarity: real)

  /** A row after the `_dur_score` and `_final` columns are added. */
  datatype Scored = Scored(hit: Hit, dur: real, final: real)

  datatype Recommendation = Recommendation(
    assessmentName: Cell, assessmentUrl: Cell, testType: Cell, level: Cell,
    language: Cell, durationMin: Cell, similarity: real, description: Cell)

  datatype Response = Response(query: string, count: nat, recommendations: seq<Recommendation>)

  datatype HttpError = HttpError(status: int, detail: string)

  const IndexNotLoaded := HttpError(503, "Index not loaded. Build index and restart API.")
  const EmptyQuery := HttpError(400, "Empty query.")

  // ---------------------------------------------------------------------
  // Request boundary
  // ---------------------------------------------------------------------

  /** `max(1, min(10, int(topk or 10)))` */
  function ClampTopK(topk: int): (k: nat)
    ensures 1 <= k <= 10
    ensures topk == 0 ==> k == 10
    ensures 1 <= topk <= 10 ==> k == topk
    ensures topk < 0 ==> k == 1
    ensures topk > 10 ==> k == 10
  {
    var t := if topk == 0 then 10 else topk;
    if t < 1 then 1 else if t > 10 then 10 else t
  }

  // ---------------------------------------------------------------------
  // Keyword gate
  // ---------------------------------------------------------------------

  /** The lower-cased text the gate searches: title, description, tags and category joined by spaces. */
  function TopicText(r: Record): string
  {
    Lower(Join([PyStr(OrEmpty(r.title)), PyStr(OrEmpty(r.description)),
                PyStr(OrEmpty(r.tags)), PyStr(OrEmpty(r.category))], " "))
  }

  /** `on_topic`: some strong term occurs in the topic text. */
  predicate OnTopic(strong: seq<string>, h: Hit)
  {
    exists i :: 0 <= i < |strong| && Contains(TopicText(h.rec), strong[i])
  }

  /** The gate: with strong terms, only on-topic rows survive, in their order; without, all do. */
  function Gate(strong: seq<string>, pool: seq<Hit>): seq<Hit>
  {
    if strong != [] then Filter(OnTopicWith(strong), pool) else pool
  }

  function OnTopicWith(strong: seq<string>): Hit -> bool
  {
    h => OnTopic(strong, h)
  }

  lemma GateInert(pool: seq<Hit>)
    ensures Gate([], pool) == pool
  {
  }

  /**
   * A row survives a non-empty gate exactly when it is a row of the pool
   * mentioning a strong term; the survivors keep their order in the pool.
   */
  lemma GateMembers(strong: seq<string>, pool: seq<Hit>, h: Hit)
    requires strong != []
    ensures h in Gate(strong, pool) <==> h in pool && OnTopic(strong, h)
    ensures multiset(Gate(strong, pool))[h] == if OnTopic(strong, h) then multiset(pool)[h] else 0
    ensures SubsequenceOf(Gate(strong, pool), pool)
  {
    FilterMembers(OnTopicWith(strong), pool);
    FilterCount(OnTopicWith(strong), pool, h);
    var idx := FilterSubsequence(OnTopicWith(strong), pool);
  }

  // ---------------------------------------------------------------------
  // Duration fit
  // ---------------------------------------------------------------------

  function Abs(x: real): real { if x < 0.0 then -x else x }

  function Center(lo: int, hi: int): real
  {
    (lo + hi) as real / 2.0
  }

  /** `max(15.0, (hi - lo) / 2.0)` */
  function Tolerance(lo: int, hi: int): (tol: real)
    ensures tol >= 15.0
  {
    var half := (hi - lo) as real / 2.0;
    if 15.0 >= half then 15.0 else half
  }

  /**
   * The linear fall-off around the centre of the window: 1 at the centre,
   * 0 at a tolerance's distance or further, never outside [0, 1].
   */
  function Triangular(d: real, lo: int, hi: int): (r: real)
    ensures 0.0 <= r <= 1.0
    ensures r == 1.0 <==> d == Center(lo, hi)
    ensures r == 0.0 <==> Abs(d - Center(lo, hi)) >= Tolerance(lo, hi)
  {
    var dist := Abs(d - Center(lo, hi));
    var tol := Tolerance(lo, hi);
    var v := 1.0 - dist / tol;
    assert dist / tol >= 1.0 <==> dist >= tol by {
      assert (dist / tol) * tol == dist;
    }
    if v > 0.0 then v else 0.0
  }

  /** The score depends only on the distance to the centre: it is the same on both sides. */
  lemma TriangularSymmetric(x: real, lo: int, hi: int)
    ensures Triangular(Center(lo, hi) + x, lo, hi) == Triangular(Center(lo, hi) - x, lo, hi)
  {
  }

  /** Closer to the centre never scores lower. */
  lemma TriangularMonotone(d1: real, d2: real, lo: int, hi: int)
    requires Abs(d1 - Center(lo, hi)) <= Abs(d2 - Center(lo, hi))
    ensures Triangular(d1, lo, hi) >= Triangular(d2, lo, hi)
  {
    var tol := Tolerance(lo, hi);
    var a, b := Abs(d1 - Center(lo, hi)), Abs(d2 - Center(lo, hi));
    assert a / tol <= b / tol by {
      assert (b / tol - a / tol) * tol == b - a;
    }
  }

  /**
   * `float(s)` for a plain decimal numeral: white space around it, an optional
   * sign, digits with at most one decimal point, at least one digit.
   */
  function ParseDecimal(s: string): Option<real>
  {
    var t := Strip(s);
    var neg := |t| > 0 && t[0] == '-';
    var body := if |t| > 0 && (t[0] == '-' || t[0] == '+') then t[1..] else t;
    match ParseUnsigned(body)
    case None => None
    case Some(m) => Some(if neg then -m else m)
  }

  /** The magnitude after the sign: digits, optionally a point and more digits, at least one digit. */
  function ParseUnsigned(body: string): Option<real>
  {
    var ip := RunEnd(IsDigit, body, 0);
    assert AllDigits(body[..ip]);
    if ip == |body| then
      if ip == 0 then None else Some(DigitsValue(body[..ip]) as real)
    else if body[ip] != '.' then None
    else
      var fe := RunEnd(IsDigit, body, ip + 1);
      assert AllDigits(body[ip + 1..fe]);
      if fe != |body| || fe == 1 then None
      else Some(DigitsValue(body[..ip]) as real + DigitsValue(body[ip + 1..fe]) as real / Pow10(fe - ip - 1) as real)
  }

  /** A non-empty string of digits reads as its value. */
  lemma ParseUnsignedOfDigits(d: string)
    requires |d| > 0 && AllDigits(d)
    ensures ParseUnsigned(d) == Some(DigitsValue(d) as real)
  {
    RunEndFull(d);
    assert d[..|d|] == d;
  }

  /** A rendered whole number reads back as itself. */
  lemma ParseDecimalOfShowNat(n: nat)
    ensures ParseDecimal(ShowNat(n)) == Some(n as real)
  {
    var s := ShowNat(n);
    assert Strip(s) == s by {
      assert !IsSpace(s[0]) && !IsSpace(s[|s| - 1]);
    }
    assert s[0] != '-' && s[0] != '+';
    ParseDecimalUnsigned(s);
    ParseUnsignedOfDigits(s);
    ShowNatRoundTrip(n);
  }

  /** Without white space around it and without a sign, a numeral reads as its magnitude. */
  lemma ParseDecimalUnsigned(s: string)
    requires s != [] && Strip(s) == s && s[0] != '-' && s[0] != '+'
    ensures ParseDecimal(s) == ParseUnsigned(s)
  {
  }

  lemma RunEndFull(s: string)
    requires AllDigits(s)
    ensures RunEnd(IsDigit, s, 0) == |s|
  {
    RunEndAtEnd(s, 0);
  }

  lemma {:induction false} RunEndAtEnd(s: string, i: nat)
    requires i <= |s| && AllDigits(s)
    ensures RunEnd(IsDigit, s, i) == |s|
    decreases |s| - i
  {
    if i < |s| {
      RunEndAtEnd(s, i + 1);
    }
  }

  /** The duration value of a cell, as `float()` sees it; missing values and non-numbers give none. */
  function DurationValue(c: Cell): Option<real>
  {
    match c
    case Null => None
    case NaN => None
    case Num(x, _) => Some(x)
    case Str(s) => ParseDecimal(s)
  }

  /** `dur_score`, or the constant 0 when the query asked for no duration. */
  function DurScore(win: Option<(int, int)>, c: Cell): (r: real)
    ensures 0.0 <= r <= 1.0
    ensures win.None? || IsNa(c) ==> r == 0.0
    ensures DurationValue(c).None? ==> r == 0.0
    ensures win.Some? && DurationValue(c).Some? ==> r == Triangular(DurationValue(c).value, win.value.0, win.value.1)
  {
    match win
    case None => 0.0
    case Some((lo, hi)) =>
      match DurationValue(c)
      case None => 0.0
      case Some(d) => Triangular(d, lo, hi)
  }

  /** A duration right at the centre of the asked-for window fits perfectly. */
  lemma DurScoreAtCenter(lo: int, hi: int, d: real)
    requires d == Center(lo, hi)
    ensures DurScore(Some((lo, hi)), Num(d, "")) == 1.0
  {
  }

  // ---------------------------------------------------------------------
  // Fusion and ranking
  // ---------------------------------------------------------------------

  /** `0.85 * similarity + 0.15 * _dur_score` */
  function FinalScore(similarity: real, dur: real): real
  {
    0.85 * similarity + 0.15 * dur
  }

  /** The fused score rises with either input, and stays in [0, 1] when the similarity does. */
  lemma FinalScoreProperties(s1: real, s2: real, d1: real, d2: real)
    ensures s1 <= s2 && d1 <= d2 ==> FinalScore(s1, d1) <= FinalScore(s2, d2)
    ensures 0.0 <= s1 <= 1.0 && 0.0 <= d1 <= 1.0 ==> 0.0 <= FinalScore(s1, d1) <= 1.0
    ensures s1 < s2 && d1 <= d2 ==> FinalScore(s1, d1) < FinalScore(s2, d2)
  {
  }

  function ScoreHit(win: Option<(int, int)>, h: Hit): (s: Scored)
    ensures s.hit == h
  {
    var dur := DurScore(win, h.rec.durationMin);
    Scored(h, dur, FinalScore(h.similarity, dur))
  }

  function ScoreWith(win: Option<(int, int)>): Hit -> Scored
  {
    h => ScoreHit(win, h)
  }

  predicate SortedDesc(s: seq<Scored>)
  {
    forall i, j :: 0 <= i < j < |s| ==> s[i].final >= s[j].final
  }

  /** Place `x` after every element scoring at least as much. */
  function Insert(x: Scored, s: seq<Scored>): (r: seq<Scored>)
    ensures |r| == |s| + 1
    ensures multiset(r) == multiset(s) + multiset{x}
    ensures r[0] == x || (s != [] && r[0] == s[0])
    decreases |s|
  {
    if s == [] then [x]
    else if s[0].final >= x.final then
      assert s == [s[0]] + s[1..];
      [s[0]] + Insert(x, s[1..])
    else [x] + s
  }

  /** Inserting into a descending sequence keeps it descending. */
  lemma {:induction false} InsertSorted(x: Scored, s: seq<Scored>)
    requires SortedDesc(s)
    ensures SortedDesc(Insert(x, s))
    decreases |s|
  {
    if s != [] && s[0].final >= x.final {
      InsertSorted(x, s[1..]);
      var t := Insert(x, s[1..]);
      assert s[0].final >= t[0].final;
      assert Insert(x, s) == [s[0]] + t;
    }
  }

  /** `sort_values("_final", ascending=False)`: a descending permutation (ties kept in input order). */
  function SortDesc(s: seq<Scored>): (r: seq<Scored>)
    ensures multiset(r) == multiset(s)
    ensures SortedDesc(r)
    decreases |s|
  {
    if s == [] then []
    else
      assert s == s[..|s| - 1] + [s[|s| - 1]];
      InsertSorted(s[|s| - 1], SortDesc(s[..|s| - 1]));
      Insert(s[|s| - 1], SortDesc(s[..|s| - 1]))
  }

  /**
   * The rows `recommend` returns, in order: gate the pool, score it, sort by
   * the fused score and keep the first `k`.
   */
  function Ranked(q: string, k: nat, pool: seq<Hit>): seq<Scored>
  {
    PySlicePrefix(SortDesc(Survivors(q, pool)), k)
  }

  /** The scored survivors of the gate, before sorting. */
  function Survivors(q: string, pool: seq<Hit>): seq<Scored>
  {
    Map(ScoreWith(ExtractDurationWindow(Some(q))), Gate(StrongTerms(Some(q)), pool))
  }

  /** The first `k` rows of a descending sequence score at least as much as every row after them. */
  lemma TopOfSorted(sorted: seq<Scored>, k: nat) returns (rest: seq<Scored>)
    requires SortedDesc(sorted)
    ensures var r := PySlicePrefix(sorted, k);
      SortedDesc(r)
      && |r| == (if k < |sorted| then k else |sorted|)
      && r + rest == sorted
      && forall i, j :: 0 <= i < |r| && 0 <= j < |rest| ==> r[i].final >= rest[j].final
  {
    var r := PySlicePrefix(sorted, k);
    rest := sorted[|r|..];
    assert r + rest == sorted;
    forall i, j | 0 <= i < |r| && 0 <= j < |rest|
      ensures r[i].final >= rest[j].final
    {
      assert r[i] == sorted[i] && rest[j] == sorted[|r| + j];
    }
  }

  /**
   * The ranking is sorted by fused score, holds `min(k, survivors)` rows, all
   * of them survivors, and no survivor left out scores higher than any row kept.
   */
  lemma RankedProperties(q: string, k: nat, pool: seq<Hit>) returns (rest: seq<Scored>)
    ensures var r := Ranked(q, k, pool);
      SortedDesc(r)
      && |r| == (if k < |Survivors(q, pool)| then k else |Survivors(q, pool)|)
      && multiset(r) + multiset(rest) == multiset(Survivors(q, pool))
      && forall i, j :: 0 <= i < |r| && 0 <= j < |rest| ==> r[i].final >= rest[j].final
  {
    var sorted := SortDesc(Survivors(q, pool));
    rest := TopOfSorted(sorted, k);
    assert multiset(Ranked(q, k, pool) + rest) == multiset(sorted);
  }

  /** Every recommended row is a row of the search result that passed the gate. */
  lemma RankedFromPool(q: string, k: nat, pool: seq<Hit>, i: nat)
    requires i < |Ranked(q, k, pool)|
    ensures Ranked(q, k, pool)[i].hit in pool
    ensures StrongTerms(Some(q)) != [] ==> OnTopic(StrongTerms(Some(q)), Ranked(q, k, pool)[i].hit)
  {
    var strong := StrongTerms(Some(q));
    var gated := Gate(strong, pool);
    var win := ExtractDurationWindow(Some(q));
    var scored := Map(ScoreWith(win), gated);
    var sorted := SortDesc(scored);
    var x := Ranked(q, k, pool)[i];
    assert x == sorted[i];
    assert x in multiset(scored);
    var j :| 0 <= j < |scored| && scored[j] == x;
    assert x.hit == gated[j];
    if strong != [] {
      GateMembers(strong, pool, gated[j]);
    }
  }

  /** The response fields of one row. */
  function ToRecommendation(s: Scored): (r: Recommendation)
    ensures r.assessmentName == s.hit.rec.title && r.assessmentUrl == s.hit.rec.url
    ensures r.testType == s.hit.rec.testType && r.level == s.hit.rec.level
    ensures r.language == s.hit.rec.language && r.durationMin == s.hit.rec.durationMin
    ensures r.similarity == s.hit.similarity && r.description == s.hit.rec.description
  {
    var rec := s.hit.rec;
    Recommendation(rec.title, rec.url, rec.testType, rec.level, rec.language,
      rec.durationMin, s.hit.similarity, rec.description)
  }

  /** The loop building the response list: one entry per ranked row, in order. */
  method BuildRecommendations(top: seq<Scored>) returns (recs: seq<Recommendation>)
    ensures recs == Map(ToRecommendation, top)
  {
    recs := [];
    var i := 0;
    while i < |top|
      invariant 0 <= i <= |top|
      invariant recs == Map(ToRecommendation, top[..i])
    {
      recs := recs + [ToRecommendation(top[i])];
      i := i + 1;
    }
    assert top[..i] == top;
  }

  /**
   * `recommend`: 503 when no index is loaded, 400 when the stripped query is
   * empty; otherwise the ranked rows of an over-fetch of `4 * k` candidates,
   * with `count` their number.
   */
  method Recommend(indexLoaded: bool, query: string, topk: int, search: (string, nat) -> seq<Hit>)
    returns (r: Result<Response, HttpError>)
    ensures !indexLoaded ==> r == Failure(IndexNotLoaded)
    ensures indexLoaded && Strip(query) == "" ==> r == Failure(EmptyQuery)
    ensures indexLoaded && Strip(query) != "" ==>
      var q := Strip(query);
      var k := ClampTopK(topk);
      r.Success? && r.value.query == q
      && r.value.recommendations == Map(ToRecommendation, Ranked(q, k, search(q, k * 4)))
      && r.value.count == |r.value.recommendations| <= k
  {
    if !indexLoaded {
      return Failure(IndexNotLoaded);
    }
    var q := Strip(query);
    if q == "" {
      return Failure(EmptyQuery);
    }
    var k := ClampTopK(topk);
    var df := search(q, k * 4);

    var strong := StrongTerms(Some(q));
    if strong != [] {
      df := Filter(OnTopicWith(strong), df);
    }

    var win := ExtractDurationWindow(Some(q));
    var scored := Map(ScoreWith(win), df);
    var top := PySlicePrefix(SortDesc(scored), k);
    assert top == Ranked(q, k, search(q, k * 4));

    var recs := BuildRecommendations(top);
    return Success(Response(q, |recs|, recs));
  }
}
