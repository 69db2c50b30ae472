/**
 * The submission writer: find the query column of the test file, run the
 * retriever on every query and write one (query, URL) row per result.
 *
 * The retriever is a parameter `search` from a query and `topk` to the
 * `url` column of its result, if the result has one; reading and writing
 * CSV files is not modelled.
 */
module Submission {
  import opened Wrappers
  import opened Text
  import opened Seqs
  import opened Cells

  // ---------------------------------------------------------------------
  // The query column
  // ---------------------------------------------------------------------

  /** The accepted names of the query column. */
  const QueryNames: set<string> := {"query", "queries", "jd", "job_description", "text"}

  /** `str(c).strip().lower() in {...}` */
  predicate IsQueryColumn(c: string)
  {
    Lower(Strip(c)) in QueryNames
  }

  /** The message of the `ValueError` raised when no column qualifies. */
  function MissingColumnMessage(path: string): string
  {
    "Could not find a query column in " + path + ". " +
    "Expected one of: query, queries, jd, job_description, text"
  }

  /**
   * The detection loop of `main`: the first column, in column order, whose
   * trimmed lower-cased name is one of the accepted names, or the error.
   */
  method FindQueryColumn(columns: seq<string>, path: string) returns (r: Result<string, string>)
    ensures r.Success? ==> exists i :: 0 <= i < |columns| && columns[i] == r.value && IsQueryColumn(columns[i]) &&
                                       forall j :: 0 <= j < i ==> !IsQueryColumn(columns[j])
    ensures r.Failure? <==> forall i :: 0 <= i < |columns| ==> !IsQueryColumn(columns[i])
    ensures r.Failure? ==> r.error == MissingColumnMessage(path)
  {
    var qcol: Option<string> := None;
    var i := 0;
    while i < |columns|
      invariant 0 <= i <= |columns|
      invariant qcol.None?
      invariant forall j :: 0 <= j < i ==> !IsQueryColumn(columns[j])
    {
      if IsQueryColumn(columns[i]) {
        qcol := Some(columns[i]);
        break;
      }
      i := i + 1;
    }
    if qcol.None? {
      return Failure(MissingColumnMessage(path));
    }
    assert i < |columns| && columns[i] == qcol.value && IsQueryColumn(columns[i]);
    r := Success(qcol.value);
  }

  // ---------------------------------------------------------------------
  // One row per (query, result URL)
  // ---------------------------------------------------------------------

  /** A row of the submission file: exactly the columns `Query` and `Assessment_url`. */
  datatype SubmissionRow = SubmissionRow(query: string, assessmentUrl: Cell)

  /** `res.get("url", [])` */
  function ResultUrls(res: Option<seq<Cell>>): seq<Cell>
  {
    match res
    case None => []
    case Some(urls) => urls
  }

  function Results(search: (string, int) -> Option<seq<Cell>>, topk: int, q: string): seq<Cell>
  {
    ResultUrls(search(q, topk))
  }

  function RowOf(q: string): Cell -> SubmissionRow
  {
    u => SubmissionRow(q, u)
  }

  /** The rows of the submission: query by query, each query's results in result order. */
  function Flatten(qs: seq<string>, search: (string, int) -> Option<seq<Cell>>, topk: int): seq<SubmissionRow>
    decreases |qs|
  {
    if qs == [] then []
    else
      var q := qs[|qs| - 1];
      Flatten(qs[..|qs| - 1], search, topk) + Map(RowOf(q), Results(search, topk, q))
  }

  /** The number of results over all the queries. */
  function TotalResults(qs: seq<string>, search: (string, int) -> Option<seq<Cell>>, topk: int): nat
    decreases |qs|
  {
    if qs == [] then 0
    else TotalResults(qs[..|qs| - 1], search, topk) + |Results(search, topk, qs[|qs| - 1])|
  }

  /** The nested loop of `main` over `df[qcol].astype(str)`. */
  method BuildRows(cells: seq<Cell>, search: (string, int) -> Option<seq<Cell>>, topk: int)
    returns (rows: seq<SubmissionRow>)
    ensures rows == Flatten(Map(PyStr, cells), search, topk)
  {
    var qs := Map(PyStr, cells);
    rows := [];
    for i := 0 to |qs|
      invariant rows == Flatten(qs[..i], search, topk)
    {
      var q := qs[i];
      var urls := Results(search, topk, q);
      ghost var before := rows;
      for j := 0 to |urls|
        invariant rows == before + Map(RowOf(q), urls[..j])
      {
        assert urls[..j + 1] == urls[..j] + [urls[j]];
        MapAppend(RowOf(q), urls[..j], urls[j]);
        rows := rows + [SubmissionRow(q, urls[j])];
      }
      assert urls[..|urls|] == urls;
      assert qs[..i + 1][..i] == qs[..i];
    }
    assert qs[..|qs|] == qs;
  }

  /** There is one row per result. */
  lemma {:induction false} FlattenLength(qs: seq<string>, search: (string, int) -> Option<seq<Cell>>, topk: int)
    ensures |Flatten(qs, search, topk)| == TotalResults(qs, search, topk)
    decreases |qs|
  {
    if qs != [] {
      FlattenLength(qs[..|qs| - 1], search, topk);
    }
  }

  /**
   * Result `j` of query `i` is the row after the results of the queries
   * before it and the results of query `i` before it.
   */
  lemma {:induction false} FlattenAt(qs: seq<string>, search: (string, int) -> Option<seq<Cell>>, topk: int, i: nat, j: nat)
    requires i < |qs| && j < |Results(search, topk, qs[i])|
    ensures TotalResults(qs[..i], search, topk) + j < |Flatten(qs, search, topk)|
    ensures Flatten(qs, search, topk)[TotalResults(qs[..i], search, topk) + j] ==
            SubmissionRow(qs[i], Results(search, topk, qs[i])[j])
    decreases |qs|
  {
    var init := qs[..|qs| - 1];
    var last := qs[|qs| - 1];
    FlattenLength(init, search, topk);
    if i < |qs| - 1 {
      assert init[i] == qs[i];
      assert init[..i] == qs[..i];
      FlattenAt(init, search, topk, i, j);
    } else {
      assert qs[..i] == init;
    }
  }

  /**
   * `main` from the test frame to the submission rows: the query column is
   * detected, or the error is raised before any search.
   */
  method Submit(columns: seq<string>, table: map<string, seq<Cell>>, path: string,
                search: (string, int) -> Option<seq<Cell>>, topk: int)
    returns (r: Result<seq<SubmissionRow>, string>)
    requires forall c :: c in columns ==> c in table
    ensures r.Failure? <==> forall i :: 0 <= i < |columns| ==> !IsQueryColumn(columns[i])
    ensures r.Failure? ==> r.error == MissingColumnMessage(path)
    ensures r.Success? ==>
      exists i :: (0 <= i < |columns| && IsQueryColumn(columns[i]) &&
                   (forall j :: 0 <= j < i ==> !IsQueryColumn(columns[j])) &&
                   r.value == Flatten(Map(PyStr, table[columns[i]]), search, topk))
  {
    var qcol := FindQueryColumn(columns, path);
    if qcol.Failure? {
      return Failure(qcol.error);
    }
    var rows := BuildRows(table[qcol.value], search, topk);
    r := Success(rows);
  }
}
