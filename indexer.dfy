/**
 * The catalog side of the index build: every catalog row becomes one
 * document, written from a fixed template with one slot per field, and the
 * catalog frame is first given every expected column.
 *
 * A row is a map from column name to cell, so that a missing column is a
 * missing key. The embedding model, the FAISS index and the files written
 * are not modelled.
 */
module Indexer {
  import opened Wrappers
  import opened Seqs
  import opened Cells

  type Row = map<string, Cell>

  /** `sg(row, key)`: the cell as text, or "" when the column is missing or the value is NaN. */
  function Sg(row: Row, key: string): (r: string)
    ensures key !in row || IsNa(row[key]) ==> r == ""
    ensures key in row && row[key].Str? ==> r == row[key].s
    ensures key in row && row[key].Num? ==> r == row[key].shown
  {
    if key !in row || IsNa(row[key]) then "" else PyStr(row[key])
  }

  // ---------------------------------------------------------------------
  // The document template
  // ---------------------------------------------------------------------

  /** One `{field}` of the template, with the fixed text before and after it. */
  datatype Slot = Slot(text: string, key: string, suffix: string)

  /** `DOC_TEMPLATE`, slot by slot. */
  const DocTemplate: seq<Slot> := [
    Slot("Assessment Name: ", "title", ". "),
    Slot("Category: ", "category", ". "),
    Slot("Type: ", "test_type", ". "),
    Slot("Level: ", "level", ". "),
    Slot("Duration: ", "duration_min", " minutes. "),
    Slot("Language: ", "language", ". "),
    Slot("Tags: ", "tags", ". "),
    Slot("Description: ", "description", ". ")]

  /** The template's slots filled from `row`, in slot order. */
  function Fill(slots: seq<Slot>, row: Row): string
    decreases |slots|
  {
    if slots == [] then ""
    else slots[0].text + Sg(row, slots[0].key) + slots[0].suffix + Fill(slots[1..], row)
  }

  /** `build_doc(row)` */
  function BuildDoc(row: Row): string
  {
    Fill(DocTemplate, row)
  }

  /** The fixed text of the slots, without the field values. */
  function FixedLength(slots: seq<Slot>): nat
    decreases |slots|
  {
    if slots == [] then 0 else |slots[0].text| + |slots[0].suffix| + FixedLength(slots[1..])
  }

  /** The total length of the field values. */
  function ValuesLength(slots: seq<Slot>, row: Row): nat
    decreases |slots|
  {
    if slots == [] then 0 else |Sg(row, slots[0].key)| + ValuesLength(slots[1..], row)
  }

  lemma {:induction false} FillConcat(a: seq<Slot>, b: seq<Slot>, row: Row)
    ensures Fill(a + b, row) == Fill(a, row) + Fill(b, row)
    decreases |a|
  {
    if a != [] {
      var head := a[0].text + Sg(row, a[0].key) + a[0].suffix;
      assert (a + b)[0] == a[0];
      assert (a + b)[1..] == a[1..] + b;
      FillConcat(a[1..], b, row);
      calc {
        Fill(a + b, row);
        head + Fill(a[1..] + b, row);
        head + (Fill(a[1..], row) + Fill(b, row));
        (head + Fill(a[1..], row)) + Fill(b, row);
      }
    } else {
      assert a + b == b;
    }
  }

  /** The filled template is the slots before `j`, slot `j`, and the slots after it. */
  lemma FillSplit(slots: seq<Slot>, row: Row, j: nat)
    requires j < |slots|
    ensures Fill(slots, row) ==
      Fill(slots[..j], row) + (slots[j].text + Sg(row, slots[j].key) + slots[j].suffix) + Fill(slots[j + 1..], row)
  {
    assert slots == slots[..j] + slots[j..];
    FillConcat(slots[..j], slots[j..], row);
    assert slots[j..][0] == slots[j];
    assert slots[j..][1..] == slots[j + 1..];
  }

  /** The document is the fixed text plus the field values, and nothing else. */
  lemma {:induction false} FillLength(slots: seq<Slot>, row: Row)
    ensures |Fill(slots, row)| == FixedLength(slots) + ValuesLength(slots, row)
    decreases |slots|
  {
    if slots != [] {
      FillLength(slots[1..], row);
    }
  }

  /** The document reads only the template's columns: any other column may change freely. */
  lemma {:induction false} FillIgnores(slots: seq<Slot>, row: Row, key: string, v: Cell)
    requires forall j :: 0 <= j < |slots| ==> slots[j].key != key
    ensures Fill(slots, row[key := v]) == Fill(slots, row)
    decreases |slots|
  {
    if slots != [] {
      assert Sg(row[key := v], slots[0].key) == Sg(row, slots[0].key);
      FillIgnores(slots[1..], row, key, v);
    }
  }

  /** A filled template ends with the suffix of its last slot. */
  lemma {:induction false} FillEnds(slots: seq<Slot>, row: Row)
    requires slots != []
    ensures var suf := slots[|slots| - 1].suffix;
            |suf| <= |Fill(slots, row)| && Fill(slots, row)[|Fill(slots, row)| - |suf|..] == suf
    decreases |slots|
  {
    if |slots| > 1 {
      FillEnds(slots[1..], row);
    }
  }

  /** Every document opens with the title slot and closes with ". ". */
  lemma DocEnds(row: Row)
    ensures "Assessment Name: " + Sg(row, "title") + ". " <= BuildDoc(row)
    ensures |BuildDoc(row)| >= 2 && BuildDoc(row)[|BuildDoc(row)| - 2..] == ". "
  {
    TemplateEnds();
    FillEnds(DocTemplate, row);
  }

  lemma TemplateEnds()
    ensures DocTemplate != [] && DocTemplate[0] == Slot("Assessment Name: ", "title", ". ")
    ensures DocTemplate[|DocTemplate| - 1].suffix == ". "
  {
  }

  /** The duration value is always followed by " minutes. ", even when it is empty. */
  lemma DocDuration(row: Row)
    ensures BuildDoc(row) ==
      Fill(DocTemplate[..4], row) + ("Duration: " + Sg(row, "duration_min") + " minutes. ") + Fill(DocTemplate[5..], row)
  {
    DurationSlot();
    FillSplit(DocTemplate, row, 4);
  }

  lemma DurationSlot()
    ensures |DocTemplate| > 4 && DocTemplate[4] == Slot("Duration: ", "duration_min", " minutes. ")
  {
  }

  /** The document length: 103 characters of template, plus the eight field values. */
  lemma DocLength(row: Row)
    ensures |BuildDoc(row)| == 103 + ValuesLength(DocTemplate, row)
  {
    FillLength(DocTemplate, row);
    TemplateFixedLength();
  }

  lemma TemplateFixedLength()
    ensures FixedLength(DocTemplate) == 103
  {
    var t := DocTemplate;
    assert FixedLength(t[8..]) == 0;
    assert FixedLength(t[7..]) == 15;
    assert FixedLength(t[6..]) == 23;
    assert FixedLength(t[5..]) == 35;
    assert FixedLength(t[4..]) == 55;
    assert FixedLength(t[3..]) == 64;
    assert FixedLength(t[2..]) == 72;
    assert FixedLength(t[1..]) == 84;
  }

  /** The column added for the document plays no part in it. */
  lemma DocIgnoresDocColumn(row: Row, v: Cell)
    ensures BuildDoc(row["doc" := v]) == BuildDoc(row)
  {
    TemplateKeys();
    FillIgnores(DocTemplate, row, "doc", v);
  }

  lemma TemplateKeys()
    ensures forall j :: 0 <= j < |DocTemplate| ==> DocTemplate[j].key != "doc"
  {
  }

  // ---------------------------------------------------------------------
  // The catalog frame
  // ---------------------------------------------------------------------

  /** `SAFE_COLS`: the columns the metadata file keeps. */
  const SafeCols: seq<string> := [
    "assessment_id", "title", "url", "description", "category",
    "test_type", "level", "duration_min", "language", "tags"]

  function NotIn(cols: seq<string>): string -> bool
  {
    c => c !in cols
  }

  /** The expected columns a frame with columns `cols` lacks, in `SAFE_COLS` order. */
  function MissingCols(cols: seq<string>): seq<string>
  {
    Filter(NotIn(cols), SafeCols)
  }

  /** A row with the missing columns added as "". */
  function Blank(row: Row, added: seq<string>): Row
  {
    row + map c | c in added :: Str("")
  }

  /** After the fill, every expected column is there, once, behind the columns the frame had. */
  lemma FilledColumns(cols: seq<string>)
    requires NoDuplicates(cols)
    ensures forall c :: c in SafeCols ==> c in cols + MissingCols(cols)
    ensures NoDuplicates(cols + MissingCols(cols))
  {
    FilterMembers(NotIn(cols), SafeCols);
    forall c | c in SafeCols
      ensures c in cols + MissingCols(cols)
    {
      if c !in cols {
        assert NotIn(cols)(c);
      }
    }
    MissingColsDistinct(cols);
    forall i, j | 0 <= i < j < |cols + MissingCols(cols)|
      ensures (cols + MissingCols(cols))[i] != (cols + MissingCols(cols))[j]
    {
      var all := cols + MissingCols(cols);
      if j >= |cols| && i < |cols| {
        assert all[j] in MissingCols(cols);
        assert NotIn(cols)(all[j]);
      }
    }
  }

  /** The expected columns are distinct, so the ones added are too. */
  lemma MissingColsDistinct(cols: seq<string>)
    ensures NoDuplicates(MissingCols(cols))
  {
    FilterDistinct(NotIn(cols), SafeCols);
  }

  /** The columns as a set, the key set every row of a frame has. */
  function ColumnSet(cols: seq<string>): set<string>
  {
    set c | c in cols
  }

  /** A `pandas` frame as the index build sees it: column labels, and one map per row. */
  class Frame {
    var columns: seq<string>
    var rows: seq<Row>

    ghost predicate Valid()
      reads this
    {
      && NoDuplicates(columns)
      && forall i :: 0 <= i < |rows| ==> rows[i].Keys == ColumnSet(columns)
    }

    constructor (columns: seq<string>, rows: seq<Row>)
      requires NoDuplicates(columns)
      requires forall i :: 0 <= i < |rows| ==> rows[i].Keys == ColumnSet(columns)
      ensures Valid()
      ensures this.columns == columns && this.rows == rows
    {
      this.columns := columns;
      this.rows := rows;
    }

    /** `df.empty`: no rows, or no columns. */
    predicate Empty()
      reads this
    {
      |rows| == 0 || |columns| == 0
    }

    /** `df[c] = values`: a new column is appended, an existing one overwritten. */
    method Assign(c: string, values: seq<Cell>)
      requires Valid() && |values| == |rows|
      modifies this
      ensures Valid()
      ensures columns == old(columns) + (if c in old(columns) then [] else [c])
      ensures |rows| == |old(rows)|
      ensures forall i :: 0 <= i < |rows| ==> rows[i] == old(rows[i])[c := values[i]]
    {
      if c !in columns {
        columns := columns + [c];
      }
      var rs := rows;
      rows := seq(|rs|, i requires 0 <= i < |rs| => rs[i][c := values[i]]);
    }
  }

  /** After `k` expected columns, `cols` and `rows` are `cols0` and `rows0` with the missing ones among them added. */
  ghost predicate FilledUpTo(cols0: seq<string>, rows0: seq<Row>, k: nat, cols: seq<string>, rows: seq<Row>)
    requires k <= |SafeCols|
  {
    && cols == cols0 + Filter(NotIn(cols0), SafeCols[..k])
    && |rows| == |rows0|
    && forall i :: 0 <= i < |rows| ==> rows[i] == Blank(rows0[i], Filter(NotIn(cols0), SafeCols[..k]))
  }

  /** An expected column the frame lacks is added, filled with "". */
  lemma FillStepMissing(cols0: seq<string>, rows0: seq<Row>, k: nat, cols: seq<string>, rows: seq<Row>, rows': seq<Row>)
    requires k < |SafeCols| && FilledUpTo(cols0, rows0, k, cols, rows) && SafeCols[k] !in cols
    requires |rows'| == |rows| && forall i :: 0 <= i < |rows| ==> rows'[i] == rows[i][SafeCols[k] := Str("")]
    ensures FilledUpTo(cols0, rows0, k + 1, cols + [SafeCols[k]], rows')
  {
    var c := SafeCols[k];
    var added := Filter(NotIn(cols0), SafeCols[..k]);
    assert SafeCols[..k + 1] == SafeCols[..k] + [c];
    FilterAppend(NotIn(cols0), SafeCols[..k], c);
    assert NotIn(cols0)(c);
    forall i | 0 <= i < |rows'|
      ensures rows'[i] == Blank(rows0[i], added + [c])
    {
      BlankStep(rows0[i], added, c);
    }
  }

  /** An expected column the frame already has is left alone. */
  lemma FillStepPresent(cols0: seq<string>, rows0: seq<Row>, k: nat, cols: seq<string>, rows: seq<Row>)
    requires k < |SafeCols| && FilledUpTo(cols0, rows0, k, cols, rows) && SafeCols[k] in cols
    ensures FilledUpTo(cols0, rows0, k + 1, cols, rows)
  {
    SkipPresent(cols0, k, cols);
  }

  /** An expected column already present was there from the start, so nothing is added for it. */
  lemma SkipPresent(cols0: seq<string>, k: nat, cols: seq<string>)
    requires k < |SafeCols| && cols == cols0 + Filter(NotIn(cols0), SafeCols[..k]) && SafeCols[k] in cols
    ensures Filter(NotIn(cols0), SafeCols[..k + 1]) == Filter(NotIn(cols0), SafeCols[..k])
  {
    var c := SafeCols[k];
    assert SafeCols[..k + 1] == SafeCols[..k] + [c];
    FilterAppend(NotIn(cols0), SafeCols[..k], c);
    FilterMembers(NotIn(cols0), SafeCols[..k]);
    SafeColsDistinct(k);
    assert !NotIn(cols0)(c);
  }

  lemma SafeColsDistinct(k: nat)
    requires k < |SafeCols|
    ensures SafeCols[k] !in SafeCols[..k]
  {
  }

  lemma BlankStep(row: Row, added: seq<string>, c: string)
    ensures Blank(row, added)[c := Str("")] == Blank(row, added + [c])
  {
  }

  /**
   * The column fill of `main`: each expected column the frame lacks is
   * added, filled with "".
   */
  method FillSafeCols(df: Frame)
    requires df.Valid()
    modifies df
    ensures df.Valid()
    ensures df.columns == old(df.columns) + MissingCols(old(df.columns))
    ensures |df.rows| == |old(df.rows)|
    ensures forall i :: 0 <= i < |df.rows| ==> df.rows[i] == Blank(old(df.rows[i]), MissingCols(old(df.columns)))
  {
    ghost var cols0 := df.columns;
    ghost var rows0 := df.rows;
    for k := 0 to |SafeCols|
      invariant df.Valid()
      invariant FilledUpTo(cols0, rows0, k, df.columns, df.rows)
    {
      var c := SafeCols[k];
      if c !in df.columns {
        ghost var before := df.rows;
        df.Assign(c, seq(|df.rows|, i => Str("")));
        FillStepMissing(cols0, rows0, k, old(df.columns) + Filter(NotIn(cols0), SafeCols[..k]), before, df.rows);
      } else {
        FillStepPresent(cols0, rows0, k, df.columns, df.rows);
      }
    }
    assert SafeCols[..|SafeCols|] == SafeCols;
  }

  /** The document of every row, computed by `df.apply(build_doc, axis=1)`. */
  function Docs(rows: seq<Row>): (r: seq<Cell>)
    ensures |r| == |rows|
  {
    seq(|rows|, i requires 0 <= i < |rows| => Str(BuildDoc(rows[i])))
  }

  /**
   * `main` up to the embedding: an empty catalog aborts the build; otherwise
   * the expected columns are filled in and each row gets its document in
   * column "doc".
   */
  method PrepareCatalog(df: Frame, path: string) returns (r: Result<(), string>)
    requires df.Valid()
    modifies df
    ensures r.Failure? <==> old(df.Empty())
    ensures r.Failure? ==> r.error == "Catalog is empty: " + path && unchanged(df)
    ensures r.Success? ==> df.Valid() && |df.rows| == |old(df.rows)|
    ensures r.Success? ==>
      df.columns == old(df.columns) + MissingCols(old(df.columns)) + (if "doc" in old(df.columns) then [] else ["doc"])
    ensures r.Success? ==> forall i :: 0 <= i < |df.rows| ==>
      df.rows[i] == Blank(old(df.rows[i]), MissingCols(old(df.columns)))["doc" := Docs(Blanked(old(df.rows), MissingCols(old(df.columns))))[i]]
  {
    if df.Empty() {
      return Failure("Catalog is empty: " + path);
    }
    ghost var cols0 := df.columns;
    FillSafeCols(df);
    assert df.rows == Blanked(old(df.rows), MissingCols(cols0));
    DocNotExpected(cols0);
    df.Assign("doc", Docs(df.rows));
    r := Success(());
  }

  /** Every row with the missing expected columns added. */
  function Blanked(rows: seq<Row>, added: seq<string>): (r: seq<Row>)
    ensures |r| == |rows|
  {
    seq(|rows|, i requires 0 <= i < |rows| => Blank(rows[i], added))
  }

  /** "doc" is not an expected column, so the fill never adds it. */
  lemma DocNotExpected(cols: seq<string>)
    ensures "doc" !in MissingCols(cols)
  {
    assert "doc" !in SafeCols;
    FilterKeepsOut(NotIn(cols), SafeCols, "doc");
  }

  lemma FilterKeepsOut<T>(p: T -> bool, s: seq<T>, x: T)
    requires x !in s
    ensures x !in Filter(p, s)
  {
    FilterMembers(p, s);
  }
}
