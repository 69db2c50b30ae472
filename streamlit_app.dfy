/**
 * The two pure helpers of the web front end: which result columns are
 * shown, and how a URL cell becomes a Markdown link. The widgets, the
 * cached index and the CSV download are not modelled.
 */
module StreamlitApp {
  import opened Text
  import opened Seqs
  import opened Cells

  /** The columns the result table shows, in display order. */
  const Preferred: seq<string> := [
    "title", "url", "test_type", "level", "language",
    "duration_min", "similarity", "description"]

  function InColumns(columns: seq<string>): string -> bool
  {
    c => c in columns
  }

  /** `_select_columns(df)`: the preferred columns the frame has, in preferred order. */
  function SelectColumns(columns: seq<string>): seq<string>
  {
    Filter(InColumns(columns), Preferred)
  }

  /**
   * The selection holds exactly the preferred columns present, each once,
   * in the order of the preferred list.
   */
  lemma SelectColumnsProperties(columns: seq<string>)
    ensures forall c :: c in SelectColumns(columns) <==> c in Preferred && c in columns
    ensures NoDuplicates(SelectColumns(columns))
    ensures SubsequenceOf(SelectColumns(columns), Preferred)
  {
    FilterMembers(InColumns(columns), Preferred);
    PreferredDistinct();
    FilterDistinct(InColumns(columns), Preferred);
    var _ := FilterSubsequence(InColumns(columns), Preferred);
  }

  lemma PreferredDistinct()
    ensures NoDuplicates(Preferred)
  {
  }

  /** The selection is empty exactly when the frame has none of the preferred columns. */
  lemma SelectColumnsEmpty(columns: seq<string>)
    ensures SelectColumns(columns) == [] <==> forall c :: c in Preferred ==> c !in columns
  {
    FilterMembers(InColumns(columns), Preferred);
    if SelectColumns(columns) != [] {
      assert SelectColumns(columns)[0] in SelectColumns(columns);
    }
  }

  const LinkOpen: string := "[link]("

  /** `_linkify(u)`: a Markdown link for a string that is not blank, "" for anything else. */
  function Linkify(u: Cell): (r: string)
    ensures r != "" ==> u.Str? && |r| == |u.s| + 8 && r[..7] == LinkOpen && r[|r| - 1] == ')'
  {
    if u.Str? && Strip(u.s) != "" then LinkOpen + u.s + ")" else ""
  }

  /** No link for a missing value, a number, or a string of white space only; a link otherwise. */
  lemma LinkifyEmpty(u: Cell)
    ensures Linkify(u) == "" <==> !u.Str? || forall i :: 0 <= i < |u.s| ==> IsSpace(u.s[i])
  {
    if u.Str? {
      StripEmptyIffBlank(u.s);
    }
  }

  /** The target between the parentheses of a link. */
  function LinkTarget(link: string): string
    requires |link| >= 8
  {
    link[7..|link| - 1]
  }

  /** The link target is the cell's text exactly as it was, surrounding white space included. */
  lemma LinkifyKeepsUrl(s: string)
    requires exists i :: 0 <= i < |s| && !IsSpace(s[i])
    ensures |Linkify(Str(s))| >= 8 && LinkTarget(Linkify(Str(s))) == s
  {
    StripEmptyIffBlank(s);
  }
}
