/**
 * What the recommendation API reads out of a query besides its meaning: a
 * duration window (`extract_duration_window`) and the whitelisted skill and
 * role words (`strong_terms_from_query`).
 */
module QueryConstraints {
  import opened Wrappers
  import opened Text
  import opened Seqs
  import opened DurationRegex

  const ApiUnits: set<string> := {"hour", "hr", "hours", "hrs", "minute", "min", "minutes"}

  /** `(\d+)\s*-\s*(\d+)\s*(hour|hr|hours|hrs|minute|min|minutes)\b` */
  const RangePattern := Pattern(true, OneOrMore, ApiUnits)

  /** `(\d+)\s*(hour|hr|hours|hrs|minute|min|minutes)\b` */
  const SinglePattern := Pattern(false, OneOrMore, ApiUnits)

  /** `"hour" in unit`: only the words spelling out "hour" count as hours. */
  predicate IsHourUnit(unit: string)
  {
    Contains(unit, "hour")
  }

  /** `text or ""` */
  function OrEmptyText(text: Option<string>): string
  {
    if text.Some? then text.value else ""
  }

  function Min(a: int, b: int): int { if a <= b then a else b }
  function Max(a: int, b: int): int { if a >= b then a else b }

  /**
   * The duration window, in minutes, that a query asks for: a range scaled to
   * minutes when its unit is an hour word, or a value widened by 15 minutes
   * on each side (not below zero). The range form is tried first.
   */
  function ExtractDurationWindow(text: Option<string>): (r: Option<(int, int)>)
    ensures r.Some? ==> 0 <= r.value.0 <= r.value.1
  {
    var t := Lower(OrEmptyText(text));
    match Search(RangePattern, t)
    case Some(m) =>
      var (a, b) := if IsHourUnit(m.unit) then (m.first * 60, m.second * 60) else (m.first, m.second);
      Some((Min(a, b), Max(a, b)))
    case None =>
      match Search(SinglePattern, t)
      case Some(m) =>
        var v := if IsHourUnit(m.unit) then m.value * 60 else m.value;
        Some((Max(0, v - 15), v + 15))
      case None => None
  }

  // ---------------------------------------------------------------------
  // Properties of the duration window
  // ---------------------------------------------------------------------

  lemma {:induction false} AbsentFirstChar(s: string, sub: string)
    requires |sub| > 0 && forall i :: 0 <= i < |s| ==> s[i] != sub[0]
    ensures !Contains(s, sub)
  {
    ContainsFirstChar(s, sub);
  }

  lemma {:induction false} ContainsFirstChar(s: string, sub: string)
    requires |sub| > 0
    ensures Contains(s, sub) ==> exists i :: 0 <= i < |s| && s[i] == sub[0]
    decreases |s|
  {
    if sub <= s {
      assert s[0] == sub[0];
    } else if |s| > 0 {
      ContainsFirstChar(s[1..], sub);
      if Contains(s[1..], sub) {
        var i :| 0 <= i < |s| - 1 && s[1..][i] == sub[0];
        assert s[i + 1] == sub[0];
      }
    }
  }

  /** Of the unit words, exactly `hour` and `hours` scale to minutes; `hr` and `hrs` do not. */
  lemma HourUnits()
    ensures forall u :: u in ApiUnits ==> (IsHourUnit(u) <==> u == "hour" || u == "hours")
  {
    assert IsHourUnit("hour") && IsHourUnit("hours") by {
      assert "hour" <= "hours";
    }
    ContainsNone("hr", "hour");
    ContainsNone("hrs", "hour");
    AbsentFirstChar("min", "hour");
    AbsentFirstChar("minute", "hour");
    AbsentFirstChar("minutes", "hour");
  }

  /** The window depends on the query only up to letter case. */
  lemma WindowIgnoresCase(text: string)
    ensures ExtractDurationWindow(Some(Lower(text))) == ExtractDurationWindow(Some(text))
  {
    LowerIdempotent(text);
  }

  lemma LowerKeepsNoDigits(s: string)
    requires NoDigits(s)
    ensures NoDigits(Lower(s))
  {
    forall i | 0 <= i < |s|
      ensures !IsDigit(Lower(s)[i])
    {
      assert !IsDigit(s[i]);
    }
  }

  /** No text, or empty text, asks for no duration. */
  lemma NoTextNoWindow()
    ensures ExtractDurationWindow(None).None?
    ensures ExtractDurationWindow(Some("")).None?
  {
    NoDigitsNoMatch(RangePattern, Lower(""));
    NoDigitsNoMatch(SinglePattern, Lower(""));
  }

  /** A query without a digit asks for no duration. */
  lemma NoDigitsNoWindow(text: string)
    requires NoDigits(text)
    ensures ExtractDurationWindow(Some(text)).None?
  {
    LowerKeepsNoDigits(text);
    NoDigitsNoMatch(RangePattern, Lower(text));
    NoDigitsNoMatch(SinglePattern, Lower(text));
  }

  /**
   * A window found from a single value `v` (in minutes) is `v` widened by 15
   * minutes each way, clipped at zero: at most 30 minutes wide, exactly 30
   * once `v` is 15 or more.
   */
  lemma SingleWindowWidth(text: string)
    requires Search(RangePattern, Lower(text)).None? && ExtractDurationWindow(Some(text)).Some?
    ensures var (lo, hi) := ExtractDurationWindow(Some(text)).value;
      hi - lo <= 30 && (hi >= 30 ==> hi - lo == 30) && hi >= 15
  {
    var t := Lower(OrEmptyText(Some(text)));
    assert t == Lower(text);
    var m := Search(SinglePattern, t).value;
    var v := if IsHourUnit(m.unit) then m.value * 60 else m.value;
    assert ExtractDurationWindow(Some(text)) == Some((Max(0, v - 15), v + 15));
  }

  /**
   * A range and the text after its dash: the second number of a range is
   * always also a single-value match, so the single pattern finds something
   * whenever the range pattern does.
   */
  lemma RangeHasSingle(t: string, i: nat) returns (j: nat)
    requires i <= |t| && MatchAt(RangePattern, t, i).Some?
    ensures i < j < |t|
    ensures MatchAt(SinglePattern, t, j) == Some(Single(MatchAt(RangePattern, t, i).value.second, MatchAt(RangePattern, t, i).value.unit))
  {
    j := RangeEndsInSingle(RangePattern, SinglePattern, t, i);
  }

  /** The query yields a window exactly when some number in it is followed by a unit word. */
  lemma WindowIffSingle(text: string)
    ensures ExtractDurationWindow(Some(text)).Some? <==> Search(SinglePattern, Lower(text)).Some?
  {
    var t := Lower(text);
    if Search(RangePattern, t).Some? {
      var i := SearchLeftmost(RangePattern, t);
      var j := RangeHasSingle(t, i);
      SearchNone(SinglePattern, t);
    }
  }

  // ---------------------------------------------------------------------
  // The examples of the docstring, and the `hr` quirk
  // ---------------------------------------------------------------------

  lemma WindowOfSingle(text: string, v: nat, u: string)
    requires Search(RangePattern, Lower(text)).None?
    requires Search(SinglePattern, Lower(text)) == Some(Single(v, u))
    ensures !IsHourUnit(u) ==> ExtractDurationWindow(Some(text)) == Some((Max(0, v - 15), v + 15))
    ensures IsHourUnit(u) ==> ExtractDurationWindow(Some(text)) == Some((Max(0, v * 60 - 15), v * 60 + 15))
  {
  }

  /**
   * A query with one number, a space and a word after digit-free lower-case
   * text has no range, and its single value is that number when the word is
   * a unit.
   */
  lemma LoneSingleSearches(t: string, pre: string, d: string, u: string)
    requires t == pre + d + " " + u
    requires NoDigits(pre) && NoUpper(pre) && |d| > 0 && AllDigits(d) && IsUnitWord(u) && NoUpper(u)
    ensures Lower(t) == t
    ensures Search(RangePattern, t).None?
    ensures Search(SinglePattern, t) == if u in ApiUnits then Some(Single(DigitsValue(d), u)) else None
  {
    SingleTextLower(t, pre, d, u);
    assert t == pre + d + " " + u + "";
    SearchSingleText(RangePattern, t, pre, d, u, "");
    SearchSingleText(SinglePattern, t, pre, d, u, "");
  }

  /** A query that is one range and a unit word has that range. */
  lemma LoneRangeSearch(t: string, da: string, db: string, u: string)
    requires t == da + "-" + db + " " + u
    requires |da| > 0 && AllDigits(da) && |db| > 0 && AllDigits(db) && IsUnitWord(u) && NoUpper(u)
    ensures Lower(t) == t
    ensures Search(RangePattern, t) == if u in ApiUnits then Some(Range(DigitsValue(da), DigitsValue(db), u)) else None
  {
    RangeTextLower(t, "", da, db, u);
    assert t == "" + da + "-" + db + " " + u + "";
    SearchRangeText(RangePattern, t, "", da, db, u, "");
  }

  lemma Forty()
    ensures DigitsValue("40") == 40
  {
    assert "40"[..1] == "4";
  }

  lemma Sixty()
    ensures DigitsValue("60") == 60
  {
    assert "60"[..1] == "6";
  }

  lemma ExampleFortyMinutes()
    ensures ExtractDurationWindow(Some("40 minutes")) == Some((25, 55))
  {
    FortyMinutesParts();
    MinutesNotHour();
    Forty();
    LoneSingleSearches("40 minutes", "", "40", "minutes");
    WindowOfSingle("40 minutes", 40, "minutes");
  }

  lemma FortyMinutesParts()
    ensures "40 minutes" == "" + "40" + " " + "minutes"
    ensures NoDigits("") && NoUpper("") && |"40"| > 0 && AllDigits("40")
    ensures IsUnitWord("minutes") && NoUpper("minutes") && "minutes" in ApiUnits
  {
  }

  lemma MinutesNotHour()
    ensures !IsHourUnit("minutes")
  {
    AbsentFirstChar("minutes", "hour");
  }

  lemma ExampleAboutSixtyMin()
    ensures ExtractDurationWindow(Some("about 60 min")) == Some((45, 75))
  {
    AboutSixtyMinParts();
    LoneSingleSearches("about 60 min", "about ", "60", "min");
    WindowOfSingle("about 60 min", 60, "min");
  }

  lemma AboutSixtyMinParts()
    ensures "about 60 min" == "about " + "60" + " " + "min"
    ensures NoDigits("about ") && NoUpper("about ") && |"60"| > 0 && AllDigits("60")
    ensures IsUnitWord("min") && NoUpper("min") && "min" in ApiUnits
    ensures DigitsValue("60") == 60 && !IsHourUnit("min")
  {
    Sixty();
    AbsentFirstChar("min", "hour");
  }

  lemma ExampleOneToTwoHours()
    ensures ExtractDurationWindow(Some("1-2 hours")) == Some((60, 120))
  {
    OneToTwoHoursParts();
    LoneRangeSearch("1-2 hours", "1", "2", "hours");
  }

  lemma OneToTwoHoursParts()
    ensures "1-2 hours" == "1" + "-" + "2" + " " + "hours"
    ensures |"1"| > 0 && AllDigits("1") && |"2"| > 0 && AllDigits("2")
    ensures IsUnitWord("hours") && NoUpper("hours") && "hours" in ApiUnits
    ensures DigitsValue("1") == 1 && DigitsValue("2") == 2 && IsHourUnit("hours")
  {
    assert "hour" <= "hours";
  }

  /** `hrs` is a unit word but not an hour word: "2 hrs" is read as two minutes. */
  lemma ExampleTwoHrsAsMinutes()
    ensures ExtractDurationWindow(Some("2 hrs")) == Some((0, 17))
  {
    TwoHrsParts();
    LoneSingleSearches("2 hrs", "", "2", "hrs");
    WindowOfSingle("2 hrs", 2, "hrs");
  }

  lemma TwoHrsParts()
    ensures "2 hrs" == "" + "2" + " " + "hrs"
    ensures NoDigits("") && NoUpper("") && |"2"| > 0 && AllDigits("2")
    ensures IsUnitWord("hrs") && NoUpper("hrs") && "hrs" in ApiUnits
    ensures DigitsValue("2") == 2 && !IsHourUnit("hrs")
  {
    ContainsNone("hrs", "hour");
  }

  lemma ExampleNoTime()
    ensures ExtractDurationWindow(Some("no time mentioned here")).None?
  {
    NoDigitsNoWindow("no time mentioned here");
  }

  // ---------------------------------------------------------------------
  // Strong terms
  // ---------------------------------------------------------------------

  const Whitelist: set<string> := {
    "python", "sql", "excel", "powerbi", "tableau", "r", "statistics", "statistical",
    "developer", "engineer", "analyst", "data", "qa", "testing", "automation",
    "communication", "stakeholder", "manager", "sales", "marketing", "java", "javascript"
  }

  predicate IsStrong(w: string) { w in Whitelist }

  /** `re.findall(r"[a-zA-Z]+", s)`: the maximal runs of ASCII letters, left to right. */
  function LetterRuns(s: string): (r: seq<string>)
    ensures forall i :: 0 <= i < |r| ==> IsUnitWord(r[i])
    decreases |s|
  {
    if s == [] then []
    else if !IsLetter(s[0]) then LetterRuns(s[1..])
    else
      var e := RunEnd(IsLetter, s, 0);
      [s[..e]] + LetterRuns(s[e..])
  }

  /** The words in `ws` concatenated. */
  function Concat(ws: seq<string>): string
    decreases |ws|
  {
    if ws == [] then "" else ws[0] + Concat(ws[1..])
  }

  lemma {:induction false} ConcatAppend(a: seq<string>, b: seq<string>)
    ensures Concat(a + b) == Concat(a) + Concat(b)
    decreases |a|
  {
    if a == [] {
      assert a + b == b;
    } else {
      assert (a + b)[1..] == a[1..] + b;
      ConcatAppend(a[1..], b);
    }
  }

  /** Read together, the runs are exactly the letters of `s`, in order: nothing else, nothing lost. */
  lemma {:induction false} LetterRunsAreTheLetters(s: string)
    ensures Concat(LetterRuns(s)) == Filter(IsLetter, s)
    decreases |s|
  {
    if s != [] {
      if !IsLetter(s[0]) {
        LetterRunsAreTheLetters(s[1..]);
        FilterCons(s);
      } else {
        var e := RunEnd(IsLetter, s, 0);
        LetterRunsAreTheLetters(s[e..]);
        assert s == s[..e] + s[e..];
        FilterConcat(IsLetter, s[..e], s[e..]);
        FilterAllTrue(IsLetter, s[..e]);
      }
    }
  }

  lemma FilterCons(s: string)
    requires s != [] && !IsLetter(s[0])
    ensures Filter(IsLetter, s) == Filter(IsLetter, s[1..])
  {
    assert s == [s[0]] + s[1..];
    FilterConcat(IsLetter, [s[0]], s[1..]);
    assert Filter(IsLetter, [s[0]]) == Filter(IsLetter, []) + [];
  }

  lemma {:induction false} FilterConcat<T>(p: T -> bool, a: seq<T>, b: seq<T>)
    ensures Filter(p, a + b) == Filter(p, a) + Filter(p, b)
    decreases |b|
  {
    if b == [] {
      assert a + b == a;
    } else {
      var b' := b[..|b| - 1];
      var y := b[|b| - 1];
      assert a + b == (a + b') + [y];
      assert b == b' + [y];
      FilterConcat(p, a, b');
      FilterAppend(p, a + b', y);
      FilterAppend(p, b', y);
    }
  }

  /** Words separated by single spaces are found again, one run per word. */
  lemma {:induction false} LetterRunsOfJoin(ws: seq<string>)
    requires forall i :: 0 <= i < |ws| ==> IsUnitWord(ws[i])
    ensures LetterRuns(Join(ws, " ")) == ws
    decreases |ws|
  {
    if ws != [] {
      var w := ws[0];
      var rest := if |ws| == 1 then "" else " " + Join(ws[1..], " ");
      var s := Join(ws, " ");
      assert s == w + rest;
      assert s[..|w|] == w;
      assert s[|w|..] == rest;
      RunEndAt(IsLetter, s, 0, |w|);
      if |ws| > 1 {
        LetterRunsOfJoin(ws[1..]);
        assert rest[1..] == Join(ws[1..], " ");
      }
    }
  }

  /**
   * `strong_terms_from_query`: the letter runs of the query, lower-cased,
   * that are in the whitelist, in query order and with repeats.
   */
  function StrongTerms(q: Option<string>): (r: seq<string>)
    ensures forall i :: 0 <= i < |r| ==> r[i] in Whitelist
  {
    Filter(IsStrong, Map(Lower, LetterRuns(OrEmptyText(q))))
  }

  /**
   * A word is a strong term exactly when it is whitelisted and some letter run
   * of the query lower-cases to it; it appears as often as such runs do.
   */
  lemma StrongTermsMembers(q: string, w: string)
    ensures w in StrongTerms(Some(q)) <==> w in Whitelist && w in Map(Lower, LetterRuns(q))
    ensures multiset(StrongTerms(Some(q)))[w] == if w in Whitelist then multiset(Map(Lower, LetterRuns(q)))[w] else 0
  {
    var lowered := Map(Lower, LetterRuns(q));
    FilterMembers(IsStrong, lowered);
    FilterCount(IsStrong, lowered, w);
  }

  lemma {:induction false} LetterRunsOfLower(s: string)
    ensures LetterRuns(Lower(s)) == Map(Lower, LetterRuns(s))
    decreases |s|
  {
    if s != [] {
      var l := Lower(s);
      assert l[1..] == Lower(s[1..]);
      if !IsLetter(s[0]) {
        LetterRunsOfLower(s[1..]);
      } else {
        var e := RunEnd(IsLetter, s, 0);
        RunEndAt(IsLetter, l, 0, e);
        assert l[..e] == Lower(s[..e]);
        assert l[e..] == Lower(s[e..]);
        LetterRunsOfLower(s[e..]);
        MapConcat(Lower, [s[..e]], LetterRuns(s[e..]));
      }
    }
  }

  /** The strong terms do not depend on letter case. */
  lemma StrongTermsIgnoreCase(q: string)
    ensures StrongTerms(Some(Lower(q))) == StrongTerms(Some(q))
  {
    LetterRunsOfLower(q);
    var runs := LetterRuns(q);
    assert Map(Lower, Map(Lower, runs)) == Map(Lower, runs) by {
      forall i | 0 <= i < |runs|
        ensures Lower(Lower(runs[i])) == Lower(runs[i])
      {
        LowerIdempotent(runs[i]);
      }
    }
  }
}
