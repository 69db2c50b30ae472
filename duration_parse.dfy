/**
 * `parse_duration_minutes` of the catalog augmenter: an ordered list of four
 * duration expressions, tried one after the other on the lower-cased text;
 * the first one that yields a number of minutes wins.
 */
module DurationParse {
  import opened Wrappers
  import opened Text
  import opened DurationRegex

  const MinuteUnits: set<string> := {"minutes", "min"}
  const HourUnits: set<string> := {"hours", "hour", "hrs", "hr"}

  /** `(\d{1,3})\s*-\s*(\d{1,3})\s*(minutes|min)\b` */
  const MinuteRange := Pattern(true, UpTo(3), MinuteUnits)
  /** `(\d{1,3})\s*-\s*(\d{1,3})\s*(hours|hour|hrs|hr)\b` */
  const HourRange := Pattern(true, UpTo(3), HourUnits)
  /** `(\d{1,3})\s*(minutes|min)\b` */
  const MinuteSingle := Pattern(false, UpTo(3), MinuteUnits)
  /** `(\d{1,2})\s*(hours|hour|hrs|hr)\b` */
  const HourSingle := Pattern(false, UpTo(2), HourUnits)

  /** `DUR_PATTERNS`, in the order they are tried. */
  const DurPatterns: seq<Pattern> := [MinuteRange, HourRange, MinuteSingle, HourSingle]

  /** `int(round(x / 2))` for a natural `x`: halves go to the even neighbour. */
  function HalfToEven(x: nat): (r: nat)
    ensures x % 2 == 0 ==> 2 * r == x
    ensures x % 2 == 1 ==> (2 * r == x - 1 || 2 * r == x + 1) && r % 2 == 0
  {
    if x % 2 == 0 || (x / 2) % 2 == 0 then x / 2 else x / 2 + 1
  }

  /** The midpoint of a range, as `int(round((a + b) / 2))`. */
  function Midpoint(a: nat, b: nat): (r: nat)
  {
    HalfToEven(a + b)
  }

  /** The midpoint lies between the two bounds, within half a minute of the exact middle. */
  lemma MidpointBetween(a: nat, b: nat)
    ensures (if a <= b then a else b) <= Midpoint(a, b) <= (if a <= b then b else a)
    ensures -1 <= 2 * Midpoint(a, b) - (a + b) <= 1
    ensures Midpoint(a, b) == Midpoint(b, a)
  {
  }

  /** What one match contributes: the minutes, or nothing and the next pattern is tried. */
  function Minutes(m: Match): (r: Option<nat>)
  {
    match m
    case Range(a, b, unit) =>
      if "hour" <= unit then Some(Midpoint(a * 60, b * 60)) else Some(Midpoint(a, b))
    case Single(v, unit) =>
      if "min" <= unit then Some(v)
      else if "hour" <= unit then Some(v * 60)
      else None
  }

  /** The first pattern of `pats` whose match yields minutes decides. */
  function ParseWith(pats: seq<Pattern>, t: string): Option<nat>
    decreases |pats|
  {
    if pats == [] then None
    else
      match Search(pats[0], t)
      case Some(m) =>
        if Minutes(m).Some? then Minutes(m) else ParseWith(pats[1..], t)
      case None => ParseWith(pats[1..], t)
  }

  /** `parse_duration_minutes(text)` */
  function ParseDuration(text: string): Option<nat>
  {
    if text == "" then None else ParseWith(DurPatterns, Lower(text))
  }

  /** The loop of `parse_duration_minutes`, returning from inside it. */
  method ParseDurationMinutes(text: string) returns (r: Option<nat>)
    ensures r == ParseDuration(text)
  {
    if text == "" {
      return None;
    }
    var t := Lower(text);
    var k := 0;
    while k < |DurPatterns|
      invariant 0 <= k <= |DurPatterns|
      invariant ParseWith(DurPatterns, t) == ParseWith(DurPatterns[k..], t)
    {
      assert DurPatterns[k..][1..] == DurPatterns[k + 1..];
      var m := Search(DurPatterns[k], t);
      if m.None? {
        k := k + 1;
        continue;
      }
      match m.value {
        case Range(a, b, unit) =>
          var lo, hi := a, b;
          if "hour" <= unit {
            lo, hi := a * 60, b * 60;
          }
          return Some(Midpoint(lo, hi));
        case Single(v, unit) =>
          if "min" <= unit {
            return Some(v);
          }
          if "hour" <= unit {
            return Some(v * 60);
          }
      }
      k := k + 1;
    }
    return None;
  }

  // ---------------------------------------------------------------------
  // Properties
  // ---------------------------------------------------------------------

  /** Case does not matter: the text is lower-cased first. */
  lemma ParseIgnoresCase(text: string)
    ensures ParseDuration(Lower(text)) == ParseDuration(text)
  {
    LowerIdempotent(text);
  }

  /** A text without digits has no duration. */
  lemma NoDigitsNoDuration(text: string)
    requires NoDigits(text)
    ensures ParseDuration(text).None?
  {
    var t := Lower(text);
    assert NoDigits(t);
    NoDigitsNoMatch(MinuteRange, t);
    NoDigitsNoMatch(HourRange, t);
    NoDigitsNoMatch(MinuteSingle, t);
    NoDigitsNoMatch(HourSingle, t);
    PatternsAfter();
    assert ParseWith(DurPatterns, t) == ParseWith([HourRange, MinuteSingle, HourSingle], t);
    assert ParseWith(DurPatterns, t) == ParseWith([MinuteSingle, HourSingle], t);
    assert ParseWith(DurPatterns, t) == ParseWith([HourSingle], t);
    assert [HourSingle][1..] == [];
  }

  /** Every pattern's matches yield at most 999 hours in minutes. */
  lemma {:induction false} ParseWithBound(pats: seq<Pattern>, t: string)
    requires forall k :: 0 <= k < |pats| ==> pats[k].digits == UpTo(2) || pats[k].digits == UpTo(3)
    ensures ParseWith(pats, t).Some? ==> ParseWith(pats, t).value <= 999 * 60
    decreases |pats|
  {
    if pats != [] {
      var p := pats[0];
      match Search(p, t)
      case Some(m) =>
        SearchBound(p, t);
        assert Pow10(p.digits.n) <= 1000 by {
          Pow10Monotone(p.digits.n, 3);
        }
        if Minutes(m).None? {
          ParseWithBound(pats[1..], t);
        } else if m.Range? {
          MidpointBetween(m.first * 60, m.second * 60);
          MidpointBetween(m.first, m.second);
        }
      case None =>
        ParseWithBound(pats[1..], t);
    }
  }

  /** A parsed duration never exceeds 59940 minutes. */
  lemma ParseBound(text: string)
    ensures ParseDuration(text).Some? ==> ParseDuration(text).value <= 59940
  {
    if text != "" {
      ParseWithBound(DurPatterns, Lower(text));
    }
  }

  /** The patterns left after the first `k` have been tried. */
  lemma PatternsAfter()
    ensures DurPatterns[0] == MinuteRange && DurPatterns[1..] == [HourRange, MinuteSingle, HourSingle]
    ensures DurPatterns[1..][1..] == [MinuteSingle, HourSingle]
    ensures DurPatterns[1..][1..][1..] == [HourSingle]
    ensures DurPatterns[1..][1..][1..][1..] == []
  {
  }

  /** A minute range anywhere in the text wins over everything else, wherever the rest stands. */
  lemma MinuteRangeFirst(text: string, m: Match)
    requires text != "" && Search(MinuteRange, Lower(text)) == Some(m)
    ensures ParseDuration(text) == Some(Midpoint(m.first, m.second))
  {
    PatternsAfter();
    assert m.Range? && m.unit in MinuteUnits;
    assert !("hour" <= m.unit) by {
      assert m.unit[1] == 'i';
    }
  }

  /** Without a minute range, an hour range decides; only a unit starting with "hour" is scaled. */
  lemma HourRangeSecond(text: string, m: Match)
    requires text != "" && Search(MinuteRange, Lower(text)).None?
    requires Search(HourRange, Lower(text)) == Some(m)
    ensures "hour" <= m.unit ==> ParseDuration(text) == Some(Midpoint(m.first * 60, m.second * 60))
    ensures !("hour" <= m.unit) ==> ParseDuration(text) == Some(Midpoint(m.first, m.second))
  {
    PatternsAfter();
    var t := Lower(text);
    assert ParseDuration(text) == ParseWith([HourRange, MinuteSingle, HourSingle], t);
    assert m.Range?;
  }

  /** Without any range, a single minute value is the duration. */
  lemma MinuteSingleThird(text: string, m: Match)
    requires text != "" && Search(MinuteRange, Lower(text)).None? && Search(HourRange, Lower(text)).None?
    requires Search(MinuteSingle, Lower(text)) == Some(m)
    ensures ParseDuration(text) == Some(m.value)
  {
    PatternsAfter();
    var t := Lower(text);
    assert ParseDuration(text) == ParseWith([HourRange, MinuteSingle, HourSingle], t);
    assert ParseDuration(text) == ParseWith([MinuteSingle, HourSingle], t);
    assert m.Single? && m.unit in MinuteUnits;
    assert "min" <= m.unit;
  }

  /**
   * Otherwise a single hour value is scaled to minutes, and a single
   * "hr"/"hrs" value yields nothing: the loop runs out of patterns.
   */
  lemma HourSingleLast(text: string, m: Match)
    requires text != "" && Search(MinuteRange, Lower(text)).None? && Search(HourRange, Lower(text)).None?
    requires Search(MinuteSingle, Lower(text)).None?
    requires Search(HourSingle, Lower(text)) == Some(m)
    ensures m.unit in {"hours", "hour"} ==> ParseDuration(text) == Some(m.value * 60)
    ensures m.unit in {"hrs", "hr"} ==> ParseDuration(text).None?
  {
    PatternsAfter();
    var t := Lower(text);
    assert ParseDuration(text) == ParseWith([HourRange, MinuteSingle, HourSingle], t);
    assert ParseDuration(text) == ParseWith([MinuteSingle, HourSingle], t);
    assert ParseDuration(text) == ParseWith([HourSingle], t);
    assert m.Single? && m.unit in HourUnits;
    assert !("min" <= m.unit) by {
      assert m.unit[0] == 'h';
    }
    if m.unit == "hrs" || m.unit == "hr" {
      assert !("hour" <= m.unit) by {
        assert m.unit[1] == 'r';
      }
      assert Minutes(m).None?;
      assert [HourSingle][1..] == [];
      assert ParseWith([HourSingle], t) == ParseWith([], t);
    } else {
      assert "hour" <= m.unit;
    }
  }

  // ---------------------------------------------------------------------
  // Texts of a known shape, and the examples
  // ---------------------------------------------------------------------

  /** The unit words are lower-case letters. */
  lemma PlainUnit(u: string)
    requires u in MinuteUnits || u in HourUnits
    ensures IsUnitWord(u) && NoUpper(u)
  {
  }

  lemma RangePatterns()
    ensures MinuteRange.isRange && MinuteRange.digits == UpTo(3) && "" !in MinuteRange.units
    ensures HourRange.isRange && HourRange.digits == UpTo(3) && "" !in HourRange.units
  {
  }

  lemma LoneRangeSearches(t: string, da: string, db: string, u: string)
    requires t == da + "-" + db + " " + u
    requires 1 <= |da| <= 3 && 1 <= |db| <= 3 && AllDigits(da) && AllDigits(db) && IsUnitWord(u) && NoUpper(u)
    ensures Lower(t) == t
    ensures Search(MinuteRange, t) == if u in MinuteUnits then Some(Range(DigitsValue(da), DigitsValue(db), u)) else None
    ensures Search(HourRange, t) == if u in HourUnits then Some(Range(DigitsValue(da), DigitsValue(db), u)) else None
  {
    RangeAlone(t, da, db, u);
    RangeTextLower(t, "", da, db, u);
    RangePatterns();
    LoneRangeSearch(MinuteRange, t, da, db, u);
    LoneRangeSearch(HourRange, t, da, db, u);
  }

  lemma LoneRangeSearch(p: Pattern, t: string, da: string, db: string, u: string)
    requires t == da + "-" + db + " " + u
    requires 1 <= |da| <= 3 && 1 <= |db| <= 3 && AllDigits(da) && AllDigits(db) && IsUnitWord(u)
    requires p.isRange && p.digits == UpTo(3) && "" !in p.units
    ensures Search(p, t) == if u in p.units then Some(Range(DigitsValue(da), DigitsValue(db), u)) else None
  {
    RangeAlone(t, da, db, u);
    SearchRangeText(p, t, "", da, db, u, "");
  }

  lemma RangeAlone(t: string, da: string, db: string, u: string)
    requires t == da + "-" + db + " " + u
    ensures t == "" + da + "-" + db + " " + u + ""
    ensures NoDigits("") && BoundaryAhead("")
  {
    assert "" + da == da;
    assert t + "" == t;
  }

  /** A text that is just a range of up to three digits each and a unit gives that range's minutes. */
  lemma ParseLoneRange(t: string, da: string, db: string, u: string)
    requires t == da + "-" + db + " " + u
    requires 1 <= |da| <= 3 && 1 <= |db| <= 3 && AllDigits(da) && AllDigits(db)
    requires u in MinuteUnits || u in HourUnits
    ensures ParseDuration(t) == Minutes(Range(DigitsValue(da), DigitsValue(db), u))
  {
    PlainUnit(u);
    LoneRangeSearches(t, da, db, u);
    var m := Range(DigitsValue(da), DigitsValue(db), u);
    assert t != [] by { assert t[|da|] == '-'; }
    if u in MinuteUnits {
      ParseMinuteRange(t, m);
    } else {
      ParseHourRange(t, m);
    }
  }

  /** A minute range found first is the result. */
  lemma ParseMinuteRange(t: string, m: Match)
    requires t != "" && Search(MinuteRange, Lower(t)) == Some(m)
    ensures ParseDuration(t) == Minutes(m)
  {
    MinuteRangeFirst(t, m);
    assert !("hour" <= m.unit) by { assert m.unit[1] == 'i'; }
  }

  /** Without a minute range, an hour range found is the result. */
  lemma ParseHourRange(t: string, m: Match)
    requires t != "" && Search(MinuteRange, Lower(t)).None? && Search(HourRange, Lower(t)) == Some(m)
    ensures ParseDuration(t) == Minutes(m)
  {
    HourRangeSecond(t, m);
  }

  lemma LoneSingleSearches(t: string, pre: string, d: string, u: string)
    requires t == pre + d + " " + u
    requires NoDigits(pre) && NoUpper(pre) && 1 <= |d| <= 2 && AllDigits(d) && IsUnitWord(u) && NoUpper(u)
    ensures Lower(t) == t
    ensures Search(MinuteRange, t).None? && Search(HourRange, t).None?
    ensures Search(MinuteSingle, t) == if u in MinuteUnits then Some(Single(DigitsValue(d), u)) else None
    ensures Search(HourSingle, t) == if u in HourUnits then Some(Single(DigitsValue(d), u)) else None
  {
    SingleTextLower(t, pre, d, u);
    assert t == pre + d + " " + u + "";
    SearchSingleText(MinuteRange, t, pre, d, u, "");
    SearchSingleText(HourRange, t, pre, d, u, "");
    SearchSingleText(MinuteSingle, t, pre, d, u, "");
    SearchSingleText(HourSingle, t, pre, d, u, "");
  }

  /**
   * A text with one number of up to two digits and a unit: minutes are taken
   * as they are, "hour"/"hours" are scaled, and "hr"/"hrs" give nothing.
   */
  lemma ParseLoneSingle(t: string, pre: string, d: string, u: string)
    requires t == pre + d + " " + u && t != ""
    requires NoDigits(pre) && NoUpper(pre) && 1 <= |d| <= 2 && AllDigits(d)
    requires u in MinuteUnits || u in HourUnits
    ensures u in MinuteUnits ==> ParseDuration(t) == Some(DigitsValue(d))
    ensures u in {"hours", "hour"} ==> ParseDuration(t) == Some(DigitsValue(d) * 60)
    ensures u in {"hrs", "hr"} ==> ParseDuration(t).None?
  {
    PlainUnit(u);
    LoneSingleSearches(t, pre, d, u);
    var m := Single(DigitsValue(d), u);
    if u in MinuteUnits {
      MinuteSingleThird(t, m);
    } else {
      HourSingleLast(t, m);
    }
  }

  lemma SmallNumerals()
    ensures DigitsValue("1") == 1 && DigitsValue("2") == 2
    ensures DigitsValue("45") == 45 && DigitsValue("60") == 60
  {
    assert "45"[..1] == "4";
    assert "60"[..1] == "6";
  }

  lemma UnitPrefixes()
    ensures "hour" <= "hours" && !("hour" <= "hrs") && !("hour" <= "hr") && !("hour" <= "minutes")
    ensures "min" <= "minutes" && "min" <= "min"
  {
    assert "hrs"[1] != "hour"[1];
    assert "minutes"[0] != "hour"[0];
  }

  /** "45-60 minutes" is 52: 52.5 goes to the even neighbour. */
  lemma ExampleMinuteRange()
    ensures ParseDuration("45-60 minutes") == Some(52)
  {
    SmallNumerals();
    ParseLoneRange("45-60 minutes", "45", "60", "minutes");
    UnitPrefixes();
  }

  /** "1-2 hours" is 90 minutes. */
  lemma ExampleHourRange()
    ensures ParseDuration("1-2 hours") == Some(90)
  {
    SmallNumerals();
    ParseLoneRange("1-2 hours", "1", "2", "hours");
    UnitPrefixes();
  }

  /** "1-2 hrs" is taken as 1 to 2 minutes: only units starting with "hour" are scaled. */
  lemma ExampleHrsRange()
    ensures ParseDuration("1-2 hrs") == Some(2)
  {
    SmallNumerals();
    ParseLoneRange("1-2 hrs", "1", "2", "hrs");
    UnitPrefixes();
  }

  /** "2 hours" is 120 minutes. */
  lemma ExampleTwoHours()
    ensures ParseDuration("2 hours") == Some(120)
  {
    TwoHoursParts();
    ParseLoneSingle("2 hours", "", "2", "hours");
  }

  lemma TwoHoursParts()
    ensures "2 hours" == "" + "2" + " " + "hours" && "2 hours" != ""
    ensures NoDigits("") && NoUpper("") && 1 <= |"2"| <= 2 && AllDigits("2") && DigitsValue("2") == 2
    ensures "hours" in HourUnits && "hours" in {"hours", "hour"}
  {
  }

  /** "2 hr" is nothing: the unit is an hour word that does not start with "hour". */
  lemma ExampleTwoHr()
    ensures ParseDuration("2 hr").None?
  {
    TwoHrParts();
    ParseLoneSingle("2 hr", "", "2", "hr");
  }

  lemma TwoHrParts()
    ensures "2 hr" == "" + "2" + " " + "hr" && "2 hr" != ""
    ensures NoDigits("") && NoUpper("") && 1 <= |"2"| <= 2 && AllDigits("2")
    ensures "hr" in HourUnits && "hr" in {"hrs", "hr"}
  {
  }

  /** "1234 minutes" is 234: `\d{1,3}` matches the last three digits. */
  lemma ExampleLongNumber()
    ensures ParseDuration("1234 minutes") == Some(234)
  {
    var t := "1234 minutes";
    LongNumberSearches();
    MinuteSingleThird(t, Single(234, "minutes"));
  }

  lemma LongNumberSearches()
    ensures Lower("1234 minutes") == "1234 minutes"
    ensures Search(MinuteRange, "1234 minutes").None? && Search(HourRange, "1234 minutes").None?
    ensures Search(MinuteSingle, "1234 minutes") == Some(Single(234, "minutes"))
  {
    var t := "1234 minutes";
    LongNumberText();
    SingleTextLower(t, "", "1234", "minutes");
    NoDashNoRange(MinuteRange, t);
    NoDashNoRange(HourRange, t);
    SearchLongRun(MinuteSingle, "", "1234", "minutes", "");
    LongNumberValue();
  }

  lemma LongNumberText()
    ensures "1234 minutes" == "" + "1234" + " " + "minutes" + ""
    ensures AllDigits("1234") && NoDigits("") && NoUpper("") && IsUnitWord("minutes") && NoUpper("minutes")
    ensures "1234 minutes" == "" + "1234" + " " + "minutes" && BoundaryAhead("")
    ensures forall k :: 0 <= k < |"1234 minutes"| ==> "1234 minutes"[k] != '-'
  {
  }

  lemma LongNumberValue()
    ensures DigitsValue("1234"[|"1234"| - 3..]) == 234
  {
    assert "1234"[1..] == "234";
    assert "234"[..2] == "23";
    assert "23"[..1] == "2";
  }
}
