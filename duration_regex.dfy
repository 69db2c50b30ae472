/**
 * The duration regular expressions of the program, as a scanner.
 *
 * Every duration expression has one of two shapes over a lower-cased text:
 *   single: `(D)\s*(U)\b`
 *   range:  `(D)\s*-\s*(D)\s*(U)\b`
 * where D is `\d+` or `\d{1,n}` and U is an alternation of unit words.
 *
 * Backtracking never rescues a failed attempt: a digit group is always
 * followed by something that cannot be a digit, so a group starting at `i`
 * matches exactly when the whole run of digits from `i` has an allowed
 * length; and `U\b` matches exactly when the run of word characters at that
 * point is one of the unit words. `re.search` is the match at the leftmost
 * position where one exists.
 */
module DurationRegex {
  import opened Wrappers
  import opened Text

  /** The digit group: `\d+`, or `\d{1,n}`. */
  datatype Digits = OneOrMore | UpTo(n: nat)

  /** A run of `len` digits is a whole match of the digit group. */
  predicate Fits(d: Digits, len: nat)
  {
    len >= 1 && (d.UpTo? ==> len <= d.n)
  }

  datatype Pattern = Pattern(isRange: bool, digits: Digits, units: set<string>)

  /** The groups of a match, the digits already converted with `int()`. */
  datatype Match = Range(first: nat, second: nat, unit: string) | Single(value: nat, unit: string)

  /** The digit group at `i`: its value and the position after it. */
  function DigitGroup(d: Digits, t: string, i: nat): (r: Option<(nat, nat)>)
    requires i <= |t|
    ensures r.Some? ==> i < r.value.1 <= |t| && Fits(d, r.value.1 - i)
  {
    var e := RunEnd(IsDigit, t, i);
    if Fits(d, e - i) then
      assert AllDigits(t[i..e]);
      Some((DigitsValue(t[i..e]), e))
    else None
  }

  /** The unit alternation followed by `\b`, at `i`. */
  function UnitAt(units: set<string>, t: string, i: nat): (r: Option<string>)
    requires i <= |t|
    ensures r.Some? ==> r.value in units
  {
    var w := RunEnd(IsWordChar, t, i);
    if t[i..w] in units then Some(t[i..w]) else None
  }

  /** The match of `p` that starts at position `i`, if any. */
  function MatchAt(p: Pattern, t: string, i: nat): (r: Option<Match>)
    requires i <= |t|
    ensures r.Some? ==> i < |t| && IsDigit(t[i])
    ensures r.Some? ==> r.value.Range? == p.isRange && r.value.unit in p.units
  {
    match DigitGroup(p.digits, t, i)
    case None => None
    case Some((a, e1)) => if p.isRange then RangeRest(p, t, a, e1) else SingleRest(p, t, a, e1)
  }

  /** A single-value pattern after its number `a` ending at `e1`: spaces, then the unit. */
  function SingleRest(p: Pattern, t: string, a: nat, e1: nat): (r: Option<Match>)
    requires e1 <= |t|
    ensures r.Some? ==> r.value.Single? && r.value.value == a && r.value.unit in p.units
  {
    match UnitAt(p.units, t, RunEnd(IsSpace, t, e1))
    case None => None
    case Some(u) => Some(Single(a, u))
  }

  /** A range pattern after its first number `a` ending at `e1`: a dash, the second number, the unit. */
  function RangeRest(p: Pattern, t: string, a: nat, e1: nat): (r: Option<Match>)
    requires e1 <= |t|
    ensures r.Some? ==> r.value.Range? && r.value.first == a && r.value.unit in p.units
  {
    var s1 := RunEnd(IsSpace, t, e1);
    if s1 < |t| && t[s1] == '-' then
      match DigitGroup(p.digits, t, RunEnd(IsSpace, t, s1 + 1))
      case None => None
      case Some((b, e2)) =>
        match UnitAt(p.units, t, RunEnd(IsSpace, t, e2))
        case None => None
        case Some(u) => Some(Range(a, b, u))
    else None
  }

  /**
   * The second number of a range, with the range's unit, is also a match of
   * a single-value pattern that has the same digits and the same units.
   */
  lemma RangeEndsInSingle(p: Pattern, q: Pattern, t: string, i: nat) returns (j: nat)
    requires p.isRange && !q.isRange && p.digits == q.digits && p.units == q.units
    requires i <= |t| && MatchAt(p, t, i).Some?
    ensures i < j < |t|
    ensures MatchAt(q, t, j) == Some(Single(MatchAt(p, t, i).value.second, MatchAt(p, t, i).value.unit))
  {
    var (a, e1) := DigitGroup(p.digits, t, i).value;
    assert MatchAt(p, t, i) == RangeRest(p, t, a, e1);
    j := RangeRestSecond(p, q, t, a, e1);
  }

  lemma RangeRestSecond(p: Pattern, q: Pattern, t: string, a: nat, e1: nat) returns (j: nat)
    requires !q.isRange && p.digits == q.digits && p.units == q.units
    requires e1 <= |t| && RangeRest(p, t, a, e1).Some?
    ensures e1 < j < |t|
    ensures MatchAt(q, t, j) == Some(Single(RangeRest(p, t, a, e1).value.second, RangeRest(p, t, a, e1).value.unit))
  {
    var s1 := RunEnd(IsSpace, t, e1);
    j := RunEnd(IsSpace, t, s1 + 1);
    var (b, e2) := DigitGroup(p.digits, t, j).value;
    var u := UnitAt(p.units, t, RunEnd(IsSpace, t, e2)).value;
    assert RangeRest(p, t, a, e1) == Some(Range(a, b, u));
    assert MatchAt(q, t, j) == SingleRest(q, t, b, e2);
  }

  function SearchFrom(p: Pattern, t: string, i: nat): (r: Option<Match>)
    requires i <= |t|
    ensures r.Some? ==> r.value.Range? == p.isRange && r.value.unit in p.units
    decreases |t| - i
  {
    if i == |t| then None
    else if MatchAt(p, t, i).Some? then MatchAt(p, t, i)
    else SearchFrom(p, t, i + 1)
  }

  /** `re.search(p, t)` */
  function Search(p: Pattern, t: string): (r: Option<Match>)
    ensures r.Some? ==> r.value.Range? == p.isRange && r.value.unit in p.units
  {
    SearchFrom(p, t, 0)
  }

  // ---------------------------------------------------------------------
  // Search is the leftmost match
  // ---------------------------------------------------------------------

  lemma {:induction false} SearchFromNone(p: Pattern, t: string, i: nat)
    requires i <= |t|
    ensures SearchFrom(p, t, i).None? <==> forall j :: i <= j < |t| ==> MatchAt(p, t, j).None?
    decreases |t| - i
  {
    if i < |t| {
      SearchFromNone(p, t, i + 1);
    }
  }

  lemma {:induction false} SearchFromLeftmost(p: Pattern, t: string, i: nat) returns (j: nat)
    requires i <= |t| && SearchFrom(p, t, i).Some?
    ensures i <= j < |t| && MatchAt(p, t, j) == SearchFrom(p, t, i)
    ensures forall k :: i <= k < j ==> MatchAt(p, t, k).None?
    decreases |t| - i
  {
    if MatchAt(p, t, i).Some? {
      j := i;
    } else {
      j := SearchFromLeftmost(p, t, i + 1);
    }
  }

  /** `re.search` finds nothing exactly when the pattern matches at no position. */
  lemma SearchNone(p: Pattern, t: string)
    ensures Search(p, t).None? <==> forall j :: 0 <= j < |t| ==> MatchAt(p, t, j).None?
  {
    SearchFromNone(p, t, 0);
  }

  /** What `re.search` finds is the match at the leftmost position that has one. */
  lemma SearchLeftmost(p: Pattern, t: string) returns (j: nat)
    requires Search(p, t).Some?
    ensures j < |t| && MatchAt(p, t, j) == Search(p, t)
    ensures forall k :: 0 <= k < j ==> MatchAt(p, t, k).None?
  {
    j := SearchFromLeftmost(p, t, 0);
  }

  /** Positions without a digit are skipped. */
  lemma {:induction false} SearchSkip(p: Pattern, t: string, i: nat, j: nat)
    requires i <= j <= |t|
    requires forall k :: i <= k < j ==> !IsDigit(t[k])
    ensures SearchFrom(p, t, i) == SearchFrom(p, t, j)
    decreases j - i
  {
    if i < j {
      SearchSkip(p, t, i + 1, j);
    }
  }

  /** Without a digit nothing matches. */
  lemma NoDigitsNoMatch(p: Pattern, t: string)
    requires NoDigits(t)
    ensures Search(p, t).None?
  {
    SearchSkip(p, t, 0, |t|);
  }

  lemma {:induction false} Pow10Monotone(a: nat, b: nat)
    requires a <= b
    ensures Pow10(a) <= Pow10(b)
    decreases b
  {
    if a < b {
      Pow10Monotone(a, b - 1);
    }
  }

  /** A `\d{1,n}` group captures a number of at most `n` digits. */
  lemma DigitGroupBound(d: Digits, t: string, i: nat)
    requires i <= |t| && d.UpTo?
    ensures DigitGroup(d, t, i).Some? ==> DigitGroup(d, t, i).value.0 < Pow10(d.n)
  {
    var e := RunEnd(IsDigit, t, i);
    if Fits(d, e - i) {
      assert AllDigits(t[i..e]);
      DigitsValueBound(t[i..e]);
      Pow10Monotone(e - i, d.n);
    }
  }

  lemma RangeRestBound(p: Pattern, t: string, a: nat, e1: nat)
    requires e1 <= |t| && p.digits.UpTo?
    ensures RangeRest(p, t, a, e1).Some? ==> RangeRest(p, t, a, e1).value.second < Pow10(p.digits.n)
  {
    var s1 := RunEnd(IsSpace, t, e1);
    if s1 < |t| && t[s1] == '-' {
      DigitGroupBound(p.digits, t, RunEnd(IsSpace, t, s1 + 1));
    }
  }

  /** With `\d{1,n}` every captured number has at most `n` digits. */
  lemma MatchBound(p: Pattern, t: string, i: nat)
    requires i <= |t| && p.digits.UpTo? && MatchAt(p, t, i).Some?
    ensures MatchAt(p, t, i).value.Single? ==> MatchAt(p, t, i).value.value < Pow10(p.digits.n)
    ensures MatchAt(p, t, i).value.Range? ==>
      MatchAt(p, t, i).value.first < Pow10(p.digits.n) && MatchAt(p, t, i).value.second < Pow10(p.digits.n)
  {
    DigitGroupBound(p.digits, t, i);
    if p.isRange {
      var (a, e1) := DigitGroup(p.digits, t, i).value;
      RangeRestBound(p, t, a, e1);
    }
  }

  lemma SearchBound(p: Pattern, t: string)
    requires p.digits.UpTo? && Search(p, t).Some?
    ensures Search(p, t).value.Single? ==> Search(p, t).value.value < Pow10(p.digits.n)
    ensures Search(p, t).value.Range? ==>
      Search(p, t).value.first < Pow10(p.digits.n) && Search(p, t).value.second < Pow10(p.digits.n)
  {
    var j := SearchLeftmost(p, t);
    MatchBound(p, t, j);
  }

  // ---------------------------------------------------------------------
  // Matches on texts of a known shape
  // ---------------------------------------------------------------------

  /** A run of `p` characters ending at `k` makes `k` the end of the run. */
  lemma RunEndAt(p: char -> bool, t: string, i: nat, k: nat)
    requires i <= k <= |t|
    requires forall m :: i <= m < k ==> p(t[m])
    requires k == |t| || !p(t[k])
    ensures RunEnd(p, t, i) == k
  {
  }

  predicate IsUnitWord(u: string)
  {
    |u| > 0 && forall i :: 0 <= i < |u| ==> IsLetter(u[i])
  }

  /** A word boundary follows the unit: the text ends or a non-word character comes. */
  predicate BoundaryAhead(post: string)
  {
    post == [] || !IsWordChar(post[0])
  }

  /** Positions `i..e` hold digits, `e` a space and `e + 1` the word `u`, then a boundary. */
  predicate SingleShape(t: string, i: nat, e: nat, u: string)
  {
    i < e && e + 1 + |u| <= |t| && IsUnitWord(u)
    && (forall m :: i <= m < e ==> IsDigit(t[m]))
    && t[e] == ' ' && t[e + 1..e + 1 + |u|] == u
    && (e + 1 + |u| == |t| || !IsWordChar(t[e + 1 + |u|]))
  }

  lemma DigitGroupAt(d: Digits, t: string, i: nat, e: nat)
    requires i < e <= |t|
    requires forall m :: i <= m < e ==> IsDigit(t[m])
    requires e == |t| || !IsDigit(t[e])
    ensures AllDigits(t[i..e])
    ensures DigitGroup(d, t, i) == if Fits(d, e - i) then Some((DigitsValue(t[i..e]), e)) else None
  {
    assert AllDigits(t[i..e]);
    RunEndAt(IsDigit, t, i, e);
  }

  lemma UnitAtWord(units: set<string>, t: string, i: nat, u: string)
    requires IsUnitWord(u) && i + |u| <= |t| && t[i..i + |u|] == u
    requires i + |u| == |t| || !IsWordChar(t[i + |u|])
    ensures UnitAt(units, t, i) == if u in units then Some(u) else None
  {
    assert forall m :: i <= m < i + |u| ==> t[m] == u[m - i];
    RunEndAt(IsWordChar, t, i, i + |u|);
  }

  lemma MatchAtSingleShape(p: Pattern, t: string, i: nat, e: nat, u: string)
    requires SingleShape(t, i, e, u)
    ensures AllDigits(t[i..e])
    ensures MatchAt(p, t, i) ==
      if !p.isRange && Fits(p.digits, e - i) && u in p.units then Some(Single(DigitsValue(t[i..e]), u)) else None
  {
    DigitGroupAt(p.digits, t, i, e);
    SingleRestShape(p, t, DigitsValue(t[i..e]), e, u);
    assert t[e + 1] == u[0] && IsLetter(u[0]);
    RunEndAt(IsSpace, t, e, e + 1);
  }

  /**
   * Positions `i..e1` hold digits, `e1` a dash, `e1 + 1..e2` digits, then a
   * space, the word `u` and a boundary.
   */
  predicate RangeShape(t: string, i: nat, e1: nat, e2: nat, u: string)
  {
    i < e1 && e1 + 1 < e2 && SingleShape(t, e1 + 1, e2, u)
    && (forall m :: i <= m < e1 ==> IsDigit(t[m]))
    && t[e1] == '-'
  }

  /** After the first number of a range shape: the dash, the second digit group and the unit. */
  lemma RangeRestShape(p: Pattern, t: string, a: nat, e1: nat, e2: nat, u: string)
    requires e1 < |t| && t[e1] == '-' && SingleShape(t, e1 + 1, e2, u)
    ensures AllDigits(t[e1 + 1..e2])
    ensures RangeRest(p, t, a, e1) ==
      if Fits(p.digits, e2 - e1 - 1) && u in p.units then Some(Range(a, DigitsValue(t[e1 + 1..e2]), u)) else None
  {
    RunEndAt(IsSpace, t, e1, e1);
    RunEndAt(IsSpace, t, e1 + 1, e1 + 1);
    DigitGroupAt(p.digits, t, e1 + 1, e2);
    assert t[e2 + 1] == u[0];
    RunEndAt(IsSpace, t, e2, e2 + 1);
    UnitAtWord(p.units, t, e2 + 1, u);
  }

  /** After the number of a single shape: the space and the unit. */
  lemma SingleRestShape(p: Pattern, t: string, a: nat, e: nat, u: string)
    requires e < |t| && t[e] == ' ' && IsUnitWord(u) && e + 1 + |u| <= |t| && t[e + 1..e + 1 + |u|] == u
    requires e + 1 + |u| == |t| || !IsWordChar(t[e + 1 + |u|])
    ensures SingleRest(p, t, a, e) == if u in p.units then Some(Single(a, u)) else None
  {
    assert t[e + 1] == u[0];
    RunEndAt(IsSpace, t, e, e + 1);
    UnitAtWord(p.units, t, e + 1, u);
  }

  lemma MatchAtRangeShape(p: Pattern, t: string, i: nat, e1: nat, e2: nat, u: string)
    requires RangeShape(t, i, e1, e2, u) && "" !in p.units
    ensures AllDigits(t[i..e1]) && AllDigits(t[e1 + 1..e2])
    ensures MatchAt(p, t, i) ==
      if p.isRange && Fits(p.digits, e1 - i) && Fits(p.digits, e2 - e1 - 1) && u in p.units
      then Some(Range(DigitsValue(t[i..e1]), DigitsValue(t[e1 + 1..e2]), u)) else None
  {
    DigitGroupAt(p.digits, t, i, e1);
    RangeRestShape(p, t, DigitsValue(t[i..e1]), e1, e2, u);
    if !p.isRange {
      SingleRestAtDash(p, t, DigitsValue(t[i..e1]), e1);
    }
  }

  /** A dash right after the number leaves a single-value pattern without a unit. */
  lemma SingleRestAtDash(p: Pattern, t: string, a: nat, e1: nat)
    requires e1 < |t| && t[e1] == '-' && "" !in p.units
    ensures SingleRest(p, t, a, e1).None?
  {
    RunEndAt(IsSpace, t, e1, e1);
    RunEndAt(IsWordChar, t, e1, e1);
    assert t[e1..e1] == "";
  }

  /** No digit follows the unit word of a single-value shape. */
  predicate DigitsOnlyAt(t: string, i: nat, e: nat)
  {
    (forall k :: 0 <= k < i && k < |t| ==> !IsDigit(t[k]))
    && (forall k :: e <= k < |t| ==> !IsDigit(t[k]))
  }

  /**
   * From the start of a single-value shape with no digit after it, the search
   * finds that number and unit exactly when the pattern takes them.
   */
  lemma SearchFromSingleShape(p: Pattern, t: string, i: nat, e: nat, d: string, u: string)
    requires SingleShape(t, i, e, u) && Fits(p.digits, e - i)
    requires forall k :: e <= k < |t| ==> !IsDigit(t[k])
    requires t[i..e] == d
    ensures AllDigits(d)
    ensures SearchFrom(p, t, i) ==
      if !p.isRange && u in p.units then Some(Single(DigitsValue(d), u)) else None
  {
    MatchAtSingleShape(p, t, i, e, u);
    if p.isRange || u !in p.units {
      forall k | i <= k < |t|
        ensures MatchAt(p, t, k).None?
      {
        if k < e {
          MatchAtSingleShape(p, t, k, e, u);
        }
      }
      SearchFromNone(p, t, i);
    }
  }

  lemma SearchSingleShape(p: Pattern, t: string, i: nat, e: nat, d: string, u: string)
    requires SingleShape(t, i, e, u) && DigitsOnlyAt(t, i, e) && Fits(p.digits, e - i)
    requires t[i..e] == d
    ensures AllDigits(d)
    ensures Search(p, t) ==
      if !p.isRange && u in p.units then Some(Single(DigitsValue(d), u)) else None
  {
    SearchSkip(p, t, 0, i);
    SearchFromSingleShape(p, t, i, e, d, u);
  }

  /** A range needs a dash: a text without one has no range match. */
  lemma NoDashNoRange(p: Pattern, t: string)
    requires p.isRange && forall k :: 0 <= k < |t| ==> t[k] != '-'
    ensures Search(p, t).None?
  {
    forall j | 0 <= j < |t|
      ensures MatchAt(p, t, j).None?
    {
    }
    SearchNone(p, t);
  }

  /** Positions where no match starts are skipped by the search. */
  lemma {:induction false} SearchSkipNone(p: Pattern, t: string, i: nat, j: nat)
    requires i <= j <= |t|
    requires forall k :: i <= k < j ==> MatchAt(p, t, k).None?
    ensures SearchFrom(p, t, i) == SearchFrom(p, t, j)
    decreases j - i
  {
    if i < j {
      SearchSkipNone(p, t, i + 1, j);
    }
  }

  /**
   * `\d{1,n}` can match the tail of a longer run of digits: in a text with
   * one number longer than `n` digits, a space and a unit word, a
   * single-value pattern finds the last `n` digits.
   */
  lemma SearchLongRun(p: Pattern, pre: string, d: string, u: string, post: string)
    requires p.digits.UpTo? && 1 <= p.digits.n < |d| && !p.isRange
    requires AllDigits(d) && IsUnitWord(u) && BoundaryAhead(post)
    requires NoDigits(pre) && NoDigits(post)
    ensures AllDigits(d[|d| - p.digits.n..])
    ensures Search(p, pre + d + " " + u + post) ==
      if u in p.units then Some(Single(DigitsValue(d[|d| - p.digits.n..]), u)) else None
  {
    var t := pre + d + " " + u + post;
    SingleTextShape(t, pre, d, u, post);
    var e := |pre| + |d|;
    var i := e - p.digits.n;
    assert SingleShape(t, i, e, u);
    assert t[i..e] == d[|d| - p.digits.n..];
    SearchSkip(p, t, 0, |pre|);
    forall k | |pre| <= k < i
      ensures MatchAt(p, t, k).None?
    {
      DigitGroupAt(p.digits, t, k, e);
    }
    SearchSkipNone(p, t, |pre|, i);
    SearchFromSingleShape(p, t, i, e, d[|d| - p.digits.n..], u);
  }

  lemma SingleTextShape(t: string, pre: string, d: string, u: string, post: string)
    requires t == pre + d + " " + u + post
    requires |d| > 0 && AllDigits(d) && IsUnitWord(u) && BoundaryAhead(post)
    requires NoDigits(pre) && NoDigits(post)
    ensures SingleShape(t, |pre|, |pre| + |d|, u) && DigitsOnlyAt(t, |pre|, |pre| + |d|)
    ensures t[|pre|..|pre| + |d|] == d
  {
    var e := |pre| + |d|;
    assert t[|pre|..e] == d;
    assert t[e + 1..e + 1 + |u|] == u;
    if e + 1 + |u| < |t| {
      assert t[e + 1 + |u|] == post[0];
    }
    assert DigitsOnlyAt(t, |pre|, e);
  }

  /**
   * Searching a text with one number, one space and one unit word finds that
   * number and unit with a single-value pattern, when the unit is one of the
   * pattern's, and finds nothing with a range pattern.
   */
  lemma SearchSingleText(p: Pattern, t: string, pre: string, d: string, u: string, post: string)
    requires t == pre + d + " " + u + post
    requires |d| > 0 && AllDigits(d) && IsUnitWord(u) && BoundaryAhead(post)
    requires NoDigits(pre) && NoDigits(post) && Fits(p.digits, |d|)
    ensures Search(p, t) == if !p.isRange && u in p.units then Some(Single(DigitsValue(d), u)) else None
  {
    SingleTextShape(t, pre, d, u, post);
    SearchSingleShape(p, t, |pre|, |pre| + |d|, d, u);
  }

  /** The positions of a range text: digits, dash, digits, space, unit word, then no digit. */
  lemma RangeTextShape(t: string, pre: string, da: string, db: string, u: string, post: string)
    requires t == pre + da + "-" + db + " " + u + post
    requires |da| > 0 && AllDigits(da) && |db| > 0 && AllDigits(db) && IsUnitWord(u) && BoundaryAhead(post)
    requires NoDigits(pre) && NoDigits(post)
    ensures RangeShape(t, |pre|, |pre| + |da|, |pre| + |da| + 1 + |db|, u)
    ensures t[|pre|..|pre| + |da|] == da && t[|pre| + |da| + 1..|pre| + |da| + 1 + |db|] == db
    ensures DigitsOnlyAt(t, |pre|, |pre| + |da| + 1 + |db|)
  {
    var e1 := |pre| + |da|;
    var e2 := e1 + 1 + |db|;
    assert t[|pre|..e1] == da;
    assert t[e1 + 1..e2] == db;
    assert t[e2 + 1..e2 + 1 + |u|] == u;
    if e2 + 1 + |u| < |t| {
      assert t[e2 + 1 + |u|] == post[0];
    }
    forall k | e2 <= k < |t|
      ensures !IsDigit(t[k])
    {
      if k > e2 + |u| {
        assert t[k] == post[k - e2 - 1 - |u|];
      } else if k > e2 {
        assert t[k] == u[k - e2 - 1];
      }
    }
    assert forall k :: 0 <= k < |pre| ==> t[k] == pre[k];
  }

  /** From the start of a range shape with no digit after it, the search finds that range when the pattern takes it. */
  lemma SearchFromRangeShape(p: Pattern, t: string, i: nat, e1: nat, e2: nat, da: string, db: string, u: string)
    requires RangeShape(t, i, e1, e2, u) && p.isRange && "" !in p.units
    requires Fits(p.digits, e1 - i) && Fits(p.digits, e2 - e1 - 1)
    requires t[i..e1] == da && t[e1 + 1..e2] == db
    requires forall k :: e2 <= k < |t| ==> !IsDigit(t[k])
    ensures AllDigits(da) && AllDigits(db)
    ensures SearchFrom(p, t, i) ==
      if u in p.units then Some(Range(DigitsValue(da), DigitsValue(db), u)) else None
  {
    MatchAtRangeShape(p, t, i, e1, e2, u);
    if u !in p.units {
      forall k | i <= k < |t|
        ensures MatchAt(p, t, k).None?
      {
        if k < e1 {
          MatchAtRangeShape(p, t, k, e1, e2, u);
        } else if e1 < k < e2 {
          MatchAtSingleShape(p, t, k, e2, u);
        } else {
          assert !IsDigit(t[k]);
        }
      }
      SearchFromNone(p, t, i);
    }
  }

  /** The search over a whole text holding one range shape and no other digit. */
  lemma SearchRangeShape(p: Pattern, t: string, i: nat, e1: nat, e2: nat, da: string, db: string, u: string)
    requires RangeShape(t, i, e1, e2, u) && DigitsOnlyAt(t, i, e2) && p.isRange && "" !in p.units
    requires Fits(p.digits, e1 - i) && Fits(p.digits, e2 - e1 - 1)
    requires t[i..e1] == da && t[e1 + 1..e2] == db
    ensures AllDigits(da) && AllDigits(db)
    ensures Search(p, t) ==
      if u in p.units then Some(Range(DigitsValue(da), DigitsValue(db), u)) else None
  {
    SearchSkip(p, t, 0, i);
    SearchFromRangeShape(p, t, i, e1, e2, da, db, u);
  }

  /**
   * Searching a text with one range `da-db`, one space and one unit word finds
   * that range with a range pattern, when the unit is one of the pattern's.
   */
  lemma SearchRangeText(p: Pattern, t: string, pre: string, da: string, db: string, u: string, post: string)
    requires t == pre + da + "-" + db + " " + u + post
    requires |da| > 0 && AllDigits(da) && |db| > 0 && AllDigits(db) && IsUnitWord(u) && BoundaryAhead(post)
    requires NoDigits(pre) && NoDigits(post) && Fits(p.digits, |da|) && Fits(p.digits, |db|)
    requires p.isRange && "" !in p.units
    ensures Search(p, t) ==
      if u in p.units then Some(Range(DigitsValue(da), DigitsValue(db), u)) else None
  {
    RangeTextShape(t, pre, da, db, u, post);
    SearchRangeShape(p, t, |pre|, |pre| + |da|, |pre| + |da| + 1 + |db|, da, db, u);
  }

  /** A text made of lower-case parts, digits, a dash and a space is its own lower-case form. */
  lemma SingleTextLower(t: string, pre: string, d: string, u: string)
    requires t == pre + d + " " + u
    requires NoUpper(pre) && AllDigits(d) && NoUpper(u)
    ensures Lower(t) == t
  {
    NoUpperConcat(pre, d);
    NoUpperConcat(pre + d, " ");
    NoUpperConcat(pre + d + " ", u);
    LowerOfNoUpper(t);
  }

  lemma RangeTextLower(t: string, pre: string, da: string, db: string, u: string)
    requires t == pre + da + "-" + db + " " + u
    requires NoUpper(pre) && AllDigits(da) && AllDigits(db) && NoUpper(u)
    ensures Lower(t) == t
  {
    NoUpperConcat(pre, da);
    NoUpperConcat(pre + da, "-");
    NoUpperConcat(pre + da + "-", db);
    NoUpperConcat(pre + da + "-" + db, " ");
    NoUpperConcat(pre + da + "-" + db + " ", u);
    LowerOfNoUpper(t);
  }
}
