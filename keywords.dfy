/**
 * The keyword tests of the page heuristics: `any(k in s for k in ks)`, a
 * whole-word `re.search(rf"\b{w}\b", s)`, and `str.replace` on characters.
 */
module Keywords {
  import opened Text

  /** `any(k in s for k in ks)` */
  predicate AnyIn(ks: seq<string>, s: string)
  {
    exists i :: 0 <= i < |ks| && Contains(s, ks[i])
  }

  /** The short-circuiting scan behind `any(...)`. */
  method AnyKeyword(ks: seq<string>, s: string) returns (b: bool)
    ensures b <==> AnyIn(ks, s)
  {
    var i := 0;
    while i < |ks|
      invariant 0 <= i <= |ks|
      invariant forall j :: 0 <= j < i ==> !Contains(s, ks[j])
    {
      if Contains(s, ks[i]) {
        return true;
      }
      i := i + 1;
    }
    return false;
  }

  /** `w` occurs at `i` with a `\b` on both sides (for a `w` that starts and ends with a word character). */
  predicate WholeWordAt(s: string, w: string, i: nat)
  {
    i + |w| <= |s| && s[i..i + |w|] == w
    && (i == 0 || !IsWordChar(s[i - 1]))
    && (i + |w| == |s| || !IsWordChar(s[i + |w|]))
  }

  /** `re.search(rf"\b{w}\b", s)` succeeds. */
  predicate HasWholeWord(s: string, w: string)
  {
    exists i :: 0 <= i <= |s| && WholeWordAt(s, w, i)
  }

  /** A whole-word occurrence is in particular a substring. */
  lemma WholeWordContains(s: string, w: string)
    requires HasWholeWord(s, w)
    ensures Contains(s, w)
  {
    var i :| 0 <= i <= |s| && WholeWordAt(s, w, i);
    ContainsAt(s, w, i);
  }

  /** `s.replace(a, b)` for single characters. */
  function ReplaceChar(s: string, a: char, b: char): (r: string)
    ensures |r| == |s|
    ensures forall i :: 0 <= i < |s| ==> r[i] == if s[i] == a then b else s[i]
  {
    seq(|s|, i requires 0 <= i < |s| => if s[i] == a then b else s[i])
  }
}
