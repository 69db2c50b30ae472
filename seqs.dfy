/**
 * List operations the source performs with comprehensions, pandas masks and
 * `drop_duplicates`, stated once with their properties.
 */
module Seqs {
  import opened Wrappers

  /**
   * `[x for x in s if p(x)]`, and a boolean-mask selection `df[mask]`:
   * the elements satisfying `p`, in their original order, repeats kept.
   */
  function Filter<T(==)>(p: T -> bool, s: seq<T>): (r: seq<T>)
    ensures |r| <= |s|
    ensures forall i :: 0 <= i < |r| ==> p(r[i])
    decreases |s|
  {
    if s == [] then []
    else
      assert s == s[..|s| - 1] + [s[|s| - 1]];
      Filter(p, s[..|s| - 1]) + (if p(s[|s| - 1]) then [s[|s| - 1]] else [])
  }

  /** The filter keeps exactly the elements satisfying `p`, and nothing more often than the input has it. */
  lemma {:induction false} FilterMembers<T>(p: T -> bool, s: seq<T>)
    ensures forall x :: x in Filter(p, s) <==> x in s && p(x)
    ensures multiset(Filter(p, s)) <= multiset(s)
    decreases |s|
  {
    if s != [] {
      var init := s[..|s| - 1];
      FilterMembers(p, init);
      assert s == init + [s[|s| - 1]];
    }
  }

  /** Each element the filter keeps occurs as often as in the input; the others not at all. */
  lemma {:induction false} FilterCount<T>(p: T -> bool, s: seq<T>, x: T)
    ensures multiset(Filter(p, s))[x] == if p(x) then multiset(s)[x] else 0
    decreases |s|
  {
    if s != [] {
      var init := s[..|s| - 1];
      FilterCount(p, init, x);
      assert s == init + [s[|s| - 1]];
    }
  }

  lemma FilterAppend<T>(p: T -> bool, s: seq<T>, x: T)
    ensures Filter(p, s + [x]) == Filter(p, s) + (if p(x) then [x] else [])
  {
    assert (s + [x])[..|s|] == s;
  }

  /** Filtering a concatenation filters each part. */
  lemma {:induction false} FilterConcat<T>(p: T -> bool, a: seq<T>, b: seq<T>)
    ensures Filter(p, a + b) == Filter(p, a) + Filter(p, b)
    decreases |b|
  {
    if b == [] {
      assert a + b == a;
    } else {
      var init := b[..|b| - 1];
      var x := b[|b| - 1];
      FilterConcat(p, a, init);
      assert a + b == (a + init) + [x];
      FilterAppend(p, a + init, x);
      FilterAppend(p, init, x);
      assert b == init + [x];
    }
  }

  /** A filter that rejects nothing is the identity. */
  lemma {:induction false} FilterAllTrue<T>(p: T -> bool, s: seq<T>)
    requires forall i :: 0 <= i < |s| ==> p(s[i])
    ensures Filter(p, s) == s
    decreases |s|
  {
    if s != [] {
      var init := s[..|s| - 1];
      FilterAllTrue(p, init);
      assert Filter(p, s) == Filter(p, init) + [s[|s| - 1]];
      assert s == init + [s[|s| - 1]];
    }
  }

  /** `[f(x) for x in s]` */
  function Map<A, B>(f: A -> B, s: seq<A>): (r: seq<B>)
    ensures |r| == |s|
    ensures forall i :: 0 <= i < |s| ==> r[i] == f(s[i])
  {
    seq(|s|, i requires 0 <= i < |s| => f(s[i]))
  }

  lemma MapAppend<A, B>(f: A -> B, s: seq<A>, x: A)
    ensures Map(f, s + [x]) == Map(f, s) + [f(x)]
  {
  }

  lemma MapConcat<A, B>(f: A -> B, a: seq<A>, b: seq<A>)
    ensures Map(f, a + b) == Map(f, a) + Map(f, b)
  {
  }

  lemma MultisetRemoveAt<A>(t: seq<A>, j: nat)
    requires j < |t|
    ensures multiset(t) == multiset(t[..j] + t[j + 1..]) + multiset{t[j]}
  {
    assert t == t[..j] + [t[j]] + t[j + 1..];
  }

  lemma MapRemoveAt<A, B>(f: A -> B, t: seq<A>, j: nat)
    requires j < |t|
    ensures multiset(Map(f, t)) == multiset(Map(f, t[..j] + t[j + 1..])) + multiset{f(t[j])}
  {
    MapConcat(f, t[..j], t[j + 1..]);
    assert Map(f, t)[..j] == Map(f, t[..j]);
    assert Map(f, t)[j + 1..] == Map(f, t[j + 1..]);
    MultisetRemoveAt(Map(f, t), j);
  }

  /** A sub-multiset of `t` stays a sub-multiset after mapping both sides. */
  lemma {:induction false} MapMultisetSub<A, B>(f: A -> B, s: seq<A>, t: seq<A>)
    requires multiset(s) <= multiset(t)
    ensures multiset(Map(f, s)) <= multiset(Map(f, t))
    decreases |s|
  {
    if s != [] {
      var x := s[|s| - 1];
      var s' := s[..|s| - 1];
      assert s == s' + [x];
      assert x in multiset(t);
      var j :| 0 <= j < |t| && t[j] == x;
      var t' := t[..j] + t[j + 1..];
      MultisetSubRemove(s', x, t, j);
      MapMultisetSub(f, s', t');
      MapRemoveAt(f, t, j);
      MapConcat(f, s', [x]);
    }
  }

  lemma MultisetSubRemove<A>(s: seq<A>, x: A, t: seq<A>, j: nat)
    requires j < |t| && t[j] == x && multiset(s + [x]) <= multiset(t)
    ensures multiset(s) <= multiset(t[..j] + t[j + 1..])
  {
    MultisetRemoveAt(t, j);
    forall y ensures multiset(s)[y] <= multiset(t[..j] + t[j + 1..])[y] {
      assert multiset(s + [x])[y] <= multiset(t)[y];
    }
  }

  /** The set of keys occurring in `s`. */
  function Keys<T(==), K(==)>(key: T -> K, s: seq<T>): set<K>
  {
    set x | x in s :: key(x)
  }

  lemma KeysAppend<T, K>(key: T -> K, s: seq<T>, x: T)
    ensures Keys(key, s + [x]) == Keys(key, s) + {key(x)}
  {
  }

  /**
   * `drop_duplicates(subset=[key])` and the `seen`-set loops: the first element
   * of each key, in order of first appearance.
   */
  function DedupBy<T(==), K(==)>(key: T -> K, s: seq<T>): (r: seq<T>)
    ensures multiset(r) <= multiset(s)
    ensures |r| <= |s|
    decreases |s|
  {
    if s == [] then []
    else
      var init := s[..|s| - 1];
      var x := s[|s| - 1];
      assert s == init + [x];
      if key(x) in Keys(key, init) then DedupBy(key, init) else DedupBy(key, init) + [x]
  }

  /** One step of a `seen`-set loop over `s`: the keys seen and the elements kept so far. */
  lemma DedupByStep<T, K>(key: T -> K, s: seq<T>, i: nat)
    requires i < |s|
    ensures Keys(key, s[..i + 1]) == Keys(key, s[..i]) + {key(s[i])}
    ensures DedupBy(key, s[..i + 1]) ==
      DedupBy(key, s[..i]) + if key(s[i]) in Keys(key, s[..i]) then [] else [s[i]]
  {
    assert s[..i + 1] == s[..i] + [s[i]];
    assert s[..i + 1][..i] == s[..i];
    KeysAppend(key, s[..i], s[i]);
  }

  /** The state of a `seen`-set loop after the first `i` elements of `s`. */
  ghost predicate DedupState<T, K>(key: T -> K, s: seq<T>, i: nat, seen: set<K>, kept: seq<T>)
  {
    i <= |s| && seen == Keys(key, s[..i]) && kept == DedupBy(key, s[..i])
  }

  /** An element with an unseen key is kept and its key becomes seen. */
  lemma DedupStateNew<T, K>(key: T -> K, s: seq<T>, i: nat, seen: set<K>, kept: seq<T>)
    requires DedupState(key, s, i, seen, kept) && i < |s| && key(s[i]) !in seen
    ensures DedupState(key, s, i + 1, seen + {key(s[i])}, kept + [s[i]])
  {
    DedupByStep(key, s, i);
  }

  /** An element with a key already seen is dropped. */
  lemma DedupStateKnown<T, K>(key: T -> K, s: seq<T>, i: nat, seen: set<K>, kept: seq<T>)
    requires DedupState(key, s, i, seen, kept) && i < |s| && key(s[i]) in seen
    ensures DedupState(key, s, i + 1, seen, kept)
  {
    DedupByStep(key, s, i);
  }

  /** The state after the whole sequence. */
  lemma DedupStateDone<T, K>(key: T -> K, s: seq<T>, seen: set<K>, kept: seq<T>)
    requires DedupState(key, s, |s|, seen, kept)
    ensures kept == DedupBy(key, s)
  {
    assert s[..|s|] == s;
  }

  /** Keys in the result are pairwise distinct. */
  predicate DistinctKeys<T, K(==)>(key: T -> K, s: seq<T>)
  {
    forall i, j :: 0 <= i < j < |s| ==> key(s[i]) != key(s[j])
  }

  /** Deduplication loses no key and repeats none. */
  lemma {:induction false} DedupByKeys<T, K>(key: T -> K, s: seq<T>)
    ensures Keys(key, DedupBy(key, s)) == Keys(key, s)
    ensures DistinctKeys(key, DedupBy(key, s))
    decreases |s|
  {
    if s != [] {
      var init := s[..|s| - 1];
      var x := s[|s| - 1];
      assert s == init + [x];
      DedupByKeys(key, init);
      KeysAppend(key, init, x);
      if key(x) !in Keys(key, init) {
        KeysAppend(key, DedupBy(key, init), x);
      }
    }
  }

  /** The first occurrence of every key survives. */
  lemma {:induction false} DedupByKeepsFirst<T, K>(key: T -> K, s: seq<T>, i: nat)
    requires i < |s|
    requires forall j :: 0 <= j < i ==> key(s[j]) != key(s[i])
    ensures s[i] in DedupBy(key, s)
    decreases |s|
  {
    var init := s[..|s| - 1];
    if i < |s| - 1 {
      DedupByKeepsFirst(key, init, i);
    } else {
      assert key(s[i]) !in Keys(key, init);
    }
  }

  /** When keys are already distinct, deduplication changes nothing. */
  lemma {:induction false} DedupByDistinct<T, K>(key: T -> K, s: seq<T>)
    requires DistinctKeys(key, s)
    ensures DedupBy(key, s) == s
    decreases |s|
  {
    if s != [] {
      var init := s[..|s| - 1];
      DedupByDistinct(key, init);
      assert key(s[|s| - 1]) !in Keys(key, init);
    }
  }

  /**
   * Deduplicating a concatenation keeps the deduplicated front unchanged, and
   * what follows it has keys not seen in the front: rows already present win.
   */
  lemma {:induction false} DedupByConcat<T, K>(key: T -> K, a: seq<T>, b: seq<T>)
    ensures DedupBy(key, a) <= DedupBy(key, a + b)
    ensures forall i :: |DedupBy(key, a)| <= i < |DedupBy(key, a + b)| ==>
      key(DedupBy(key, a + b)[i]) !in Keys(key, a)
    decreases |b|
  {
    if b == [] {
      assert a + b == a;
    } else {
      var b' := b[..|b| - 1];
      var y := b[|b| - 1];
      assert a + b == (a + b') + [y];
      assert (a + b)[..|a + b| - 1] == a + b';
      DedupByConcat(key, a, b');
      KeysAppend(key, a + b', y);
      assert Keys(key, a) <= Keys(key, a + b');
    }
  }

  /** Python slicing `s[:k]`, where a negative `k` counts from the end. */
  function PySlicePrefix<T>(s: seq<T>, k: int): (r: seq<T>)
    ensures r <= s
    ensures k >= 0 ==> |r| == if k < |s| then k else |s|
    ensures k < 0 ==> |r| == if |s| + k > 0 then |s| + k else 0
  {
    if k >= 0 then (if k < |s| then s[..k] else s)
    else (if |s| + k > 0 then s[..|s| + k] else [])
  }

  /** A sequence in which no value appears twice. */
  predicate NoDuplicates<T(==)>(s: seq<T>)
  {
    forall i, j :: 0 <= i < j < |s| ==> s[i] != s[j]
  }

  /** A duplicate-free sequence has exactly as many elements as its set. */
  lemma {:induction false} NoDuplicatesCard<T>(s: seq<T>)
    requires NoDuplicates(s)
    ensures |set x | x in s| == |s|
    decreases |s|
  {
    if s != [] {
      var init := s[..|s| - 1];
      NoDuplicatesCard(init);
      assert (set x | x in s) == (set x | x in init) + {s[|s| - 1]};
      assert s[|s| - 1] !in (set x | x in init);
    }
  }

  /**
   * A loop that appends `f(x)` for each `x` whose `f(x)` is something: the
   * produced values, in order.
   */
  function FilterMap<A, B>(f: A -> Option<B>, s: seq<A>): (r: seq<B>)
    ensures |r| <= |s|
    decreases |s|
  {
    if s == [] then []
    else
      FilterMap(f, s[..|s| - 1]) + match f(s[|s| - 1]) case None => [] case Some(y) => [y]
  }

  lemma FilterMapAppend<A, B>(f: A -> Option<B>, s: seq<A>, x: A)
    ensures FilterMap(f, s + [x]) == FilterMap(f, s) + match f(x) case None => [] case Some(y) => [y]
  {
    assert (s + [x])[..|s|] == s;
  }

  /** Every produced value comes from an element of the input. */
  lemma {:induction false} FilterMapFrom<A, B>(f: A -> Option<B>, s: seq<A>, k: nat) returns (i: nat)
    requires k < |FilterMap(f, s)|
    ensures i < |s| && f(s[i]) == Some(FilterMap(f, s)[k])
    decreases |s|
  {
    var init := s[..|s| - 1];
    if k < |FilterMap(f, init)| {
      i := FilterMapFrom(f, init, k);
    } else {
      i := |s| - 1;
    }
  }

  /** Every element whose `f` is something contributes its value. */
  lemma {:induction false} FilterMapHas<A, B>(f: A -> Option<B>, s: seq<A>, i: nat)
    requires i < |s| && f(s[i]).Some?
    ensures f(s[i]).value in FilterMap(f, s)
    decreases |s|
  {
    var init := s[..|s| - 1];
    if i < |s| - 1 {
      FilterMapHas(f, init, i);
    }
  }

  /**
   * When each produced value carries the key of the element it comes from,
   * distinct keys in the input give distinct keys in the output.
   */
  lemma {:induction false} FilterMapDistinct<A, B, K>(f: A -> Option<B>, s: seq<A>, key: A -> K, rkey: B -> K)
    requires forall i :: 0 <= i < |s| && f(s[i]).Some? ==> rkey(f(s[i]).value) == key(s[i])
    requires DistinctKeys(key, s)
    ensures DistinctKeys(rkey, FilterMap(f, s))
    decreases |s|
  {
    if s != [] {
      var init := s[..|s| - 1];
      var x := s[|s| - 1];
      FilterMapDistinct(f, init, key, rkey);
      var front := FilterMap(f, init);
      if f(x).Some? {
        forall k | 0 <= k < |front|
          ensures rkey(front[k]) != rkey(f(x).value)
        {
          var i := FilterMapFrom(f, init, k);
          assert init[i] == s[i];
        }
      }
    }
  }

  /**
   * One step of a loop that visits each key of `s` once and collects what
   * `f` produces: an element whose key was seen adds nothing.
   */
  lemma DedupFilterMapStep<T, K, B>(key: T -> K, f: T -> Option<B>, s: seq<T>, i: nat)
    requires i < |s|
    ensures Keys(key, s[..i + 1]) == Keys(key, s[..i]) + {key(s[i])}
    ensures FilterMap(f, DedupBy(key, s[..i + 1])) ==
      FilterMap(f, DedupBy(key, s[..i]))
      + if key(s[i]) in Keys(key, s[..i]) then [] else match f(s[i]) case None => [] case Some(y) => [y]
  {
    DedupByStep(key, s, i);
    var d := DedupBy(key, s[..i]);
    if key(s[i]) in Keys(key, s[..i]) {
      assert DedupBy(key, s[..i + 1]) == d;
    } else {
      assert DedupBy(key, s[..i + 1]) == d + [s[i]];
      FilterMapAppend(f, d, s[i]);
    }
  }

  /** `idx` picks, in increasing order, positions of `s` that spell `r`. */
  ghost predicate Embeds<T>(idx: seq<nat>, r: seq<T>, s: seq<T>)
  {
    |idx| == |r|
    && (forall k :: 0 <= k < |idx| ==> idx[k] < |s| && r[k] == s[idx[k]])
    && (forall k, l :: 0 <= k < l < |idx| ==> idx[k] < idx[l])
  }

  /** `r` is `s` with some elements left out and the rest kept in order. */
  ghost predicate SubsequenceOf<T>(r: seq<T>, s: seq<T>)
  {
    exists idx :: Embeds(idx, r, s)
  }

  /** Deduplication only leaves elements out: the result is a subsequence of the input. */
  lemma {:induction false} DedupBySubsequence<T, K>(key: T -> K, s: seq<T>) returns (idx: seq<nat>)
    ensures Embeds(idx, DedupBy(key, s), s)
    ensures SubsequenceOf(DedupBy(key, s), s)
    decreases |s|
  {
    if s == [] {
      idx := [];
    } else {
      var init := s[..|s| - 1];
      var x := s[|s| - 1];
      var front := DedupBySubsequence(key, init);
      var r0 := DedupBy(key, init);
      assert s == init + [x];
      assert forall k :: 0 <= k < |front| ==> front[k] < |init| && r0[k] == s[front[k]];
      if key(x) in Keys(key, init) {
        assert DedupBy(key, s) == r0;
        idx := front;
      } else {
        assert DedupBy(key, s) == r0 + [x];
        idx := front + [|s| - 1];
        assert forall k :: 0 <= k < |idx| ==> idx[k] < |s| && (r0 + [x])[k] == s[idx[k]];
      }
    }
    assert Embeds(idx, DedupBy(key, s), s);
  }

  /** A filter only leaves elements out: the result is a subsequence of the input. */
  lemma {:induction false} FilterSubsequence<T>(p: T -> bool, s: seq<T>) returns (idx: seq<nat>)
    ensures Embeds(idx, Filter(p, s), s)
    ensures SubsequenceOf(Filter(p, s), s)
    decreases |s|
  {
    if s == [] {
      idx := [];
    } else {
      var init := s[..|s| - 1];
      var x := s[|s| - 1];
      var front := FilterSubsequence(p, init);
      var r0 := Filter(p, init);
      assert s == init + [x];
      assert forall k :: 0 <= k < |front| ==> front[k] < |init| && r0[k] == s[front[k]];
      if p(x) {
        idx := front + [|s| - 1];
        assert forall k :: 0 <= k < |idx| ==> idx[k] < |s| && (r0 + [x])[k] == s[idx[k]];
      } else {
        idx := front;
      }
    }
    assert Embeds(idx, Filter(p, s), s);
  }

  /** Filtering a sequence without repeats gives one without repeats. */
  lemma {:induction false} FilterDistinct<T>(p: T -> bool, s: seq<T>)
    requires NoDuplicates(s)
    ensures NoDuplicates(Filter(p, s))
    decreases |s|
  {
    if s != [] {
      var init := s[..|s| - 1];
      var x := s[|s| - 1];
      assert s == init + [x];
      assert NoDuplicates(init);
      FilterDistinct(p, init);
      FilterAppend(p, init, x);
      FilterMembers(p, init);
      assert x !in init;
    }
  }
}
