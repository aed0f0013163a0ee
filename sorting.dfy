/**
 * Sorting by a real-valued score, highest first: the `sort.Slice(xs, func(i, j) { return
 * score(xs[i]) > score(xs[j]) })` calls of the handlers.
 *
 * `sort.Slice` is not stable, so Go may order elements of equal score either way. The model
 * sorts by insertion, which keeps equal elements in their input order; that is one of the
 * orders Go may produce. What every such order shares, and what the lemmas below prove of this
 * one, is that it is non-increasing in the score and a permutation of the input.
 */
module Sorting {

  ghost predicate NonIncreasing<T>(s: seq<T>, score: T -> real) {
    forall a, b :: 0 <= a < b < |s| ==> score(s[a]) >= score(s[b])
  }

  /** `x` placed behind the trailing run of elements that score below it. */
  function Insert<T>(s: seq<T>, x: T, score: T -> real): seq<T>
    decreases |s|
  {
    if |s| == 0 || score(s[|s| - 1]) >= score(x) then s + [x]
    else Insert(s[..|s| - 1], x, score) + [s[|s| - 1]]
  }

  /** Insertion sort, highest score first, equal scores in input order. */
  function SortDesc<T>(s: seq<T>, score: T -> real): seq<T>
    decreases |s|
  {
    if |s| == 0 then []
    else Insert(SortDesc(s[..|s| - 1], score), s[|s| - 1], score)
  }

  lemma {:induction false} InsertPermutes<T>(s: seq<T>, x: T, score: T -> real)
    ensures multiset(Insert(s, x, score)) == multiset(s) + multiset{x}
    ensures |Insert(s, x, score)| == |s| + 1
    decreases |s|
  {
    if |s| > 0 && score(s[|s| - 1]) < score(x) {
      var init := s[..|s| - 1];
      InsertPermutes(init, x, score);
      assert s == init + [s[|s| - 1]];
    }
  }

  lemma {:induction false} InsertSorted<T>(s: seq<T>, x: T, score: T -> real)
    requires NonIncreasing(s, score)
    ensures NonIncreasing(Insert(s, x, score), score)
    decreases |s|
  {
    if |s| > 0 && score(s[|s| - 1]) < score(x) {
      var init, last := s[..|s| - 1], s[|s| - 1];
      InsertSorted(init, x, score);
      InsertPermutes(init, x, score);
      var r := Insert(init, x, score);
      forall a | 0 <= a < |r|
        ensures score(r[a]) >= score(last)
      {
        assert r[a] in multiset(r);
        if r[a] != x {
          assert r[a] in multiset(init);
          var k :| 0 <= k < |init| && init[k] == r[a];
          assert s[k] == init[k];
        }
      }
    }
  }

  /** The sorted sequence is non-increasing in the score. */
  lemma {:induction false} SortDescSorted<T>(s: seq<T>, score: T -> real)
    ensures NonIncreasing(SortDesc(s, score), score)
    decreases |s|
  {
    if |s| > 0 {
      SortDescSorted(s[..|s| - 1], score);
      InsertSorted(SortDesc(s[..|s| - 1], score), s[|s| - 1], score);
    }
  }

  /** The sorted sequence holds exactly the input's elements, each as often. */
  lemma {:induction false} SortDescPermutes<T>(s: seq<T>, score: T -> real)
    ensures multiset(SortDesc(s, score)) == multiset(s)
    ensures |SortDesc(s, score)| == |s|
    decreases |s|
  {
    if |s| > 0 {
      var init := s[..|s| - 1];
      var sorted := SortDesc(init, score);
      SortDescPermutes(init, score);
      InsertPermutes(sorted, s[|s| - 1], score);
      assert SortDesc(s, score) == Insert(sorted, s[|s| - 1], score);
      assert s == init + [s[|s| - 1]];
      assert multiset(s) == multiset(init) + multiset{s[|s| - 1]};
    }
  }

  /**
   * One step of the in-place insertion sort: `a[i]` moves left past the elements of the
   * sorted prefix `a[..i]` that score below it.
   */
  method InsertAt<T>(a: array<T>, i: nat, score: T -> real)
    requires i < a.Length
    modifies a
    ensures a[..i + 1] == Insert(old(a[..i]), old(a[i]), score)
    ensures a[i + 1..] == old(a[i + 1..])
  {
    ghost var p := a[..i];
    var x := a[i];
    var j := i;
    while j > 0 && score(a[j - 1]) < score(x)
      invariant 0 <= j <= i
      invariant a[..j] == p[..j]
      invariant a[j + 1..i + 1] == p[j..]
      invariant a[i + 1..] == old(a[i + 1..])
      invariant Insert(p, x, score) == Insert(p[..j], x, score) + p[j..]
      decreases j
    {
      InsertShift(p, x, score, j);
      a[j] := a[j - 1];
      j := j - 1;
    }
    a[j] := x;
    InsertStop(p, x, score, j);
    assert a[..i + 1] == a[..j] + [x] + a[j + 1..i + 1];
  }

  lemma InsertShift<T>(p: seq<T>, x: T, score: T -> real, j: nat)
    requires 0 < j <= |p| && score(p[j - 1]) < score(x)
    ensures Insert(p[..j], x, score) + p[j..] == Insert(p[..j - 1], x, score) + p[j - 1..]
  {
    assert p[..j][..j - 1] == p[..j - 1];
    assert p[j - 1..] == [p[j - 1]] + p[j..];
  }

  lemma InsertStop<T>(p: seq<T>, x: T, score: T -> real, j: nat)
    requires j <= |p| && (j == 0 || score(p[j - 1]) >= score(x))
    ensures Insert(p[..j], x, score) + p[j..] == p[..j] + [x] + p[j..]
  {
  }

  /** The in-place sort: the array ends as the insertion sort of its old contents. */
  method SortInPlace<T>(a: array<T>, score: T -> real)
    modifies a
    ensures a[..] == SortDesc(old(a[..]), score)
  {
    ghost var s := a[..];
    for i := 0 to a.Length
      invariant a[..i] == SortDesc(s[..i], score)
      invariant a[i..] == s[i..]
    {
      assert s[..i + 1][..i] == s[..i];
      InsertAt(a, i, score);
    }
    assert a[..] == a[..a.Length] && s[..a.Length] == s;
  }
}
