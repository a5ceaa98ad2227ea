/** Stable descending sort, as `array.sort((a, b) => key(b) - key(a))`
    performs it: `Array.prototype.sort` is stable, so the result is
    ordered by non-increasing key and elements with equal keys keep their
    original order. Both the trend chart (script.js:349-354) and the pie
    charts (script.js:479) rank this way. */
module Ranking {
  import opened Seqs

  /** Inserts `x` after every element whose key is at least `key(x)`, which
      is where a stable sort puts a later element. */
  function InsertDesc<T>(s: seq<T>, x: T, key: T -> real): (r: seq<T>)
    ensures |r| == |s| + 1
  {
    if s == [] || key(s[|s| - 1]) >= key(x) then s + [x]
    else InsertDesc(s[..|s| - 1], x, key) + [s[|s| - 1]]
  }

  /** The stable descending sort of `s` by `key`. */
  function SortDesc<T>(s: seq<T>, key: T -> real): (r: seq<T>)
    ensures |r| == |s|
  {
    if s == [] then []
    else InsertDesc(SortDesc(s[..|s| - 1], key), s[|s| - 1], key)
  }

  predicate SortedDesc<T>(s: seq<T>, key: T -> real)
  {
    forall i, j :: 0 <= i < j < |s| ==> key(s[i]) >= key(s[j])
  }

  /** The elements whose key is `v`. */
  function KeyIs<T>(key: T -> real, v: real): T -> bool
  {
    x => key(x) == v
  }

  // ---------------------------------------------------------------------
  // Insertion

  lemma {:induction false} InsertDescSorted<T>(s: seq<T>, x: T, key: T -> real)
    requires SortedDesc(s, key)
    ensures SortedDesc(InsertDesc(s, x, key), key)
    ensures multiset(InsertDesc(s, x, key)) == multiset(s) + multiset{x}
  {
    if s == [] || key(s[|s| - 1]) >= key(x) {
    } else {
      var init, last := s[..|s| - 1], s[|s| - 1];
      assert s == init + [last];
      InsertDescSorted(init, x, key);
      var r := InsertDesc(init, x, key);
      assert multiset(r) == multiset(init) + multiset{x};
      forall i | 0 <= i < |r|
        ensures key(r[i]) >= key(last)
      {
        assert r[i] in multiset(r);
        if r[i] != x {
          assert r[i] in multiset(init);
          var k :| 0 <= k < |init| && init[k] == r[i];
          assert s[k] == r[i];
        }
      }
    }
  }

  lemma {:induction false} InsertDescStable<T>(s: seq<T>, x: T, key: T -> real, v: real)
    ensures Filter(InsertDesc(s, x, key), KeyIs(key, v)) == Filter(s, KeyIs(key, v)) + Filter([x], KeyIs(key, v))
  {
    var p := KeyIs(key, v);
    if s == [] || key(s[|s| - 1]) >= key(x) {
      FilterAppend(s, [x], p);
    } else {
      var init, last := s[..|s| - 1], s[|s| - 1];
      assert s == init + [last];
      InsertDescStable(init, x, key, v);
      FilterAppend(InsertDesc(init, x, key), [last], p);
      FilterAppend(init, [last], p);
      assert Filter([x], p) == [] || Filter([last], p) == [];
    }
  }

  // ---------------------------------------------------------------------
  // The sort

  /** The sort orders by non-increasing key and is a permutation. */
  lemma {:induction false} SortDescSpec<T>(s: seq<T>, key: T -> real)
    ensures SortedDesc(SortDesc(s, key), key)
    ensures multiset(SortDesc(s, key)) == multiset(s)
  {
    if s != [] {
      var init := s[..|s| - 1];
      assert s == init + [s[|s| - 1]];
      SortDescSpec(init, key);
      InsertDescSorted(SortDesc(init, key), s[|s| - 1], key);
    }
  }

  /** The sort is stable: the elements of any one key appear in the order
      they have in `s`. */
  lemma {:induction false} SortDescStable<T>(s: seq<T>, key: T -> real, v: real)
    ensures Filter(SortDesc(s, key), KeyIs(key, v)) == Filter(s, KeyIs(key, v))
  {
    if s != [] {
      var init, last := s[..|s| - 1], s[|s| - 1];
      assert s == init + [last];
      SortDescStable(init, key, v);
      InsertDescStable(SortDesc(init, key), last, key, v);
      FilterAppend(init, [last], KeyIs(key, v));
    }
  }

  /** Elements keep their membership through the sort. */
  lemma SortDescMembers<T>(s: seq<T>, key: T -> real)
    ensures forall x :: x in SortDesc(s, key) ==> x in s
    ensures forall x :: x in s ==> x in SortDesc(s, key)
  {
    SortDescSpec(s, key);
    assert forall x :: x in SortDesc(s, key) <==> x in multiset(SortDesc(s, key));
    assert forall x :: x in s <==> x in multiset(s);
  }

  // ---------------------------------------------------------------------
  // The in-place sort

  /** One step of shifting `x` left past a smaller element. */
  lemma InsertDescShift<T>(s: seq<T>, x: T, key: T -> real, j: nat)
    requires 0 < j <= |s| && key(s[j - 1]) < key(x)
    ensures InsertDesc(s[..j], x, key) == InsertDesc(s[..j - 1], x, key) + [s[j - 1]]
  {
    assert s[..j][..j - 1] == s[..j - 1];
  }

  /** Where the shifting stops, `x` goes directly after the prefix. */
  lemma InsertDescStop<T>(s: seq<T>, x: T, key: T -> real, j: nat)
    requires j <= |s| && (j == 0 || key(s[j - 1]) >= key(x))
    ensures InsertDesc(s[..j], x, key) == s[..j] + [x]
  {
  }

  /** Moves `a[i]` left past the elements before it with a smaller key:
      the insertion step of the sort. */
  method InsertLast<T>(a: array<T>, i: nat, key: T -> real)
    requires i < a.Length
    modifies a
    ensures a[..i + 1] == InsertDesc(old(a[..i]), old(a[i]), key)
    ensures a[i + 1..] == old(a[i + 1..])
  {
    ghost var sorted := a[..i];
    var x := a[i];
    var j := i;
    assert sorted[..j] == sorted && sorted[j..] == [];
    while j > 0 && key(a[j - 1]) < key(x)
      invariant 0 <= j <= i
      invariant forall k :: 0 <= k < j ==> a[k] == sorted[k]
      invariant forall k :: j < k <= i ==> a[k] == sorted[k - 1]
      invariant forall k :: i < k < a.Length ==> a[k] == old(a[k])
      invariant InsertDesc(sorted, x, key) == InsertDesc(sorted[..j], x, key) + sorted[j..]
    {
      InsertDescShift(sorted, x, key, j);
      a[j] := a[j - 1];
      j := j - 1;
    }
    InsertDescStop(sorted, x, key, j);
    a[j] := x;
    assert a[..i + 1] == sorted[..j] + [x] + sorted[j..];
  }

  /** Sorts `a` in place by descending key, stably, as `Array.prototype.sort`
      does with a comparator returning `key(b) - key(a)`: an insertion sort. */
  method SortInPlace<T>(a: array<T>, key: T -> real)
    modifies a
    ensures a[..] == SortDesc(old(a[..]), key)
  {
    ghost var input := a[..];
    var i := 0;
    while i < a.Length
      invariant 0 <= i <= a.Length
      invariant a[..i] == SortDesc(input[..i], key)
      invariant a[i..] == input[i..]
    {
      InsertLast(a, i, key);
      assert input[..i + 1][..i] == input[..i];
      i := i + 1;
    }
    assert a[..] == a[..a.Length] && input == input[..a.Length];
  }
}
