/**
 * The list operations the engine borrows from Python: `sorted(xs, key=k, reverse=True)`,
 * which is a stable sort into non-increasing key order, the slice `xs[:n]`, and the
 * first-occurrence order in which a dict remembers its keys.
 */
module Ranking {

  /** `s` is in non-increasing order of `score`. */
  predicate SortedDesc<T>(s: seq<T>, score: T -> real) {
    forall i, j :: 0 <= i < j < |s| ==> score(s[i]) >= score(s[j])
  }

  /** No value occurs twice in `s`. */
  predicate Distinct<T(==)>(s: seq<T>) {
    forall i, j :: 0 <= i < j < |s| ==> s[i] != s[j]
  }

  /** No two elements of `s` share a `key` (the ids of a ranked list). */
  predicate DistinctBy<T, K(==)>(s: seq<T>, key: T -> K) {
    forall i, j :: 0 <= i < j < |s| ==> key(s[i]) != key(s[j])
  }

  /** Appending an element that scores no higher than anything before it keeps the order. */
  lemma SortedAppend<T>(s: seq<T>, x: T, score: T -> real)
    requires SortedDesc(s, score)
    requires forall y :: y in s ==> score(y) >= score(x)
    ensures SortedDesc(s + [x], score)
  {
    var r := s + [x];
    forall i, j | 0 <= i < j < |r| ensures score(r[i]) >= score(r[j]) {
      assert r[i] == s[i];
      if j == |s| {
        assert r[i] in s;
      } else {
        assert r[j] == s[j];
      }
    }
  }

  /** Appending an element with a fresh key keeps the keys distinct. */
  lemma DistinctByAppend<T, K>(s: seq<T>, x: T, key: T -> K)
    requires DistinctBy(s, key)
    requires forall y :: y in s ==> key(y) != key(x)
    ensures DistinctBy(s + [x], key)
  {
    var r := s + [x];
    forall i, j | 0 <= i < j < |r| ensures key(r[i]) != key(r[j]) {
      assert r[i] == s[i];
      if j == |s| {
        assert r[i] in s;
      } else {
        assert r[j] == s[j];
      }
    }
  }

  /** The elements of `s` whose score is `v`, in their order in `s`. */
  function ScoreClass<T>(s: seq<T>, score: T -> real, v: real): seq<T> {
    if s == [] then []
    else (if score(s[0]) == v then [s[0]] else []) + ScoreClass(s[1..], score, v)
  }

  /**
   * Puts `x` in front of the first element of `s` that does not score higher than it,
   * so that `x` stays ahead of the equal-scoring elements that came after it in the input.
   */
  function Insert<T>(x: T, s: seq<T>, score: T -> real): seq<T> {
    if s == [] || score(x) >= score(s[0]) then [x] + s
    else [s[0]] + Insert(x, s[1..], score)
  }

  /** Inserting adds exactly `x`. */
  lemma {:induction false} InsertCount<T>(x: T, s: seq<T>, score: T -> real)
    ensures multiset(Insert(x, s, score)) == multiset(s) + multiset{x}
  {
    if s != [] && score(x) < score(s[0]) {
      InsertCount(x, s[1..], score);
      assert s == [s[0]] + s[1..];
    }
  }

  /** Everything in the insertion is `x` or came from `s`. */
  lemma InsertFrom<T>(x: T, s: seq<T>, score: T -> real)
    ensures forall y :: y in Insert(x, s, score) ==> y == x || y in s
  {
    InsertCount(x, s, score);
    forall y | y in Insert(x, s, score) ensures y == x || y in s {
      assert multiset(Insert(x, s, score))[y] > 0;
    }
  }

  /** Inserting keeps a sorted list sorted. */
  lemma {:induction false} InsertSorted<T>(x: T, s: seq<T>, score: T -> real)
    requires SortedDesc(s, score)
    ensures SortedDesc(Insert(x, s, score), score)
  {
    if s != [] && score(x) < score(s[0]) {
      var rest := Insert(x, s[1..], score);
      InsertSorted(x, s[1..], score);
      InsertFrom(x, s[1..], score);
      var r := [s[0]] + rest;
      forall i, j | 0 <= i < j < |r| ensures score(r[i]) >= score(r[j]) {
        if i == 0 {
          assert r[j] in rest;
        } else {
          assert r[i] == rest[i - 1] && r[j] == rest[j - 1];
        }
      }
    }
  }

  /** Inserting adds exactly `x` and keeps a sorted list sorted. */
  lemma InsertSpec<T>(x: T, s: seq<T>, score: T -> real)
    ensures multiset(Insert(x, s, score)) == multiset(s) + multiset{x}
    ensures SortedDesc(s, score) ==> SortedDesc(Insert(x, s, score), score)
  {
    InsertCount(x, s, score);
    if SortedDesc(s, score) {
      InsertSorted(x, s, score);
    }
  }

  /** `sorted(s, key=score, reverse=True)`: a stable sort into non-increasing score order. */
  function SortDesc<T(==)>(s: seq<T>, score: T -> real): (r: seq<T>)
    ensures multiset(r) == multiset(s)
    ensures SortedDesc(r, score)
  {
    if s == [] then []
    else
      var rest := SortDesc(s[1..], score);
      InsertSpec(s[0], rest, score);
      assert s == [s[0]] + s[1..];
      Insert(s[0], rest, score)
  }

  /** Sorting keeps exactly the elements it was given. */
  lemma SortDescMembers<T>(s: seq<T>, score: T -> real)
    ensures |SortDesc(s, score)| == |s|
    ensures forall x :: x in SortDesc(s, score) <==> x in s
  {
    var r := SortDesc(s, score);
    assert |r| == |multiset(r)| == |multiset(s)| == |s|;
    forall x ensures x in r <==> x in s {
      assert x in r <==> multiset(r)[x] > 0;
      assert x in s <==> multiset(s)[x] > 0;
    }
  }

  lemma {:induction false} InsertClass<T>(x: T, s: seq<T>, score: T -> real, v: real)
    ensures ScoreClass(Insert(x, s, score), score, v)
         == (if score(x) == v then [x] else []) + ScoreClass(s, score, v)
  {
    var r := Insert(x, s, score);
    if s == [] || score(x) >= score(s[0]) {
      assert r == [x] + s;
      assert r[0] == x && r[1..] == s;
    } else {
      var rest := Insert(x, s[1..], score);
      assert r == [s[0]] + rest;
      assert r[0] == s[0] && r[1..] == rest;
      InsertClass(x, s[1..], score, v);
    }
  }

  /**
   * Stability: for every score value, the elements carrying that score come out of
   * the sort in the order they went in (Python's sort is stable, also with reverse=True).
   */
  lemma {:induction false} SortDescStable<T>(s: seq<T>, score: T -> real, v: real)
    ensures ScoreClass(SortDesc(s, score), score, v) == ScoreClass(s, score, v)
  {
    if s != [] {
      SortDescStable(s[1..], score, v);
      InsertClass(s[0], SortDesc(s[1..], score), score, v);
    }
  }

  /** A list that is already in order is returned unchanged. */
  lemma {:induction false} SortDescOfSorted<T>(s: seq<T>, score: T -> real)
    requires SortedDesc(s, score)
    ensures SortDesc(s, score) == s
  {
    if s != [] {
      assert SortedDesc(s[1..], score);
      SortDescOfSorted(s[1..], score);
      assert s == [s[0]] + s[1..];
    }
  }

  lemma {:induction false} InsertDistinctBy<T, K>(x: T, s: seq<T>, score: T -> real, key: T -> K)
    requires DistinctBy(s, key)
    requires forall y :: y in s ==> key(y) != key(x)
    ensures DistinctBy(Insert(x, s, score), key)
  {
    if s == [] || score(x) >= score(s[0]) {
    } else {
      var rest := Insert(x, s[1..], score);
      assert DistinctBy(s[1..], key);
      InsertDistinctBy(x, s[1..], score, key);
      InsertFrom(x, s[1..], score);
      DistinctByHead(s, key);
      var r := [s[0]] + rest;
      forall i, j | 0 <= i < j < |r| ensures key(r[i]) != key(r[j]) {
        if i == 0 {
          assert r[j] in rest;
        } else {
          assert r[i] == rest[i - 1] && r[j] == rest[j - 1];
        }
      }
    }
  }

  lemma DistinctByHead<T, K>(s: seq<T>, key: T -> K)
    requires s != [] && DistinctBy(s, key)
    ensures forall y :: y in s[1..] ==> key(y) != key(s[0])
  {
    forall y | y in s[1..] ensures key(y) != key(s[0]) {
      var k :| 0 <= k < |s[1..]| && s[1..][k] == y;
      assert s[k + 1] == y;
    }
  }

  /** Sorting does not merge or duplicate ids: distinct ids stay distinct. */
  lemma {:induction false} SortDescDistinctBy<T, K>(s: seq<T>, score: T -> real, key: T -> K)
    requires DistinctBy(s, key)
    ensures DistinctBy(SortDesc(s, score), key)
  {
    if s != [] {
      var tail := s[1..];
      assert DistinctBy(tail, key);
      var rest := SortDesc(tail, score);
      SortDescDistinctBy(tail, score, key);
      SortDescMembers(tail, score);
      DistinctByHead(s, key);
      forall y | y in rest ensures y in tail {
        assert multiset(rest)[y] > 0;
      }
      InsertDistinctBy(s[0], rest, score, key);
      assert SortDesc(s, score) == Insert(s[0], rest, score);
    }
  }

  /** Python's slice `s[:n]`; a negative `n` counts from the end. */
  function Take<T>(s: seq<T>, n: int): (r: seq<T>)
    ensures 0 <= n ==> |r| == (if n <= |s| then n else |s|)
    ensures n < 0 ==> |r| == (if |s| + n >= 0 then |s| + n else 0)
    ensures r == s[..|r|]
  {
    if 0 <= n then (if n <= |s| then s[..n] else s)
    else if |s| + n >= 0 then s[..|s| + n]
    else []
  }

  /** Dict keys in first-insertion order: every value of `s` once, where it first occurs. */
  function Dedup<T(==)>(s: seq<T>): seq<T> {
    if s == [] then []
    else
      var d := Dedup(s[..|s| - 1]);
      if s[|s| - 1] in d then d else d + [s[|s| - 1]]
  }

  /** The index of the first occurrence of `x` in `s`. */
  function FirstIndex<T(==)>(s: seq<T>, x: T): (r: nat)
    requires x in s
    ensures r < |s| && s[r] == x && x !in s[..r]
  {
    if s[0] == x then 0
    else
      assert s[1..][FirstIndex(s[1..], x)] == x;
      assert s[..FirstIndex(s[1..], x) + 1] == [s[0]] + s[1..][..FirstIndex(s[1..], x)];
      FirstIndex(s[1..], x) + 1
  }

  /** Dedup keeps every value of `s` and lists none twice. */
  lemma {:induction false} DedupSpec<T>(s: seq<T>)
    ensures forall x :: x in Dedup(s) <==> x in s
    ensures Distinct(Dedup(s))
  {
    if s != [] {
      DedupSpec(s[..|s| - 1]);
      assert s == s[..|s| - 1] + [s[|s| - 1]];
    }
  }

  /**
   * Dedup lists the values of `s` in the order of their first occurrence in `s`, as a dict's
   * keys keep their insertion order.
   */
  lemma {:induction false} DedupOrder<T>(s: seq<T>)
    ensures forall x :: x in Dedup(s) ==> x in s
    ensures forall i, j :: 0 <= i < j < |Dedup(s)| ==> FirstIndex(s, Dedup(s)[i]) < FirstIndex(s, Dedup(s)[j])
  {
    DedupSpec(s);
    if s != [] {
      var init, last := s[..|s| - 1], s[|s| - 1];
      DedupOrder(init);
      DedupSpec(init);
      assert s == init + [last];
      var d := Dedup(init);
      forall i, j | 0 <= i < j < |Dedup(s)| ensures FirstIndex(s, Dedup(s)[i]) < FirstIndex(s, Dedup(s)[j]) {
        var x := d[i];
        assert Dedup(s)[i] == x && x in init;
        FirstIndexPrefix(init, last, x);
        if j < |d| {
          var y := d[j];
          assert Dedup(s)[j] == y && y in init;
          FirstIndexPrefix(init, last, y);
        } else {
          assert last !in d && Dedup(s)[j] == last;
          assert last !in init;
          assert s[..|init|] == init;
          FirstIndexUnique(s, last, |init|);
        }
      }
    }
  }

  lemma FirstIndexUnique<T>(s: seq<T>, x: T, k: nat)
    requires k < |s| && s[k] == x && x !in s[..k]
    ensures FirstIndex(s, x) == k
  {
    var r := FirstIndex(s, x);
    assert s[..r + 1][r] == x;
    assert k < |s[..r + 1]| ==> s[..r + 1][k] == x;
  }

  lemma FirstIndexPrefix<T>(s: seq<T>, y: T, x: T)
    requires x in s
    ensures FirstIndex(s + [y], x) == FirstIndex(s, x)
  {
    var k := FirstIndex(s, x);
    assert (s + [y])[..k] == s[..k];
    FirstIndexUnique(s + [y], x, k);
  }

  /**
   * Cutting a sorted list keeps its best elements: nothing outside the cut scores strictly
   * higher than something inside it.
   */
  lemma SortedPrefixTop<T>(sorted: seq<T>, score: T -> real, m: nat)
    requires SortedDesc(sorted, score) && m <= |sorted|
    ensures forall x, y :: x in sorted[..m] && y in sorted && score(y) > score(x) ==> y in sorted[..m]
  {
    forall x, y | x in sorted[..m] && y in sorted && score(y) > score(x) ensures y in sorted[..m] {
      var i :| 0 <= i < m && sorted[..m][i] == x;
      var j :| 0 <= j < |sorted| && sorted[j] == y;
      assert sorted[i] == x;
      assert j < i;
      assert sorted[..m][j] == y;
    }
  }

  lemma DedupIndex<T>(s: seq<T>)
    ensures forall i :: 0 <= i < |Dedup(s)| ==> Dedup(s)[i] in s
  {
    DedupSpec(s);
  }
}
