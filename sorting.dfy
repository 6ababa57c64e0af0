/** `Array.prototype.sort(compare)`, which the hooks and the pages call to
    order lists. Since ECMAScript 2019 the sort is stable: elements the
    comparator ranks equal keep their relative order. A comparator is given
    here as the relation `leq(a, b)`, "compare(a, b) <= 0", that is "`a` may
    stay in front of `b`". For a comparator that is a total preorder there is
    exactly one stable sorted arrangement, and the insertion sort below
    computes it. */
module Sorting {

  ghost predicate Total<T(!new)>(leq: (T, T) -> bool) {
    forall a, b :: leq(a, b) || leq(b, a)
  }

  ghost predicate Transitive<T(!new)>(leq: (T, T) -> bool) {
    forall a, b, c :: leq(a, b) && leq(b, c) ==> leq(a, c)
  }

  /** What a consistent comparator provides. */
  ghost predicate TotalPreorder<T(!new)>(leq: (T, T) -> bool) {
    Total(leq) && Transitive(leq)
  }

  /** Every element may stay in front of every later one. */
  ghost predicate SortedBy<T>(leq: (T, T) -> bool, s: seq<T>) {
    forall i, j :: 0 <= i < j < |s| ==> leq(s[i], s[j])
  }

  /** Puts `x` in front of the first element it may precede. */
  function InsertBy<T>(leq: (T, T) -> bool, x: T, s: seq<T>): seq<T>
    decreases |s|
  {
    if s == [] then [x]
    else if leq(x, s[0]) then [x] + s
    else [s[0]] + InsertBy(leq, x, s[1..])
  }

  /** The stable sort: each element is inserted, from the back, in front of
      the sorted rest, so among equals the earlier one stays first. */
  function SortBy<T>(leq: (T, T) -> bool, s: seq<T>): seq<T>
    decreases |s|
  {
    if s == [] then [] else InsertBy(leq, s[0], SortBy(leq, s[1..]))
  }

  lemma {:induction false} InsertByPermutes<T>(leq: (T, T) -> bool, x: T, s: seq<T>)
    ensures multiset(InsertBy(leq, x, s)) == multiset(s) + multiset{x}
    ensures |InsertBy(leq, x, s)| == |s| + 1
    decreases |s|
  {
    if s != [] && !leq(x, s[0]) {
      InsertByPermutes(leq, x, s[1..]);
      assert s == [s[0]] + s[1..];
    }
  }

  /** Sorting only rearranges: the result holds the same elements, each as
      many times as the input. */
  lemma {:induction false} SortByPermutes<T>(leq: (T, T) -> bool, s: seq<T>)
    ensures multiset(SortBy(leq, s)) == multiset(s)
    ensures |SortBy(leq, s)| == |s|
    decreases |s|
  {
    if s != [] {
      SortByPermutes(leq, s[1..]);
      InsertByPermutes(leq, s[0], SortBy(leq, s[1..]));
      assert s == [s[0]] + s[1..];
    }
  }

  lemma {:induction false} InsertBySorted<T(!new)>(leq: (T, T) -> bool, x: T, s: seq<T>)
    requires TotalPreorder(leq)
    requires SortedBy(leq, s)
    ensures SortedBy(leq, InsertBy(leq, x, s))
    decreases |s|
  {
    if s == [] {
    } else if leq(x, s[0]) {
      var r := [x] + s;
      forall i, j | 0 <= i < j < |r| ensures leq(r[i], r[j]) {
        if i == 0 && j > 1 {
          assert leq(s[0], s[j - 1]);
        }
      }
    } else {
      var tail := InsertBy(leq, x, s[1..]);
      InsertBySorted(leq, x, s[1..]);
      InsertByPermutes(leq, x, s[1..]);
      var r := [s[0]] + tail;
      forall j | 0 < j < |r| ensures leq(s[0], r[j]) {
        var e := r[j];
        assert e == tail[j - 1];
        assert e in multiset(tail);
        assert e in multiset(s[1..]) || e == x;
        if e != x {
          var k :| 0 <= k < |s[1..]| && s[1..][k] == e;
          assert s[k + 1] == e;
        }
      }
      assert SortedBy(leq, r);
    }
  }

  /** With a consistent comparator the result is sorted. */
  lemma {:induction false} SortBySorted<T(!new)>(leq: (T, T) -> bool, s: seq<T>)
    requires TotalPreorder(leq)
    ensures SortedBy(leq, SortBy(leq, s))
    decreases |s|
  {
    if s != [] {
      SortBySorted(leq, s[1..]);
      InsertBySorted(leq, s[0], SortBy(leq, s[1..]));
    }
  }

  /** A list that is already sorted is left exactly as it is: re-sorting
      after every change never reorders elements among themselves. */
  lemma {:induction false} SortBySortedIsIdentity<T(!new)>(leq: (T, T) -> bool, s: seq<T>)
    requires SortedBy(leq, s)
    ensures SortBy(leq, s) == s
    decreases |s|
  {
    if s != [] {
      SortBySortedIsIdentity(leq, s[1..]);
      if |s| > 1 {
        assert leq(s[0], s[1]);
      }
      assert [s[0]] + s[1..] == s;
    }
  }

  /** Sorting `[x] + s` for a sorted `s` is inserting `x` at its place: the
      other elements keep their order. */
  lemma SortConsOfSorted<T(!new)>(leq: (T, T) -> bool, x: T, s: seq<T>)
    requires SortedBy(leq, s)
    ensures SortBy(leq, [x] + s) == InsertBy(leq, x, s)
  {
    assert ([x] + s)[1..] == s;
    SortBySortedIsIdentity(leq, s);
  }

  // ---------------------------------------------------------------------
  // Stability

  /** The elements of `s` that the comparator ranks equal to `x`, in
      order. */
  function EqualsOf<T>(leq: (T, T) -> bool, x: T, s: seq<T>): seq<T>
    decreases |s|
  {
    if s == [] then []
    else (if leq(x, s[0]) && leq(s[0], x) then [s[0]] else []) + EqualsOf(leq, x, s[1..])
  }

  /** Inserting `y` puts it behind no element ranked equal to it: among the
      elements equal to any `x`, `y` (if it is one) comes first and the rest
      keep their order. */
  lemma {:induction false} InsertByStable<T(!new)>(leq: (T, T) -> bool, x: T, y: T, s: seq<T>)
    requires TotalPreorder(leq)
    ensures EqualsOf(leq, x, InsertBy(leq, y, s)) ==
      (if leq(x, y) && leq(y, x) then [y] else []) + EqualsOf(leq, x, s)
    decreases |s|
  {
    var ys := if leq(x, y) && leq(y, x) then [y] else [];
    if s == [] {
    } else if leq(y, s[0]) {
      assert ([y] + s)[1..] == s;
    } else {
      InsertByStable(leq, x, y, s[1..]);
      var r := InsertBy(leq, y, s);
      var e0 := if leq(x, s[0]) && leq(s[0], x) then [s[0]] else [];
      assert r[0] == s[0] && r[1..] == InsertBy(leq, y, s[1..]);
      assert EqualsOf(leq, x, r) == e0 + (ys + EqualsOf(leq, x, s[1..]));
      // With `y` and `s[0]` both equal to `x`, `y` could precede `s[0]`.
      assert ys == [] || e0 == [];
      assert e0 + ys == ys + e0;
    }
  }

  /** The sort is stable: the elements ranked equal to any `x` appear in
      the result in the order they had in the input. */
  lemma {:induction false} SortByStable<T(!new)>(leq: (T, T) -> bool, x: T, s: seq<T>)
    requires TotalPreorder(leq)
    ensures EqualsOf(leq, x, SortBy(leq, s)) == EqualsOf(leq, x, s)
    decreases |s|
  {
    if s != [] {
      SortByStable(leq, x, s[1..]);
      InsertByStable(leq, x, s[0], SortBy(leq, s[1..]));
    }
  }
}
