/**
 * Python's `sorted(xs, key=..., reverse=...)` and `list.sort` are stable sorts. They are
 * modelled here as a stable insertion sort driven by a precedence relation
 * `first(a, b)`: "a may stand before b". A descending sort by key k uses
 * `first(a, b) == k(a) >= k(b)`, an ascending one `first(a, b) == k(a) <= k(b)`.
 */
module Sorting {

  /** `first` is total and transitive, as the comparisons of a sort key are. */
  ghost predicate TotalPreorder<T(!new)>(first: (T, T) -> bool)
  {
    && (forall a, b :: first(a, b) || first(b, a))
    && (forall a, b, c :: first(a, b) && first(b, c) ==> first(a, c))
  }

  /** Every element may stand before every later one. */
  predicate Sorted<T>(s: seq<T>, first: (T, T) -> bool)
  {
    forall i, j :: 0 <= i < j < |s| ==> first(s[i], s[j])
  }

  /** No value occurs twice. */
  predicate Distinct<T(==)>(s: seq<T>)
  {
    forall i, j :: 0 <= i < j < |s| ==> s[i] != s[j]
  }

  /**
   * Inserts x before the first element it may precede. Elements that x may not precede
   * stay in front of it, so an element inserted from the front of the input keeps its
   * place before the equally ranked elements that followed it: the sort is stable.
   */
  function Insert<T(!new)>(x: T, s: seq<T>, first: (T, T) -> bool): (r: seq<T>)
    ensures |r| == |s| + 1
    ensures multiset(r) == multiset(s) + multiset{x}
    ensures TotalPreorder(first) && Sorted(s, first) ==> Sorted(r, first)
  {
    if s == [] || first(x, s[0]) then
      InsertFront(x, s, first);
      [x] + s
    else
      var rest := Insert(x, s[1..], first);
      assert s == [s[0]] + s[1..];
      InsertBehind(x, s, rest, first);
      [s[0]] + rest
  }

  lemma InsertFront<T(!new)>(x: T, s: seq<T>, first: (T, T) -> bool)
    requires s == [] || first(x, s[0])
    ensures TotalPreorder(first) && Sorted(s, first) ==> Sorted([x] + s, first)
  {
    if TotalPreorder(first) && Sorted(s, first) {
      var r := [x] + s;
      forall i, j | 0 <= i < j < |r| ensures first(r[i], r[j]) {
        if i == 0 && j > 1 {
          assert first(s[0], s[j - 1]);
        }
      }
    }
  }

  lemma InsertBehind<T(!new)>(x: T, s: seq<T>, rest: seq<T>, first: (T, T) -> bool)
    requires s != [] && !first(x, s[0])
    requires multiset(rest) == multiset(s[1..]) + multiset{x}
    requires TotalPreorder(first) && Sorted(s[1..], first) ==> Sorted(rest, first)
    ensures TotalPreorder(first) && Sorted(s, first) ==> Sorted([s[0]] + rest, first)
  {
    if TotalPreorder(first) && Sorted(s, first) {
      assert Sorted(s[1..], first) by {
        forall i, j | 0 <= i < j < |s[1..]| ensures first(s[1..][i], s[1..][j]) {
          assert first(s[i + 1], s[j + 1]);
        }
      }
      var r := [s[0]] + rest;
      forall j | 0 < j < |r| ensures first(r[0], r[j]) {
        assert r[j] in multiset(rest);
        if r[j] != x {
          assert r[j] in s[1..];
          var k :| 0 <= k < |s[1..]| && s[1..][k] == r[j];
          assert first(s[0], s[k + 1]);
        }
      }
      forall i, j | 0 <= i < j < |r| ensures first(r[i], r[j]) {
        if i > 0 {
          assert first(rest[i - 1], rest[j - 1]);
        }
      }
    }
  }

  /** Stable sort of s in the order `first` describes. */
  function SortBy<T(!new)>(s: seq<T>, first: (T, T) -> bool): (r: seq<T>)
    ensures |r| == |s|
    ensures multiset(r) == multiset(s)
    ensures TotalPreorder(first) ==> Sorted(r, first)
  {
    if s == [] then [] else
      assert s == [s[0]] + s[1..];
      Insert(s[0], SortBy(s[1..], first), first)
  }

  /** A rearrangement of a sequence without repetitions has none either. */
  lemma {:induction false} DistinctPermutation<T>(a: seq<T>, b: seq<T>)
    requires multiset(a) == multiset(b)
    requires Distinct(a)
    ensures Distinct(b)
  {
    forall i, j | 0 <= i < j < |b| ensures b[i] != b[j] {
      if b[i] == b[j] {
        assert b == b[..i] + [b[i]] + b[i + 1..j] + [b[j]] + b[j + 1..];
        assert multiset(b)[b[i]] >= 2;
        DistinctCountsOne(a, b[i]);
      }
    }
  }

  /** In a sequence without repetitions every value occurs at most once. */
  lemma {:induction false} DistinctCountsOne<T>(s: seq<T>, x: T)
    requires Distinct(s)
    ensures multiset(s)[x] <= 1
  {
    if s != [] {
      assert s == [s[0]] + s[1..];
      assert Distinct(s[1..]) by {
        forall i, j | 0 <= i < j < |s[1..]| ensures s[1..][i] != s[1..][j] {
          assert s[i + 1] != s[j + 1];
        }
      }
      DistinctCountsOne(s[1..], x);
      if x == s[0] {
        assert x !in s[1..] by {
          forall k | 0 <= k < |s[1..]| ensures s[1..][k] != x {
            assert s[0] != s[k + 1];
          }
        }
      }
    }
  }

  /** The precedence of `sorted` on integers. */
  predicate Ascending(a: int, b: int) { a <= b }

  /** A sequence sorted ascending without repetitions is strictly ascending. */
  lemma StrictlyAscending(s: seq<int>)
    requires Sorted(s, Ascending)
    requires Distinct(s)
    ensures forall i, j :: 0 <= i < j < |s| ==> s[i] < s[j]
  {
    forall i, j | 0 <= i < j < |s| ensures s[i] < s[j] {
      assert Ascending(s[i], s[j]);
      assert s[i] != s[j];
    }
  }
}
