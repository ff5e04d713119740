/** The stable sort the services rely on (Java's `List.sort` with a
    comparator, and the database's `ORDER BY`), as insertion into an
    already sorted list: an element goes before the first element it does
    not compare above, so it stays ahead of every later element equal to
    it. */
module Sorting {
  import opened Seqs

  /** `cmp` behaves like a Java comparator: swapping the arguments negates
      the answer, and "not above" is transitive. */
  ghost predicate IsComparator<T(!new)>(cmp: (T, T) -> int)
  {
    (forall a, b :: cmp(a, b) == -cmp(b, a))
    && (forall a, b, c :: cmp(a, b) <= 0 && cmp(b, c) <= 0 ==> cmp(a, c) <= 0)
  }

  /** Two elements the comparator cannot tell apart. */
  lemma SameIsTransitive<T(!new)>(cmp: (T, T) -> int, a: T, b: T, c: T)
    requires IsComparator(cmp)
    requires cmp(a, b) == 0
    ensures cmp(a, c) == 0 <==> cmp(b, c) == 0
  {
    assert cmp(b, a) <= 0 && cmp(a, b) <= 0;
  }

  ghost predicate Sorted<T>(s: seq<T>, cmp: (T, T) -> int)
  {
    forall i, j :: 0 <= i < j < |s| ==> cmp(s[i], s[j]) <= 0
  }

  function Insert<T>(x: T, s: seq<T>, cmp: (T, T) -> int): (r: seq<T>)
    ensures |r| == |s| + 1
  {
    if s == [] || cmp(x, s[0]) <= 0 then [x] + s
    else [s[0]] + Insert(x, s[1..], cmp)
  }

  /** The stable sort of `s` under `cmp`. */
  function Sort<T>(s: seq<T>, cmp: (T, T) -> int): (r: seq<T>)
    ensures |r| == |s|
  {
    if s == [] then [] else Insert(s[0], Sort(s[1..], cmp), cmp)
  }

  lemma {:induction false} InsertPermutes<T>(x: T, s: seq<T>, cmp: (T, T) -> int)
    ensures multiset(Insert(x, s, cmp)) == multiset(s) + multiset{x}
  {
    if s != [] && cmp(x, s[0]) > 0 {
      InsertPermutes(x, s[1..], cmp);
      assert s == [s[0]] + s[1..];
    }
  }

  /** Sorting only reorders. */
  lemma {:induction false} SortPermutes<T>(s: seq<T>, cmp: (T, T) -> int)
    ensures multiset(Sort(s, cmp)) == multiset(s)
  {
    if s != [] {
      SortPermutes(s[1..], cmp);
      InsertPermutes(s[0], Sort(s[1..], cmp), cmp);
      assert s == [s[0]] + s[1..];
    }
  }

  /** A lower bound of `x` and of all of `s` bounds all of `Insert(x, s)`. */
  lemma {:induction false} InsertLowerBound<T>(x: T, s: seq<T>, cmp: (T, T) -> int, y: T)
    requires cmp(y, x) <= 0
    requires forall k :: 0 <= k < |s| ==> cmp(y, s[k]) <= 0
    ensures forall k :: 0 <= k < |s| + 1 ==> cmp(y, Insert(x, s, cmp)[k]) <= 0
  {
    if s != [] && cmp(x, s[0]) > 0 {
      InsertLowerBound(x, s[1..], cmp, y);
      var r := Insert(x, s, cmp);
      forall k | 0 <= k < |s| + 1 ensures cmp(y, r[k]) <= 0 {
        if k > 0 {
          assert r[k] == Insert(x, s[1..], cmp)[k - 1];
        }
      }
    }
  }

  /** A lower bound of a sorted list may go in front of it. */
  lemma PrependSorted<T>(x: T, s: seq<T>, cmp: (T, T) -> int)
    requires Sorted(s, cmp)
    requires forall k :: 0 <= k < |s| ==> cmp(x, s[k]) <= 0
    ensures Sorted([x] + s, cmp)
  {
    var r := [x] + s;
    forall i, j | 0 <= i < j < |r| ensures cmp(r[i], r[j]) <= 0 {
      if i == 0 {
        assert r[j] == s[j - 1];
      } else {
        assert r[i] == s[i - 1] && r[j] == s[j - 1];
      }
    }
  }

  lemma {:induction false} InsertSorted<T(!new)>(x: T, s: seq<T>, cmp: (T, T) -> int)
    requires IsComparator(cmp) && Sorted(s, cmp)
    ensures Sorted(Insert(x, s, cmp), cmp)
  {
    if s == [] {
    } else if cmp(x, s[0]) <= 0 {
      forall k | 0 <= k < |s| ensures cmp(x, s[k]) <= 0 {
        if k > 0 {
          assert cmp(s[0], s[k]) <= 0;
        }
      }
      PrependSorted(x, s, cmp);
    } else {
      var y := s[0];
      InsertSorted(x, s[1..], cmp);
      assert cmp(y, x) <= 0;
      assert forall k :: 0 <= k < |s[1..]| ==> s[1..][k] == s[k + 1];
      InsertLowerBound(x, s[1..], cmp, y);
      PrependSorted(y, Insert(x, s[1..], cmp), cmp);
    }
  }

  /** The result is in order. */
  lemma {:induction false} SortSorted<T(!new)>(s: seq<T>, cmp: (T, T) -> int)
    requires IsComparator(cmp)
    ensures Sorted(Sort(s, cmp), cmp)
  {
    if s != [] {
      SortSorted(s[1..], cmp);
      InsertSorted(s[0], Sort(s[1..], cmp), cmp);
    }
  }

  /** The elements the comparator puts level with `e`. */
  function LevelWith<T>(cmp: (T, T) -> int, e: T): T -> bool
  {
    y => cmp(e, y) == 0
  }

  lemma {:induction false} InsertKeepsLevel<T(!new)>(x: T, s: seq<T>, cmp: (T, T) -> int, e: T)
    requires IsComparator(cmp)
    ensures Keep(Insert(x, s, cmp), LevelWith(cmp, e)) ==
      Keep([x], LevelWith(cmp, e)) + Keep(s, LevelWith(cmp, e))
  {
    var p := LevelWith(cmp, e);
    if s == [] || cmp(x, s[0]) <= 0 {
      KeepConcat([x], s, p);
    } else {
      InsertKeepsLevel(x, s[1..], cmp, e);
      KeepConcat([s[0]], Insert(x, s[1..], cmp), p);
      KeepConcat([s[0]], s[1..], p);
      assert s == [s[0]] + s[1..];
      KeepSingle(x, p);
      KeepSingle(s[0], p);
      if p(x) {
        SameIsTransitive(cmp, e, x, s[0]);
      }
    }
  }

  /** Stability: among elements level with one another the sorted list
      keeps the input order. */
  lemma {:induction false} SortStable<T(!new)>(s: seq<T>, cmp: (T, T) -> int, e: T)
    requires IsComparator(cmp)
    ensures Keep(Sort(s, cmp), LevelWith(cmp, e)) == Keep(s, LevelWith(cmp, e))
  {
    if s != [] {
      SortStable(s[1..], cmp, e);
      InsertKeepsLevel(s[0], Sort(s[1..], cmp), cmp, e);
      KeepConcat([s[0]], s[1..], LevelWith(cmp, e));
      assert s == [s[0]] + s[1..];
    }
  }

  /** A comparator that finds everything level leaves the list as it is. */
  lemma {:induction false} SortAllLevel<T>(s: seq<T>, cmp: (T, T) -> int)
    requires forall a, b :: cmp(a, b) == 0
    ensures Sort(s, cmp) == s
  {
    if s != [] {
      SortAllLevel(s[1..], cmp);
      assert s == [s[0]] + s[1..];
    }
  }
}
