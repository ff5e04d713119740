/** Order-preserving filtering, the shape shared by every `stream().filter`,
    `Array.prototype.filter` and filter loop of the services. */
module Seqs {

  /** `r` is obtained from `xs` by deleting elements (greedy match from the end). */
  predicate IsSubsequence<T(==)>(r: seq<T>, xs: seq<T>)
    decreases |xs|
  {
    if r == [] then true
    else if xs == [] then false
    else if r[|r| - 1] == xs[|xs| - 1] then IsSubsequence(r[..|r| - 1], xs[..|xs| - 1])
    else IsSubsequence(r, xs[..|xs| - 1])
  }

  /** The elements of `xs` satisfying `p`, in their original order. */
  function Keep<T(==,!new)>(xs: seq<T>, p: T -> bool): (r: seq<T>)
    ensures |r| <= |xs|
  {
    if xs == [] then []
    else Keep(xs[..|xs| - 1], p) + if p(xs[|xs| - 1]) then [xs[|xs| - 1]] else []
  }

  /** `Keep` holds only elements of `xs` that satisfy `p`. */
  lemma {:induction false} KeepMembers<T(!new)>(xs: seq<T>, p: T -> bool)
    ensures forall x :: x in Keep(xs, p) ==> x in xs && p(x)
  {
    if xs != [] {
      KeepMembers(xs[..|xs| - 1], p);
    }
  }

  /** `Keep` holds every element satisfying `p` exactly as often as `xs`
      does, and no other element. */
  lemma {:induction false} KeepCounts<T(!new)>(xs: seq<T>, p: T -> bool)
    ensures forall x :: multiset(Keep(xs, p))[x] == if p(x) then multiset(xs)[x] else 0
  {
    if xs != [] {
      var init := xs[..|xs| - 1];
      var last := xs[|xs| - 1];
      assert xs == init + [last];
      assert multiset(xs) == multiset(init) + multiset{last};
      KeepCounts(init, p);
    }
  }

  /** `Keep` preserves the relative order of what it keeps. */
  lemma {:induction false} KeepOrdered<T(!new)>(xs: seq<T>, p: T -> bool)
    ensures IsSubsequence(Keep(xs, p), xs)
  {
    if xs != [] {
      var init := xs[..|xs| - 1];
      var last := xs[|xs| - 1];
      var r := Keep(xs, p);
      KeepOrdered(init, p);
      if p(last) {
        assert r[..|r| - 1] == Keep(init, p);
      } else {
        assert xs[..|xs| - 1] == init && r == Keep(init, p);
        if r != [] {
          KeepMembers(init, p);
          assert r[|r| - 1] in Keep(init, p);
          assert r[|r| - 1] != last;
        }
      }
    }
  }

  /** What `Keep` means: an order-preserving subsequence of `xs` holding
      exactly the occurrences of the elements that satisfy `p`. */
  lemma KeepSpec<T(!new)>(xs: seq<T>, p: T -> bool)
    ensures IsSubsequence(Keep(xs, p), xs)
    ensures forall x :: multiset(Keep(xs, p))[x] == if p(x) then multiset(xs)[x] else 0
    ensures forall x :: x in Keep(xs, p) <==> x in xs && p(x)
  {
    KeepOrdered(xs, p);
    KeepCounts(xs, p);
  }

  lemma {:induction false} KeepAppend<T(!new)>(xs: seq<T>, x: T, p: T -> bool)
    ensures Keep(xs + [x], p) == Keep(xs, p) + if p(x) then [x] else []
  {
    assert (xs + [x])[..|xs|] == xs;
  }

  /** A single element is kept exactly when it passes. */
  lemma KeepSingle<T(!new)>(x: T, p: T -> bool)
    ensures Keep([x], p) == if p(x) then [x] else []
  {
    KeepAppend([], x, p);
    assert [] + [x] == [x];
  }

  lemma {:induction false} KeepConcat<T(!new)>(xs: seq<T>, ys: seq<T>, p: T -> bool)
    ensures Keep(xs + ys, p) == Keep(xs, p) + Keep(ys, p)
    decreases |ys|
  {
    if ys == [] {
      assert xs + ys == xs;
    } else {
      var init := ys[..|ys| - 1];
      var last := ys[|ys| - 1];
      assert ys == init + [last];
      assert xs + ys == (xs + init) + [last];
      KeepAppend(xs + init, last, p);
      KeepAppend(init, last, p);
      KeepConcat(xs, init, p);
    }
  }

  /** When every element passes, nothing is dropped. */
  lemma {:induction false} KeepAll<T(!new)>(xs: seq<T>, p: T -> bool)
    requires forall i :: 0 <= i < |xs| ==> p(xs[i])
    ensures Keep(xs, p) == xs
  {
    if xs != [] {
      KeepAll(xs[..|xs| - 1], p);
    }
  }

  /** Two filters in a row keep exactly what their conjunction keeps. */
  lemma {:induction false} KeepKeep<T(!new)>(xs: seq<T>, p: T -> bool, q: T -> bool, pq: T -> bool)
    requires forall x :: pq(x) == (p(x) && q(x))
    ensures Keep(Keep(xs, p), q) == Keep(xs, pq)
  {
    if xs != [] {
      var init := xs[..|xs| - 1];
      var last := xs[|xs| - 1];
      assert xs[..|xs| - 1] == init;
      KeepKeep(init, p, q, pq);
      assert Keep(xs, pq) == Keep(init, pq) + if pq(last) then [last] else [];
      if p(last) {
        calc {
          Keep(Keep(xs, p), q);
          { assert Keep(xs, p) == Keep(init, p) + [last]; }
          Keep(Keep(init, p) + [last], q);
          { KeepAppend(Keep(init, p), last, q); }
          Keep(Keep(init, p), q) + if q(last) then [last] else [];
          { assert pq(last) == q(last); }
          Keep(init, pq) + if pq(last) then [last] else [];
        }
      } else {
        assert Keep(xs, p) == Keep(init, p) && !pq(last);
      }
    }
  }

  /** Filters with the same verdict on every element of `xs` agree on `xs`. */
  lemma {:induction false} KeepCongruent<T(!new)>(xs: seq<T>, p: T -> bool, q: T -> bool)
    requires forall i :: 0 <= i < |xs| ==> p(xs[i]) == q(xs[i])
    ensures Keep(xs, p) == Keep(xs, q)
  {
    if xs != [] {
      KeepCongruent(xs[..|xs| - 1], p, q);
    }
  }
}
