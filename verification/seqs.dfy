/** Order-preserving filtering, first-match search and a stable sort over
    sequences: the `Array.prototype.filter`, `find` and `sort` calls that the
    storage layer and the client pages are built from. */
module Seqs {
  import opened Basics

  /** `r` can be obtained from `xs` by deleting elements: it keeps their order. */
  ghost predicate IsSubseq<T>(r: seq<T>, xs: seq<T>)
    decreases |xs|
  {
    || |r| == 0
    || (&& |xs| > 0
        && ((r[0] == xs[0] && IsSubseq(r[1..], xs[1..])) || IsSubseq(r, xs[1..])))
  }

  /** The elements of `xs` that satisfy `p`, in their original order. */
  function Filter<T>(xs: seq<T>, p: T -> bool): (r: seq<T>)
    ensures |r| <= |xs|
    ensures forall x :: x in r ==> x in xs && p(x)
  {
    if |xs| == 0 then []
    else if p(xs[0]) then [xs[0]] + Filter(xs[1..], p)
    else Filter(xs[1..], p)
  }

  /** An element is kept exactly when it occurs in the input and passes `p`. */
  lemma {:induction false} FilterMembership<T>(xs: seq<T>, p: T -> bool)
    ensures forall x :: x in Filter(xs, p) <==> x in xs && p(x)
  {
    if |xs| > 0 {
      FilterMembership(xs[1..], p);
      assert xs == [xs[0]] + xs[1..];
    }
  }

  /** Every passing element keeps its multiplicity; every failing one is gone. */
  lemma {:induction false} FilterCount<T>(xs: seq<T>, p: T -> bool)
    ensures forall x :: multiset(Filter(xs, p))[x] == if p(x) then multiset(xs)[x] else 0
  {
    if |xs| > 0 {
      FilterCount(xs[1..], p);
      assert xs == [xs[0]] + xs[1..];
      assert multiset(xs) == multiset{xs[0]} + multiset(xs[1..]);
    }
  }

  /** Filtering preserves the relative order of the kept elements. */
  lemma {:induction false} FilterIsSubseq<T>(xs: seq<T>, p: T -> bool)
    ensures IsSubseq(Filter(xs, p), xs)
    decreases |xs|
  {
    var r := Filter(xs, p);
    if |xs| == 0 {
    } else if p(xs[0]) {
      FilterIsSubseq(xs[1..], p);
      assert r[0] == xs[0] && r[1..] == Filter(xs[1..], p);
    } else {
      FilterIsSubseq(xs[1..], p);
      assert r == Filter(xs[1..], p);
    }
  }

  /** A filter that every element passes returns the input unchanged. */
  lemma {:induction false} FilterKeepsAll<T>(xs: seq<T>, p: T -> bool)
    requires forall x :: x in xs ==> p(x)
    ensures Filter(xs, p) == xs
  {
    if |xs| > 0 {
      assert xs[0] in xs;
      assert forall x :: x in xs[1..] ==> x in xs;
      FilterKeepsAll(xs[1..], p);
    }
  }

  /** Two predicates that agree on the elements give the same result. */
  lemma {:induction false} FilterAgree<T>(xs: seq<T>, p: T -> bool, q: T -> bool)
    requires forall x :: x in xs ==> p(x) == q(x)
    ensures Filter(xs, p) == Filter(xs, q)
  {
    if |xs| > 0 {
      assert xs[0] in xs;
      assert forall x :: x in xs[1..] ==> x in xs;
      FilterAgree(xs[1..], p, q);
    }
  }

  /** Filtering on `p` and on its negation splits `xs` in two: the lengths
      add up and each element lands on exactly one side. */
  lemma {:induction false} FilterSplit<T>(xs: seq<T>, p: T -> bool, q: T -> bool)
    requires forall x :: q(x) == !p(x)
    ensures |Filter(xs, p)| + |Filter(xs, q)| == |xs|
    ensures multiset(Filter(xs, p)) + multiset(Filter(xs, q)) == multiset(xs)
  {
    if |xs| > 0 {
      FilterSplit(xs[1..], p, q);
      assert xs == [xs[0]] + xs[1..];
      assert multiset(xs) == multiset{xs[0]} + multiset(xs[1..]);
    }
  }

  /** No element occurs twice. */
  ghost predicate Distinct<T>(xs: seq<T>) {
    forall i, j :: 0 <= i < j < |xs| ==> xs[i] != xs[j]
  }

  /** Filtering a duplicate-free sequence leaves it duplicate-free. */
  lemma {:induction false} FilterDistinct<T>(xs: seq<T>, p: T -> bool)
    requires Distinct(xs)
    ensures Distinct(Filter(xs, p))
  {
    if |xs| > 0 {
      assert Distinct(xs[1..]) by {
        forall i, j | 0 <= i < j < |xs[1..]| ensures xs[1..][i] != xs[1..][j] {
          assert xs[1..][i] == xs[i + 1] && xs[1..][j] == xs[j + 1];
        }
      }
      FilterDistinct(xs[1..], p);
      FilterMembership(xs[1..], p);
      if p(xs[0]) {
        var r := Filter(xs, p);
        var rest := Filter(xs[1..], p);
        assert xs[0] !in xs[1..] by {
          forall j | 0 <= j < |xs[1..]| ensures xs[1..][j] != xs[0] {
            assert xs[1..][j] == xs[j + 1];
          }
        }
        forall i, j | 0 <= i < j < |r| ensures r[i] != r[j] {
          assert r[j] == rest[j - 1] && rest[j - 1] in rest;
          if i > 0 {
            assert r[i] == rest[i - 1];
          }
        }
      }
    }
  }

  /** The first element of `xs` that satisfies `p` (`Array.prototype.find`). */
  function FindFirst<T>(xs: seq<T>, p: T -> bool): (r: Option<T>)
    ensures r.None? <==> Filter(xs, p) == []
    ensures r.Some? ==> r.value == Filter(xs, p)[0] && r.value in xs && p(r.value)
  {
    if |xs| == 0 then None
    else if p(xs[0]) then Some(xs[0])
    else FindFirst(xs[1..], p)
  }

  /** `x` is the first element of `xs` that satisfies `p`: it sits at some
      position and nothing before that position satisfies `p`. */
  ghost predicate IsFirstMatch<T>(xs: seq<T>, p: T -> bool, x: T) {
    exists i :: 0 <= i < |xs| && xs[i] == x && p(x) && forall j :: 0 <= j < i ==> !p(xs[j])
  }

  /** `find` returns the earliest passing element, not just any. */
  lemma {:induction false} FindFirstIsFirst<T>(xs: seq<T>, p: T -> bool)
    ensures FindFirst(xs, p).Some? ==> IsFirstMatch(xs, p, FindFirst(xs, p).value)
    decreases |xs|
  {
    if |xs| > 0 {
      if p(xs[0]) {
        assert xs[0] == FindFirst(xs, p).value;
      } else {
        FindFirstIsFirst(xs[1..], p);
        if FindFirst(xs, p).Some? {
          var i :| 0 <= i < |xs[1..]| && xs[1..][i] == FindFirst(xs, p).value && p(xs[1..][i])
                   && forall j :: 0 <= j < i ==> !p(xs[1..][j]);
          assert xs[i + 1] == xs[1..][i];
          assert forall j :: 0 < j < i + 1 ==> xs[j] == xs[1..][j - 1];
        }
      }
    }
  }

  /** `find` answers "absent" exactly when nothing in `xs` satisfies `p`. */
  lemma FindFirstNone<T>(xs: seq<T>, p: T -> bool)
    ensures FindFirst(xs, p).None? <==> forall x :: x in xs ==> !p(x)
  {
    FilterMembership(xs, p);
    if FindFirst(xs, p).Some? {
      assert Filter(xs, p)[0] in Filter(xs, p);
    }
  }

  /** When at most one element satisfies `p`, `find` returns that element. */
  lemma FindFirstUnique<T>(xs: seq<T>, p: T -> bool, y: T)
    requires y in xs && p(y)
    requires forall x :: x in xs && p(x) ==> x == y
    ensures FindFirst(xs, p) == Some(y)
  {
    FindFirstNone(xs, p);
  }

  /** Ascending by `key` (all pairs, not just neighbours). */
  ghost predicate SortedBy<T>(xs: seq<T>, key: T -> int) {
    forall i, j :: 0 <= i < j < |xs| ==> key(xs[i]) <= key(xs[j])
  }

  /** Inserts `x` before the first element whose key is not smaller. */
  function InsertBy<T>(x: T, ys: seq<T>, key: T -> int): (r: seq<T>)
    ensures multiset(r) == multiset(ys) + multiset{x}
    ensures |r| == |ys| + 1
  {
    if |ys| == 0 || key(x) <= key(ys[0]) then
      [x] + ys
    else
      assert ys == [ys[0]] + ys[1..];
      [ys[0]] + InsertBy(x, ys[1..], key)
  }

  /** Inserting into a sorted sequence keeps it sorted. */
  lemma {:induction false} InsertBySorted<T>(x: T, ys: seq<T>, key: T -> int)
    requires SortedBy(ys, key)
    ensures SortedBy(InsertBy(x, ys, key), key)
    decreases |ys|
  {
    if |ys| > 0 && key(x) > key(ys[0]) {
      var rest := InsertBy(x, ys[1..], key);
      InsertBySorted(x, ys[1..], key);
      forall z | z in rest ensures key(ys[0]) <= key(z) {
        assert z in multiset(rest);
        assert z == x || z in multiset(ys[1..]);
        if z != x {
          var j :| 0 <= j < |ys[1..]| && ys[1..][j] == z;
          assert ys[j + 1] == z;
        }
      }
      var r := [ys[0]] + rest;
      forall i, j | 0 <= i < j < |r| ensures key(r[i]) <= key(r[j]) {
        if i == 0 {
          assert r[j] == rest[j - 1] && rest[j - 1] in rest;
        } else {
          assert r[i] == rest[i - 1] && r[j] == rest[j - 1];
        }
      }
    }
  }

  /** A stable insertion sort ascending by `key` (the engine's `sort` with a
      comparator that subtracts keys). */
  function SortBy<T>(xs: seq<T>, key: T -> int): (r: seq<T>)
    ensures SortedBy(r, key)
    ensures multiset(r) == multiset(xs)
  {
    if |xs| == 0 then []
    else
      assert xs == [xs[0]] + xs[1..];
      InsertBySorted(xs[0], SortBy(xs[1..], key), key);
      InsertBy(xs[0], SortBy(xs[1..], key), key)
  }

  /** Sorting keeps exactly the input's elements. */
  lemma SortByMembership<T>(xs: seq<T>, key: T -> int)
    ensures forall x :: x in SortBy(xs, key) <==> x in xs
  {
    var r := SortBy(xs, key);
    forall x ensures x in r <==> x in xs {
      assert x in r <==> x in multiset(r);
      assert x in xs <==> x in multiset(xs);
    }
  }
}
