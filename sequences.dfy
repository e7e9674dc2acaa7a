/** Order-preserving selection from a sequence, the shape of JavaScript's `Array.prototype.filter`. */
module Sequences {

  /** `r` is `s` with some elements left out and the rest kept in their order. */
  ghost predicate SubsequenceOf<T>(r: seq<T>, s: seq<T>)
    decreases |s|
  {
    if r == [] then true
    else if s == [] then false
    else (r[0] == s[0] && SubsequenceOf(r[1..], s[1..])) || SubsequenceOf(r, s[1..])
  }

  /** The elements of `s` that satisfy `p`, in the order of `s`. */
  function Filter<T>(s: seq<T>, p: T -> bool): seq<T> {
    if s == [] then []
    else if p(s[0]) then [s[0]] + Filter(s[1..], p)
    else Filter(s[1..], p)
  }

  /** The filter keeps the elements of `s`, in their order. */
  lemma {:induction false} FilterIsSubsequence<T>(s: seq<T>, p: T -> bool)
    ensures SubsequenceOf(Filter(s, p), s)
  {
    if s != [] {
      FilterIsSubsequence(s[1..], p);
    }
  }

  /** The filter keeps every copy of each element that satisfies `p` and no copy of the others. */
  lemma {:induction false} FilterCount<T(!new)>(s: seq<T>, p: T -> bool)
    ensures forall x :: multiset(Filter(s, p))[x] == if p(x) then multiset(s)[x] else 0
  {
    if s != [] {
      FilterCount(s[1..], p);
      assert s == [s[0]] + s[1..];
    }
  }

  /** Filtering distributes over concatenation. */
  lemma {:induction false} FilterConcat<T(!new)>(a: seq<T>, b: seq<T>, p: T -> bool)
    ensures Filter(a + b, p) == Filter(a, p) + Filter(b, p)
  {
    if a == [] {
      assert a + b == b;
    } else {
      assert (a + b)[1..] == a[1..] + b;
      FilterConcat(a[1..], b, p);
    }
  }

  /** Filtering a sequence cut in three pieces. */
  lemma FilterThree<T(!new)>(front: seq<T>, x: T, back: seq<T>, p: T -> bool)
    ensures Filter(front + [x] + back, p) == Filter(front, p) + Filter([x], p) + Filter(back, p)
  {
    FilterConcat(front + [x], back, p);
    FilterConcat(front, [x], p);
  }

  /** Inserting `x` between `front` and `back` adds it to the filtered sequence's end, when nothing in `back` passes the filter together with it. */
  lemma FilterInsert<T(!new)>(front: seq<T>, x: T, back: seq<T>, p: T -> bool)
    requires Filter(back, p) == [] || Filter([x], p) == []
    ensures Filter(front + [x] + back, p) == Filter(front + back, p) + Filter([x], p)
  {
    FilterThree(front, x, back, p);
    FilterConcat(front, back, p);
    SwapEmpty(Filter(front, p), Filter([x], p), Filter(back, p));
  }

  /** Two adjacent pieces commute when one of them is empty. */
  lemma SwapEmpty<T>(f: seq<T>, m: seq<T>, b: seq<T>)
    requires m == [] || b == []
    ensures f + m + b == f + b + m
  {
  }

  lemma FilterSingleton<T(!new)>(x: T, p: T -> bool)
    ensures Filter([x], p) == if p(x) then [x] else []
  {
    assert [x][1..] == [];
  }

  /** An element of `s` that satisfies `p` survives the filter. */
  lemma FilterKeeps<T(!new)>(s: seq<T>, p: T -> bool, k: nat)
    requires k < |s| && p(s[k])
    ensures s[k] in Filter(s, p)
  {
    FilterCount(s, p);
    assert multiset(Filter(s, p))[s[k]] == multiset(s)[s[k]] > 0;
  }

  /** Every element of the filtered sequence is an element of `s` that satisfies `p`. */
  lemma FilterMember<T(!new)>(s: seq<T>, p: T -> bool, x: T)
    requires x in Filter(s, p)
    ensures x in s && p(x)
  {
    FilterCount(s, p);
    assert multiset(Filter(s, p))[x] > 0;
  }

  /** Nothing passes the filter exactly when no element satisfies `p`. */
  lemma FilterEmpty<T(!new)>(s: seq<T>, p: T -> bool)
    ensures Filter(s, p) == [] <==> forall k :: 0 <= k < |s| ==> !p(s[k])
  {
    if Filter(s, p) != [] {
      FilterMember(s, p, Filter(s, p)[0]);
    }
    if exists k :: 0 <= k < |s| && p(s[k]) {
      var k :| 0 <= k < |s| && p(s[k]);
      FilterKeeps(s, p, k);
    }
  }

  /** Non-decreasing by an integer key. */
  ghost predicate SortedBy<T>(s: seq<T>, key: T -> int) {
    forall i, j :: 0 <= i < j < |s| ==> key(s[i]) <= key(s[j])
  }

  /** The positions of `r` after `x` is inserted at `j`. */
  lemma InsertedAt<T>(r: seq<T>, x: T, j: nat)
    requires j <= |r|
    ensures |r[..j] + [x] + r[j..]| == |r| + 1
    ensures forall a :: 0 <= a < |r| + 1 ==>
                        (r[..j] + [x] + r[j..])[a] == if a < j then r[a] else if a == j then x else r[a - 1]
    ensures multiset(r[..j] + [x] + r[j..]) == multiset(r) + multiset{x}
  {
    assert r == r[..j] + r[j..];
  }

  /** The tail of a sorted sequence is sorted. */
  lemma SortedByTail<T>(s: seq<T>, key: T -> int)
    requires s != [] && SortedBy(s, key)
    ensures SortedBy(s[1..], key)
  {
    forall i, j | 0 <= i < j < |s| - 1 ensures key(s[1..][i]) <= key(s[1..][j]) {
      assert s[1..][i] == s[i + 1] && s[1..][j] == s[j + 1];
    }
  }

  /** Inserting `x` after every element whose key is not above its own, and before the rest, keeps the order. */
  lemma InsertSortedBy<T>(r: seq<T>, x: T, j: nat, key: T -> int)
    requires SortedBy(r, key) && j <= |r|
    requires j > 0 ==> key(r[j - 1]) <= key(x)
    requires forall k :: j <= k < |r| ==> key(x) < key(r[k])
    ensures SortedBy(r[..j] + [x] + r[j..], key)
  {
    InsertedAt(r, x, j);
  }

  /** Exactly the elements of `s` that satisfy `p` are in the filtered sequence. */
  lemma FilterIn<T(!new)>(s: seq<T>, p: T -> bool)
    ensures forall x :: x in Filter(s, p) <==> x in s && p(x)
  {
    FilterCount(s, p);
    forall x ensures x in Filter(s, p) <==> x in s && p(x) {
      assert multiset(Filter(s, p))[x] == if p(x) then multiset(s)[x] else 0;
    }
  }

  /** Every position of the filtered sequence holds an element that satisfies `p`. */
  lemma FilterSatisfies<T(!new)>(s: seq<T>, p: T -> bool)
    ensures forall k :: 0 <= k < |Filter(s, p)| ==> p(Filter(s, p)[k])
  {
    forall k | 0 <= k < |Filter(s, p)| {
      FilterMember(s, p, Filter(s, p)[k]);
    }
  }

  /** A filter every element passes keeps the whole sequence. */
  lemma {:induction false} FilterAll<T(!new)>(s: seq<T>, p: T -> bool)
    requires forall k :: 0 <= k < |s| ==> p(s[k])
    ensures Filter(s, p) == s
  {
    if s != [] {
      FilterAll(s[1..], p);
    }
  }

  /** Filters by two predicates that agree everywhere select the same. */
  lemma {:induction false} FilterSame<T(!new)>(s: seq<T>, p: T -> bool, q: T -> bool)
    requires forall x :: p(x) == q(x)
    ensures Filter(s, p) == Filter(s, q)
  {
    if s != [] {
      FilterSame(s[1..], p, q);
    }
  }

  /** Filtering twice is filtering once by the conjunction. */
  lemma {:induction false} FilterFilter<T(!new)>(s: seq<T>, p: T -> bool, q: T -> bool, both: T -> bool)
    requires forall x :: both(x) == (p(x) && q(x))
    ensures Filter(Filter(s, p), q) == Filter(s, both)
  {
    if s != [] {
      var rest := Filter(s[1..], p);
      FilterFilter(s[1..], p, q, both);
      if p(s[0]) {
        assert ([s[0]] + rest)[1..] == rest;
      }
    }
  }

  /** Filtering a sorted sequence leaves it sorted. */
  lemma {:induction false} FilterSortedBy<T(!new)>(s: seq<T>, p: T -> bool, key: T -> int)
    requires SortedBy(s, key)
    ensures SortedBy(Filter(s, p), key)
  {
    if s != [] {
      SortedByTail(s, key);
      FilterSortedBy(s[1..], p, key);
      if p(s[0]) {
        var rest := Filter(s[1..], p);
        forall k | 0 <= k < |rest| ensures key(s[0]) <= key(rest[k]) {
          FilterMember(s[1..], p, rest[k]);
          var i :| 0 <= i < |s[1..]| && s[1..][i] == rest[k];
          assert s[i + 1] == rest[k];
        }
      }
    }
  }
}
