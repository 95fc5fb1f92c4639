/** Filtering and stable sorting of sequences: the shape of every repository
    query and stream pipeline in the queue service. */
module Seqs {

  /** The elements of `s` satisfying `p`, in their original order
      (`stream().filter(p)` or a derived repository query). */
  function Filter<T(!new)>(s: seq<T>, p: T -> bool): (r: seq<T>)
    ensures |r| <= |s|
    ensures forall x {:trigger x in r} :: x in r <==> x in s && p(x)
  {
    if |s| == 0 then []
    else
      assert s == [s[0]] + s[1..];
      if p(s[0]) then [s[0]] + Filter(s[1..], p)
      else Filter(s[1..], p)
  }

  /** The indices of `s` whose element satisfies `p`. */
  ghost function Indices<T>(s: seq<T>, p: T -> bool): set<int>
  {
    set i | 0 <= i < |s| && p(s[i])
  }

  lemma {:induction false} FilterAppend<T(!new)>(a: seq<T>, b: seq<T>, p: T -> bool)
    ensures Filter(a + b, p) == Filter(a, p) + Filter(b, p)
  {
    if |a| == 0 {
      assert a + b == b;
    } else {
      assert (a + b)[0] == a[0];
      assert (a + b)[1..] == a[1..] + b;
      FilterAppend(a[1..], b, p);
    }
  }

  /** A filter keeps exactly as many elements as there are indices whose
      element passes it. */
  lemma {:induction false} FilterSizeIsIndexCount<T(!new)>(s: seq<T>, p: T -> bool)
    ensures |Filter(s, p)| == |Indices(s, p)|
    decreases |s|
  {
    if |s| > 0 {
      var n := |s| - 1;
      var front := s[..n];
      assert s == front + [s[n]];
      FilterAppend(front, [s[n]], p);
      FilterSizeIsIndexCount(front, p);
      assert [s[n]][1..] == [];
      assert Filter([s[n]], p) == if p(s[n]) then [s[n]] else [];
      forall i | 0 <= i < n
        ensures i in Indices(s, p) <==> i in Indices(front, p)
      {
        assert s[i] == front[i];
      }
      if p(s[n]) {
        assert Indices(s, p) == Indices(front, p) + {n};
        assert n !in Indices(front, p);
      } else {
        assert Indices(s, p) == Indices(front, p);
      }
    }
  }

  /** Filtering two sequences that agree, index by index, on the outcome of
      the two tests keeps the same number of elements. */
  lemma {:induction false} FilterCountPointwise<T(!new)>(a: seq<T>, b: seq<T>, p: T -> bool, q: T -> bool)
    requires |a| == |b|
    requires forall i :: 0 <= i < |a| ==> p(a[i]) == q(b[i])
    ensures |Filter(a, p)| == |Filter(b, q)|
  {
    if |a| > 0 {
      assert p(a[0]) == q(b[0]);
      FilterCountPointwise(a[1..], b[1..], p, q);
    }
  }

  /** A weaker test keeps at least as many elements, and strictly more when
      some element of `s` passes it but not the stronger one. */
  lemma {:induction false} FilterCountStrict<T(!new)>(s: seq<T>, p: T -> bool, q: T -> bool, x: T)
    requires forall y :: y in s && p(y) ==> q(y)
    requires x in s && q(x) && !p(x)
    ensures |Filter(s, p)| < |Filter(s, q)|
  {
    if s[0] == x {
      FilterCountMono(s[1..], p, q);
    } else {
      FilterCountStrict(s[1..], p, q, x);
    }
  }

  /** An element that passes the filter is preceded, in the filtered
      sequence, only by passing elements of the prefix before it. */
  lemma FilterPrefixIsShorter<T(!new)>(s: seq<T>, i: nat, p: T -> bool)
    requires i < |s| && p(s[i])
    ensures |Filter(s[..i], p)| < |Filter(s, p)|
  {
    assert s == s[..i] + s[i..];
    FilterAppend(s[..i], s[i..], p);
    assert s[i..][0] == s[i];
  }

  /** A filter that rejects some element of `s` keeps fewer elements than
      `s` has. */
  lemma {:induction false} FilterDropsSome<T(!new)>(s: seq<T>, p: T -> bool, x: T)
    requires x in s && !p(x)
    ensures |Filter(s, p)| < |s|
  {
    if s[0] != x {
      FilterDropsSome(s[1..], p, x);
    }
  }

  /** Filtering by `p` and then by `q` is filtering by their conjunction. */
  lemma {:induction false} FilterTwice<T(!new)>(s: seq<T>, p: T -> bool, q: T -> bool, both: T -> bool)
    requires forall x :: both(x) == (p(x) && q(x))
    ensures Filter(Filter(s, p), q) == Filter(s, both)
  {
    if |s| > 0 {
      FilterTwice(s[1..], p, q, both);
      if p(s[0]) {
        assert Filter(s, p) == [s[0]] + Filter(s[1..], p);
        assert ([s[0]] + Filter(s[1..], p))[1..] == Filter(s[1..], p);
      }
    }
  }

  lemma {:induction false} FilterCountMono<T(!new)>(s: seq<T>, p: T -> bool, q: T -> bool)
    requires forall y :: y in s && p(y) ==> q(y)
    ensures |Filter(s, p)| <= |Filter(s, q)|
  {
    if |s| > 0 {
      FilterCountMono(s[1..], p, q);
    }
  }

  /** Sequences with the same multiset have the same members. */
  lemma SameMultisetSameMembers<T>(a: seq<T>, b: seq<T>)
    requires multiset(a) == multiset(b)
    ensures forall x :: x in a <==> x in b
  {
    forall x
      ensures x in a <==> x in b
    {
      assert x in a <==> x in multiset(a);
      assert x in b <==> x in multiset(b);
    }
  }

  /** `s` is in ascending order of `key`. */
  ghost predicate SortedBy<T>(s: seq<T>, key: T -> int)
  {
    forall i, j :: 0 <= i < j < |s| ==> key(s[i]) <= key(s[j])
  }

  /** Putting a key no larger than any of a sorted sequence's keys in front
      keeps it sorted. */
  lemma SortedCons<T>(h: T, rest: seq<T>, key: T -> int)
    requires SortedBy(rest, key)
    requires forall j :: 0 <= j < |rest| ==> key(h) <= key(rest[j])
    ensures SortedBy([h] + rest, key)
  {
    var r := [h] + rest;
    forall i, j | 0 <= i < j < |r|
      ensures key(r[i]) <= key(r[j])
    {
      assert r[j] == rest[j - 1];
      if i > 0 {
        assert r[i] == rest[i - 1];
      }
    }
  }

  /** Every element of a sorted sequence's tail, and anything with a larger
      key, has a key no smaller than its head's. */
  lemma HeadBelowInserted<T>(x: T, s: seq<T>, key: T -> int, rest: seq<T>)
    requires SortedBy(s, key) && |s| > 0 && key(s[0]) < key(x)
    requires multiset(rest) == multiset(s[1..]) + multiset{x}
    ensures forall j :: 0 <= j < |rest| ==> key(s[0]) <= key(rest[j])
  {
    forall j | 0 <= j < |rest|
      ensures key(s[0]) <= key(rest[j])
    {
      assert rest[j] in multiset(rest);
      if rest[j] != x {
        assert rest[j] in multiset(s[1..]);
        var k :| 0 <= k < |s[1..]| && s[1..][k] == rest[j];
        assert s[k + 1] == rest[j];
      }
    }
  }

  /** Inserts `x` in front of the first element whose key is not smaller, so
      that `x` stays ahead of later elements with an equal key. */
  function Insert<T>(x: T, s: seq<T>, key: T -> int): (r: seq<T>)
    requires SortedBy(s, key)
    ensures SortedBy(r, key)
    ensures multiset(r) == multiset(s) + multiset{x}
  {
    if |s| == 0 then [x]
    else if key(x) <= key(s[0]) then
      SortedCons(x, s, key);
      [x] + s
    else
      var rest := Insert(x, s[1..], key);
      assert s == [s[0]] + s[1..];
      HeadBelowInserted(x, s, key, rest);
      SortedCons(s[0], rest, key);
      [s[0]] + rest
  }

  /** A stable sort in ascending order of `key` (Java's `List.sort` /
      `Stream.sorted` with `Comparator.comparing(key)`). */
  function SortBy<T>(s: seq<T>, key: T -> int): (r: seq<T>)
    ensures SortedBy(r, key)
    ensures multiset(r) == multiset(s)
  {
    if |s| == 0 then []
    else
      assert s == [s[0]] + s[1..];
      Insert(s[0], SortBy(s[1..], key), key)
  }
}
