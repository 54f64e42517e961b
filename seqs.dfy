/**
 * The list operations that queries and pages apply: `filter` (Prisma's
 * `where`, `Array.prototype.filter`), `slice(0, n)`, and stable sorting by an
 * integer key: Prisma's `orderBy` and JavaScript's
 * `Array.prototype.sort` with a comparator of the form `key(a) - key(b)`
 * (which is stable since ES2019). A descending order is the ascending order
 * of the negated key.
 */
module Seqs {

  ghost predicate SortedBy<T>(s: seq<T>, key: T -> int)
  {
    forall i, j :: 0 <= i < j < |s| ==> key(s[i]) <= key(s[j])
  }

  /** Puts `x` in front of the first element whose key is not smaller. */
  function Insert<T>(x: T, s: seq<T>, key: T -> int): (r: seq<T>)
    requires SortedBy(s, key)
    ensures |r| == |s| + 1
    ensures r[0] == x || (s != [] && r[0] == s[0])
    ensures SortedBy(r, key)
    ensures multiset(r) == multiset(s) + multiset{x}
  {
    if s == [] || key(x) <= key(s[0]) then [x] + s
    else
      var rest := Insert(x, s[1..], key);
      assert s == [s[0]] + s[1..];
      assert key(s[0]) <= key(rest[0]);
      [s[0]] + rest
  }

  /** Stable insertion sort: elements with equal keys keep their input order. */
  function SortBy<T>(s: seq<T>, key: T -> int): (r: seq<T>)
    ensures SortedBy(r, key)
    ensures multiset(r) == multiset(s)
    ensures |r| == |s|
  {
    if s == [] then []
    else
      assert s == [s[0]] + s[1..];
      Insert(s[0], SortBy(s[1..], key), key)
  }

  /** With a constant key (a comparator that always answers 0) sorting leaves the sequence as it is. */
  lemma {:induction false} SortByConstantKey<T>(s: seq<T>, key: T -> int)
    requires forall x, y :: key(x) == key(y)
    ensures SortBy(s, key) == s
  {
    if s != [] {
      SortByConstantKey(s[1..], key);
      assert s == [s[0]] + s[1..];
    }
  }

  /** Sorting keeps exactly the elements it was given. */
  lemma SortByMembers<T>(s: seq<T>, key: T -> int, x: T)
    ensures x in SortBy(s, key) <==> x in s
  {
    var r := SortBy(s, key);
    assert x in r <==> x in multiset(r);
  }

  /** Sorting keeps every element property: it only moves elements around. */
  lemma SortByKeeps<T>(s: seq<T>, key: T -> int, p: T -> bool)
    requires forall i :: 0 <= i < |s| ==> p(s[i])
    ensures forall i :: 0 <= i < |SortBy(s, key)| ==> p(SortBy(s, key)[i])
  {
    var r := SortBy(s, key);
    forall i | 0 <= i < |r| ensures p(r[i]) {
      assert r[i] in multiset(r);
      var j :| 0 <= j < |s| && s[j] == r[i];
    }
  }

  /** A sequence without repeats holds each element at most once. */
  lemma {:induction false} NoRepeatsOnce<T>(s: seq<T>, x: T)
    requires forall i, j :: 0 <= i < j < |s| ==> s[i] != s[j]
    ensures multiset(s)[x] <= 1
  {
    if s != [] {
      NoRepeatsOnce(s[1..], x);
      assert s == [s[0]] + s[1..];
      if x == s[0] {
        assert x !in s[1..];
      }
    }
  }

  /** An element found at two positions is held at least twice. */
  lemma RepeatTwice<T>(s: seq<T>, i: nat, j: nat)
    requires i < j < |s| && s[i] == s[j]
    ensures multiset(s)[s[i]] >= 2
  {
    assert s == s[..j] + s[j..];
    assert s[i] in s[..j];
    assert s[j] == s[j..][0];
  }

  /** Sorting keeps the elements distinct: it only moves them around. */
  lemma SortByDistinct<T>(s: seq<T>, key: T -> int)
    requires forall i, j :: 0 <= i < j < |s| ==> s[i] != s[j]
    ensures forall i, j :: 0 <= i < j < |SortBy(s, key)| ==> SortBy(s, key)[i] != SortBy(s, key)[j]
  {
    var r := SortBy(s, key);
    forall i, j | 0 <= i < j < |r| ensures r[i] != r[j] {
      NoRepeatsOnce(s, r[i]);
      if r[i] == r[j] {
        RepeatTwice(r, i, j);
      }
    }
  }

  /**
   * The first `n` of a sorted sequence come from the input, and whatever is
   * left behind sorts no earlier than any of them.
   */
  lemma TakeSortedBy<T>(s: seq<T>, key: T -> int, n: nat)
    ensures var r := Take(SortBy(s, key), n);
      && (forall x :: x in r ==> x in s)
      && (forall x :: x in s && x !in r ==> forall i :: 0 <= i < |r| ==> key(r[i]) <= key(x))
  {
    var sorted := SortBy(s, key);
    var r := Take(sorted, n);
    forall x | x in r ensures x in s {
      SortByMembers(s, key, x);
    }
    forall x | x in s && x !in r ensures forall i :: 0 <= i < |r| ==> key(r[i]) <= key(x) {
      SortByMembers(s, key, x);
      var k :| 0 <= k < |sorted| && sorted[k] == x;
      assert k >= |r|;
    }
  }

  /** `s.slice(0, n)`. */
  function Take<T>(s: seq<T>, n: nat): (r: seq<T>)
    ensures |r| == if |s| < n then |s| else n
    ensures r == s[..|r|]
  {
    if |s| < n then s else s[..n]
  }

  /** `s.filter(p)`: the elements that satisfy `p`, in their original order. */
  function Filter<T>(s: seq<T>, p: T -> bool): (r: seq<T>)
    ensures |r| <= |s|
    ensures forall i :: 0 <= i < |r| ==> p(r[i]) && r[i] in s
    ensures forall i :: 0 <= i < |s| && p(s[i]) ==> s[i] in r
    ensures multiset(r) <= multiset(s)
  {
    if s == [] then []
    else
      assert s == [s[0]] + s[1..];
      (if p(s[0]) then [s[0]] else []) + Filter(s[1..], p)
  }

  /** Filtering distributes over concatenation, which is to say it keeps the relative order. */
  lemma {:induction false} FilterAppend<T>(a: seq<T>, b: seq<T>, p: T -> bool)
    ensures Filter(a + b, p) == Filter(a, p) + Filter(b, p)
  {
    if a == [] {
      assert a + b == b;
    } else {
      assert (a + b)[0] == a[0];
      assert (a + b)[1..] == a[1..] + b;
      FilterAppend(a[1..], b, p);
    }
  }

  /** A filter that every element passes keeps the sequence as it is. */
  lemma {:induction false} FilterKeepsAll<T>(s: seq<T>, p: T -> bool)
    requires forall i :: 0 <= i < |s| ==> p(s[i])
    ensures Filter(s, p) == s
  {
    if s != [] {
      FilterKeepsAll(s[1..], p);
    }
  }

  /** A filter that no element passes keeps nothing. */
  lemma {:induction false} FilterKeepsNone<T>(s: seq<T>, p: T -> bool)
    requires forall i :: 0 <= i < |s| ==> !p(s[i])
    ensures Filter(s, p) == []
  {
    if s != [] {
      FilterKeepsNone(s[1..], p);
    }
  }

  /**
   * Two filters that share no element and together pass exactly what a
   * third passes split the third's result between them.
   */
  lemma {:induction false} FilterUnion<T>(s: seq<T>, p: T -> bool, q: T -> bool, u: T -> bool)
    requires forall i :: 0 <= i < |s| ==> (u(s[i]) <==> p(s[i]) || q(s[i])) && !(p(s[i]) && q(s[i]))
    ensures multiset(Filter(s, p)) + multiset(Filter(s, q)) == multiset(Filter(s, u))
    ensures |Filter(s, p)| + |Filter(s, q)| == |Filter(s, u)|
  {
    if s != [] {
      FilterUnion(s[1..], p, q, u);
    }
  }

  /** Two filters that split every element between them split the count. */
  lemma {:induction false} FilterSplit<T>(s: seq<T>, p: T -> bool, q: T -> bool)
    requires forall i :: 0 <= i < |s| ==> p(s[i]) != q(s[i])
    ensures |Filter(s, p)| + |Filter(s, q)| == |s|
  {
    if s != [] {
      FilterSplit(s[1..], p, q);
    }
  }
}
