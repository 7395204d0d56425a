/** Sequence combinators behind the repositories' derived queries: a filter
    (a WHERE clause), a stable sort by an integer key (an ORDER BY) and a map
    (a stream `map`). */
module Seqs {

  /** Keeps, in order, the elements that satisfy `p`. */
  function Filter<T(!new)>(s: seq<T>, p: T -> bool): (r: seq<T>)
    ensures |r| <= |s|
    ensures forall x :: x in r <==> x in s && p(x)
    ensures forall i :: 0 <= i < |r| ==> p(r[i])
  {
    if s == [] then [] else (if p(s[0]) then [s[0]] else []) + Filter(s[1..], p)
  }

  function MapSeq<A, B>(f: A -> B, s: seq<A>): (r: seq<B>)
    ensures |r| == |s|
    ensures forall i :: 0 <= i < |s| ==> r[i] == f(s[i])
  {
    seq(|s|, i requires 0 <= i < |s| => f(s[i]))
  }

  /** The image of a member is a member of the image. */
  lemma MapSeqMember<A, B>(f: A -> B, s: seq<A>, x: A)
    requires x in s
    ensures f(x) in MapSeq(f, s)
  {
    var i :| 0 <= i < |s| && s[i] == x;
    assert MapSeq(f, s)[i] == f(x);
  }

  /** `s` is in ascending order of `key`. */
  predicate SortedBy<T>(s: seq<T>, key: T -> int)
  {
    forall i, j :: 0 <= i < j < |s| ==> key(s[i]) <= key(s[j])
  }

  /** Inserts `x` before the first element whose key is not smaller. */
  function Insert<T(!new)>(x: T, s: seq<T>, key: T -> int): (r: seq<T>)
    ensures |r| == |s| + 1
    ensures multiset(r) == multiset(s) + multiset{x}
  {
    if s == [] then [x]
    else if key(x) <= key(s[0]) then [x] + s
    else
      assert s == [s[0]] + s[1..];
      [s[0]] + Insert(x, s[1..], key)
  }

  lemma {:induction false} InsertSorted<T(!new)>(x: T, s: seq<T>, key: T -> int)
    requires SortedBy(s, key)
    ensures SortedBy(Insert(x, s, key), key)
  {
    if s != [] && key(x) > key(s[0]) {
      var t := Insert(x, s[1..], key);
      InsertSorted(x, s[1..], key);
      InsertMembers(x, s[1..], key);
      forall j | 0 <= j < |t| ensures key(s[0]) <= key(t[j]) {
        assert t[j] in t;
        if t[j] != x {
          assert t[j] in s[1..];
          var k :| 0 <= k < |s[1..]| && s[1..][k] == t[j];
          assert s[1..][k] == s[k + 1];
        }
      }
    }
  }

  /** Inserting adds `x` and nothing else. */
  lemma InsertMembers<T(!new)>(x: T, s: seq<T>, key: T -> int)
    ensures forall y :: y in Insert(x, s, key) ==> y == x || y in s
  {
    forall y | y in Insert(x, s, key) ensures y == x || y in s {
      assert y in multiset(Insert(x, s, key));
    }
  }

  /** A stable insertion sort, ascending by `key`; a descending ORDER BY is
      the same sort by the negated key. */
  function SortBy<T(!new)>(s: seq<T>, key: T -> int): (r: seq<T>)
    ensures |r| == |s|
    ensures multiset(r) == multiset(s)
    ensures SortedBy(r, key)
  {
    if s == [] then []
    else
      var t := SortBy(s[1..], key);
      SortStep(s, t, key);
      Insert(s[0], t, key)
  }

  /** Inserting the head into the sorted tail sorts the whole sequence. */
  lemma SortStep<T(!new)>(s: seq<T>, t: seq<T>, key: T -> int)
    requires s != [] && multiset(t) == multiset(s[1..]) && SortedBy(t, key)
    ensures multiset(Insert(s[0], t, key)) == multiset(s)
    ensures SortedBy(Insert(s[0], t, key), key)
  {
    InsertSorted(s[0], t, key);
    assert s == [s[0]] + s[1..];
  }

  lemma {:induction false} FilterAppend<T(!new)>(s: seq<T>, t: seq<T>, p: T -> bool)
    ensures Filter(s + t, p) == Filter(s, p) + Filter(t, p)
  {
    if s == [] {
      assert s + t == t;
    } else {
      assert (s + t)[1..] == s[1..] + t;
      FilterAppend(s[1..], t, p);
    }
  }

  /** Nothing passes a filter that no element satisfies. */
  lemma FilterNone<T(!new)>(s: seq<T>, p: T -> bool)
    requires forall i :: 0 <= i < |s| ==> !p(s[i])
    ensures Filter(s, p) == []
  {
  }

  lemma FilterSingleton<T(!new)>(x: T, p: T -> bool)
    ensures Filter([x], p) == if p(x) then [x] else []
  {
    assert [x][1..] == [];
  }

  lemma SortedTail<T(!new)>(s: seq<T>, key: T -> int)
    requires s != [] && SortedBy(s, key)
    ensures SortedBy(s[1..], key)
    ensures forall y :: y in s ==> key(s[0]) <= key(y)
  {
    forall y | y in s ensures key(s[0]) <= key(y) {
      var j :| 0 <= j < |s| && s[j] == y;
      if j > 0 { assert key(s[0]) <= key(s[j]); }
    }
  }

  lemma FilterCons<T(!new)>(s: seq<T>, p: T -> bool)
    requires s != []
    ensures Filter(s, p) == (if p(s[0]) then [s[0]] else []) + Filter(s[1..], p)
  {
  }

  lemma InsertAfterHead<T(!new)>(x: T, s: seq<T>, key: T -> int)
    requires s != [] && key(x) > key(s[0])
    ensures Insert(x, s, key) == [s[0]] + Insert(x, s[1..], key)
  {
  }

  /** The case of `FilterInsert` where `x` goes in front. */
  lemma FilterInsertFront<T(!new)>(x: T, s: seq<T>, key: T -> int, p: T -> bool)
    requires s != [] && SortedBy(s, key) && key(x) <= key(s[0])
    ensures Filter(Insert(x, s, key), p) == if p(x) then Insert(x, Filter(s, p), key) else Filter(s, p)
  {
    assert Insert(x, s, key) == [x] + s;
    FilterAppend([x], s, p);
    FilterSingleton(x, p);
    var f := Filter(s, p);
    if p(x) && f != [] {
      SortedTail(s, key);
      assert f[0] in s;
      assert Insert(x, f, key) == [x] + f;
    }
  }

  /** The cases of `FilterInsert` where `x` goes after the head, given the
      result for the tail: `x` is dropped, kept behind a kept head, or kept
      behind a dropped head. */
  lemma FilterInsertLaterDropped<T(!new)>(x: T, s: seq<T>, key: T -> int, p: T -> bool)
    requires s != [] && key(x) > key(s[0]) && !p(x)
    requires Filter(Insert(x, s[1..], key), p) == Filter(s[1..], p)
    ensures Filter(Insert(x, s, key), p) == Filter(s, p)
  {
    InsertAfterHead(x, s, key);
    var t := Insert(x, s[1..], key);
    FilterCons([s[0]] + t, p);
    assert ([s[0]] + t)[1..] == t;
    FilterCons(s, p);
  }

  lemma FilterInsertLaterBehindKept<T(!new)>(x: T, s: seq<T>, key: T -> int, p: T -> bool)
    requires s != [] && key(x) > key(s[0]) && p(x) && p(s[0])
    requires Filter(Insert(x, s[1..], key), p) == Insert(x, Filter(s[1..], p), key)
    ensures Filter(Insert(x, s, key), p) == Insert(x, Filter(s, p), key)
  {
    InsertAfterHead(x, s, key);
    var t := Insert(x, s[1..], key);
    FilterCons([s[0]] + t, p);
    assert ([s[0]] + t)[1..] == t;
    FilterCons(s, p);
    var fr := Filter(s[1..], p);
    InsertAfterHead(x, [s[0]] + fr, key);
    assert ([s[0]] + fr)[1..] == fr;
  }

  lemma FilterInsertLaterBehindDropped<T(!new)>(x: T, s: seq<T>, key: T -> int, p: T -> bool)
    requires s != [] && key(x) > key(s[0]) && p(x) && !p(s[0])
    requires Filter(Insert(x, s[1..], key), p) == Insert(x, Filter(s[1..], p), key)
    ensures Filter(Insert(x, s, key), p) == Insert(x, Filter(s, p), key)
  {
    InsertAfterHead(x, s, key);
    var t := Insert(x, s[1..], key);
    var u := [s[0]] + t;
    FilterCons(u, p);
    assert u[0] == s[0] && u[1..] == t;
    var e: seq<T> := [];
    assert Filter(u, p) == e + Filter(t, p);
    assert e + Filter(t, p) == Filter(t, p);
    FilterCons(s, p);
    assert e + Filter(s[1..], p) == Filter(s[1..], p);
  }

  /** Filtering after inserting into a sorted sequence is inserting into the
      filtered sequence: the sort keeps the relative order of the survivors. */
  lemma {:induction false} FilterInsert<T(!new)>(x: T, s: seq<T>, key: T -> int, p: T -> bool)
    requires SortedBy(s, key)
    ensures Filter(Insert(x, s, key), p) == if p(x) then Insert(x, Filter(s, p), key) else Filter(s, p)
  {
    if s == [] {
      FilterSingleton(x, p);
      assert Insert(x, s, key) == [x];
    } else if key(x) <= key(s[0]) {
      FilterInsertFront(x, s, key, p);
    } else {
      SortedTail(s, key);
      FilterInsert(x, s[1..], key, p);
      if !p(x) {
        FilterInsertLaterDropped(x, s, key, p);
      } else if p(s[0]) {
        FilterInsertLaterBehindKept(x, s, key, p);
      } else {
        FilterInsertLaterBehindDropped(x, s, key, p);
      }
    }
  }

  /** Sorting and filtering commute: a filtered, sorted query is the sorted
      unfiltered query with the non-matching rows removed. */
  lemma {:induction false} FilterSortBy<T(!new)>(s: seq<T>, key: T -> int, p: T -> bool)
    ensures Filter(SortBy(s, key), p) == SortBy(Filter(s, p), key)
  {
    if s != [] {
      var s0, rest := s[0], s[1..];
      assert s == [s0] + rest;
      var t := SortBy(rest, key);
      assert SortBy(s, key) == Insert(s0, t, key);
      FilterSortBy(rest, key, p);
      FilterInsert(s0, t, key, p);
      FilterSingleton(s0, p);
      FilterAppend([s0], rest, p);
      var f := Filter(s, p);
      if p(s0) {
        assert f == [s0] + Filter(rest, p);
        assert f[0] == s0 && f[1..] == Filter(rest, p);
        assert SortBy(f, key) == Insert(s0, SortBy(Filter(rest, p), key), key);
      } else {
        assert f == Filter(rest, p);
      }
    }
  }

  /** Filtering twice is filtering once by the conjunction. */
  lemma {:induction false} FilterFilter<T(!new)>(s: seq<T>, p: T -> bool, q: T -> bool, pq: T -> bool)
    requires forall x :: pq(x) == (p(x) && q(x))
    ensures Filter(Filter(s, p), q) == Filter(s, pq)
  {
    if s != [] {
      FilterFilter(s[1..], p, q, pq);
      FilterAppend(if p(s[0]) then [s[0]] else [], Filter(s[1..], p), q);
    }
  }

  /** Filtering is unchanged by a predicate that agrees on every element. */
  lemma {:induction false} FilterCongruent<T(!new)>(s: seq<T>, p: T -> bool, q: T -> bool)
    requires forall x :: x in s ==> p(x) == q(x)
    ensures Filter(s, p) == Filter(s, q)
  {
    if s != [] {
      FilterCongruent(s[1..], p, q);
    }
  }

  /** Filtering the images is mapping the filtered elements. */
  lemma {:induction false} FilterMap<A(!new), B(!new)>(f: A -> B, s: seq<A>, q: B -> bool, qf: A -> bool)
    requires forall x :: qf(x) == q(f(x))
    ensures Filter(MapSeq(f, s), q) == MapSeq(f, Filter(s, qf))
  {
    if s != [] {
      var ms := MapSeq(f, s);
      FilterMap(f, s[1..], q, qf);
      assert ms[1..] == MapSeq(f, s[1..]);
      assert Filter(ms, q) == (if q(ms[0]) then [ms[0]] else []) + Filter(ms[1..], q);
      var head := if qf(s[0]) then [s[0]] else [];
      assert Filter(s, qf) == head + Filter(s[1..], qf);
      MapSeqAppend(f, head, Filter(s[1..], qf));
      assert MapSeq(f, head) == (if q(ms[0]) then [ms[0]] else []);
    }
  }

  /** Mapping distributes over concatenation. */
  lemma MapSeqAppend<A, B>(f: A -> B, a: seq<A>, b: seq<A>)
    ensures MapSeq(f, a + b) == MapSeq(f, a) + MapSeq(f, b)
  {
    var l, r := MapSeq(f, a + b), MapSeq(f, a) + MapSeq(f, b);
    assert |l| == |r|;
    forall i | 0 <= i < |l| ensures l[i] == r[i] {
      if i < |a| {
        assert (a + b)[i] == a[i];
      } else {
        assert (a + b)[i] == b[i - |a|];
      }
    }
  }

  /** A filtered subsequence of a sorted sequence is sorted. */
  lemma {:induction false} FilterSorted<T(!new)>(s: seq<T>, key: T -> int, p: T -> bool)
    requires SortedBy(s, key)
    ensures SortedBy(Filter(s, p), key)
  {
    if s != [] {
      FilterSorted(s[1..], key, p);
      var f := Filter(s, p);
      if p(s[0]) {
        forall j | 0 < j < |f| ensures key(f[0]) <= key(f[j]) {
          assert f[j] in s[1..];
        }
      }
    }
  }
}
