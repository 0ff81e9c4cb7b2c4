/**
  Sequence operations the front end performs with `Array.prototype.filter`,
  `Array.prototype.sort` (stable since ECMAScript 2019), `Math.min` and
  `Math.max`, stated once and proved once.
 */
module Seqs {

  /** The elements of `s` that satisfy `p`, in their original order. */
  function Filter<T(!new)>(s: seq<T>, p: T -> bool): (r: seq<T>)
    ensures |r| <= |s|
    ensures forall x :: x in r <==> x in s && p(x)
  {
    if s == [] then []
    else
      var rest := Filter(s[1..], p);
      assert forall x :: x in s <==> x == s[0] || x in s[1..] by {
        assert s == [s[0]] + s[1..];
      }
      if p(s[0]) then [s[0]] + rest else rest
  }

  /** Filtering keeps every satisfying element as often as it occurs, and nothing else. */
  lemma {:induction false} FilterMultiset<T(!new)>(s: seq<T>, p: T -> bool)
    ensures forall x :: multiset(Filter(s, p))[x] == if p(x) then multiset(s)[x] else 0
    decreases |s|
  {
    if s != [] {
      FilterMultiset(s[1..], p);
      assert s == [s[0]] + s[1..];
    }
  }

  /** `a` is `b` with some elements removed and the rest kept in order. */
  ghost predicate IsSubsequence<T>(a: seq<T>, b: seq<T>)
    decreases |b|
  {
    a == [] || (b != [] && ((a[0] == b[0] && IsSubsequence(a[1..], b[1..])) || IsSubsequence(a, b[1..])))
  }

  lemma {:induction false} FilterIsSubsequence<T(!new)>(s: seq<T>, p: T -> bool)
    ensures IsSubsequence(Filter(s, p), s)
    decreases |s|
  {
    if s != [] {
      FilterIsSubsequence(s[1..], p);
      var r := Filter(s, p);
      if p(s[0]) {
        assert r[0] == s[0] && r[1..] == Filter(s[1..], p);
      }
    }
  }

  /** Filtering with a predicate every element already satisfies changes nothing. */
  lemma {:induction false} FilterKeepsAll<T(!new)>(s: seq<T>, p: T -> bool)
    requires forall x :: x in s ==> p(x)
    ensures Filter(s, p) == s
    decreases |s|
  {
    if s != [] {
      assert s[0] in s;
      assert forall x :: x in s[1..] ==> x in s;
      FilterKeepsAll(s[1..], p);
    }
  }

  /** Filtering distributes over appending one element. */
  lemma {:induction false} FilterSnoc<T(!new)>(s: seq<T>, x: T, p: T -> bool)
    ensures Filter(s + [x], p) == Filter(s, p) + (if p(x) then [x] else [])
    decreases |s|
  {
    if s == [] {
      assert [] + [x] == [x];
    } else {
      var sx := s + [x];
      assert sx[0] == s[0] && sx[1..] == s[1..] + [x];
      FilterSnoc(s[1..], x, p);
      var tail := if p(x) then [x] else [];
      if p(s[0]) {
        calc {
          Filter(sx, p);
          [s[0]] + Filter(s[1..] + [x], p);
          [s[0]] + (Filter(s[1..], p) + tail);
          ([s[0]] + Filter(s[1..], p)) + tail;
        }
      }
    }
  }

  /** `s` is ordered by `key`: keys never decrease from left to right. */
  ghost predicate SortedBy<T>(s: seq<T>, key: T -> int) {
    forall i, j :: 0 <= i < j < |s| ==> key(s[i]) <= key(s[j])
  }

  /** Removing elements keeps a sorted sequence sorted. */
  lemma {:induction false} FilterKeepsSorted<T(!new)>(s: seq<T>, p: T -> bool, key: T -> int)
    requires SortedBy(s, key)
    ensures SortedBy(Filter(s, p), key)
    decreases |s|
  {
    if s != [] {
      var t := s[1..];
      assert SortedBy(t, key) by {
        forall i, j | 0 <= i < j < |t|
          ensures key(t[i]) <= key(t[j])
        {
          assert t[i] == s[i + 1] && t[j] == s[j + 1];
        }
      }
      FilterKeepsSorted(t, p, key);
      var ft := Filter(t, p);
      if p(s[0]) {
        var r := [s[0]] + ft;
        forall i, j | 0 <= i < j < |r|
          ensures key(r[i]) <= key(r[j])
        {
          if i == 0 {
            assert r[j] in ft;
            assert r[j] in t;
            var m :| 0 <= m < |t| && t[m] == r[j];
            assert s[m + 1] == r[j];
          } else {
            assert r[i] == ft[i - 1] && r[j] == ft[j - 1];
          }
        }
      }
    }
  }

  /** The elements of `s` whose key is `k`, in their order in `s`: the elements a stable sort keeps in place relative to each other. */
  function TieClass<T>(s: seq<T>, key: T -> int, k: int): seq<T> {
    if s == [] then []
    else (if key(s[0]) == k then [s[0]] else []) + TieClass(s[1..], key, k)
  }

  lemma TieClassCons<T(!new)>(x: T, s: seq<T>, key: T -> int, k: int)
    ensures TieClass([x] + s, key, k) == (if key(x) == k then [x] else []) + TieClass(s, key, k)
  {
    assert ([x] + s)[0] == x && ([x] + s)[1..] == s;
  }

  /** A tie class of a key no element carries is empty. */
  lemma {:induction false} TieClassOfAbsentKey<T(!new)>(s: seq<T>, key: T -> int, k: int)
    requires forall i :: 0 <= i < |s| ==> key(s[i]) != k
    ensures TieClass(s, key, k) == []
    decreases |s|
  {
    if s != [] {
      TieClassOfAbsentKey(s[1..], key, k);
    }
  }

  lemma FilterCons<T(!new)>(x: T, s: seq<T>, p: T -> bool)
    ensures Filter([x] + s, p) == (if p(x) then [x] else []) + Filter(s, p)
  {
    assert ([x] + s)[0] == x && ([x] + s)[1..] == s;
  }

  /** Taking a tie class and filtering commute. */
  lemma {:induction false} TieClassOfFilter<T(!new)>(s: seq<T>, p: T -> bool, key: T -> int, k: int)
    ensures TieClass(Filter(s, p), key, k) == Filter(TieClass(s, key, k), p)
    decreases |s|
  {
    if s != [] {
      var x, t := s[0], s[1..];
      assert s == [x] + t;
      TieClassOfFilter(t, p, key, k);
      FilterCons(x, t, p);
      TieClassCons(x, t, key, k);
      var ft, tt := Filter(t, p), TieClass(t, key, k);
      if p(x) {
        TieClassCons(x, ft, key, k);
      } else {
        assert Filter(s, p) == ft by {
          assert [] + ft == ft;
        }
      }
      if key(x) == k {
        FilterCons(x, tt, p);
      } else {
        assert TieClass(s, key, k) == tt by {
          assert [] + tt == tt;
        }
      }
      if p(x) && key(x) == k {
        calc {
          TieClass(Filter(s, p), key, k);
          [x] + TieClass(ft, key, k);
          [x] + Filter(tt, p);
          Filter(TieClass(s, key, k), p);
        }
      } else if p(x) {
        assert [] + TieClass(ft, key, k) == TieClass(ft, key, k);
      } else if key(x) == k {
        assert [] + Filter(tt, p) == Filter(tt, p);
      }
    }
  }

  /**
    Inserts `x` before the first element whose key is not smaller than its
    own, so `x` stays ahead of the elements that tie with it.
   */
  function Insert<T(!new)>(x: T, s: seq<T>, key: T -> int): (r: seq<T>)
    ensures |r| == |s| + 1
    ensures multiset(r) == multiset([x]) + multiset(s)
    decreases |s|
  {
    if s == [] || key(x) <= key(s[0]) then [x] + s
    else
      assert s == [s[0]] + s[1..];
      [s[0]] + Insert(x, s[1..], key)
  }

  lemma {:induction false} InsertSorted<T(!new)>(x: T, s: seq<T>, key: T -> int)
    requires SortedBy(s, key)
    ensures SortedBy(Insert(x, s, key), key)
    decreases |s|
  {
    if s != [] && key(x) > key(s[0]) {
      var rest := Insert(x, s[1..], key);
      InsertSorted(x, s[1..], key);
      var r := [s[0]] + rest;
      assert multiset(rest) == multiset([x]) + multiset(s[1..]);
      forall j | 0 < j < |r|
        ensures key(r[0]) <= key(r[j])
      {
        assert r[j] == rest[j - 1];
        assert r[j] in multiset(rest);
        if r[j] != x {
          assert r[j] in multiset(s[1..]);
          assert r[j] in s[1..];
        }
      }
    }
  }

  lemma {:induction false} InsertTieClass<T(!new)>(x: T, s: seq<T>, key: T -> int, k: int)
    ensures TieClass(Insert(x, s, key), key, k) == TieClass([x] + s, key, k)
    decreases |s|
  {
    if s != [] && key(x) > key(s[0]) {
      var rest := Insert(x, s[1..], key);
      InsertTieClass(x, s[1..], key, k);
      assert s == [s[0]] + s[1..];
      TieClassCons(s[0], rest, key, k);
      TieClassCons(x, s[1..], key, k);
      TieClassCons(x, s, key, k);
      TieClassCons(s[0], s[1..], key, k);
    }
  }

  /**
    Stable ascending sort on `key`: the order `Array.prototype.sort` produces
    for the comparator `(a, b) => key(a) - key(b)`.
   */
  function SortBy<T(!new)>(s: seq<T>, key: T -> int): (r: seq<T>)
    ensures |r| == |s|
    ensures multiset(r) == multiset(s)
    ensures SortedBy(r, key)
    ensures forall k :: TieClass(r, key, k) == TieClass(s, key, k)
    decreases |s|
  {
    if s == [] then []
    else
      var rest := SortBy(s[1..], key);
      assert s == [s[0]] + s[1..];
      InsertSorted(s[0], rest, key);
      assert forall k :: TieClass(Insert(s[0], rest, key), key, k) == TieClass(s, key, k) by {
        forall k
          ensures TieClass(Insert(s[0], rest, key), key, k) == TieClass(s, key, k)
        {
          InsertTieClass(s[0], rest, key, k);
          TieClassCons(s[0], rest, key, k);
          TieClassCons(s[0], s[1..], key, k);
        }
      }
      Insert(s[0], rest, key)
  }

  /** The first element of a non-empty sequence opens its own tie class. */
  lemma TieClassOfHead<T>(s: seq<T>, key: T -> int)
    ensures s != [] ==> TieClass(s, key, key(s[0])) == [s[0]] + TieClass(s[1..], key, key(s[0]))
  {
  }

  /**
    A sorted sequence is determined by its tie classes: two sequences sorted
    on the same key whose elements of each key come in the same order are equal.
   */
  lemma {:induction false} SortedByTieClassesUnique<T(!new)>(a: seq<T>, b: seq<T>, key: T -> int)
    requires SortedBy(a, key) && SortedBy(b, key)
    requires forall k :: TieClass(a, key, k) == TieClass(b, key, k)
    ensures a == b
    decreases |a| + |b|
  {
    if a == [] || b == [] {
      TieClassOfHead(a, key);
      TieClassOfHead(b, key);
      if a != [] || b != [] {
        assert false;
      }
    } else {
      var ka, kb := key(a[0]), key(b[0]);
      if ka < kb {
        TieClassOfAbsentKey(b, key, ka);
        assert false;
      } else if kb < ka {
        TieClassOfAbsentKey(a, key, kb);
        assert false;
      } else {
        assert TieClass(a, key, ka)[0] == a[0];
        assert TieClass(b, key, ka)[0] == b[0];
        assert a[0] == b[0];
        forall k
          ensures TieClass(a[1..], key, k) == TieClass(b[1..], key, k)
        {
          var head := if key(a[0]) == k then [a[0]] else [];
          assert TieClass(a, key, k) == head + TieClass(a[1..], key, k);
          assert TieClass(b, key, k) == head + TieClass(b[1..], key, k);
          assert (head + TieClass(a[1..], key, k))[|head|..] == TieClass(a[1..], key, k);
          assert (head + TieClass(b[1..], key, k))[|head|..] == TieClass(b[1..], key, k);
        }
        SortedByTieClassesUnique(a[1..], b[1..], key);
        assert a == [a[0]] + a[1..] && b == [b[0]] + b[1..];
      }
    }
  }

  /** Sorting a sequence that is already sorted leaves it as it is. */
  lemma SortBySortedIsIdentity<T(!new)>(s: seq<T>, key: T -> int)
    requires SortedBy(s, key)
    ensures SortBy(s, key) == s
  {
    SortedByTieClassesUnique(SortBy(s, key), s, key);
  }

  lemma SortByIdempotent<T(!new)>(s: seq<T>, key: T -> int)
    ensures SortBy(SortBy(s, key), key) == SortBy(s, key)
  {
    SortBySortedIsIdentity(SortBy(s, key), key);
  }

  /** `Math.min(...s)`. */
  function Min(s: seq<int>): (m: int)
    requires |s| > 0
    ensures m in s
    ensures forall x :: x in s ==> m <= x
  {
    if |s| == 1 then s[0]
    else
      var rest := Min(s[1..]);
      assert s == [s[0]] + s[1..];
      if s[0] <= rest then s[0] else rest
  }

  /** `Math.max(...s)`. */
  function Max(s: seq<int>): (m: int)
    requires |s| > 0
    ensures m in s
    ensures forall x :: x in s ==> x <= m
  {
    if |s| == 1 then s[0]
    else
      var rest := Max(s[1..]);
      assert s == [s[0]] + s[1..];
      if s[0] >= rest then s[0] else rest
  }
}
