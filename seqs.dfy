/**
 * Sequence helpers: filtering, Python's `max(..., key=...)` and a stable
 * insertion sort, the behaviour of Python's `list.sort` / `sorted`.
 */
module Seqs {

  /** `[x for x in s if p(x)]`. */
  function Filter<T>(p: T -> bool, s: seq<T>): (r: seq<T>)
    ensures |r| <= |s|
    ensures forall i :: 0 <= i < |r| ==> p(r[i])
    ensures multiset(r) <= multiset(s)
  {
    if s == [] then []
    else
      var init := s[..|s| - 1];
      assert s == init + [s[|s| - 1]];
      Filter(p, init) + if p(s[|s| - 1]) then [s[|s| - 1]] else []
  }

  /** What a filter keeps comes from `s`, and everything in `s` that passes is kept. */
  lemma {:induction false} FilterMembers<T>(p: T -> bool, s: seq<T>)
    ensures forall i :: 0 <= i < |Filter(p, s)| ==> Filter(p, s)[i] in s
    ensures forall x :: x in s && p(x) ==> x in Filter(p, s)
    decreases |s|
  {
    if s != [] {
      var init, last := s[..|s| - 1], s[|s| - 1];
      FilterMembers(p, init);
      assert s == init + [last];
    }
  }

  lemma {:induction false} FilterAppend<T>(p: T -> bool, s: seq<T>, t: seq<T>)
    ensures Filter(p, s + t) == Filter(p, s) + Filter(p, t)
    decreases |t|
  {
    if t == [] {
      assert s + t == s;
    } else {
      var init, last := t[..|t| - 1], t[|t| - 1];
      var tail := if p(last) then [last] else [];
      assert (s + t)[..|s + t| - 1] == s + init && (s + t)[|s + t| - 1] == last;
      assert Filter(p, s + t) == Filter(p, s + init) + tail;
      FilterAppend(p, s, init);
      assert Filter(p, t) == Filter(p, init) + tail;
    }
  }

  /** Filtering one element further along. */
  lemma FilterNext<T>(p: T -> bool, s: seq<T>, j: nat)
    requires j < |s|
    ensures Filter(p, s[..j + 1]) == Filter(p, s[..j]) + if p(s[j]) then [s[j]] else []
  {
    assert s[..j + 1][..j] == s[..j];
  }

  /** Every element is kept by exactly one of a filter and its negation. */
  lemma {:induction false} FilterPartition<T>(p: T -> bool, q: T -> bool, s: seq<T>)
    requires forall x :: q(x) == !p(x)
    ensures |Filter(p, s)| + |Filter(q, s)| == |s|
    decreases |s|
  {
    if s != [] {
      FilterPartition(p, q, s[..|s| - 1]);
    }
  }

  /** The elements of `s` whose flag in `keep` is set, in order. */
  function Kept<T>(s: seq<T>, keep: seq<bool>): (r: seq<T>)
    requires |keep| == |s|
    ensures |r| <= |s|
  {
    if s == [] then []
    else Kept(s[..|s| - 1], keep[..|s| - 1]) + if keep[|s| - 1] then [s[|s| - 1]] else []
  }

  /** `a` is `b` with some elements deleted. */
  ghost predicate SubsequenceOf<T>(a: seq<T>, b: seq<T>) {
    exists keep: seq<bool> :: |keep| == |b| && a == Kept(b, keep)
  }

  /** A filter keeps the elements its predicate flags. */
  lemma {:induction false} FilterKept<T>(p: T -> bool, s: seq<T>)
    ensures Filter(p, s) == Kept(s, Map(p, s))
    decreases |s|
  {
    if s != [] {
      var n := |s| - 1;
      FilterKept(p, s[..n]);
      assert Map(p, s)[..n] == Map(p, s[..n]);
    }
  }

  /** So what a filter returns is a subsequence of its input. */
  lemma FilterSubsequence<T>(p: T -> bool, s: seq<T>)
    ensures SubsequenceOf(Filter(p, s), s)
  {
    FilterKept(p, s);
  }

  /** SQL `LIMIT n`: the first `n` rows, or all of them for a negative `n`. */
  function SqlLimit<T>(s: seq<T>, n: int): (r: seq<T>)
    ensures r <= s
    ensures n < 0 ==> r == s
    ensures n >= 0 ==> |r| == if n < |s| then n else |s|
  {
    if 0 <= n < |s| then s[..n] else s
  }

  /** The sequence back to front. */
  function Reversed<T>(s: seq<T>): (r: seq<T>)
    ensures |r| == |s|
    ensures forall i :: 0 <= i < |s| ==> r[i] == s[|s| - 1 - i]
    ensures multiset(r) == multiset(s)
  {
    if s == [] then []
    else
      assert s == [s[0]] + s[1..];
      Reversed(s[1..]) + [s[0]]
  }

  function Map<T, U>(f: T -> U, s: seq<T>): (r: seq<U>)
    ensures |r| == |s|
    ensures forall i :: 0 <= i < |s| ==> r[i] == f(s[i])
  {
    seq(|s|, i requires 0 <= i < |s| => f(s[i]))
  }

  /** Python's `max(s, key=key)`: the first element whose key is largest. */
  function MaxBy<T>(s: seq<T>, key: T -> real): (m: T)
    requires |s| > 0
    ensures m in s
    ensures forall x :: x in s ==> key(x) <= key(m)
    ensures exists i :: 0 <= i < |s| && s[i] == m && forall j :: 0 <= j < i ==> key(s[j]) < key(m)
  {
    if |s| == 1 then s[0]
    else
      var m := MaxBy(s[..|s| - 1], key);
      assert forall x :: x in s ==> x in s[..|s| - 1] || x == s[|s| - 1];
      if key(s[|s| - 1]) > key(m) then s[|s| - 1] else m
  }

  /** `le` orders every pair and is transitive. */
  ghost predicate TotalPreorder<T(!new)>(le: (T, T) -> bool) {
    (forall a, b :: le(a, b) || le(b, a))
    && (forall a, b, c :: le(a, b) && le(b, c) ==> le(a, c))
  }

  predicate SortedBy<T>(s: seq<T>, le: (T, T) -> bool) {
    forall i, j :: 0 <= i < j < |s| ==> le(s[i], s[j])
  }

  /** Puts `x` in front of the first element it may precede. */
  function InsertBy<T>(x: T, s: seq<T>, le: (T, T) -> bool): (r: seq<T>)
    ensures |r| == |s| + 1
    ensures multiset(r) == multiset{x} + multiset(s)
  {
    if s == [] || le(x, s[0]) then [x] + s
    else
      assert s == [s[0]] + s[1..];
      [s[0]] + InsertBy(x, s[1..], le)
  }

  /** Stable insertion sort by the ordering `le`. */
  function SortBy<T>(s: seq<T>, le: (T, T) -> bool): (r: seq<T>)
    ensures |r| == |s|
    ensures multiset(r) == multiset(s)
  {
    if s == [] then []
    else
      assert s == [s[0]] + s[1..];
      InsertBy(s[0], SortBy(s[1..], le), le)
  }

  lemma {:induction false} InsertBySorted<T(!new)>(x: T, s: seq<T>, le: (T, T) -> bool)
    requires TotalPreorder(le) && SortedBy(s, le)
    ensures SortedBy(InsertBy(x, s, le), le)
    decreases |s|
  {
    if s != [] && !le(x, s[0]) {
      var t := InsertBy(x, s[1..], le);
      InsertBySorted(x, s[1..], le);
      assert multiset(t) == multiset{x} + multiset(s[1..]);
      forall y | y in t
        ensures le(s[0], y)
      {
        assert y in multiset(t);
        if y != x {
          assert y in multiset(s[1..]);
          var j :| 0 <= j < |s[1..]| && s[1..][j] == y;
          assert s[j + 1] == y;
        }
      }
      var r := [s[0]] + t;
      forall i, j | 0 <= i < j < |r|
        ensures le(r[i], r[j])
      {
        if i == 0 {
          assert r[j] == t[j - 1];
          assert r[j] in t;
        }
      }
    }
  }

  lemma {:induction false} SortBySorted<T(!new)>(s: seq<T>, le: (T, T) -> bool)
    requires TotalPreorder(le)
    ensures SortedBy(SortBy(s, le), le)
    decreases |s|
  {
    if s != [] {
      SortBySorted(s[1..], le);
      InsertBySorted(s[0], SortBy(s[1..], le), le);
    }
  }

  /** The elements of `s` that `le` ranks level with `k`, in their order in `s`. */
  function Level<T>(s: seq<T>, le: (T, T) -> bool, k: T): (r: seq<T>)
    ensures |r| <= |s|
  {
    if s == [] then []
    else (if le(s[0], k) && le(k, s[0]) then [s[0]] else []) + Level(s[1..], le, k)
  }

  lemma {:induction false} InsertByLevel<T(!new)>(x: T, s: seq<T>, le: (T, T) -> bool, k: T)
    requires TotalPreorder(le)
    ensures Level(InsertBy(x, s, le), le, k)
         == (if le(x, k) && le(k, x) then [x] else []) + Level(s, le, k)
    decreases |s|
  {
    var r := InsertBy(x, s, le);
    var lx := if le(x, k) && le(k, x) then [x] else [];
    if s == [] || le(x, s[0]) {
      assert r == [x] + s;
      assert r[0] == x && r[1..] == s;
    } else {
      var t := InsertBy(x, s[1..], le);
      assert r == [s[0]] + t;
      assert r[0] == s[0] && r[1..] == t;
      InsertByLevel(x, s[1..], le, k);
      var l0 := if le(s[0], k) && le(k, s[0]) then [s[0]] else [];
      assert Level(r, le, k) == l0 + Level(t, le, k);
      assert Level(s, le, k) == l0 + Level(s[1..], le, k);
      assert le(s[0], x);
      var y := s[0];
      assert le(x, k) && le(k, y) ==> le(x, y);
      var rest := Level(s[1..], le, k);
      if l0 == [] {
        assert Level(r, le, k) == lx + rest;
        assert Level(s, le, k) == rest;
      } else {
        assert lx == [];
        assert Level(r, le, k) == l0 + rest;
      }
    }
  }

  /** Sorting keeps the relative order of elements ranked level: it is stable. */
  lemma {:induction false} SortByStable<T(!new)>(s: seq<T>, le: (T, T) -> bool, k: T)
    requires TotalPreorder(le)
    ensures Level(SortBy(s, le), le, k) == Level(s, le, k)
    decreases |s|
  {
    if s != [] {
      SortByStable(s[1..], le, k);
      InsertByLevel(s[0], SortBy(s[1..], le), le, k);
    }
  }

  /** The order of `sort(key=key, reverse=True)`. */
  function KeyDesc<T(!new)>(key: T -> real): (le: (T, T) -> bool)
    ensures forall a, b :: le(a, b) == (key(a) >= key(b))
  {
    (a, b) => key(a) >= key(b)
  }

  lemma KeyDescPreorder<T(!new)>(key: T -> real)
    ensures TotalPreorder(KeyDesc(key))
  {
  }

  /** Python's `sorted(s, key=key, reverse=True)`. */
  function SortDesc<T(!new)>(s: seq<T>, key: T -> real): seq<T> {
    SortBy(s, KeyDesc(key))
  }

  /** The descending sort is a permutation ordered by key. */
  lemma SortDescOrdered<T(!new)>(s: seq<T>, key: T -> real)
    ensures var r := SortDesc(s, key);
            multiset(r) == multiset(s)
            && (forall i, j :: 0 <= i < j < |r| ==> key(r[i]) >= key(r[j]))
  {
    KeyDescPreorder(key);
    SortBySorted(s, KeyDesc(key));
  }

  /** The descending sort is stable: elements with equal keys keep their order. */
  lemma SortDescStable<T(!new)>(s: seq<T>, key: T -> real)
    ensures forall k :: Level(SortDesc(s, key), KeyDesc(key), k) == Level(s, KeyDesc(key), k)
  {
    KeyDescPreorder(key);
    forall k
      ensures Level(SortDesc(s, key), KeyDesc(key), k) == Level(s, KeyDesc(key), k)
    {
      SortByStable(s, KeyDesc(key), k);
    }
  }

  /** The head of the descending sort is what `max(s, key=key)` returns. */
  lemma SortDescHead<T(!new)>(s: seq<T>, key: T -> real)
    requires |s| > 0
    ensures SortDesc(s, key)[0] == MaxBy(s, key)
  {
    var r := SortDesc(s, key);
    var m := MaxBy(s, key);
    SortDescOrdered(s, key);
    KeyDescPreorder(key);
    SortByStable(s, KeyDesc(key), m);
    assert r[0] in multiset(s);
    assert m in multiset(r);
    var j :| 0 <= j < |r| && r[j] == m;
    assert key(r[0]) == key(m);
    assert Level(r, KeyDesc(key), m) == Level(r, KeyDesc(key), r[0]) by {
      LevelSameKey(r, key, m, r[0]);
    }
    LevelHeadOfSorted(r, key);
    LevelHeadIsFirstMax(s, key, m);
  }

  lemma {:induction false} LevelSameKey<T(!new)>(s: seq<T>, key: T -> real, a: T, b: T)
    requires key(a) == key(b)
    ensures Level(s, KeyDesc(key), a) == Level(s, KeyDesc(key), b)
    decreases |s|
  {
    if s != [] {
      LevelSameKey(s[1..], key, a, b);
    }
  }

  /** In a descending sequence the level of the head starts with the head. */
  lemma LevelHeadOfSorted<T(!new)>(r: seq<T>, key: T -> real)
    requires |r| > 0
    ensures |Level(r, KeyDesc(key), r[0])| > 0 && Level(r, KeyDesc(key), r[0])[0] == r[0]
  {
  }

  /** The level of the maximum in `s` starts with the element `max` returns. */
  lemma {:induction false} LevelHeadIsFirstMax<T(!new)>(s: seq<T>, key: T -> real, m: T)
    requires |s| > 0 && m == MaxBy(s, key)
    ensures |Level(s, KeyDesc(key), m)| > 0 && Level(s, KeyDesc(key), m)[0] == m
  {
    var i :| 0 <= i < |s| && s[i] == m && forall j :: 0 <= j < i ==> key(s[j]) < key(m);
    LevelFromFirst(s, key, m, i);
  }

  lemma {:induction false} LevelFromFirst<T(!new)>(s: seq<T>, key: T -> real, m: T, i: nat)
    requires i < |s| && s[i] == m && forall j :: 0 <= j < i ==> key(s[j]) < key(m)
    ensures |Level(s, KeyDesc(key), m)| > 0 && Level(s, KeyDesc(key), m)[0] == m
    decreases i
  {
    if i > 0 {
      LevelFromFirst(s[1..], key, m, i - 1);
    }
  }

  /** Each element at most once. */
  predicate Distinct<T(==)>(s: seq<T>) {
    forall i, j :: 0 <= i < j < |s| ==> s[i] != s[j]
  }

  /** A sequence without repeats holds each value at most once. */
  lemma {:induction false} DistinctOnce<T>(s: seq<T>, x: T)
    requires Distinct(s)
    ensures multiset(s)[x] <= 1
    decreases |s|
  {
    if s != [] {
      assert s == [s[0]] + s[1..];
      assert Distinct(s[1..]) by {
        forall i, j | 0 <= i < j < |s[1..]|
          ensures s[1..][i] != s[1..][j]
        {
          assert s[1..][i] == s[i + 1] && s[1..][j] == s[j + 1];
        }
      }
      DistinctOnce(s[1..], x);
      if s[0] == x {
        assert x !in s[1..] by {
          forall j | 0 <= j < |s[1..]|
            ensures s[1..][j] != x
          {
            assert s[1..][j] == s[j + 1];
          }
        }
      }
    }
  }

  /** A value found at two positions is held at least twice. */
  lemma TwoPositions<T>(s: seq<T>, i: nat, j: nat)
    requires i < j < |s| && s[i] == s[j]
    ensures multiset(s)[s[i]] >= 2
  {
    assert s == s[..j] + [s[j]] + s[j + 1..];
    assert s[..j][i] == s[i];
  }

  /** A permutation of a sequence without repeats has none either. */
  lemma DistinctPermutation<T>(s: seq<T>, t: seq<T>)
    requires Distinct(s) && multiset(s) == multiset(t)
    ensures Distinct(t)
  {
    forall i, j | 0 <= i < j < |t|
      ensures t[i] != t[j]
    {
      if t[i] == t[j] {
        TwoPositions(t, i, j);
        DistinctOnce(s, t[i]);
      }
    }
  }

  /** A filter whose predicate holds throughout keeps everything. */
  lemma FilterAll<T>(p: T -> bool, s: seq<T>)
    requires forall i :: 0 <= i < |s| ==> p(s[i])
    ensures Filter(p, s) == s
  {
    FilterAllUpTo(p, s, |s|);
    assert s[..|s|] == s;
  }

  lemma {:induction false} FilterAllUpTo<T>(p: T -> bool, s: seq<T>, j: nat)
    requires j <= |s| && forall i :: 0 <= i < |s| ==> p(s[i])
    ensures Filter(p, s[..j]) == s[..j]
  {
    if j > 0 {
      TakeNext(s, j - 1);
      FilterAllUpTo(p, s, j - 1);
      FilterNext(p, s, j - 1);
    }
  }

  /** Moving one element from the front of the rest to the end of the prefix keeps the whole. */
  lemma AppendPrefix<T>(prefix: seq<T>, x: T, rest: seq<T>)
    ensures prefix + ([x] + rest) == (prefix + [x]) + rest
  {
  }

  /** A non-empty sequence is its front followed by its last element. */
  lemma HeadRest<T>(s: seq<T>)
    requires s != []
    ensures multiset(s) == multiset{s[0]} + multiset(s[1..])
  {
    assert s == [s[0]] + s[1..];
  }

  lemma InitLast<T>(s: seq<T>)
    requires s != []
    ensures s == s[..|s| - 1] + [s[|s| - 1]]
    ensures multiset(s) == multiset(s[..|s| - 1]) + multiset{s[|s| - 1]}
  {
    assert s == s[..|s| - 1] + [s[|s| - 1]];
  }

  lemma TakeNext<T>(s: seq<T>, j: nat)
    requires j < |s|
    ensures s[..j + 1] == s[..j] + [s[j]]
  {
  }
}
