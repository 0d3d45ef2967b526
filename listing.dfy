/**
 * The array pipelines the store builds its answers from: `filter`, `find`,
 * a stable `sort` on a numeric key (newest first) and `slice(0, n)`.
 */
module Listing {
  import opened Wrappers

  /**
   * `s.filter(p)`: the elements satisfying `p`, in their original order (see
   * FilterOfConcat), each as often as it occurs in `s`.
   */
  function Filter<T(!new)>(s: seq<T>, p: T -> bool): (r: seq<T>)
    ensures |r| <= |s|
    ensures forall x :: x in r <==> x in s && p(x)
    ensures multiset(r) <= multiset(s)
    ensures forall x {:trigger multiset(r)[x]} :: multiset(r)[x] == if p(x) then multiset(s)[x] else 0
  {
    if s == [] then []
    else
      assert s == [s[0]] + s[1..];
      (if p(s[0]) then [s[0]] else []) + Filter(s[1..], p)
  }

  /** Filtering distributes over concatenation, so it keeps the order of `s`. */
  lemma {:induction false} FilterOfConcat<T(!new)>(a: seq<T>, b: seq<T>, p: T -> bool)
    ensures Filter(a + b, p) == Filter(a, p) + Filter(b, p)
  {
    if a == [] {
      assert a + b == b;
    } else {
      var head := if p(a[0]) then [a[0]] else [];
      assert (a + b)[0] == a[0];
      assert (a + b)[1..] == a[1..] + b;
      FilterOfConcat(a[1..], b, p);
      calc {
        Filter(a + b, p);
        head + Filter(a[1..] + b, p);
        head + (Filter(a[1..], p) + Filter(b, p));
        (head + Filter(a[1..], p)) + Filter(b, p);
        Filter(a, p) + Filter(b, p);
      }
    }
  }

  lemma FilterOfOne<T(!new)>(x: T, p: T -> bool)
    ensures Filter([x], p) == if p(x) then [x] else []
  {
    assert [x][1..] == [];
  }

  /** No two elements of `s` agree on `f` (for records, `f` is the id). */
  ghost predicate DistinctBy<T, K>(s: seq<T>, f: T -> K)
  {
    forall i, j :: 0 <= i < j < |s| ==> f(s[i]) != f(s[j])
  }

  /** Taking some of the elements of a sequence without duplicates creates none. */
  lemma SubMultisetKeepsDistinct<T, K>(r: seq<T>, s: seq<T>, f: T -> K)
    requires multiset(r) <= multiset(s) && DistinctBy(s, f)
    ensures DistinctBy(r, f)
  {
    forall i, j | 0 <= i < j < |r|
      ensures f(r[i]) != f(r[j])
    {
      CountAtMostOne(s, f, r[i]);
      TwiceCounted(r, i, j);
      assert r[i] != r[j];
      assert r[i] in multiset(s) && r[j] in multiset(s);
      var a :| 0 <= a < |s| && s[a] == r[i];
      var b :| 0 <= b < |s| && s[b] == r[j];
      assert a != b;
    }
  }

  lemma {:induction false} CountAtMostOne<T, K>(s: seq<T>, f: T -> K, x: T)
    requires DistinctBy(s, f)
    ensures multiset(s)[x] <= 1
  {
    if s != [] {
      assert s == [s[0]] + s[1..];
      assert DistinctBy(s[1..], f) by {
        forall i, j | 0 <= i < j < |s[1..]|
          ensures f(s[1..][i]) != f(s[1..][j])
        {
          assert s[1..][i] == s[i + 1] && s[1..][j] == s[j + 1];
        }
      }
      CountAtMostOne(s[1..], f, x);
      if s[0] == x {
        assert x !in s[1..] by {
          forall j | 0 <= j < |s[1..]|
            ensures s[1..][j] != x
          {
            assert s[1..][j] == s[j + 1];
          }
        }
      }
    }
  }

  lemma TwiceCounted<T>(r: seq<T>, i: nat, j: nat)
    requires i < j < |r|
    ensures r[i] == r[j] ==> multiset(r)[r[i]] >= 2
  {
    assert r == r[..j] + r[j..];
    assert r[..j][i] == r[i] && r[j..][0] == r[j];
    assert r[i] in multiset(r[..j]) && r[j] in multiset(r[j..]);
  }

  /** The position of the first element satisfying `p`. */
  function FirstIndex<T>(s: seq<T>, p: T -> bool): (r: Option<nat>)
    ensures r.Some? ==> r.value < |s| && p(s[r.value])
    ensures r.Some? ==> forall j :: 0 <= j < r.value ==> !p(s[j])
    ensures r.None? ==> forall j :: 0 <= j < |s| ==> !p(s[j])
  {
    if s == [] then None
    else if p(s[0]) then Some(0)
    else
      match FirstIndex(s[1..], p)
      case None => None
      case Some(i) => Some(i + 1)
  }

  /** `s.find(p)`: the first element satisfying `p`, if any. */
  function Find<T>(s: seq<T>, p: T -> bool): (r: Option<T>)
    ensures r.None? <==> forall j :: 0 <= j < |s| ==> !p(s[j])
    ensures r.Some? ==> exists i :: 0 <= i < |s| && s[i] == r.value && p(s[i]) && forall j :: 0 <= j < i ==> !p(s[j])
  {
    match FirstIndex(s, p)
    case None => None
    case Some(i) => Some(s[i])
  }

  /** Every element's key is at least that of every later element. */
  predicate NewestFirstOrder<T>(s: seq<T>, key: T -> int)
  {
    forall i, j :: 0 <= i < j < |s| ==> key(s[i]) >= key(s[j])
  }

  /** Puts `x` in front of the first element whose key is not larger than its own. */
  function InsertByKey<T(!new)>(x: T, s: seq<T>, key: T -> int): (r: seq<T>)
    requires NewestFirstOrder(s, key)
    ensures NewestFirstOrder(r, key)
    ensures |r| == |s| + 1
    ensures multiset(r) == multiset(s) + multiset{x}
  {
    if s == [] || key(s[0]) <= key(x) then
      PrependKeepsOrder(x, s, key);
      [x] + s
    else
      assert s == [s[0]] + s[1..];
      var t := InsertByKey(x, s[1..], key);
      HeadOutranksInsertion(x, s, key, t);
      PrependKeepsOrder(s[0], t, key);
      assert multiset([s[0]] + t) == multiset{s[0]} + multiset(t);
      [s[0]] + t
  }

  /** Inserting below the head of a sorted sequence leaves only keys the head outranks. */
  lemma HeadOutranksInsertion<T>(x: T, s: seq<T>, key: T -> int, t: seq<T>)
    requires NewestFirstOrder(s, key) && s != [] && key(s[0]) > key(x)
    requires multiset(t) == multiset(s[1..]) + multiset{x}
    ensures forall j :: 0 <= j < |t| ==> key(s[0]) >= key(t[j])
  {
    forall j | 0 <= j < |t|
      ensures key(s[0]) >= key(t[j])
    {
      assert t[j] in multiset(s[1..]) + multiset{x};
      if t[j] != x {
        assert t[j] in s[1..];
        var k :| 0 <= k < |s[1..]| && s[1..][k] == t[j];
        assert s[k + 1] == t[j];
      }
    }
  }

  /** An element whose key is at least every key of a sorted sequence may go in front of it. */
  lemma PrependKeepsOrder<T>(y: T, t: seq<T>, key: T -> int)
    requires NewestFirstOrder(t, key)
    requires forall j :: 0 <= j < |t| ==> key(y) >= key(t[j])
    ensures NewestFirstOrder([y] + t, key)
  {
    var r := [y] + t;
    forall i, j | 0 <= i < j < |r|
      ensures key(r[i]) >= key(r[j])
    {
      assert r[j] == t[j - 1];
      if i > 0 {
        assert r[i] == t[i - 1];
      }
    }
  }

  /**
   * `s.sort((a, b) => key(b) - key(a))`: insertion sort, newest first. Like
   * `Array.prototype.sort` it is stable (see SortKeepsTies).
   */
  function SortNewestFirst<T(!new)>(s: seq<T>, key: T -> int): (r: seq<T>)
    ensures NewestFirstOrder(r, key)
    ensures |r| == |s|
    ensures multiset(r) == multiset(s)
  {
    if s == [] then []
    else
      assert s == [s[0]] + s[1..];
      InsertByKey(s[0], SortNewestFirst(s[1..], key), key)
  }

  /** `s.slice(0, n)`. */
  function Take<T>(s: seq<T>, n: nat): (r: seq<T>)
    ensures |r| == Min(n, |s|)
    ensures r == s[..|r|]
  {
    if n <= |s| then s[..n] else s
  }

  /**
   * `s.sort(newest first).slice(0, limit)`: the `limit` newest elements of
   * `s`, newest first. Whatever is left out is no newer than anything kept,
   * and when fewer than `limit` come back, nothing was left out.
   */
  function NewestFirst<T(!new)>(s: seq<T>, key: T -> int, limit: nat): (r: seq<T>)
    ensures NewestFirstOrder(r, key)
    ensures |r| == Min(limit, |s|)
    ensures multiset(r) <= multiset(s)
    ensures |r| < limit ==> multiset(r) == multiset(s)
    ensures forall x :: x in r ==> x in s
    ensures |r| < limit ==> forall x :: x in s ==> x in r
    ensures forall x, y :: x in s && x !in r && y in r ==> key(y) >= key(x)
  {
    var sorted := SortNewestFirst(s, key);
    var r := Take(sorted, limit);
    var rest := sorted[|r|..];
    assert sorted == r + rest;
    assert multiset(sorted) == multiset(r) + multiset(rest);
    SameElements(s, sorted);
    PrefixOutranksRest(sorted, key, |r|);
    r
  }

  lemma SameElements<T>(a: seq<T>, b: seq<T>)
    requires multiset(a) == multiset(b)
    ensures forall x :: x in a <==> x in b
  {
    forall x
      ensures x in a <==> x in b
    {
      assert x in a <==> x in multiset(a);
      assert x in b <==> x in multiset(b);
    }
  }

  /** In a sorted sequence every element of a prefix is at least as new as every later one. */
  lemma PrefixOutranksRest<T>(s: seq<T>, key: T -> int, n: nat)
    requires NewestFirstOrder(s, key) && n <= |s|
    ensures forall x, y :: x in s[n..] && y in s[..n] ==> key(y) >= key(x)
  {
    forall x, y | x in s[n..] && y in s[..n]
      ensures key(y) >= key(x)
    {
      var i :| 0 <= i < n && s[..n][i] == y;
      var j :| 0 <= j < |s| - n && s[n..][j] == x;
      assert s[i] == y && s[n + j] == x;
    }
  }

  /** The elements of `s` whose key is `k`, in their order in `s` (see TiesAreFilter). */
  function Ties<T>(s: seq<T>, key: T -> int, k: int): seq<T>
  {
    if s == [] then []
    else (if key(s[0]) == k then [s[0]] else []) + Ties(s[1..], key, k)
  }

  function KeyIs<T>(key: T -> int, k: int): T -> bool
  {
    x => key(x) == k
  }

  /** The ties with key `k` are what `filter` keeps when asked for key `k`. */
  lemma {:induction false} TiesAreFilter<T(!new)>(s: seq<T>, key: T -> int, k: int)
    ensures Ties(s, key, k) == Filter(s, KeyIs(key, k))
  {
    if s != [] {
      TiesAreFilter(s[1..], key, k);
    }
  }

  lemma {:induction false} TiesOfConcat<T>(a: seq<T>, b: seq<T>, key: T -> int, k: int)
    ensures Ties(a + b, key, k) == Ties(a, key, k) + Ties(b, key, k)
  {
    if a == [] {
      assert a + b == b;
    } else {
      var head := if key(a[0]) == k then [a[0]] else [];
      assert (a + b)[0] == a[0];
      assert (a + b)[1..] == a[1..] + b;
      TiesOfConcat(a[1..], b, key, k);
      calc {
        Ties(a + b, key, k);
        head + Ties(a[1..] + b, key, k);
        head + (Ties(a[1..], key, k) + Ties(b, key, k));
        (head + Ties(a[1..], key, k)) + Ties(b, key, k);
        Ties(a, key, k) + Ties(b, key, k);
      }
    }
  }

  lemma TiesOfOne<T>(x: T, key: T -> int, k: int)
    ensures Ties([x], key, k) == if key(x) == k then [x] else []
  {
    assert [x][1..] == [];
  }

  lemma {:induction false} InsertByKeyKeepsTies<T(!new)>(x: T, s: seq<T>, key: T -> int, k: int)
    requires NewestFirstOrder(s, key)
    ensures Ties(InsertByKey(x, s, key), key, k) == (if key(x) == k then [x] else []) + Ties(s, key, k)
  {
    TiesOfOne(x, key, k);
    if s == [] || key(s[0]) <= key(x) {
      TiesOfConcat([x], s, key, k);
    } else {
      var t := InsertByKey(x, s[1..], key);
      assert InsertByKey(x, s, key) == [s[0]] + t;
      assert s == [s[0]] + s[1..];
      InsertByKeyKeepsTies(x, s[1..], key, k);
      TiesOfConcat([s[0]], t, key, k);
      TiesOfConcat([s[0]], s[1..], key, k);
      TiesOfOne(s[0], key, k);
    }
  }

  /**
   * The sort is stable: elements with equal keys keep the order they had in
   * `s` (for timestamps, the insertion order of records created in the same
   * instant).
   */
  lemma {:induction false} SortKeepsTies<T(!new)>(s: seq<T>, key: T -> int, k: int)
    ensures Ties(SortNewestFirst(s, key), key, k) == Ties(s, key, k)
  {
    if s != [] {
      SortKeepsTies(s[1..], key, k);
      InsertByKeyKeepsTies(s[0], SortNewestFirst(s[1..], key), key, k);
      TiesOfConcat([s[0]], s[1..], key, k);
      assert s == [s[0]] + s[1..];
    }
  }

  /**
   * An element strictly newer than all others heads every non-empty page.
   */
  lemma NewestHeadsPage<T(!new)>(s: seq<T>, key: T -> int, limit: nat, x: T)
    requires x in s && limit > 0
    requires forall y :: y in s && y != x ==> key(y) < key(x)
    ensures NewestFirst(s, key, limit) != []
    ensures NewestFirst(s, key, limit)[0] == x
  {
    var r := NewestFirst(s, key, limit);
    assert |r| >= 1;
    assert r[0] in multiset(s);
    assert forall i :: 0 <= i < |r| ==> key(r[0]) >= key(r[i]);
    assert key(r[0]) >= key(x);
  }
}
