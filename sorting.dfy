/**
 * Python's built-in `sorted(xs, key=k)` and `list.sort(key=k)` on integer
 * keys. Python's sort is stable; with `reverse=True` it is still stable, which
 * is the same as a stable sort on the negated key.
 */
module Sorting {
  import SeqUtil

  predicate SortedBy<T>(s: seq<T>, key: T -> int)
  {
    forall i, j :: 0 <= i < j < |s| ==> key(s[i]) <= key(s[j])
  }

  /** The elements of s whose key is k, in order. */
  function WithKey<T>(s: seq<T>, key: T -> int, k: int): seq<T>
  {
    SeqUtil.Filter(s, x => key(x) == k)
  }

  /** Inserts x before the first element whose key is at least key(x). */
  function Insert<T>(x: T, s: seq<T>, key: T -> int): (r: seq<T>)
    ensures multiset(r) == multiset(s) + multiset{x}
    ensures |r| == |s| + 1
  {
    if s == [] then [x]
    else if key(x) <= key(s[0]) then [x] + s
    else
      assert s == [s[0]] + s[1..];
      [s[0]] + Insert(x, s[1..], key)
  }

  /** sorted(s, key=key) */
  function SortBy<T>(s: seq<T>, key: T -> int): (r: seq<T>)
    ensures multiset(r) == multiset(s)
    ensures |r| == |s|
  {
    if s == [] then []
    else
      assert s == [s[0]] + s[1..];
      Insert(s[0], SortBy(s[1..], key), key)
  }

  /** The negated key: a stable sort on it is a stable sort in descending order. */
  function Neg<T>(key: T -> int): T -> int
  {
    x => -key(x)
  }

  /** sorted(s, key=key, reverse=True) */
  function SortByDesc<T>(s: seq<T>, key: T -> int): (r: seq<T>)
    ensures multiset(r) == multiset(s)
    ensures |r| == |s|
  {
    SortBy(s, Neg(key))
  }

  /** The first element of Insert(x, s) is x or the first element of s. */
  lemma InsertFirst<T>(x: T, s: seq<T>, key: T -> int)
    ensures Insert(x, s, key)[0] == x || (s != [] && Insert(x, s, key)[0] == s[0])
  {
  }

  lemma SortedCons<T>(y: T, t: seq<T>, key: T -> int)
    requires SortedBy(t, key) && (t != [] ==> key(y) <= key(t[0]))
    ensures SortedBy([y] + t, key)
  {
    forall i, j | 0 <= i < j < |[y] + t| ensures key(([y] + t)[i]) <= key(([y] + t)[j]) {
      if i > 0 {
        assert ([y] + t)[i] == t[i - 1];
      } else {
        assert key(t[0]) <= key(t[j - 1]);
      }
      assert ([y] + t)[j] == t[j - 1];
    }
  }

  lemma {:induction false} InsertSorted<T>(x: T, s: seq<T>, key: T -> int)
    requires SortedBy(s, key)
    ensures SortedBy(Insert(x, s, key), key)
  {
    if s == [] {
      SortedCons(x, [], key);
      assert [x] + [] == [x];
    } else if key(x) <= key(s[0]) {
      SortedCons(x, s, key);
    } else {
      InsertSorted(x, s[1..], key);
      var t := Insert(x, s[1..], key);
      InsertFirst(x, s[1..], key);
      assert |s| > 1 ==> key(s[0]) <= key(s[1]);
      assert s[1..] != [] ==> s[1..][0] == s[1];
      SortedCons(s[0], t, key);
    }
  }

  /** The result of sorted() is ordered by key. */
  lemma {:induction false} SortBySorted<T>(s: seq<T>, key: T -> int)
    ensures SortedBy(SortBy(s, key), key)
  {
    if s != [] {
      SortBySorted(s[1..], key);
      InsertSorted(s[0], SortBy(s[1..], key), key);
    }
  }

  lemma WithKeyCons<T>(y: T, rest: seq<T>, key: T -> int, k: int)
    ensures WithKey([y] + rest, key, k) == (if key(y) == k then [y] else []) + WithKey(rest, key, k)
  {
    assert ([y] + rest)[1..] == rest;
  }

  /** Elements with equal keys keep their relative order (stability). */
  lemma {:induction false} InsertStable<T>(x: T, s: seq<T>, key: T -> int, k: int)
    ensures WithKey(Insert(x, s, key), key, k) == (if key(x) == k then [x] else []) + WithKey(s, key, k)
  {
    if s == [] {
      WithKeyCons(x, [], key, k);
      assert [x] + [] == [x];
    } else if key(x) <= key(s[0]) {
      WithKeyCons(x, s, key, k);
    } else {
      InsertStable(x, s[1..], key, k);
      StableStep(x, s, Insert(x, s[1..], key), key, k);
    }
  }

  lemma StableStep<T>(x: T, s: seq<T>, t: seq<T>, key: T -> int, k: int)
    requires s != [] && key(x) > key(s[0])
    requires WithKey(t, key, k) == (if key(x) == k then [x] else []) + WithKey(s[1..], key, k)
    ensures WithKey([s[0]] + t, key, k) == (if key(x) == k then [x] else []) + WithKey(s, key, k)
  {
    WithKeyCons(s[0], t, key, k);
    WithKeyCons(s[0], s[1..], key, k);
    assert [s[0]] + s[1..] == s;
  }

  lemma {:induction false} SortByStable<T>(s: seq<T>, key: T -> int, k: int)
    ensures WithKey(SortBy(s, key), key, k) == WithKey(s, key, k)
  {
    if s != [] {
      SortByStable(s[1..], key, k);
      InsertStable(s[0], SortBy(s[1..], key), key, k);
    }
  }

  /** Sorting a sequence that is already ordered by key changes nothing. */
  lemma {:induction false} SortBySortedIdentity<T>(s: seq<T>, key: T -> int)
    requires SortedBy(s, key)
    ensures SortBy(s, key) == s
  {
    if s != [] {
      SortBySortedIdentity(s[1..], key);
      assert SortBy(s[1..], key) == s[1..];
      if |s| > 1 {
        assert key(s[0]) <= key(s[1]);
      }
      assert [s[0]] + s[1..] == s;
    }
  }

  /** Inserting x adds x's share to any count. */
  lemma {:induction false} InsertCount<T>(x: T, s: seq<T>, key: T -> int, p: T -> bool)
    ensures SeqUtil.CountWhere(Insert(x, s, key), p) == SeqUtil.CountWhere([x], p) + SeqUtil.CountWhere(s, p)
  {
    if s == [] {
    } else if key(x) <= key(s[0]) {
      SeqUtil.FilterAppend([x], s, p);
    } else {
      InsertCount(x, s[1..], key, p);
      var t := Insert(x, s[1..], key);
      SeqUtil.FilterAppend([s[0]], t, p);
      SeqUtil.FilterAppend([s[0]], s[1..], p);
      SeqUtil.FilterAppend([x], s[1..], p);
      assert [s[0]] + s[1..] == s;
    }
  }

  /** Sorting keeps the number of elements that satisfy any predicate. */
  lemma {:induction false} SortByCount<T>(s: seq<T>, key: T -> int, p: T -> bool)
    ensures SeqUtil.CountWhere(SortBy(s, key), p) == SeqUtil.CountWhere(s, p)
  {
    if s != [] {
      SortByCount(s[1..], key, p);
      InsertCount(s[0], SortBy(s[1..], key), key, p);
      SeqUtil.FilterAppend([s[0]], s[1..], p);
      assert [s[0]] + s[1..] == s;
    }
  }

  /** The result of sorted(reverse=True) is ordered by descending key. */
  lemma SortByDescOrdered<T>(s: seq<T>, key: T -> int)
    ensures var r := SortByDesc(s, key);
      forall i, j :: 0 <= i < j < |r| ==> key(r[i]) >= key(r[j])
  {
    SortBySorted(s, Neg(key));
  }

  /** sorted(reverse=True) keeps the number of elements that satisfy any predicate. */
  lemma SortByDescCount<T>(s: seq<T>, key: T -> int, p: T -> bool)
    ensures SeqUtil.CountWhere(SortByDesc(s, key), p) == SeqUtil.CountWhere(s, p)
  {
    SortByCount(s, Neg(key), p);
  }

  /** No two elements share a key. */
  predicate DistinctKeys<T>(s: seq<T>, key: T -> int)
  {
    forall i, j :: 0 <= i < j < |s| ==> key(s[i]) != key(s[j])
  }

  lemma {:induction false} NoneWithKey<T>(s: seq<T>, key: T -> int, k: int)
    requires forall i :: 0 <= i < |s| ==> key(s[i]) != k
    ensures WithKey(s, key, k) == []
  {
    if s != [] {
      NoneWithKey(s[1..], key, k);
      WithKeyCons(s[0], s[1..], key, k);
      assert [s[0]] + s[1..] == s;
    }
  }

  lemma {:induction false} AtMostOneWithKey<T>(s: seq<T>, key: T -> int, k: int)
    requires DistinctKeys(s, key)
    ensures |WithKey(s, key, k)| <= 1
  {
    if s != [] {
      WithKeyCons(s[0], s[1..], key, k);
      assert [s[0]] + s[1..] == s;
      if key(s[0]) == k {
        NoneWithKey(s[1..], key, k);
      } else {
        AtMostOneWithKey(s[1..], key, k);
      }
    }
  }

  lemma {:induction false} SomeWithKey<T>(s: seq<T>, key: T -> int, j: nat)
    requires j < |s|
    ensures |WithKey(s, key, key(s[j]))| >= 1
  {
    WithKeyCons(s[0], s[1..], key, key(s[j]));
    assert [s[0]] + s[1..] == s;
    if j > 0 {
      SomeWithKey(s[1..], key, j - 1);
    }
  }

  lemma {:induction false} TwoWithKey<T>(s: seq<T>, key: T -> int, i: nat, j: nat)
    requires i < j < |s| && key(s[i]) == key(s[j])
    ensures |WithKey(s, key, key(s[i]))| >= 2
  {
    WithKeyCons(s[0], s[1..], key, key(s[i]));
    assert [s[0]] + s[1..] == s;
    if i > 0 {
      TwoWithKey(s[1..], key, i - 1, j - 1);
    } else {
      SomeWithKey(s[1..], key, j - 1);
    }
  }

  /** Sorting elements with distinct keys orders them strictly. */
  lemma SortByStrict<T>(s: seq<T>, key: T -> int)
    requires DistinctKeys(s, key)
    ensures var r := SortBy(s, key);
      forall i, j :: 0 <= i < j < |r| ==> key(r[i]) < key(r[j])
  {
    var r := SortBy(s, key);
    SortBySorted(s, key);
    forall i, j | 0 <= i < j < |r|
      ensures key(r[i]) < key(r[j])
    {
      if key(r[i]) == key(r[j]) {
        TwoWithKey(r, key, i, j);
        SortByStable(s, key, key(r[i]));
        AtMostOneWithKey(s, key, key(r[i]));
        assert false;
      }
    }
  }
}
