/** The descending sort the engine performs three times with a comparator of
    the shape `(a, b) => key(b) - key(a)`. ECMAScript has required
    `Array.prototype.sort` to be stable since ES2019, so the sort is specified
    as: the output is non-increasing by key, and for every key value the
    elements carrying that key appear in their input order. */
module StableSort {
  import opened Text

  /** Non-increasing by `key`. */
  ghost predicate SortedDesc<T>(s: seq<T>, key: T -> int)
  {
    forall i, j :: 0 <= i < j < |s| ==> key(s[i]) >= key(s[j])
  }

  /** The elements of `s` whose key is `k`, in their order in `s`. */
  function WithKey<T>(s: seq<T>, key: T -> int, k: int): (r: seq<T>)
    ensures |r| <= |s|
    ensures forall x :: x in r ==> x in s && key(x) == k
    ensures forall x :: x in s && key(x) == k ==> x in r
  {
    if |s| == 0 then []
    else (if key(s[0]) == k then [s[0]] else []) + WithKey(s[1..], key, k)
  }

  /** Stability: each key class keeps its input order. */
  ghost predicate Stable<T>(input: seq<T>, output: seq<T>, key: T -> int)
  {
    forall k :: WithKey(output, key, k) == WithKey(input, key, k)
  }

  /** Places `x` in front of the first element whose key is not greater than
      its own, so `x` precedes the elements of equal key already in `t`. */
  function Insert<T>(x: T, t: seq<T>, key: T -> int): (r: seq<T>)
    ensures |r| == |t| + 1
  {
    if |t| == 0 then [x]
    else if key(t[0]) <= key(x) then [x] + t
    else [t[0]] + Insert(x, t[1..], key)
  }

  lemma {:induction false} InsertSorted<T>(x: T, t: seq<T>, key: T -> int)
    requires SortedDesc(t, key)
    ensures SortedDesc(Insert(x, t, key), key)
    ensures multiset(Insert(x, t, key)) == multiset(t) + multiset{x}
  {
    if |t| > 0 && key(t[0]) > key(x) {
      InsertSorted(x, t[1..], key);
      assert t == [t[0]] + t[1..];
      var r := Insert(x, t, key);
      assert r == [t[0]] + Insert(x, t[1..], key);
      forall j | 0 < j < |r|
        ensures key(r[0]) >= key(r[j])
      {
        assert r[j] in multiset(Insert(x, t[1..], key));
      }
    }
  }

  lemma {:induction false} InsertWithKey<T>(x: T, t: seq<T>, key: T -> int, k: int)
    ensures WithKey(Insert(x, t, key), key, k) == (if key(x) == k then [x] else []) + WithKey(t, key, k)
  {
    if |t| > 0 {
      if key(t[0]) <= key(x) {
        assert ([x] + t)[1..] == t;
      } else {
        var r := Insert(x, t, key);
        InsertWithKey(x, t[1..], key, k);
        assert r[1..] == Insert(x, t[1..], key);
      }
    }
  }

  /** Inserting the head of `s` into a stable ordering of its tail gives a
      stable ordering of `s`. */
  lemma InsertStable<T>(s: seq<T>, t: seq<T>, key: T -> int)
    requires |s| > 0 && Stable(s[1..], t, key)
    ensures Stable(s, Insert(s[0], t, key), key)
  {
    assert s == [s[0]] + s[1..];
    forall k
      ensures WithKey(Insert(s[0], t, key), key, k) == WithKey(s, key, k)
    {
      InsertWithKey(s[0], t, key, k);
    }
  }

  /** Stable descending sort by `key`: a permutation of the input, sorted,
      and stable. */
  function SortDesc<T>(s: seq<T>, key: T -> int): (r: seq<T>)
    ensures |r| == |s|
    ensures multiset(r) == multiset(s)
    ensures SortedDesc(r, key)
    ensures Stable(s, r, key)
  {
    if |s| == 0 then []
    else
      var t := SortDesc(s[1..], key);
      InsertSorted(s[0], t, key);
      InsertStable(s, t, key);
      assert s == [s[0]] + s[1..];
      Insert(s[0], t, key)
  }

  lemma WithKeyFirst<T>(s: seq<T>, key: T -> int)
    requires |s| > 0
    ensures WithKey(s, key, key(s[0])) == [s[0]] + WithKey(s[1..], key, key(s[0]))
    ensures forall k :: k != key(s[0]) ==> WithKey(s, key, k) == WithKey(s[1..], key, k)
  {
  }

  lemma {:induction false} WithKeyNonEmpty<T>(s: seq<T>, key: T -> int, i: int)
    requires 0 <= i < |s|
    ensures |WithKey(s, key, key(s[i]))| > 0
    decreases i
  {
    if i > 0 {
      WithKeyNonEmpty(s[1..], key, i - 1);
    }
  }

  lemma SortedHeadIsMax<T>(s: seq<T>, key: T -> int, x: T)
    requires SortedDesc(s, key) && x in s
    ensures key(s[0]) >= key(x)
  {
    var j :| 0 <= j < |s| && s[j] == x;
  }

  /** Two sorted sequences with the same key classes start with the same key. */
  lemma HeadKeysAgree<T>(a: seq<T>, b: seq<T>, key: T -> int)
    requires SortedDesc(a, key) && SortedDesc(b, key) && |a| > 0
    requires forall k :: WithKey(a, key, k) == WithKey(b, key, k)
    ensures |b| > 0 && key(a[0]) == key(b[0])
  {
    WithKeyNonEmpty(a, key, 0);
    var wa := WithKey(b, key, key(a[0]));
    assert wa[0] in wa;
    SortedHeadIsMax(b, key, wa[0]);
    WithKeyNonEmpty(b, key, 0);
    var wb := WithKey(a, key, key(b[0]));
    assert wb[0] in wb;
    SortedHeadIsMax(a, key, wb[0]);
  }

  /** Dropping equal-keyed heads keeps the key classes equal, and the heads
      themselves coincide. */
  lemma TailsAgree<T>(a: seq<T>, b: seq<T>, key: T -> int)
    requires |a| > 0 && |b| > 0 && key(a[0]) == key(b[0])
    requires forall k :: WithKey(a, key, k) == WithKey(b, key, k)
    ensures a[0] == b[0]
    ensures forall k :: WithKey(a[1..], key, k) == WithKey(b[1..], key, k)
  {
    var k0 := key(a[0]);
    WithKeyFirst(a, key);
    WithKeyFirst(b, key);
    assert WithKey(a, key, k0) == WithKey(b, key, k0);
    assert a[0] == WithKey(a, key, k0)[0];
    forall k
      ensures WithKey(a[1..], key, k) == WithKey(b[1..], key, k)
    {
      if k == k0 {
        assert WithKey(a, key, k)[1..] == WithKey(a[1..], key, k);
        assert WithKey(b, key, k)[1..] == WithKey(b[1..], key, k);
      } else {
        assert WithKey(a, key, k) == WithKey(b, key, k);
      }
    }
  }

  /** The tail of a sorted sequence is sorted. */
  lemma SortedTail<T>(s: seq<T>, key: T -> int)
    requires SortedDesc(s, key) && |s| > 0
    ensures SortedDesc(s[1..], key)
  {
    forall i, j | 0 <= i < j < |s| - 1
      ensures key(s[1..][i]) >= key(s[1..][j])
    {
      assert s[1..][i] == s[i + 1] && s[1..][j] == s[j + 1];
    }
  }

  /** A stable descending sort is unique: any two sequences that are sorted
      and have the same key classes are equal. With `SortDesc` this says that
      every correct stable sort returns what `SortDesc` returns. */
  lemma {:induction false} StableSortUnique<T>(a: seq<T>, b: seq<T>, key: T -> int)
    requires SortedDesc(a, key) && SortedDesc(b, key)
    requires forall k :: WithKey(a, key, k) == WithKey(b, key, k)
    ensures a == b
    decreases |a|
  {
    if |a| == 0 {
      if |b| > 0 {
        HeadKeysAgree(b, a, key);
      }
    } else {
      HeadKeysAgree(a, b, key);
      TailsAgree(a, b, key);
      SortedTail(a, key);
      SortedTail(b, key);
      StableSortUnique(a[1..], b[1..], key);
      assert a == [a[0]] + a[1..] && b == [b[0]] + b[1..];
    }
  }

  /** Sorting an already sorted sequence leaves it unchanged. */
  lemma SortDescSortedIsIdentity<T>(s: seq<T>, key: T -> int)
    requires SortedDesc(s, key)
    ensures SortDesc(s, key) == s
  {
    StableSortUnique(SortDesc(s, key), s, key);
  }

  /** Selecting a key class keeps the relative order (of first occurrences)
      of the elements in that class. */
  lemma {:induction false} WithKeyKeepsOrder<T>(s: seq<T>, key: T -> int, x: T, y: T)
    requires x in s && y in s && key(x) == key(y)
    ensures x in WithKey(s, key, key(x)) && y in WithKey(s, key, key(x))
    ensures IndexOf(s, x) < IndexOf(s, y)
        <==> IndexOf(WithKey(s, key, key(x)), x) < IndexOf(WithKey(s, key, key(x)), y)
    decreases |s|
  {
    var k := key(x);
    var w := WithKey(s, key, k);
    if s[0] == x || s[0] == y {
      assert w[0] == s[0];
    } else {
      WithKeyKeepsOrder(s[1..], key, x, y);
      var w1 := WithKey(s[1..], key, k);
      if key(s[0]) == k {
        assert w == [s[0]] + w1;
        assert w[1..] == w1;
      } else {
        assert w == w1;
      }
    }
  }

  /** In a duplicate-free sequence every element occurs once. */
  lemma {:induction false} NoDupCountsOne<T>(s: seq<T>, x: T)
    requires NoDup(s)
    ensures multiset(s)[x] <= 1
    decreases |s|
  {
    if |s| > 0 {
      assert s == [s[0]] + s[1..];
      NoDupCountsOne(s[1..], x);
      if s[0] == x {
        assert x !in s[1..];
      }
    }
  }

  /** A permutation of a duplicate-free sequence is duplicate-free. */
  lemma PermutationKeepsNoDup<T>(u: seq<T>, r: seq<T>)
    requires NoDup(u) && multiset(r) == multiset(u)
    ensures NoDup(r)
  {
    forall i, j | 0 <= i < j < |r|
      ensures r[i] != r[j]
    {
      NoDupCountsOne(u, r[i]);
      assert r == r[..j] + r[j..];
      assert r[i] in r[..j] && r[j] in r[j..];
      assert multiset(r)[r[j]] == multiset(r[..j])[r[j]] + multiset(r[j..])[r[j]];
    }
  }

  /** A stable sort of a duplicate-free sequence keeps tied elements in their
      input order. */
  lemma StableTiesKeepOrder<T>(u: seq<T>, r: seq<T>, key: T -> int, i: int, j: int)
    requires NoDup(u) && multiset(r) == multiset(u) && Stable(u, r, key)
    requires 0 <= i < j < |r| && key(r[i]) == key(r[j])
    ensures r[i] in u && r[j] in u && IndexOf(u, r[i]) < IndexOf(u, r[j])
  {
    PermutationKeepsNoDup(u, r);
    assert r[i] in multiset(u) && r[j] in multiset(u);
    assert IndexOf(r, r[i]) == i && IndexOf(r, r[j]) == j;
    WithKeyKeepsOrder(r, key, r[i], r[j]);
    WithKeyKeepsOrder(u, key, r[i], r[j]);
  }
}
