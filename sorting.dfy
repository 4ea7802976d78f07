/** `Array.prototype.sort` with a numeric comparator `(a, b) => key(a) - key(b)`.
    Since ES2019 the sort is required to be stable, so its result is fully determined:
    non-decreasing by key, and the elements sharing a key keep their relative order. */
module Sorting {
  import opened Seqs

  ghost predicate SortedByKey<T>(s: seq<T>, key: T -> int) {
    forall i, j :: 0 <= i < j < |s| ==> key(s[i]) <= key(s[j])
  }

  function KeyIs<T>(key: T -> int, k: int): T -> bool {
    x => key(x) == k
  }

  /** The elements whose key is `k`, in order. */
  function WithKey<T>(s: seq<T>, key: T -> int, k: int): seq<T> {
    Filter(s, KeyIs(key, k))
  }

  /** A selection that only ever picks elements of key `k` picks the same elements from
      those of key `k` as from the whole sequence. */
  lemma WithKeyThenFilter<T>(s: seq<T>, key: T -> int, k: int, p: T -> bool)
    requires forall i :: 0 <= i < |s| && p(s[i]) ==> key(s[i]) == k
    ensures Filter(WithKey(s, key, k), p) == Filter(s, p)
  {
    FilterFilter(s, KeyIs(key, k), p);
  }

  lemma WithKeyCons<T>(x: T, s: seq<T>, key: T -> int, k: int)
    ensures WithKey([x] + s, key, k) == (if key(x) == k then [x] else []) + WithKey(s, key, k)
  {
    assert ([x] + s)[1..] == s;
  }

  /** Insert `x` after every element whose key is at most `key(x)`. */
  function InsertByKey<T>(x: T, s: seq<T>, key: T -> int): (r: seq<T>)
    requires SortedByKey(s, key)
    ensures SortedByKey(r, key)
    ensures multiset(r) == multiset(s) + multiset{x}
  {
    if s == [] then [x]
    else if key(x) < key(s[0]) then
      SortedCons(x, s, key);
      [x] + s
    else
      var rest := InsertByKey(x, s[1..], key);
      assert s == [s[0]] + s[1..];
      HeadBelowRest(s, x, rest, key);
      SortedCons(s[0], rest, key);
      [s[0]] + rest
  }

  lemma SortedCons<T>(h: T, t: seq<T>, key: T -> int)
    requires SortedByKey(t, key)
    requires forall j :: 0 <= j < |t| ==> key(h) <= key(t[j])
    ensures SortedByKey([h] + t, key)
  {
    var r := [h] + t;
    forall i, j | 0 <= i < j < |r| ensures key(r[i]) <= key(r[j]) {
      assert r[j] == t[j - 1];
      if i > 0 { assert r[i] == t[i - 1]; }
    }
  }

  /** The head of a sorted sequence has a key no larger than any element of its tail with
      `x` added, when it is no larger than `x`'s. */
  lemma HeadBelowRest<T>(s: seq<T>, x: T, rest: seq<T>, key: T -> int)
    requires SortedByKey(s, key) && s != [] && key(s[0]) <= key(x)
    requires multiset(rest) == multiset(s[1..]) + multiset{x}
    ensures forall j :: 0 <= j < |rest| ==> key(s[0]) <= key(rest[j])
  {
    forall j | 0 <= j < |rest| ensures key(s[0]) <= key(rest[j]) {
      var y := rest[j];
      assert y in multiset(rest);
      if y != x {
        assert y in multiset(s[1..]);
        var k :| 0 <= k < |s[1..]| && s[1..][k] == y;
        assert s[k + 1] == y;
      }
    }
  }

  /** Inserting `x` appends it to the elements sharing its key, and leaves all others in place. */
  lemma {:induction false} InsertByKeyStable<T>(x: T, s: seq<T>, key: T -> int, k: int)
    requires SortedByKey(s, key)
    ensures WithKey(InsertByKey(x, s, key), key, k) == WithKey(s, key, k) + (if key(x) == k then [x] else [])
  {
    if s == [] {
      WithKeyCons(x, [], key, k);
      assert [x] + [] == [x];
    } else if key(x) < key(s[0]) {
      InsertFrontStable(x, s, key, k);
    } else {
      InsertByKeyStable(x, s[1..], key, k);
      InsertBehindStable(x, s, InsertByKey(x, s[1..], key), key, k);
    }
  }

  lemma InsertBehindStable<T>(x: T, s: seq<T>, rest: seq<T>, key: T -> int, k: int)
    requires s != []
    requires WithKey(rest, key, k) == WithKey(s[1..], key, k) + (if key(x) == k then [x] else [])
    ensures WithKey([s[0]] + rest, key, k) == WithKey(s, key, k) + (if key(x) == k then [x] else [])
  {
    WithKeyCons(s[0], rest, key, k);
    WithKeyCons(s[0], s[1..], key, k);
    assert s == [s[0]] + s[1..];
  }

  lemma InsertFrontStable<T>(x: T, s: seq<T>, key: T -> int, k: int)
    requires SortedByKey(s, key) && s != [] && key(x) < key(s[0])
    ensures WithKey([x] + s, key, k) == WithKey(s, key, k) + (if key(x) == k then [x] else [])
  {
    WithKeyCons(x, s, key, k);
    if key(x) == k {
      assert forall i :: 0 <= i < |s| ==> key(s[i]) != k;
      FilterNone(s, KeyIs(key, k));
    }
  }

  /** The stable sort, as an insertion sort that inserts each element after its equals. */
  function SortByKey<T>(s: seq<T>, key: T -> int): (r: seq<T>)
    ensures SortedByKey(r, key)
    ensures multiset(r) == multiset(s)
    ensures |r| == |s|
    ensures forall k :: WithKey(r, key, k) == WithKey(s, key, k)
  {
    if s == [] then []
    else
      var init := s[..|s| - 1];
      var last := s[|s| - 1];
      assert s == init + [last];
      var r := InsertByKey(last, SortByKey(init, key), key);
      assert forall k :: WithKey(r, key, k) == WithKey(s, key, k) by {
        forall k ensures WithKey(r, key, k) == WithKey(s, key, k) {
          InsertByKeyStable(last, SortByKey(init, key), key, k);
          FilterSnoc(init, last, KeyIs(key, k));
        }
      }
      r
  }

  /** Every element is found among the elements sharing its key. */
  lemma InWithKey<T>(s: seq<T>, key: T -> int, i: int)
    requires 0 <= i < |s|
    ensures s[i] in WithKey(s, key, key(s[i]))
  {
  }

  /** Two stable sorts of the same input start with the same element. */
  lemma SameHead<T>(a: seq<T>, b: seq<T>, key: T -> int)
    requires SortedByKey(a, key) && SortedByKey(b, key)
    requires forall k :: WithKey(a, key, k) == WithKey(b, key, k)
    requires a != [] || b != []
    ensures a != [] && b != [] && a[0] == b[0]
  {
    if b != [] {
      InWithKey(b, key, 0);
      assert b[0] in WithKey(a, key, key(b[0]));
    }
    if a != [] {
      InWithKey(a, key, 0);
      assert a[0] in WithKey(b, key, key(a[0]));
    }
    assert b[0] in a && a[0] in b;
    var m := key(a[0]);
    assert key(b[0]) == m;
    assert a == [a[0]] + a[1..] && b == [b[0]] + b[1..];
    WithKeyCons(a[0], a[1..], key, m);
    WithKeyCons(b[0], b[1..], key, m);
    assert WithKey(a, key, m)[0] == a[0];
  }

  /** Sortedness and stability determine the output: any stable sort yields `SortByKey`. */
  lemma {:induction false} StableSortUnique<T>(a: seq<T>, b: seq<T>, key: T -> int)
    requires SortedByKey(a, key) && SortedByKey(b, key)
    requires forall k :: WithKey(a, key, k) == WithKey(b, key, k)
    ensures a == b
  {
    if a != [] || b != [] {
      SameHead(a, b, key);
      assert a == [a[0]] + a[1..] && b == [b[0]] + b[1..];
      forall k ensures WithKey(a[1..], key, k) == WithKey(b[1..], key, k) {
        WithKeyCons(a[0], a[1..], key, k);
        WithKeyCons(b[0], b[1..], key, k);
        var n := if key(a[0]) == k then 1 else 0;
        assert WithKey(a[1..], key, k) == WithKey(a, key, k)[n..];
        assert WithKey(b[1..], key, k) == WithKey(b, key, k)[n..];
      }
      StableSortUnique(a[1..], b[1..], key);
    }
  }
}
