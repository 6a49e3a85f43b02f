/** Python's `sorted(xs, key=k)` for an integer-valued key: a stable sort.
    It is modelled as an insertion sort that places each element before
    every later element with an equal key, and proved to be ordered, a
    permutation of its input, and stable. */
module Sorting {

  /** Inserts `x` before the first element of `s` whose key is not smaller. */
  function InsertByKey<T>(x: T, s: seq<T>, key: T -> int): (r: seq<T>)
    ensures |r| == |s| + 1
  {
    if s == [] then [x]
    else if key(x) <= key(s[0]) then [x] + s
    else [s[0]] + InsertByKey(x, s[1..], key)
  }

  function SortByKey<T>(s: seq<T>, key: T -> int): (r: seq<T>)
    ensures |r| == |s|
  {
    if s == [] then [] else InsertByKey(s[0], SortByKey(s[1..], key), key)
  }

  predicate SortedByKey<T>(s: seq<T>, key: T -> int)
  {
    forall i, j :: 0 <= i < j < |s| ==> key(s[i]) <= key(s[j])
  }

  /** The elements of `s` whose key is `k`, in their order in `s`. */
  function WithKey<T>(s: seq<T>, key: T -> int, k: int): seq<T>
  {
    if s == [] then [] else (if key(s[0]) == k then [s[0]] else []) + WithKey(s[1..], key, k)
  }

  lemma {:induction false} InsertByKeyMultiset<T>(x: T, s: seq<T>, key: T -> int)
    ensures multiset(InsertByKey(x, s, key)) == multiset(s) + multiset{x}
  {
    if s != [] && key(x) > key(s[0]) {
      InsertByKeyMultiset(x, s[1..], key);
      assert s == [s[0]] + s[1..];
    }
  }

  lemma SortedCons<T>(y: T, s: seq<T>, key: T -> int)
    requires SortedByKey(s, key)
    requires forall z :: z in s ==> key(y) <= key(z)
    ensures SortedByKey([y] + s, key)
  {
    var r := [y] + s;
    forall i, j | 0 <= i < j < |r| ensures key(r[i]) <= key(r[j]) {
      assert r[j] == s[j - 1];
      if i > 0 {
        assert r[i] == s[i - 1];
      } else {
        assert r[j] in s;
      }
    }
  }

  lemma {:induction false} InsertByKeyFacts<T>(x: T, s: seq<T>, key: T -> int)
    requires SortedByKey(s, key)
    ensures SortedByKey(InsertByKey(x, s, key), key)
    ensures multiset(InsertByKey(x, s, key)) == multiset(s) + multiset{x}
  {
    InsertByKeyMultiset(x, s, key);
    if s == [] {
    } else if key(x) <= key(s[0]) {
      forall z | z in s ensures key(x) <= key(z) {
        var m :| 0 <= m < |s| && s[m] == z;
        assert m == 0 || key(s[0]) <= key(s[m]);
      }
      SortedCons(x, s, key);
    } else {
      var rest := InsertByKey(x, s[1..], key);
      assert SortedByKey(s[1..], key) by {
        forall i, j | 0 <= i < j < |s[1..]| ensures key(s[1..][i]) <= key(s[1..][j]) {
          assert s[1..][i] == s[i + 1] && s[1..][j] == s[j + 1];
        }
      }
      InsertByKeyFacts(x, s[1..], key);
      InsertByKeyMultiset(x, s[1..], key);
      forall y | y in rest ensures key(s[0]) <= key(y) {
        assert y in multiset(rest);
        if y != x {
          assert y in multiset(s[1..]);
          var m :| 0 <= m < |s[1..]| && s[1..][m] == y;
          assert s[m + 1] == y;
        }
      }
      SortedCons(s[0], rest, key);
    }
  }

  lemma WithKeyCons<T>(y: T, t: seq<T>, key: T -> int, k: int)
    ensures WithKey([y] + t, key, k) == (if key(y) == k then [y] else []) + WithKey(t, key, k)
  {
    assert ([y] + t)[0] == y && ([y] + t)[1..] == t;
  }

  lemma {:induction false} InsertByKeyStable<T>(x: T, s: seq<T>, key: T -> int, k: int)
    ensures WithKey(InsertByKey(x, s, key), key, k)
         == (if key(x) == k then [x] else []) + WithKey(s, key, k)
  {
    if s == [] {
      assert InsertByKey(x, s, key) == [x] + s;
      WithKeyCons(x, s, key, k);
    } else if key(x) <= key(s[0]) {
      assert InsertByKey(x, s, key) == [x] + s;
      WithKeyCons(x, s, key, k);
    } else {
      var t := InsertByKey(x, s[1..], key);
      assert InsertByKey(x, s, key) == [s[0]] + t;
      InsertByKeyStable(x, s[1..], key, k);
      WithKeyCons(s[0], t, key, k);
      assert s == [s[0]] + s[1..];
      WithKeyCons(s[0], s[1..], key, k);
      var xs := if key(x) == k then [x] else [];
      var hs := if key(s[0]) == k then [s[0]] else [];
      assert hs == [] || xs == [];
    }
  }

  /** `sorted` returns its input reordered by non-decreasing key. */
  lemma {:induction false} SortByKeySorted<T>(s: seq<T>, key: T -> int)
    ensures SortedByKey(SortByKey(s, key), key)
    ensures multiset(SortByKey(s, key)) == multiset(s)
    ensures |SortByKey(s, key)| == |s|
  {
    if s != [] {
      var t := SortByKey(s[1..], key);
      assert SortByKey(s, key) == InsertByKey(s[0], t, key);
      SortByKeySorted(s[1..], key);
      InsertByKeyFacts(s[0], t, key);
      assert s == [s[0]] + s[1..];
      assert multiset(s) == multiset(s[1..]) + multiset{s[0]};
    }
  }

  /** `sorted` is stable: the elements sharing any one key keep their
      relative order. */
  lemma {:induction false} SortByKeyStable<T>(s: seq<T>, key: T -> int, k: int)
    ensures WithKey(SortByKey(s, key), key, k) == WithKey(s, key, k)
  {
    if s != [] {
      SortByKeyStable(s[1..], key, k);
      InsertByKeyStable(s[0], SortByKey(s[1..], key), key, k);
    }
  }
}
