/** Sorting by an integer key, as the standard library's stable `sort_by_key` does it. */
module Sorting {
  import opened Prelude

  function InsertByKey<T>(x: T, s: seq<T>, key: T -> int): seq<T> {
    if s == [] || key(x) <= key(s[0]) then [x] + s else [s[0]] + InsertByKey(x, s[1..], key)
  }

  function SortByKey<T>(s: seq<T>, key: T -> int): seq<T> {
    if s == [] then [] else InsertByKey(s[0], SortByKey(s[1..], key), key)
  }

  ghost predicate AscendingBy<T>(s: seq<T>, key: T -> int) {
    forall i, j :: 0 <= i < j < |s| ==> key(s[i]) <= key(s[j])
  }

  lemma {:induction false} InsertPermutes<T>(x: T, s: seq<T>, key: T -> int)
    ensures multiset(InsertByKey(x, s, key)) == multiset{x} + multiset(s)
  {
    if s == [] || key(x) <= key(s[0]) {
    } else {
      InsertPermutes(x, s[1..], key);
      assert s == [s[0]] + s[1..];
    }
  }

  lemma {:induction false} InsertAscending<T>(x: T, s: seq<T>, key: T -> int)
    requires AscendingBy(s, key)
    ensures AscendingBy(InsertByKey(x, s, key), key)
  {
    if s == [] || key(x) <= key(s[0]) {
    } else {
      var rest := InsertByKey(x, s[1..], key);
      InsertAscending(x, s[1..], key);
      InsertPermutes(x, s[1..], key);
      forall j | 0 <= j < |rest| ensures key(s[0]) <= key(rest[j]) {
        assert rest[j] in multiset(rest);
        assert rest[j] == x || rest[j] in s[1..];
      }
    }
  }

  lemma {:induction false} SortSpec<T>(s: seq<T>, key: T -> int)
    ensures AscendingBy(SortByKey(s, key), key)
    ensures multiset(SortByKey(s, key)) == multiset(s)
    ensures |SortByKey(s, key)| == |s|
  {
    if s == [] {
    } else {
      SortSpec(s[1..], key);
      InsertAscending(s[0], SortByKey(s[1..], key), key);
      InsertPermutes(s[0], SortByKey(s[1..], key), key);
      assert s == [s[0]] + s[1..];
    }
    assert |multiset(SortByKey(s, key))| == |multiset(s)|;
  }

  /** Elements with equal keys keep their relative order. */
  lemma {:induction false} SortStable<T(!new)>(s: seq<T>, key: T -> int, v: int)
    ensures Filter(SortByKey(s, key), x => key(x) == v) == Filter(s, x => key(x) == v)
  {
    if s == [] {
    } else {
      SortStable(s[1..], key, v);
      InsertStable(s[0], SortByKey(s[1..], key), key, v);
    }
  }

  lemma {:induction false} InsertStable<T(!new)>(x: T, s: seq<T>, key: T -> int, v: int)
    ensures Filter(InsertByKey(x, s, key), y => key(y) == v) ==
              (if key(x) == v then [x] else []) + Filter(s, y => key(y) == v)
  {
    var p := (y: T) => key(y) == v;
    if s == [] || key(x) <= key(s[0]) {
      assert ([x] + s)[1..] == s;
    } else {
      InsertStable(x, s[1..], key, v);
      assert ([s[0]] + InsertByKey(x, s[1..], key))[1..] == InsertByKey(x, s[1..], key);
    }
  }

  function Keys<T>(s: seq<T>, key: T -> int): (r: seq<int>)
    ensures |r| == |s| && forall i :: 0 <= i < |s| ==> r[i] == key(s[i])
  {
    seq(|s|, i requires 0 <= i < |s| => key(s[i]))
  }

  function WithoutAt<T>(s: seq<T>, k: nat): seq<T>
    requires k < |s|
  {
    s[..k] + s[k + 1..]
  }

  lemma RemoveAt<T>(s: seq<T>, k: nat)
    requires k < |s|
    ensures multiset(s) == multiset{s[k]} + multiset(WithoutAt(s, k))
    ensures multiset(WithoutAt(s, k)) == multiset(s) - multiset{s[k]}
  {
    assert s == s[..k] + ([s[k]] + s[k + 1..]);
  }

  lemma KeysWithoutAt<T>(s: seq<T>, k: nat, key: T -> int)
    requires k < |s|
    ensures Keys(WithoutAt(s, k), key) == WithoutAt(Keys(s, key), k)
  {
  }

  /** Permuting elements permutes their keys. */
  lemma {:induction false} KeysPermuted<T>(a: seq<T>, b: seq<T>, key: T -> int)
    requires multiset(a) == multiset(b)
    ensures multiset(Keys(a, key)) == multiset(Keys(b, key))
  {
    assert |a| == |multiset(a)| == |b|;
    if a == [] {
    } else {
      assert a[0] in multiset(b);
      var k :| 0 <= k < |b| && b[k] == a[0];
      RemoveAt(a, 0);
      RemoveAt(b, k);
      KeysPermuted(WithoutAt(a, 0), WithoutAt(b, k), key);
      KeysWithoutAt(a, 0, key);
      KeysWithoutAt(b, k, key);
      RemoveAt(Keys(a, key), 0);
      RemoveAt(Keys(b, key), k);
    }
  }
}
