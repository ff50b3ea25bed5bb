/** Shared value types and the few facts about sequences that several modules need. */
module Prelude {

  datatype Option<+T> = None | Some(value: T)

  datatype Result<+T, +E> = Ok(value: T) | Err(error: E)

  datatype OrderKind = Buy | Sell

  const U64_MAX: nat := 0x1_0000_0000_0000_0000 - 1
  const I64_MAX: nat := 0x8000_0000_0000_0000 - 1

  function UnwrapOr<T>(o: Option<T>, default: T): T {
    match o case Some(value) => value case None => default
  }

  function Pow256(n: nat): (r: nat)
    ensures r > 0
  {
    if n == 0 then 1 else 256 * Pow256(n - 1)
  }

  function AllOnes(n: nat): (r: seq<nat>)
    ensures |r| == n
  {
    seq(n, _ => 0xff)
  }

  const U256_BYTES: seq<nat> := AllOnes(32)

  /** The largest number of 32 bytes. It stays symbolic: no proof about products needs its decimal value. */
  const U256_MAX: nat := Pow256(|U256_BYTES|) - 1

  function Max(a: nat, b: nat): nat {
    if a < b then b else a
  }

  function Min(a: nat, b: nat): nat {
    if a < b then a else b
  }

  ghost predicate Distinct<T(!new)>(s: seq<T>) {
    forall i, j :: 0 <= i < j < |s| ==> s[i] != s[j]
  }

  /** What `Vec::retain` and `Iterator::filter` keep: the elements that satisfy `p`, in order. */
  function Filter<T(!new)>(s: seq<T>, p: T -> bool): (r: seq<T>)
    ensures |r| <= |s|
    ensures forall x :: x in r <==> x in s && p(x)
  {
    if s == [] then []
    else if p(s[0]) then [s[0]] + Filter(s[1..], p)
    else Filter(s[1..], p)
  }

  function Flatten<T>(ss: seq<seq<T>>): seq<T> {
    if ss == [] then [] else ss[0] + Flatten(ss[1..])
  }

  lemma {:induction false} FlattenSnoc<T>(ss: seq<seq<T>>, s: seq<T>)
    ensures Flatten(ss + [s]) == Flatten(ss) + s
  {
    if ss == [] {
      assert ss + [s] == [s];
      assert [s][1..] == [];
      assert Flatten([s]) == s + Flatten([]);
    } else {
      assert (ss + [s])[1..] == ss[1..] + [s];
      FlattenSnoc(ss[1..], s);
    }
  }

  lemma Regroup<T>(a: seq<T>, b: seq<T>, c: seq<T>)
    ensures (a + b) + c == a + (b + c)
    ensures a + [] == a
  {
  }

  lemma FrontAndLast<T>(s: seq<T>)
    requires s != []
    ensures s == s[..|s| - 1] + [s[|s| - 1]]
  {
  }

  lemma TakeOneMore<T>(s: seq<T>, n: nat)
    requires 0 < n <= |s|
    ensures s[..n] == s[..n - 1] + [s[n - 1]]
  {
  }

  ghost function Elements<T(!new)>(s: seq<T>): (r: set<T>)
    ensures forall x :: x in r <==> x in s
  {
    set x | x in s
  }

  lemma {:induction false} ElementsSize<T(!new)>(s: seq<T>)
    ensures |Elements(s)| <= |s|
    ensures |Elements(s)| == |s| <==> Distinct(s)
  {
    if s == [] {
      assert Elements(s) == {};
    } else {
      var rest := s[1..];
      ElementsSize(rest);
      assert s == [s[0]] + rest;
      assert Elements(s) == {s[0]} + Elements(rest);
      if s[0] in rest {
        var k :| 0 <= k < |rest| && rest[k] == s[0];
        assert s[0] == s[k + 1];
        assert Elements(s) == Elements(rest);
      } else {
        assert |Elements(s)| == 1 + |Elements(rest)|;
        if Distinct(rest) {
          forall i, j | 0 <= i < j < |s| ensures s[i] != s[j] {
            if i > 0 { assert rest[i - 1] != rest[j - 1]; } else { assert s[j] == rest[j - 1]; }
          }
        } else {
          var i, j :| 0 <= i < j < |rest| && rest[i] == rest[j];
          assert s[i + 1] == s[j + 1];
        }
      }
    }
  }

  lemma {:induction false} DistinctCount<T(!new)>(s: seq<T>, x: T)
    requires Distinct(s)
    ensures multiset(s)[x] == if x in s then 1 else 0
  {
    if s == [] {
    } else {
      var rest := s[1..];
      assert s == [s[0]] + rest;
      assert Distinct(rest) by {
        forall i, j | 0 <= i < j < |rest| ensures rest[i] != rest[j] { assert s[i + 1] != s[j + 1]; }
      }
      DistinctCount(rest, x);
      assert s[0] !in rest by {
        forall k | 0 <= k < |rest| ensures rest[k] != s[0] { assert rest[k] == s[k + 1]; }
      }
    }
  }

  /** Two duplicate-free sequences with the same elements are permutations of each other. */
  lemma DistinctPermutation<T(!new)>(s: seq<T>, t: seq<T>)
    requires Distinct(s) && Distinct(t) && Elements(s) == Elements(t)
    ensures multiset(s) == multiset(t)
  {
    forall x ensures multiset(s)[x] == multiset(t)[x] {
      DistinctCount(s, x);
      DistinctCount(t, x);
      assert x in s <==> x in Elements(s);
    }
  }

  lemma {:induction false} DistinctByPermutation<T(!new)>(s: seq<T>, t: seq<T>)
    requires Distinct(s) && multiset(s) == multiset(t)
    ensures Distinct(t)
  {
    assert |s| == |multiset(s)| == |t|;
    assert Elements(s) == Elements(t) by {
      forall x ensures x in s <==> x in t { assert x in s <==> x in multiset(s); assert x in t <==> x in multiset(t); }
    }
    ElementsSize(s);
    ElementsSize(t);
  }

  // ---- Finite sets and maps ------------------------------------------------------------------

  /** A non-empty finite set has an element with the least key. */
  lemma {:induction false} LeastBy<T>(s: set<T>, key: T -> int) returns (m: T)
    requires s != {}
    ensures m in s && forall x :: x in s ==> key(m) <= key(x)
    decreases |s|
  {
    m :| m in s;
    var rest := s - {m};
    assert s == {m} + rest;
    if rest == {} {
    } else {
      var other := LeastBy(rest, key);
      if key(other) < key(m) { m := other; }
    }
  }

  /** The sum of the weights of all values. */
  ghost function SumOf<K, V>(m: map<K, V>, weight: V -> nat): nat
    decreases |m|
  {
    if m == map[] then 0
    else
      var k :| k in m;
      weight(m[k]) + SumOf(m - {k}, weight)
  }

  /** The sum does not depend on the order of summation. */
  lemma {:induction false} SumRemove<K, V>(m: map<K, V>, weight: V -> nat, x: K)
    requires x in m
    ensures SumOf(m, weight) == weight(m[x]) + SumOf(m - {x}, weight)
    decreases |m|
  {
    var k :| k in m && SumOf(m, weight) == weight(m[k]) + SumOf(m - {k}, weight);
    if k == x {
    } else {
      SumRemove(m - {k}, weight, x);
      SumRemove(m - {x}, weight, k);
      assert m - {k} - {x} == m - {x} - {k};
    }
  }
}
