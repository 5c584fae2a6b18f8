// `Array.prototype.sort` with the comparators the combat AI uses. Every
// comparator there compares a few integer criteria in turn, so it is
// modelled by a lexicographic triple key; the sort is stable, as the
// JavaScript sort is.
module Sorting {

  datatype Key = Key(a: int, b: int, c: int)

  predicate KeyLt(x: Key, y: Key)
  {
    x.a < y.a || (x.a == y.a && (x.b < y.b || (x.b == y.b && x.c < y.c)))
  }

  predicate KeyLe(x: Key, y: Key)
  {
    !KeyLt(y, x)
  }

  lemma KeyLeTransitive(x: Key, y: Key, z: Key)
    requires KeyLe(x, y) && KeyLe(y, z)
    ensures KeyLe(x, z)
  {
  }

  /** Keys are non-decreasing. */
  predicate SortedKeys<T>(s: seq<T>, key: T -> Key)
  {
    forall i, j :: 0 <= i < j < |s| ==> KeyLe(key(s[i]), key(s[j]))
  }

  /** Places `x` in front of the first element whose key is strictly greater. */
  function Insert<T>(x: T, s: seq<T>, key: T -> Key): (r: seq<T>)
    ensures multiset(r) == multiset(s) + multiset{x}
    ensures |r| == |s| + 1
  {
    if |s| == 0 then [x]
    else if KeyLt(key(x), key(s[0])) then [x] + s
    else
      assert s == [s[0]] + s[1..];
      [s[0]] + Insert(x, s[1..], key)
  }

  lemma {:induction false} InsertSorted<T>(x: T, s: seq<T>, key: T -> Key)
    requires SortedKeys(s, key)
    ensures SortedKeys(Insert(x, s, key), key)
    decreases |s|
  {
    if |s| > 0 {
      var r := Insert(x, s, key);
      if KeyLt(key(x), key(s[0])) {
        forall i, j | 0 <= i < j < |r| ensures KeyLe(key(r[i]), key(r[j])) {
          if i == 0 && j > 1 { KeyLeTransitive(key(x), key(s[0]), key(s[j - 1])); }
        }
      } else {
        var rest := Insert(x, s[1..], key);
        InsertSorted(x, s[1..], key);
        assert r == [s[0]] + rest;
        forall j | 0 <= j < |rest| ensures KeyLe(key(s[0]), key(rest[j])) {
          assert rest[j] in multiset(rest);
          assert rest[j] in multiset(s[1..]) || rest[j] == x;
          if rest[j] != x {
            var m :| 0 <= m < |s[1..]| && s[1..][m] == rest[j];
            assert s[m + 1] == rest[j];
          }
        }
      }
    }
  }

  /** A stable sort: each element is inserted after every equal-keyed element already placed. */
  function SortByKey<T>(s: seq<T>, key: T -> Key): (r: seq<T>)
    ensures multiset(r) == multiset(s)
    ensures |r| == |s|
  {
    if |s| == 0 then []
    else
      assert s == s[..|s| - 1] + [s[|s| - 1]];
      Insert(s[|s| - 1], SortByKey(s[..|s| - 1], key), key)
  }

  lemma {:induction false} SortByKeySorted<T>(s: seq<T>, key: T -> Key)
    ensures SortedKeys(SortByKey(s, key), key)
    decreases |s|
  {
    if |s| > 0 {
      SortByKeySorted(s[..|s| - 1], key);
      InsertSorted(s[|s| - 1], SortByKey(s[..|s| - 1], key), key);
    }
  }

  /** The first element of a non-empty sorted result has the least key of the input. */
  lemma {:induction false} SortedHeadIsLeast<T>(s: seq<T>, key: T -> Key)
    requires |s| > 0
    ensures SortByKey(s, key)[0] in s
    ensures forall x :: x in s ==> KeyLe(key(SortByKey(s, key)[0]), key(x))
  {
    var r := SortByKey(s, key);
    SortByKeySorted(s, key);
    assert r[0] in multiset(r);
    forall x | x in s ensures KeyLe(key(r[0]), key(x)) {
      assert x in multiset(s);
      var j :| 0 <= j < |r| && r[j] == x;
      if j > 0 { assert KeyLe(key(r[0]), key(r[j])); }
    }
  }

  /** Index of the first element with the least key. */
  function FirstLeast<T>(s: seq<T>, key: T -> Key): (i: nat)
    requires |s| > 0
    ensures i < |s|
    ensures forall j :: 0 <= j < |s| ==> KeyLe(key(s[i]), key(s[j]))
    ensures forall j :: 0 <= j < i ==> KeyLt(key(s[i]), key(s[j]))
  {
    if |s| == 1 then 0
    else
      var k := FirstLeast(s[..|s| - 1], key);
      if KeyLt(key(s[|s| - 1]), key(s[k])) then |s| - 1 else k
  }

  /** Stability: among equally good candidates the sort picks the earliest. */
  lemma {:induction false} SortedHeadIsFirstLeast<T>(s: seq<T>, key: T -> Key)
    requires |s| > 0
    ensures SortByKey(s, key)[0] == s[FirstLeast(s, key)]
    decreases |s|
  {
    if |s| > 1 {
      var init := s[..|s| - 1];
      SortedHeadIsFirstLeast(init, key);
      var sorted := SortByKey(init, key);
      var k := FirstLeast(init, key);
      assert init[k] == s[k];
      if KeyLt(key(s[|s| - 1]), key(sorted[0])) {
        assert sorted[0] == s[k];
      } else {
        assert Insert(s[|s| - 1], sorted, key)[0] == sorted[0];
      }
    }
  }
}
