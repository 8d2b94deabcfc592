/** Stable descending sorts. Python's list.sort and JavaScript's Array#sort are
    stable; SQL's ORDER BY leaves ties unspecified and is modelled here by the same
    stable sorts, so ties keep the order in which the rows were produced. */
module Sorting {

  // ---------------------------------------------------------------------------
  // By a numeric key
  // ---------------------------------------------------------------------------

  predicate SortedDesc<T>(s: seq<T>, key: T -> real) {
    forall i, j :: 0 <= i < j < |s| ==> key(s[i]) >= key(s[j])
  }

  /** The elements of s whose key is v, in their order in s. */
  function WithKey<T>(s: seq<T>, key: T -> real, v: real): seq<T> {
    if s == [] then [] else (if key(s[0]) == v then [s[0]] else []) + WithKey(s[1..], key, v)
  }

  /** Inserts x before the first element whose key is not larger than x's. */
  function InsertDesc<T>(x: T, s: seq<T>, key: T -> real): (r: seq<T>)
    ensures multiset(r) == multiset(s) + multiset{x}
    ensures |r| == |s| + 1
  {
    if s == [] || key(x) >= key(s[0]) then [x] + s
    else
      assert s == [s[0]] + s[1..];
      [s[0]] + InsertDesc(x, s[1..], key)
  }

  function SortDesc<T>(s: seq<T>, key: T -> real): (r: seq<T>)
    ensures multiset(r) == multiset(s)
    ensures |r| == |s|
  {
    if s == [] then []
    else
      assert s == [s[0]] + s[1..];
      InsertDesc(s[0], SortDesc(s[1..], key), key)
  }

  lemma {:induction false} InsertDescSorted<T>(x: T, s: seq<T>, key: T -> real)
    requires SortedDesc(s, key)
    ensures SortedDesc(InsertDesc(x, s, key), key)
    ensures InsertDesc(x, s, key)[0] == x || InsertDesc(x, s, key)[0] == s[0]
  {
    if s != [] && key(x) < key(s[0]) {
      var rest := InsertDesc(x, s[1..], key);
      InsertDescSorted(x, s[1..], key);
      var r := [s[0]] + rest;
      forall i, j | 0 <= i < j < |r| ensures key(r[i]) >= key(r[j]) {
        if i == 0 {
          assert r[j] in multiset(rest);
          assert r[j] in multiset(s[1..]) || r[j] == x;
          if r[j] != x {
            var k :| 0 <= k < |s[1..]| && s[1..][k] == r[j];
            assert s[k + 1] == r[j];
          }
        }
      }
    }
  }

  lemma WithKeyCons<T>(a: T, t: seq<T>, key: T -> real, v: real)
    ensures WithKey([a] + t, key, v) == (if key(a) == v then [a] else []) + WithKey(t, key, v)
  {
    assert ([a] + t)[1..] == t;
  }

  /** Inserting x puts it before every element with the same key. */
  lemma {:induction false} InsertDescWithKey<T>(x: T, s: seq<T>, key: T -> real, v: real)
    requires SortedDesc(s, key)
    ensures WithKey(InsertDesc(x, s, key), key, v) ==
              (if key(x) == v then [x] else []) + WithKey(s, key, v)
  {
    if s == [] || key(x) >= key(s[0]) {
      WithKeyCons(x, s, key, v);
    } else {
      InsertDescWithKey(x, s[1..], key, v);
      InsertPastHead(x, s, key, v);
    }
  }

  lemma SwapEmpty<T>(a: seq<T>, b: seq<T>, c: seq<T>)
    requires a == [] || b == []
    ensures a + (b + c) == b + (a + c)
  {
    if a == [] {
      assert a + (b + c) == b + c;
      assert a + c == c;
    } else {
      assert b + c == c;
      assert b + (a + c) == a + c;
    }
  }

  /** The step of InsertDescWithKey where x goes past the head of s. */
  lemma InsertPastHead<T>(x: T, s: seq<T>, key: T -> real, v: real)
    requires s != [] && key(x) < key(s[0])
    requires WithKey(InsertDesc(x, s[1..], key), key, v) ==
               (if key(x) == v then [x] else []) + WithKey(s[1..], key, v)
    ensures WithKey(InsertDesc(x, s, key), key, v) ==
              (if key(x) == v then [x] else []) + WithKey(s, key, v)
  {
    var rest := InsertDesc(x, s[1..], key);
    var pick := if key(x) == v then [x] else [];
    var head := if key(s[0]) == v then [s[0]] else [];
    var w := WithKey(s[1..], key, v);
    calc {
      WithKey(InsertDesc(x, s, key), key, v);
    == { assert InsertDesc(x, s, key) == [s[0]] + rest; }
      WithKey([s[0]] + rest, key, v);
    == { WithKeyCons(s[0], rest, key, v); }
      head + WithKey(rest, key, v);
    ==
      head + (pick + w);
    == { if key(x) == v { assert head == []; } else { assert pick == []; }
         SwapEmpty(head, pick, w); }
      pick + (head + w);
    == { WithKeyCons(s[0], s[1..], key, v); assert s == [s[0]] + s[1..]; }
      pick + WithKey(s, key, v);
    }
  }

  /** SortDesc orders by key, largest first, and is stable: for every key value
      the elements with that key keep their original relative order. */
  lemma {:induction false} SortDescSpec<T>(s: seq<T>, key: T -> real)
    ensures SortedDesc(SortDesc(s, key), key)
    ensures forall v :: WithKey(SortDesc(s, key), key, v) == WithKey(s, key, v)
  {
    if s != [] {
      SortDescSpec(s[1..], key);
      InsertDescSorted(s[0], SortDesc(s[1..], key), key);
      forall v ensures WithKey(SortDesc(s, key), key, v) == WithKey(s, key, v) {
        InsertDescWithKey(s[0], SortDesc(s[1..], key), key, v);
      }
    }
  }

  // ---------------------------------------------------------------------------
  // By a lexicographic key (strings compared character by character)
  // ---------------------------------------------------------------------------

  /** Strict lexicographic order on sequences of codes; a proper prefix is smaller. */
  predicate LexLess(a: seq<int>, b: seq<int>) {
    if a == [] then b != []
    else if b == [] then false
    else a[0] < b[0] || (a[0] == b[0] && LexLess(a[1..], b[1..]))
  }

  lemma {:induction false} LexIrreflexive(a: seq<int>)
    ensures !LexLess(a, a)
  {
    if a != [] { LexIrreflexive(a[1..]); }
  }

  lemma {:induction false} LexTotal(a: seq<int>, b: seq<int>)
    ensures a == b || LexLess(a, b) || LexLess(b, a)
  {
    if a != [] && b != [] && a[0] == b[0] {
      LexTotal(a[1..], b[1..]);
      if a[1..] == b[1..] {
        assert a == [a[0]] + a[1..] && b == [b[0]] + b[1..];
      }
    }
  }

  lemma {:induction false} LexTransitive(a: seq<int>, b: seq<int>, c: seq<int>)
    requires LexLess(a, b) && LexLess(b, c)
    ensures LexLess(a, c)
  {
    if a != [] && a[0] == b[0] && b[0] == c[0] {
      LexTransitive(a[1..], b[1..], c[1..]);
    }
  }

  lemma {:induction false} LexAsymmetric(a: seq<int>, b: seq<int>)
    requires LexLess(a, b)
    ensures !LexLess(b, a)
  {
    if a != [] && a[0] == b[0] {
      LexAsymmetric(a[1..], b[1..]);
    }
  }

  /** Ranks at least as high: b is not lexicographically above a. */
  predicate LexAtLeast(a: seq<int>, b: seq<int>) { !LexLess(a, b) }

  lemma LexAtLeastTransitive(a: seq<int>, b: seq<int>, c: seq<int>)
    requires LexAtLeast(a, b) && LexAtLeast(b, c)
    ensures LexAtLeast(a, c)
  {
    if LexLess(a, c) {
      LexTotal(a, b);
      if LexLess(b, a) {
        LexTransitive(b, a, c);
      }
    }
  }

  predicate LexSortedDesc<T>(s: seq<T>, key: T -> seq<int>) {
    forall i, j :: 0 <= i < j < |s| ==> LexAtLeast(key(s[i]), key(s[j]))
  }

  function LexInsert<T>(x: T, s: seq<T>, key: T -> seq<int>): (r: seq<T>)
    ensures multiset(r) == multiset(s) + multiset{x}
    ensures |r| == |s| + 1
  {
    if s == [] || LexAtLeast(key(x), key(s[0])) then [x] + s
    else
      assert s == [s[0]] + s[1..];
      [s[0]] + LexInsert(x, s[1..], key)
  }

  function LexSortDesc<T>(s: seq<T>, key: T -> seq<int>): (r: seq<T>)
    ensures multiset(r) == multiset(s)
    ensures |r| == |s|
  {
    if s == [] then []
    else
      assert s == [s[0]] + s[1..];
      LexInsert(s[0], LexSortDesc(s[1..], key), key)
  }

  lemma {:induction false} LexInsertSorted<T>(x: T, s: seq<T>, key: T -> seq<int>)
    requires LexSortedDesc(s, key)
    ensures LexSortedDesc(LexInsert(x, s, key), key)
  {
    if s != [] && LexAtLeast(key(x), key(s[0])) {
      forall j | 0 <= j < |s| ensures LexAtLeast(key(x), key(s[j])) {
        if j > 0 {
          LexAtLeastTransitive(key(x), key(s[0]), key(s[j]));
        }
      }
    } else if s != [] {
      var rest := LexInsert(x, s[1..], key);
      LexInsertSorted(x, s[1..], key);
      var r := [s[0]] + rest;
      forall i, j | 0 <= i < j < |r| ensures LexAtLeast(key(r[i]), key(r[j])) {
        if i == 0 {
          assert r[j] in multiset(rest);
          if r[j] == x {
            LexAsymmetric(key(x), key(s[0]));
          } else {
            assert r[j] in multiset(s[1..]);
            var k :| 0 <= k < |s[1..]| && s[1..][k] == r[j];
            assert s[k + 1] == r[j];
          }
        }
      }
    }
  }

  /** LexSortDesc orders by key, lexicographically largest first. */
  lemma {:induction false} LexSortDescSpec<T>(s: seq<T>, key: T -> seq<int>)
    ensures LexSortedDesc(LexSortDesc(s, key), key)
  {
    if s != [] {
      LexSortDescSpec(s[1..], key);
      LexInsertSorted(s[0], LexSortDesc(s[1..], key), key);
    }
  }

  /** A prefix of a sequence sorted by key: what it leaves out is a sub-multiset
      whose keys are no larger than every key it keeps. */
  lemma LexPrefixSpec<T>(s: seq<T>, n: nat, key: T -> seq<int>)
    requires LexSortedDesc(s, key) && n <= |s|
    ensures multiset(s[..n]) <= multiset(s)
    ensures forall x, y :: x in multiset(s) - multiset(s[..n]) && y in s[..n] ==>
              LexAtLeast(key(y), key(x))
  {
    var p, q := s[..n], s[n..];
    assert s == p + q;
    assert multiset(s) == multiset(p) + multiset(q);
    forall x, y | x in multiset(s) - multiset(p) && y in p ensures LexAtLeast(key(y), key(x)) {
      assert x in multiset(q);
      var k :| 0 <= k < |q| && q[k] == x;
      var i :| 0 <= i < |p| && p[i] == y;
      assert s[i] == y && s[n + k] == x;
    }
  }
}
