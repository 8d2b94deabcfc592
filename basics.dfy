/** Small shared vocabulary: optional values, replies that can fail, and
    order-preserving filtering of sequences. */
module Basics {

  datatype Option<T> = None | Some(value: T)

  /** A value, or the HTTP status code and error text an endpoint answers with. */
  datatype Result<T> = Success(value: T) | Failure(code: int, error: string)

  /** The elements of s that satisfy keep, in their order in s (a list
      comprehension with an `if`, a SQL `WHERE`, Array.prototype.filter). */
  function Keep<T(!new)>(s: seq<T>, keep: T -> bool): (r: seq<T>)
    ensures |r| <= |s|
    ensures forall x :: x in r <==> x in s && keep(x)
  {
    if s == [] then []
    else
      assert s == [s[0]] + s[1..];
      (if keep(s[0]) then [s[0]] else []) + Keep(s[1..], keep)
  }

  /** Filtering a single element keeps it exactly when it passes. */
  lemma KeepOne<T(!new)>(x: T, keep: T -> bool)
    ensures Keep([x], keep) == if keep(x) then [x] else []
  {
    assert [x][1..] == [];
  }

  /** Filtering distributes over concatenation, so what is kept from an
      earlier part comes before what is kept from a later one. */
  lemma {:induction false} KeepAppend<T(!new)>(a: seq<T>, b: seq<T>, keep: T -> bool)
    ensures Keep(a + b, keep) == Keep(a, keep) + Keep(b, keep)
  {
    if a == [] {
      assert a + b == b;
    } else {
      assert (a + b)[0] == a[0];
      assert (a + b)[1..] == a[1..] + b;
      KeepAppend(a[1..], b, keep);
    }
  }

  /** The positions in s of the elements that pass keep, in increasing order. */
  function KeepIndices<T>(s: seq<T>, keep: T -> bool): (r: seq<nat>)
    ensures forall k :: 0 <= k < |r| ==> r[k] < |s|
    decreases |s|
  {
    if s == [] then []
    else KeepIndices(s[..|s| - 1], keep) + (if keep(s[|s| - 1]) then [|s| - 1] else [])
  }

  /** Keep's result lists the elements of s at KeepIndices, one for one. */
  lemma {:induction false} KeepIndicesAt<T(!new)>(s: seq<T>, keep: T -> bool)
    ensures |KeepIndices(s, keep)| == |Keep(s, keep)|
    ensures forall k :: 0 <= k < |KeepIndices(s, keep)| ==> s[KeepIndices(s, keep)[k]] == Keep(s, keep)[k]
    decreases |s|
  {
    if s != [] {
      var n := |s| - 1;
      var init := s[..n];
      var rest := KeepIndices(init, keep);
      KeepIndicesAt(init, keep);
      assert s == init + [s[n]];
      KeepAppend(init, [s[n]], keep);
      KeepOne(s[n], keep);
      var r := KeepIndices(s, keep);
      forall k | 0 <= k < |r| ensures s[r[k]] == Keep(s, keep)[k] {
        if k < |rest| {
          assert r[k] == rest[k];
          assert s[rest[k]] == init[rest[k]];
        }
      }
    }
  }

  /** The positions KeepIndices lists increase. */
  lemma {:induction false} KeepIndicesIncreasing<T>(s: seq<T>, keep: T -> bool)
    ensures forall k, l :: 0 <= k < l < |KeepIndices(s, keep)| ==> KeepIndices(s, keep)[k] < KeepIndices(s, keep)[l]
    decreases |s|
  {
    if s != [] {
      KeepIndicesIncreasing(s[..|s| - 1], keep);
    }
  }

  /** KeepIndices lists exactly the positions of the elements that pass. */
  lemma {:induction false} KeepIndicesCover<T>(s: seq<T>, keep: T -> bool)
    ensures forall i :: 0 <= i < |s| ==> (i in KeepIndices(s, keep) <==> keep(s[i]))
    decreases |s|
  {
    if s != [] {
      var n := |s| - 1;
      var init := s[..n];
      var rest := KeepIndices(init, keep);
      KeepIndicesCover(init, keep);
      var r := KeepIndices(s, keep);
      assert r == rest + (if keep(s[n]) then [n] else []);
      forall i | 0 <= i < |s| ensures (i in r <==> keep(s[i])) {
        if i < n {
          assert s[i] == init[i];
          assert i in r <==> i in rest;
        }
      }
    }
  }

  /** No two elements of s share a key. */
  ghost predicate DistinctBy<T, K>(s: seq<T>, key: T -> K) {
    forall i, j :: 0 <= i < j < |s| ==> key(s[i]) != key(s[j])
  }

  /** Filtering keeps keys distinct. */
  lemma {:induction false} KeepDistinct<T(!new), K>(s: seq<T>, keep: T -> bool, key: T -> K)
    requires DistinctBy(s, key)
    ensures DistinctBy(Keep(s, keep), key)
  {
    if s != [] {
      var rest := Keep(s[1..], keep);
      KeepDistinct(s[1..], keep, key);
      var r := Keep(s, keep);
      if keep(s[0]) {
        assert r == [s[0]] + rest;
        forall i, j | 0 <= i < j < |r| ensures key(r[i]) != key(r[j]) {
          if i == 0 {
            assert r[j] == rest[j - 1];
            assert r[j] in s[1..];
            var k :| 0 <= k < |s[1..]| && s[1..][k] == r[j];
            assert s[k + 1] == r[j];
          } else {
            assert r[i] == rest[i - 1] && r[j] == rest[j - 1];
          }
        }
      } else {
        assert r == rest;
      }
    }
  }

  /** Appending an element whose key is new keeps keys distinct. */
  lemma AppendDistinct<T, K>(s: seq<T>, x: T, key: T -> K)
    requires DistinctBy(s, key)
    requires forall i :: 0 <= i < |s| ==> key(s[i]) != key(x)
    ensures DistinctBy(s + [x], key)
  {
  }

  /** Concatenating two key-distinct sequences with no key in common. */
  lemma ConcatDistinct<T, K>(a: seq<T>, b: seq<T>, key: T -> K)
    requires DistinctBy(a, key) && DistinctBy(b, key)
    requires forall i, j :: 0 <= i < |a| && 0 <= j < |b| ==> key(a[i]) != key(b[j])
    ensures DistinctBy(a + b, key)
  {
    var c := a + b;
    forall i, j | 0 <= i < j < |c| ensures key(c[i]) != key(c[j]) {
      if j < |a| {
      } else if i < |a| {
        assert c[j] == b[j - |a|];
      } else {
        assert c[i] == b[i - |a|] && c[j] == b[j - |a|];
      }
    }
  }

  /** The elements of s in reverse order (Python `reversed`). */
  function Reverse<T>(s: seq<T>): (r: seq<T>)
    ensures |r| == |s|
    ensures forall i :: 0 <= i < |s| ==> r[i] == s[|s| - 1 - i]
  {
    if s == [] then [] else Reverse(s[1..]) + [s[0]]
  }

  /** When some element satisfies p, there is a first one. */
  lemma FirstSatisfying<T>(s: seq<T>, p: T -> bool, n: nat) returns (k: nat)
    requires n < |s| && p(s[n])
    ensures k <= n && p(s[k])
    ensures forall j :: 0 <= j < k ==> !p(s[j])
  {
    k := 0;
    while !p(s[k])
      invariant k <= n
      invariant forall j :: 0 <= j < k ==> !p(s[j])
      decreases n - k
    {
      k := k + 1;
    }
  }
}
