/** Tallies put in order: by total, largest first (`ORDER BY total DESC`, a
    JavaScript sort on the value), or by key, lexicographically largest first
    (`ORDER BY ym DESC`). Sorting a tally keeps its entries, so the keys stay
    distinct and the grand total is unchanged. */
module Ranked {
  import opened Tally
  import opened Sorting
  import opened Text

  function EntryTotal(e: Entry): real { e.total }

  function EntryKeyCodes(e: Entry): seq<int> { Codes(e.key) }

  /** The tally ordered by total, largest first; ties keep their order. */
  function ByTotal(t: seq<Entry>): seq<Entry> {
    SortDesc(t, EntryTotal)
  }

  /** The tally ordered by key, lexicographically largest first. */
  function ByKeyDesc(t: seq<Entry>): seq<Entry> {
    LexSortDesc(t, EntryKeyCodes)
  }

  lemma {:induction false} InsertTotal(x: Entry, s: seq<Entry>)
    ensures Total(InsertDesc(x, s, EntryTotal)) == x.total + Total(s)
  {
    if s != [] && x.total < s[0].total {
      InsertTotal(x, s[1..]);
      assert InsertDesc(x, s, EntryTotal)[1..] == InsertDesc(x, s[1..], EntryTotal);
    } else {
      assert InsertDesc(x, s, EntryTotal)[1..] == s;
    }
  }

  /** Putting an entry with a fresh key in front keeps the keys distinct. */
  lemma ConsDistinct(y: Entry, rest: seq<Entry>)
    requires DistinctKeys(rest) && forall e :: e in rest ==> e.key != y.key
    ensures DistinctKeys([y] + rest)
  {
    var r := [y] + rest;
    forall i, j | 0 <= i < j < |r| ensures r[i].key != r[j].key {
      assert r[j] == rest[j - 1];
      if i == 0 {
        assert rest[j - 1] in rest;
      } else {
        assert r[i] == rest[i - 1];
      }
    }
  }

  /** An element of x's insertion into s is x or an element of s. */
  lemma InsertedFrom(x: Entry, s: seq<Entry>, rest: seq<Entry>)
    requires s != [] && DistinctKeys(s) && x.key != s[0].key
    requires multiset(rest) == multiset(s[1..]) + multiset{x}
    ensures forall e :: e in rest ==> e.key != s[0].key
  {
    forall e | e in rest ensures e.key != s[0].key {
      assert e in multiset(rest);
      if e != x {
        assert e in multiset(s[1..]);
        var k :| 0 <= k < |s[1..]| && s[1..][k] == e;
        assert s[k + 1] == e;
      }
    }
  }

  lemma {:induction false} InsertDistinct(x: Entry, s: seq<Entry>)
    requires DistinctKeys(s) && forall e :: e in s ==> e.key != x.key
    ensures DistinctKeys(InsertDesc(x, s, EntryTotal))
  {
    if s != [] && x.total < s[0].total {
      var rest := InsertDesc(x, s[1..], EntryTotal);
      TailDistinct(s);
      InsertDistinct(x, s[1..]);
      assert s[0] in s;
      InsertedFrom(x, s, rest);
      ConsDistinct(s[0], rest);
    } else {
      ConsDistinct(x, s);
    }
  }

  lemma {:induction false} LexInsertDistinct(x: Entry, s: seq<Entry>)
    requires DistinctKeys(s) && forall e :: e in s ==> e.key != x.key
    ensures DistinctKeys(LexInsert(x, s, EntryKeyCodes))
  {
    if s != [] && !LexAtLeast(Codes(x.key), Codes(s[0].key)) {
      var rest := LexInsert(x, s[1..], EntryKeyCodes);
      TailDistinct(s);
      LexInsertDistinct(x, s[1..]);
      assert s[0] in s;
      InsertedFrom(x, s, rest);
      ConsDistinct(s[0], rest);
    } else {
      ConsDistinct(x, s);
    }
  }

  /** The head's key does not occur in the rest of a tally with distinct keys. */
  lemma HeadKeyFresh(t: seq<Entry>, rest: seq<Entry>)
    requires t != [] && DistinctKeys(t) && multiset(rest) == multiset(t[1..])
    ensures forall e :: e in rest ==> e.key != t[0].key
  {
    forall e | e in rest ensures e.key != t[0].key {
      assert e in multiset(t[1..]);
      var k :| 0 <= k < |t[1..]| && t[1..][k] == e;
      assert t[k + 1] == e;
    }
  }

  /** The tail of a tally with distinct keys has distinct keys. */
  lemma TailDistinct(t: seq<Entry>)
    requires t != [] && DistinctKeys(t)
    ensures DistinctKeys(t[1..])
  {
    forall i, j | 0 <= i < j < |t[1..]| ensures t[1..][i].key != t[1..][j].key {
      assert t[1..][i] == t[i + 1] && t[1..][j] == t[j + 1];
    }
  }

  /** Ordering by total gives the same entries, largest total first, with the
      keys still distinct and the grand total unchanged. */
  lemma {:induction false} ByTotalSpec(t: seq<Entry>)
    ensures multiset(ByTotal(t)) == multiset(t)
    ensures SortedDesc(ByTotal(t), EntryTotal)
    ensures Total(ByTotal(t)) == Total(t)
    ensures DistinctKeys(t) ==> DistinctKeys(ByTotal(t))
  {
    SortDescSpec(t, EntryTotal);
    if t != [] {
      ByTotalSpec(t[1..]);
      InsertTotal(t[0], ByTotal(t[1..]));
      if DistinctKeys(t) {
        TailDistinct(t);
        HeadKeyFresh(t, ByTotal(t[1..]));
        InsertDistinct(t[0], ByTotal(t[1..]));
      }
    }
  }

  /** Ordering by key gives the same entries, largest key first, with the keys
      still distinct. */
  lemma {:induction false} ByKeyDescSpec(t: seq<Entry>)
    ensures multiset(ByKeyDesc(t)) == multiset(t)
    ensures LexSortedDesc(ByKeyDesc(t), EntryKeyCodes)
    ensures DistinctKeys(t) ==> DistinctKeys(ByKeyDesc(t))
  {
    LexSortDescSpec(t, EntryKeyCodes);
    if t != [] {
      ByKeyDescSpec(t[1..]);
      if DistinctKeys(t) {
        TailDistinct(t);
        HeadKeyFresh(t, ByKeyDesc(t[1..]));
        LexInsertDistinct(t[0], ByKeyDesc(t[1..]));
      }
    }
  }

  /** Keys of a sequence are the keys of its elements. */
  lemma KeysOfElements(t: seq<Entry>, x: string)
    ensures x in Keys(t) <==> exists e :: e in t && e.key == x
  {
    if x in Keys(t) {
      var i :| 0 <= i < |t| && Keys(t)[i] == x;
      assert t[i] in t;
    }
  }

  /** Two sequences with the same elements have the same keys. */
  lemma SameKeys(a: seq<Entry>, b: seq<Entry>)
    requires multiset(a) == multiset(b)
    ensures forall x :: x in Keys(a) <==> x in Keys(b)
  {
    forall x ensures x in Keys(a) <==> x in Keys(b) {
      KeysOfElements(a, x);
      KeysOfElements(b, x);
      if exists e :: e in a && e.key == x {
        var e :| e in a && e.key == x;
        assert e in multiset(b);
      }
      if exists e :: e in b && e.key == x {
        var e :| e in b && e.key == x;
        assert e in multiset(a);
      }
    }
  }
}
