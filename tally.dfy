/** Keyed running totals: the Python dict / JavaScript object filled by
    `d[k] = d.get(k, 0) + v`, and the rows of a SQL `GROUP BY k ... SUM(v)`.
    A tally is a sequence of entries whose keys are distinct, kept in the order in
    which each key was first inserted (the iteration order of a Python dict). */
module Tally {

  datatype Entry = Entry(key: string, total: real)

  function Keys(t: seq<Entry>): (r: seq<string>)
    ensures |r| == |t|
    ensures forall i :: 0 <= i < |t| ==> r[i] == t[i].key
  {
    if t == [] then [] else [t[0].key] + Keys(t[1..])
  }

  predicate DistinctKeys(t: seq<Entry>) {
    forall i, j :: 0 <= i < j < |t| ==> t[i].key != t[j].key
  }

  /** Sum of the totals of the entries with key k (0 when there are none). For a
      tally with distinct keys this is the value stored under k; for a list of
      rows it is what `SUM(...) ... WHERE key = k` gives. */
  function Get(t: seq<Entry>, k: string): real {
    if t == [] then 0.0 else (if t[0].key == k then t[0].total else 0.0) + Get(t[1..], k)
  }

  /** Sum of all totals. */
  function Total(t: seq<Entry>): real {
    if t == [] then 0.0 else t[0].total + Total(t[1..])
  }

  lemma {:induction false} GetAbsent(t: seq<Entry>, k: string)
    requires k !in Keys(t)
    ensures Get(t, k) == 0.0
  {
    if t != [] {
      assert Keys(t)[1..] == Keys(t[1..]);
      GetAbsent(t[1..], k);
    }
  }

  /** In a tally with distinct keys, Get reads the one entry stored under the key. */
  lemma {:induction false} GetDistinct(t: seq<Entry>, i: nat)
    requires DistinctKeys(t) && i < |t|
    ensures Get(t, t[i].key) == t[i].total
  {
    if i == 0 {
      assert t[0].key !in Keys(t[1..]);
      GetAbsent(t[1..], t[0].key);
    } else {
      GetDistinct(t[1..], i - 1);
    }
  }

  /** `d[k] = d.get(k, 0) + v`: the entry for k is updated where it stands, or a
      new entry is appended at the end. */
  function Add(t: seq<Entry>, k: string, v: real): (r: seq<Entry>)
    ensures |r| == if k in Keys(t) then |t| else |t| + 1
  {
    if t == [] then [Entry(k, v)]
    else if t[0].key == k then [Entry(k, t[0].total + v)] + t[1..]
    else
      assert Keys(t) == [t[0].key] + Keys(t[1..]);
      [t[0]] + Add(t[1..], k, v)
  }

  /** Adding v under k raises k's value by v and leaves every other key alone. */
  lemma {:induction false} AddGet(t: seq<Entry>, k: string, v: real)
    ensures forall x :: Get(Add(t, k, v), x) == Get(t, x) + (if x == k then v else 0.0)
    ensures Total(Add(t, k, v)) == Total(t) + v
  {
    var r := Add(t, k, v);
    if t == [] {
    } else if t[0].key == k {
      assert r[1..] == t[1..];
    } else {
      AddGet(t[1..], k, v);
      assert r[1..] == Add(t[1..], k, v);
    }
  }

  /** The keys stay where they are; a new key goes to the end. */
  lemma {:induction false} AddKeys(t: seq<Entry>, k: string, v: real)
    ensures Keys(Add(t, k, v)) == if k in Keys(t) then Keys(t) else Keys(t) + [k]
  {
    var r := Add(t, k, v);
    if t == [] {
      assert Keys(r) == [k];
    } else if t[0].key == k {
      assert r[1..] == t[1..];
      assert Keys(r) == Keys(t);
      assert Keys(t)[0] == k;
    } else {
      AddKeys(t[1..], k, v);
      var rest := Add(t[1..], k, v);
      assert r[1..] == rest;
      assert Keys(t) == [t[0].key] + Keys(t[1..]);
      assert Keys(r) == [t[0].key] + Keys(rest);
      assert (k in Keys(t)) == (k in Keys(t[1..]));
      if k !in Keys(t[1..]) {
        assert Keys(r) == [t[0].key] + (Keys(t[1..]) + [k]);
        assert Keys(r) == Keys(t) + [k];
      }
    }
  }

  /** Adding keeps the keys distinct. */
  lemma AddDistinct(t: seq<Entry>, k: string, v: real)
    requires DistinctKeys(t)
    ensures DistinctKeys(Add(t, k, v))
  {
    AddKeys(t, k, v);
    var r := Add(t, k, v);
    forall i, j | 0 <= i < j < |r| ensures r[i].key != r[j].key {
      assert Keys(r)[i] == r[i].key && Keys(r)[j] == r[j].key;
      assert Keys(r)[i] == t[i].key;
      if j < |t| {
        assert Keys(r)[j] == t[j].key;
      } else {
        assert k !in Keys(t) && Keys(r)[j] == k;
        assert Keys(t)[i] == t[i].key;
      }
    }
  }

  /** Folds the rows into the tally, one Add per row, in row order. */
  function Accumulate(t: seq<Entry>, rows: seq<Entry>): seq<Entry>
    decreases |rows|
  {
    if rows == [] then t else Accumulate(Add(t, rows[0].key, rows[0].total), rows[1..])
  }

  /** `GROUP BY key` with `SUM(total)`: one entry per distinct key. */
  function GroupBy(rows: seq<Entry>): seq<Entry> {
    Accumulate([], rows)
  }

  /** Accumulating adds each key's row sum to its value, keeps the grand total,
      introduces exactly the keys of the rows and keeps the keys distinct. */
  lemma {:induction false} AccumulateSpec(t: seq<Entry>, rows: seq<Entry>)
    ensures forall x :: Get(Accumulate(t, rows), x) == Get(t, x) + Get(rows, x)
    ensures Total(Accumulate(t, rows)) == Total(t) + Total(rows)
    ensures forall x :: x in Keys(Accumulate(t, rows)) <==> x in Keys(t) || x in Keys(rows)
    ensures DistinctKeys(t) ==> DistinctKeys(Accumulate(t, rows))
    decreases |rows|
  {
    if rows != [] {
      var t' := Add(t, rows[0].key, rows[0].total);
      AddGet(t, rows[0].key, rows[0].total);
      AddKeys(t, rows[0].key, rows[0].total);
      if DistinctKeys(t) {
        AddDistinct(t, rows[0].key, rows[0].total);
      }
      AccumulateSpec(t', rows[1..]);
      assert Keys(rows) == [rows[0].key] + Keys(rows[1..]);
    }
  }

  /** The grouped rows have distinct keys, exactly the keys of the rows, and each
      key's entry holds the sum of that key's rows; the grand total is unchanged. */
  lemma GroupBySpec(rows: seq<Entry>)
    ensures DistinctKeys(GroupBy(rows))
    ensures forall x :: x in Keys(GroupBy(rows)) <==> x in Keys(rows)
    ensures forall i :: 0 <= i < |GroupBy(rows)| ==>
              GroupBy(rows)[i].total == Get(rows, GroupBy(rows)[i].key)
    ensures Total(GroupBy(rows)) == Total(rows)
  {
    AccumulateSpec([], rows);
    var g := GroupBy(rows);
    forall i | 0 <= i < |g| ensures g[i].total == Get(rows, g[i].key) {
      GetDistinct(g, i);
    }
  }

  lemma {:induction false} AccumulateSnoc(t: seq<Entry>, rows: seq<Entry>, e: Entry)
    ensures Accumulate(t, rows + [e]) == Add(Accumulate(t, rows), e.key, e.total)
    decreases |rows|
  {
    if rows == [] {
      assert [e][1..] == [];
    } else {
      assert (rows + [e])[1..] == rows[1..] + [e];
      AccumulateSnoc(Add(t, rows[0].key, rows[0].total), rows[1..], e);
    }
  }

  /** Accumulating one more row of a list is one more Add. */
  lemma AccumulatePrefix(t: seq<Entry>, rows: seq<Entry>, i: nat)
    requires i < |rows|
    ensures Accumulate(t, rows[..i + 1]) == Add(Accumulate(t, rows[..i]), rows[i].key, rows[i].total)
  {
    assert rows[..i + 1] == rows[..i] + [rows[i]];
    AccumulateSnoc(t, rows[..i], rows[i]);
  }
}
