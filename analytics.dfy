/** The read-only aggregations behind `analytics_overview`, `_summary_data_for_user`
    and the no-data answer of `summary_ai` (backend/app.py). They work on the rows
    of the join of expenses, groups and the user's memberships; Ledger builds
    those rows from the store. */
module Analytics {
  import opened Basics
  import opened Text
  import opened Tally
  import opened Sorting
  import opened Ranked

  /** One expense as the join presents it: title (the `category` column), amount,
      date, time, payer and the name of its group. */
  datatype Row = Row(title: string, amount: real, date: string, time: string,
                     paidBy: string, group: string)

  function GroupOf(r: Row): string { r.group }
  function PayerOf(r: Row): string { r.paidBy }

  /** `DATE_FORMAT(e.date, '%Y-%m')` for a date stored as `YYYY-MM-DD`. */
  function MonthOf(r: Row): string { Take(r.date, 7) }

  /** Each row as a (key, amount) pair. */
  function Column(rows: seq<Row>, key: Row -> string): (r: seq<Entry>)
    ensures |r| == |rows|
    ensures forall i :: 0 <= i < |rows| ==> r[i] == Entry(key(rows[i]), rows[i].amount)
  {
    if rows == [] then [] else [Entry(key(rows[0]), rows[0].amount)] + Column(rows[1..], key)
  }

  /** `COALESCE(SUM(e.amount), 0)` over the rows. */
  function TotalSpend(rows: seq<Row>): real {
    if rows == [] then 0.0 else rows[0].amount + TotalSpend(rows[1..])
  }

  lemma {:induction false} TotalColumn(rows: seq<Row>, key: Row -> string)
    ensures Total(Column(rows, key)) == TotalSpend(rows)
  {
    if rows != [] {
      TotalColumn(rows[1..], key);
      assert Column(rows, key)[1..] == Column(rows[1..], key);
    }
  }

  /** With positive amounts the total is positive exactly when there are rows. */
  lemma {:induction false} TotalPositive(rows: seq<Row>)
    requires forall i :: 0 <= i < |rows| ==> rows[i].amount > 0.0
    ensures TotalSpend(rows) > 0.0 <==> rows != []
  {
    if rows != [] {
      TotalPositive(rows[1..]);
    }
  }

  /** `GROUP BY key ... ORDER BY total DESC`. */
  function Breakdown(rows: seq<Row>, key: Row -> string): seq<Entry> {
    ByTotal(GroupBy(Column(rows, key)))
  }

  /** The keys of a column are the keys of its rows. */
  lemma ColumnKeys(rows: seq<Row>, key: Row -> string)
    ensures forall x :: x in Keys(Column(rows, key)) <==>
              exists i :: 0 <= i < |rows| && key(rows[i]) == x
  {
    var c := Column(rows, key);
    forall x ensures x in Keys(c) <==> exists i :: 0 <= i < |rows| && key(rows[i]) == x {
      if x in Keys(c) {
        var i :| 0 <= i < |c| && Keys(c)[i] == x;
        assert key(rows[i]) == x;
      }
      if exists i :: 0 <= i < |rows| && key(rows[i]) == x {
        var i :| 0 <= i < |rows| && key(rows[i]) == x;
        assert Keys(c)[i] == x;
      }
    }
  }

  /** A reordering of a tally whose totals are those of c keeps that property. */
  lemma TotalsKept(g: seq<Entry>, s: seq<Entry>, c: seq<Entry>)
    requires multiset(s) == multiset(g)
    requires forall e :: e in g ==> e.total == Get(c, e.key)
    ensures forall e :: e in s ==> e.total == Get(c, e.key)
  {
    forall e | e in s ensures e.total == Get(c, e.key) {
      assert e in multiset(g);
    }
  }

  /** One entry per key that occurs in the rows, holding the sum of that key's
      amounts, largest first; the entries add up to the total spend. */
  lemma BreakdownSpec(rows: seq<Row>, key: Row -> string)
    ensures SortedDesc(Breakdown(rows, key), EntryTotal)
    ensures DistinctKeys(Breakdown(rows, key))
    ensures forall x :: x in Keys(Breakdown(rows, key)) <==>
              exists i :: 0 <= i < |rows| && key(rows[i]) == x
    ensures forall e :: e in Breakdown(rows, key) ==> e.total == Get(Column(rows, key), e.key)
    ensures Total(Breakdown(rows, key)) == TotalSpend(rows)
  {
    var c := Column(rows, key);
    var g := GroupBy(c);
    GroupBySpec(c);
    ByTotalSpec(g);
    SameKeys(g, ByTotal(g));
    TotalColumn(rows, key);
    ColumnKeys(rows, key);
    forall e | e in g ensures e.total == Get(c, e.key) {
      var i :| 0 <= i < |g| && g[i] == e;
    }
    TotalsKept(g, ByTotal(g), c);
  }

  // ---------------------------------------------------------------------------
  // Monthly series
  // ---------------------------------------------------------------------------

  /** `GROUP BY ym ORDER BY ym DESC LIMIT 6`, then reversed to oldest first. */
  function Monthly(rows: seq<Row>): seq<Entry> {
    Reverse(Take(ByKeyDesc(GroupBy(Column(rows, MonthOf))), 6))
  }

  lemma CodesInjective(a: string, b: string)
    requires Codes(a) == Codes(b)
    ensures a == b
  {
    assert |a| == |b|;
    forall i | 0 <= i < |a| ensures a[i] == b[i] {
      assert Codes(a)[i] == Codes(b)[i];
    }
  }

  /** In a key-sorted tally with distinct keys, earlier keys are strictly larger. */
  lemma StrictlyDesc(s: seq<Entry>, i: nat, j: nat)
    requires LexSortedDesc(s, EntryKeyCodes) && DistinctKeys(s)
    requires i < j < |s|
    ensures LexLess(Codes(s[j].key), Codes(s[i].key))
  {
    assert LexAtLeast(Codes(s[i].key), Codes(s[j].key));
    LexTotal(Codes(s[i].key), Codes(s[j].key));
    if Codes(s[i].key) == Codes(s[j].key) {
      CodesInjective(s[i].key, s[j].key);
    }
  }

  /** Reversing the first six of a strictly key-descending tally lists strictly
      increasing keys. */
  lemma TopAscending(s: seq<Entry>)
    requires LexSortedDesc(s, EntryKeyCodes) && DistinctKeys(s)
    ensures forall i, j :: 0 <= i < j < |Reverse(Take(s, 6))| ==>
              LexLess(Codes(Reverse(Take(s, 6))[i].key), Codes(Reverse(Take(s, 6))[j].key))
  {
    var p := Take(s, 6);
    var m := Reverse(p);
    forall i, j | 0 <= i < j < |m| ensures LexLess(Codes(m[i].key), Codes(m[j].key)) {
      TopIndex(s, i);
      TopIndex(s, j);
      StrictlyDesc(s, |p| - 1 - j, |p| - 1 - i);
    }
  }

  /** Every entry of the reversed first six is an entry of s. */
  lemma TopFrom(s: seq<Entry>)
    ensures forall e :: e in Reverse(Take(s, 6)) ==> e in s
  {
    var p := Take(s, 6);
    var m := Reverse(p);
    forall e | e in m ensures e in s {
      var i :| 0 <= i < |m| && m[i] == e;
      assert e == s[|p| - 1 - i];
    }
  }

  /** Position i of the reversed first six is position |p| - 1 - i of s. */
  lemma TopIndex(s: seq<Entry>, i: nat)
    requires i < |Reverse(Take(s, 6))|
    ensures Reverse(Take(s, 6))[i] == s[|Take(s, 6)| - 1 - i]
  {
  }

  /** A key missing from the reversed first six sits at position six or later. */
  lemma PastTop(s: seq<Entry>, x: string, k: nat)
    requires k < |s| && s[k].key == x && x !in Keys(Reverse(Take(s, 6)))
    ensures 6 <= k
  {
    var p := Take(s, 6);
    var m := Reverse(p);
    if k < |p| {
      TopIndex(s, |p| - 1 - k);
      assert false;
    }
  }

  /** Every key at position six or later is older than the first six. */
  lemma TopNewer(s: seq<Entry>, k: nat)
    requires LexSortedDesc(s, EntryKeyCodes) && DistinctKeys(s)
    requires 6 <= k < |s|
    ensures forall e :: e in Reverse(Take(s, 6)) ==> LexLess(Codes(s[k].key), Codes(e.key))
  {
    var m := Reverse(Take(s, 6));
    forall e | e in m ensures LexLess(Codes(s[k].key), Codes(e.key)) {
      var i :| 0 <= i < |m| && m[i] == e;
      TopIndex(s, i);
      StrictlyDesc(s, 5 - i, k);
    }
  }

  /** A key of s missing from the first six is older than all of them, and then
      six are shown. */
  lemma TopMissing(s: seq<Entry>, x: string)
    requires LexSortedDesc(s, EntryKeyCodes) && DistinctKeys(s)
    requires x in Keys(s) && x !in Keys(Reverse(Take(s, 6)))
    ensures |Reverse(Take(s, 6))| == 6
    ensures forall e :: e in Reverse(Take(s, 6)) ==> LexLess(Codes(x), Codes(e.key))
  {
    var k :| 0 <= k < |s| && Keys(s)[k] == x;
    PastTop(s, x, k);
    TopNewer(s, k);
  }

  /** At most six months, strictly increasing (oldest first), each a month that
      has rows and holding the sum of that month's amounts; a month with rows is
      left out only when six later months are shown. */
  lemma MonthlySpec(rows: seq<Row>)
    ensures |Monthly(rows)| <= 6
    ensures forall i, j :: 0 <= i < j < |Monthly(rows)| ==>
              LexLess(Codes(Monthly(rows)[i].key), Codes(Monthly(rows)[j].key))
    ensures forall e :: e in Monthly(rows) ==>
              e.key in Keys(Column(rows, MonthOf)) && e.total == Get(Column(rows, MonthOf), e.key)
    ensures forall x :: x in Keys(Column(rows, MonthOf)) && x !in Keys(Monthly(rows)) ==>
              |Monthly(rows)| == 6 &&
              forall e :: e in Monthly(rows) ==> LexLess(Codes(x), Codes(e.key))
  {
    var c := Column(rows, MonthOf);
    var g := GroupBy(c);
    var s := ByKeyDesc(g);
    GroupBySpec(c);
    ByKeyDescSpec(g);
    SameKeys(g, s);
    TopAscending(s);
    TopFrom(s);
    forall e | e in g ensures e.key in Keys(c) && e.total == Get(c, e.key) {
      var k :| 0 <= k < |g| && g[k] == e;
      assert Keys(g)[k] == e.key;
    }
    KeysIn(g, s, c);
    TotalsKept(g, s, c);
    forall x | x in Keys(c) && x !in Keys(Monthly(rows))
      ensures |Monthly(rows)| == 6 && forall e :: e in Monthly(rows) ==> LexLess(Codes(x), Codes(e.key))
    {
      TopMissing(s, x);
    }
  }

  /** A reordering of a tally whose keys are keys of c keeps that property. */
  lemma KeysIn(g: seq<Entry>, s: seq<Entry>, c: seq<Entry>)
    requires multiset(s) == multiset(g)
    requires forall e :: e in g ==> e.key in Keys(c)
    ensures forall e :: e in s ==> e.key in Keys(c)
  {
    forall e | e in s ensures e.key in Keys(c) {
      assert e in multiset(g);
    }
  }

  // ---------------------------------------------------------------------------
  // Overview
  // ---------------------------------------------------------------------------

  datatype Overview = Overview(totalSpend: real, byGroup: seq<Entry>, byPayer: seq<Entry>,
                               monthly: seq<Entry>)

  /** `analytics_overview` for the rows of one user. */
  function OverviewOf(rows: seq<Row>): Overview {
    Overview(TotalSpend(rows), Breakdown(rows, GroupOf), Breakdown(rows, PayerOf), Monthly(rows))
  }

  // ---------------------------------------------------------------------------
  // Summary
  // ---------------------------------------------------------------------------

  /** Sort key for `ORDER BY e.date DESC, e.time DESC`: the date's codes, a
      separator below every character, then the time's codes. */
  function WhenKey(r: Row): seq<int> { Codes(r.date) + [-1] + Codes(r.time) }

  predicate NonNegative(s: seq<int>) { forall i :: 0 <= i < |s| ==> s[i] >= 0 }

  /** The separator makes the key compare dates first and times on equal dates. */
  lemma {:induction false} PairOrder(x1: seq<int>, y1: seq<int>, x2: seq<int>, y2: seq<int>)
    requires NonNegative(x1) && NonNegative(x2)
    ensures LexLess(x1 + [-1] + y1, x2 + [-1] + y2) <==>
            LexLess(x1, x2) || (x1 == x2 && LexLess(y1, y2))
  {
    var a, b := x1 + [-1] + y1, x2 + [-1] + y2;
    if x1 == [] && x2 == [] {
      assert a == [-1] + y1 && b == [-1] + y2;
      assert a[1..] == y1 && b[1..] == y2;
    } else if x1 == [] {
      assert a[0] == -1 && b[0] == x2[0];
    } else if x2 == [] {
      assert a[0] == x1[0] && b[0] == -1;
    } else {
      assert a[0] == x1[0] && b[0] == x2[0];
      assert a[1..] == x1[1..] + [-1] + y1 && b[1..] == x2[1..] + [-1] + y2;
      PairOrder(x1[1..], y1, x2[1..], y2);
      if x1[0] == x2[0] && x1[1..] == x2[1..] {
        assert x1 == [x1[0]] + x1[1..] && x2 == [x2[0]] + x2[1..];
      }
    }
  }

  /** Row a is listed after row b exactly when a's date is earlier, or the dates
      are equal and a's time is earlier. */
  lemma WhenKeyOrder(a: Row, b: Row)
    ensures LexLess(WhenKey(a), WhenKey(b)) <==>
            LexLess(Codes(a.date), Codes(b.date)) ||
            (a.date == b.date && LexLess(Codes(a.time), Codes(b.time)))
  {
    PairOrder(Codes(a.date), Codes(a.time), Codes(b.date), Codes(b.time));
    if Codes(a.date) == Codes(b.date) {
      CodesInjective(a.date, b.date);
    }
  }

  /** The ten most recent rows, latest first. */
  function Latest(rows: seq<Row>): seq<Row> {
    Take(LexSortDesc(rows, WhenKey), 10)
  }

  /** At most ten rows, latest first, taken from the rows; any row left out is
      no later than every row listed. */
  lemma LatestSpec(rows: seq<Row>)
    ensures |Latest(rows)| == if |rows| <= 10 then |rows| else 10
    ensures LexSortedDesc(Latest(rows), WhenKey)
    ensures multiset(Latest(rows)) <= multiset(rows)
    ensures forall x, y :: x in multiset(rows) - multiset(Latest(rows)) && y in Latest(rows) ==>
              LexAtLeast(WhenKey(y), WhenKey(x))
  {
    var s := LexSortDesc(rows, WhenKey);
    LexSortDescSpec(rows, WhenKey);
    LexPrefixSpec(s, |Latest(rows)|, WhenKey);
  }

  datatype RecentItem = RecentItem(title: string, amount: real, date: string, group: string)

  datatype Quick = Quick(countRecent: nat, avgRecent: real, topGroup: Option<string>)

  datatype Summary = Summary(total: real, byGroup: seq<Entry>, recent: seq<RecentItem>,
                             quick: Option<Quick>)

  function Items(rows: seq<Row>): (r: seq<RecentItem>)
    ensures |r| == |rows|
    ensures forall i :: 0 <= i < |rows| ==>
              r[i] == RecentItem(rows[i].title, rows[i].amount, rows[i].date, rows[i].group)
  {
    if rows == [] then []
    else [RecentItem(rows[0].title, rows[0].amount, rows[0].date, rows[0].group)] + Items(rows[1..])
  }

  function SumAmounts(items: seq<RecentItem>): real {
    if items == [] then 0.0 else items[0].amount + SumAmounts(items[1..])
  }

  /** `_summary_data_for_user`: `quick` is absent without recent items; otherwise
      it counts them, averages their amounts and names the top group, if any. */
  function SummaryOf(rows: seq<Row>): Summary {
    var byGroup := Breakdown(rows, GroupOf);
    var recent := Items(Latest(rows));
    var quick :=
      if recent == [] then None
      else Some(Quick(|recent|, SumAmounts(recent) / (|recent| as real),
                      if byGroup == [] then None else Some(byGroup[0].key)));
    Summary(TotalSpend(rows), byGroup, recent, quick)
  }

  /** `quick` is present exactly when the user has rows; it then counts up to ten
      items and names the group with the largest total. */
  lemma QuickSpec(rows: seq<Row>)
    ensures SummaryOf(rows).quick.None? <==> rows == []
    ensures SummaryOf(rows).quick.Some? ==>
              SummaryOf(rows).quick.value.countRecent == (if |rows| <= 10 then |rows| else 10) &&
              SummaryOf(rows).quick.value.topGroup.Some? &&
              exists e :: e in SummaryOf(rows).byGroup &&
                          e.key == SummaryOf(rows).quick.value.topGroup.value &&
                          forall f :: f in SummaryOf(rows).byGroup ==> f.total <= e.total
  {
    LatestSpec(rows);
    BreakdownSpec(rows, GroupOf);
    var b := Breakdown(rows, GroupOf);
    if rows != [] {
      assert GroupOf(rows[0]) in Keys(b);
      HeadLargest(b);
    }
  }

  /** The head of a tally sorted by total carries the largest total. */
  lemma HeadLargest(b: seq<Entry>)
    requires b != [] && SortedDesc(b, EntryTotal)
    ensures b[0] in b && forall f :: f in b ==> f.total <= b[0].total
  {
    forall f | f in b ensures f.total <= b[0].total {
      var i :| 0 <= i < |b| && b[i] == f;
    }
  }

  /** The no-data answer of `summary_ai`. */
  predicate NoData(s: Summary) {
    s.total <= 0.0 && s.recent == []
  }

  /** With positive amounts there is no data exactly when the user has no rows. */
  lemma NoDataSpec(rows: seq<Row>)
    requires forall i :: 0 <= i < |rows| ==> rows[i].amount > 0.0
    ensures NoData(SummaryOf(rows)) <==> rows == []
  {
    TotalPositive(rows);
    LatestSpec(rows);
  }
}
