/** The read-only endpoints of backend/app.py over a snapshot of the tables
    (`Ledger.Db`, what `Store.Tables()` returns): the pending-payments query, the
    settlement suggestions and the rows behind the analytics and summary views. */
module Queries {
  import opened Basics
  import opened Text
  import opened Tally
  import opened Sorting
  import opened Ledger
  import Settlement
  import Analytics

  // ---------------------------------------------------------------------------
  // Pending payments
  // ---------------------------------------------------------------------------

  /** One row of the pending-payments answer. */
  datatype PendingItem = PendingItem(expenseId: string, title: string, date: string,
                                     paidBy: string, totalAmount: real, amountOwed: real,
                                     groupName: string, groupId: string)

  datatype PendingReport = PendingReport(pending: seq<PendingItem>, totalOwed: real)

  /** The joined row for split s when it is one of u's pending payments: s is u's,
      its expense and that expense's group exist, someone other than u paid, and
      u has no payment for the expense. */
  function OwedItem(db: Db, u: string, s: Split): Option<PendingItem> {
    if s.username != u then None
    else match FindExpense(db.expenses, s.expenseId)
      case None => None
      case Some(e) =>
        if e.paidBy == u then None
        else match FindGroup(db.groups, e.groupId)
          case None => None
          case Some(g) =>
            if HasPayment(db.payments, s.expenseId, u) then None
            else Some(PendingItem(e.id, e.category, e.date, e.paidBy, e.amount, s.amount, g.name, g.id))
  }

  /** The pending rows of the splits ss, in split order. */
  function OwedItems(db: Db, u: string, ss: seq<Split>): (r: seq<PendingItem>)
    ensures |r| <= |ss|
    ensures forall it :: it in r <==> exists s :: s in ss && OwedItem(db, u, s) == Some(it)
  {
    if ss == [] then []
    else
      assert ss == [ss[0]] + ss[1..];
      (match OwedItem(db, u, ss[0]) case None => [] case Some(it) => [it]) + OwedItems(db, u, ss[1..])
  }

  function ItemDate(it: PendingItem): seq<int> { Codes(it.date) }

  /** `total_owed`: the sum of the amounts owed. */
  function SumOwed(items: seq<PendingItem>): real {
    if items == [] then 0.0 else items[0].amountOwed + SumOwed(items[1..])
  }

  /** `get_pending_payments`: a missing or empty user is refused; otherwise the
      pending rows, latest date first, and what they add up to. */
  function PendingOf(db: Db, username: string): Result<PendingReport> {
    if username == "" then Failure(400, "Username required")
    else
      var p := LexSortDesc(OwedItems(db, username, db.splits), ItemDate);
      Success(PendingReport(p, SumOwed(p)))
  }

  lemma {:induction false} SumOwedInsert(x: PendingItem, s: seq<PendingItem>)
    ensures SumOwed(LexInsert(x, s, ItemDate)) == x.amountOwed + SumOwed(s)
  {
    if s != [] && !LexAtLeast(ItemDate(x), ItemDate(s[0])) {
      SumOwedInsert(x, s[1..]);
      assert LexInsert(x, s, ItemDate)[1..] == LexInsert(x, s[1..], ItemDate);
    } else {
      assert LexInsert(x, s, ItemDate)[1..] == s;
    }
  }

  /** Sorting the rows by date does not change what they add up to. */
  lemma {:induction false} SumOwedSorted(s: seq<PendingItem>)
    ensures SumOwed(LexSortDesc(s, ItemDate)) == SumOwed(s)
  {
    if s != [] {
      SumOwedSorted(s[1..]);
      SumOwedInsert(s[0], LexSortDesc(s[1..], ItemDate));
    }
  }

  /** The answer is an error exactly for an empty user. Otherwise it lists the
      pending rows of the user's splits, latest date first, and `total_owed` is
      their sum in any order. */
  lemma PendingSpec(db: Db, u: string)
    ensures PendingOf(db, u).Failure? <==> u == ""
    ensures u != "" ==>
              var rep := PendingOf(db, u).value;
              && LexSortedDesc(rep.pending, ItemDate)
              && (forall it :: it in rep.pending <==>
                    exists s :: s in db.splits && OwedItem(db, u, s) == Some(it))
              && rep.totalOwed == SumOwed(OwedItems(db, u, db.splits))
  {
    if u != "" {
      var items := OwedItems(db, u, db.splits);
      LexSortDescSpec(items, ItemDate);
      SumOwedSorted(items);
      forall it ensures it in LexSortDesc(items, ItemDate) <==> it in items {
        assert it in multiset(LexSortDesc(items, ItemDate)) <==> it in multiset(items);
      }
    }
  }

  /** In a consistent store every unpaid split of the user is listed, with its
      expense, its group and the amount it owes. */
  lemma PendingComplete(db: Db, s: Split)
    requires Consistent(db) && s in db.splits && s.username != ""
    requires !HasPayment(db.payments, s.expenseId, s.username)
    ensures exists it :: it in PendingOf(db, s.username).value.pending &&
                         it.expenseId == s.expenseId && it.amountOwed == s.amount
  {
    var u := s.username;
    assert SplitBacked(s, db.expenses, db.members);
    var e :| e in db.expenses && e.id == s.expenseId && e.paidBy != u &&
             Membership(e.groupId, u) in db.members;
    FindExpenseUnique(db.expenses, e);
    assert HasGroup(db.groups, e.groupId);
    var g := FindGroup(db.groups, e.groupId).value;
    var it := PendingItem(e.id, e.category, e.date, e.paidBy, e.amount, s.amount, g.name, g.id);
    assert OwedItem(db, u, s) == Some(it);
    PendingSpec(db, u);
  }

  // ---------------------------------------------------------------------------
  // Settlement suggestions
  // ---------------------------------------------------------------------------

  datatype GroupSettlement = GroupSettlement(groupId: string, groupName: Option<string>,
                                             transfers: seq<Settlement.Transfer>)

  /** The answer for one group, or the list for the groups of a user. */
  datatype Suggestion = OneGroup(group: GroupSettlement) | PerGroup(groups: seq<GroupSettlement>)

  /** (payer, amount) of each expense of the group, before grouping. */
  function PaidRows(expenses: seq<Expense>, gid: string): seq<Entry> {
    if expenses == [] then []
    else (if expenses[0].groupId == gid then [Entry(expenses[0].paidBy, expenses[0].amount)] else [])
         + PaidRows(expenses[1..], gid)
  }

  /** `SELECT es.username, es.split_amount FROM expense_split es JOIN expenses e
      ON es.expense_id = e.id WHERE e.group_id = gid`, before grouping. */
  function OwedRows(splits: seq<Split>, expenses: seq<Expense>, gid: string): seq<Entry> {
    if splits == [] then []
    else (if InGroup(expenses, splits[0].expenseId, gid)
          then [Entry(splits[0].username, splits[0].amount)] else [])
         + OwedRows(splits[1..], expenses, gid)
  }

  /** The expense eid exists and belongs to group gid. */
  predicate InGroup(expenses: seq<Expense>, eid: string, gid: string) {
    FindExpense(expenses, eid).Some? && FindExpense(expenses, eid).value.groupId == gid
  }

  /** What n paid for the expenses of group gid. */
  function PaidTotal(expenses: seq<Expense>, gid: string, n: string): real {
    if expenses == [] then 0.0
    else (if expenses[0].groupId == gid && expenses[0].paidBy == n then expenses[0].amount else 0.0)
         + PaidTotal(expenses[1..], gid, n)
  }

  /** What n's split rows for expenses of group gid add up to. */
  function OwedTotal(splits: seq<Split>, expenses: seq<Expense>, gid: string, n: string): real {
    if splits == [] then 0.0
    else (if splits[0].username == n && InGroup(expenses, splits[0].expenseId, gid)
          then splits[0].amount else 0.0)
         + OwedTotal(splits[1..], expenses, gid, n)
  }

  /** The balance dict `bal` of `balances_for_group(gid)`. */
  function GroupBalance(db: Db, gid: string): seq<Entry> {
    Settlement.Balances(GroupBy(PaidRows(db.expenses, gid)), GroupBy(OwedRows(db.splits, db.expenses, gid)))
  }

  /** The name of the group, None when there is no such group. */
  function GroupName(groups: seq<Group>, gid: string): Option<string> {
    match FindGroup(groups, gid)
    case None => None
    case Some(g) => Some(g.name)
  }

  /** What `balances_for_group(gid)` returns. */
  function PlanFor(db: Db, gid: string): GroupSettlement {
    GroupSettlement(gid, GroupName(db.groups, gid), Settlement.Plan(GroupBalance(db, gid)))
  }

  lemma PaidRowsGet(expenses: seq<Expense>, gid: string, n: string)
    ensures Get(PaidRows(expenses, gid), n) == PaidTotal(expenses, gid, n)
    ensures n in Keys(PaidRows(expenses, gid)) <==>
            exists e :: e in expenses && e.groupId == gid && e.paidBy == n
  {
    PaidRowsTotal(expenses, gid, n);
    PaidRowsKeys(expenses, gid, n);
  }

  lemma {:induction false} PaidRowsTotal(expenses: seq<Expense>, gid: string, n: string)
    ensures Get(PaidRows(expenses, gid), n) == PaidTotal(expenses, gid, n)
  {
    if expenses != [] {
      PaidRowsTotal(expenses[1..], gid, n);
      var head := if expenses[0].groupId == gid then [Entry(expenses[0].paidBy, expenses[0].amount)] else [];
      assert PaidRows(expenses, gid) == head + PaidRows(expenses[1..], gid);
      GetAppend(head, PaidRows(expenses[1..], gid), n);
    }
  }

  lemma {:induction false} PaidRowsKeys(expenses: seq<Expense>, gid: string, n: string)
    ensures n in Keys(PaidRows(expenses, gid)) <==>
            exists e :: e in expenses && e.groupId == gid && e.paidBy == n
  {
    if expenses != [] {
      PaidRowsKeys(expenses[1..], gid, n);
      var e0 := expenses[0];
      var head := if e0.groupId == gid then [Entry(e0.paidBy, e0.amount)] else [];
      assert PaidRows(expenses, gid) == head + PaidRows(expenses[1..], gid);
      KeysAppend(head, PaidRows(expenses[1..], gid));
      var here := e0.groupId == gid && e0.paidBy == n;
      assert n in Keys(head) <==> here;
      if here {
        assert e0 in expenses;
      }
      if exists e :: e in expenses[1..] && e.groupId == gid && e.paidBy == n {
        var e :| e in expenses[1..] && e.groupId == gid && e.paidBy == n;
        assert e in expenses;
      }
      if exists e :: e in expenses && e.groupId == gid && e.paidBy == n {
        var e :| e in expenses && e.groupId == gid && e.paidBy == n;
        var i :| 0 <= i < |expenses| && expenses[i] == e;
        if i > 0 {
          assert expenses[1..][i - 1] == e;
        }
      }
    }
  }

  lemma OwedRowsGet(splits: seq<Split>, expenses: seq<Expense>, gid: string, n: string)
    ensures Get(OwedRows(splits, expenses, gid), n) == OwedTotal(splits, expenses, gid, n)
    ensures n in Keys(OwedRows(splits, expenses, gid)) <==>
            exists s :: s in splits && s.username == n && InGroup(expenses, s.expenseId, gid)
  {
    OwedRowsTotal(splits, expenses, gid, n);
    OwedRowsKeys(splits, expenses, gid, n);
  }

  lemma {:induction false} OwedRowsTotal(splits: seq<Split>, expenses: seq<Expense>, gid: string, n: string)
    ensures Get(OwedRows(splits, expenses, gid), n) == OwedTotal(splits, expenses, gid, n)
  {
    if splits != [] {
      OwedRowsTotal(splits[1..], expenses, gid, n);
      var head := if InGroup(expenses, splits[0].expenseId, gid)
                  then [Entry(splits[0].username, splits[0].amount)] else [];
      assert OwedRows(splits, expenses, gid) == head + OwedRows(splits[1..], expenses, gid);
      GetAppend(head, OwedRows(splits[1..], expenses, gid), n);
    }
  }

  lemma {:induction false} OwedRowsKeys(splits: seq<Split>, expenses: seq<Expense>, gid: string, n: string)
    ensures n in Keys(OwedRows(splits, expenses, gid)) <==>
            exists s :: s in splits && s.username == n && InGroup(expenses, s.expenseId, gid)
  {
    if splits != [] {
      OwedRowsKeys(splits[1..], expenses, gid, n);
      var head := if InGroup(expenses, splits[0].expenseId, gid)
                  then [Entry(splits[0].username, splits[0].amount)] else [];
      assert OwedRows(splits, expenses, gid) == head + OwedRows(splits[1..], expenses, gid);
      KeysAppend(head, OwedRows(splits[1..], expenses, gid));
      var s0 := splits[0];
      var here := s0.username == n && InGroup(expenses, s0.expenseId, gid);
      assert n in Keys(head) <==> here;
      if here {
        assert s0 in splits;
      }
      if exists s :: s in splits[1..] && s.username == n && InGroup(expenses, s.expenseId, gid) {
        var s :| s in splits[1..] && s.username == n && InGroup(expenses, s.expenseId, gid);
        assert s in splits;
      }
      if exists s :: s in splits && s.username == n && InGroup(expenses, s.expenseId, gid) {
        var s :| s in splits && s.username == n && InGroup(expenses, s.expenseId, gid);
        var i :| 0 <= i < |splits| && splits[i] == s;
        if i > 0 {
          assert splits[1..][i - 1] == s;
        }
      }
    }
  }

  lemma KeysAppend(a: seq<Entry>, b: seq<Entry>)
    ensures Keys(a + b) == Keys(a) + Keys(b)
  {
  }

  lemma {:induction false} GetAppend(a: seq<Entry>, b: seq<Entry>, n: string)
    ensures Get(a + b, n) == Get(a, n) + Get(b, n)
  {
    if a != [] {
      assert (a + b)[1..] == a[1..] + b;
      GetAppend(a[1..], b, n);
    } else {
      assert a + b == b;
    }
  }

  /** A user's balance in group gid is what they paid for its expenses minus
      what their split rows for those expenses add up to, and only users who
      paid or owe appear in it, each once. */
  lemma GroupBalances(db: Db, gid: string)
    ensures DistinctKeys(GroupBalance(db, gid))
    ensures forall n :: Get(GroupBalance(db, gid), n) ==
              PaidTotal(db.expenses, gid, n) - OwedTotal(db.splits, db.expenses, gid, n)
    ensures forall n :: n in Keys(GroupBalance(db, gid)) <==>
              (exists e :: e in db.expenses && e.groupId == gid && e.paidBy == n) ||
              (exists s :: s in db.splits && s.username == n && InGroup(db.expenses, s.expenseId, gid))
  {
    var paid := PaidRows(db.expenses, gid);
    var owed := OwedRows(db.splits, db.expenses, gid);
    GroupBySpec(paid);
    GroupBySpec(owed);
    AccumulateSpec([], paid);
    AccumulateSpec([], owed);
    Settlement.BalancesSpec(GroupBy(paid), GroupBy(owed));
    forall n ensures Get(GroupBalance(db, gid), n) ==
                     PaidTotal(db.expenses, gid, n) - OwedTotal(db.splits, db.expenses, gid, n)
    {
      PaidRowsGet(db.expenses, gid, n);
      OwedRowsGet(db.splits, db.expenses, gid, n);
    }
    forall n ensures n in Keys(GroupBalance(db, gid)) <==>
              (exists e :: e in db.expenses && e.groupId == gid && e.paidBy == n) ||
              (exists s :: s in db.splits && s.username == n && InGroup(db.expenses, s.expenseId, gid))
    {
      PaidRowsGet(db.expenses, gid, n);
      OwedRowsGet(db.splits, db.expenses, gid, n);
    }
  }

  /** Every suggested transfer moves a positive number of cents from a user
      whose balance in the group is below -0.005 to one whose balance is above
      0.005; the group name is present exactly when the group exists. */
  lemma PlanForSpec(db: Db, gid: string)
    ensures PlanFor(db, gid).groupName.Some? <==> HasGroup(db.groups, gid)
    ensures forall t :: t in PlanFor(db, gid).transfers ==>
              t.amount > 0 &&
              PaidTotal(db.expenses, gid, t.from) - OwedTotal(db.splits, db.expenses, gid, t.from) < -0.005 &&
              PaidTotal(db.expenses, gid, t.to) - OwedTotal(db.splits, db.expenses, gid, t.to) > 0.005
  {
    GroupBalances(db, gid);
    Settlement.PlanShape(GroupBalance(db, gid));
  }

  /** `balances_for_group(gid)`: the two aggregate queries, the greedy settlement
      and the group-name lookup. */
  method BalancesForGroup(db: Db, gid: string) returns (g: GroupSettlement)
    ensures g == PlanFor(db, gid)
  {
    var transfers := Settlement.SuggestTransfers(GroupBy(PaidRows(db.expenses, gid)),
                                                 GroupBy(OwedRows(db.splits, db.expenses, gid)));
    var name: Option<string> := None;
    var row := FindGroup(db.groups, gid);
    if row.Some? {
      name := Some(row.value.name);
    }
    g := GroupSettlement(gid, name, transfers);
  }

  /** `SELECT g.id FROM groups g JOIN group_members gm ON g.id = gm.group_id
      WHERE gm.username = u`, in membership order. */
  function UserGroupIds(db: Db, u: string, ms: seq<Membership>): (r: seq<string>)
    ensures forall gid :: gid in r <==> Membership(gid, u) in ms && HasGroup(db.groups, gid)
  {
    if ms == [] then []
    else
      assert ms == [ms[0]] + ms[1..];
      (if ms[0].username == u && HasGroup(db.groups, ms[0].groupId) then [ms[0].groupId] else [])
      + UserGroupIds(db, u, ms[1..])
  }

  /** What `settlements_suggest` answers. */
  function SuggestOf(db: Db, groupId: string, user: string): Result<Suggestion> {
    var gid := Trim(groupId);
    var u := Trim(user);
    if gid == "" && u == "" then Failure(400, "Provide groupId or user")
    else if gid != "" then Success(OneGroup(PlanFor(db, gid)))
    else
      var ids := UserGroupIds(db, u, db.members);
      Success(PerGroup(PlansFor(db, ids)))
  }

  /** The settlement of each group id, in order. */
  function PlansFor(db: Db, ids: seq<string>): (r: seq<GroupSettlement>)
    ensures |r| == |ids|
    ensures forall i :: 0 <= i < |ids| ==> r[i] == PlanFor(db, ids[i])
  {
    if ids == [] then [] else [PlanFor(db, ids[0])] + PlansFor(db, ids[1..])
  }

  /** The per-group loop of the user view. */
  method PlansLoop(db: Db, ids: seq<string>) returns (results: seq<GroupSettlement>)
    ensures results == PlansFor(db, ids)
  {
    results := [];
    for k := 0 to |ids|
      invariant |results| == k
      invariant forall i :: 0 <= i < k ==> results[i] == PlanFor(db, ids[i])
    {
      var g := BalancesForGroup(db, ids[k]);
      results := results + [g];
    }
  }

  /** `settlements_suggest`: one group when a group id is given, else one entry
      per group of the user. */
  method SuggestSettlements(db: Db, groupId: string, user: string) returns (r: Result<Suggestion>)
    ensures r == SuggestOf(db, groupId, user)
  {
    var gid := Trim(groupId);
    var u := Trim(user);
    if gid == "" && u == "" {
      return Failure(400, "Provide groupId or user");
    }
    if gid != "" {
      var g := BalancesForGroup(db, gid);
      return Success(OneGroup(g));
    }
    var results := PlansLoop(db, UserGroupIds(db, u, db.members));
    r := Success(PerGroup(results));
  }

  /** Without a duplicate membership a user's groups are listed once each. */
  lemma {:induction false} UserGroupIdsDistinct(db: Db, u: string, ms: seq<Membership>)
    requires DistinctBy(ms, MemberKey)
    ensures Distinct(UserGroupIds(db, u, ms))
  {
    if ms != [] {
      var rest := UserGroupIds(db, u, ms[1..]);
      UserGroupIdsDistinct(db, u, ms[1..]);
      var r := UserGroupIds(db, u, ms);
      if ms[0].username == u && HasGroup(db.groups, ms[0].groupId) {
        assert r == [ms[0].groupId] + rest;
        forall j | 0 < j < |r| ensures r[0] != r[j] {
          assert r[j] == rest[j - 1];
          assert Membership(r[j], u) in ms[1..];
          var k :| 0 <= k < |ms[1..]| && ms[1..][k] == Membership(r[j], u);
          assert MemberKey(ms[0]) != MemberKey(ms[k + 1]);
        }
        forall i, j | 0 < i < j < |r| ensures r[i] != r[j] {
          assert r[i] == rest[i - 1] && r[j] == rest[j - 1];
        }
      } else {
        assert r == rest;
      }
    }
  }

  /** The answer is an error exactly when both parameters are blank; a group id
      takes precedence; in a consistent store the per-user answer has one entry
      for each group the user belongs to, once, each with that group's plan. */
  lemma SuggestSpec(db: Db, groupId: string, user: string)
    ensures SuggestOf(db, groupId, user).Failure? <==> Trim(groupId) == "" && Trim(user) == ""
    ensures Trim(groupId) != "" ==> SuggestOf(db, groupId, user) == Success(OneGroup(PlanFor(db, Trim(groupId))))
    ensures Consistent(db) && Trim(groupId) == "" && Trim(user) != "" ==>
              var gs := SuggestOf(db, groupId, user).value.groups;
              && (forall i, j :: 0 <= i < j < |gs| ==> gs[i].groupId != gs[j].groupId)
              && (forall gid :: (exists i :: 0 <= i < |gs| && gs[i].groupId == gid) <==>
                                Membership(gid, Trim(user)) in db.members)
              && (forall i :: 0 <= i < |gs| ==> gs[i] == PlanFor(db, gs[i].groupId))
  {
    if Consistent(db) && Trim(groupId) == "" && Trim(user) != "" {
      var u := Trim(user);
      var ids := UserGroupIds(db, u, db.members);
      UserGroupIdsDistinct(db, u, db.members);
      var gs := SuggestOf(db, groupId, user).value.groups;
      assert |gs| == |ids|;
      forall i | 0 <= i < |gs| ensures gs[i].groupId == ids[i] && gs[i] == PlanFor(db, gs[i].groupId) {
      }
      forall gid ensures (exists i :: 0 <= i < |gs| && gs[i].groupId == gid) <==>
                         Membership(gid, u) in db.members
      {
        if Membership(gid, u) in db.members {
          assert gid in ids;
          var i :| 0 <= i < |ids| && ids[i] == gid;
          assert gs[i].groupId == gid;
        }
        if exists i :: 0 <= i < |gs| && gs[i].groupId == gid {
          var i :| 0 <= i < |gs| && gs[i].groupId == gid;
          assert ids[i] in ids;
        }
      }
    }
  }

  // ---------------------------------------------------------------------------
  // Analytics and summary
  // ---------------------------------------------------------------------------

  /** The number of occurrences of m in the membership table. */
  function Count(ms: seq<Membership>, m: Membership): nat {
    if ms == [] then 0 else (if ms[0] == m then 1 else 0) + Count(ms[1..], m)
  }

  /** The name of an expense's group, '' when the group is missing. */
  function NameOf(groups: seq<Group>, gid: string): string {
    match FindGroup(groups, gid)
    case None => ""
    case Some(g) => g.name
  }

  /** The join row of an expense. */
  function RowOf(groups: seq<Group>, e: Expense): Analytics.Row {
    Analytics.Row(e.category, e.amount, e.date, e.time, e.paidBy, NameOf(groups, e.groupId))
  }

  /** The rows the join `expenses e JOIN groups g ON g.id = e.group_id JOIN
      group_members gm ON gm.group_id = g.id WHERE gm.username = u` yields for
      the expenses es: each expense once per membership row of u in its group. */
  function UserRows(db: Db, u: string, es: seq<Expense>): seq<Analytics.Row> {
    if es == [] then []
    else ExpenseRows(db, u, es[0]) + UserRows(db, u, es[1..])
  }

  /** The join rows of one expense: one per membership row of u in its group. */
  function ExpenseRows(db: Db, u: string, e: Expense): (r: seq<Analytics.Row>)
    ensures forall x :: x in r ==> x == RowOf(db.groups, e)
  {
    var n := if HasGroup(db.groups, e.groupId) then Count(db.members, Membership(e.groupId, u)) else 0;
    seq(n, _ => RowOf(db.groups, e))
  }

  /** Without duplicate memberships an expense of an existing group gives one
      row when u is a member of the group and none otherwise. */
  lemma ExpenseRowsDistinct(db: Db, u: string, e: Expense)
    requires DistinctBy(db.members, MemberKey) && HasGroup(db.groups, e.groupId)
    ensures ExpenseRows(db, u, e) == if MemberOf(db.members, u)(e) then [RowOf(db.groups, e)] else []
  {
    CountDistinct(db.members, Membership(e.groupId, u));
  }

  /** All rows of the user. */
  function RowsOfUser(db: Db, u: string): seq<Analytics.Row> {
    UserRows(db, u, db.expenses)
  }

  /** The expense belongs to a group u is a member of. */
  function MemberOf(members: seq<Membership>, u: string): Expense -> bool {
    (e: Expense) => Membership(e.groupId, u) in members
  }

  function Rows(groups: seq<Group>, es: seq<Expense>): (r: seq<Analytics.Row>)
    ensures |r| == |es|
    ensures forall i :: 0 <= i < |es| ==> r[i] == RowOf(groups, es[i])
  {
    if es == [] then [] else [RowOf(groups, es[0])] + Rows(groups, es[1..])
  }

  lemma {:induction false} CountDistinct(ms: seq<Membership>, m: Membership)
    requires DistinctBy(ms, MemberKey)
    ensures Count(ms, m) == if m in ms then 1 else 0
  {
    if ms != [] {
      assert DistinctBy(ms[1..], MemberKey) by {
        forall i, j | 0 <= i < j < |ms[1..]| ensures ms[1..][i] != ms[1..][j] {
          assert ms[1..][i] == ms[i + 1] && ms[1..][j] == ms[j + 1];
        }
      }
      CountDistinct(ms[1..], m);
      assert ms == [ms[0]] + ms[1..];
    }
  }

  lemma {:induction false} UserRowsKeep(db: Db, u: string, es: seq<Expense>)
    requires DistinctBy(db.members, MemberKey)
    requires forall e :: e in es ==> HasGroup(db.groups, e.groupId)
    ensures UserRows(db, u, es) == Rows(db.groups, Keep(es, MemberOf(db.members, u)))
  {
    if es != [] {
      assert forall e :: e in es[1..] ==> e in es;
      UserRowsKeep(db, u, es[1..]);
      assert es[0] in es;
      ExpenseRowsDistinct(db, u, es[0]);
      var keep := MemberOf(db.members, u);
      var rest := Keep(es[1..], keep);
      if keep(es[0]) {
        assert Keep(es, keep) == [es[0]] + rest;
        assert Rows(db.groups, [es[0]] + rest) == [RowOf(db.groups, es[0])] + Rows(db.groups, rest);
      } else {
        assert Keep(es, keep) == rest;
      }
    }
  }

  /** In a consistent store the user's rows are exactly the expenses of the
      groups the user belongs to, once each, in table order. */
  lemma UserRowsSpec(db: Db, u: string)
    requires Consistent(db)
    ensures RowsOfUser(db, u) == Rows(db.groups, Keep(db.expenses, MemberOf(db.members, u)))
  {
    UserRowsKeep(db, u, db.expenses);
  }

  /** `analytics_overview` */
  function OverviewFor(db: Db, user: string): Result<Analytics.Overview> {
    var u := Trim(user);
    if u == "" then Failure(400, "Username required")
    else Success(Analytics.OverviewOf(RowsOfUser(db, u)))
  }

  /** `summary_plain` */
  function SummaryFor(db: Db, user: string): Result<Analytics.Summary> {
    var u := Trim(user);
    if u == "" then Failure(400, "Username required")
    else Success(Analytics.SummaryOf(RowsOfUser(db, u)))
  }

  const NoExpensesText := "No expenses yet. Add a few and I will summarize trends for you."

  /** `summary_ai` up to the model call: the friendly no-data text, or the
      summary the prompt is built from. */
  datatype AiReply = NoExpenses(text: string) | AskModel(context: Analytics.Summary)

  function SummaryAiFor(db: Db, user: string): Result<AiReply> {
    var u := Trim(user);
    if u == "" then Failure(400, "Username required")
    else
      var s := Analytics.SummaryOf(RowsOfUser(db, u));
      if Analytics.NoData(s) then Success(NoExpenses(NoExpensesText)) else Success(AskModel(s))
  }

  /** What the expenses of the user's groups add up to. */
  function UserSpend(es: seq<Expense>, members: seq<Membership>, u: string): real {
    if es == [] then 0.0
    else (if Membership(es[0].groupId, u) in members then es[0].amount else 0.0)
         + UserSpend(es[1..], members, u)
  }

  lemma {:induction false} SpendOfRows(groups: seq<Group>, es: seq<Expense>, members: seq<Membership>, u: string)
    ensures Analytics.TotalSpend(Rows(groups, Keep(es, MemberOf(members, u)))) == UserSpend(es, members, u)
  {
    if es != [] {
      SpendOfRows(groups, es[1..], members, u);
      var rest := Keep(es[1..], MemberOf(members, u));
      if MemberOf(members, u)(es[0]) {
        assert Keep(es, MemberOf(members, u)) == [es[0]] + rest;
        assert Rows(groups, [es[0]] + rest)[1..] == Rows(groups, rest);
      } else {
        assert Keep(es, MemberOf(members, u)) == rest;
      }
    }
  }

  /** A blank user is refused; otherwise, in a consistent store, the total spend
      is what the expenses of the user's groups add up to. */
  lemma OverviewForSpec(db: Db, user: string)
    requires Consistent(db)
    ensures OverviewFor(db, user).Failure? <==> Trim(user) == ""
    ensures Trim(user) != "" ==>
              OverviewFor(db, user).value.totalSpend == UserSpend(db.expenses, db.members, Trim(user))
  {
    if Trim(user) != "" {
      UserRowsSpec(db, Trim(user));
      SpendOfRows(db.groups, db.expenses, db.members, Trim(user));
    }
  }

  /** The rows of expenses with positive amounts have positive amounts. */
  lemma RowsPositive(groups: seq<Group>, es: seq<Expense>)
    requires forall e :: e in es ==> e.amount > 0.0
    ensures forall i :: 0 <= i < |Rows(groups, es)| ==> Rows(groups, es)[i].amount > 0.0
  {
    forall i | 0 <= i < |Rows(groups, es)| ensures Rows(groups, es)[i].amount > 0.0 {
      assert es[i] in es;
    }
  }

  /** The filter leaves nothing exactly when no element passes it. */
  lemma KeepEmpty(es: seq<Expense>, keep: Expense -> bool)
    ensures Keep(es, keep) == [] <==> forall e :: e in es ==> !keep(e)
  {
    if exists e :: e in es && keep(e) {
      var e :| e in es && keep(e);
      assert e in Keep(es, keep);
    }
  }

  /** With positive amounts there is no data exactly when no expense belongs to
      a group of u. */
  lemma NoDataIff(groups: seq<Group>, es: seq<Expense>, members: seq<Membership>, u: string)
    requires forall e :: e in es ==> e.amount > 0.0
    ensures Analytics.NoData(Analytics.SummaryOf(Rows(groups, Keep(es, MemberOf(members, u))))) <==>
            forall e :: e in es ==> Membership(e.groupId, u) !in members
  {
    var kept := Keep(es, MemberOf(members, u));
    RowsPositive(groups, kept);
    Analytics.NoDataSpec(Rows(groups, kept));
    KeepEmpty(es, MemberOf(members, u));
  }

  /** A blank user is refused; otherwise, in a consistent store, the friendly
      no-data text is returned exactly when no group of the user has an expense. */
  lemma SummaryAiSpec(db: Db, user: string)
    requires Consistent(db)
    ensures SummaryAiFor(db, user).Failure? <==> Trim(user) == ""
    ensures Trim(user) != "" ==>
              (SummaryAiFor(db, user).value.NoExpenses? <==>
               forall e :: e in db.expenses ==> Membership(e.groupId, Trim(user)) !in db.members)
  {
    if Trim(user) != "" {
      UserRowsSpec(db, Trim(user));
      NoDataIff(db.groups, db.expenses, db.members, Trim(user));
    }
  }
}
