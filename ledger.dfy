/** The back end's store: the tables of the expense database and the endpoints of
    backend/app.py that change them. Each table is a sequence of rows in insertion
    order; the SQL reads are functions over those sequences, and the table keys and
    foreign keys of backend/init_expenseDB.py are the invariant `Store.Valid`. */
module Ledger {
  import opened Basics
  import opened Text
  import opened Tally
  import opened Sorting
  import Settlement

  // ---------------------------------------------------------------------------
  // Rows
  // ---------------------------------------------------------------------------

  /** A registered user; `password` holds the stored hash. */
  datatype User = User(username: string, password: string)

  datatype Group = Group(id: string, name: string, createdBy: string)

  datatype Membership = Membership(groupId: string, username: string)

  datatype Status = Pending | Partial | Paid

  /** An expense row; the expense's title is stored in `category`. */
  datatype Expense = Expense(id: string, groupId: string, amount: real, category: string,
                             note: string, date: string, time: string, paidBy: string,
                             status: Status)

  /** What `username` owes towards expense `expenseId`. */
  datatype Split = Split(expenseId: string, username: string, amount: real)

  datatype Payment = Payment(expenseId: string, username: string, amount: real, paymentMethod: string)

  /** An endpoint's JSON answer with its HTTP status: a message or an error. */
  datatype Reply = Done(code: int, message: string) | Failed(code: int, error: string)

  /** The text of a database exception (`str(e)`) is not modelled. */
  const DatabaseError := "database error"

  // ---------------------------------------------------------------------------
  // Keys and lookups
  // ---------------------------------------------------------------------------

  function UserKey(u: User): string { u.username }
  function GroupKey(g: Group): string { g.id }
  function MemberKey(m: Membership): Membership { m }
  function ExpenseKey(e: Expense): string { e.id }
  function SplitKey(s: Split): (string, string) { (s.expenseId, s.username) }
  function PaymentKey(p: Payment): (string, string) { (p.expenseId, p.username) }

  predicate HasUser(users: seq<User>, name: string) {
    exists u :: u in users && u.username == name
  }

  predicate HasGroup(groups: seq<Group>, id: string) {
    exists g :: g in groups && g.id == id
  }

  predicate HasExpense(expenses: seq<Expense>, id: string) {
    exists e :: e in expenses && e.id == id
  }

  predicate HasPayment(payments: seq<Payment>, eid: string, name: string) {
    exists p :: p in payments && p.expenseId == eid && p.username == name
  }

  /** Lookup of an expense by id: the first row with that id. */
  function FindExpense(expenses: seq<Expense>, id: string): (r: Option<Expense>)
    ensures r.Some? ==> r.value in expenses && r.value.id == id
    ensures r.None? <==> !HasExpense(expenses, id)
  {
    if expenses == [] then None
    else if expenses[0].id == id then Some(expenses[0])
    else
      assert expenses == [expenses[0]] + expenses[1..];
      FindExpense(expenses[1..], id)
  }

  /** Lookup of a group by id: the first row with that id. */
  function FindGroup(groups: seq<Group>, id: string): (r: Option<Group>)
    ensures r.Some? ==> r.value in groups && r.value.id == id
    ensures r.None? <==> !HasGroup(groups, id)
  {
    if groups == [] then None
    else if groups[0].id == id then Some(groups[0])
    else
      assert groups == [groups[0]] + groups[1..];
      FindGroup(groups[1..], id)
  }

  /** In a table with distinct ids, the row found is the one row with that id. */
  lemma FindExpenseUnique(expenses: seq<Expense>, e: Expense)
    requires DistinctBy(expenses, ExpenseKey) && e in expenses
    ensures FindExpense(expenses, e.id) == Some(e)
  {
    var f := FindExpense(expenses, e.id).value;
    var i :| 0 <= i < |expenses| && expenses[i] == e;
    var j :| 0 <= j < |expenses| && expenses[j] == f;
    if i != j {
      assert false;
    }
  }

  /** The member names of a group, in row order. */
  function GroupMembers(members: seq<Membership>, gid: string): (r: seq<string>)
    ensures forall n :: n in r <==> Membership(gid, n) in members
  {
    if members == [] then []
    else
      assert members == [members[0]] + members[1..];
      (if members[0].groupId == gid then [members[0].username] else []) + GroupMembers(members[1..], gid)
  }

  ghost predicate Distinct<T>(s: seq<T>) {
    forall i, j :: 0 <= i < j < |s| ==> s[i] != s[j]
  }

  /** Without duplicate memberships a group lists each member once. */
  lemma {:induction false} GroupMembersDistinct(members: seq<Membership>, gid: string)
    requires DistinctBy(members, MemberKey)
    ensures Distinct(GroupMembers(members, gid))
  {
    if members != [] {
      var rest := GroupMembers(members[1..], gid);
      GroupMembersDistinct(members[1..], gid);
      if members[0].groupId == gid {
        var r := GroupMembers(members, gid);
        assert r == [members[0].username] + rest;
        forall j | 0 < j < |r| ensures r[0] != r[j] {
          assert r[j] == rest[j - 1];
          assert Membership(gid, r[j]) in members[1..];
          var k :| 0 <= k < |members[1..]| && members[1..][k] == Membership(gid, r[j]);
          assert MemberKey(members[0]) != MemberKey(members[k + 1]);
        }
        forall i, j | 0 < i < j < |r| ensures r[i] != r[j] {
          assert r[i] == rest[i - 1] && r[j] == rest[j - 1];
        }
      }
    }
  }

  // ---------------------------------------------------------------------------
  // The equal split
  // ---------------------------------------------------------------------------

  /** The split type of the request, 'equal' when it gives none. */
  function SplitKind(splitType: Option<string>): string {
    if splitType.None? then "equal" else splitType.value
  }

  /** The rows the split loop inserts after visiting the members ms: one row per
      member other than the payer, each owing share. */
  function EqualSplits(eid: string, payer: string, share: real, ms: seq<string>): seq<Split>
    decreases |ms|
  {
    if ms == [] then []
    else EqualSplits(eid, payer, share, ms[..|ms| - 1]) +
         (if ms[|ms| - 1] == payer then [] else [Split(eid, ms[|ms| - 1], share)])
  }

  /** Every row belongs to the new expense, owes share and names a member other
      than the payer; every such member has a row, and only one when the member
      list has no duplicates. */
  lemma {:induction false} EqualSplitsSpec(eid: string, payer: string, share: real, ms: seq<string>)
    ensures forall s :: s in EqualSplits(eid, payer, share, ms) <==>
              s == Split(eid, s.username, share) && s.username in ms && s.username != payer
    ensures Distinct(ms) ==> DistinctBy(EqualSplits(eid, payer, share, ms), SplitKey)
    ensures Distinct(ms) ==>
              |EqualSplits(eid, payer, share, ms)| == if payer in ms then |ms| - 1 else |ms|
    decreases |ms|
  {
    if ms != [] {
      var init := ms[..|ms| - 1];
      var last := ms[|ms| - 1];
      EqualSplitsSpec(eid, payer, share, init);
      assert ms == init + [last];
      var r := EqualSplits(eid, payer, share, ms);
      if Distinct(ms) {
        assert Distinct(init) by {
          forall i, j | 0 <= i < j < |init| ensures init[i] != init[j] {
            assert init[i] == ms[i] && init[j] == ms[j];
          }
        }
        assert last !in init;
        var w := EqualSplits(eid, payer, share, init);
        if last != payer {
          forall i | 0 <= i < |w| ensures SplitKey(w[i]) != SplitKey(Split(eid, last, share)) {
            assert w[i] in w;
          }
          AppendDistinct(w, Split(eid, last, share), SplitKey);
        } else {
          assert r == w;
        }
      }
    }
  }

  /** The loop of `create_expense` that inserts one split row per member,
      skipping the payer. */
  method SplitLoop(eid: string, payer: string, share: real, ms: seq<string>) returns (rows: seq<Split>)
    ensures rows == EqualSplits(eid, payer, share, ms)
  {
    rows := [];
    for k := 0 to |ms|
      invariant rows == EqualSplits(eid, payer, share, ms[..k])
    {
      assert ms[..k + 1][..k] == ms[..k];
      if ms[k] != payer {
        rows := rows + [Split(eid, ms[k], share)];
      }
    }
    assert ms[..|ms|] == ms;
  }

  /** The split rows `create_expense` writes: the equal split when the split type
      is 'equal' and the group has members, and none otherwise. */
  lemma PositiveShare(amount: real, n: nat)
    requires amount > 0.0 && n > 0
    ensures amount / (n as real) > 0.0
  {
  }

  function SplitRows(eid: string, payer: string, amount: real, splitType: Option<string>,
                     ms: seq<string>): seq<Split>
  {
    if SplitKind(splitType) == "equal" && ms != [] then
      EqualSplits(eid, payer, amount / (|ms| as real), ms)
    else []
  }

  // ---------------------------------------------------------------------------
  // Payment status
  // ---------------------------------------------------------------------------

  /** `COUNT(DISTINCT es.username)` over the split rows of eid. */
  function SplitUsers(splits: seq<Split>, eid: string): set<string> {
    set s | s in splits && s.expenseId == eid :: s.username
  }

  /** `COUNT(DISTINCT p.username)` over the same rows left-joined to payments. */
  function PaidSplitUsers(splits: seq<Split>, payments: seq<Payment>, eid: string): set<string> {
    set s | s in splits && s.expenseId == eid && HasPayment(payments, eid, s.username) :: s.username
  }

  lemma SubsetCard<T>(a: set<T>, b: set<T>)
    requires a <= b && |a| == |b|
    ensures a == b
  {
    var d := b - a;
    assert b == a + d;
    assert a * d == {};
    assert |d| == 0;
  }

  /** Every user with a split row for the expense has a payment for it. */
  predicate AllPaid(splits: seq<Split>, payments: seq<Payment>, eid: string) {
    forall s :: s in splits && s.expenseId == eid ==> HasPayment(payments, eid, s.username)
  }

  /** The two counts agree exactly when every user with a split row for the
      expense has paid it; an expense without split rows counts as settled. */
  lemma SettledIffAllPaid(splits: seq<Split>, payments: seq<Payment>, eid: string)
    ensures |SplitUsers(splits, eid)| == |PaidSplitUsers(splits, payments, eid)| <==>
            AllPaid(splits, payments, eid)
  {
    var a := PaidSplitUsers(splits, payments, eid);
    var b := SplitUsers(splits, eid);
    assert a <= b;
    if |b| == |a| {
      SubsetCard(a, b);
      forall s | s in splits && s.expenseId == eid ensures HasPayment(payments, eid, s.username) {
        assert s.username in b;
        assert s.username in a;
      }
    }
    if AllPaid(splits, payments, eid) {
      assert b <= a;
      assert a == b;
    }
  }

  /** The two UPDATE statements: 'paid' when settled, else 'pending' becomes
      'partial' and any other status stays. */
  function NextStatus(st: Status, settled: bool): Status {
    if settled then Paid else if st == Pending then Partial else st
  }

  function Restatus(expenses: seq<Expense>, id: string, settled: bool): (r: seq<Expense>)
    ensures |r| == |expenses|
    ensures forall i :: 0 <= i < |r| ==>
              r[i] == if expenses[i].id == id
                      then expenses[i].(status := NextStatus(expenses[i].status, settled))
                      else expenses[i]
  {
    seq(|expenses|, i requires 0 <= i < |expenses| =>
      if expenses[i].id == id then expenses[i].(status := NextStatus(expenses[i].status, settled))
      else expenses[i])
  }

  // ---------------------------------------------------------------------------
  // Deletion
  // ---------------------------------------------------------------------------

  function ExpenseOther(id: string): Expense -> bool { (e: Expense) => e.id != id }
  function SplitOther(id: string): Split -> bool { (s: Split) => s.expenseId != id }
  function PaymentOther(id: string): Payment -> bool { (p: Payment) => p.expenseId != id }

  // ---------------------------------------------------------------------------
  // The invariant, on a snapshot of the six tables
  // ---------------------------------------------------------------------------

  datatype Db = Db(users: seq<User>, groups: seq<Group>, members: seq<Membership>,
                   expenses: seq<Expense>, splits: seq<Split>, payments: seq<Payment>)

  /** A split row is backed by its expense: the payer has no row, the user is a
      member of the expense's group, and the share is positive. */
  ghost predicate SplitBacked(s: Split, expenses: seq<Expense>, members: seq<Membership>) {
    s.amount > 0.0 &&
    exists e :: e in expenses && e.id == s.expenseId && e.paidBy != s.username &&
                Membership(e.groupId, s.username) in members
  }

  /** Primary keys, the unique payment key and the foreign keys of the schema,
      plus what the endpoints keep: no duplicate membership, positive amounts
      and no split row for an expense's payer. */
  ghost predicate Consistent(db: Db) {
    && DistinctBy(db.users, UserKey)
    && DistinctBy(db.groups, GroupKey)
    && (forall g :: g in db.groups ==> HasUser(db.users, g.createdBy))
    && DistinctBy(db.members, MemberKey)
    && (forall m :: m in db.members ==> HasGroup(db.groups, m.groupId) && HasUser(db.users, m.username))
    && DistinctBy(db.expenses, ExpenseKey)
    && (forall e :: e in db.expenses ==>
          e.amount > 0.0 && HasGroup(db.groups, e.groupId) && HasUser(db.users, e.paidBy))
    && DistinctBy(db.splits, SplitKey)
    && (forall s :: s in db.splits ==> SplitBacked(s, db.expenses, db.members))
    && DistinctBy(db.payments, PaymentKey)
    && (forall p :: p in db.payments ==>
          HasExpense(db.expenses, p.expenseId) && HasUser(db.users, p.username))
  }

  lemma RegisterKeeps(db: Db, u: User)
    requires Consistent(db) && !HasUser(db.users, u.username)
    ensures Consistent(db.(users := db.users + [u]))
  {
    forall i | 0 <= i < |db.users| ensures UserKey(db.users[i]) != UserKey(u) {
      assert db.users[i] in db.users;
    }
    AppendDistinct(db.users, u, UserKey);
    var users := db.users + [u];
    forall n | HasUser(db.users, n) ensures HasUser(users, n) {
      var x :| x in db.users && x.username == n;
      assert x in users;
    }
  }

  lemma CreateGroupKeeps(db: Db, g: Group)
    requires Consistent(db) && !HasGroup(db.groups, g.id) && HasUser(db.users, g.createdBy)
    ensures Consistent(db.(groups := db.groups + [g],
                           members := db.members + [Membership(g.id, g.createdBy)]))
  {
    var m := Membership(g.id, g.createdBy);
    forall i | 0 <= i < |db.groups| ensures GroupKey(db.groups[i]) != GroupKey(g) {
      assert db.groups[i] in db.groups;
    }
    AppendDistinct(db.groups, g, GroupKey);
    forall i | 0 <= i < |db.members| ensures MemberKey(db.members[i]) != MemberKey(m) {
      assert db.members[i] in db.members;
    }
    AppendDistinct(db.members, m, MemberKey);
    var groups, members := db.groups + [g], db.members + [m];
    forall n | HasGroup(db.groups, n) ensures HasGroup(groups, n) {
      var x :| x in db.groups && x.id == n;
      assert x in groups;
    }
    assert g in groups;
    forall s | s in db.splits ensures SplitBacked(s, db.expenses, members) {
      var x :| x in db.expenses && x.id == s.expenseId && x.paidBy != s.username &&
               Membership(x.groupId, s.username) in db.members;
    }
  }

  lemma AddMemberKeeps(db: Db, m: Membership)
    requires Consistent(db) && m !in db.members
    requires HasGroup(db.groups, m.groupId) && HasUser(db.users, m.username)
    ensures Consistent(db.(members := db.members + [m]))
  {
    forall i | 0 <= i < |db.members| ensures MemberKey(db.members[i]) != MemberKey(m) {
      assert db.members[i] in db.members;
    }
    AppendDistinct(db.members, m, MemberKey);
    var members := db.members + [m];
    forall s | s in db.splits ensures SplitBacked(s, db.expenses, members) {
      var x :| x in db.expenses && x.id == s.expenseId && x.paidBy != s.username &&
               Membership(x.groupId, s.username) in db.members;
    }
  }

  /** Split rows backed by the expense table stay backed when an expense is added. */
  lemma BackedAfterAppend(ss: seq<Split>, es: seq<Expense>, e: Expense, members: seq<Membership>)
    requires forall s :: s in ss ==> SplitBacked(s, es, members)
    ensures forall s :: s in ss ==> SplitBacked(s, es + [e], members)
  {
    forall s | s in ss ensures SplitBacked(s, es + [e], members) {
      var x :| x in es && x.id == s.expenseId && x.paidBy != s.username &&
               Membership(x.groupId, s.username) in members;
      assert x in es + [e];
    }
  }

  /** Payments keep their expense when an expense is added. */
  lemma PaymentsAfterAppend(ps: seq<Payment>, es: seq<Expense>, e: Expense)
    requires forall q :: q in ps ==> HasExpense(es, q.expenseId)
    ensures forall q :: q in ps ==> HasExpense(es + [e], q.expenseId)
  {
    forall q | q in ps ensures HasExpense(es + [e], q.expenseId) {
      var x :| x in es && x.id == q.expenseId;
      assert x in es + [e];
    }
  }

  /** The equal-split rows of a new expense are backed by it. */
  lemma NewRowsBacked(e: Expense, share: real, rows: seq<Split>, ms: seq<string>,
                      es: seq<Expense>, members: seq<Membership>)
    requires share > 0.0
    requires ms == GroupMembers(members, e.groupId)
    requires rows == EqualSplits(e.id, e.paidBy, share, ms)
    ensures forall s :: s in rows ==> SplitBacked(s, es + [e], members)
  {
    EqualSplitsSpec(e.id, e.paidBy, share, ms);
    assert e in es + [e];
  }

  /** A new expense id keeps the expense ids distinct, and its split rows, which
      name distinct members, keep the split keys distinct. */
  lemma NewExpenseKeys(es: seq<Expense>, ss: seq<Split>, e: Expense, rows: seq<Split>,
                       members: seq<Membership>, share: real)
    requires DistinctBy(es, ExpenseKey) && DistinctBy(ss, SplitKey) && DistinctBy(members, MemberKey)
    requires !HasExpense(es, e.id)
    requires forall s :: s in ss ==> SplitBacked(s, es, members)
    requires rows == [] || rows == EqualSplits(e.id, e.paidBy, share, GroupMembers(members, e.groupId))
    ensures DistinctBy(es + [e], ExpenseKey)
    ensures DistinctBy(ss + rows, SplitKey)
  {
    forall i | 0 <= i < |es| ensures ExpenseKey(es[i]) != ExpenseKey(e) {
      assert es[i] in es;
    }
    AppendDistinct(es, e, ExpenseKey);
    if rows != [] {
      var ms := GroupMembers(members, e.groupId);
      GroupMembersDistinct(members, e.groupId);
      EqualSplitsSpec(e.id, e.paidBy, share, ms);
      forall i, j | 0 <= i < |ss| && 0 <= j < |rows| ensures SplitKey(ss[i]) != SplitKey(rows[j]) {
        assert ss[i] in ss && rows[j] in rows;
      }
      ConcatDistinct(ss, rows, SplitKey);
    } else {
      assert ss + rows == ss;
    }
  }

  lemma CreateExpenseKeeps(db: Db, e: Expense, rows: seq<Split>, share: real)
    requires Consistent(db) && !HasExpense(db.expenses, e.id)
    requires e.amount > 0.0 && HasGroup(db.groups, e.groupId) && HasUser(db.users, e.paidBy)
    requires share > 0.0
    requires rows == [] || rows == EqualSplits(e.id, e.paidBy, share, GroupMembers(db.members, e.groupId))
    ensures Consistent(db.(expenses := db.expenses + [e], splits := db.splits + rows))
  {
    NewExpenseKeys(db.expenses, db.splits, e, rows, db.members, share);
    BackedAfterAppend(db.splits, db.expenses, e, db.members);
    if rows != [] {
      NewRowsBacked(e, share, rows, GroupMembers(db.members, e.groupId), db.expenses, db.members);
    }
    PaymentsAfterAppend(db.payments, db.expenses, e);
    var es := db.expenses + [e];
    forall x | x in es ensures x.amount > 0.0 && HasGroup(db.groups, x.groupId) && HasUser(db.users, x.paidBy) {
    }
  }

  lemma DeleteExpenseKeeps(db: Db, id: string)
    requires Consistent(db)
    ensures Consistent(db.(expenses := Keep(db.expenses, ExpenseOther(id)),
                           splits := Keep(db.splits, SplitOther(id)),
                           payments := Keep(db.payments, PaymentOther(id))))
  {
    var es := Keep(db.expenses, ExpenseOther(id));
    var ss := Keep(db.splits, SplitOther(id));
    var ps := Keep(db.payments, PaymentOther(id));
    KeepDistinct(db.expenses, ExpenseOther(id), ExpenseKey);
    KeepDistinct(db.splits, SplitOther(id), SplitKey);
    KeepDistinct(db.payments, PaymentOther(id), PaymentKey);
    forall s | s in ss ensures SplitBacked(s, es, db.members) {
      var x :| x in db.expenses && x.id == s.expenseId && x.paidBy != s.username &&
               Membership(x.groupId, s.username) in db.members;
      assert x in es;
    }
    forall q | q in ps ensures HasExpense(es, q.expenseId) {
      var x :| x in db.expenses && x.id == q.expenseId;
      assert x in es;
    }
  }

  /** Changing a status keeps ids, groups, payers and amounts. */
  lemma RestatusKeeps(db: Db, id: string, settled: bool)
    requires Consistent(db)
    ensures DistinctBy(Restatus(db.expenses, id, settled), ExpenseKey)
    ensures forall e :: e in Restatus(db.expenses, id, settled) ==>
              e.amount > 0.0 && HasGroup(db.groups, e.groupId) && HasUser(db.users, e.paidBy)
    ensures forall s :: s in db.splits ==> SplitBacked(s, Restatus(db.expenses, id, settled), db.members)
    ensures forall x :: HasExpense(db.expenses, x) ==> HasExpense(Restatus(db.expenses, id, settled), x)
  {
    RestatusDistinct(db.expenses, id, settled);
    RestatusValid(db.expenses, id, settled, db.groups, db.users);
    RestatusBacks(db.expenses, id, settled, db.splits, db.members);
    RestatusHas(db.expenses, id, settled);
  }

  lemma RestatusDistinct(es: seq<Expense>, id: string, settled: bool)
    requires DistinctBy(es, ExpenseKey)
    ensures DistinctBy(Restatus(es, id, settled), ExpenseKey)
  {
    var r := Restatus(es, id, settled);
    forall i, j | 0 <= i < j < |r| ensures ExpenseKey(r[i]) != ExpenseKey(r[j]) {
      assert ExpenseKey(es[i]) != ExpenseKey(es[j]);
    }
  }

  lemma RestatusValid(es: seq<Expense>, id: string, settled: bool, groups: seq<Group>, users: seq<User>)
    requires forall e :: e in es ==> e.amount > 0.0 && HasGroup(groups, e.groupId) && HasUser(users, e.paidBy)
    ensures forall e :: e in Restatus(es, id, settled) ==>
              e.amount > 0.0 && HasGroup(groups, e.groupId) && HasUser(users, e.paidBy)
  {
    var r := Restatus(es, id, settled);
    forall e | e in r ensures e.amount > 0.0 && HasGroup(groups, e.groupId) && HasUser(users, e.paidBy) {
      var i :| 0 <= i < |r| && r[i] == e;
      assert es[i] in es;
    }
  }

  lemma RestatusBacks(es: seq<Expense>, id: string, settled: bool, splits: seq<Split>,
                      members: seq<Membership>)
    requires forall s :: s in splits ==> SplitBacked(s, es, members)
    ensures forall s :: s in splits ==> SplitBacked(s, Restatus(es, id, settled), members)
  {
    var r := Restatus(es, id, settled);
    forall s | s in splits ensures SplitBacked(s, r, members) {
      var x :| x in es && x.id == s.expenseId && x.paidBy != s.username &&
               Membership(x.groupId, s.username) in members;
      var i :| 0 <= i < |es| && es[i] == x;
      assert r[i] in r;
    }
  }

  lemma RestatusHas(es: seq<Expense>, id: string, settled: bool)
    ensures forall x :: HasExpense(es, x) ==> HasExpense(Restatus(es, id, settled), x)
  {
    var r := Restatus(es, id, settled);
    forall x | HasExpense(es, x) ensures HasExpense(r, x) {
      var y :| y in es && y.id == x;
      var i :| 0 <= i < |es| && es[i] == y;
      assert r[i] in r;
    }
  }

  /** Recording a new payment for an existing expense and user and updating the
      expense's status keeps the tables consistent. */
  lemma PaymentKeeps(db: Db, p: Payment, settled: bool)
    requires Consistent(db) && !HasPayment(db.payments, p.expenseId, p.username)
    requires HasExpense(db.expenses, p.expenseId) && HasUser(db.users, p.username)
    ensures Consistent(db.(payments := db.payments + [p],
                           expenses := Restatus(db.expenses, p.expenseId, settled)))
  {
    RestatusKeeps(db, p.expenseId, settled);
    forall i | 0 <= i < |db.payments| ensures PaymentKey(db.payments[i]) != PaymentKey(p) {
      assert db.payments[i] in db.payments;
    }
    AppendDistinct(db.payments, p, PaymentKey);
  }

  // ---------------------------------------------------------------------------
  // The store
  // ---------------------------------------------------------------------------

  class Store {
    var users: seq<User>
    var groups: seq<Group>
    var members: seq<Membership>
    var expenses: seq<Expense>
    var splits: seq<Split>
    var payments: seq<Payment>

    /** The six tables as one value. */
    function Tables(): Db
      reads this
    {
      Db(users, groups, members, expenses, splits, payments)
    }

    ghost predicate Valid()
      reads this
    {
      Consistent(Tables())
    }

    /** An empty database. */
    constructor()
      ensures Tables() == Db([], [], [], [], [], [])
      ensures Valid()
    {
      users, groups, members := [], [], [];
      expenses, splits, payments := [], [], [];
    }

    /** `register_user`: both fields must be non-empty (they are not trimmed); a
        taken username is refused; otherwise the user is stored with the hash. */
    method RegisterUser(username: string, password: string, hash: string) returns (reply: Reply)
      requires Valid()
      modifies this
      ensures Valid()
      ensures reply ==
                if username == "" || password == "" then Failed(400, "Username and password required")
                else if HasUser(old(users), username) then Failed(409, "Username already exists")
                else Done(201, "User created")
      ensures reply.Failed? ==> Tables() == old(Tables())
      ensures reply.Done? ==> Tables() == old(Tables()).(users := old(users) + [User(username, hash)])
    {
      if username == "" || password == "" {
        return Failed(400, "Username and password required");
      }
      if HasUser(users, username) {
        return Failed(409, "Username already exists");
      }
      RegisterKeeps(Tables(), User(username, hash));
      users := users + [User(username, hash)];
      reply := Done(201, "User created");
    }

    /** `create_group`: name and creator are trimmed and required, the creator must
        exist, and the creator becomes the group's first member. `id` is the
        generated uuid; a clash with an existing id is a database error. */
    method CreateGroup(groupName: string, username: string, id: string) returns (reply: Reply)
      requires Valid()
      modifies this
      ensures Valid()
      ensures reply ==
                if Trim(groupName) == "" || Trim(username) == "" then
                  Failed(400, "Group name and username required")
                else if !HasUser(old(users), Trim(username)) then Failed(404, "User not found")
                else if HasGroup(old(groups), id) then Failed(500, DatabaseError)
                else Done(201, "Group created")
      ensures reply.Failed? ==> Tables() == old(Tables())
      ensures reply.Done? ==>
                Tables() == old(Tables()).(groups := old(groups) + [Group(id, Trim(groupName), Trim(username))],
                                           members := old(members) + [Membership(id, Trim(username))])
    {
      var name, user := Trim(groupName), Trim(username);
      if name == "" || user == "" {
        return Failed(400, "Group name and username required");
      }
      if !HasUser(users, user) {
        return Failed(404, "User not found");
      }
      if HasGroup(groups, id) {
        return Failed(500, DatabaseError);
      }
      CreateGroupKeeps(Tables(), Group(id, name, user));
      groups := groups + [Group(id, name, user)];
      members := members + [Membership(id, user)];
      reply := Done(201, "Group created");
    }

    /** `add_member_to_group`: the member name is trimmed (the group id is not);
        the group and the user must exist and the user must not be a member yet. */
    method AddMember(groupId: string, memberName: string) returns (reply: Reply)
      requires Valid()
      modifies this
      ensures Valid()
      ensures reply ==
                if groupId == "" || Trim(memberName) == "" then
                  Failed(400, "Group ID and member name required")
                else if !HasGroup(old(groups), groupId) then Failed(404, "Group not found")
                else if !HasUser(old(users), Trim(memberName)) then Failed(404, "User not found")
                else if Membership(groupId, Trim(memberName)) in old(members) then
                  Failed(409, "User is already a member")
                else Done(201, "Member added")
      ensures reply.Failed? ==> Tables() == old(Tables())
      ensures reply.Done? ==>
                Tables() == old(Tables()).(members := old(members) + [Membership(groupId, Trim(memberName))])
    {
      var name := Trim(memberName);
      if groupId == "" || name == "" {
        return Failed(400, "Group ID and member name required");
      }
      if !HasGroup(groups, groupId) {
        return Failed(404, "Group not found");
      }
      if !HasUser(users, name) {
        return Failed(404, "User not found");
      }
      if Membership(groupId, name) in members {
        return Failed(409, "User is already a member");
      }
      AddMemberKeeps(Tables(), Membership(groupId, name));
      members := members + [Membership(groupId, name)];
      reply := Done(201, "Member added");
    }

    /** `create_expense`: title, date, payer and notes are trimmed; group id, title
        and amount are required and the amount must be positive; the group and the
        payer must exist (the payer need not be a member). The new expense starts
        'pending'; with split type 'equal' every member but the payer gets a row
        owing amount / (number of members). `id` and `now` (the `%H:%M` clock
        reading) are supplied by the caller. */
    method CreateExpense(groupId: string, title: string, amount: Option<real>, date: string,
                         paidBy: string, notes: string, splitType: Option<string>,
                         id: string, now: string) returns (reply: Reply)
      requires Valid()
      modifies this
      ensures Valid()
      ensures reply ==
                if groupId == "" || Trim(title) == "" || amount.None? then
                  Failed(400, "Group ID, title, and amount required")
                else if amount.value <= 0.0 then Failed(400, "Amount must be greater than 0")
                else if !HasGroup(old(groups), groupId) then Failed(404, "Group not found")
                else if !HasUser(old(users), Trim(paidBy)) then
                  Failed(404, "User " + Trim(paidBy) + " not found")
                else if HasExpense(old(expenses), id) then Failed(500, DatabaseError)
                else Done(201, "Expense created")
      ensures reply.Failed? ==> Tables() == old(Tables())
      ensures reply.Done? ==>
                Tables() == old(Tables()).(
                  expenses := old(expenses) + [Expense(id, groupId, amount.value, Trim(title), Trim(notes),
                                                       Trim(date), now, Trim(paidBy), Pending)],
                  splits := old(splits) + SplitRows(id, Trim(paidBy), amount.value, splitType,
                                                    GroupMembers(old(members), groupId)))
    {
      var t, d, p, n := Trim(title), Trim(date), Trim(paidBy), Trim(notes);
      if groupId == "" || t == "" || amount.None? {
        return Failed(400, "Group ID, title, and amount required");
      }
      if amount.value <= 0.0 {
        return Failed(400, "Amount must be greater than 0");
      }
      if !HasGroup(groups, groupId) {
        return Failed(404, "Group not found");
      }
      if !HasUser(users, p) {
        return Failed(404, "User " + p + " not found");
      }
      if HasExpense(expenses, id) {
        return Failed(500, DatabaseError);
      }
      var e := Expense(id, groupId, amount.value, t, n, d, now, p, Pending);
      var ms := GroupMembers(members, groupId);
      var rows: seq<Split> := [];
      var share := 1.0;
      if SplitKind(splitType) == "equal" && ms != [] {
        share := amount.value / (|ms| as real);
        assert share > 0.0 by {
          PositiveShare(amount.value, |ms|);
        }
        rows := SplitLoop(id, p, share, ms);
      }
      assert rows == SplitRows(id, p, amount.value, splitType, ms);
      assert e.id == id && e.paidBy == p && e.groupId == groupId;
      assert rows == [] || rows == EqualSplits(e.id, e.paidBy, share, GroupMembers(members, e.groupId));
      Insert(e, rows, share);
      reply := Done(201, "Expense created");
    }

    /** The two INSERTs of `create_expense`: the expense row, then its split rows. */
    method Insert(e: Expense, rows: seq<Split>, share: real)
      requires Valid() && !HasExpense(expenses, e.id)
      requires e.amount > 0.0 && HasGroup(groups, e.groupId) && HasUser(users, e.paidBy)
      requires share > 0.0
      requires rows == [] || rows == EqualSplits(e.id, e.paidBy, share, GroupMembers(members, e.groupId))
      modifies this
      ensures Valid()
      ensures Tables() == old(Tables()).(expenses := old(expenses) + [e], splits := old(splits) + rows)
    {
      CreateExpenseKeeps(Tables(), e, rows, share);
      expenses := expenses + [e];
      splits := splits + rows;
    }

    /** `delete_expense`: removes the expense's split rows, its payments (the
        cascading foreign key) and the expense itself; an unknown id changes
        nothing and still succeeds. */
    method DeleteExpense(expenseId: string) returns (reply: Reply)
      requires Valid()
      modifies this
      ensures Valid()
      ensures reply ==
                if expenseId == "" then Failed(400, "Expense ID required") else Done(200, "Expense deleted")
      ensures reply.Failed? ==> Tables() == old(Tables())
      ensures reply.Done? ==>
                Tables() == old(Tables()).(expenses := Keep(old(expenses), ExpenseOther(expenseId)),
                                           splits := Keep(old(splits), SplitOther(expenseId)),
                                           payments := Keep(old(payments), PaymentOther(expenseId)))
    {
      if expenseId == "" {
        return Failed(400, "Expense ID required");
      }
      DeleteExpenseKeeps(Tables(), expenseId);
      splits := Keep(splits, SplitOther(expenseId));
      expenses := Keep(expenses, ExpenseOther(expenseId));
      payments := Keep(payments, PaymentOther(expenseId));
      reply := Done(200, "Expense deleted");
    }

    /** `make_payment`: the three fields must be truthy (an amount of 0 is not);
        a second payment for the same expense and user is refused and nothing is
        written; a payment naming an unknown expense or user is a database error.
        Otherwise the payment is recorded and the expense becomes 'paid' exactly
        when every user with a split row for it has now paid (SettledIffAllPaid
        turns the source's count comparison into this). */
    method MakePayment(expenseId: string, username: string, amount: Option<real>) returns (reply: Reply)
      requires Valid()
      modifies this
      ensures Valid()
      ensures reply ==
                if expenseId == "" || username == "" || amount.None? || amount.value == 0.0 then
                  Failed(400, "Missing required fields")
                else if HasPayment(old(payments), expenseId, username) then Failed(400, "Already paid")
                else if !HasExpense(old(expenses), expenseId) || !HasUser(old(users), username) then
                  Failed(500, DatabaseError)
                else Done(200, "Payment recorded")
      ensures reply.Failed? ==> Tables() == old(Tables())
      ensures reply.Done? ==>
                Tables() == old(Tables()).(
                  payments := old(payments) + [Payment(expenseId, username, amount.value, "manual")],
                  expenses := Restatus(old(expenses), expenseId, AllPaid(splits, payments, expenseId)))
    {
      if expenseId == "" || username == "" || amount.None? || amount.value == 0.0 {
        return Failed(400, "Missing required fields");
      }
      if HasPayment(payments, expenseId, username) {
        return Failed(400, "Already paid");
      }
      if !HasExpense(expenses, expenseId) || !HasUser(users, username) {
        return Failed(500, DatabaseError);
      }
      var pay := Payment(expenseId, username, amount.value, "manual");
      var settled := |SplitUsers(splits, expenseId)| ==
                     |PaidSplitUsers(splits, payments + [pay], expenseId)|;
      SettledIffAllPaid(splits, payments + [pay], expenseId);
      PaymentKeeps(Tables(), pay, settled);
      payments := payments + [pay];
      expenses := Restatus(expenses, expenseId, settled);
      reply := Done(200, "Payment recorded");
    }
  }
}
