/** The settlement engine of `settlements_suggest` (backend/app.py,
    `balances_for_group`): per-user balances from the group's expenses and split
    rows, then creditors and debtors sorted largest first and matched greedily with
    two indices, emitting `{from, to, amount}` transfers.

    Balances are exact reals (amounts and shares as stored); creditor and debtor
    amounts are integer cents after rounding, so the loop's `<= 0.005` test on
    what is left reads `<= 0` here: a whole number of cents is at most half a cent
    exactly when it is at most zero. */
module Settlement {
  import opened Tally
  import opened Sorting

  /** A creditor or debtor with the amount still to receive or to pay, in cents. */
  datatype Party = Party(name: string, amt: int)

  /** `{from, to, amount}`: `from` pays `to` the amount, in cents. */
  datatype Transfer = Transfer(from: string, to: string, amount: int)

  /** `round(v, 2)` expressed in cents, rounding halves up. */
  function RoundCents(v: real): int {
    (v * 100.0 + 0.5).Floor
  }

  lemma RoundCentsPositive(v: real)
    requires v > 0.005
    ensures RoundCents(v) >= 1
  {
    var r := v * 100.0 + 0.5;
    assert r > 1.0;
    assert r.Floor as real > r - 1.0;
  }

  // ---------------------------------------------------------------------------
  // Balances
  // ---------------------------------------------------------------------------

  function Negate(rows: seq<Entry>): (r: seq<Entry>)
    ensures forall x :: Get(r, x) == -Get(rows, x)
    ensures Keys(r) == Keys(rows)
  {
    if rows == [] then []
    else
      var r := [Entry(rows[0].key, -rows[0].total)] + Negate(rows[1..]);
      assert r[1..] == Negate(rows[1..]);
      r
  }

  /** The balance dict after both loops: first the payers' totals are added, then
      the split totals are subtracted, each key placed where it was first seen. */
  function Balances(paid: seq<Entry>, owed: seq<Entry>): seq<Entry> {
    Accumulate(Accumulate([], paid), Negate(owed))
  }

  /** A user's balance is what they paid minus what their split rows say they owe;
      exactly the users who paid or owe appear, each once. */
  lemma BalancesSpec(paid: seq<Entry>, owed: seq<Entry>)
    ensures DistinctKeys(Balances(paid, owed))
    ensures forall n :: Get(Balances(paid, owed), n) == Get(paid, n) - Get(owed, n)
    ensures forall n :: n in Keys(Balances(paid, owed)) <==> n in Keys(paid) || n in Keys(owed)
  {
    AccumulateSpec([], paid);
    AccumulateSpec(Accumulate([], paid), Negate(owed));
  }

  /** The two loops of `balances_for_group` that fill `bal`. */
  method BuildBalances(paid: seq<Entry>, owed: seq<Entry>) returns (bal: seq<Entry>)
    ensures bal == Balances(paid, owed)
    ensures DistinctKeys(bal)
    ensures forall n :: Get(bal, n) == Get(paid, n) - Get(owed, n)
  {
    bal := [];
    for i := 0 to |paid|
      invariant bal == Accumulate([], paid[..i])
    {
      AccumulatePrefix([], paid, i);
      bal := Add(bal, paid[i].key, paid[i].total);
    }
    assert paid[..|paid|] == paid;
    ghost var start := bal;
    var neg := Negate(owed);
    for i := 0 to |neg|
      invariant bal == Accumulate(start, neg[..i])
    {
      AccumulatePrefix(start, neg, i);
      bal := Add(bal, neg[i].key, neg[i].total);
    }
    assert neg[..|neg|] == neg;
    BalancesSpec(paid, owed);
  }

  // ---------------------------------------------------------------------------
  // Creditors and debtors
  // ---------------------------------------------------------------------------

  /** The creditors: users whose balance exceeds half a cent, with it in cents, in balance order. */
  function Creditors(bal: seq<Entry>): (r: seq<Party>)
    ensures forall p :: p in r ==> p.amt >= 1
    ensures forall p :: p in r <==>
              exists e :: e in bal && e.total > 0.005 && p == Party(e.key, RoundCents(e.total))
  {
    if bal == [] then []
    else
      var e := bal[0];
      var rest := Creditors(bal[1..]);
      assert bal == [e] + bal[1..];
      if e.total > 0.005 then
        RoundCentsPositive(e.total);
        [Party(e.key, RoundCents(e.total))] + rest
      else rest
  }

  /** The debtors: users whose balance is below minus half a cent, with the debt in cents, in balance order. */
  function Debtors(bal: seq<Entry>): (r: seq<Party>)
    ensures forall p :: p in r ==> p.amt >= 1
    ensures forall p :: p in r <==>
              exists e :: e in bal && e.total < -0.005 && p == Party(e.key, RoundCents(-e.total))
  {
    if bal == [] then []
    else
      var e := bal[0];
      var rest := Debtors(bal[1..]);
      assert bal == [e] + bal[1..];
      if e.total < -0.005 then
        RoundCentsPositive(-e.total);
        [Party(e.key, RoundCents(-e.total))] + rest
      else rest
  }

  /** The amount parties are sorted by, largest first. */
  function AmtKey(p: Party): real { p.amt as real }

  /** Sort by amount, largest first, ties kept in balance-dict order. */
  function Largest(ps: seq<Party>): seq<Party> {
    SortDesc(ps, AmtKey)
  }

  // ---------------------------------------------------------------------------
  // The greedy matching
  // ---------------------------------------------------------------------------

  function Min(a: int, b: int): int { if a <= b then a else b }

  /** The state after one turn of the `while` loop on the parties still in play:
      the head party has `pay` subtracted and leaves once nothing is left. */
  function AfterPay(ps: seq<Party>, pay: int): (r: seq<Party>)
    requires ps != []
    ensures |r| <= |ps|
  {
    var left := if pay > 0 then ps[0].amt - pay else ps[0].amt;
    if left <= 0 then ps[1..] else [Party(ps[0].name, left)] + ps[1..]
  }

  /** The transfers the two-index loop emits
      for the remaining debtors ds and creditors cs. */
  function Greedy(ds: seq<Party>, cs: seq<Party>): seq<Transfer>
    decreases |ds| + |cs|
  {
    if ds == [] || cs == [] then []
    else
      var pay := Min(ds[0].amt, cs[0].amt);
      var t := if pay > 0 then [Transfer(ds[0].name, cs[0].name, pay)] else [];
      assert |AfterPay(ds, pay)| < |ds| || |AfterPay(cs, pay)| < |cs|;
      t + Greedy(AfterPay(ds, pay), AfterPay(cs, pay))
  }

  predicate AllPositive(ps: seq<Party>) {
    forall i :: 0 <= i < |ps| ==> ps[i].amt >= 1
  }

  function Names(ps: seq<Party>): set<string> {
    set p | p in ps :: p.name
  }

  /** Sum of the amounts of the parties named n. */
  function AmountOf(ps: seq<Party>, n: string): int {
    if ps == [] then 0 else (if ps[0].name == n then ps[0].amt else 0) + AmountOf(ps[1..], n)
  }

  function SumAmt(ps: seq<Party>): int {
    if ps == [] then 0 else ps[0].amt + SumAmt(ps[1..])
  }

  /** Total that n pays over the transfers. */
  function PaidBy(ts: seq<Transfer>, n: string): int {
    if ts == [] then 0 else (if ts[0].from == n then ts[0].amount else 0) + PaidBy(ts[1..], n)
  }

  /** Total that n receives over the transfers. */
  function ReceivedBy(ts: seq<Transfer>, n: string): int {
    if ts == [] then 0 else (if ts[0].to == n then ts[0].amount else 0) + ReceivedBy(ts[1..], n)
  }

  function SumTransfers(ts: seq<Transfer>): int {
    if ts == [] then 0 else ts[0].amount + SumTransfers(ts[1..])
  }

  lemma {:induction false} PaidByAppend(a: seq<Transfer>, b: seq<Transfer>, n: string)
    ensures PaidBy(a + b, n) == PaidBy(a, n) + PaidBy(b, n)
    ensures ReceivedBy(a + b, n) == ReceivedBy(a, n) + ReceivedBy(b, n)
    ensures SumTransfers(a + b) == SumTransfers(a) + SumTransfers(b)
  {
    if a == [] {
      assert a + b == b;
    } else {
      assert (a + b)[0] == a[0];
      assert (a + b)[1..] == a[1..] + b;
      PaidByAppend(a[1..], b, n);
    }
  }

  /** What one turn does to the amounts: every name keeps its amount except the
      head's, which loses what was paid; the head leaves exactly when it is paid
      off; positivity is kept. */
  lemma AfterPaySpec(ps: seq<Party>, pay: int, n: string)
    requires ps != [] && AllPositive(ps) && 0 < pay <= ps[0].amt
    ensures AmountOf(AfterPay(ps, pay), n) == AmountOf(ps, n) - (if ps[0].name == n then pay else 0)
    ensures SumAmt(AfterPay(ps, pay)) == SumAmt(ps) - pay
    ensures AllPositive(AfterPay(ps, pay))
  {
    var left := ps[0].amt - pay;
    if left > 0 {
      var r := [Party(ps[0].name, left)] + ps[1..];
      assert r[1..] == ps[1..];
    }
  }

  /** Every emitted transfer has a positive amount and goes from a debtor to a
      creditor. */
  lemma {:induction false} GreedyShape(ds: seq<Party>, cs: seq<Party>)
    ensures forall t :: t in Greedy(ds, cs) ==>
              t.amount > 0 && t.from in Names(ds) && t.to in Names(cs)
    decreases |ds| + |cs|
  {
    if ds != [] && cs != [] {
      var pay := Min(ds[0].amt, cs[0].amt);
      var ds', cs' := AfterPay(ds, pay), AfterPay(cs, pay);
      GreedyShape(ds', cs');
      assert Names(ds') <= Names(ds) by {
        forall p | p in ds' ensures p.name in Names(ds) {
          if p !in ds[1..] {
            assert p.name == ds[0].name;
            assert ds[0] in ds;
          } else {
            var k :| 0 <= k < |ds[1..]| && ds[1..][k] == p;
            assert ds[k + 1] in ds;
          }
        }
      }
      assert Names(cs') <= Names(cs) by {
        forall p | p in cs' ensures p.name in Names(cs) {
          if p !in cs[1..] {
            assert p.name == cs[0].name;
            assert cs[0] in cs;
          } else {
            var k :| 0 <= k < |cs[1..]| && cs[1..][k] == p;
            assert cs[k + 1] in cs;
          }
        }
      }
      assert ds[0] in ds && cs[0] in cs;
    }
  }

  /** The loop stops as soon as one side is exhausted, and emits at most one
      transfer fewer than there are parties. */
  lemma {:induction false} GreedyCount(ds: seq<Party>, cs: seq<Party>)
    ensures ds == [] || cs == [] ==> Greedy(ds, cs) == []
    ensures |Greedy(ds, cs)| <= if ds == [] || cs == [] then 0 else |ds| + |cs| - 1
    decreases |ds| + |cs|
  {
    if ds != [] && cs != [] {
      var pay := Min(ds[0].amt, cs[0].amt);
      GreedyCount(AfterPay(ds, pay), AfterPay(cs, pay));
    }
  }

  /** No debtor pays more than it owes and no creditor receives more than it is
      owed; the money moved is the smaller of the two sides' totals. */
  lemma {:induction false} GreedyBounds(ds: seq<Party>, cs: seq<Party>)
    requires AllPositive(ds) && AllPositive(cs)
    ensures forall n :: PaidBy(Greedy(ds, cs), n) <= AmountOf(ds, n)
    ensures forall n :: ReceivedBy(Greedy(ds, cs), n) <= AmountOf(cs, n)
    ensures SumTransfers(Greedy(ds, cs)) == Min(SumAmt(ds), SumAmt(cs))
    decreases |ds| + |cs|
  {
    if ds == [] || cs == [] {
      NonNegative(ds);
      NonNegative(cs);
    } else {
      var pay := Min(ds[0].amt, cs[0].amt);
      var ds', cs' := AfterPay(ds, pay), AfterPay(cs, pay);
      var t := [Transfer(ds[0].name, cs[0].name, pay)];
      forall n ensures AmountOf(ds', n) == AmountOf(ds, n) - (if ds[0].name == n then pay else 0)
                    && AmountOf(cs', n) == AmountOf(cs, n) - (if cs[0].name == n then pay else 0) {
        AfterPaySpec(ds, pay, n);
        AfterPaySpec(cs, pay, n);
      }
      AfterPaySpec(ds, pay, "");
      AfterPaySpec(cs, pay, "");
      GreedyBounds(ds', cs');
      assert Greedy(ds, cs) == t + Greedy(ds', cs');
      forall n ensures PaidBy(Greedy(ds, cs), n) <= AmountOf(ds, n)
                    && ReceivedBy(Greedy(ds, cs), n) <= AmountOf(cs, n) {
        PaidByAppend(t, Greedy(ds', cs'), n);
      }
      PaidByAppend(t, Greedy(ds', cs'), "");
    }
  }

  lemma {:induction false} NonNegative(ps: seq<Party>)
    requires AllPositive(ps)
    ensures SumAmt(ps) >= 0
    ensures ps != [] ==> SumAmt(ps) > 0
    ensures forall n :: AmountOf(ps, n) >= 0
  {
    if ps != [] {
      NonNegative(ps[1..]);
    }
  }

  /** When the debts do not exceed the credits, every debtor pays exactly what it
      owes; symmetrically for the creditors. */
  lemma {:induction false} GreedySettles(ds: seq<Party>, cs: seq<Party>)
    requires AllPositive(ds) && AllPositive(cs)
    ensures SumAmt(ds) <= SumAmt(cs) ==> forall n :: PaidBy(Greedy(ds, cs), n) == AmountOf(ds, n)
    ensures SumAmt(cs) <= SumAmt(ds) ==> forall n :: ReceivedBy(Greedy(ds, cs), n) == AmountOf(cs, n)
    decreases |ds| + |cs|
  {
    NonNegative(ds);
    NonNegative(cs);
    if ds == [] || cs == [] {
      forall n ensures AmountOf([], n) == 0 { }
    } else {
      var pay := Min(ds[0].amt, cs[0].amt);
      var ds', cs' := AfterPay(ds, pay), AfterPay(cs, pay);
      var t := [Transfer(ds[0].name, cs[0].name, pay)];
      forall n ensures AmountOf(ds', n) == AmountOf(ds, n) - (if ds[0].name == n then pay else 0)
                    && AmountOf(cs', n) == AmountOf(cs, n) - (if cs[0].name == n then pay else 0) {
        AfterPaySpec(ds, pay, n);
        AfterPaySpec(cs, pay, n);
      }
      AfterPaySpec(ds, pay, "");
      AfterPaySpec(cs, pay, "");
      GreedySettles(ds', cs');
      assert Greedy(ds, cs) == t + Greedy(ds', cs');
      forall n ensures PaidBy(Greedy(ds, cs), n) == PaidBy(t, n) + PaidBy(Greedy(ds', cs'), n)
                    && ReceivedBy(Greedy(ds, cs), n) == ReceivedBy(t, n) + ReceivedBy(Greedy(ds', cs'), n) {
        PaidByAppend(t, Greedy(ds', cs'), n);
      }
    }
  }

  /** The head of ps after paying pay, as the loop writes it back into the list. */
  function Paid(p: Party, pay: int): Party {
    if pay > 0 then p.(amt := p.amt - pay) else p
  }

  lemma AppendAssoc<T>(a: seq<T>, b: seq<T>, c: seq<T>)
    ensures (a + b) + c == a + (b + c)
  {
  }

  /** The loop read literally: indices i and j into the lists d and c, whose
      head amounts are overwritten after each payment. */
  function GreedyAt(d: seq<Party>, c: seq<Party>, i: nat, j: nat): seq<Transfer>
    requires i <= |d| && j <= |c|
    decreases |d| - i + |c| - j
  {
    if i == |d| || j == |c| then []
    else
      var pay := Min(d[i].amt, c[j].amt);
      var d', c' := d[i := Paid(d[i], pay)], c[j := Paid(c[j], pay)];
      var i' := if d'[i].amt <= 0 then i + 1 else i;
      var j' := if c'[j].amt <= 0 then j + 1 else j;
      (if pay > 0 then [Transfer(d[i].name, c[j].name, pay)] else []) + GreedyAt(d', c', i', j')
  }

  /** Paying at index i and reading from the index the loop then stands at gives
      the list Greedy continues with. */
  lemma AfterPayAt(d: seq<Party>, i: nat, pay: int)
    requires i < |d|
    ensures var d' := d[i := Paid(d[i], pay)];
            AfterPay(d[i..], pay) == if d'[i].amt <= 0 then d'[i + 1..] else d'[i..]
  {
    var d' := d[i := Paid(d[i], pay)];
    assert d'[i + 1..] == d[i..][1..];
    assert d'[i..] == [d'[i]] + d[i..][1..];
  }

  /** Reading the lists through the indices is running Greedy on what remains. */
  lemma {:induction false} GreedyAtRemaining(d: seq<Party>, c: seq<Party>, i: nat, j: nat)
    requires i <= |d| && j <= |c|
    ensures GreedyAt(d, c, i, j) == Greedy(d[i..], c[j..])
    decreases |d| - i + |c| - j
  {
    if i < |d| && j < |c| {
      var pay := Min(d[i].amt, c[j].amt);
      var d', c' := d[i := Paid(d[i], pay)], c[j := Paid(c[j], pay)];
      var i' := if d'[i].amt <= 0 then i + 1 else i;
      var j' := if c'[j].amt <= 0 then j + 1 else j;
      GreedyAtRemaining(d', c', i', j');
      AfterPayAt(d, i, pay);
      AfterPayAt(c, j, pay);
      assert d[i..][0] == d[i] && c[j..][0] == c[j];
    }
  }

  /** The `while` loop itself, with two indices into the lists, whose `amt`
      entries it decrements as it goes. */
  method Settle(debtors: seq<Party>, creditors: seq<Party>) returns (transfers: seq<Transfer>)
    ensures transfers == Greedy(debtors, creditors)
  {
    var d, c := debtors, creditors;
    transfers := [];
    var i, j := 0, 0;
    while i < |d| && j < |c|
      invariant 0 <= i <= |d| && 0 <= j <= |c|
      invariant transfers + GreedyAt(d, c, i, j) == GreedyAt(debtors, creditors, 0, 0)
      decreases |d| - i + |c| - j
    {
      ghost var d0, c0, i0, j0, before := d, c, i, j, transfers;
      var pay := Min(d[i].amt, c[j].amt);
      ghost var emitted := if pay > 0 then [Transfer(d[i].name, c[j].name, pay)] else [];
      if pay > 0 {
        transfers := transfers + [Transfer(d[i].name, c[j].name, pay)];
        d := d[i := d[i].(amt := d[i].amt - pay)];
        c := c[j := c[j].(amt := c[j].amt - pay)];
      }
      assert d == d0[i0 := Paid(d0[i0], pay)] && c == c0[j0 := Paid(c0[j0], pay)];
      if d[i].amt <= 0 {
        i := i + 1;
      }
      if c[j].amt <= 0 {
        j := j + 1;
      }
      assert GreedyAt(d0, c0, i0, j0) == emitted + GreedyAt(d, c, i, j);
      assert transfers == before + emitted;
      AppendAssoc(before, emitted, GreedyAt(d, c, i, j));
    }
    GreedyAtRemaining(debtors, creditors, 0, 0);
    assert debtors[0..] == debtors && creditors[0..] == creditors;
  }

  // ---------------------------------------------------------------------------
  // The whole suggestion for one group
  // ---------------------------------------------------------------------------

  /** The transfers suggested for the balance dict bal. */
  function Plan(bal: seq<Entry>): seq<Transfer> {
    Greedy(Largest(Debtors(bal)), Largest(Creditors(bal)))
  }

  /** `balances_for_group` from the two aggregate queries to the transfer list. */
  method SuggestTransfers(paid: seq<Entry>, owed: seq<Entry>) returns (transfers: seq<Transfer>)
    ensures transfers == Plan(Balances(paid, owed))
  {
    var bal := BuildBalances(paid, owed);
    var creditors := Largest(Creditors(bal));
    var debtors := Largest(Debtors(bal));
    transfers := Settle(debtors, creditors);
  }

  /** What a debtor owes in cents, 0 for a user who is not a debtor. */
  function DebtOf(bal: seq<Entry>, n: string): int {
    var v := Get(bal, n);
    if v < -0.005 then RoundCents(-v) else 0
  }

  /** What a creditor is owed in cents, 0 for a user who is not a creditor. */
  function CreditOf(bal: seq<Entry>, n: string): int {
    var v := Get(bal, n);
    if v > 0.005 then RoundCents(v) else 0
  }

  lemma {:induction false} AmountOfInsert(x: Party, s: seq<Party>, n: string)
    ensures AmountOf(InsertDesc(x, s, AmtKey), n) == AmountOf([x] + s, n)
    ensures SumAmt(InsertDesc(x, s, AmtKey)) == SumAmt([x] + s)
  {
    if s != [] && AmtKey(x) < AmtKey(s[0]) {
      AmountOfInsert(x, s[1..], n);
      var r := [s[0]] + InsertDesc(x, s[1..], AmtKey);
      assert r[1..] == InsertDesc(x, s[1..], AmtKey);
      assert ([x] + s)[1..] == s;
      assert ([x] + s[1..])[1..] == s[1..];
    }
  }

  /** Sorting moves parties around but changes no one's amount. */
  lemma {:induction false} AmountOfLargest(s: seq<Party>, n: string)
    ensures AmountOf(Largest(s), n) == AmountOf(s, n)
    ensures SumAmt(Largest(s)) == SumAmt(s)
  {
    if s != [] {
      AmountOfLargest(s[1..], n);
      AmountOfInsert(s[0], Largest(s[1..]), n);
      assert s == [s[0]] + s[1..];
      assert ([s[0]] + Largest(s[1..]))[1..] == Largest(s[1..]);
    }
  }

  lemma LargestPositive(s: seq<Party>)
    requires AllPositive(s)
    ensures AllPositive(Largest(s))
  {
    forall i | 0 <= i < |Largest(s)| ensures Largest(s)[i].amt >= 1 {
      assert Largest(s)[i] in multiset(s);
    }
  }

  lemma {:induction false} NamesOfParties(bal: seq<Entry>)
    ensures forall p :: p in Debtors(bal) ==> p.name in Keys(bal)
    ensures forall p :: p in Creditors(bal) ==> p.name in Keys(bal)
  {
    forall p | p in Debtors(bal) ensures p.name in Keys(bal) {
      var e :| e in bal && e.total < -0.005 && p == Party(e.key, RoundCents(-e.total));
      var k :| 0 <= k < |bal| && bal[k] == e;
      assert Keys(bal)[k] == e.key;
    }
    forall p | p in Creditors(bal) ensures p.name in Keys(bal) {
      var e :| e in bal && e.total > 0.005 && p == Party(e.key, RoundCents(e.total));
      var k :| 0 <= k < |bal| && bal[k] == e;
      assert Keys(bal)[k] == e.key;
    }
  }

  lemma {:induction false} AmountOfAbsent(ps: seq<Party>, n: string)
    requires forall p :: p in ps ==> p.name != n
    ensures AmountOf(ps, n) == 0
  {
    if ps != [] {
      assert ps[0] in ps;
      AmountOfAbsent(ps[1..], n);
    }
  }

  /** With distinct keys, the parties carry exactly each user's rounded debt or
      credit. */
  lemma {:induction false} PartiesAmounts(bal: seq<Entry>, n: string)
    requires DistinctKeys(bal)
    ensures AmountOf(Debtors(bal), n) == DebtOf(bal, n)
    ensures AmountOf(Creditors(bal), n) == CreditOf(bal, n)
  {
    if bal == [] {
    } else {
      var e := bal[0];
      var rest := bal[1..];
      assert bal == [e] + rest;
      PartiesAmounts(rest, n);
      var ds := Debtors(bal);
      var cs := Creditors(bal);
      if e.total < -0.005 {
        assert ds[1..] == Debtors(rest);
      } else {
        assert ds == Debtors(rest);
      }
      if e.total > 0.005 {
        assert cs[1..] == Creditors(rest);
      } else {
        assert cs == Creditors(rest);
      }
      if e.key == n {
        assert n !in Keys(rest);
        GetAbsent(rest, n);
        NamesOfParties(rest);
        AmountOfAbsent(Debtors(rest), n);
        AmountOfAbsent(Creditors(rest), n);
      }
    }
  }

  /** Total of what the debtors owe and of what the creditors are owed, in cents. */
  function TotalDebt(bal: seq<Entry>): int { SumAmt(Debtors(bal)) }
  function TotalCredit(bal: seq<Entry>): int { SumAmt(Creditors(bal)) }

  /** A debtor's balance is below -0.005 and a creditor's above 0.005. */
  lemma PartyBalance(bal: seq<Entry>, p: Party)
    requires DistinctKeys(bal)
    ensures p in Debtors(bal) ==> Get(bal, p.name) < -0.005
    ensures p in Creditors(bal) ==> Get(bal, p.name) > 0.005
  {
    if p in Debtors(bal) {
      var e :| e in bal && e.total < -0.005 && p == Party(e.key, RoundCents(-e.total));
      var k :| 0 <= k < |bal| && bal[k] == e;
      GetDistinct(bal, k);
    }
    if p in Creditors(bal) {
      var e :| e in bal && e.total > 0.005 && p == Party(e.key, RoundCents(e.total));
      var k :| 0 <= k < |bal| && bal[k] == e;
      GetDistinct(bal, k);
    }
  }

  /** The sorted lists hold positive amounts that add up, name by name, to the
      rounded debts and credits. */
  lemma SortedParties(bal: seq<Entry>)
    requires DistinctKeys(bal)
    ensures AllPositive(Largest(Debtors(bal))) && AllPositive(Largest(Creditors(bal)))
    ensures SumAmt(Largest(Debtors(bal))) == TotalDebt(bal)
    ensures SumAmt(Largest(Creditors(bal))) == TotalCredit(bal)
    ensures forall n :: AmountOf(Largest(Debtors(bal)), n) == DebtOf(bal, n)
    ensures forall n :: AmountOf(Largest(Creditors(bal)), n) == CreditOf(bal, n)
  {
    assert AllPositive(Debtors(bal)) by {
      forall i | 0 <= i < |Debtors(bal)| ensures Debtors(bal)[i].amt >= 1 {
        assert Debtors(bal)[i] in Debtors(bal);
      }
    }
    assert AllPositive(Creditors(bal)) by {
      forall i | 0 <= i < |Creditors(bal)| ensures Creditors(bal)[i].amt >= 1 {
        assert Creditors(bal)[i] in Creditors(bal);
      }
    }
    LargestPositive(Debtors(bal));
    LargestPositive(Creditors(bal));
    AmountOfLargest(Debtors(bal), "");
    AmountOfLargest(Creditors(bal), "");
    forall n ensures AmountOf(Largest(Debtors(bal)), n) == DebtOf(bal, n)
                  && AmountOf(Largest(Creditors(bal)), n) == CreditOf(bal, n) {
      AmountOfLargest(Debtors(bal), n);
      AmountOfLargest(Creditors(bal), n);
      PartiesAmounts(bal, n);
    }
  }

  /** Each suggested transfer has a positive amount and goes from a user whose
      balance is below -0.005 to a user whose balance is above 0.005. */
  lemma PlanShape(bal: seq<Entry>)
    requires DistinctKeys(bal)
    ensures forall t :: t in Plan(bal) ==>
              t.amount > 0 && Get(bal, t.from) < -0.005 && Get(bal, t.to) > 0.005
  {
    var ds, cs := Largest(Debtors(bal)), Largest(Creditors(bal));
    GreedyShape(ds, cs);
    forall t | t in Plan(bal)
      ensures Get(bal, t.from) < -0.005 && Get(bal, t.to) > 0.005
    {
      var p :| p in ds && p.name == t.from;
      assert p in multiset(Debtors(bal));
      PartyBalance(bal, p);
      var q :| q in cs && q.name == t.to;
      assert q in multiset(Creditors(bal));
      PartyBalance(bal, q);
    }
  }

  /** No debtor pays more than its rounded debt and no creditor receives more than
      its rounded credit; the money moved is the smaller of total debt and total
      credit, so when the debts do not exceed the credits (as with a single payer)
      every debtor pays exactly its rounded debt, and symmetrically. */
  lemma PlanAmounts(bal: seq<Entry>)
    requires DistinctKeys(bal)
    ensures forall n :: PaidBy(Plan(bal), n) <= DebtOf(bal, n)
    ensures forall n :: ReceivedBy(Plan(bal), n) <= CreditOf(bal, n)
    ensures SumTransfers(Plan(bal)) == Min(TotalDebt(bal), TotalCredit(bal))
    ensures TotalDebt(bal) <= TotalCredit(bal) ==> forall n :: PaidBy(Plan(bal), n) == DebtOf(bal, n)
    ensures TotalCredit(bal) <= TotalDebt(bal) ==> forall n :: ReceivedBy(Plan(bal), n) == CreditOf(bal, n)
  {
    SortedParties(bal);
    GreedyBounds(Largest(Debtors(bal)), Largest(Creditors(bal)));
    GreedySettles(Largest(Debtors(bal)), Largest(Creditors(bal)));
  }

  /** At most |debtors| + |creditors| - 1 transfers, none when either side is empty. */
  lemma PlanCount(bal: seq<Entry>)
    ensures |Plan(bal)| <= if Debtors(bal) == [] || Creditors(bal) == [] then 0
                           else |Debtors(bal)| + |Creditors(bal)| - 1
  {
    GreedyCount(Largest(Debtors(bal)), Largest(Creditors(bal)));
  }

  /** Both lists are in descending amount order, and parties with equal amounts
      keep their order in the balance dict. */
  lemma LargestSpec(ps: seq<Party>)
    ensures SortedDesc(Largest(ps), AmtKey)
    ensures multiset(Largest(ps)) == multiset(ps)
    ensures forall v :: WithKey(Largest(ps), AmtKey, v) == WithKey(ps, AmtKey, v)
  {
    SortDescSpec(ps, AmtKey);
  }

  // ---------------------------------------------------------------------------
  // Two concrete groups
  // ---------------------------------------------------------------------------

  /** Group {A, B, C}; A pays 30 split equally. The split rows are B 10 and C 10
      (no row for the payer), so A is credited 30 and B and C each owe 10. */
  lemma SinglePayerBalances()
    ensures Balances([Entry("A", 30.0)], [Entry("B", 10.0), Entry("C", 10.0)])
              == [Entry("A", 30.0), Entry("B", -10.0), Entry("C", -10.0)]
  {
    var a, b, c := Entry("A", 30.0), Entry("B", -10.0), Entry("C", -10.0);
    assert Accumulate([], [a]) == [a] by {
      assert Add([], "A", 30.0) == [a];
      assert [a][1..] == [];
    }
    assert Negate([Entry("B", 10.0), Entry("C", 10.0)]) == [b, c];
    assert Add([a], "B", -10.0) == [a, b];
    assert Add([b], "C", -10.0) == [b, c];
    assert Add([a, b], "C", -10.0) == [a, b, c] by {
      assert [a, b][1..] == [b];
    }
    assert [b, c][1..] == [c] && [c][1..] == [];
    assert Accumulate([a, b], [c]) == [a, b, c];
  }

  /** A pays 30 split equally with B and C: A is owed 30, and the debtors, tied
      at 10, pay in balance order and settle in full. */
  lemma SinglePayerPlan()
    ensures Balances([Entry("A", 30.0)], [Entry("B", 10.0), Entry("C", 10.0)])
              == [Entry("A", 30.0), Entry("B", -10.0), Entry("C", -10.0)]
    ensures Plan(Balances([Entry("A", 30.0)], [Entry("B", 10.0), Entry("C", 10.0)]))
              == [Transfer("B", "A", 1000), Transfer("C", "A", 1000)]
  {
    SinglePayerBalances();
    SinglePayerParties();
    SinglePayerGreedy();
  }

  /** A is owed 30.00 and B and C each owe 10.00, in cents. */
  lemma SinglePayerParties()
    ensures var bal := [Entry("A", 30.0), Entry("B", -10.0), Entry("C", -10.0)];
            && Creditors(bal) == [Party("A", 3000)]
            && Debtors(bal) == [Party("B", 1000), Party("C", 1000)]
  {
    var a, b, c := Entry("A", 30.0), Entry("B", -10.0), Entry("C", -10.0);
    var bal := [a, b, c];
    assert bal[1..] == [b, c] && bal[1..][1..] == [c] && [c][1..] == [];
    assert Creditors([b, c]) == [] by {
      assert Creditors([c]) == [];
    }
    assert Creditors(bal) == [Party("A", 3000)] by {
      assert RoundCents(30.0) == 3000;
    }
    assert Debtors(bal) == [Party("B", 1000), Party("C", 1000)] by {
      assert RoundCents(10.0) == 1000;
      assert Debtors([c]) == [Party("C", 1000)];
      assert Debtors([b, c]) == [Party("B", 1000), Party("C", 1000)];
    }
  }

  /** B pays A 10.00, then C pays A the 10.00 that remains of A's credit after
      the first transfer. */
  lemma SinglePayerGreedy()
    ensures Greedy(Largest([Party("B", 1000), Party("C", 1000)]), Largest([Party("A", 3000)]))
              == [Transfer("B", "A", 1000), Transfer("C", "A", 1000)]
  {
    assert Largest([Party("A", 3000)]) == [Party("A", 3000)];
    assert Largest([Party("B", 1000), Party("C", 1000)]) == [Party("B", 1000), Party("C", 1000)] by {
      assert [Party("B", 1000), Party("C", 1000)][1..] == [Party("C", 1000)];
      assert Largest([Party("C", 1000)]) == [Party("C", 1000)];
    }
    assert Greedy([Party("C", 1000)], [Party("A", 2000)]) == [Transfer("C", "A", 1000)];
    assert Greedy([Party("B", 1000), Party("C", 1000)], [Party("A", 3000)])
        == [Transfer("B", "A", 1000)] + Greedy([Party("C", 1000)], [Party("A", 2000)]) by {
      assert AfterPay([Party("B", 1000), Party("C", 1000)], 1000) == [Party("C", 1000)];
      assert AfterPay([Party("A", 3000)], 1000) == [Party("A", 2000)];
    }
  }

  /** Group {A, B, C}; A pays 30 and B pays 30, both split equally. The owed query
      groups B 10, C 20, A 10, so A and B are each credited 20 and C owes 20. */
  lemma TwoPayerBalances()
    ensures Balances([Entry("A", 30.0), Entry("B", 30.0)],
                     [Entry("B", 10.0), Entry("C", 20.0), Entry("A", 10.0)])
              == [Entry("A", 20.0), Entry("B", 20.0), Entry("C", -20.0)]
  {
    TwoPayerPaid();
    TwoPayerOwed();
  }

  /** The paid query adds up to A 30 and B 30. */
  lemma TwoPayerPaid()
    ensures Accumulate([], [Entry("A", 30.0), Entry("B", 30.0)]) == [Entry("A", 30.0), Entry("B", 30.0)]
  {
    var a, b := Entry("A", 30.0), Entry("B", 30.0);
    assert Add([], "A", 30.0) == [a];
    assert Add([a], "B", 30.0) == [a, b];
    assert [a, b][1..] == [b] && [b][1..] == [];
    assert Accumulate([a], [b]) == [a, b];
  }

  /** Subtracting the owed rows B 10, C 20 and A 10 from A 30 and B 30. */
  lemma TwoPayerOwed()
    ensures Accumulate([Entry("A", 30.0), Entry("B", 30.0)],
                       Negate([Entry("B", 10.0), Entry("C", 20.0), Entry("A", 10.0)]))
              == [Entry("A", 20.0), Entry("B", 20.0), Entry("C", -20.0)]
  {
    var a, b := Entry("A", 30.0), Entry("B", 30.0);
    var nb, nc, na := Entry("B", -10.0), Entry("C", -20.0), Entry("A", -10.0);
    assert Negate([Entry("B", 10.0), Entry("C", 20.0), Entry("A", 10.0)]) == [nb, nc, na];
    var b2, c2, a2 := Entry("B", 20.0), Entry("C", -20.0), Entry("A", 20.0);
    assert Add([b], "B", -10.0) == [b2];
    assert Add([a, b], "B", -10.0) == [a, b2];
    assert Add([b2], "C", -20.0) == [b2, c2];
    assert Add([a, b2], "C", -20.0) == [a, b2, c2] by {
      assert [a, b2][1..] == [b2];
    }
    assert Add([a, b2, c2], "A", -10.0) == [a2, b2, c2] by {
      assert [a, b2, c2][1..] == [b2, c2];
    }
    assert [nb, nc, na][1..] == [nc, na] && [nc, na][1..] == [na] && [na][1..] == [];
    assert Accumulate([a, b2, c2], [na]) == [a2, b2, c2];
    assert Accumulate([a, b2], [nc, na]) == [a2, b2, c2];
  }

  /** With two payers the credits (40) exceed the debts (20), because a payer's own
      share is never subtracted: C pays all 20 to A, and B, who fronted the same
      30, receives nothing. */
  lemma TwoPayerPlan()
    ensures Plan(Balances([Entry("A", 30.0), Entry("B", 30.0)],
                          [Entry("B", 10.0), Entry("C", 20.0), Entry("A", 10.0)]))
              == [Transfer("C", "A", 2000)]
  {
    TwoPayerBalances();
    var a, b, c := Entry("A", 20.0), Entry("B", 20.0), Entry("C", -20.0);
    var bal := [a, b, c];
    assert bal[1..] == [b, c] && bal[1..][1..] == [c] && [c][1..] == [];
    assert RoundCents(20.0) == 2000;
    assert Creditors([c]) == [];
    assert Creditors([b, c]) == [Party("B", 2000)];
    assert Creditors(bal) == [Party("A", 2000), Party("B", 2000)];
    assert Debtors([c]) == [Party("C", 2000)];
    assert Debtors([b, c]) == [Party("C", 2000)];
    assert Debtors(bal) == [Party("C", 2000)];
    assert Largest([Party("C", 2000)]) == [Party("C", 2000)];
    assert Largest([Party("A", 2000), Party("B", 2000)]) == [Party("A", 2000), Party("B", 2000)] by {
      assert [Party("A", 2000), Party("B", 2000)][1..] == [Party("B", 2000)];
      assert Largest([Party("B", 2000)]) == [Party("B", 2000)];
    }
    assert AfterPay([Party("C", 2000)], 2000) == [];
    assert Greedy([Party("C", 2000)], [Party("A", 2000), Party("B", 2000)])
        == [Transfer("C", "A", 2000)] + Greedy([], AfterPay([Party("A", 2000), Party("B", 2000)], 2000));
  }
}
