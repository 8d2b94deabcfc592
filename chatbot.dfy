/** The pure helpers of the financial chatbot (frontend/src/FinancialChatbot.jsx):
    the username sanitiser, what the expense-command parser does with its
    regular-expression captures, the spending context built from the expense
    list, and the payload sent to create an expense. */
module Chatbot {
  import opened Basics
  import opened Text
  import opened Tally
  import opened Sorting
  import opened Ranked
  import Receipt

  // ---------------------------------------------------------------------------
  // sanitizeUsername
  // ---------------------------------------------------------------------------

  /** `sanitizeUsername`: '' for a falsy name; otherwise `**`, `*`, `__` and `_`
      are removed in turn and the result is trimmed. */
  function Sanitize(name: string): string {
    if name == "" then ""
    else Trim(RemoveChar(RemovePairs(RemoveChar(RemovePairs(name, '*'), '*'), '_'), '_'))
  }

  lemma {:induction false} RemovePairsAbsent(s: string, c: char)
    requires c !in s
    ensures RemovePairs(s, c) == s
  {
    if s != [] {
      assert c !in s[1..];
      RemovePairsAbsent(s[1..], c);
    }
  }

  /** Trimming keeps only characters of its input. */
  lemma TrimFrom(s: string, c: char)
    requires c !in s
    ensures c !in Trim(s)
  {
    TrimProperties(s);
  }

  /** The sanitiser removes every '*' and '_' and trims. */
  lemma SanitizeShape(name: string)
    ensures Sanitize(name) ==
            if name == "" then "" else Trim(RemoveChar(RemoveChar(name, '*'), '_'))
  {
    if name != "" {
      RemovePairsThenChar(name, '*');
      RemovePairsThenChar(RemoveChar(name, '*'), '_');
    }
  }

  /** The result of a non-empty name has no '*', no '_' and no whitespace at
      either end; a falsy name gives ''. */
  lemma SanitizeSpec(name: string)
    ensures name == "" ==> Sanitize(name) == ""
    ensures '*' !in Sanitize(name) && '_' !in Sanitize(name)
    ensures Trimmed(Sanitize(name))
  {
    SanitizeShape(name);
    if name != "" {
      var t := RemoveChar(RemoveChar(name, '*'), '_');
      TrimFrom(t, '*');
      TrimFrom(t, '_');
      TrimProperties(t);
    }
  }

  /** Sanitising twice is sanitising once. */
  lemma SanitizeIdempotent(name: string)
    ensures Sanitize(Sanitize(name)) == Sanitize(name)
  {
    var s := Sanitize(name);
    SanitizeSpec(name);
    SanitizeShape(s);
    if s != "" {
      RemoveAbsentChar(s, '*');
      RemoveAbsentChar(s, '_');
      TrimOfTrimmed(s);
    }
  }

  // ---------------------------------------------------------------------------
  // parseExpenseCommand
  // ---------------------------------------------------------------------------

  /** A group as the chatbot receives it; a missing name is ''. */
  datatype ChatGroup = ChatGroup(id: string, name: string, members: seq<string>)

  /** The captures of the four patterns of the command parser: the amount, the
      group token (after `group`, or after `to`), the name after `paid by` and
      the text after `for`. */
  datatype Captures = Captures(amount: Option<string>, group: Option<string>,
                               paidBy: Option<string>, description: Option<string>)

  /** The expense a command describes. */
  datatype Command = Command(amount: real, groupId: string, groupName: string,
                             paidBy: string, title: string)

  /** The amount capture is digits with an optional fraction, which `parseFloat` reads. */
  predicate AmountReadable(c: Captures) {
    c.amount.Some? ==> Receipt.ParseDecimal(c.amount.value).Some?
  }

  /** The `groups.find` test: the id equals the token, or the lower-cased name
      equals, contains or is contained in the lower-cased token. */
  predicate Matches(g: ChatGroup, token: string) {
    var nm := ToLower(g.name);
    var q := ToLower(token);
    g.id == token || nm == q || Contains(nm, q) || Contains(q, nm)
  }

  /** `groups.find(...)`: the first matching group. */
  function FindGroup(groups: seq<ChatGroup>, token: string): (r: Option<ChatGroup>)
    ensures r.None? <==> forall g :: g in groups ==> !Matches(g, token)
    ensures r.Some? ==> r.value in groups && Matches(r.value, token)
  {
    if groups == [] then None
    else if Matches(groups[0], token) then Some(groups[0])
    else
      assert forall g :: g in groups ==> g == groups[0] || g in groups[1..];
      FindGroup(groups[1..], token)
  }

  /** The group found is the first that matches. */
  lemma {:induction false} FindGroupFirst(groups: seq<ChatGroup>, token: string)
    requires FindGroup(groups, token).Some?
    ensures exists i :: 0 <= i < |groups| && groups[i] == FindGroup(groups, token).value &&
                        forall j :: 0 <= j < i ==> !Matches(groups[j], token)
  {
    if !Matches(groups[0], token) {
      FindGroupFirst(groups[1..], token);
      var i :| 0 <= i < |groups[1..]| && groups[1..][i] == FindGroup(groups, token).value &&
               forall j :: 0 <= j < i ==> !Matches(groups[1..][j], token);
      assert groups[i + 1] == FindGroup(groups, token).value;
      forall j | 0 <= j < i + 1 ensures !Matches(groups[j], token) {
        if j > 0 {
          assert groups[j] == groups[1..][j - 1];
        }
      }
    } else {
      assert groups[0] == FindGroup(groups, token).value;
    }
  }

  /** The payer: the current user unless a `paid by` name is given; 'me' or the
      user's own name in any case also mean the current user. */
  function ResolvePaidBy(user: string, paidBy: Option<string>): string {
    var normalized := Sanitize(user);
    if paidBy.None? || paidBy.value == "" then normalized
    else
      var s := Sanitize(paidBy.value);
      if ToLower(s) == "me" || ToLower(s) == ToLower(normalized) then normalized else s
  }

  /** `parseExpenseCommand` after its four `match` calls; `user` is the
      component's sanitised username. */
  function ParseCommand(c: Captures, groups: seq<ChatGroup>, user: string): Option<Command>
    requires AmountReadable(c)
  {
    if c.amount.None? || c.group.None? then None
    else
      var amount := Receipt.ParseDecimal(c.amount.value).value;
      var title := if c.description.Some? then Trim(c.description.value) else "Expense";
      match FindGroup(groups, c.group.value)
      case None => None
      case Some(g) => Some(Command(amount, g.id, g.name, ResolvePaidBy(user, c.paidBy), title))
  }

  /** A command is recognised exactly when there is an amount, a group token and
      a group matching it; it then names the first matching group, the parsed
      amount, the resolved payer and the `for` text trimmed, or "Expense". */
  lemma ParseCommandSpec(c: Captures, groups: seq<ChatGroup>, user: string)
    requires AmountReadable(c)
    ensures ParseCommand(c, groups, user).None? <==>
              c.amount.None? || c.group.None? || forall g :: g in groups ==> !Matches(g, c.group.value)
    ensures ParseCommand(c, groups, user).Some? ==>
              var cmd := ParseCommand(c, groups, user).value;
              && Receipt.ParseDecimal(c.amount.value) == Some(cmd.amount)
              && cmd.title == (if c.description.Some? then Trim(c.description.value) else "Expense")
              && cmd.paidBy == ResolvePaidBy(user, c.paidBy)
              && exists i :: 0 <= i < |groups| && groups[i].id == cmd.groupId &&
                             groups[i].name == cmd.groupName && Matches(groups[i], c.group.value) &&
                             forall j :: 0 <= j < i ==> !Matches(groups[j], c.group.value)
  {
    if ParseCommand(c, groups, user).Some? {
      FindGroupFirst(groups, c.group.value);
    }
  }

  /** Without a `paid by` name the payer is the sanitised user; 'me' in any case
      also gives the sanitised user, and any other name gives that name
      sanitised unless it is the user's own name in another case. */
  lemma ResolvePaidBySpec(user: string, p: string)
    ensures ResolvePaidBy(user, None) == Sanitize(user)
    ensures p != "" && ToLower(Sanitize(p)) == "me" ==> ResolvePaidBy(user, Some(p)) == Sanitize(user)
    ensures p != "" && ToLower(Sanitize(p)) == ToLower(Sanitize(user)) ==>
              ResolvePaidBy(user, Some(p)) == Sanitize(user)
    ensures p != "" && ToLower(Sanitize(p)) != "me" && ToLower(Sanitize(p)) != ToLower(Sanitize(user)) ==>
              ResolvePaidBy(user, Some(p)) == Sanitize(p)
  {
  }

  /** The component passes its already sanitised username, and sanitising it
      again changes nothing, so the payer is that username. */
  lemma PaidBySanitisedUser(raw: string)
    ensures ResolvePaidBy(Sanitize(raw), None) == Sanitize(raw)
  {
    SanitizeIdempotent(raw);
  }

  /** A group with an empty name matches every token, since every string
      contains ''. */
  lemma EmptyNameMatches(g: ChatGroup, token: string)
    requires g.name == ""
    ensures Matches(g, token)
  {
    ContainsEmpty(ToLower(token));
  }

  // ---------------------------------------------------------------------------
  // buildContext: spending by group
  // ---------------------------------------------------------------------------

  /** An expense as the chatbot receives it; a missing amount is 0 and a missing
      group is ''. */
  datatype ChatExpense = ChatExpense(amount: real, group: string)

  function Abs(x: real): real { if x < 0.0 then -x else x }

  /** `e.group || 'Unknown'` */
  function Bucket(e: ChatExpense): string { if e.group == "" then "Unknown" else e.group }

  /** `totalSpent`: the sum of the absolute amounts, a missing amount counting 0 (exact
      addition is associative, so the fold may be written from the right). */
  function TotalSpent(es: seq<ChatExpense>): real {
    if es == [] then 0.0 else Abs(es[0].amount) + TotalSpent(es[1..])
  }

  /** Each expense as a (bucket, |amount|) row. */
  function SpendRows(es: seq<ChatExpense>): (r: seq<Entry>)
    ensures |r| == |es|
    ensures forall i :: 0 <= i < |es| ==> r[i] == Entry(Bucket(es[i]), Abs(es[i].amount))
  {
    if es == [] then [] else [Entry(Bucket(es[0]), Abs(es[0].amount))] + SpendRows(es[1..])
  }

  /** The `spendByGroup` object the `forEach` fills. */
  method SpendByGroup(es: seq<ChatExpense>) returns (spend: seq<Entry>)
    ensures spend == GroupBy(SpendRows(es))
  {
    ghost var rows := SpendRows(es);
    spend := [];
    for k := 0 to |es|
      invariant spend == Accumulate([], rows[..k])
    {
      AccumulatePrefix([], rows, k);
      assert rows[k] == Entry(Bucket(es[k]), Abs(es[k].amount));
      spend := Add(spend, Bucket(es[k]), Abs(es[k].amount));
    }
    assert rows[..|es|] == rows;
  }

  lemma {:induction false} TotalSpentRows(es: seq<ChatExpense>)
    ensures Total(SpendRows(es)) == TotalSpent(es)
  {
    if es != [] {
      TotalSpentRows(es[1..]);
      assert SpendRows(es)[1..] == SpendRows(es[1..]);
    }
  }

  /** The buckets are the groups of the expenses, 'Unknown' for those without. */
  lemma SpendKeys(es: seq<ChatExpense>)
    ensures forall x :: x in Keys(SpendRows(es)) <==> exists i :: 0 <= i < |es| && Bucket(es[i]) == x
  {
    var rows := SpendRows(es);
    forall x ensures x in Keys(rows) <==> exists i :: 0 <= i < |es| && Bucket(es[i]) == x {
      if x in Keys(rows) {
        var i :| 0 <= i < |rows| && Keys(rows)[i] == x;
        assert Bucket(es[i]) == x;
      }
      if exists i :: 0 <= i < |es| && Bucket(es[i]) == x {
        var i :| 0 <= i < |es| && Bucket(es[i]) == x;
        assert Keys(rows)[i] == x;
      }
    }
  }

  /** One bucket per group name that occurs ('Unknown' for expenses without a
      group, so none is named ''), each holding the sum of its expenses'
      absolute amounts; the buckets add up to `totalSpent`. */
  lemma SpendSpec(es: seq<ChatExpense>)
    ensures DistinctKeys(GroupBy(SpendRows(es)))
    ensures forall x :: x in Keys(GroupBy(SpendRows(es))) <==>
              exists i :: 0 <= i < |es| && Bucket(es[i]) == x
    ensures forall i :: 0 <= i < |GroupBy(SpendRows(es))| ==>
              GroupBy(SpendRows(es))[i].total == Get(SpendRows(es), GroupBy(SpendRows(es))[i].key)
    ensures Total(GroupBy(SpendRows(es))) == TotalSpent(es)
    ensures "" !in Keys(GroupBy(SpendRows(es)))
  {
    GroupBySpec(SpendRows(es));
    TotalSpentRows(es);
    SpendKeys(es);
  }

  // ---------------------------------------------------------------------------
  // Object.entries
  // ---------------------------------------------------------------------------

  /** An array index in the sense of ECMAScript: the canonical decimal numeral
      (no leading zero) of an integer below 2^32 - 1. */
  predicate IsArrayIndex(k: string) {
    k != [] && AllDigits(k) && (k[0] != '0' || |k| == 1) && ParseNat(k) < 0xFFFF_FFFF
  }

  function IsIndexEntry(e: Entry): bool { IsArrayIndex(e.key) }

  function NotIndexEntry(e: Entry): bool { !IsArrayIndex(e.key) }

  /** Sorting by this key, largest first, puts numerals in ascending order. */
  function IndexOrder(e: Entry): real {
    if AllDigits(e.key) then -(ParseNat(e.key) as real) else 0.0
  }

  /** `Object.entries` of an object whose properties were created in the order
      of `obj`: the array-index keys first, in ascending numeric order, then the
      other keys in creation order. */
  function ObjectEntries(obj: seq<Entry>): seq<Entry> {
    SortDesc(Keep(obj, IsIndexEntry), IndexOrder) + Keep(obj, NotIndexEntry)
  }

  /** The two filters split a sequence into its array-index and other entries. */
  lemma {:induction false} KeepSplit(s: seq<Entry>)
    ensures multiset(Keep(s, IsIndexEntry)) + multiset(Keep(s, NotIndexEntry)) == multiset(s)
  {
    if s != [] {
      var t := s[1..];
      KeepSplit(t);
      assert s == [s[0]] + t;
      var a, b := Keep(t, IsIndexEntry), Keep(t, NotIndexEntry);
      if IsArrayIndex(s[0].key) {
        assert Keep(s, IsIndexEntry) == [s[0]] + a;
        assert Keep(s, NotIndexEntry) == b;
      } else {
        assert Keep(s, IsIndexEntry) == a;
        assert Keep(s, NotIndexEntry) == [s[0]] + b;
      }
    }
  }

  /** The entries are those of the object, each once. */
  lemma ObjectEntriesPerm(obj: seq<Entry>)
    ensures multiset(ObjectEntries(obj)) == multiset(obj)
  {
    KeepSplit(obj);
  }

  /** The array-index keys come first, in ascending numeric order. */
  lemma ObjectEntriesIndexFirst(obj: seq<Entry>)
    ensures var n := |Keep(obj, IsIndexEntry)|;
            var r := ObjectEntries(obj);
            && n <= |r|
            && (forall i :: 0 <= i < n ==> IsArrayIndex(r[i].key))
            && (forall i, j :: 0 <= i < j < n ==> ParseNat(r[i].key) <= ParseNat(r[j].key))
  {
    var ix := Keep(obj, IsIndexEntry);
    var sorted := SortDesc(ix, IndexOrder);
    var r := ObjectEntries(obj);
    assert |sorted| == |ix|;
    forall e | e in ix ensures IsArrayIndex(e.key) {
      assert IsIndexEntry(e);
    }
    SortedIndices(ix);
    forall i | 0 <= i < |ix| ensures r[i] == sorted[i] && IsArrayIndex(r[i].key) {
      assert IsArrayIndex(sorted[i].key);
    }
    forall i, j | 0 <= i < j < |ix| ensures ParseNat(r[i].key) <= ParseNat(r[j].key) {
      assert r[i] == sorted[i] && r[j] == sorted[j];
    }
  }

  /** After them come the other keys, in creation order. */
  lemma ObjectEntriesRest(obj: seq<Entry>)
    ensures var n := |Keep(obj, IsIndexEntry)|;
            var r := ObjectEntries(obj);
            && n <= |r|
            && r[n..] == Keep(obj, NotIndexEntry)
            && (forall i :: n <= i < |r| ==> !IsArrayIndex(r[i].key))
  {
    var n := |Keep(obj, IsIndexEntry)|;
    var rest := Keep(obj, NotIndexEntry);
    var r := ObjectEntries(obj);
    assert r[n..] == rest;
    forall i | n <= i < |r| ensures !IsArrayIndex(r[i].key) {
      assert r[i] == rest[i - n];
      assert rest[i - n] in rest;
    }
  }

  /** Sorting array-index entries by IndexOrder puts them in ascending numeric
      order. */
  lemma SortedIndices(ix: seq<Entry>)
    requires forall e :: e in ix ==> IsArrayIndex(e.key)
    ensures forall i :: 0 <= i < |SortDesc(ix, IndexOrder)| ==> IsArrayIndex(SortDesc(ix, IndexOrder)[i].key)
    ensures forall i, j :: 0 <= i < j < |SortDesc(ix, IndexOrder)| ==>
              AllDigits(SortDesc(ix, IndexOrder)[i].key) && AllDigits(SortDesc(ix, IndexOrder)[j].key) &&
              ParseNat(SortDesc(ix, IndexOrder)[i].key) <= ParseNat(SortDesc(ix, IndexOrder)[j].key)
  {
    var sorted := SortDesc(ix, IndexOrder);
    SortDescSpec(ix, IndexOrder);
    forall i | 0 <= i < |sorted| ensures IsArrayIndex(sorted[i].key) {
      assert sorted[i] in multiset(ix);
    }
    forall i, j | 0 <= i < j < |sorted| ensures ParseNat(sorted[i].key) <= ParseNat(sorted[j].key) {
      assert IsArrayIndex(sorted[i].key) && IsArrayIndex(sorted[j].key);
      assert IndexOrder(sorted[i]) >= IndexOrder(sorted[j]);
    }
  }

  /** `topGroups` before formatting: at most three buckets, largest first. */
  function TopGroups(spend: seq<Entry>): seq<Entry> {
    Take(ByTotal(ObjectEntries(spend)), 3)
  }

  /** `topSpendingGroup`: the largest bucket's name, 'None' when there is none. */
  function TopSpendingGroup(spend: seq<Entry>): string {
    var sorted := ByTotal(ObjectEntries(spend));
    if sorted == [] || sorted[0].key == "" then "None" else sorted[0].key
  }

  /** Equal totals keep the `Object.entries` order: with 5 spent in group "b"
      and then 5 in group "2024", the top group is "2024". */
  lemma NumeralGroupFirst()
    ensures TopSpendingGroup([Entry("b", 5.0), Entry("2024", 5.0)]) == "2024"
  {
    var b, y := Entry("b", 5.0), Entry("2024", 5.0);
    assert ParseNat("2024") == 2024 by {
      assert "2024"[..3] == "202" && "202"[..2] == "20" && "20"[..1] == "2" && "2"[..0] == "";
    }
    assert IsArrayIndex("2024");
    assert !IsArrayIndex("b");
    assert [b, y][1..] == [y] && [y][1..] == [];
    assert Keep([b, y], IsIndexEntry) == [y];
    assert Keep([b, y], NotIndexEntry) == [b];
    assert SortDesc([y], IndexOrder) == [y];
    assert ObjectEntries([b, y]) == [y, b];
    assert [y, b][1..] == [b];
    assert ByTotal([b]) == [b];
    assert ByTotal([y, b]) == [y, b];
  }

  /** At most three buckets, in descending total order, taken from the buckets,
      and none left out has a larger total than one shown. */
  lemma TopGroupsSpec(spend: seq<Entry>)
    ensures |TopGroups(spend)| == if |spend| < 3 then |spend| else 3
    ensures SortedDesc(TopGroups(spend), EntryTotal)
    ensures forall e :: e in TopGroups(spend) ==> e in spend
    ensures forall e, f :: e in multiset(spend) - multiset(TopGroups(spend)) && f in TopGroups(spend) ==>
              e.total <= f.total
  {
    var s := ByTotal(ObjectEntries(spend));
    ByTotalSpec(ObjectEntries(spend));
    ObjectEntriesPerm(spend);
    assert |s| == |spend| by { assert |multiset(s)| == |multiset(spend)|; }
    TakeSorted(s, 3);
    forall e | e in Take(s, 3) ensures e in spend {
      assert e in multiset(spend);
    }
  }

  /** A prefix of a descending sequence is descending, and every element after
      it is at most every element in it. */
  lemma TakeSorted(s: seq<Entry>, n: nat)
    requires SortedDesc(s, EntryTotal)
    ensures SortedDesc(Take(s, n), EntryTotal)
    ensures forall e :: e in Take(s, n) ==> e in s
    ensures forall e, f :: e in multiset(s) - multiset(Take(s, n)) && f in Take(s, n) ==>
              e.total <= f.total
  {
    var p := Take(s, n);
    assert s == p + s[|p|..];
    assert multiset(s) == multiset(p) + multiset(s[|p|..]);
    forall e, f | e in multiset(s) - multiset(p) && f in p ensures e.total <= f.total {
      assert e in s[|p|..];
      var k :| 0 <= k < |s[|p|..]| && s[|p|..][k] == e;
      var i :| 0 <= i < |p| && p[i] == f;
      assert s[i] == f && s[|p| + k] == e;
    }
  }

  /** With no expenses the top group is 'None'; otherwise it is the name of a
      bucket with the largest total. */
  lemma TopSpendingSpec(es: seq<ChatExpense>)
    ensures es == [] ==> TopSpendingGroup(GroupBy(SpendRows(es))) == "None"
    ensures es != [] ==>
              var spend := GroupBy(SpendRows(es));
              exists e :: e in spend && e.key == TopSpendingGroup(spend) &&
                          forall f :: f in spend ==> f.total <= e.total
  {
    var spend := GroupBy(SpendRows(es));
    SpendSpec(es);
    if es != [] {
      assert Bucket(es[0]) in Keys(spend);
      LargestFirst(spend);
      var top := ByTotal(ObjectEntries(spend))[0];
      assert top.key in Keys(spend) by {
        var k :| 0 <= k < |spend| && spend[k] == top;
        assert Keys(spend)[k] == top.key;
      }
    }
  }

  /** The first bucket by total is one with the largest total. */
  lemma LargestFirst(spend: seq<Entry>)
    requires spend != []
    ensures ByTotal(ObjectEntries(spend)) != [] && ByTotal(ObjectEntries(spend))[0] in spend
    ensures forall f :: f in spend ==> f.total <= ByTotal(ObjectEntries(spend))[0].total
  {
    ByTotalSpec(ObjectEntries(spend));
    ObjectEntriesPerm(spend);
    var s := ByTotal(ObjectEntries(spend));
    assert |multiset(s)| == |multiset(spend)|;
    assert s[0] in multiset(spend);
    forall f | f in spend ensures f.total <= s[0].total {
      assert f in multiset(s);
      var i :| 0 <= i < |s| && s[i] == f;
    }
  }

  /** The `structured` part of the context. */
  datatype Context = Context(username: string, groups: nat, totalSpent: real,
                             recentExpenses: nat, topSpendingGroup: string)

  function ContextOf(user: string, groups: seq<ChatGroup>, es: seq<ChatExpense>): Context {
    Context(user, |groups|, TotalSpent(es), |es|, TopSpendingGroup(GroupBy(SpendRows(es))))
  }

  // ---------------------------------------------------------------------------
  // addExpense
  // ---------------------------------------------------------------------------

  datatype SplitSpec = SplitSpec(kind: string, members: seq<string>)

  datatype Payload = Payload(groupId: string, title: string, amount: real, date: string,
                             paidBy: string, split: SplitSpec, notes: string)

  /** The members of the first group with that id, [] when there is none. */
  function MembersOf(groups: seq<ChatGroup>, id: string): seq<string> {
    if groups == [] then []
    else if groups[0].id == id then groups[0].members
    else MembersOf(groups[1..], id)
  }

  /** The body `addExpense` posts; the date is today's (a parameter). */
  function PayloadOf(cmd: Command, groups: seq<ChatGroup>, today: string): Payload {
    Payload(cmd.groupId, cmd.title, cmd.amount, today, cmd.paidBy,
            SplitSpec("equal", MembersOf(groups, cmd.groupId)), "Added via AI chatbot")
  }

  lemma {:induction false} MembersOfDistinct(groups: seq<ChatGroup>, i: nat)
    requires i < |groups|
    requires forall a, b :: 0 <= a < b < |groups| ==> groups[a].id != groups[b].id
    ensures MembersOf(groups, groups[i].id) == groups[i].members
  {
    if i > 0 {
      MembersOfDistinct(groups[1..], i - 1);
    }
  }

  /** The payload carries the command's fields and an equal split; when group
      ids are distinct its members are those of the group the command named. */
  lemma PayloadSpec(c: Captures, groups: seq<ChatGroup>, user: string, today: string)
    requires AmountReadable(c) && ParseCommand(c, groups, user).Some?
    requires forall a, b :: 0 <= a < b < |groups| ==> groups[a].id != groups[b].id
    ensures var cmd := ParseCommand(c, groups, user).value;
            var p := PayloadOf(cmd, groups, today);
            && p.split.kind == "equal" && p.paidBy == cmd.paidBy && p.amount == cmd.amount
            && exists i :: 0 <= i < |groups| && Matches(groups[i], c.group.value) &&
                           p.groupId == groups[i].id && p.split.members == groups[i].members
  {
    var cmd := ParseCommand(c, groups, user).value;
    ParseCommandSpec(c, groups, user);
    var i :| 0 <= i < |groups| && groups[i].id == cmd.groupId &&
             groups[i].name == cmd.groupName && Matches(groups[i], c.group.value) &&
             forall j :: 0 <= j < i ==> !Matches(groups[j], c.group.value);
    MembersOfDistinct(groups, i);
  }
}
