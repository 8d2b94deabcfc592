/** The add-expense form of a group (frontend/src/GroupDetails.jsx): the member
    toggle, the date normaliser, the prefill from a parsed receipt, the defaults
    the group-sync effect sets, and the guards of the submit handler.  The form
    is a class whose fields are the component's state variables; each handler
    is a method that sets what the corresponding setters set. */
module GroupForm {
  import opened Basics
  import opened Text
  import Receipt

  /** A group as the list endpoint returns it. */
  datatype FormGroup = FormGroup(id: string, name: string, members: seq<string>)

  // ---------------------------------------------------------------------------
  // Member toggle
  // ---------------------------------------------------------------------------

  function Other(m: string): string -> bool { (x: string) => x != m }

  /** `toggleMember`: a present member is filtered out, an absent one appended. */
  function ToggleMember(prev: seq<string>, m: string): (r: seq<string>)
    ensures m in prev ==> m !in r && forall x :: x in r <==> x in prev && x != m
    ensures m !in prev ==> r == prev + [m]
  {
    if m in prev then Keep(prev, Other(m)) else prev + [m]
  }

  /** Filtering out an element that does not occur changes nothing. */
  lemma {:induction false} KeepOtherAbsent(s: seq<string>, m: string)
    requires m !in s
    ensures Keep(s, Other(m)) == s
  {
    if s != [] {
      assert m !in s[1..];
      KeepOtherAbsent(s[1..], m);
      assert s == [s[0]] + s[1..];
    }
  }

  lemma {:induction false} KeepOtherSnoc(s: seq<string>, m: string)
    ensures Keep(s + [m], Other(m)) == Keep(s, Other(m))
  {
    if s == [] {
      assert Keep([m], Other(m)) == Keep([m][1..], Other(m));
    } else {
      assert (s + [m])[1..] == s[1..] + [m];
      KeepOtherSnoc(s[1..], m);
    }
  }

  /** Toggling an absent member on and off again gives back the original list. */
  lemma ToggleTwice(prev: seq<string>, m: string)
    requires m !in prev
    ensures ToggleMember(ToggleMember(prev, m), m) == prev
  {
    KeepOtherSnoc(prev, m);
    KeepOtherAbsent(prev, m);
  }

  // ---------------------------------------------------------------------------
  // normalizeDate
  // ---------------------------------------------------------------------------

  /** The test `/^\d{4}-\d{2}-\d{2}$/`. */
  predicate IsoShaped(v: string) {
    |v| == 10 && v[4] == '-' && v[7] == '-' &&
    AllDigits(v[..4]) && AllDigits(v[5..7]) && AllDigits(v[8..])
  }

  /** What `normalizeDate` does with its input: keep it, build a `Date` from the
      numeric fields, or fall back to today's date. */
  datatype DateChoice = KeepText | Construct(year: nat, month: nat, day: nat) | Today

  /** The three captures of the pattern `(\d{1,2})[/-](\d{1,2})[/-](\d{2,4})`
      as the form reads them, in capture order: month, day, year.  (The receipt
      parser reads the same three captures as day, month, year.) */
  datatype JsDateMatch = JsDateMatch(mm: string, dd: string, yy: string)

  predicate JsDigitsOnly(m: JsDateMatch) {
    AllDigits(m.mm) && AllDigits(m.dd) && AllDigits(m.yy)
  }

  /** `normalizeDate`, given the captures of its date pattern (None when the
      text does not match). */
  function NormalizeDate(v: string, m: Option<JsDateMatch>): DateChoice
    requires m.Some? ==> JsDigitsOnly(m.value)
  {
    if v == "" then Today
    else if IsoShaped(v) then KeepText
    else if m.Some? then
      Construct(ParseNat(Receipt.ExpandYear(m.value.yy)), ParseNat(m.value.mm), ParseNat(m.value.dd))
    else Today
  }

  /** An empty value gives today; an ISO 8601 calendar-date string is kept as
      it is; otherwise a capture builds a date whose month is the first capture,
      whose day is the second and whose year is the third, a two-digit year
      meaning 20yy; without one the result is today. */
  lemma NormalizeDateSpec(v: string, m: Option<JsDateMatch>)
    requires m.Some? ==> JsDigitsOnly(m.value)
    ensures v == "" ==> NormalizeDate(v, m) == Today
    ensures IsoShaped(v) ==> NormalizeDate(v, m) == KeepText
    ensures v != "" && !IsoShaped(v) && m.None? ==> NormalizeDate(v, m) == Today
    ensures v != "" && !IsoShaped(v) && m.Some? ==>
              NormalizeDate(v, m).Construct? &&
              NormalizeDate(v, m).month == ParseNat(m.value.mm) &&
              NormalizeDate(v, m).day == ParseNat(m.value.dd) &&
              (|m.value.yy| == 2 ==> NormalizeDate(v, m).year == 2000 + ParseNat(m.value.yy)) &&
              (|m.value.yy| != 2 ==> NormalizeDate(v, m).year == ParseNat(m.value.yy))
  {
    if v != "" && !IsoShaped(v) && m.Some? && |m.value.yy| == 2 {
      Receipt.ExpandYearValue(m.value.yy);
    }
  }

  /** A date the receipt parser produced from a capture is kept as it is. */
  lemma ReceiptDateKept(y: nat, mo: nat, d: nat, m: Option<JsDateMatch>)
    requires Receipt.ValidDate(y, mo, d)
    requires m.Some? ==> JsDigitsOnly(m.value)
    ensures NormalizeDate(Receipt.FormatDate(y, mo, d), m) == KeepText
  {
    Receipt.FormatDateFields(y, mo, d);
  }

  // ---------------------------------------------------------------------------
  // Receipt prefill
  // ---------------------------------------------------------------------------

  /** A non-negative amount in whole cents, as the receipt parser's two-decimal
      captures give. */
  predicate WholeCents(x: real) {
    x >= 0.0 && (x * 100.0).Floor as real == x * 100.0
  }

  /** `String(x)` for an amount in whole cents: the shortest decimal, with no
      trailing zero after the point and no point for a whole number. */
  function NumberText(x: real): string
    requires WholeCents(x)
  {
    CentsNumberText((x * 100.0).Floor as nat)
  }

  /** The text of c cents as a JavaScript number. */
  function CentsNumberText(c: nat): string {
    var w := NatToString(c / 100);
    if c % 100 == 0 then w
    else if c % 10 == 0 then w + "." + [DigitChar(c % 100 / 10)]
    else w + "." + PadNat(c % 100, 2)
  }

  /** The text of an amount reads back as that amount. */
  lemma NumberTextParses(x: real)
    requires WholeCents(x)
    ensures Receipt.ParseDecimal(NumberText(x)) == Some(x)
  {
    var c := (x * 100.0).Floor as nat;
    assert x == c as real / 100.0;
    var t := CentsNumberText(c);
    if c % 100 == 0 {
      WholeParses(c);
    } else if c % 10 == 0 {
      TenthsParses(c);
    } else {
      Receipt.ParseCents(c);
      assert t == Receipt.CentsText(c);
      assert ',' !in t;
      RemoveAbsentChar(t, ',');
    }
  }

  lemma WholeParses(c: nat)
    requires c % 100 == 0
    ensures Receipt.ParseDecimal(CentsNumberText(c)) == Some(c as real / 100.0)
  {
    var q := c / 100;
    var w := NatToString(q);
    ParseNatToString(q);
    assert '.' !in w;
    assert w == CentsNumberText(c);
    assert c == 100 * q;
    assert c as real == 100.0 * q as real;
  }

  lemma TenthsParses(c: nat)
    requires c % 100 != 0 && c % 10 == 0
    ensures Receipt.ParseDecimal(CentsNumberText(c)) == Some(c as real / 100.0)
  {
    var q, d := c / 100, c % 100 / 10;
    var w, f := NatToString(q), [DigitChar(d)];
    assert w + "." + f == CentsNumberText(c);
    assert ParseNat(w) == q by {
      ParseNatToString(q);
    }
    assert AllDigits(f) && ParseNat(f) == d by {
      assert f[..0] == "";
    }
    Receipt.ParsePoint(w, f);
    assert Receipt.Decimal(w, f) == q as real + d as real / 10.0 by {
      assert Pow10(|f|) == 10;
    }
    TenthsSplit(c);
  }

  lemma TenthsSplit(c: nat)
    requires c % 10 == 0
    ensures (c / 100) as real + (c % 100 / 10) as real / 10.0 == c as real / 100.0
  {
    assert c == 100 * (c / 100) + 10 * (c % 100 / 10);
  }

  /** The receipt data the upload page stores for this form. */
  datatype ReceiptData = ReceiptData(category: string, amount: Option<real>, date: string,
                                     lineItems: seq<Receipt.Item>)

  predicate PricesInCents(items: seq<Receipt.Item>) {
    forall i :: 0 <= i < |items| ==> WholeCents(items[i].price)
  }

  /** One line of the notes: `name - $price`. */
  function ItemLine(it: Receipt.Item): string
    requires WholeCents(it.price)
  {
    it.name + " - $" + NumberText(it.price)
  }

  function ItemLines(items: seq<Receipt.Item>): (r: seq<string>)
    requires PricesInCents(items)
    ensures |r| == |items|
    ensures forall i :: 0 <= i < |items| ==> r[i] == ItemLine(items[i])
  {
    if items == [] then [] else [ItemLine(items[0])] + ItemLines(items[1..])
  }

  /** The prefilled notes: the items' lines joined with '; ', '' without items. */
  function Notes(items: seq<Receipt.Item>): string
    requires PricesInCents(items)
  {
    if items == [] then "" else Join(ItemLines(items), "; ")
  }

  /** No items give no notes; one item gives its line; each further item adds
      '; ' and its line at the end. */
  lemma NotesSpec(items: seq<Receipt.Item>, it: Receipt.Item)
    requires PricesInCents(items + [it])
    ensures PricesInCents(items)
    ensures Notes([]) == ""
    ensures WholeCents(it.price) && PricesInCents([it]) && Notes([it]) == ItemLine(it)
    ensures items != [] ==> Notes(items + [it]) == Notes(items) + "; " + ItemLine(it)
  {
    assert forall i :: 0 <= i < |items| ==> (items + [it])[i] == items[i];
    assert WholeCents((items + [it])[|items|].price);
    if items != [] {
      assert ItemLines(items + [it]) == ItemLines(items) + [ItemLine(it)];
      JoinSnoc(ItemLines(items), ItemLine(it), "; ");
    }
  }

  // ---------------------------------------------------------------------------
  // The form state and the rules of its handlers
  // ---------------------------------------------------------------------------

  /** The component's state variables. */
  datatype FormState = FormState(groups: seq<FormGroup>, selectedGroupId: string,
                                 selectedGroup: Option<FormGroup>, title: string, amount: string,
                                 date: string, paidBy: string, splitType: string,
                                 splitMembers: seq<string>, notes: string, message: string)

  /** The first group whose id is the selected id. */
  function FindById(groups: seq<FormGroup>, id: string): (r: Option<FormGroup>)
    ensures r.None? <==> forall g :: g in groups ==> g.id != id
    ensures r.Some? ==> r.value in groups && r.value.id == id
  {
    if groups == [] then None
    else if groups[0].id == id then Some(groups[0])
    else
      assert forall g :: g in groups[1..] ==> g in groups;
      FindById(groups[1..], id)
  }

  /** The state after the group-sync effect. */
  function Synced(s: FormState, username: string): FormState {
    if s.selectedGroupId == "" then s.(selectedGroup := None, splitMembers := [])
    else
      var g := FindById(s.groups, s.selectedGroupId);
      if g.Some? && g.value.members != [] then
        var ms := g.value.members;
        s.(selectedGroup := g, paidBy := if username in ms then username else ms[0], splitMembers := ms)
      else
        s.(selectedGroup := g, paidBy := username, splitMembers := [])
  }

  /** Without a selection the group and the split members are cleared; a
      selected group with members makes the user the payer when a member (else
      the first member) and splits over all members; a group without members
      (or none found) makes the user the payer and splits over nobody.  The form's
      other fields are untouched, and syncing again changes nothing. */
  lemma SyncedSpec(s: FormState, username: string)
    ensures var t := Synced(s, username);
            && t.(selectedGroup := s.selectedGroup, paidBy := s.paidBy, splitMembers := s.splitMembers) == s
            && Synced(t, username) == t
    ensures s.selectedGroupId == "" ==>
              Synced(s, username).selectedGroup.None? && Synced(s, username).splitMembers == []
    ensures s.selectedGroupId != "" ==>
              var t := Synced(s, username);
              && (t.selectedGroup.Some? <==> exists g :: g in s.groups && g.id == s.selectedGroupId)
              && (t.selectedGroup.Some? && t.selectedGroup.value.members != [] ==>
                    var ms := t.selectedGroup.value.members;
                    t.selectedGroup.value in s.groups && t.splitMembers == ms && t.paidBy in ms &&
                    (t.paidBy == username <==> username in ms))
              && (t.selectedGroup.None? || t.selectedGroup.value.members == [] ==>
                    t.paidBy == username && t.splitMembers == [])
  {
  }

  /** `members`: the selected group's members, or [] without one. */
  function Members(s: FormState): seq<string> {
    if s.selectedGroup.Some? then s.selectedGroup.value.members else []
  }

  /** `canSubmit` */
  predicate CanSubmit(s: FormState) {
    s.selectedGroupId != "" && s.title != "" && s.amount != ""
  }

  /** The members an expense is split over: all members for an equal split,
      the selected ones otherwise. */
  function SplitOver(s: FormState): seq<string> {
    if s.splitType == "equal" then Members(s) else s.splitMembers
  }

  datatype SplitRequest = SplitRequest(kind: string, members: seq<string>)

  /** The body posted to the create endpoint; `amount` is the text
      `parseFloat` reads. */
  datatype Payload = Payload(groupId: string, title: string, amount: string, date: string,
                             paidBy: string, split: SplitRequest, notes: string)

  /** What the submit handler decides before any request. */
  datatype Submission = Rejected(message: string) | Send(payload: Payload)

  const NotReady := "❌ Select a group and enter title & amount"
  const NoMembers := "❌ Select at least one member for split"

  function Submit(s: FormState): Submission {
    if !CanSubmit(s) then Rejected(NotReady)
    else if SplitOver(s) == [] then Rejected(NoMembers)
    else Send(Payload(s.selectedGroupId, s.title, s.amount, s.date, s.paidBy,
                      SplitRequest(s.splitType, SplitOver(s)), s.notes))
  }

  /** Nothing is sent unless a group, a title and an amount are given and the
      split has at least one member; each refusal has its own message, the guard
      on the fields coming first.  A request carries the form's fields, and an
      equal split goes to every member of the selected group. */
  lemma SubmitSpec(s: FormState)
    ensures Submit(s).Send? <==> CanSubmit(s) && SplitOver(s) != []
    ensures !CanSubmit(s) ==> Submit(s) == Rejected(NotReady)
    ensures CanSubmit(s) && SplitOver(s) == [] ==> Submit(s) == Rejected(NoMembers)
    ensures Submit(s).Send? ==>
              var p := Submit(s).payload;
              && p.groupId == s.selectedGroupId && p.title == s.title && p.amount == s.amount
              && p.date == s.date && p.paidBy == s.paidBy && p.notes == s.notes
              && p.split.kind == s.splitType && p.split.members != []
              && (s.splitType == "equal" ==> s.selectedGroup.Some? && p.split.members == s.selectedGroup.value.members)
              && (s.splitType != "equal" ==> p.split.members == s.splitMembers)
  {
  }

  /** The server's answer to a request: created, refused with an error text
      (maybe empty), or no answer at all. */
  datatype Reply = Created | Refused(error: string) | Unreachable

  /** The state once the reply has been handled. */
  function Answered(s: FormState, reply: Reply): FormState {
    match reply
    case Created => s.(message := "✅ Expense added", title := "", amount := "", notes := "")
    case Refused(e) => s.(message := "❌ " + (if e == "" then "Failed" else e))
    case Unreachable => s.(message := "❌ Failed to connect to server")
  }

  /** A created expense clears the title, the amount and the notes and keeps
      the group, the date, the payer and the split settings; a refusal or a
      failed connection changes only the message. */
  lemma AnsweredSpec(s: FormState, reply: Reply)
    ensures Answered(s, reply).(message := s.message, title := s.title, amount := s.amount, notes := s.notes) == s
    ensures reply.Created? ==>
              Answered(s, reply).title == "" && Answered(s, reply).amount == "" && Answered(s, reply).notes == ""
    ensures !reply.Created? ==> Answered(s, reply).(message := s.message) == s
    ensures Answered(s, reply).message == "✅ Expense added" <==> reply.Created?
  {
    assert "❌ Failed to connect to server"[0] != "✅ Expense added"[0];
    if reply.Refused? {
      var e := if reply.error == "" then "Failed" else reply.error;
      assert ("❌ " + e)[0] != "✅ Expense added"[0];
    }
  }

  /** The state after the receipt prefill.  A capture of its date (if any),
      today's date and `built`, the text that the JavaScript `Date` made from
      the captured fields turns into (`toISOString().slice(0, 10)`, which
      depends on the time zone and rolls over out-of-range fields), are
      parameters.  On digit captures that `Date` is never invalid, so the
      `isNaN` fallback is not reached. */
  function Prefilled(s: FormState, rd: ReceiptData, m: Option<JsDateMatch>,
                     today: string, built: string): FormState
    requires m.Some? ==> JsDigitsOnly(m.value)
    requires PricesInCents(rd.lineItems) && (rd.amount.Some? ==> WholeCents(rd.amount.value))
  {
    s.(title := if rd.category == "" then "Purchase" else rd.category,
       amount := if rd.amount.Some? then NumberText(rd.amount.value) else s.amount,
       date := match NormalizeDate(rd.date, m)
               case KeepText => rd.date
               case Today => today
               case Construct(_, _, _) => built,
       notes := Notes(rd.lineItems))
  }

  /** The title is the category or 'Purchase', the amount text reads back as
      the receipt's amount (and is kept without one), a date the receipt parser
      wrote is used as it is, a date in another form that the pattern captures
      is the built one and any other is today's, and the notes list the line
      items. */
  lemma PrefilledSpec(s: FormState, rd: ReceiptData, m: Option<JsDateMatch>, today: string, built: string)
    requires m.Some? ==> JsDigitsOnly(m.value)
    requires PricesInCents(rd.lineItems) && (rd.amount.Some? ==> WholeCents(rd.amount.value))
    ensures var t := Prefilled(s, rd, m, today, built);
            && t.(title := s.title, amount := s.amount, date := s.date, notes := s.notes) == s
            && t.title == (if rd.category == "" then "Purchase" else rd.category)
            && (rd.amount.Some? ==> Receipt.ParseDecimal(t.amount) == rd.amount)
            && (rd.amount.None? ==> t.amount == s.amount)
            && (rd.lineItems == [] <==> t.notes == "")
    ensures forall y, mo, d :: Receipt.ValidDate(y, mo, d) && rd.date == Receipt.FormatDate(y, mo, d) ==>
              Prefilled(s, rd, m, today, built).date == rd.date
    ensures rd.date == "" || (!IsoShaped(rd.date) && m.None?) ==>
              Prefilled(s, rd, m, today, built).date == today
    ensures rd.date != "" && !IsoShaped(rd.date) && m.Some? ==>
              Prefilled(s, rd, m, today, built).date == built
  {
    if rd.amount.Some? {
      NumberTextParses(rd.amount.value);
    }
    if rd.lineItems != [] {
      var ls := ItemLines(rd.lineItems);
      assert |ls[0]| > 0 by { assert ls[0] == ItemLine(rd.lineItems[0]); }
      JoinStart(ls, "; ");
    }
    forall y, mo, d | Receipt.ValidDate(y, mo, d) && rd.date == Receipt.FormatDate(y, mo, d)
      ensures Prefilled(s, rd, m, today, built).date == rd.date
    {
      ReceiptDateKept(y, mo, d, m);
    }
  }

  /** A join begins with its first part. */
  lemma JoinStart(parts: seq<string>, sep: string)
    requires parts != []
    ensures |Join(parts, sep)| >= |parts[0]|
  {
  }

  // ---------------------------------------------------------------------------
  // The form
  // ---------------------------------------------------------------------------

  class Form {
    const username: string
    var groups: seq<FormGroup>
    var selectedGroupId: string
    var selectedGroup: Option<FormGroup>
    var title: string
    var amount: string
    var date: string
    var paidBy: string
    var splitType: string
    var splitMembers: seq<string>
    var notes: string
    var message: string

    function State(): FormState
      reads this
    {
      FormState(groups, selectedGroupId, selectedGroup, title, amount, date, paidBy,
                splitType, splitMembers, notes, message)
    }

    method SetState(s: FormState)
      modifies this
      ensures State() == s
    {
      groups, selectedGroupId, selectedGroup := s.groups, s.selectedGroupId, s.selectedGroup;
      title, amount, date, paidBy := s.title, s.amount, s.date, s.paidBy;
      splitType, splitMembers, notes, message := s.splitType, s.splitMembers, s.notes, s.message;
    }

    /** The initial state: the group passed in (if any) selected, today's date,
        the user as payer and an equal split. */
    constructor (username: string, group: Option<FormGroup>, today: string)
      ensures this.username == username
      ensures State() == FormState([], if group.Some? then group.value.id else "", group,
                                   "", "", today, username, "equal", [], "", "")
    {
      this.username := username;
      groups := [];
      selectedGroupId := if group.Some? then group.value.id else "";
      selectedGroup := group;
      title, amount, date, paidBy := "", "", today, username;
      splitType, splitMembers, notes, message := "equal", [], "", "";
    }

    /** `loadGroups` once the list has arrived: the first group is selected
        when none is. */
    method GroupsLoaded(list: seq<FormGroup>)
      modifies this
      ensures State() == old(State()).(groups := list,
                                       selectedGroupId := if old(selectedGroupId) == "" && list != []
                                                          then list[0].id else old(selectedGroupId))
    {
      groups := list;
      if selectedGroupId == "" && list != [] {
        selectedGroupId := list[0].id;
      }
    }

    /** The group-sync effect. */
    method Sync()
      modifies this
      ensures State() == Synced(old(State()), username)
    {
      if selectedGroupId == "" {
        selectedGroup := None;
        splitMembers := [];
        return;
      }
      var g := FindById(groups, selectedGroupId);
      selectedGroup := g;
      if g.Some? && g.value.members != [] {
        paidBy := if username in g.value.members then username else g.value.members[0];
        splitMembers := g.value.members;
      } else {
        paidBy := username;
        splitMembers := [];
      }
    }

    method Toggle(m: string)
      modifies this
      ensures State() == old(State()).(splitMembers := ToggleMember(old(splitMembers), m))
    {
      splitMembers := ToggleMember(splitMembers, m);
    }

    /** The receipt prefill of the first effect. */
    method Prefill(rd: ReceiptData, m: Option<JsDateMatch>, today: string, built: string)
      requires m.Some? ==> JsDigitsOnly(m.value)
      requires PricesInCents(rd.lineItems) && (rd.amount.Some? ==> WholeCents(rd.amount.value))
      modifies this
      ensures State() == Prefilled(old(State()), rd, m, today, built)
    {
      SetState(Prefilled(State(), rd, m, today, built));
    }

    /** `addExpense`: the guards, then the request (returned) and the handling
        of the server's reply to it. */
    method AddExpense(reply: Reply) returns (sent: Option<Payload>)
      modifies this
      ensures Submit(old(State())).Rejected? ==>
                sent.None? && State() == old(State()).(message := Submit(old(State())).message)
      ensures Submit(old(State())).Send? ==>
                sent == Some(Submit(old(State())).payload) && State() == Answered(old(State()), reply)
    {
      var decision := Submit(State());
      if decision.Rejected? {
        message := decision.message;
        sent := None;
        return;
      }
      sent := Some(decision.payload);
      SetState(Answered(State(), reply));
    }
  }
}
