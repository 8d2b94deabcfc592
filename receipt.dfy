/** The post-processing of receipt text in `parse_receipt` and
    `extract_line_items` (backend/app.py). The regular-expression matches are
    inputs: the capture of the `total` pattern, the currency amounts found
    anywhere, the day/month/year capture of the date pattern and the
    (name, price) captures of the line-item pattern. */
module Receipt {
  import opened Basics
  import opened Text

  // ---------------------------------------------------------------------------
  // Decimal amounts
  // ---------------------------------------------------------------------------

  /** Position of the first c in s. */
  function IndexOf(s: string, c: char): (k: nat)
    requires c in s
    ensures k < |s| && s[k] == c && c !in s[..k]
  {
    if s[0] == c then 0
    else
      assert s == [s[0]] + s[1..];
      var k := IndexOf(s[1..], c);
      assert s[..k + 1] == [s[0]] + s[1..][..k];
      k + 1
  }

  /** Python `float(t)` for t made of digits and at most one point: None where
      Python raises ValueError (no digit at all, or any other character). */
  function ParseDecimal(t: string): Option<real> {
    if '.' !in t then
      if t != [] && AllDigits(t) then Some(ParseNat(t) as real) else None
    else
      var k := IndexOf(t, '.');
      var whole, frac := t[..k], t[k + 1..];
      if AllDigits(whole) && AllDigits(frac) && (whole != [] || frac != [])
      then Some(Decimal(whole, frac))
      else None
  }

  /** The value of `whole.frac` written in decimal digits. */
  function Decimal(whole: string, frac: string): real
    requires AllDigits(whole) && AllDigits(frac)
  {
    ParseNat(whole) as real + ParseNat(frac) as real / Pow10(|frac|) as real
  }

  /** A capture read as a number once its thousands commas are removed. */
  function ParseAmount(s: string): Option<real> {
    ParseDecimal(RemoveChar(s, ','))
  }

  /** An amount in cents written with two decimals, as the patterns capture it. */
  function CentsText(c: nat): string {
    NatToString(c / 100) + "." + PadNat(c % 100, 2)
  }

  /** Two-decimal text parses back to its amount. */
  lemma ParseCents(c: nat)
    ensures ParseAmount(CentsText(c)) == Some(c as real / 100.0)
  {
    var q, r := c / 100, c % 100;
    assert CentsText(c) == NatToString(q) + "." + PadNat(r, 2);
    CentsParts(q, r);
    CentsSplit(c);
  }

  lemma CentsParts(q: nat, r: nat)
    requires r < 100
    ensures ParseAmount(NatToString(q) + "." + PadNat(r, 2)) == Some(q as real + r as real / 100.0)
  {
    var w, f := NatToString(q), PadNat(r, 2);
    assert ParseNat(w) == q by {
      ParseNatToString(q);
    }
    assert ParseNat(f) == r && |f| == 2 by {
      PadNatParse(r, 2);
      assert Pow10(2) == 100;
      NatToStringLength(r, 2);
    }
    CentsValue(w, f, q, r);
    var t := w + "." + f;
    assert ',' !in t;
    RemoveAbsentChar(t, ',');
  }

  lemma CentsValue(w: string, f: string, q: nat, r: nat)
    requires w != [] && AllDigits(w) && AllDigits(f) && |f| == 2
    requires ParseNat(w) == q && ParseNat(f) == r
    ensures ParseDecimal(w + "." + f) == Some(q as real + r as real / 100.0)
  {
    ParsePoint(w, f);
    assert Decimal(w, f) == q as real + r as real / 100.0 by {
      assert Pow10(|f|) == 100;
    }
  }

  /** Digits, a point and digits read as whole part plus fraction. */
  lemma ParsePoint(w: string, f: string)
    requires w != [] && AllDigits(w) && AllDigits(f)
    ensures ParseDecimal(w + "." + f) == Some(Decimal(w, f))
  {
    var t := w + "." + f;
    assert '.' !in w;
    assert t[|w|] == '.';
    var k := IndexOf(t, '.');
    assert k == |w|;
    assert t[..k] == w && t[k + 1..] == f;
  }

  lemma CentsSplit(c: nat)
    ensures (c / 100) as real + (c % 100) as real / 100.0 == c as real / 100.0
  {
    assert c == 100 * (c / 100) + c % 100;
  }

  // ---------------------------------------------------------------------------
  // The amount
  // ---------------------------------------------------------------------------

  /** The largest of a non-empty list. */
  function Max(xs: seq<real>): (m: real)
    requires xs != []
    ensures m in xs && forall x :: x in xs ==> x <= m
  {
    if |xs| == 1 then xs[0]
    else
      var rest := Max(xs[1..]);
      assert xs == [xs[0]] + xs[1..];
      if xs[0] >= rest then xs[0] else rest
  }

  /** Every currency capture read as a number, None when one of them does not read. */
  function ParseAll(ms: seq<string>): (r: Option<seq<real>>)
    ensures r.Some? <==> forall i :: 0 <= i < |ms| ==> ParseAmount(ms[i]).Some?
    ensures r.Some? ==>
              |r.value| == |ms| && forall i :: 0 <= i < |ms| ==> r.value[i] == ParseAmount(ms[i]).value
  {
    if ms == [] then Some([])
    else
      var h, t := ParseAmount(ms[0]), ParseAll(ms[1..]);
      assert forall i :: 1 <= i < |ms| ==> ms[i] == ms[1..][i - 1];
      if h.Some? && t.Some? then Some([h.value] + t.value) else None
  }

  /** The receipt amount: the `total` capture, or when there is none or it is
      zero, the largest currency amount anywhere (0 when there is none). None
      where `float` raises. */
  function AmountFrom(totalMatch: Option<string>, currencyMatches: seq<string>): Option<real> {
    var first := if totalMatch.None? then Some(0.0) else ParseAmount(totalMatch.value);
    if first.None? then None
    else if first.value != 0.0 then first
    else if currencyMatches == [] then Some(0.0)
    else match ParseAll(currencyMatches)
      case None => None
      case Some(vs) => Some(Max(vs))
  }

  /** A non-zero total wins; otherwise the result is the largest currency
      amount, one of them, or 0 when there are none. */
  lemma AmountSpec(totalMatch: Option<string>, currencyMatches: seq<string>)
    ensures totalMatch.Some? && ParseAmount(totalMatch.value).Some? &&
            ParseAmount(totalMatch.value).value != 0.0 ==>
              AmountFrom(totalMatch, currencyMatches) == ParseAmount(totalMatch.value)
    ensures (totalMatch.None? || ParseAmount(totalMatch.value) == Some(0.0)) ==>
              if currencyMatches == [] then AmountFrom(totalMatch, currencyMatches) == Some(0.0)
              else if exists i :: 0 <= i < |currencyMatches| && ParseAmount(currencyMatches[i]).None?
              then AmountFrom(totalMatch, currencyMatches).None?
              else
                var a := AmountFrom(totalMatch, currencyMatches);
                && a.Some?
                && (exists i :: 0 <= i < |currencyMatches| && ParseAmount(currencyMatches[i]) == a)
                && forall i :: 0 <= i < |currencyMatches| ==>
                     ParseAmount(currencyMatches[i]).value <= a.value
    ensures totalMatch.Some? && ParseAmount(totalMatch.value).None? ==>
              AmountFrom(totalMatch, currencyMatches).None?
  {
    if (totalMatch.None? || ParseAmount(totalMatch.value) == Some(0.0)) && currencyMatches != [] {
      var r := ParseAll(currencyMatches);
      if r.Some? {
        var m := Max(r.value);
        var i :| 0 <= i < |r.value| && r.value[i] == m;
        assert ParseAmount(currencyMatches[i]) == Some(m);
        forall j | 0 <= j < |currencyMatches| ensures ParseAmount(currencyMatches[j]).value <= m {
          assert r.value[j] in r.value;
        }
      }
    }
  }

  // ---------------------------------------------------------------------------
  // The date
  // ---------------------------------------------------------------------------

  /** The three captures of the date pattern, in the order day, month, year. */
  datatype DateMatch = DateMatch(day: string, month: string, year: string)

  predicate DigitsOnly(m: DateMatch) {
    AllDigits(m.day) && AllDigits(m.month) && AllDigits(m.year)
  }

  /** A two-digit year is prefixed with '20'. */
  function ExpandYear(y: string): string {
    if |y| == 2 then "20" + y else y
  }

  predicate IsLeap(y: nat) {
    (y % 4 == 0 && y % 100 != 0) || y % 400 == 0
  }

  function DaysIn(y: nat, m: nat): nat
    requires 1 <= m <= 12
  {
    if m == 2 then (if IsLeap(y) then 29 else 28)
    else if m == 4 || m == 6 || m == 9 || m == 11 then 30
    else 31
  }

  /** What `datetime(year, month, day)` accepts. */
  predicate ValidDate(y: nat, m: nat, d: nat) {
    1 <= y <= 9999 && 1 <= m <= 12 && 1 <= d <= DaysIn(y, m)
  }

  /** `strftime('%Y-%m-%d')` */
  function FormatDate(y: nat, m: nat, d: nat): string {
    PadNat(y, 4) + "-" + PadNat(m, 2) + "-" + PadNat(d, 2)
  }

  /** The date of the receipt: the captured date when it is a calendar date,
      otherwise today's date (the clock is a parameter). */
  function ReceiptDate(dm: Option<DateMatch>, today: string): string
    requires dm.Some? ==> DigitsOnly(dm.value)
  {
    if dm.None? then today
    else
      var y := ExpandYear(dm.value.year);
      assert y == dm.value.year || y == "20" + dm.value.year;
      var year, month, day := ParseNat(y), ParseNat(dm.value.month), ParseNat(dm.value.day);
      if ValidDate(year, month, day) then FormatDate(year, month, day) else today
  }

  /** A two-digit year is read as a year of the 2000s. */
  lemma ExpandYearValue(y: string)
    requires AllDigits(y) && |y| == 2
    ensures AllDigits(ExpandYear(y)) && ParseNat(ExpandYear(y)) == 2000 + ParseNat(y)
  {
    ParseNatAppend("20", y);
    assert ParseNat("20") == 20 by {
      assert "20"[..1] == "2";
      assert "2"[..0] == "";
    }
    assert Pow10(2) == 100;
  }

  /** A formatted date is ten characters `YYYY-MM-DD` whose fields read back as
      the year, month and day. */
  lemma FormatDateFields(y: nat, m: nat, d: nat)
    requires ValidDate(y, m, d)
    ensures var s := FormatDate(y, m, d);
            && |s| == 10 && s[4] == '-' && s[7] == '-'
            && AllDigits(s[..4]) && AllDigits(s[5..7]) && AllDigits(s[8..])
            && ParseNat(s[..4]) == y && ParseNat(s[5..7]) == m && ParseNat(s[8..]) == d
  {
    NatToStringLength(y, 4);
    NatToStringLength(m, 2);
    NatToStringLength(d, 2);
    assert Pow10(2) == 100 && Pow10(4) == 10000;
    var a, b, c := PadNat(y, 4), PadNat(m, 2), PadNat(d, 2);
    var s := FormatDate(y, m, d);
    assert s == a + "-" + b + "-" + c;
    assert s[..4] == a && s[5..7] == b && s[8..] == c;
    PadNatParse(y, 4);
    PadNatParse(m, 2);
    PadNatParse(d, 2);
  }

  /** The date is today's unless the capture is a calendar date, and then it is
      that date written `YYYY-MM-DD`, a two-digit year meaning 20yy. */
  lemma ReceiptDateSpec(dm: Option<DateMatch>, today: string)
    requires dm.Some? ==> DigitsOnly(dm.value)
    ensures dm.None? ==> ReceiptDate(dm, today) == today
    ensures dm.Some? && |dm.value.year| == 2 ==>
              var y, m, d := 2000 + ParseNat(dm.value.year), ParseNat(dm.value.month), ParseNat(dm.value.day);
              ReceiptDate(dm, today) == if ValidDate(y, m, d) then FormatDate(y, m, d) else today
    ensures dm.Some? && |dm.value.year| != 2 ==>
              var y, m, d := ParseNat(dm.value.year), ParseNat(dm.value.month), ParseNat(dm.value.day);
              ReceiptDate(dm, today) == if ValidDate(y, m, d) then FormatDate(y, m, d) else today
  {
    if dm.Some? && |dm.value.year| == 2 {
      ExpandYearValue(dm.value.year);
    }
  }

  // ---------------------------------------------------------------------------
  // The category
  // ---------------------------------------------------------------------------

  predicate Fits(line: string) {
    3 < |Trim(line)| < 50
  }

  /** The first fitting line of ls, stripped, or 'Purchase'. */
  function FirstFit(ls: seq<string>): string {
    if ls == [] then "Purchase"
    else if Fits(ls[0]) then Trim(ls[0])
    else FirstFit(ls[1..])
  }

  /** The category looked for among the first five lines. */
  function CategoryOf(lines: seq<string>): string {
    FirstFit(Take(lines, 5))
  }

  /** The loop over `lines[:5]` that stops at the first fitting line. */
  method Category(lines: seq<string>) returns (category: string)
    ensures category == CategoryOf(lines)
  {
    var head := Take(lines, 5);
    category := "Purchase";
    var i := 0;
    while i < |head|
      invariant 0 <= i <= |head|
      invariant category == "Purchase"
      invariant FirstFit(head) == FirstFit(head[i..])
    {
      var line := Trim(head[i]);
      if 3 < |line| && |line| < 50 {
        category := line;
        return;
      }
      assert head[i..][1..] == head[i + 1..];
      i := i + 1;
    }
  }

  lemma FirstFitSpec(ls: seq<string>)
    ensures (forall i :: 0 <= i < |ls| ==> !Fits(ls[i])) ==> FirstFit(ls) == "Purchase"
    ensures (exists i :: 0 <= i < |ls| && Fits(ls[i])) ==>
              exists i :: 0 <= i < |ls| && Fits(ls[i]) && FirstFit(ls) == Trim(ls[i]) &&
                          forall j :: 0 <= j < i ==> !Fits(ls[j])
    ensures FirstFit(ls) == "Purchase" || 3 < |FirstFit(ls)| < 50
  {
    FirstFitNone(ls);
    FirstFitFirst(ls);
    FirstFitShape(ls);
  }

  /** Without a fitting line the category is 'Purchase'. */
  lemma {:induction false} FirstFitNone(ls: seq<string>)
    ensures (forall i :: 0 <= i < |ls| ==> !Fits(ls[i])) ==> FirstFit(ls) == "Purchase"
  {
    if ls != [] && !Fits(ls[0]) {
      FirstFitNone(ls[1..]);
      assert forall i :: 1 <= i < |ls| ==> ls[i] == ls[1..][i - 1];
    }
  }

  /** With a fitting line the category is the first one, stripped. */
  lemma FirstFitFirst(ls: seq<string>)
    ensures (exists i :: 0 <= i < |ls| && Fits(ls[i])) ==>
              exists i :: 0 <= i < |ls| && Fits(ls[i]) && FirstFit(ls) == Trim(ls[i]) &&
                          forall j :: 0 <= j < i ==> !Fits(ls[j])
  {
    if exists i :: 0 <= i < |ls| && Fits(ls[i]) {
      var n :| 0 <= n < |ls| && Fits(ls[n]);
      var k := FirstSatisfying(ls, Fits, n);
      FirstFitAt(ls, k);
    }
  }

  /** The category is the line at k when k is the first fitting line. */
  lemma {:induction false} FirstFitAt(ls: seq<string>, k: nat)
    requires k < |ls| && Fits(ls[k])
    requires forall j :: 0 <= j < k ==> !Fits(ls[j])
    ensures FirstFit(ls) == Trim(ls[k])
  {
    if k > 0 {
      assert !Fits(ls[0]);
      assert forall j :: 0 <= j < k - 1 ==> ls[1..][j] == ls[j + 1];
      FirstFitAt(ls[1..], k - 1);
    }
  }

  /** A category other than 'Purchase' has 4 to 49 characters. */
  lemma {:induction false} FirstFitShape(ls: seq<string>)
    ensures FirstFit(ls) == "Purchase" || 3 < |FirstFit(ls)| < 50
  {
    if ls != [] && !Fits(ls[0]) {
      FirstFitShape(ls[1..]);
    }
  }

  /** The category is the stripped first of the first five lines that is longer
      than 3 and shorter than 50 once stripped, or 'Purchase' when none is;
      either way cutting it to 50 characters changes nothing. */
  lemma CategorySpec(lines: seq<string>)
    ensures (forall i :: 0 <= i < 5 && i < |lines| ==> !Fits(lines[i])) ==> CategoryOf(lines) == "Purchase"
    ensures (exists i :: 0 <= i < 5 && i < |lines| && Fits(lines[i])) ==>
              exists i :: 0 <= i < 5 && i < |lines| && Fits(lines[i]) &&
                          CategoryOf(lines) == Trim(lines[i]) &&
                          forall j :: 0 <= j < i ==> !Fits(lines[j])
    ensures Take(CategoryOf(lines), 50) == CategoryOf(lines)
  {
    var head := Take(lines, 5);
    FirstFitSpec(head);
    assert forall i :: 0 <= i < |head| ==> head[i] == lines[i];
  }

  // ---------------------------------------------------------------------------
  // Line items
  // ---------------------------------------------------------------------------

  /** The name and price captures of one line-item match. */
  datatype LineMatch = LineMatch(name: string, price: string)

  datatype Item = Item(name: string, price: real)

  /** The price capture is digits with an optional point, which `float` reads. */
  predicate PriceReadable(m: LineMatch) {
    ParseAmount(m.price).Some?
  }

  /** The item a match yields when it passes the filter: a positive price below
      10000 and a stripped name longer than two characters, cut to 50. */
  function Candidate(m: LineMatch): Option<Item>
    requires PriceReadable(m)
  {
    var name := Trim(m.name);
    var price := ParseAmount(m.price).value;
    if price > 0.0 && |name| > 2 && price < 10000.0 then Some(Item(Take(name, 50), price)) else None
  }

  /** The list `items` after the first loop over the matches ms. */
  function Filtered(ms: seq<LineMatch>): seq<Item>
    requires forall m :: m in ms ==> PriceReadable(m)
    decreases |ms|
  {
    if ms == [] then []
    else
      var init := ms[..|ms| - 1];
      assert forall m :: m in init ==> m in ms;
      var last := ms[|ms| - 1];
      Filtered(init) + (match Candidate(last) case None => [] case Some(it) => [it])
  }

  /** The list `unique_items` after the second loop over items: each item the
      first time it occurs. */
  function Dedupe(items: seq<Item>): seq<Item>
    decreases |items|
  {
    if items == [] then []
    else
      var d := Dedupe(items[..|items| - 1]);
      var last := items[|items| - 1];
      if last in d then d else d + [last]
  }

  /** `extract_line_items` */
  function LineItems(ms: seq<LineMatch>): seq<Item>
    requires forall m :: m in ms ==> PriceReadable(m)
  {
    Take(Dedupe(Filtered(ms)), 20)
  }

  /** The filtering loop. */
  method FilterItems(ms: seq<LineMatch>) returns (items: seq<Item>)
    requires forall m :: m in ms ==> PriceReadable(m)
    ensures items == Filtered(ms)
  {
    items := [];
    for k := 0 to |ms|
      invariant forall m :: m in ms[..k] ==> PriceReadable(m)
      invariant items == Filtered(ms[..k])
    {
      assert ms[..k + 1][..k] == ms[..k];
      assert ms[k] in ms;
      var name := Trim(ms[k].name);
      var price := ParseAmount(ms[k].price).value;
      if price > 0.0 && |name| > 2 && price < 10000.0 {
        items := items + [Item(Take(name, 50), price)];
      }
    }
    assert ms[..|ms|] == ms;
  }

  /** The duplicate-removing loop with its `seen` set. */
  method UniqueItems(items: seq<Item>) returns (unique: seq<Item>)
    ensures unique == Dedupe(items)
  {
    var seen: set<Item> := {};
    unique := [];
    for k := 0 to |items|
      invariant unique == Dedupe(items[..k])
      invariant forall x :: x in seen <==> x in unique
    {
      assert items[..k + 1][..k] == items[..k];
      var item := items[k];
      if item !in seen {
        seen := seen + {item};
        unique := unique + [item];
      }
    }
    assert items[..|items|] == items;
  }

  /** `extract_line_items` as the two loops and the final cut to 20. */
  method ExtractLineItems(ms: seq<LineMatch>) returns (r: seq<Item>)
    requires forall m :: m in ms ==> PriceReadable(m)
    ensures r == LineItems(ms)
  {
    var items := FilterItems(ms);
    var unique := UniqueItems(items);
    r := Take(unique, 20);
  }

  /** Filtering keeps exactly the items the matches yield, in match order. */
  lemma FilteredSpec(ms: seq<LineMatch>)
    requires forall m :: m in ms ==> PriceReadable(m)
    ensures forall it :: it in Filtered(ms) <==> exists m :: m in ms && Candidate(m) == Some(it)
  {
    FilteredSound(ms);
    FilteredComplete(ms);
  }

  /** Every item kept comes from a match. */
  lemma {:induction false} FilteredSound(ms: seq<LineMatch>)
    requires forall m :: m in ms ==> PriceReadable(m)
    ensures forall it :: it in Filtered(ms) ==> exists m :: m in ms && Candidate(m) == Some(it)
    decreases |ms|
  {
    if ms != [] {
      var init, last := ms[..|ms| - 1], ms[|ms| - 1];
      assert forall m :: m in init ==> m in ms;
      FilteredSound(init);
      forall it | it in Filtered(ms) ensures exists m :: m in ms && Candidate(m) == Some(it) {
        if it in Filtered(init) {
          var m :| m in init && Candidate(m) == Some(it);
          assert m in ms;
        } else {
          assert last in ms && Candidate(last) == Some(it);
        }
      }
    }
  }

  /** Every item a match yields is kept. */
  lemma {:induction false} FilteredComplete(ms: seq<LineMatch>)
    requires forall m :: m in ms ==> PriceReadable(m)
    ensures forall m :: m in ms && Candidate(m).Some? ==> Candidate(m).value in Filtered(ms)
    decreases |ms|
  {
    if ms != [] {
      var init, last := ms[..|ms| - 1], ms[|ms| - 1];
      assert forall m :: m in init ==> m in ms;
      FilteredComplete(init);
      assert forall m :: m in ms ==> m in init || m == last by {
        assert ms == init + [last];
      }
    }
  }

  /** An item a match yields has a positive price below 10000 and a name of 3
      to 50 characters. */
  lemma CandidateBounds(m: LineMatch)
    requires PriceReadable(m) && Candidate(m).Some?
    ensures 0.0 < Candidate(m).value.price < 10000.0 && 2 < |Candidate(m).value.name| <= 50
  {
  }

  /** First position of x in s. */
  function FirstIndex(s: seq<Item>, x: Item): (k: nat)
    requires x in s
    ensures k < |s| && s[k] == x && x !in s[..k]
  {
    if s[0] == x then 0
    else
      assert s == [s[0]] + s[1..];
      var k := FirstIndex(s[1..], x);
      assert s[..k + 1] == [s[0]] + s[1..][..k];
      k + 1
  }

  lemma FirstIndexSnoc(s: seq<Item>, x: Item, y: Item)
    requires y in s
    ensures FirstIndex(s + [x], y) == FirstIndex(s, y)
  {
    var k := FirstIndex(s, y);
    var k' := FirstIndex(s + [x], y);
    assert (s + [x])[..k] == s[..k];
    assert !(k' < k);
    assert (s + [x])[k] == y;
  }

  /** Removing duplicates leaves each item once, the same items, in order of
      their first occurrence. */
  lemma {:induction false} DedupeSpec(items: seq<Item>)
    ensures Distinct(Dedupe(items))
    ensures forall x :: x in Dedupe(items) <==> x in items
    ensures forall i, j :: 0 <= i < j < |Dedupe(items)| ==>
              FirstIndex(items, Dedupe(items)[i]) < FirstIndex(items, Dedupe(items)[j])
    decreases |items|
  {
    if items != [] {
      var init := items[..|items| - 1];
      var last := items[|items| - 1];
      var d := Dedupe(init);
      DedupeSpec(init);
      assert items == init + [last];
      forall x | x in d ensures FirstIndex(items, x) == FirstIndex(init, x) {
        FirstIndexSnoc(init, last, x);
      }
      if last !in d {
        var r := d + [last];
        assert last !in init;
        assert FirstIndex(items, last) == |init| by {
          assert items[|init|] == last;
          assert items[..|init|] == init;
        }
        forall i, j | 0 <= i < j < |r| ensures FirstIndex(items, r[i]) < FirstIndex(items, r[j]) {
          assert r[i] in d;
          if j < |d| {
            assert r[j] in d;
          }
        }
      }
    }
  }

  predicate Distinct(s: seq<Item>) {
    forall i, j :: 0 <= i < j < |s| ==> s[i] != s[j]
  }

  /** At most 20 items, no (name, price) pair twice, each with a positive price
      below 10000 and a name of 3 to 50 characters and each yielded by a match;
      they are the first of the distinct passing items in order of first
      occurrence, and fewer than 20 only when every passing item is listed. */
  lemma LineItemsSpec(ms: seq<LineMatch>)
    requires forall m :: m in ms ==> PriceReadable(m)
    ensures |LineItems(ms)| <= 20
    ensures Distinct(LineItems(ms))
    ensures forall it :: it in LineItems(ms) ==>
              0.0 < it.price < 10000.0 && 2 < |it.name| <= 50 &&
              exists m :: m in ms && Candidate(m) == Some(it)
    ensures LineItems(ms) == Dedupe(Filtered(ms))[..|LineItems(ms)|]
    ensures |LineItems(ms)| < 20 ==>
              forall m :: m in ms && Candidate(m).Some? ==> Candidate(m).value in LineItems(ms)
  {
    var f := Filtered(ms);
    var d := Dedupe(f);
    FilteredSpec(ms);
    DedupeSpec(f);
    var r := LineItems(ms);
    assert r == d[..|r|];
    forall it | it in r
      ensures 0.0 < it.price < 10000.0 && 2 < |it.name| <= 50 && exists m :: m in ms && Candidate(m) == Some(it)
    {
      var i :| 0 <= i < |r| && r[i] == it;
      assert it in d;
      var m :| m in ms && Candidate(m) == Some(it);
      CandidateBounds(m);
    }
    if |r| < 20 {
      assert r == d;
      forall m | m in ms && Candidate(m).Some? ensures Candidate(m).value in r {
        assert Candidate(m).value in f;
      }
    }
  }

  // ---------------------------------------------------------------------------
  // The whole parse
  // ---------------------------------------------------------------------------

  datatype Parsed = Parsed(amount: real, date: string, category: string,
                           lineItems: seq<Item>, rawText: string)

  /** `parse_receipt` on the text and its pattern matches; None where `float`
      raises on an amount capture. */
  method ParseReceipt(text: string, totalMatch: Option<string>, currencyMatches: seq<string>,
                      dateMatch: Option<DateMatch>, itemMatches: seq<LineMatch>, today: string)
    returns (r: Option<Parsed>)
    requires dateMatch.Some? ==> DigitsOnly(dateMatch.value)
    requires forall m :: m in itemMatches ==> PriceReadable(m)
    ensures r.None? <==> AmountFrom(totalMatch, currencyMatches).None?
    ensures r.Some? ==>
              r.value == Parsed(AmountFrom(totalMatch, currencyMatches).value,
                                ReceiptDate(dateMatch, today),
                                Take(CategoryOf(Split(text, '\n')), 50),
                                LineItems(itemMatches), Take(text, 500))
  {
    var amount := AmountFrom(totalMatch, currencyMatches);
    if amount.None? {
      return None;
    }
    var date := ReceiptDate(dateMatch, today);
    var category := Category(Split(text, '\n'));
    var items := ExtractLineItems(itemMatches);
    r := Some(Parsed(amount.value, date, Take(category, 50), items, Take(text, 500)));
  }
}
