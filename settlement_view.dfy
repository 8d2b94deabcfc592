/** The pure parts of the settlement-suggestions page
    (frontend/src/SettlementSuggestions.jsx): avatar initials, the list of
    groups the page shows for the endpoint's answer, and the badge of a group. */
module SettlementView {
  import opened Basics
  import opened Text

  // ---------------------------------------------------------------------------
  // initials
  // ---------------------------------------------------------------------------

  /** `s.split(/\s+/)`: the pieces between runs of whitespace; a leading or
      trailing run gives an empty piece at that end. */
  function SplitSpaces(s: string): (r: seq<string>)
    ensures |r| >= 1
    decreases |s|
  {
    if s == [] then [""]
    else if IsSpace(s[0]) then
      assert LeadingSpaces(s) > 0;
      [""] + SplitSpaces(TrimStart(s))
    else
      var rest := SplitSpaces(s[1..]);
      [[s[0]] + rest[0]] + rest[1..]
  }

  /** Length of the longest prefix without whitespace. */
  function WordLength(s: string): (k: nat)
    ensures k <= |s|
    ensures forall i :: 0 <= i < k ==> !IsSpace(s[i])
    ensures k < |s| ==> IsSpace(s[k])
  {
    if s == [] || IsSpace(s[0]) then 0 else 1 + WordLength(s[1..])
  }

  /** The first piece is the first word; after it, the pieces of what follows
      the next whitespace run. */
  lemma {:induction false} SplitSpacesFirst(s: string)
    ensures SplitSpaces(s)[0] == s[..WordLength(s)]
    ensures WordLength(s) < |s| ==> SplitSpaces(s)[1..] == SplitSpaces(TrimStart(s[WordLength(s)..]))
    decreases |s|
  {
    if s != [] && !IsSpace(s[0]) {
      SplitSpacesFirst(s[1..]);
      assert s[1..][WordLength(s) - 1..] == s[WordLength(s)..];
      assert s[..WordLength(s)] == [s[0]] + s[1..][..WordLength(s) - 1];
    }
  }

  /** `s[0]?.toUpperCase() || ''` for one piece. */
  function InitialOf(w: string): string {
    if w == "" then "" else [ToUpperChar(w[0])]
  }

  function InitialsOf(ws: seq<string>): (r: seq<string>)
    ensures |r| == |ws|
    ensures forall i :: 0 <= i < |ws| ==> r[i] == InitialOf(ws[i])
  {
    if ws == [] then [] else [InitialOf(ws[0])] + InitialsOf(ws[1..])
  }

  /** `initials(name)`: trim, split on whitespace, keep two pieces, join their
      upper-cased first characters. */
  function Initials(name: string): string {
    Join(InitialsOf(Take(SplitSpaces(Trim(name)), 2)), "")
  }

  /** A blank name has no initials.  Otherwise the first initial is the
      upper-cased first character; a second one exists exactly when the name
      has inner whitespace, and it is the upper-cased character that follows
      the first word and the whitespace run after it. */
  lemma InitialsSpec(name: string)
    ensures |Initials(name)| <= 2
    ensures Trim(name) == "" ==> Initials(name) == ""
    ensures var t := Trim(name);
            var p := WordLength(t);
            t != "" ==>
              && 1 <= |Initials(name)| && Initials(name)[0] == ToUpperChar(t[0])
              && (|Initials(name)| == 2 <==> exists i :: 0 <= i < |t| && IsSpace(t[i]))
              && (|Initials(name)| == 2 ==>
                    p < |t| && p + LeadingSpaces(t[p..]) < |t| &&
                    Initials(name)[1] == ToUpperChar(t[p + LeadingSpaces(t[p..])]))
  {
    var t := Trim(name);
    TrimProperties(name);
    var ws := SplitSpaces(t);
    SplitSpacesFirst(t);
    if t == "" {
      assert Take(ws, 2) == [""];
    } else if WordLength(t) == |t| {
      OneWord(t, ws);
      assert Take(ws, 2) == [t];
    } else {
      TwoWords(t, ws);
      TwoInitials(ws);
    }
  }

  /** A trimmed string with inner whitespace: its second piece starts with the
      first character after the first run. */
  lemma TwoWords(t: string, ws: seq<string>)
    requires t != [] && Trimmed(t) && ws == SplitSpaces(t) && WordLength(t) < |t|
    requires ws[1..] == SplitSpaces(TrimStart(t[WordLength(t)..]))
    ensures var p := WordLength(t);
            && p + LeadingSpaces(t[p..]) < |t|
            && |ws| >= 2 && ws[1] != "" && ws[1][0] == t[p + LeadingSpaces(t[p..])]
  {
    var p := WordLength(t);
    var u := TrimStart(t[p..]);
    var k := LeadingSpaces(t[p..]);
    assert t[p..][|t[p..]| - 1] == t[|t| - 1];
    assert k < |t[p..]|;
    assert u[0] == t[p + k];
    SplitSpacesFirst(u);
  }

  /** The initials of two non-empty pieces. */
  lemma TwoInitials(ws: seq<string>)
    requires |ws| >= 2 && ws[0] != "" && ws[1] != ""
    ensures Join(InitialsOf(Take(ws, 2)), "") == [ToUpperChar(ws[0][0]), ToUpperChar(ws[1][0])]
  {
    assert Take(ws, 2) == [ws[0], ws[1]];
    var r := InitialsOf([ws[0], ws[1]]);
    assert r == [[ToUpperChar(ws[0][0])], [ToUpperChar(ws[1][0])]];
    assert r[1..] == [[ToUpperChar(ws[1][0])]];
  }

  /** A string without whitespace is one piece. */
  lemma {:induction false} OneWord(t: string, ws: seq<string>)
    requires ws == SplitSpaces(t) && WordLength(t) == |t|
    ensures ws == [t]
    ensures forall i :: 0 <= i < |t| ==> !IsSpace(t[i])
    decreases |t|
  {
    if t != [] {
      OneWord(t[1..], SplitSpaces(t[1..]));
      assert t == [t[0]] + t[1..];
    }
  }

  // ---------------------------------------------------------------------------
  // The groups shown and their badges
  // ---------------------------------------------------------------------------

  datatype ViewTransfer = ViewTransfer(from: string, to: string, amount: real)

  /** A group as the page renders it; absent fields are None. */
  datatype GroupView = GroupView(groupId: string, groupName: Option<string>,
                                 transfers: Option<seq<ViewTransfer>>)

  /** The endpoint's answer as the page keeps it: nothing yet, an object (the
      one-group answer) or an array of per-group answers. */
  datatype Data = Missing | Object(groupName: Option<string>, transfers: Option<seq<ViewTransfer>>)
                | Array(items: seq<GroupView>)

  /** The `groups` memo; `groupId` is the page's prop, '' when absent. */
  function Shown(groupId: string, data: Data): seq<GroupView> {
    if groupId != "" && !data.Missing? then
      var transfers := if data.Object? && data.transfers.Some? then data.transfers.value else [];
      [GroupView(groupId, if data.Object? then data.groupName else None, Some(transfers))]
    else if data.Array? then data.items
    else []
  }

  /** With a group id and an answer the page shows exactly one group, under
      that id, and always with a list of transfers, so its badge never falls
      back on missing transfers: the badge says 'All settled' exactly when the
      answer carries no transfers, and otherwise counts the answer's transfers.
      Without a group id every group shown is one of the array answer's, in
      its order, and anything but an array shows nothing. */
  lemma ShownSpec(groupId: string, data: Data)
    ensures groupId != "" && !data.Missing? ==>
              var g := Shown(groupId, data);
              && |g| == 1 && g[0].groupId == groupId && g[0].transfers.Some?
              && (Badge(g[0]) == "All settled" <==>
                    !(data.Object? && data.transfers.Some? && data.transfers.value != []))
              && (Badge(g[0]) != "All settled" ==> Badge(g[0]) == Badge(GroupView(groupId, None, data.transfers)))
    ensures groupId == "" ==> forall v :: v in Shown(groupId, data) ==> data.Array? && v in data.items
    ensures groupId == "" && data.Array? ==> Shown(groupId, data) == data.items
    ensures data.Missing? || (groupId == "" && !data.Array?) ==> Shown(groupId, data) == []
  {
    if groupId != "" && !data.Missing? {
      var g := Shown(groupId, data)[0];
      BadgeSpec(g);
      if data.Object? {
        BadgeSpec(GroupView(groupId, None, data.transfers));
      }
    }
  }

  /** The badge text of a group. */
  function Badge(g: GroupView): string {
    if g.transfers.Some? && g.transfers.value != [] then
      var n := |g.transfers.value|;
      NatToString(n) + " transfer" + (if n > 1 then "s" else "")
    else "All settled"
  }

  /** 'All settled' exactly when there is nothing to transfer; otherwise the
      badge starts with the number of transfers written in decimal (which reads
      back as that number), followed by " transfer", and ends in 's' exactly when
      there is more than one. */
  lemma BadgeSpec(g: GroupView)
    ensures Badge(g) == "All settled" <==> g.transfers.None? || g.transfers.value == []
    ensures g.transfers.Some? && g.transfers.value != [] ==>
              var n := |g.transfers.value|;
              var k := |NatToString(n)|;
              && k < |Badge(g)| && AllDigits(Badge(g)[..k]) && ParseNat(Badge(g)[..k]) == n
              && IsPrefix(" transfer", Badge(g)[k..])
              && (Badge(g)[|Badge(g)| - 1] == 's' <==> n > 1)
  {
    if g.transfers.Some? && g.transfers.value != [] {
      var n := |g.transfers.value|;
      var w := NatToString(n);
      var b := Badge(g);
      ParseNatToString(n);
      assert b[..|w|] == w;
      assert b[|w|..] == " transfer" + (if n > 1 then "s" else "");
      assert IsDigit(b[0]) && !IsDigit("All settled"[0]);
    }
  }
}
