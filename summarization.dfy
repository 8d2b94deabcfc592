/** The pure parts of the summary page (frontend/src/Summarization.jsx): the
    key figures with their defaults, the three largest groups, and how the AI
    text is cut into paragraphs and bullets. */
module SummaryView {
  import opened Basics
  import opened Text
  import opened Tally
  import opened Sorting
  import opened Ranked
  import Analytics

  // ---------------------------------------------------------------------------
  // Key figures
  // ---------------------------------------------------------------------------

  /** The four figures of the page. */
  datatype Kpis = Kpis(total: real, topGroup: string, recentCount: nat, avgRecent: real)

  /** The figures for the loaded summary (None before it has loaded or when it
      failed to load). */
  function KpisOf(basic: Option<Analytics.Summary>): Kpis {
    if basic.None? then Kpis(0.0, "-", 0, 0.0)
    else
      var b := basic.value;
      Kpis(b.total,
           if b.byGroup == [] || b.byGroup[0].key == "" then "-" else b.byGroup[0].key,
           if b.quick.Some? then b.quick.value.countRecent else 0,
           if b.quick.Some? then b.quick.value.avgRecent else 0.0)
  }

  /** Without data the figures are 0, '-', 0 and 0.  For the summary of some
      rows the total is the rows' spend, the recent count is the number of rows
      up to ten, and the top group names a group with the largest total (unless
      that name is empty, shown as '-'). */
  lemma KpisSpec(rows: seq<Analytics.Row>)
    ensures KpisOf(None) == Kpis(0.0, "-", 0, 0.0)
    ensures var k := KpisOf(Some(Analytics.SummaryOf(rows)));
            var b := Analytics.SummaryOf(rows).byGroup;
            && k.total == Analytics.TotalSpend(rows)
            && k.recentCount == (if |rows| <= 10 then |rows| else 10)
            && (rows == [] ==> k.topGroup == "-" && k.avgRecent == 0.0)
            && (k.topGroup != "-" ==>
                  exists e :: e in b && e.key == k.topGroup && forall f :: f in b ==> f.total <= e.total)
  {
    var s := Analytics.SummaryOf(rows);
    Analytics.QuickSpec(rows);
    Analytics.BreakdownSpec(rows, Analytics.GroupOf);
    if s.byGroup != [] {
      Analytics.HeadLargest(s.byGroup);
    }
  }

  /** `top3` without its chart percentages: the first three groups, [] when there
      are none. */
  function Top3(basic: Option<Analytics.Summary>): seq<Entry> {
    if basic.None? || basic.value.byGroup == [] then [] else Take(basic.value.byGroup, 3)
  }

  /** For the summary of some rows, the top three are at most three groups
      with their totals, largest first, and no group left out has a larger total
      than one shown. */
  lemma Top3Spec(rows: seq<Analytics.Row>)
    ensures Top3(None) == []
    ensures var t := Top3(Some(Analytics.SummaryOf(rows)));
            var b := Analytics.SummaryOf(rows).byGroup;
            && |t| == (if |b| < 3 then |b| else 3)
            && SortedDesc(t, EntryTotal)
            && t == b[..|t|]
            && forall i, j :: 0 <= i < |t| <= j < |b| ==> b[j].total <= t[i].total
  {
    Analytics.BreakdownSpec(rows, Analytics.GroupOf);
  }

  // ---------------------------------------------------------------------------
  // renderAi
  // ---------------------------------------------------------------------------

  /** A piece followed by a line feed loses the carriage return before it. */
  function DropCR(l: string): string {
    if l != [] && l[|l| - 1] == '\r' then l[..|l| - 1] else l
  }

  /** `ai.split(/\r?\n/)`: the pieces between line feeds, each but the last
      without the carriage return that ends it. */
  function SplitLines(ai: string): (r: seq<string>)
    ensures |r| == |Split(ai, '\n')|
    ensures forall i :: 0 <= i < |r| - 1 ==> r[i] == DropCR(Split(ai, '\n')[i])
    ensures r[|r| - 1] == Split(ai, '\n')[|r| - 1]
    ensures forall i :: 0 <= i < |r| ==> '\n' !in r[i]
  {
    var ps := Split(ai, '\n');
    seq(|ps|, i requires 0 <= i < |ps| => if i < |ps| - 1 then DropCR(ps[i]) else ps[i])
  }

  function NonEmpty(l: string): bool { l != "" }

  /** `.filter(Boolean)` */
  function Lines(ai: string): seq<string> {
    Keep(SplitLines(ai), NonEmpty)
  }

  /** `/^\s*-\s+/`: optional whitespace, a dash, then whitespace. */
  function IsBullet(l: string): bool {
    var k := LeadingSpaces(l);
    k + 1 < |l| && l[k] == '-' && IsSpace(l[k + 1])
  }

  function IsParagraph(l: string): bool { !IsBullet(l) }

  /** `l.replace(/^\s*-\s+/, '')` on a bullet line. */
  function BulletText(l: string): string
    requires IsBullet(l)
  {
    TrimStart(l[LeadingSpaces(l) + 1..])
  }

  function BulletTexts(ls: seq<string>): (r: seq<string>)
    requires forall i :: 0 <= i < |ls| ==> IsBullet(ls[i])
    ensures |r| == |ls|
    ensures forall i :: 0 <= i < |ls| ==> r[i] == BulletText(ls[i])
  {
    if ls == [] then [] else [BulletText(ls[0])] + BulletTexts(ls[1..])
  }

  /** What `renderAi` shows. */
  datatype Rendered = Placeholder | Content(paragraphs: seq<string>, bullets: seq<string>)

  function RenderAi(ai: string): Rendered {
    if ai == "" then Placeholder
    else
      var bs := Keep(Lines(ai), IsBullet);
      assert forall i :: 0 <= i < |bs| ==> bs[i] in bs;
      Content(Keep(Lines(ai), IsParagraph), BulletTexts(bs))
  }

  /** Keeping the elements that pass and those that fail splits a sequence in
      two whose lengths add up. */
  lemma {:induction false} KeepBoth(s: seq<string>)
    ensures |Keep(s, IsBullet)| + |Keep(s, IsParagraph)| == |s|
  {
    if s != [] {
      KeepBoth(s[1..]);
    }
  }

  /** A bullet is its marker (optional whitespace, a dash, whitespace) followed
      by its text, and that text does not start with whitespace. */
  lemma BulletTextSpec(l: string)
    requires IsBullet(l)
    ensures exists a, b :: 0 <= a < b <= |l| && b - a >= 2 && l[a] == '-' &&
                           (forall i :: 0 <= i < a ==> IsSpace(l[i])) &&
                           (forall i :: a < i < b ==> IsSpace(l[i])) &&
                           l[b..] == BulletText(l)
    ensures BulletText(l) == "" || !IsSpace(BulletText(l)[0])
  {
    var a := LeadingSpaces(l);
    var rest := l[a + 1..];
    var k := LeadingSpaces(rest);
    var b := a + 1 + k;
    assert forall i :: a < i < b ==> IsSpace(l[i]) by {
      forall i | a < i < b ensures IsSpace(l[i]) {
        assert rest[i - a - 1] == l[i];
      }
    }
    assert l[b..] == rest[k..];
    assert IsSpace(rest[0]);
    assert k >= 1;
  }

  /** Empty text shows only the placeholder.  Otherwise every line of the text
      that is not empty goes to exactly one of the paragraphs or the bullets, both
      keep the order of the text, and each bullet is shown without its marker:
      the paragraphs are the lines at increasing positions pi, the bullets the
      texts of the lines at increasing positions bi, and each line's position
      is in pi exactly when it is no bullet and in bi exactly when it is one. */
  lemma RenderAiSpec(ai: string)
    ensures RenderAi(ai).Placeholder? <==> ai == ""
    ensures ai != "" ==>
              var r := RenderAi(ai);
              var ls := Lines(ai);
              && (forall l :: l in ls ==> l != "" && '\n' !in l)
              && |r.paragraphs| + |r.bullets| == |ls|
              && (forall l :: l in r.paragraphs <==> l in ls && !IsBullet(l))
              && (forall l :: l in ls && IsBullet(l) ==> BulletText(l) in r.bullets)
    ensures ai != "" ==>
              var r := RenderAi(ai);
              var ls := Lines(ai);
              var pi := KeepIndices(ls, IsParagraph);
              && |r.paragraphs| == |pi|
              && (forall k :: 0 <= k < |pi| ==> r.paragraphs[k] == ls[pi[k]])
              && (forall k, l :: 0 <= k < l < |pi| ==> pi[k] < pi[l])
              && (forall i :: 0 <= i < |ls| ==> (i in pi <==> !IsBullet(ls[i])))
    ensures ai != "" ==>
              var r := RenderAi(ai);
              var ls := Lines(ai);
              var bi := KeepIndices(ls, IsBullet);
              && |r.bullets| == |bi|
              && (forall k :: 0 <= k < |bi| ==> IsBullet(ls[bi[k]]) && r.bullets[k] == BulletText(ls[bi[k]]))
              && (forall k, l :: 0 <= k < l < |bi| ==> bi[k] < bi[l])
              && (forall i :: 0 <= i < |ls| ==> (i in bi <==> IsBullet(ls[i])))
  {
    if ai != "" {
      var ls := Lines(ai);
      KeepBoth(ls);
      LinesShape(ai);
      BulletsShown(ls);
      ParagraphsInOrder(ls);
      BulletsInOrder(ls);
    }
  }

  /** The paragraphs are the non-bullet lines, position by position. */
  lemma ParagraphsInOrder(ls: seq<string>)
    ensures var pi := KeepIndices(ls, IsParagraph);
            && |Keep(ls, IsParagraph)| == |pi|
            && (forall k :: 0 <= k < |pi| ==> Keep(ls, IsParagraph)[k] == ls[pi[k]])
            && (forall k, l :: 0 <= k < l < |pi| ==> pi[k] < pi[l])
            && (forall i :: 0 <= i < |ls| ==> (i in pi <==> !IsBullet(ls[i])))
  {
    KeepIndicesAt(ls, IsParagraph);
    KeepIndicesIncreasing(ls, IsParagraph);
    KeepIndicesCover(ls, IsParagraph);
  }

  /** The bullets shown are the texts of the bullet lines, position by
      position. */
  lemma BulletsInOrder(ls: seq<string>)
    ensures var bi := KeepIndices(ls, IsBullet);
            var bs := Keep(ls, IsBullet);
            && (forall i :: 0 <= i < |bs| ==> IsBullet(bs[i]))
            && |BulletTexts(bs)| == |bi|
            && (forall k :: 0 <= k < |bi| ==> IsBullet(ls[bi[k]]) && BulletTexts(bs)[k] == BulletText(ls[bi[k]]))
            && (forall k, l :: 0 <= k < l < |bi| ==> bi[k] < bi[l])
            && (forall i :: 0 <= i < |ls| ==> (i in bi <==> IsBullet(ls[i])))
  {
    var bs := Keep(ls, IsBullet);
    assert forall i :: 0 <= i < |bs| ==> bs[i] in bs;
    KeepIndicesAt(ls, IsBullet);
    KeepIndicesIncreasing(ls, IsBullet);
    KeepIndicesCover(ls, IsBullet);
  }

  /** The lines kept are not empty and hold no line feed. */
  lemma LinesShape(ai: string)
    ensures forall l :: l in Lines(ai) ==> l != "" && '\n' !in l
  {
    var sl := SplitLines(ai);
    forall l | l in Lines(ai) ensures l != "" && '\n' !in l {
      var i :| 0 <= i < |sl| && sl[i] == l;
    }
  }

  /** Each bullet line's text is among the bullets shown. */
  lemma BulletsShown(ls: seq<string>)
    ensures var bs := Keep(ls, IsBullet);
            forall l :: l in ls && IsBullet(l) ==> BulletText(l) in BulletTexts(bs)
  {
    var bs := Keep(ls, IsBullet);
    forall l | l in ls && IsBullet(l) ensures BulletText(l) in BulletTexts(bs) {
      var i :| 0 <= i < |bs| && bs[i] == l;
      assert BulletTexts(bs)[i] == BulletText(l);
    }
  }
}
