/** The list page as the main loop sees it, and the decision it takes for
    every entry: leave it alone, write 0 into it, or fetch a score and
    write that. Sections and entries are what the page's selectors return,
    in document order. */
module ListPage {
  import opened Wrappers
  import opened JsText
  import opened JsNumber
  import opened Href

  /** The entry's `.score` element: its text content (untrimmed) and its
      `score` attribute, `None` when the attribute is absent. */
  datatype ScoreCell = ScoreCell(text: string, scoreAttr: Option<string>)

  /** One `.entry.row`: whether it carries the `NOT_YET_RELEASED` release
      marker, the hrefs of its `.title a` links in order, and its score
      element if it has one. */
  datatype Entry = Entry(notYetReleased: bool, titleLinks: seq<string>, scoreCell: Option<ScoreCell>)

  /** One `.list-wrap`: the text of its `.section-name` if it has one, and
      its entries. */
  datatype Section = Section(name: Option<string>, entries: seq<Entry>)

  datatype Action = Skip | SetScore(value: int) | FetchThenSet(id: string)

  /** The substring that marks a section whose leftover scores are reset. */
  const PlanningMarker := "Planning"

  /** The `score` attribute value that marks an entry as unscored. */
  const UnscoredAttr := "0"

  /** `sc?.textContent.trim()`. */
  function ScoreText(e: Entry): Option<string> {
    match e.scoreCell
    case None => None
    case Some(c) => Some(Trim(c.text))
  }

  /** `sc?.getAttribute('score')`; `undefined` and `null` both become `None`,
      and neither equals `'0'`. */
  function ScoreAttr(e: Entry): Option<string> {
    match e.scoreCell
    case None => None
    case Some(c) => c.scoreAttr
  }

  /** `n?.includes('Planning')` for the trimmed section name `n`. */
  predicate IsPlanning(name: Option<string>) {
    name.Some? && Includes(Trim(name.value), PlanningMarker)
  }

  /** The entry shows a score: its trimmed score text is non-empty and its
      `score` attribute is not `'0'` (the guard of line 102, and the
      negation of the first Planning guard of line 97). */
  predicate ShowsScore(e: Entry) {
    ScoreText(e).Some? && ScoreText(e).value != "" && ScoreAttr(e) != Some(UnscoredAttr)
  }

  /** The decision of lines 87-103 for a released entry `e` of a section
      named `name`. An entry without a link under the type path or without
      an id in it is skipped. In a Planning section, an entry that shows a
      score is zeroed unless its text parses to 0 (text that does not parse
      is NaN, which is not 0, so it is zeroed too). Elsewhere, an entry that
      shows no score gets a fetched score. */
  function Decide(name: Option<string>, e: Entry, kind: MediaKind): (r: Action)
    ensures !Locate(e.titleLinks, kind).Found? ==> r == Skip
    ensures r.SetScore? ==> r.value == 0 && IsPlanning(name)
    ensures r.FetchThenSet? ==> Locate(e.titleLinks, kind) == Found(r.id) && !IsPlanning(name)
  {
    match Locate(e.titleLinks, kind)
    case NoLink => Skip
    case NoId => Skip
    case Found(id) =>
      var txt := ScoreText(e);
      var attr := ScoreAttr(e);
      if IsPlanning(name) then
        if txt.None? || txt.value == "" || attr == Some(UnscoredAttr) then Skip
        else if ParseInt(txt.value) == Some(0) then Skip
        else SetScore(0)
      else if txt.Some? && txt.value != "" && attr != Some(UnscoredAttr) then Skip
      else FetchThenSet(id)
  }

  /** When each action is taken. Zeroing happens only in a Planning
      section, to an identified entry that shows a score whose text does not
      parse to 0, and the value is always 0. A fetch happens only outside
      Planning, to an identified entry that shows no score, and uses the
      entry's own id. Every other entry is skipped. */
  lemma DecideSpec(name: Option<string>, e: Entry, kind: MediaKind)
    ensures var r := Decide(name, e, kind);
      && (r.SetScore? <==>
            && Locate(e.titleLinks, kind).Found? && IsPlanning(name)
            && ShowsScore(e) && ParseInt(ScoreText(e).value) != Some(0))
      && (r.SetScore? ==> r.value == 0)
      && (r.FetchThenSet? <==> Locate(e.titleLinks, kind).Found? && !IsPlanning(name) && !ShowsScore(e))
      && (r.FetchThenSet? ==> Locate(e.titleLinks, kind) == Found(r.id))
  {
  }

  /** The decision for entry `entry` of section `section`. */
  datatype Decision = Decision(section: nat, entry: nat, action: Action)

  /** `d` refers to an entry of the page. */
  predicate InPage(sections: seq<Section>, d: Decision) {
    d.section < |sections| && d.entry < |sections[d.section].entries|
  }

  /** `d` is the decision the main loop takes for a released entry of the
      page. */
  predicate Decided(sections: seq<Section>, kind: MediaKind, d: Decision) {
    && InPage(sections, d)
    && !sections[d.section].entries[d.entry].notYetReleased
    && d.action == Decide(sections[d.section].name, sections[d.section].entries[d.entry], kind)
  }

  /** Document order: sections in order, entries within a section in order. */
  predicate Precedes(d: Decision, d': Decision) {
    d.section < d'.section || (d.section == d'.section && d.entry < d'.entry)
  }

  /** The decisions for the first `n` entries of section `si` (the inner
      loop; the filter of line 83 drops unreleased entries, and line 84's
      early `continue` on an empty section yields no decisions). */
  function SectionPlan(sections: seq<Section>, kind: MediaKind, si: nat, n: nat): (r: seq<Decision>)
    requires si < |sections| && n <= |sections[si].entries|
    ensures forall k :: 0 <= k < |r| ==>
      Decided(sections, kind, r[k]) && r[k].section == si && r[k].entry < n
    ensures forall j :: 0 <= j < n && !sections[si].entries[j].notYetReleased ==>
      exists k :: 0 <= k < |r| && r[k].entry == j
    ensures forall i, j :: 0 <= i < j < |r| ==> r[i].entry < r[j].entry
    decreases n
  {
    if n == 0 then []
    else
      var e := sections[si].entries[n - 1];
      var front := SectionPlan(sections, kind, si, n - 1);
      var next := if e.notYetReleased then [] else [Decision(si, n - 1, Decide(sections[si].name, e, kind))];
      assert forall k :: 0 <= k < |next| ==> next[k] == Decision(si, n - 1, Decide(sections[si].name, e, kind));
      AppendEntryDecided(sections, kind, si, n, front, next);
      AppendEntryOrdered(n, front, next);
      AppendEntryCovers(sections, si, n, front, next);
      front + next
  }

  lemma AppendEntryDecided(sections: seq<Section>, kind: MediaKind, si: nat, n: nat, front: seq<Decision>, next: seq<Decision>)
    requires si < |sections| && 1 <= n <= |sections[si].entries|
    requires forall k :: 0 <= k < |front| ==>
      Decided(sections, kind, front[k]) && front[k].section == si && front[k].entry < n - 1
    requires forall k :: 0 <= k < |next| ==>
      Decided(sections, kind, next[k]) && next[k].section == si && next[k].entry == n - 1
    ensures forall k :: 0 <= k < |front + next| ==>
      Decided(sections, kind, (front + next)[k]) && (front + next)[k].section == si && (front + next)[k].entry < n
  {
    var r := front + next;
    forall k | 0 <= k < |r| ensures Decided(sections, kind, r[k]) && r[k].section == si && r[k].entry < n {
      if k < |front| {
        assert r[k] == front[k];
      } else {
        assert r[k] == next[k - |front|];
      }
    }
  }

  lemma AppendEntryOrdered(n: nat, front: seq<Decision>, next: seq<Decision>)
    requires n >= 1
    requires forall k :: 0 <= k < |front| ==> front[k].entry < n - 1
    requires forall i, j :: 0 <= i < j < |front| ==> front[i].entry < front[j].entry
    requires |next| <= 1 && forall k :: 0 <= k < |next| ==> next[k].entry == n - 1
    ensures forall i, j :: 0 <= i < j < |front + next| ==> (front + next)[i].entry < (front + next)[j].entry
  {
    var r := front + next;
    forall i, j | 0 <= i < j < |r| ensures r[i].entry < r[j].entry {
      assert r[i] == front[i];
      if j < |front| {
        assert r[j] == front[j];
      } else {
        assert r[j] == next[0];
      }
    }
  }

  lemma AppendEntryCovers(sections: seq<Section>, si: nat, n: nat, front: seq<Decision>, next: seq<Decision>)
    requires si < |sections| && 1 <= n <= |sections[si].entries|
    requires forall j :: 0 <= j < n - 1 && !sections[si].entries[j].notYetReleased ==>
      exists k :: 0 <= k < |front| && front[k].entry == j
    requires !sections[si].entries[n - 1].notYetReleased ==> |next| == 1 && next[0].entry == n - 1
    ensures forall j :: 0 <= j < n && !sections[si].entries[j].notYetReleased ==>
      exists k :: 0 <= k < |front + next| && (front + next)[k].entry == j
  {
    var r := front + next;
    forall j | 0 <= j < n && !sections[si].entries[j].notYetReleased
      ensures exists k :: 0 <= k < |r| && r[k].entry == j
    {
      if j < n - 1 {
        var k :| 0 <= k < |front| && front[k].entry == j;
        assert r[k] == front[k];
      } else {
        assert r[|front|] == next[0];
      }
    }
  }

  /** The decisions for the first `m` sections (the outer loop). */
  function PlanUpTo(sections: seq<Section>, kind: MediaKind, m: nat): (r: seq<Decision>)
    requires m <= |sections|
    ensures forall k :: 0 <= k < |r| ==> Decided(sections, kind, r[k]) && r[k].section < m
    ensures forall s, j :: 0 <= s < m && 0 <= j < |sections[s].entries| && !sections[s].entries[j].notYetReleased ==>
      exists k :: 0 <= k < |r| && r[k].section == s && r[k].entry == j
    ensures forall i, j :: 0 <= i < j < |r| ==> Precedes(r[i], r[j])
    decreases m
  {
    if m == 0 then []
    else
      var front := PlanUpTo(sections, kind, m - 1);
      var last := SectionPlan(sections, kind, m - 1, |sections[m - 1].entries|);
      AppendSection(sections, kind, m, m - 1, front, last);
      front + last
  }

  /** The plan of the first `m - 1` sections followed by the plan of section
      `m - 1` is the plan of the first `m` sections. */
  lemma AppendSection(sections: seq<Section>, kind: MediaKind, m: nat, si: nat, front: seq<Decision>, last: seq<Decision>)
    requires 1 <= m <= |sections| && si == m - 1
    requires forall k :: 0 <= k < |front| ==> Decided(sections, kind, front[k]) && front[k].section < m - 1
    requires forall s, j :: 0 <= s < m - 1 && 0 <= j < |sections[s].entries| && !sections[s].entries[j].notYetReleased ==>
      exists k :: 0 <= k < |front| && front[k].section == s && front[k].entry == j
    requires forall i, j :: 0 <= i < j < |front| ==> Precedes(front[i], front[j])
    requires forall k :: 0 <= k < |last| ==> Decided(sections, kind, last[k]) && last[k].section == si
    requires forall j :: 0 <= j < |sections[si].entries| && !sections[si].entries[j].notYetReleased ==>
      exists k :: 0 <= k < |last| && last[k].entry == j
    requires forall i, j :: 0 <= i < j < |last| ==> last[i].entry < last[j].entry
    ensures forall k :: 0 <= k < |front + last| ==> Decided(sections, kind, (front + last)[k]) && (front + last)[k].section < m
    ensures forall s, j :: 0 <= s < m && 0 <= j < |sections[s].entries| && !sections[s].entries[j].notYetReleased ==>
      exists k :: 0 <= k < |front + last| && (front + last)[k].section == s && (front + last)[k].entry == j
    ensures forall i, j :: 0 <= i < j < |front + last| ==> Precedes((front + last)[i], (front + last)[j])
  {
    AppendSectionDecided(sections, kind, m, front, last);
    AppendSectionOrdered(m, front, last);
    AppendSectionCovers(sections, m, si, front, last);
  }

  lemma AppendSectionDecided(sections: seq<Section>, kind: MediaKind, m: nat, front: seq<Decision>, last: seq<Decision>)
    requires forall k :: 0 <= k < |front| ==> Decided(sections, kind, front[k]) && front[k].section < m
    requires forall k :: 0 <= k < |last| ==> Decided(sections, kind, last[k]) && last[k].section < m
    ensures forall k :: 0 <= k < |front + last| ==>
      Decided(sections, kind, (front + last)[k]) && (front + last)[k].section < m
  {
    var r := front + last;
    forall k | 0 <= k < |r| ensures Decided(sections, kind, r[k]) && r[k].section < m {
      if k < |front| {
        assert r[k] == front[k];
      } else {
        assert r[k] == last[k - |front|];
      }
    }
  }

  lemma AppendSectionOrdered(m: nat, front: seq<Decision>, last: seq<Decision>)
    requires m >= 1
    requires forall k :: 0 <= k < |front| ==> front[k].section < m - 1
    requires forall k :: 0 <= k < |last| ==> last[k].section == m - 1
    requires forall i, j :: 0 <= i < j < |front| ==> Precedes(front[i], front[j])
    requires forall i, j :: 0 <= i < j < |last| ==> last[i].entry < last[j].entry
    ensures forall i, j :: 0 <= i < j < |front + last| ==> Precedes((front + last)[i], (front + last)[j])
  {
    var r := front + last;
    forall i, j | 0 <= i < j < |r| ensures Precedes(r[i], r[j]) {
      if j < |front| {
        assert r[i] == front[i] && r[j] == front[j];
      } else if i < |front| {
        assert r[i] == front[i] && r[j] == last[j - |front|];
      } else {
        assert r[i] == last[i - |front|] && r[j] == last[j - |front|];
      }
    }
  }

  lemma AppendSectionCovers(sections: seq<Section>, m: nat, si: nat, front: seq<Decision>, last: seq<Decision>)
    requires 1 <= m <= |sections| && si == m - 1
    requires forall s, j :: 0 <= s < m - 1 && 0 <= j < |sections[s].entries| && !sections[s].entries[j].notYetReleased ==>
      exists k :: 0 <= k < |front| && front[k].section == s && front[k].entry == j
    requires forall k :: 0 <= k < |last| ==> last[k].section == si
    requires forall j :: 0 <= j < |sections[si].entries| && !sections[si].entries[j].notYetReleased ==>
      exists k :: 0 <= k < |last| && last[k].entry == j
    ensures forall s, j :: 0 <= s < m && 0 <= j < |sections[s].entries| && !sections[s].entries[j].notYetReleased ==>
      exists k :: 0 <= k < |front + last| && (front + last)[k].section == s && (front + last)[k].entry == j
  {
    var r := front + last;
    forall s, j | 0 <= s < m && 0 <= j < |sections[s].entries| && !sections[s].entries[j].notYetReleased
      ensures exists k :: 0 <= k < |r| && r[k].section == s && r[k].entry == j
    {
      if s < m - 1 {
        var k :| 0 <= k < |front| && front[k].section == s && front[k].entry == j;
        assert r[k] == front[k];
      } else {
        var k :| 0 <= k < |last| && last[k].entry == j;
        assert r[|front| + k] == last[k];
      }
    }
  }

  /** The decisions of the whole main loop (lines 78-105): one for every
      released entry, none for anything else, in document order. With no
      sections at all (line 79) there are none. */
  function Plan(sections: seq<Section>, kind: MediaKind): (r: seq<Decision>)
    ensures forall k :: 0 <= k < |r| ==> Decided(sections, kind, r[k])
    ensures forall s, j :: 0 <= s < |sections| && 0 <= j < |sections[s].entries| && !sections[s].entries[j].notYetReleased ==>
      exists k :: 0 <= k < |r| && r[k].section == s && r[k].entry == j
    ensures forall i, j :: 0 <= i < j < |r| ==> Precedes(r[i], r[j])
    ensures sections == [] ==> r == []
  {
    PlanUpTo(sections, kind, |sections|)
  }
}
