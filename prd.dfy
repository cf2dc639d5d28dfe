/**
 * The requirement document (PRD): requirements with a four-valued status,
 * the document record that the implementation loop updates in place, its
 * markdown renderings, and the marker-delimited sections of a managed
 * markdown file (crates/ralph-lib/src/prd.rs).
 */
module Prd {
  import opened Common
  import opened Text

  // ---------------------------------------------------------------------
  // Requirement status and its wire strings
  // ---------------------------------------------------------------------

  datatype RequirementStatus = Todo | InProgress | Done | Blocked

  /** The serialized status; decoding it gives the status back. */
  function StatusToWire(s: RequirementStatus): (w: string)
    ensures StatusFromWire(w) == Some(s)
  {
    match s
    case Todo => "todo"
    case InProgress => "in_progress"
    case Done => "done"
    case Blocked => "blocked"
  }

  /** Decoding a stored status: exactly the four wire strings are accepted. */
  function StatusFromWire(w: string): (r: Option<RequirementStatus>)
    ensures r.Some? <==> w in {"todo", "in_progress", "done", "blocked"}
  {
    if w == "todo" then Some(Todo)
    else if w == "in_progress" then Some(InProgress)
    else if w == "done" then Some(Done)
    else if w == "blocked" then Some(Blocked)
    else None
  }

  /** Every accepted wire string is the encoding of the status it decodes to. */
  lemma StatusWireInverse(w: string)
    requires StatusFromWire(w).Some?
    ensures StatusToWire(StatusFromWire(w).value) == w
  {
  }

  // ---------------------------------------------------------------------
  // Requirements
  // ---------------------------------------------------------------------

  datatype Requirement = Requirement(
    id: string,
    title: string,
    status: RequirementStatus,
    acceptanceCriteria: seq<string>)

  /** Requirement ids are unique across the list. */
  predicate UniqueIds(reqs: seq<Requirement>) {
    forall i, j :: 0 <= i < j < |reqs| ==> reqs[i].id != reqs[j].id
  }

  /** The index of the first requirement with the given id (`iter().find`). */
  function FindById(reqs: seq<Requirement>, id: string): (r: Option<nat>)
    ensures r.Some? ==> r.value < |reqs| && reqs[r.value].id == id
    ensures r.Some? ==> forall j :: 0 <= j < r.value ==> reqs[j].id != id
    ensures r.None? <==> forall j :: 0 <= j < |reqs| ==> reqs[j].id != id
  {
    if reqs == [] then None
    else if reqs[0].id == id then Some(0)
    else match FindById(reqs[1..], id)
      case None => None
      case Some(k) => Some(k + 1)
  }

  /**
   * The requirement list after `update_requirement_status(id, st)`: the
   * first requirement with that id gets status `st`; nothing else changes.
   */
  function WithStatus(reqs: seq<Requirement>, id: string, st: RequirementStatus): (r: seq<Requirement>)
    ensures |r| == |reqs|
    ensures forall i :: 0 <= i < |reqs| ==>
      r[i].id == reqs[i].id && r[i].title == reqs[i].title
      && r[i].acceptanceCriteria == reqs[i].acceptanceCriteria
    ensures forall i :: 0 <= i < |reqs| ==>
      r[i].status == (if FindById(reqs, id) == Some(i) then st else reqs[i].status)
    ensures FindById(reqs, id).None? ==> r == reqs
  {
    match FindById(reqs, id)
    case None => reqs
    case Some(k) => reqs[k := reqs[k].(status := st)]
  }

  /** `FindById` looks only at the ids. */
  lemma FindByIdSameIds(a: seq<Requirement>, b: seq<Requirement>, id: string)
    requires |a| == |b| && forall i :: 0 <= i < |a| ==> a[i].id == b[i].id
    ensures FindById(a, id) == FindById(b, id)
  {
  }

  /** A second status update of the same id overrides the first. */
  lemma WithStatusTwice(reqs: seq<Requirement>, id: string, first: RequirementStatus, second: RequirementStatus)
    ensures WithStatus(WithStatus(reqs, id, first), id, second) == WithStatus(reqs, id, second)
  {
    FindByIdSameIds(WithStatus(reqs, id, first), reqs, id);
  }

  /** With unique ids, updating the id of requirement `k` updates requirement `k`. */
  lemma WithStatusAt(reqs: seq<Requirement>, k: nat, st: RequirementStatus)
    requires UniqueIds(reqs) && k < |reqs|
    ensures WithStatus(reqs, reqs[k].id, st) == reqs[k := reqs[k].(status := st)]
  {
  }

  /** The status icon used in the markdown rendering. */
  function MarkdownIcon(s: RequirementStatus): string {
    match s
    case Todo => "\U{2B1C}"
    case InProgress => "\U{1F504}"
    case Done => "\U{2705}"
    case Blocked => "\U{1F6AB}"
  }

  // ---------------------------------------------------------------------
  // Markdown rendering (`to_markdown`)
  // ---------------------------------------------------------------------

  function MarkdownPreamble(title: string, slug: string, runId: string, profiles: seq<string>): string {
    "# " + title + "\n\n"
    + "**Slug:** `" + slug + "`\n\n"
    + "**Run ID:** `" + runId + "`\n\n"
    + "**Validation Profiles:** " + Join(profiles, ", ") + "\n\n"
    + "## Requirements\n\n"
  }

  /** The status icon and id that open a requirement's heading. */
  function RequirementTag(r: Requirement): string {
    MarkdownIcon(r.status) + " " + r.id
  }

  function RequirementHeading(r: Requirement): string {
    "### " + RequirementTag(r) + (" - " + r.title + "\n\n" + "**Acceptance Criteria:**\n\n")
  }

  function CriteriaItem(ac: string): string {
    "- " + ac + "\n"
  }

  function CriteriaList(acs: seq<string>): string {
    if acs == [] then [] else CriteriaList(acs[..|acs| - 1]) + CriteriaItem(acs[|acs| - 1])
  }

  function RequirementBlock(r: Requirement): string {
    RequirementHeading(r) + CriteriaList(r.acceptanceCriteria) + "\n"
  }

  function RequirementBlocks(reqs: seq<Requirement>): string {
    if reqs == [] then [] else RequirementBlocks(reqs[..|reqs| - 1]) + RequirementBlock(reqs[|reqs| - 1])
  }

  function Markdown(title: string, slug: string, runId: string, profiles: seq<string>,
                    reqs: seq<Requirement>): string
  {
    MarkdownPreamble(title, slug, runId, profiles) + RequirementBlocks(reqs)
  }

  lemma BlockAssoc(before: string, r: Requirement)
    ensures before + RequirementHeading(r) + CriteriaList(r.acceptanceCriteria) + "\n"
         == before + RequirementBlock(r)
  {
    var h := RequirementHeading(r);
    var c := CriteriaList(r.acceptanceCriteria);
    AppendAssoc(before, h, c);
    AppendAssoc(before, h + c, "\n");
  }

  lemma CriteriaListSnoc(acs: seq<string>, j: nat)
    requires j < |acs|
    ensures CriteriaList(acs[..j + 1]) == CriteriaList(acs[..j]) + CriteriaItem(acs[j])
  {
    assert acs[..j + 1][..j] == acs[..j];
  }

  lemma RequirementBlocksSnoc(reqs: seq<Requirement>, i: nat)
    requires i < |reqs|
    ensures RequirementBlocks(reqs[..i + 1]) == RequirementBlocks(reqs[..i]) + RequirementBlock(reqs[i])
  {
    assert reqs[..i + 1][..i] == reqs[..i];
  }

  lemma ContainsSelf(s: string)
    ensures Contains(s, s)
  {
    assert OccursAt(s, s, 0);
  }

  lemma ContainsLeft(a: string, b: string, pat: string)
    requires Contains(a, pat)
    ensures Contains(a + b, pat)
  {
    var i: nat :| i <= |a| && OccursAt(a, pat, i);
    OccursInLeft(a, b, pat, i);
  }

  lemma ContainsRight(a: string, b: string, pat: string)
    requires Contains(b, pat)
    ensures Contains(a + b, pat)
  {
    var i: nat :| i <= |b| && OccursAt(b, pat, i);
    OccursInRight(a, b, pat, i);
  }

  lemma ContainsTransitive(s: string, mid: string, pat: string)
    requires Contains(s, mid) && Contains(mid, pat)
    ensures Contains(s, pat)
  {
    var i: nat :| i <= |s| && OccursAt(s, mid, i);
    var j: nat :| j <= |mid| && OccursAt(mid, pat, j);
    assert mid == s[i..i + |mid|];
    SliceOccurrence(s, i, i + |mid|, pat, j);
  }

  /** Every requirement's block appears in the rendered requirement list. */
  lemma {:induction false} BlocksContainEach(reqs: seq<Requirement>, k: nat)
    requires k < |reqs|
    ensures Contains(RequirementBlocks(reqs), RequirementBlock(reqs[k]))
    decreases |reqs|
  {
    var init := reqs[..|reqs| - 1];
    var last := RequirementBlock(reqs[|reqs| - 1]);
    assert RequirementBlocks(reqs) == RequirementBlocks(init) + last;
    if k == |reqs| - 1 {
      ContainsSelf(last);
      ContainsRight(RequirementBlocks(init), last, last);
    } else {
      BlocksContainEach(init, k);
      assert init[k] == reqs[k];
      ContainsLeft(RequirementBlocks(init), last, RequirementBlock(reqs[k]));
    }
  }

  /**
   * The rendered markdown names every requirement, preceded by its status
   * icon (the unit test expects "⬜ REQ-01" for a Todo requirement).
   */
  lemma MarkdownContainsEveryRequirement(title: string, slug: string, runId: string,
                                         profiles: seq<string>, reqs: seq<Requirement>, k: nat)
    requires k < |reqs|
    ensures Contains(Markdown(title, slug, runId, profiles, reqs), MarkdownIcon(reqs[k].status) + " " + reqs[k].id)
    ensures Contains(Markdown(title, slug, runId, profiles, reqs), reqs[k].id)
  {
    var r := reqs[k];
    var md := Markdown(title, slug, runId, profiles, reqs);
    var tag := RequirementTag(r);
    var rest := " - " + r.title + "\n\n" + "**Acceptance Criteria:**\n\n";
    ContainsSelf(tag);
    ContainsRight("### ", tag, tag);
    ContainsLeft("### " + tag, rest, tag);
    assert RequirementHeading(r) == "### " + tag + rest;
    ContainsLeft(RequirementHeading(r), CriteriaList(r.acceptanceCriteria), tag);
    ContainsLeft(RequirementHeading(r) + CriteriaList(r.acceptanceCriteria), "\n", tag);
    assert Contains(RequirementBlock(r), tag);
    BlocksContainEach(reqs, k);
    ContainsRight(MarkdownPreamble(title, slug, runId, profiles), RequirementBlocks(reqs), RequirementBlock(r));
    ContainsTransitive(md, RequirementBlock(r), tag);
    ContainsSelf(r.id);
    ContainsRight(MarkdownIcon(r.status) + " ", r.id, r.id);
    ContainsTransitive(md, tag, r.id);
  }

  // ---------------------------------------------------------------------
  // Marker-delimited sections
  // ---------------------------------------------------------------------

  const PlanningLog := "PLANNING_LOG"

  function BeginMarker(marker: string): string {
    "<!-- RALPH:BEGIN " + marker + " -->"
  }

  function EndMarker(marker: string): string {
    "<!-- RALPH:END " + marker + " -->"
  }

  /** A marker name that cannot break the marker syntax. */
  predicate PlainMarker(marker: string) {
    '<' !in marker && '\n' !in marker
  }

  /**
   * `get_section` slices from the end of the BEGIN marker to the END
   * marker; Rust panics when the first END starts inside the first BEGIN.
   * This is the condition under which it does not.
   */
  predicate SectionSliceOk(content: string, marker: string) {
    var b := Find(content, BeginMarker(marker));
    var e := Find(content, EndMarker(marker));
    b.Some? && e.Some? && b.value < e.value ==> b.value + |BeginMarker(marker)| <= e.value
  }

  /**
   * `get_section`: the trimmed text between the first BEGIN marker and the
   * first END marker, when both are present and BEGIN comes first.
   */
  function Section(content: string, marker: string): (r: Option<string>)
    requires SectionSliceOk(content, marker)
    ensures r.Some? <==> (Find(content, BeginMarker(marker)).Some? && Find(content, EndMarker(marker)).Some?
                          && Find(content, BeginMarker(marker)).value < Find(content, EndMarker(marker)).value)
  {
    var begin := BeginMarker(marker);
    var end := EndMarker(marker);
    match Find(content, begin)
    case None => None
    case Some(startIdx) =>
      match Find(content, end)
      case None => None
      case Some(endIdx) =>
        if startIdx < endIdx then Some(Trim(content[startIdx + |begin|..endIdx])) else None
  }

  /** The raw (untrimmed) text of a present section. */
  function SectionRaw(content: string, marker: string): string
    requires SectionSliceOk(content, marker) && Section(content, marker).Some?
  {
    content[Find(content, BeginMarker(marker)).value + |BeginMarker(marker)|..Find(content, EndMarker(marker)).value]
  }

  lemma MarkersNewlineFree(marker: string)
    requires PlainMarker(marker)
    ensures '\n' !in BeginMarker(marker) && '\n' !in EndMarker(marker)
  {
  }

  lemma MarkerShape(marker: string)
    requires PlainMarker(marker)
    ensures |BeginMarker(marker)| > 11 && BeginMarker(marker)[0] == '<' && BeginMarker(marker)[11] == 'B'
    ensures '\n' !in BeginMarker(marker)
    ensures forall k :: 1 <= k < |BeginMarker(marker)| ==> BeginMarker(marker)[k] != '<'
    ensures |EndMarker(marker)| > 11 && EndMarker(marker)[0] == '<' && EndMarker(marker)[11] == 'E'
    ensures '\n' !in EndMarker(marker)
    ensures forall k :: 1 <= k < |EndMarker(marker)| ==> EndMarker(marker)[k] != '<'
  {
    var b := BeginMarker(marker);
    forall k | 1 <= k < |b| ensures b[k] != '<' {
      if 17 <= k < 17 + |marker| {
        assert b[k] == marker[k - 17];
      }
    }
    var e := EndMarker(marker);
    forall k | 1 <= k < |e| ensures e[k] != '<' {
      if 15 <= k < 15 + |marker| {
        assert e[k] == marker[k - 15];
      }
    }
  }

  /** With a plain marker name `get_section` never panics. */
  lemma PlainMarkerSliceOk(content: string, marker: string)
    requires PlainMarker(marker)
    ensures SectionSliceOk(content, marker)
  {
    var b := Find(content, BeginMarker(marker));
    var e := Find(content, EndMarker(marker));
    if b.Some? && e.Some? {
      MarkerShape(marker);
      NoOverlap(content, BeginMarker(marker), EndMarker(marker), b.value, e.value);
    }
  }

  /**
   * An occurrence of `end` (which starts with `'<'`) that begins after an
   * occurrence of `begin` (which has `'<'` only at its start) begins after
   * `begin` ends.
   */
  lemma NoOverlap(content: string, begin: string, end: string, bv: nat, ev: nat)
    requires |end| > 0 && end[0] == '<'
    requires forall k :: 1 <= k < |begin| ==> begin[k] != '<'
    ensures OccursAt(content, begin, bv) && OccursAt(content, end, ev) && bv < ev ==> bv + |begin| <= ev
  {
    if OccursAt(content, begin, bv) && OccursAt(content, end, ev) && bv < ev && ev < bv + |begin| {
      FirstCharOf(content, end, ev);
      assert false;
    }
  }

  lemma SliceOccurrence(s: string, x: nat, y: nat, pat: string, j: nat)
    requires x <= y <= |s| && OccursAt(s[x..y], pat, j)
    ensures OccursAt(s, pat, x + j) && x + j + |pat| <= y
  {
    forall k | 0 <= k < |pat| ensures s[x + j + k] == pat[k] {
      assert s[x..y][j..j + |pat|][k] == pat[k];
    }
    assert s[x + j..x + j + |pat|] == pat;
  }

  /** No slice that ends before the first occurrence of `pat` contains it. */
  lemma NoneBeforeFirst(s: string, pat: string, x: nat, y: nat)
    requires x <= y <= |s| && |pat| > 0
    requires Find(s, pat).Some? && y <= Find(s, pat).value
    ensures !Contains(s[x..y], pat)
  {
    if Contains(s[x..y], pat) {
      var j: nat :| j <= |s[x..y]| && OccursAt(s[x..y], pat, j);
      SliceOccurrence(s, x, y, pat, j);
    }
  }

  /** A slice of a text without `pat` has no `pat` either. */
  lemma SliceKeepsAbsence(s: string, x: nat, y: nat, pat: string)
    requires x <= y <= |s| && !Contains(s, pat)
    ensures !Contains(s[x..y], pat)
  {
    if Contains(s[x..y], pat) {
      var j: nat :| j <= |s[x..y]| && OccursAt(s[x..y], pat, j);
      SliceOccurrence(s, x, y, pat, j);
    }
  }

  /** Trimming cannot create an occurrence. */
  lemma TrimKeepsAbsence(s: string, pat: string)
    requires !Contains(s, pat)
    ensures !Contains(Trim(s), pat)
  {
    TrimIsSlice(s);
    var off := |s| - |TrimStart(s)|;
    SliceKeepsAbsence(s, off, off + |Trim(s)|, pat);
  }

  /** A section's text never contains its END marker (the first END closes it). */
  lemma SectionHasNoEnd(content: string, marker: string)
    requires SectionSliceOk(content, marker) && Section(content, marker).Some?
    ensures !Contains(Section(content, marker).value, EndMarker(marker))
  {
    var end := EndMarker(marker);
    var x := Find(content, BeginMarker(marker)).value + |BeginMarker(marker)|;
    var y := Find(content, end).value;
    NoneBeforeFirst(content, end, x, y);
    TrimKeepsAbsence(content[x..y], end);
  }

  /** The text `append_to_section` leaves in a managed markdown file. */
  function AppendedToSection(content: string, marker: string, text: string): (r: string)
    ensures |r| > |content|
    ensures Find(content, EndMarker(marker)).None? ==> r[..|content|] == content
    ensures Find(content, EndMarker(marker)).Some? ==>
      var e := Find(content, EndMarker(marker)).value;
      r[..e] == content[..e] && r[|r| - (|content| - e)..] == content[e..]
  {
    match Find(content, EndMarker(marker))
    case Some(endIdx) =>
      content[..endIdx] + InsertedBlock(content, endIdx, text) + content[endIdx..]
    case None =>
      content + NewSection(marker, text)
  }

  /** The section `append_to_section` adds when the END marker is missing. */
  function NewSection(marker: string, text: string): string {
    "\n" + BeginMarker(marker) + "\n" + text + "\n" + EndMarker(marker) + "\n"
  }

  /** The block `append_to_section` inserts before an existing END marker. */
  function InsertedBlock(content: string, endIdx: nat, text: string): string
    requires endIdx <= |content|
  {
    (if endIdx > 0 && content[endIdx - 1] == '\n' then "" else "\n") + text + "\n"
  }

  // ---------------------------------------------------------------------
  // Where the section markers are found
  // ---------------------------------------------------------------------

  /** An occurrence inside the window `[x, y)` is an occurrence in the slice. */
  lemma OccurrenceInWindow(s: string, pat: string, x: nat, y: nat, i: nat)
    requires x <= i && i + |pat| <= y <= |s|
    ensures OccursAt(s, pat, i) ==> Contains(s[x..y], pat)
  {
    if OccursAt(s, pat, i) {
      forall k | 0 <= k < |pat| ensures s[x..y][i - x + k] == pat[k] {
        assert s[i..i + |pat|][k] == pat[k];
      }
      assert s[x..y][i - x..i - x + |pat|] == pat;
      assert OccursAt(s[x..y], pat, i - x);
    }
  }

  /** `find` returns `k` when `pat` is at `k` and nowhere before. */
  lemma FindIs(s: string, pat: string, k: nat)
    requires OccursAt(s, pat, k)
    requires forall i: nat :: i < k ==> !OccursAt(s, pat, i)
    ensures Find(s, pat) == Some(k)
  {
  }

  /**
   * No occurrence of a newline-free `pat` starts in `[x, y)` when the
   * window has none and ends with a newline.
   */
  lemma NoneInNewlineWindow(s: string, pat: string, x: nat, y: nat)
    requires '\n' !in pat && x <= y <= |s|
    requires x == y || s[y - 1] == '\n'
    requires !Contains(s[x..y], pat)
    ensures forall i: nat :: x <= i < y ==> !OccursAt(s, pat, i)
  {
    forall i: nat | x <= i < y ensures !OccursAt(s, pat, i) {
      if i + |pat| <= y {
        OccurrenceInWindow(s, pat, x, y, i);
      } else {
        NewlineBarrier(s, pat, y - 1, i);
      }
    }
  }

  /** No END marker starts inside a BEGIN marker. */
  lemma NoEndInsideBegin(s: string, marker: string, p: nat)
    requires PlainMarker(marker) && OccursAt(s, BeginMarker(marker), p)
    ensures forall i: nat :: p <= i < p + |BeginMarker(marker)| ==> !OccursAt(s, EndMarker(marker), i)
  {
    var begin := BeginMarker(marker);
    var end := EndMarker(marker);
    MarkerShape(marker);
    forall i: nat | p <= i < p + |begin| ensures !OccursAt(s, end, i) {
      FirstCharOf(s, end, i);
    }
  }

  /** A newline on both sides keeps a newline-free `pat` out of the text. */
  lemma NoneAcrossNewlines(a: string, pat: string)
    requires '\n' !in pat && !Contains(a, pat)
    ensures !Contains("\n" + a, pat) && !Contains(a + "\n", pat)
  {
    assert |pat| == 0 ==> OccursAt(a, pat, 0);
    forall j: nat | j <= |"\n" + a| ensures !OccursAt("\n" + a, pat, j) {
      if j == 0 {
        FirstCharOf("\n" + a, pat, 0);
      } else {
        OccursInRight("\n", a, pat, j - 1);
      }
    }
    forall j: nat | j <= |a + "\n"| ensures !OccursAt(a + "\n", pat, j) {
      if j + |pat| <= |a| {
        OccursWithinLeft(a, "\n", pat, j);
      } else if j <= |a| {
        NewlineBarrier(a + "\n", pat, |a|, j);
      }
    }
  }

  /**
   * The section found when BEGIN first occurs at `p` and END first occurs
   * at `q`, after the BEGIN marker.
   */
  lemma SectionAt(s: string, marker: string, p: nat, q: nat, body: string)
    requires OccursAt(s, BeginMarker(marker), p) && forall i: nat :: i < p ==> !OccursAt(s, BeginMarker(marker), i)
    requires OccursAt(s, EndMarker(marker), q) && forall i: nat :: i < q ==> !OccursAt(s, EndMarker(marker), i)
    requires p + |BeginMarker(marker)| <= q && s[p + |BeginMarker(marker)|..q] == body
    ensures SectionSliceOk(s, marker)
    ensures Section(s, marker) == Some(Trim(body))
  {
    FindIs(s, BeginMarker(marker), p);
    FindIs(s, EndMarker(marker), q);
  }

  /**
   * A text laid out as `pre`, BEGIN, a newline-ended body and END, where
   * `pre` ends with a newline and holds neither marker: its section is the
   * trimmed body.
   */
  lemma SectionOfLayout(s: string, marker: string, p: nat, q: nat, body: string)
    requires PlainMarker(marker)
    requires OccursAt(s, BeginMarker(marker), p) && OccursAt(s, EndMarker(marker), q)
    requires p == 0 || s[p - 1] == '\n'
    requires !Contains(s[..p], BeginMarker(marker)) && !Contains(s[..p], EndMarker(marker))
    requires p + |BeginMarker(marker)| < q && s[q - 1] == '\n'
    requires s[p + |BeginMarker(marker)|..q] == body && !Contains(body, EndMarker(marker))
    ensures SectionSliceOk(s, marker)
    ensures Section(s, marker) == Some(Trim(body))
  {
    OfLayoutMarkers(s, marker, p, q);
    SectionAt(s, marker, p, q, body);
  }

  /** The marker positions in the layout of `SectionOfLayout`. */
  lemma OfLayoutMarkers(s: string, marker: string, p: nat, q: nat)
    requires PlainMarker(marker)
    requires OccursAt(s, BeginMarker(marker), p) && OccursAt(s, EndMarker(marker), q)
    requires p == 0 || s[p - 1] == '\n'
    requires !Contains(s[..p], BeginMarker(marker)) && !Contains(s[..p], EndMarker(marker))
    requires p + |BeginMarker(marker)| < q && s[q - 1] == '\n'
    requires !Contains(s[p + |BeginMarker(marker)|..q], EndMarker(marker))
    ensures forall i: nat :: i < p ==> !OccursAt(s, BeginMarker(marker), i)
    ensures forall i: nat :: i < q ==> !OccursAt(s, EndMarker(marker), i)
  {
    var begin := BeginMarker(marker);
    var end := EndMarker(marker);
    MarkerShape(marker);
    assert s[0..p] == s[..p];
    NoneInNewlineWindow(s, begin, 0, p);
    NoneInNewlineWindow(s, end, 0, p);
    NoEndInsideBegin(s, marker, p);
    NoneInNewlineWindow(s, end, p + |begin|, q);
  }

  /**
   * Appending to a section that does not exist yet creates it, and reading
   * it back gives the trimmed text (provided the document held no BEGIN
   * marker and the text holds no END marker).
   */
  lemma AppendCreatesSection(content: string, marker: string, text: string)
    requires PlainMarker(marker)
    requires !Contains(content, BeginMarker(marker)) && !Contains(content, EndMarker(marker))
    requires !Contains(text, EndMarker(marker))
    ensures SectionSliceOk(AppendedToSection(content, marker, text), marker)
    ensures Section(AppendedToSection(content, marker, text), marker) == Some(Trim(text))
  {
    var begin := BeginMarker(marker);
    var end := EndMarker(marker);
    MarkersNewlineFree(marker);
    var s := AppendedToSection(content, marker, text);
    var mid := "\n" + (text + "\n");
    NewSectionShape(content, begin, text, end);
    NoneAcrossNewlines(content, begin);
    NoneAcrossNewlines(content, end);
    NoneAcrossNewlines(text, end);
    NoneAcrossNewlines(text + "\n", end);
    LayoutSection(content + "\n", marker, mid, s);
    TrimIgnoresPadding("\n", text, "\n");
    assert "\n" + text + "\n" == mid;
  }

  /**
   * The section of `h + BEGIN + mid + END + "\n"` is the trimmed `mid`, when
   * `h` is empty or newline-ended and holds neither marker, and `mid` is
   * newline-ended and holds no END marker.
   */
  lemma LayoutSection(h: string, marker: string, mid: string, s: string)
    requires PlainMarker(marker)
    requires s == h + BeginMarker(marker) + mid + EndMarker(marker) + "\n"
    requires |h| == 0 || h[|h| - 1] == '\n'
    requires !Contains(h, BeginMarker(marker)) && !Contains(h, EndMarker(marker))
    requires |mid| > 0 && mid[|mid| - 1] == '\n' && !Contains(mid, EndMarker(marker))
    ensures SectionSliceOk(s, marker)
    ensures Section(s, marker) == Some(Trim(mid))
  {
    var begin := BeginMarker(marker);
    var end := EndMarker(marker);
    LayoutFive(h, begin, mid, end, "\n");
    SectionOfLayout(s, marker, |h|, |h| + |begin| + |mid|, mid);
  }

  lemma NewSectionShape(content: string, begin: string, text: string, end: string)
    ensures content + ("\n" + begin + "\n" + text + "\n" + end + "\n")
         == (content + "\n") + begin + ("\n" + (text + "\n")) + end + "\n"
  {
  }

  /** Where the five parts of `a + b + c + d + e` sit. */
  lemma LayoutFive(a: string, b: string, c: string, d: string, e: string)
    ensures var s := a + b + c + d + e;
      s[..|a|] == a && s[|a|..|a| + |b|] == b
      && s[|a| + |b|..|a| + |b| + |c|] == c
      && s[|a| + |b| + |c|..|a| + |b| + |c| + |d|] == d
      && |s| == |a| + |b| + |c| + |d| + |e|
  {
  }

  /**
   * Appending to an existing section adds the inserted block at the end of
   * the section's text, when the text holds no END marker.
   */
  lemma AppendExtendsSection(content: string, marker: string, text: string)
    requires PlainMarker(marker)
    requires SectionSliceOk(content, marker) && Section(content, marker).Some?
    requires !Contains(text, EndMarker(marker))
    ensures SectionSliceOk(AppendedToSection(content, marker, text), marker)
    ensures Section(AppendedToSection(content, marker, text), marker)
         == Some(Trim(SectionRaw(content, marker)
                      + InsertedBlock(content, Find(content, EndMarker(marker)).value, text)))
  {
    var b := Find(content, BeginMarker(marker)).value;
    var e := Find(content, EndMarker(marker)).value;
    var ins := InsertedBlock(content, e, text);
    var s := AppendedToSection(content, marker, text);
    assert s == content[..e] + ins + content[e..];
    ExtendedSection(content, marker, text, b, e, s);
    assert SectionRaw(content, marker) == content[b + |BeginMarker(marker)|..e];
    assert Section(s, marker) == Some(Trim(SectionRaw(content, marker) + ins));
  }

  lemma ExtendedSection(content: string, marker: string, text: string, b: nat, e: nat, s: string)
    requires PlainMarker(marker) && !Contains(text, EndMarker(marker))
    requires Find(content, BeginMarker(marker)) == Some(b) && Find(content, EndMarker(marker)) == Some(e)
    requires b + |BeginMarker(marker)| <= e
    requires s == content[..e] + InsertedBlock(content, e, text) + content[e..]
    ensures SectionSliceOk(s, marker)
    ensures Section(s, marker) == Some(Trim(content[b + |BeginMarker(marker)|..e] + InsertedBlock(content, e, text)))
  {
    var q := e + |InsertedBlock(content, e, text)|;
    ExtendedLayout(content, marker, text, b, e, s);
    SectionAt(s, marker, b, q, content[b + |BeginMarker(marker)|..e] + InsertedBlock(content, e, text));
  }

  /** The marker positions after inserting before an existing END marker. */
  lemma ExtendedLayout(content: string, marker: string, text: string, b: nat, e: nat, s: string)
    requires PlainMarker(marker) && !Contains(text, EndMarker(marker))
    requires Find(content, BeginMarker(marker)) == Some(b) && Find(content, EndMarker(marker)) == Some(e)
    requires b + |BeginMarker(marker)| <= e
    requires s == content[..e] + InsertedBlock(content, e, text) + content[e..]
    ensures OccursAt(s, BeginMarker(marker), b) && forall i: nat :: i < b ==> !OccursAt(s, BeginMarker(marker), i)
    ensures var q := e + |InsertedBlock(content, e, text)|;
      OccursAt(s, EndMarker(marker), q) && (forall i: nat :: i < q ==> !OccursAt(s, EndMarker(marker), i))
      && s[b + |BeginMarker(marker)|..q] == content[b + |BeginMarker(marker)|..e] + InsertedBlock(content, e, text)
  {
    var begin := BeginMarker(marker);
    var end := EndMarker(marker);
    MarkersNewlineFree(marker);
    var ins := InsertedBlock(content, e, text);
    var q := e + |ins|;
    InsertionLayout(content, e, ins, b + |begin|);
    NoEarlierBegin(content, s, begin, b, e);
    NoEarlierEnd(content, s, end, e, ins);
    InsertedBlockHasNoEnd(content, e, text, end);
    NoneInNewlineWindow(s, end, e, q);
  }

  lemma InsertedBlockHasNoEnd(content: string, e: nat, text: string, end: string)
    requires e <= |content| && '\n' !in end && !Contains(text, end)
    ensures !Contains(InsertedBlock(content, e, text), end)
    ensures InsertedBlock(content, e, text)[|InsertedBlock(content, e, text)| - 1] == '\n'
  {
    NoneAcrossNewlines(text, end);
    NoneAcrossNewlines(text + "\n", end);
    if e > 0 && content[e - 1] == '\n' {
      assert InsertedBlock(content, e, text) == text + "\n";
    } else {
      assert InsertedBlock(content, e, text) == "\n" + (text + "\n");
    }
  }

  /** Where the parts of `content[..e] + ins + content[e..]` sit. */
  lemma InsertionLayout(content: string, e: nat, ins: string, x: nat)
    requires x <= e <= |content|
    ensures var s := content[..e] + ins + content[e..];
      |s| == |content| + |ins|
      && s[..e] == content[..e] && s[e..e + |ins|] == ins && s[e + |ins|..] == content[e..]
      && s[x..e + |ins|] == content[x..e] + ins
  {
    var s := content[..e] + ins + content[e..];
    assert s[x..e + |ins|] == content[..e][x..] + ins;
  }

  /** Nothing occurs before the first occurrence (stated without a precondition). */
  lemma NotBeforeFirst(s: string, pat: string, i: nat)
    ensures Find(s, pat).Some? && i < Find(s, pat).value ==> !OccursAt(s, pat, i)
  {
  }

  /** Two texts that agree up to `e` agree on every window below `e`. */
  lemma SameWindow(s: string, t: string, e: nat, i: nat, j: nat)
    requires i <= j <= e <= |s| && e <= |t| && s[..e] == t[..e]
    ensures s[i..j] == t[i..j]
  {
    forall k | i <= k < j ensures s[k] == t[k] {
      assert s[..e][k] == t[..e][k];
    }
  }

  /** Inserting at `e` keeps a marker that ends by `e` first at `b`. */
  lemma NoEarlierBegin(content: string, s: string, begin: string, b: nat, e: nat)
    requires b + |begin| <= e <= |content| && e <= |s| && s[..e] == content[..e]
    requires Find(content, begin) == Some(b)
    ensures OccursAt(s, begin, b) && forall i: nat :: i < b ==> !OccursAt(s, begin, i)
  {
    SameWindow(s, content, e, b, b + |begin|);
    forall i: nat | i < b ensures !OccursAt(s, begin, i) {
      SameWindow(s, content, e, i, i + |begin|);
      assert !OccursAt(content, begin, i);
    }
  }

  /**
   * Inserting a block that starts with a newline, or right after one, puts
   * no newline-free END marker before the insertion point.
   */
  lemma NoEarlierEnd(content: string, s: string, end: string, e: nat, ins: string)
    requires '\n' !in end && e <= |content| && Find(content, end) == Some(e)
    requires (e > 0 && content[e - 1] == '\n') || (ins != [] && ins[0] == '\n')
    requires s == content[..e] + ins + content[e..]
    ensures OccursAt(s, end, e + |ins|)
    ensures forall i: nat :: i < e ==> !OccursAt(s, end, i)
  {
    assert s[..e] == content[..e];
    assert s[e + |ins|..] == content[e..];
    assert s[e + |ins|..e + |ins| + |end|] == content[e..e + |end|];
    forall i: nat | i < e ensures !OccursAt(s, end, i) {
      if i + |end| <= e {
        SameWindow(s, content, e, i, i + |end|);
        NotBeforeFirst(content, end, i);
      } else if e > 0 && content[e - 1] == '\n' {
        assert s[e - 1] == content[..e][e - 1];
        NewlineBarrier(s, end, e - 1, i);
      } else {
        assert s[e] == ins[0];
        NewlineBarrier(s, end, e, i);
      }
    }
  }

  /** One requirement's part of `to_markdown`, appended to `md`. */
  method WriteRequirement(md: string, req: Requirement) returns (out: string)
    ensures out == md + RequirementBlock(req)
  {
    out := md + ("### " + MarkdownIcon(req.status) + " " + req.id
                 + (" - " + req.title + "\n\n" + "**Acceptance Criteria:**\n\n"));
    ghost var heading := out;
    assert heading == md + RequirementHeading(req);
    for j := 0 to |req.acceptanceCriteria|
      invariant out == heading + CriteriaList(req.acceptanceCriteria[..j])
    {
      CriteriaListSnoc(req.acceptanceCriteria, j);
      out := out + ("- " + req.acceptanceCriteria[j] + "\n");
      AppendAssoc(heading, CriteriaList(req.acceptanceCriteria[..j]), CriteriaItem(req.acceptanceCriteria[j]));
    }
    assert req.acceptanceCriteria[..|req.acceptanceCriteria|] == req.acceptanceCriteria;
    out := out + "\n";
    BlockAssoc(md, req);
  }

  // ---------------------------------------------------------------------
  // The requirement document
  // ---------------------------------------------------------------------

  class Prd {
    var schemaVersion: string
    var slug: string
    var title: string
    var activeRunId: string
    var validationProfiles: seq<string>
    var requirements: seq<Requirement>

    constructor (schemaVersion: string, slug: string, title: string, activeRunId: string,
                 validationProfiles: seq<string>, requirements: seq<Requirement>)
      ensures this.schemaVersion == schemaVersion && this.slug == slug && this.title == title
      ensures this.activeRunId == activeRunId && this.validationProfiles == validationProfiles
      ensures this.requirements == requirements
    {
      this.schemaVersion := schemaVersion;
      this.slug := slug;
      this.title := title;
      this.activeRunId := activeRunId;
      this.validationProfiles := validationProfiles;
      this.requirements := requirements;
    }

    /**
     * `update_requirement_status`: sets the status of the first requirement
     * with id `reqId` and reports whether there was one.
     */
    method UpdateRequirementStatus(reqId: string, status: RequirementStatus) returns (found: bool)
      modifies this`requirements
      ensures found <==> exists i :: 0 <= i < |old(requirements)| && old(requirements)[i].id == reqId
      ensures requirements == WithStatus(old(requirements), reqId, status)
    {
      var i := 0;
      while i < |requirements| && requirements[i].id != reqId
        invariant 0 <= i <= |requirements|
        invariant forall j :: 0 <= j < i ==> requirements[j].id != reqId
      {
        i := i + 1;
      }
      if i < |requirements| {
        assert FindById(requirements, reqId) == Some(i);
        requirements := requirements[i := requirements[i].(status := status)];
        found := true;
      } else {
        found := false;
      }
    }

    /** `to_markdown`: the human-readable rendering of the document. */
    method ToMarkdown() returns (md: string)
      ensures md == Markdown(title, slug, activeRunId, validationProfiles, requirements)
    {
      md := "# " + title + "\n\n"
        + "**Slug:** `" + slug + "`\n\n"
        + "**Run ID:** `" + activeRunId + "`\n\n"
        + "**Validation Profiles:** " + Join(validationProfiles, ", ") + "\n\n"
        + "## Requirements\n\n";
      ghost var preamble := md;
      var reqs := requirements;
      for i := 0 to |reqs|
        invariant md == preamble + RequirementBlocks(reqs[..i])
      {
        md := WriteRequirement(md, reqs[i]);
        RequirementBlocksSnoc(reqs, i);
        AppendAssoc(preamble, RequirementBlocks(reqs[..i]), RequirementBlock(reqs[i]));
      }
      assert reqs[..|reqs|] == reqs;
    }

    /** The header that precedes the managed sections of the markdown PRD. */
    function MarkersHeader(): string
      reads this
    {
      "# " + title + "\n\n" + "Canonical machine PRD: ralph/tasks/" + slug + "/prd.json\n\n"
    }

    /**
     * `to_markdown_with_markers`: the header, then the planning-log section
     * holding the log (newline-terminated) if there is one.
     */
    function ToMarkdownWithMarkers(planningLog: Option<string>): string
      reads this
    {
      MarkersHeader() + BeginMarker(PlanningLog) + "\n" + LogBody(planningLog) + EndMarker(PlanningLog) + "\n"
    }
  }

  /** The text written inside the planning-log section. */
  function LogBody(planningLog: Option<string>): (body: string)
    ensures planningLog.Some? ==> |planningLog.value| <= |body|
    ensures body == [] || body[|body| - 1] == '\n'
    ensures planningLog.None? ==> body == []
    ensures planningLog.Some? ==> body[..|planningLog.value|] == planningLog.value
    ensures planningLog.Some? ==> AllWhitespace(body[|planningLog.value|..])
    ensures planningLog.Some? ==>
              |body| == |planningLog.value|
                        + (if |planningLog.value| > 0 && planningLog.value[|planningLog.value| - 1] == '\n' then 0 else 1)
  {
    match planningLog
    case None => []
    case Some(log) => if |log| > 0 && log[|log| - 1] == '\n' then log else log + "\n"
  }

  /** A markdown file with managed sections (`MarkdownPrd`). */
  class MarkdownPrd {
    var content: string

    constructor (content: string)
      ensures this.content == content
    {
      this.content := content;
    }

    /** `get_section`. */
    function GetSection(marker: string): (r: Option<string>)
      reads this
      requires SectionSliceOk(content, marker)
      ensures r == Section(content, marker)
    {
      Section(content, marker)
    }

    /**
     * `append_to_section`: inserts `text` and a newline just before the
     * first END marker (after a newline if the text before it lacks one),
     * or adds a whole new section at the end when there is no END marker.
     */
    method AppendToSection(marker: string, text: string)
      modifies this
      ensures content == AppendedToSection(old(content), marker, text)
    {
      var begin := BeginMarker(marker);
      var end := EndMarker(marker);
      var found := Find(content, end);
      if found.Some? {
        var insertPos := found.value;
        var newLine := if insertPos > 0 && content[insertPos - 1] == '\n' then "" else "\n";
        content := content[..insertPos] + (newLine + text + "\n") + content[insertPos..];
      } else {
        content := content + ("\n" + begin + "\n" + text + "\n" + end + "\n");
      }
    }
  }

  // ---------------------------------------------------------------------
  // Reading the planning log back from `to_markdown_with_markers`
  // ---------------------------------------------------------------------

  lemma MarkersStartWithAngle(marker: string)
    ensures BeginMarker(marker)[0] == '<' && EndMarker(marker)[0] == '<'
  {
  }

  /** A text without '<' holds no marker. */
  lemma NoAngleNoMarker(h: string, pat: string)
    requires '<' !in h && |pat| > 0 && pat[0] == '<'
    ensures !Contains(h, pat)
  {
    if Contains(h, pat) {
      var i: nat :| i <= |h| && OccursAt(h, pat, i);
      FirstCharOf(h, pat, i);
    }
  }

  /** The header written before the planning-log section holds no '<'. */
  lemma MarkersHeaderShape(p: Prd)
    requires '<' !in p.title && '<' !in p.slug
    ensures '<' !in p.MarkersHeader()
    ensures |p.MarkersHeader()| > 0 && p.MarkersHeader()[|p.MarkersHeader()| - 1] == '\n'
  {
  }

  /** The section body `"\n" + LogBody(log)` ends with a newline and holds no END marker. */
  lemma LogSectionBody(log: Option<string>, end: string)
    requires '\n' !in end && |end| > 0
    requires log.Some? ==> !Contains(log.value, end)
    ensures ("\n" + LogBody(log))[|"\n" + LogBody(log)| - 1] == '\n'
    ensures !Contains("\n" + LogBody(log), end)
    ensures Trim("\n" + LogBody(log)) == (if log.Some? then Trim(log.value) else [])
  {
    match log
    case None =>
      assert "\n" + LogBody(log) == "\n" + [];
      NoneAcrossNewlines([], end);
      assert Trim("\n") == [];
    case Some(l) =>
      NoneAcrossNewlines(l, end);
      var w := LogBody(log)[|l|..];
      assert LogBody(log) == l + w;
      if LogBody(log) == l {
        assert w == [];
      } else {
        NoneAcrossNewlines(l + "\n", end);
        assert LogBody(log) == l + "\n";
      }
      TrimIgnoresPadding("\n", l, w);
      assert "\n" + l + w == "\n" + LogBody(log);
  }

  /** The section `to_markdown_with_markers` writes, read back untrimmed. */
  lemma MarkersLayout(p: Prd, log: Option<string>)
    requires '<' !in p.title && '<' !in p.slug
    requires log.Some? ==> !Contains(log.value, EndMarker(PlanningLog))
    ensures SectionSliceOk(p.ToMarkdownWithMarkers(log), PlanningLog)
    ensures Section(p.ToMarkdownWithMarkers(log), PlanningLog) == Some(Trim("\n" + LogBody(log)))
  {
    var md := p.ToMarkdownWithMarkers(log);
    var header := p.MarkersHeader();
    var begin := BeginMarker(PlanningLog);
    var end := EndMarker(PlanningLog);
    var mid := "\n" + LogBody(log);
    AppendAssoc(header + begin, "\n", LogBody(log));
    MarkersHeaderShape(p);
    MarkersStartWithAngle(PlanningLog);
    NoAngleNoMarker(header, begin);
    NoAngleNoMarker(header, end);
    assert PlainMarker(PlanningLog);
    MarkersNewlineFree(PlanningLog);
    LogSectionBody(log, end);
    LayoutSection(header, PlanningLog, mid, md);
  }

  /**
   * Reading the planning-log section back from `to_markdown_with_markers`
   * gives the trimmed log, or the empty text when there was none (for a
   * title and slug without '<' and a log without the END marker).
   */
  lemma MarkersRoundTrip(p: Prd, log: Option<string>)
    requires '<' !in p.title && '<' !in p.slug
    requires log.Some? ==> !Contains(log.value, EndMarker(PlanningLog))
    ensures SectionSliceOk(p.ToMarkdownWithMarkers(log), PlanningLog)
    ensures Section(p.ToMarkdownWithMarkers(log), PlanningLog)
         == Some(if log.Some? then Trim(log.value) else [])
  {
    var end := EndMarker(PlanningLog);
    MarkersNewlineFree(PlanningLog);
    LogSectionBody(log, end);
    MarkersLayout(p, log);
  }
}
