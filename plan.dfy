/**
 * The `plan` command's document logic: the PRD a new feature starts with,
 * and the markdown rewritten on every planning run, which keeps the
 * planning log of the previous markdown.
 */
module Plan {
  import opened Common
  import opened Text
  import P = Prd

  /** `replace('-', " ")`: every dash becomes a space, every other character stays. */
  function ReplaceDashes(s: string): (r: string)
    ensures |r| == |s| && '-' !in r
    ensures forall i :: 0 <= i < |s| ==> r[i] == (if s[i] == '-' then ' ' else s[i])
  {
    if s == [] then []
    else [if s[0] == '-' then ' ' else s[0]] + ReplaceDashes(s[1..])
  }

  /** The one requirement a new PRD starts with. */
  const InitialRequirement := P.Requirement(
    "REQ-01", "Initial requirement", P.Todo, ["Define acceptance criteria during planning"])

  /**
   * `create_initial_prd`: schema "1.0", the slug, the slug with dashes as
   * spaces for the title, the run id `<slug>-<timestamp>`, the `rust-cargo`
   * profile and the initial requirement.
   */
  method CreateInitialPrd(slug: string, timestamp: string) returns (prd: P.Prd)
    ensures fresh(prd)
    ensures prd.schemaVersion == "1.0" && prd.slug == slug && prd.title == ReplaceDashes(slug)
    ensures prd.activeRunId == slug + "-" + timestamp
    ensures prd.validationProfiles == ["rust-cargo"]
    ensures prd.requirements == [InitialRequirement]
  {
    var runId := slug + "-" + timestamp;
    prd := new P.Prd("1.0", slug, ReplaceDashes(slug), runId, ["rust-cargo"], [InitialRequirement]);
  }

  /**
   * The initial PRD has work for the implementation loop: its only
   * requirement is open, its ids are unique, and it is found by its id.
   */
  lemma InitialPrdIsOpen()
    ensures InitialRequirement.status == P.Todo && P.UniqueIds([InitialRequirement])
    ensures P.FindById([InitialRequirement], "REQ-01") == Some(0)
  {
  }

  /**
   * `ensure_markdown_prd`: the markdown written for `prd`, given the
   * existing markdown file's content when there is one; its planning-log
   * section is carried over.
   */
  function MarkdownToWrite(prd: P.Prd, existing: Option<string>): string
    reads prd
    requires existing.Some? ==> P.SectionSliceOk(existing.value, P.PlanningLog)
  {
    match existing
    case None => prd.ToMarkdownWithMarkers(None)
    case Some(content) => prd.ToMarkdownWithMarkers(P.Section(content, P.PlanningLog))
  }

  /**
   * Re-planning keeps the planning log: the planning-log section of the new
   * markdown is that of the old one, and an empty section when the old file
   * had none or there was no file (for a title and slug without '<').
   */
  lemma PlanningLogPreserved(prd: P.Prd, existing: Option<string>)
    requires '<' !in prd.title && '<' !in prd.slug
    requires existing.Some? ==> P.SectionSliceOk(existing.value, P.PlanningLog)
    ensures var md := MarkdownToWrite(prd, existing);
      P.SectionSliceOk(md, P.PlanningLog)
      && P.Section(md, P.PlanningLog)
         == (if existing.Some? && P.Section(existing.value, P.PlanningLog).Some?
             then P.Section(existing.value, P.PlanningLog) else Some([]))
  {
    match existing
    case None =>
      P.MarkersRoundTrip(prd, None);
    case Some(content) =>
      var log := P.Section(content, P.PlanningLog);
      if log.Some? {
        P.SectionHasNoEnd(content, P.PlanningLog);
        var raw := P.SectionRaw(content, P.PlanningLog);
        assert log.value == Trim(raw);
        TrimIsTrimmed(raw);
        TrimOfTrimmed(log.value);
      }
      P.MarkersRoundTrip(prd, log);
  }
}
