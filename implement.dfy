/**
 * The `implement` command: the requirement-by-requirement loop that picks
 * the next open requirement, asks the implementer agent for it, validates
 * the result and records the outcome in the PRD and the ledger.
 *
 * The implementer agent, the shell, the summarizing agent and the clock are
 * the oracles of a `World`, each indexed by the iteration number so that
 * every iteration may see different answers.
 */
module Implement {
  import opened Common
  import opened Text
  import P = Prd
  import L = Ledger
  import V = Validation

  // ---------------------------------------------------------------------
  // Configuration and the outside world
  // ---------------------------------------------------------------------

  /** `ImplementConfig`; `verbose` only changes what is printed and the agent's log level. */
  datatype ImplementConfig = ImplementConfig(
    slug: string, dryRun: bool, verbose: bool, loopEnabled: bool, maxIterations: nat)

  /** What the summarizing agent gave: a successful run's standard output, or a failure to run or succeed. */
  datatype SummaryOutcome = Summary(stdout: string) | SummaryFailed

  datatype World = World(
    implementer: nat -> string -> bool,
    shell: nat -> string -> V.CommandOutcome,
    summarizer: nat -> string -> SummaryOutcome,
    clock: nat -> nat -> string)

  // ---------------------------------------------------------------------
  // Requirement selection
  // ---------------------------------------------------------------------

  /** A requirement still to be worked on. */
  predicate Open(r: P.Requirement) {
    r.status == P.Todo || r.status == P.InProgress
  }

  /** The index of the first open requirement, in list order. */
  function FirstOpen(reqs: seq<P.Requirement>): (r: Option<nat>)
    ensures r.Some? ==> r.value < |reqs| && Open(reqs[r.value])
    ensures r.Some? ==> forall j :: 0 <= j < r.value ==> !Open(reqs[j])
    ensures r.None? <==> forall j :: 0 <= j < |reqs| ==> !Open(reqs[j])
  {
    if reqs == [] then None
    else if Open(reqs[0]) then Some(0)
    else match FirstOpen(reqs[1..])
      case None => None
      case Some(k) => Some(k + 1)
  }

  // ---------------------------------------------------------------------
  // The implementer prompt (`generate_prompt`)
  // ---------------------------------------------------------------------

  const MaxFeedback: nat := 2000

  function Bullets(acs: seq<string>): (r: seq<string>)
    ensures |r| == |acs| && forall i :: 0 <= i < |acs| ==> r[i] == "- " + acs[i]
  {
    seq(|acs|, i requires 0 <= i < |acs| => "- " + acs[i])
  }

  /** The prompt up to the validation stages it announces. */
  function PromptLead(slug: string, req: P.Requirement, iteration: nat): string {
    "Implement requirement " + req.id + " for feature '" + slug + "' (iteration "
      + NatToString(iteration) + ").\n\n"
      + "Title: " + req.title + "\n\n"
      + "Acceptance Criteria:\n" + Join(Bullets(req.acceptanceCriteria), "\n") + "\n\n"
      + "Validation: fmt -> lint -> typecheck"
  }

  const TestMention := " -> test"

  const PromptClose := "\n\nUpdate PRD status only after validation passes."

  const FeedbackIntro := "\n\n\U{26A0}\U{FE0F}  PREVIOUS ITERATION FAILED VALIDATION:\n\n"

  const FeedbackOutro := "\n\n\U{1F6A8} YOU MUST FIX THESE ERRORS BEFORE FINISHING.\n"
    + "Read the error output above and fix the root cause.\n"
    + "DO NOT finish your work until validation passes."

  const DroppedLead := "\n\n... (truncated "

  const DroppedTail := " chars) ...\n"

  /** The note telling how many characters of the feedback were dropped. */
  function DroppedNote(dropped: nat): string {
    DroppedLead + NatToString(dropped) + DroppedTail
  }

  /** The stored failure text as injected: at most its first 2000 characters, then a note. */
  function ClippedFeedback(v: string): string {
    if |v| > MaxFeedback then v[..MaxFeedback] + DroppedNote(|v| - MaxFeedback) else v
  }

  /** The feedback block, present only after the first iteration and after a recorded failure. */
  function Feedback(iteration: nat, lastFailure: Option<string>): string {
    if iteration > 1 && lastFailure.Some? then
      FeedbackIntro + ClippedFeedback(lastFailure.value) + FeedbackOutro
    else []
  }

  /** The prompt `generate_prompt` builds, given the requirement's last validation failure. */
  function PromptText(slug: string, req: P.Requirement, iteration: nat, runFullTests: bool,
                      lastFailure: Option<string>): string {
    PromptLead(slug, req, iteration) + (if runFullTests then TestMention else [])
      + PromptClose + Feedback(iteration, lastFailure)
  }

  /** The feedback block, pushed piece by piece: intro, the clipped failure text, outro. */
  method PushFeedback(v: string) returns (block: string)
    ensures block == Feedback(2, Some(v))
  {
    block := FeedbackIntro;
    if |v| > MaxFeedback {
      block := block + v[..MaxFeedback];
      block := block + DroppedNote(|v| - MaxFeedback);
      AppendAssoc(FeedbackIntro, v[..MaxFeedback], DroppedNote(|v| - MaxFeedback));
    } else {
      block := block + v;
    }
    block := block + FeedbackOutro;
  }

  /** `generate_prompt`, reading the requirement's last validation failure from the ledger. */
  method GeneratePrompt(prd: P.Prd, req: P.Requirement, ledger: L.Ledger, iteration: nat, runFullTests: bool)
    returns (prompt: string)
    ensures prompt == PromptText(prd.slug, req, iteration, runFullTests,
                                 L.LastValidationFailure(ledger.events, req.id))
  {
    prompt := PromptLead(prd.slug, req, iteration) + (if runFullTests then TestMention else []) + PromptClose;
    if iteration > 1 {
      var lastFailure := L.LastValidationFailure(ledger.events, req.id);
      if lastFailure.Some? {
        var block := PushFeedback(lastFailure.value);
        prompt := prompt + block;
      }
    }
  }

  /** The first iteration's prompt carries no failure feedback, whatever the ledger holds. */
  lemma FirstPromptHasNoFeedback(slug: string, req: P.Requirement, runFullTests: bool, lastFailure: Option<string>)
    ensures PromptText(slug, req, 1, runFullTests, lastFailure)
         == PromptLead(slug, req, 1) + (if runFullTests then TestMention else []) + PromptClose
  {
    assert Feedback(1, lastFailure) == [];
  }

  /**
   * The full-test prompt is the other one with " -> test" inserted right
   * after the announced stages, and the two agree everywhere else.
   */
  lemma TestStageMention(slug: string, req: P.Requirement, iteration: nat, lastFailure: Option<string>)
    ensures var lead := PromptLead(slug, req, iteration);
      var short := PromptText(slug, req, iteration, false, lastFailure);
      |lead| <= |short|
      && PromptText(slug, req, iteration, true, lastFailure) == short[..|lead|] + TestMention + short[|lead|..]
  {
    var lead := PromptLead(slug, req, iteration);
    var rest := PromptClose + Feedback(iteration, lastFailure);
    var short := PromptText(slug, req, iteration, false, lastFailure);
    AppendAssoc(lead, PromptClose, Feedback(iteration, lastFailure));
    assert lead + [] == lead;
    assert short == lead + rest;
    assert short[..|lead|] == lead && short[|lead|..] == rest;
    AppendAssoc(lead, TestMention, PromptClose);
    AppendAssoc(lead + TestMention, PromptClose, Feedback(iteration, lastFailure));
    AppendAssoc(lead, TestMention, rest);
  }

  /** Feedback of at most 2000 characters is injected verbatim. */
  lemma ShortFeedbackVerbatim(v: string)
    requires |v| <= MaxFeedback
    ensures ClippedFeedback(v) == v
  {
  }

  /**
   * Longer feedback keeps exactly its first 2000 characters, and the note
   * after them reads back as the number of characters dropped.
   */
  lemma LongFeedbackClipped(v: string)
    requires |v| > MaxFeedback
    ensures var c := ClippedFeedback(v);
      var digitsEnd := |c| - |DroppedTail|;
      MaxFeedback + |DroppedLead| < digitsEnd <= |c|
      && c[..MaxFeedback] == v[..MaxFeedback]
      && c[MaxFeedback..MaxFeedback + |DroppedLead|] == DroppedLead
      && c[digitsEnd..] == DroppedTail
      && AllDigits(c[MaxFeedback + |DroppedLead|..digitsEnd])
      && ParseNat(c[MaxFeedback + |DroppedLead|..digitsEnd]) == |v| - MaxFeedback
  {
    var c := ClippedFeedback(v);
    var digits := NatToString(|v| - MaxFeedback);
    var head := v[..MaxFeedback];
    assert c == head + DroppedLead + digits + DroppedTail;
    assert c[MaxFeedback + |DroppedLead|..|c| - |DroppedTail|] == digits;
    ParseNatToString(|v| - MaxFeedback);
  }

  // ---------------------------------------------------------------------
  // Truncating validation output (`smart_truncate_validation_output`)
  // ---------------------------------------------------------------------

  const TruncationSuffix := "...\n(truncated to fit size limit)"

  function Min(a: nat, b: nat): nat {
    if a <= b then a else b
  }

  /** Lines kept from the start: 15, but never more than half. */
  function HeadCount(n: nat): nat {
    Min(15, n / 2)
  }

  /** Lines kept from the end: 10, but never more than half. */
  function TailCount(n: nat): nat {
    Min(10, n / 2)
  }

  /** `saturating_sub`. */
  function SaturatingSub(a: nat, b: nat): nat {
    if a >= b then a - b else 0
  }

  function OmittedNote(omitted: nat): string {
    if omitted > 0 then "\n... (" + NatToString(omitted) + " lines omitted) ...\n\n" else []
  }

  /** The head lines, the omitted-lines note and the tail lines, each line newline-ended. */
  function LineWindow(lines: seq<string>): string {
    var n := |lines|;
    JoinLines(lines[..HeadCount(n)])
      + OmittedNote(SaturatingSub(n, HeadCount(n) + TailCount(n)))
      + JoinLines(lines[SaturatingSub(n, TailCount(n))..])
  }

  /** The truncated validation output. */
  function Truncated(output: string, maxChars: nat): string {
    if |output| <= maxChars then output
    else
      var w := LineWindow(Lines(output));
      if |w| > maxChars then w[..maxChars] + TruncationSuffix else w
  }

  /** One of the two line loops: push lines `from` to `to`, each followed by a newline. */
  method PushLines(acc: string, lines: seq<string>, from: nat, to: nat) returns (result: string)
    requires from <= to <= |lines|
    ensures result == acc + JoinLines(lines[from..to])
  {
    result := acc;
    var i := from;
    while i < to
      invariant from <= i <= to
      invariant result == acc + JoinLines(lines[from..i])
    {
      JoinLinesSnoc(lines[from..i], lines[i]);
      assert lines[from..i + 1] == lines[from..i] + [lines[i]];
      AppendAssoc(acc, JoinLines(lines[from..i]), lines[i] + "\n");
      result := result + (lines[i] + "\n");
      i := i + 1;
    }
  }

  /** The head lines, the note on the omitted lines and the tail lines, pushed in that order. */
  method PushWindow(lines: seq<string>) returns (result: string)
    ensures result == LineWindow(lines)
  {
    var total := |lines|;
    var firstN := HeadCount(total);
    var lastM := TailCount(total);
    ghost var from := SaturatingSub(total, lastM);
    assert lines[0..firstN] == lines[..firstN];
    assert lines[from..total] == lines[from..];
    result := PushLines([], lines, 0, firstN);
    assert result == JoinLines(lines[..firstN]);
    var omitted := SaturatingSub(total, firstN + lastM);
    if omitted > 0 {
      result := result + OmittedNote(omitted);
    }
    assert result == JoinLines(lines[..firstN]) + OmittedNote(omitted);
    result := PushLines(result, lines, SaturatingSub(total, lastM), total);
  }

  method SmartTruncate(output: string, maxChars: nat) returns (result: string)
    ensures result == Truncated(output, maxChars)
  {
    if |output| <= maxChars {
      return output;
    }
    var lines := Lines(output);
    result := PushWindow(lines);
    if |result| > maxChars {
      result := result[..maxChars] + TruncationSuffix;
    }
  }

  /** The head and tail windows never overlap. */
  lemma WindowsDisjoint(n: nat)
    ensures HeadCount(n) + TailCount(n) <= n
    ensures SaturatingSub(n, HeadCount(n) + TailCount(n)) == n - HeadCount(n) - TailCount(n)
  {
  }

  /** No line is omitted exactly when there is an even number of lines, at most 20. */
  lemma NothingOmittedIff(n: nat)
    ensures SaturatingSub(n, HeadCount(n) + TailCount(n)) == 0 <==> n % 2 == 0 && n <= 20
  {
  }

  /** The window in terms of its three counts. */
  lemma WindowOf(lines: seq<string>, h: nat, t: nat, omitted: nat)
    requires h == HeadCount(|lines|) && t == TailCount(|lines|) && h + t <= |lines|
    requires omitted == |lines| - h - t
    ensures LineWindow(lines) == JoinLines(lines[..h]) + OmittedNote(omitted) + JoinLines(lines[|lines| - t..])
  {
  }

  /** When no line is omitted, the window is every line, newline-ended. */
  lemma FullWindow(lines: seq<string>)
    requires SaturatingSub(|lines|, HeadCount(|lines|) + TailCount(|lines|)) == 0
    ensures LineWindow(lines) == JoinLines(lines)
  {
    var n := |lines|;
    var h := HeadCount(n);
    var t := TailCount(n);
    WindowsDisjoint(n);
    assert h + t == n;
    WindowOf(lines, h, t, 0);
    assert OmittedNote(0) == [];
    JoinLinesSplit(lines, h);
    assert JoinLines(lines[..h]) + [] == JoinLines(lines[..h]);
  }

  /**
   * For output without carriage returns whose lines all fit, the window is
   * the output itself, newline-terminated.
   */
  lemma FullWindowIsOutput(output: string)
    requires NoCarriageReturn(output)
    requires SaturatingSub(|Lines(output)|, HeadCount(|Lines(output)|) + TailCount(|Lines(output)|)) == 0
    ensures LineWindow(Lines(output)) == output + LineTerminatorNeeded(output)
  {
    FullWindow(Lines(output));
    JoinLinesOfLines(output);
  }

  /** The truncated output never exceeds the limit by more than the truncation notice. */
  lemma TruncatedFits(output: string, maxChars: nat)
    ensures |Truncated(output, maxChars)| <= maxChars + |TruncationSuffix|
    ensures |output| <= maxChars ==> Truncated(output, maxChars) == output
  {
  }

  /** The note for a single omitted line, and its length. */
  lemma OneLineNote()
    ensures OmittedNote(1) == "\n... (1 lines omitted) ...\n\n" && |OmittedNote(1)| == 28
  {
    assert NatToString(1) == "1";
  }

  /** The window of a single line omits it. */
  lemma WindowOfOneLine(line: string)
    ensures LineWindow([line]) == OmittedNote(1)
  {
    var lines := [line];
    WindowOf(lines, 0, 0, 1);
    assert lines[..0] == [] && lines[1..] == [];
    assert JoinLines([]) == [];
  }

  /**
   * An over-long output of a single line keeps none of its text: only the
   * note that one line was omitted, itself cut when the limit is below it.
   */
  lemma SingleLineDropped(output: string, maxChars: nat)
    requires |output| > maxChars && '\n' !in output
    ensures LineWindow(Lines(output)) == OmittedNote(1)
    ensures Truncated(output, maxChars)
         == (if maxChars < |OmittedNote(1)| then OmittedNote(1)[..maxChars] + TruncationSuffix else OmittedNote(1))
  {
    LinesOfOneLine(output);
    WindowOfOneLine(output);
  }

  // ---------------------------------------------------------------------
  // Summarizing validation output (`summarize_validation_output`)
  // ---------------------------------------------------------------------

  const SummaryRequest := "Summarize the following validation errors into 3-5 concise bullet points. "
    + "Focus on the root causes and actionable fixes. Do not include explanations, "
    + "just the bullet points:\n\n"

  const SummaryFallbackLimit: nat := 2000

  /** The summary: empty for empty output, the agent's trimmed answer, or the truncated output. */
  function SummaryOf(output: string, summarizer: string -> SummaryOutcome): string {
    if output == [] then []
    else match summarizer(SummaryRequest + output)
      case Summary(out) => Trim(out)
      case SummaryFailed => Truncated(output, SummaryFallbackLimit)
  }

  method Summarize(output: string, summarizer: string -> SummaryOutcome) returns (summary: string)
    ensures summary == SummaryOf(output, summarizer)
  {
    if output == [] {
      return [];
    }
    match summarizer(SummaryRequest + output)
    case Summary(out) =>
      summary := Trim(out);
    case SummaryFailed =>
      summary := SmartTruncate(output, SummaryFallbackLimit);
  }

  /** Empty output gives an empty summary; otherwise the summary is trimmed or bounded. */
  lemma SummaryShape(output: string, summarizer: string -> SummaryOutcome)
    ensures output == [] ==> SummaryOf(output, summarizer) == []
    ensures output != [] && summarizer(SummaryRequest + output).Summary? ==> IsTrimmed(SummaryOf(output, summarizer))
    ensures output != [] && summarizer(SummaryRequest + output).SummaryFailed?
      ==> |SummaryOf(output, summarizer)| <= SummaryFallbackLimit + |TruncationSuffix|
  {
    if output != [] && summarizer(SummaryRequest + output).Summary? {
      TrimIsTrimmed(summarizer(SummaryRequest + output).stdout);
    }
    TruncatedFits(output, SummaryFallbackLimit);
  }

  // ---------------------------------------------------------------------
  // Validation verdict
  // ---------------------------------------------------------------------

  /** Whether validation passed, and the first failed stage's report. */
  datatype Verdict = Verdict(passed: bool, failedOutput: Option<string>)

  /** `{:?}` of a stage: the variant's name. */
  function StageName(st: V.ValidationStage): (r: string)
    ensures |r| >= 3 && 'A' <= r[0] <= 'Z'
  {
    match st
    case Fmt => "Fmt"
    case Lint => "Lint"
    case Typecheck => "Typecheck"
    case Test => "Test"
  }

  /** Different stages get different names, so the report identifies the failed stage. */
  lemma StageNameInjective(a: V.ValidationStage, b: V.ValidationStage)
    ensures StageName(a) == StageName(b) ==> a == b
  {
    if a != b {
      assert StageName(a)[0] != StageName(b)[0] || StageName(a)[1] != StageName(b)[1];
    }
  }

  function FirstFailed(results: seq<V.ValidationResult>): (r: Option<nat>)
    ensures r.Some? ==> r.value < |results| && !results[r.value].success
    ensures r.Some? ==> forall j :: 0 <= j < r.value ==> results[j].success
    ensures r.None? <==> forall j :: 0 <= j < |results| ==> results[j].success
  {
    if results == [] then None
    else if !results[0].success then Some(0)
    else match FirstFailed(results[1..])
      case None => None
      case Some(k) => Some(k + 1)
  }

  function ResultsVerdict(results: seq<V.ValidationResult>): Verdict {
    Verdict(
      forall j :: 0 <= j < |results| ==> results[j].success,
      match FirstFailed(results)
      case None => None
      case Some(k) => Some("Stage: " + StageName(results[k].stage) + "\n\n" + results[k].output))
  }

  /**
   * The verdict of an iteration: the selected stages of the PRD's first
   * profile, or a pass when there is no configuration or no such profile.
   */
  function ValidationVerdict(vc: Option<V.ValidationConfig>, profiles: seq<string>, runFullTests: bool,
                             shell: string -> V.CommandOutcome): Verdict {
    if vc.None? || profiles == [] then Verdict(true, None)
    else match V.GetProfile(vc.value, profiles[0])
      case None => Verdict(true, None)
      case Some(p) => ResultsVerdict(V.RunAllOver(p, V.SelectedStages(runFullTests), shell))
  }

  method RunValidation(vc: Option<V.ValidationConfig>, profiles: seq<string>, runFullTests: bool,
                       shell: string -> V.CommandOutcome)
    returns (verdict: Verdict)
    ensures verdict == ValidationVerdict(vc, profiles, runFullTests, shell)
  {
    if vc.None? || profiles == [] {
      return Verdict(true, None);
    }
    match V.GetProfile(vc.value, profiles[0])
    case None =>
      verdict := Verdict(true, None);
    case Some(p) =>
      var results := V.RunAll(p, runFullTests, shell);
      verdict := ResultsVerdict(results);
  }

  /** A failure report is produced exactly when validation did not pass. */
  lemma VerdictReportsFailure(vc: Option<V.ValidationConfig>, profiles: seq<string>, runFullTests: bool,
                              shell: string -> V.CommandOutcome)
    ensures ValidationVerdict(vc, profiles, runFullTests, shell).passed
        <==> ValidationVerdict(vc, profiles, runFullTests, shell).failedOutput.None?
  {
  }

  /** Without a configuration or a configured profile for the PRD, validation counts as passed. */
  lemma NoProfilePasses(vc: Option<V.ValidationConfig>, profiles: seq<string>, runFullTests: bool,
                        shell: string -> V.CommandOutcome)
    requires vc.None? || profiles == [] || profiles[0] !in vc.value.profiles
    ensures ValidationVerdict(vc, profiles, runFullTests, shell) == Verdict(true, None)
  {
  }

  /**
   * With a profile, validation passes exactly when every command of every
   * selected stage succeeds, and the test stage is selected only when asked.
   */
  lemma ProfileVerdict(vc: Option<V.ValidationConfig>, profiles: seq<string>, runFullTests: bool,
                       shell: string -> V.CommandOutcome)
    requires vc.Some? && profiles != [] && profiles[0] in vc.value.profiles
    ensures var p := vc.value.profiles[profiles[0]];
      var stages := V.SelectedStages(runFullTests);
      (V.Test in stages <==> runFullTests)
      && (ValidationVerdict(vc, profiles, runFullTests, shell).passed
          <==> forall j, c :: 0 <= j < |stages| && 0 <= c < |V.CommandsForStage(p, stages[j])|
                 ==> V.Succeeded(shell(V.CommandsForStage(p, stages[j])[c])))
  {
    var p := vc.value.profiles[profiles[0]];
    V.AllPassIff(p, V.SelectedStages(runFullTests), shell);
  }

  // ---------------------------------------------------------------------
  // One iteration (`run_single_iteration`)
  // ---------------------------------------------------------------------

  /** What an iteration returns (`true`: nothing left to do) and the new PRD and ledger contents. */
  datatype IterationOutcome = IterationOutcome(allDone: bool, reqs: seq<P.Requirement>, events: seq<L.LedgerEvent>)

  /** The iteration number of the next iteration: one past the latest in the ledger. */
  function NextIteration(events: seq<L.LedgerEvent>): nat {
    L.MaxIteration(events) + 1
  }

  /** Every fifth iteration runs the test stage too. */
  predicate FullTests(iteration: nat) {
    iteration % 5 == 0
  }

  /** The prompt the implementer gets: it shows the failure recorded before the iteration began. */
  function IterationPrompt(slug: string, req: P.Requirement, events: seq<L.LedgerEvent>): string {
    var iteration := NextIteration(events);
    PromptText(slug, req, iteration, FullTests(iteration), L.LastValidationFailure(events, req.id))
  }

  function ImplementerSucceeded(slug: string, world: World, req: P.Requirement, events: seq<L.LedgerEvent>): bool {
    world.implementer(NextIteration(events))(IterationPrompt(slug, req, events))
  }

  function IterationVerdict(vc: Option<V.ValidationConfig>, profiles: seq<string>, world: World,
                            events: seq<L.LedgerEvent>): Verdict {
    var iteration := NextIteration(events);
    ValidationVerdict(vc, profiles, FullTests(iteration), world.shell(iteration))
  }

  /** The message of the outcome event: the summary of the failed stage's report, if any. */
  function OutcomeMessage(world: World, iteration: nat, verdict: Verdict): Option<string> {
    match verdict.failedOutput
    case None => None
    case Some(out) => Some(SummaryOf(out, world.summarizer(iteration)))
  }

  function FinalStatus(implemented: bool, passed: bool): P.RequirementStatus {
    if implemented && passed then P.Done else P.InProgress
  }

  function StartedEvent(clock: nat -> string, iteration: nat, id: string): L.LedgerEvent {
    L.NewEvent(clock(0), iteration, id, L.Started)
  }

  function OutcomeEvent(clock: nat -> string, iteration: nat, id: string, implemented: bool, passed: bool,
                        message: Option<string>): L.LedgerEvent {
    var status := if implemented && passed then L.Done else L.Failed;
    var e := L.WithValidation(L.NewEvent(clock(1), iteration, id, status), passed);
    match message
    case None => e
    case Some(m) => L.WithValidationOutput(e, m)
  }

  /**
   * The PRD and ledger after working on `req`, given what the implementer
   * and validation reported: the requirement set to `InProgress` and then to
   * its final status, and the `Started` and outcome events appended.
   */
  function Record(reqs: seq<P.Requirement>, events: seq<L.LedgerEvent>, req: P.Requirement, iteration: nat,
                  clock: nat -> string, implemented: bool, passed: bool, message: Option<string>): (r: IterationOutcome)
    ensures !r.allDone && |r.reqs| == |reqs|
    ensures |r.events| == |events| + 2 && r.events[..|events|] == events
  {
    IterationOutcome(
      false,
      P.WithStatus(P.WithStatus(reqs, req.id, P.InProgress), req.id, FinalStatus(implemented, passed)),
      events + [StartedEvent(clock, iteration, req.id)]
             + [OutcomeEvent(clock, iteration, req.id, implemented, passed, message)])
  }

  /**
   * `run_single_iteration` on the PRD's requirements and the ledger's
   * events: completion when nothing is open, no change in a dry run, and
   * otherwise `Record` of what the implementer and validation report.
   */
  function Iteration(cfg: ImplementConfig, slug: string, profiles: seq<string>, vc: Option<V.ValidationConfig>,
                     world: World, reqs: seq<P.Requirement>, events: seq<L.LedgerEvent>): (r: IterationOutcome)
    ensures r.allDone <==> FirstOpen(reqs).None?
  {
    match FirstOpen(reqs)
    case None => IterationOutcome(true, reqs, events)
    case Some(k) =>
      if cfg.dryRun then IterationOutcome(false, reqs, events)
      else
        var iteration := NextIteration(events);
        var verdict := IterationVerdict(vc, profiles, world, events);
        Record(reqs, events, reqs[k], iteration, world.clock(iteration),
               ImplementerSucceeded(slug, world, reqs[k], events), verdict.passed,
               OutcomeMessage(world, iteration, verdict))
  }

  /** Marks the requirement `InProgress` and logs that the iteration started. */
  method StartIteration(prd: P.Prd, ledger: L.Ledger, req: P.Requirement, iteration: nat, clock: nat -> string)
    modifies prd`requirements, ledger
    ensures prd.requirements == P.WithStatus(old(prd.requirements), req.id, P.InProgress)
    ensures ledger.events == old(ledger.events) + [StartedEvent(clock, iteration, req.id)]
  {
    var _ := prd.UpdateRequirementStatus(req.id, P.InProgress);
    ledger.Append(StartedEvent(clock, iteration, req.id));
  }

  /** Sets the requirement's final status and logs the outcome, with the summarized failure if any. */
  method FinishIteration(prd: P.Prd, ledger: L.Ledger, req: P.Requirement, iteration: nat, world: World,
                         implemented: bool, verdict: Verdict)
    modifies prd`requirements, ledger
    ensures prd.requirements == P.WithStatus(old(prd.requirements), req.id, FinalStatus(implemented, verdict.passed))
    ensures ledger.events == old(ledger.events)
      + [OutcomeEvent(world.clock(iteration), iteration, req.id, implemented, verdict.passed,
                      OutcomeMessage(world, iteration, verdict))]
  {
    var finalStatus, eventStatus;
    if implemented && verdict.passed {
      finalStatus, eventStatus := P.Done, L.Done;
    } else {
      finalStatus, eventStatus := P.InProgress, L.Failed;
    }
    var _ := prd.UpdateRequirementStatus(req.id, finalStatus);
    var event := L.WithValidation(L.NewEvent(world.clock(iteration)(1), iteration, req.id, eventStatus), verdict.passed);
    if verdict.failedOutput.Some? {
      var summary := Summarize(verdict.failedOutput.value, world.summarizer(iteration));
      event := L.WithValidationOutput(event, summary);
    }
    ledger.Append(event);
  }

  /** Builds the prompt (after `Started` is logged) and runs the implementer on it. */
  method AskImplementer(prd: P.Prd, req: P.Requirement, ledger: L.Ledger, iteration: nat, world: World,
                        ghost events0: seq<L.LedgerEvent>)
    returns (implemented: bool)
    requires iteration == NextIteration(events0)
    requires ledger.events == events0 + [StartedEvent(world.clock(iteration), iteration, req.id)]
    ensures implemented == ImplementerSucceeded(prd.slug, world, req, events0)
  {
    var prompt := GeneratePrompt(prd, req, ledger, iteration, iteration % 5 == 0);
    L.NonOutcomeKeepsQueries(events0, StartedEvent(world.clock(iteration), iteration, req.id), req.id);
    implemented := world.implementer(iteration)(prompt);
  }

  /** A working iteration is `Record` applied to what the implementer and validation reported. */
  lemma WorkIsRecord(cfg: ImplementConfig, slug: string, profiles: seq<string>, vc: Option<V.ValidationConfig>,
                     world: World, reqs: seq<P.Requirement>, events: seq<L.LedgerEvent>, k: nat,
                     implemented: bool, verdict: Verdict)
    requires !cfg.dryRun && FirstOpen(reqs) == Some(k)
    requires implemented == ImplementerSucceeded(slug, world, reqs[k], events)
    requires verdict == IterationVerdict(vc, profiles, world, events)
    ensures Iteration(cfg, slug, profiles, vc, world, reqs, events)
         == Record(reqs, events, reqs[k], NextIteration(events), world.clock(NextIteration(events)),
                   implemented, verdict.passed, OutcomeMessage(world, NextIteration(events), verdict))
  {
  }

  /** The work on the selected requirement: everything after the dry-run check. */
  method WorkOn(prd: P.Prd, ledger: L.Ledger, vc: Option<V.ValidationConfig>, world: World,
                req: P.Requirement, iteration: nat)
    modifies prd`requirements, ledger
    requires iteration == NextIteration(ledger.events)
    ensures var verdict := IterationVerdict(vc, prd.validationProfiles, world, old(ledger.events));
      var o := Record(old(prd.requirements), old(ledger.events), req, iteration, world.clock(iteration),
                      ImplementerSucceeded(prd.slug, world, req, old(ledger.events)), verdict.passed,
                      OutcomeMessage(world, iteration, verdict));
      prd.requirements == o.reqs && ledger.events == o.events
  {
    ghost var events0 := ledger.events;
    StartIteration(prd, ledger, req, iteration, world.clock(iteration));
    var implemented := AskImplementer(prd, req, ledger, iteration, world, events0);
    var verdict := RunValidation(vc, prd.validationProfiles, iteration % 5 == 0, world.shell(iteration));
    FinishIteration(prd, ledger, req, iteration, world, implemented, verdict);
  }

  method RunSingleIteration(cfg: ImplementConfig, prd: P.Prd, ledger: L.Ledger,
                            vc: Option<V.ValidationConfig>, world: World)
    returns (allDone: bool)
    modifies prd`requirements, ledger
    ensures var o := Iteration(cfg, prd.slug, prd.validationProfiles, vc, world,
                               old(prd.requirements), old(ledger.events));
      allDone == o.allDone && prd.requirements == o.reqs && ledger.events == o.events
  {
    var next := FirstOpen(prd.requirements);
    if next.None? {
      return true;
    }
    var req := prd.requirements[next.value];
    var iteration := ledger.LatestIteration() + 1;
    if cfg.dryRun {
      return false;
    }
    WorkIsRecord(cfg, prd.slug, prd.validationProfiles, vc, world, prd.requirements, ledger.events, next.value,
                 ImplementerSucceeded(prd.slug, world, req, ledger.events),
                 IterationVerdict(vc, prd.validationProfiles, world, ledger.events));
    WorkOn(prd, ledger, vc, world, req, iteration);
    allDone := false;
  }

  // Properties of one iteration, first of `Record`, then of `Iteration`

  /**
   * Working on a requirement appends exactly two events for it, both with
   * the iteration's number: `Started` without a validation result, then the
   * outcome with the verdict, carrying a message exactly when one is given.
   */
  lemma RecordLogsTwoEvents(reqs: seq<P.Requirement>, events: seq<L.LedgerEvent>, req: P.Requirement, iteration: nat,
                            clock: nat -> string, implemented: bool, passed: bool, message: Option<string>)
    ensures var o := Record(reqs, events, req, iteration, clock, implemented, passed, message);
      var n := |events|;
      !o.allDone && |o.events| == n + 2 && o.events[..n] == events
      && o.events[n].status == L.Started && o.events[n].validationPassed.None?
      && o.events[n].requirement == req.id && o.events[n].iteration == iteration
      && o.events[n + 1].requirement == req.id && o.events[n + 1].iteration == iteration
      && o.events[n + 1].validationPassed == Some(passed)
      && o.events[n + 1].message == message
      && (o.events[n + 1].status == L.Done <==> implemented && passed)
      && (o.events[n + 1].status == L.Failed <==> !(implemented && passed))
  {
    var o := Record(reqs, events, req, iteration, clock, implemented, passed, message);
    assert o.events[..|events|] == events;
  }

  /** With unique ids, the requirement at `k` ends `Done` or `InProgress`, and nothing else changes. */
  lemma RecordDecidesStatus(reqs: seq<P.Requirement>, events: seq<L.LedgerEvent>, k: nat, iteration: nat,
                            clock: nat -> string, implemented: bool, passed: bool, message: Option<string>)
    requires P.UniqueIds(reqs) && k < |reqs|
    ensures Record(reqs, events, reqs[k], iteration, clock, implemented, passed, message).reqs
         == reqs[k := reqs[k].(status := if implemented && passed then P.Done else P.InProgress)]
  {
    P.WithStatusTwice(reqs, reqs[k].id, P.InProgress, FinalStatus(implemented, passed));
    P.WithStatusAt(reqs, k, FinalStatus(implemented, passed));
  }

  /** With no open requirement, the iteration reports completion and changes nothing. */
  lemma NoOpenRequirement(cfg: ImplementConfig, slug: string, profiles: seq<string>, vc: Option<V.ValidationConfig>,
                          world: World, reqs: seq<P.Requirement>, events: seq<L.LedgerEvent>)
    requires forall j :: 0 <= j < |reqs| ==> !Open(reqs[j])
    ensures Iteration(cfg, slug, profiles, vc, world, reqs, events) == IterationOutcome(true, reqs, events)
  {
  }

  /** A dry run with work to do reports more work and changes nothing. */
  lemma DryRunChangesNothing(cfg: ImplementConfig, slug: string, profiles: seq<string>, vc: Option<V.ValidationConfig>,
                             world: World, reqs: seq<P.Requirement>, events: seq<L.LedgerEvent>)
    requires cfg.dryRun && exists j :: 0 <= j < |reqs| && Open(reqs[j])
    ensures Iteration(cfg, slug, profiles, vc, world, reqs, events) == IterationOutcome(false, reqs, events)
  {
  }

  /**
   * A working iteration on the first open requirement appends its two
   * events, numbered one past the latest iteration, whose outcome records
   * the verdict and carries a message exactly when validation failed; the
   * requirement ends `Done` exactly when the implementer succeeded and
   * validation passed (for unique ids), and no other requirement changes.
   */
  lemma WorkingIteration(cfg: ImplementConfig, slug: string, profiles: seq<string>, vc: Option<V.ValidationConfig>,
                         world: World, reqs: seq<P.Requirement>, events: seq<L.LedgerEvent>)
    requires !cfg.dryRun && FirstOpen(reqs).Some?
    ensures var o := Iteration(cfg, slug, profiles, vc, world, reqs, events);
      var k := FirstOpen(reqs).value;
      var n := |events|;
      var verdict := IterationVerdict(vc, profiles, world, events);
      var ok := ImplementerSucceeded(slug, world, reqs[k], events) && verdict.passed;
      !o.allDone && |o.events| == n + 2 && o.events[..n] == events
      && o.events[n].status == L.Started && o.events[n].validationPassed.None?
      && o.events[n].requirement == reqs[k].id && o.events[n].iteration == NextIteration(events)
      && o.events[n + 1].requirement == reqs[k].id && o.events[n + 1].iteration == NextIteration(events)
      && o.events[n + 1].validationPassed == Some(verdict.passed)
      && (o.events[n + 1].message.Some? <==> !verdict.passed)
      && (o.events[n + 1].status == L.Done <==> ok)
      && (P.UniqueIds(reqs) ==> o.reqs == reqs[k := reqs[k].(status := if ok then P.Done else P.InProgress)])
  {
    var k := FirstOpen(reqs).value;
    var iteration := NextIteration(events);
    var verdict := IterationVerdict(vc, profiles, world, events);
    var implemented := ImplementerSucceeded(slug, world, reqs[k], events);
    var message := OutcomeMessage(world, iteration, verdict);
    VerdictReportsFailure(vc, profiles, FullTests(iteration), world.shell(iteration));
    RecordLogsTwoEvents(reqs, events, reqs[k], iteration, world.clock(iteration), implemented, verdict.passed, message);
    if P.UniqueIds(reqs) {
      RecordDecidesStatus(reqs, events, k, iteration, world.clock(iteration), implemented, verdict.passed, message);
    }
  }

  // ---------------------------------------------------------------------
  // The loop (`run`)
  // ---------------------------------------------------------------------

  /** One iteration as a step from the PRD's requirements and the ledger's events. */
  type Step = (seq<P.Requirement>, seq<L.LedgerEvent>) -> IterationOutcome

  function IterationStep(cfg: ImplementConfig, slug: string, profiles: seq<string>, vc: Option<V.ValidationConfig>,
                         world: World): Step {
    (reqs, events) => Iteration(cfg, slug, profiles, vc, world, reqs, events)
  }

  /** The final PRD and ledger contents and how many iterations ran. */
  datatype RunOutcome = RunOutcome(reqs: seq<P.Requirement>, events: seq<L.LedgerEvent>, calls: nat)

  /** Up to `budget` steps, stopping after the first that reports completion. */
  function RunLoop(step: Step, reqs: seq<P.Requirement>, events: seq<L.LedgerEvent>, budget: nat): (r: RunOutcome)
    ensures r.calls <= budget
    ensures budget > 0 ==> r.calls >= 1
    decreases budget
  {
    if budget == 0 then RunOutcome(reqs, events, 0)
    else
      var o := step(reqs, events);
      if o.allDone then RunOutcome(o.reqs, o.events, 1)
      else
        var rest := RunLoop(step, o.reqs, o.events, budget - 1);
        RunOutcome(rest.reqs, rest.events, rest.calls + 1)
  }

  /** `run` after loading: the loop in loop mode, one iteration otherwise. */
  function RunSpec(cfg: ImplementConfig, slug: string, profiles: seq<string>, vc: Option<V.ValidationConfig>,
                   world: World, reqs: seq<P.Requirement>, events: seq<L.LedgerEvent>): (r: RunOutcome)
    ensures r.calls <= (if cfg.loopEnabled then cfg.maxIterations else 1)
  {
    if cfg.loopEnabled then RunLoop(IterationStep(cfg, slug, profiles, vc, world), reqs, events, cfg.maxIterations)
    else
      var o := Iteration(cfg, slug, profiles, vc, world, reqs, events);
      RunOutcome(o.reqs, o.events, 1)
  }

  /**
   * `step` is the iteration for these settings. The quantifier is triggered by
   * `Iteration` terms only, so reasoning about `RunLoop` over `step` does not
   * unfold iterations.
   */
  ghost predicate IsIterationStep(step: Step, cfg: ImplementConfig, slug: string, profiles: seq<string>,
                                  vc: Option<V.ValidationConfig>, world: World) {
    forall reqs, events {:trigger Iteration(cfg, slug, profiles, vc, world, reqs, events)} ::
      step(reqs, events) == Iteration(cfg, slug, profiles, vc, world, reqs, events)
  }

  /** `run`: the loop in loop mode (`--once` off), otherwise one iteration. */
  method Run(cfg: ImplementConfig, prd: P.Prd, ledger: L.Ledger, vc: Option<V.ValidationConfig>, world: World)
    returns (calls: nat)
    modifies prd`requirements, ledger
    ensures RunOutcome(prd.requirements, ledger.events, calls)
         == RunSpec(cfg, prd.slug, prd.validationProfiles, vc, world, old(prd.requirements), old(ledger.events))
  {
    if !cfg.loopEnabled {
      var _ := RunSingleIteration(cfg, prd, ledger, vc, world);
      return 1;
    }
    calls := Loop(cfg, prd, ledger, vc, world, IterationStep(cfg, prd.slug, prd.validationProfiles, vc, world));
  }

  /** The body of the loop: one iteration, seen as one step of `RunLoop`. */
  method LoopStep(cfg: ImplementConfig, prd: P.Prd, ledger: L.Ledger, vc: Option<V.ValidationConfig>, world: World,
                  ghost step: Step)
    returns (allDone: bool)
    modifies prd`requirements, ledger
    requires IsIterationStep(step, cfg, prd.slug, prd.validationProfiles, vc, world)
    ensures var o := step(old(prd.requirements), old(ledger.events));
      allDone == o.allDone && prd.requirements == o.reqs && ledger.events == o.events
  {
    allDone := RunSingleIteration(cfg, prd, ledger, vc, world);
  }

  /** The loop: count iterations, stop past `max_iterations` or when an iteration reports completion. */
  method Loop(cfg: ImplementConfig, prd: P.Prd, ledger: L.Ledger, vc: Option<V.ValidationConfig>, world: World,
              ghost step: Step)
    returns (calls: nat)
    modifies prd`requirements, ledger
    requires IsIterationStep(step, cfg, prd.slug, prd.validationProfiles, vc, world)
    ensures RunOutcome(prd.requirements, ledger.events, calls)
         == RunLoop(step, old(prd.requirements), old(ledger.events), cfg.maxIterations)
  {
    ghost var total := RunLoop(step, prd.requirements, ledger.events, cfg.maxIterations);
    var iterationCount := 0;
    calls := 0;
    while true
      invariant iterationCount <= cfg.maxIterations && calls == iterationCount
      invariant var r := RunLoop(step, prd.requirements, ledger.events, cfg.maxIterations - iterationCount);
        RunOutcome(r.reqs, r.events, r.calls + calls) == total
      decreases cfg.maxIterations - iterationCount
    {
      iterationCount := iterationCount + 1;
      if iterationCount > cfg.maxIterations {
        break;
      }
      ghost var reqs, events := prd.requirements, ledger.events;
      var allDone := LoopStep(cfg, prd, ledger, vc, world, step);
      RunLoopUnfold(step, reqs, events, cfg.maxIterations - calls);
      calls := calls + 1;
      if allDone {
        break;
      }
    }
  }

  /** One step of `RunLoop` with budget left. */
  lemma RunLoopUnfold(step: Step, reqs: seq<P.Requirement>, events: seq<L.LedgerEvent>, budget: nat)
    requires budget > 0
    ensures var o := step(reqs, events);
      RunLoop(step, reqs, events, budget)
        == if o.allDone then RunOutcome(o.reqs, o.events, 1)
           else var r := RunLoop(step, o.reqs, o.events, budget - 1); RunOutcome(r.reqs, r.events, r.calls + 1)
  {
  }

  /** A step only appends, at most two events, and reports completion only when nothing is open. */
  ghost predicate AppendsAtMostTwo(o: IterationOutcome, reqs: seq<P.Requirement>, events: seq<L.LedgerEvent>) {
    |events| <= |o.events| <= |events| + 2 && o.events[..|events|] == events
    && (o.allDone ==> forall j :: 0 <= j < |o.reqs| ==> !Open(o.reqs[j]))
  }

  /** A step keeps the requirement list's ids, their uniqueness, and every `Done`. */
  ghost predicate KeepsDone(o: IterationOutcome, reqs: seq<P.Requirement>) {
    |o.reqs| == |reqs| && P.UniqueIds(o.reqs)
    && (forall j :: 0 <= j < |reqs| ==> o.reqs[j].id == reqs[j].id)
    && (forall j :: 0 <= j < |reqs| && reqs[j].status == P.Done ==> o.reqs[j].status == P.Done)
  }

  lemma IterationAppends(cfg: ImplementConfig, slug: string, profiles: seq<string>, vc: Option<V.ValidationConfig>,
                         world: World, reqs: seq<P.Requirement>, events: seq<L.LedgerEvent>)
    ensures AppendsAtMostTwo(Iteration(cfg, slug, profiles, vc, world, reqs, events), reqs, events)
  {
    if !cfg.dryRun && FirstOpen(reqs).Some? {
      WorkingIteration(cfg, slug, profiles, vc, world, reqs, events);
    }
  }

  lemma IterationKeepsDone(cfg: ImplementConfig, slug: string, profiles: seq<string>, vc: Option<V.ValidationConfig>,
                           world: World, reqs: seq<P.Requirement>, events: seq<L.LedgerEvent>)
    requires P.UniqueIds(reqs)
    ensures KeepsDone(Iteration(cfg, slug, profiles, vc, world, reqs, events), reqs)
  {
    if !cfg.dryRun && FirstOpen(reqs).Some? {
      var k := FirstOpen(reqs).value;
      var iteration := NextIteration(events);
      var verdict := IterationVerdict(vc, profiles, world, events);
      var implemented := ImplementerSucceeded(slug, world, reqs[k], events);
      RecordDecidesStatus(reqs, events, k, iteration, world.clock(iteration), implemented, verdict.passed,
                          OutcomeMessage(world, iteration, verdict));
      KeepsDoneAt(reqs, k, if implemented && verdict.passed then P.Done else P.InProgress);
    }
  }

  /** The two events of a working iteration carry the next iteration number, so the ledger stays ordered. */
  lemma RecordKeepsNonDecreasing(reqs: seq<P.Requirement>, events: seq<L.LedgerEvent>, req: P.Requirement,
                                 iteration: nat, clock: nat -> string, implemented: bool, passed: bool,
                                 message: Option<string>)
    requires L.NonDecreasing(events) && iteration == NextIteration(events)
    ensures L.NonDecreasing(Record(reqs, events, req, iteration, clock, implemented, passed, message).events)
  {
    var started := StartedEvent(clock, iteration, req.id);
    var outcome := OutcomeEvent(clock, iteration, req.id, implemented, passed, message);
    L.AppendKeepsNonDecreasing(events, started);
    L.NextIterationIsLatest(events, started);
    L.AppendKeepsNonDecreasing(events + [started], outcome);
  }

  /** An iteration keeps the ledger's iteration numbers non-decreasing. */
  lemma IterationKeepsNonDecreasing(cfg: ImplementConfig, slug: string, profiles: seq<string>,
                                    vc: Option<V.ValidationConfig>, world: World,
                                    reqs: seq<P.Requirement>, events: seq<L.LedgerEvent>)
    requires L.NonDecreasing(events)
    ensures L.NonDecreasing(Iteration(cfg, slug, profiles, vc, world, reqs, events).events)
  {
    if !cfg.dryRun && FirstOpen(reqs).Some? {
      var k := FirstOpen(reqs).value;
      var iteration := NextIteration(events);
      var verdict := IterationVerdict(vc, profiles, world, events);
      RecordKeepsNonDecreasing(reqs, events, reqs[k], iteration, world.clock(iteration),
                               ImplementerSucceeded(slug, world, reqs[k], events), verdict.passed,
                               OutcomeMessage(world, iteration, verdict));
    }
  }

  /** Setting the status of an open requirement keeps the ids and every `Done`. */
  lemma KeepsDoneAt(reqs: seq<P.Requirement>, k: nat, st: P.RequirementStatus)
    requires P.UniqueIds(reqs) && k < |reqs| && reqs[k].status != P.Done
    ensures KeepsDone(IterationOutcome(false, reqs[k := reqs[k].(status := st)], []), reqs)
  {
  }

  /**
   * For any step that only appends at most two events and reports
   * completion only when nothing is open, the loop runs at most `budget`
   * steps, appends at most two events per step, and ends early only when
   * no requirement is left open.
   */
  lemma {:induction false} LoopBounds(step: Step, reqs: seq<P.Requirement>, events: seq<L.LedgerEvent>, budget: nat)
    requires forall rs, es :: AppendsAtMostTwo(step(rs, es), rs, es)
    ensures var r := RunLoop(step, reqs, events, budget);
      r.calls <= budget
      && |events| <= |r.events| <= |events| + 2 * r.calls && r.events[..|events|] == events
      && (r.calls < budget ==> forall j :: 0 <= j < |r.reqs| ==> !Open(r.reqs[j]))
    decreases budget
  {
    if budget > 0 {
      var o := step(reqs, events);
      assert AppendsAtMostTwo(o, reqs, events);
      if !o.allDone {
        LoopBounds(step, o.reqs, o.events, budget - 1);
        var r := RunLoop(step, o.reqs, o.events, budget - 1);
        assert r.events[..|events|] == r.events[..|o.events|][..|events|];
      }
    }
  }

  /** For any step that keeps `Done` requirements, so does the whole loop. */
  lemma {:induction false} LoopKeepsDone(step: Step, reqs: seq<P.Requirement>, events: seq<L.LedgerEvent>, budget: nat)
    requires P.UniqueIds(reqs)
    requires forall rs, es :: P.UniqueIds(rs) ==> KeepsDone(step(rs, es), rs)
    ensures KeepsDone(IterationOutcome(false, RunLoop(step, reqs, events, budget).reqs, []), reqs)
    decreases budget
  {
    if budget > 0 {
      var o := step(reqs, events);
      assert KeepsDone(o, reqs);
      if !o.allDone {
        LoopKeepsDone(step, o.reqs, o.events, budget - 1);
      }
    }
  }

  /** For any step that keeps the ledger ordered, so does the whole loop. */
  lemma {:induction false} LoopKeepsNonDecreasing(step: Step, reqs: seq<P.Requirement>, events: seq<L.LedgerEvent>,
                                                  budget: nat)
    requires L.NonDecreasing(events)
    requires forall rs, es :: L.NonDecreasing(es) ==> L.NonDecreasing(step(rs, es).events)
    ensures L.NonDecreasing(RunLoop(step, reqs, events, budget).events)
    decreases budget
  {
    if budget > 0 {
      var o := step(reqs, events);
      assert L.NonDecreasing(o.events);
      if !o.allDone {
        LoopKeepsNonDecreasing(step, o.reqs, o.events, budget - 1);
      }
    }
  }

  /** `run`, in either mode, keeps the ledger's iteration numbers non-decreasing. */
  lemma RunKeepsNonDecreasing(cfg: ImplementConfig, slug: string, profiles: seq<string>, vc: Option<V.ValidationConfig>,
                              world: World, reqs: seq<P.Requirement>, events: seq<L.LedgerEvent>)
    requires L.NonDecreasing(events)
    ensures L.NonDecreasing(RunSpec(cfg, slug, profiles, vc, world, reqs, events).events)
  {
    IterationKeepsNonDecreasing(cfg, slug, profiles, vc, world, reqs, events);
    if cfg.loopEnabled {
      var step := IterationStep(cfg, slug, profiles, vc, world);
      forall rs, es | L.NonDecreasing(es) ensures L.NonDecreasing(step(rs, es).events) {
        IterationKeepsNonDecreasing(cfg, slug, profiles, vc, world, rs, es);
      }
      LoopKeepsNonDecreasing(step, reqs, events, cfg.maxIterations);
    }
  }

  /**
   * The implementation loop runs at most `max_iterations` iterations, only
   * appends to the ledger (at most two events per iteration), ends early only
   * when no requirement is left open (a failed validation never stops it),
   * and, for unique ids, never reopens a finished requirement.
   */
  lemma RunLoopProperties(cfg: ImplementConfig, slug: string, profiles: seq<string>, vc: Option<V.ValidationConfig>,
                          world: World, reqs: seq<P.Requirement>, events: seq<L.LedgerEvent>)
    requires cfg.loopEnabled
    ensures var r := RunSpec(cfg, slug, profiles, vc, world, reqs, events);
      r.calls <= cfg.maxIterations
      && |events| <= |r.events| <= |events| + 2 * r.calls && r.events[..|events|] == events
      && (r.calls < cfg.maxIterations ==> forall j :: 0 <= j < |r.reqs| ==> !Open(r.reqs[j]))
      && (P.UniqueIds(reqs) ==> KeepsDone(IterationOutcome(false, r.reqs, []), reqs))
  {
    var step := IterationStep(cfg, slug, profiles, vc, world);
    forall rs, es ensures AppendsAtMostTwo(step(rs, es), rs, es) {
      IterationAppends(cfg, slug, profiles, vc, world, rs, es);
    }
    forall rs, es | P.UniqueIds(rs) ensures KeepsDone(step(rs, es), rs) {
      IterationKeepsDone(cfg, slug, profiles, vc, world, rs, es);
    }
    LoopBounds(step, reqs, events, cfg.maxIterations);
    if P.UniqueIds(reqs) {
      LoopKeepsDone(step, reqs, events, cfg.maxIterations);
    }
  }
}
