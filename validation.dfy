/**
 * Validation profiles: per-stage shell commands run in the fixed order
 * fmt, lint, typecheck, test, stopping at the first failure.
 *
 * Running a shell command is the oracle `shell`, from the command text to
 * its outcome; whether a file exists in the project directory is the
 * oracle `fileExists`.
 */
module Validation {
  import opened Common

  // ---------------------------------------------------------------------
  // Stages
  // ---------------------------------------------------------------------

  datatype ValidationStage = Fmt | Lint | Typecheck | Test

  /** `ValidationStage::all`: each of the four stages once, fmt first and test last. */
  function AllStages(): (r: seq<ValidationStage>)
    ensures |r| == 4 && r[0] == Fmt && r[3] == Test
    ensures Fmt in r && Lint in r && Typecheck in r && Test in r
    ensures forall i, j :: 0 <= i < j < |r| ==> r[i] != r[j]
  {
    [Fmt, Lint, Typecheck, Test]
  }

  /** `ValidationStage::short_circuit`: every stage but the tests. */
  function ShortCircuitStages(): (r: seq<ValidationStage>)
    ensures r == AllStages()[..3]
    ensures Test !in r
  {
    [Fmt, Lint, Typecheck]
  }

  /** The stages `run_all` walks through. */
  function SelectedStages(includeTests: bool): (r: seq<ValidationStage>)
    ensures r <= AllStages() && |r| >= 3
    ensures Test in r <==> includeTests
  {
    if includeTests then AllStages() else ShortCircuitStages()
  }

  // ---------------------------------------------------------------------
  // Profiles and configuration
  // ---------------------------------------------------------------------

  /** `DetectRules`: the profile applies if any of these files exists. */
  datatype DetectRules = DetectRules(anyFilesExist: seq<string>)

  datatype ProfileCommands = ProfileCommands(
    fmt: seq<string>, lint: seq<string>, typecheck: seq<string>, test: seq<string>)

  datatype ValidationProfile = ValidationProfile(detect: DetectRules, commands: ProfileCommands)

  datatype ValidationConfig = ValidationConfig(schemaVersion: string, profiles: map<string, ValidationProfile>)

  /** `DetectRules::matches`: some listed file exists. */
  function Matches(rules: DetectRules, fileExists: string -> bool): (r: bool)
    ensures r <==> exists k :: 0 <= k < |rules.anyFilesExist| && fileExists(rules.anyFilesExist[k])
    ensures rules.anyFilesExist == [] ==> !r
    decreases |rules.anyFilesExist|
  {
    if rules.anyFilesExist == [] then false
    else fileExists(rules.anyFilesExist[0]) || Matches(DetectRules(rules.anyFilesExist[1..]), fileExists)
  }

  /** `commands_for_stage`: the command list configured for the stage. */
  function CommandsForStage(profile: ValidationProfile, stage: ValidationStage): seq<string> {
    match stage
    case Fmt => profile.commands.fmt
    case Lint => profile.commands.lint
    case Typecheck => profile.commands.typecheck
    case Test => profile.commands.test
  }

  /** `ValidationConfig::get`. */
  function GetProfile(config: ValidationConfig, name: string): (r: Option<ValidationProfile>)
    ensures r.Some? <==> name in config.profiles
    ensures r.Some? ==> r.value == config.profiles[name]
  {
    if name in config.profiles then Some(config.profiles[name]) else None
  }

  /**
   * `detect_profiles`: the names of the profiles whose rules match, each
   * once, in the map's (unspecified) iteration order.
   */
  method DetectProfiles(config: ValidationConfig, fileExists: string -> bool) returns (names: seq<string>)
    ensures forall n :: n in names <==> n in config.profiles && Matches(config.profiles[n].detect, fileExists)
    ensures forall j, k :: 0 <= j < k < |names| ==> names[j] != names[k]
  {
    names := [];
    var remaining := config.profiles.Keys;
    while remaining != {}
      invariant remaining <= config.profiles.Keys
      invariant forall n :: n in names <==> n in config.profiles.Keys - remaining && Matches(config.profiles[n].detect, fileExists)
      invariant forall j, k :: 0 <= j < k < |names| ==> names[j] != names[k]
      decreases |remaining|
    {
      var name :| name in remaining;
      if Matches(config.profiles[name].detect, fileExists) {
        names := names + [name];
      }
      remaining := remaining - {name};
    }
  }

  // ---------------------------------------------------------------------
  // Running a stage
  // ---------------------------------------------------------------------

  /**
   * What running `sh -c cmd` gave: the process exited (with its exit code,
   * none when a signal ended it, and its two output streams) or could not
   * be started.
   */
  datatype CommandOutcome =
    | Exited(code: Option<int>, stdout: string, stderr: string)
    | LaunchFailed(error: string)

  /** `status.success()`: exit code 0. */
  predicate Succeeded(o: CommandOutcome) {
    o.Exited? && o.code == Some(0)
  }

  datatype ValidationResult = ValidationResult(
    stage: ValidationStage, success: bool, output: string, exitCode: Option<int>)

  /** The result a stage reports for its failing command. */
  function FailureResult(stage: ValidationStage, o: CommandOutcome): (r: ValidationResult)
    requires !Succeeded(o)
    ensures r.stage == stage && !r.success
    ensures o.LaunchFailed? ==> r.exitCode.None? && r.output == o.error
    ensures o.Exited? ==> r.exitCode == o.code && r.output == o.stdout + o.stderr
  {
    match o
    case Exited(code, out, err) => ValidationResult(stage, false, out + err, code)
    case LaunchFailed(e) => ValidationResult(stage, false, e, None)
  }

  /** The index of the first command that does not succeed. */
  function FirstFailure(cmds: seq<string>, shell: string -> CommandOutcome): (r: Option<nat>)
    ensures r.Some? ==> r.value < |cmds| && !Succeeded(shell(cmds[r.value]))
    ensures r.Some? ==> forall k :: 0 <= k < r.value ==> Succeeded(shell(cmds[k]))
    ensures r.None? <==> forall k :: 0 <= k < |cmds| ==> Succeeded(shell(cmds[k]))
  {
    if cmds == [] then None
    else if !Succeeded(shell(cmds[0])) then Some(0)
    else match FirstFailure(cmds[1..], shell)
      case None => None
      case Some(k) => Some(k + 1)
  }

  /** The result of `run_stage`. */
  function StageResult(stage: ValidationStage, cmds: seq<string>, shell: string -> CommandOutcome): (r: ValidationResult)
    ensures r.stage == stage
    ensures r.success <==> forall k :: 0 <= k < |cmds| ==> Succeeded(shell(cmds[k]))
    ensures r.success ==> r.exitCode == Some(0) && r.output == []
  {
    match FirstFailure(cmds, shell)
    case None => ValidationResult(stage, true, [], Some(0))
    case Some(k) => FailureResult(stage, shell(cmds[k]))
  }

  /** The commands `run_stage` starts: all of them, or up to and including the first failure. */
  function CommandsRun(cmds: seq<string>, shell: string -> CommandOutcome): (r: seq<string>)
    ensures |r| <= |cmds| && r == cmds[..|r|]
    ensures forall k :: 0 <= k < |r| - 1 ==> Succeeded(shell(r[k]))
    ensures |r| < |cmds| ==> r != [] && !Succeeded(shell(r[|r| - 1]))
  {
    match FirstFailure(cmds, shell)
    case None => cmds
    case Some(k) => cmds[..k + 1]
  }

  /**
   * `run_stage`: runs the stage's commands in order and stops at the first
   * one that fails; `ran` lists the commands started.
   */
  method RunStage(profile: ValidationProfile, stage: ValidationStage, shell: string -> CommandOutcome)
    returns (result: ValidationResult, ran: seq<string>)
    ensures result == StageResult(stage, CommandsForStage(profile, stage), shell)
    ensures ran == CommandsRun(CommandsForStage(profile, stage), shell)
  {
    var commands := CommandsForStage(profile, stage);
    ran := [];
    var i := 0;
    while i < |commands|
      invariant 0 <= i <= |commands|
      invariant ran == commands[..i]
      invariant forall k :: 0 <= k < i ==> Succeeded(shell(commands[k]))
    {
      var outcome := shell(commands[i]);
      ran := ran + [commands[i]];
      if !Succeeded(outcome) {
        result := FailureResult(stage, outcome);
        FirstFailureAt(commands, shell, i);
        return;
      }
      i := i + 1;
    }
    result := ValidationResult(stage, true, [], Some(0));
  }

  /** The first failure is at `i` when all commands before it succeed and it does not. */
  lemma FirstFailureAt(cmds: seq<string>, shell: string -> CommandOutcome, i: nat)
    requires i < |cmds| && !Succeeded(shell(cmds[i]))
    requires forall k :: 0 <= k < i ==> Succeeded(shell(cmds[k]))
    ensures FirstFailure(cmds, shell) == Some(i)
  {
    assert !Succeeded(shell(cmds[i]));
  }

  // ---------------------------------------------------------------------
  // Running all stages
  // ---------------------------------------------------------------------

  /** The results of `run_all` over the given stage list. */
  function RunAllOver(profile: ValidationProfile, stages: seq<ValidationStage>, shell: string -> CommandOutcome)
    : (r: seq<ValidationResult>)
    ensures |r| <= |stages|
    ensures stages != [] ==> r != []
  {
    if stages == [] then []
    else
      var first := StageResult(stages[0], CommandsForStage(profile, stages[0]), shell);
      if first.success then
        [first] + RunAllOver(profile, stages[1..], shell)
      else [first]
  }

  /** Result `k` is that of stage `k`. */
  lemma {:induction false} RunAllOverResults(profile: ValidationProfile, stages: seq<ValidationStage>,
                                             shell: string -> CommandOutcome)
    ensures var r := RunAllOver(profile, stages, shell);
      forall k :: 0 <= k < |r| ==> r[k] == StageResult(stages[k], CommandsForStage(profile, stages[k]), shell)
  {
    if stages != [] {
      var first := StageResult(stages[0], CommandsForStage(profile, stages[0]), shell);
      if first.success {
        RunAllOverResults(profile, stages[1..], shell);
        var rest := RunAllOver(profile, stages[1..], shell);
        var r := RunAllOver(profile, stages, shell);
        assert r == [first] + rest;
        forall k | 0 < k < |r| ensures r[k] == rest[k - 1] && stages[k] == stages[1..][k - 1] { }
      }
    }
  }

  /** Every result before the last passed, and fewer results than stages means the last one failed. */
  lemma {:induction false} RunAllOverStops(profile: ValidationProfile, stages: seq<ValidationStage>,
                                           shell: string -> CommandOutcome)
    ensures var r := RunAllOver(profile, stages, shell);
      (forall k :: 0 <= k < |r| - 1 ==> r[k].success)
      && (|r| < |stages| ==> r != [] && !r[|r| - 1].success)
  {
    if stages != [] {
      var first := StageResult(stages[0], CommandsForStage(profile, stages[0]), shell);
      if first.success {
        RunAllOverStops(profile, stages[1..], shell);
        var rest := RunAllOver(profile, stages[1..], shell);
        var r := RunAllOver(profile, stages, shell);
        assert r == [first] + rest;
        forall k | 0 < k < |r| ensures r[k] == rest[k - 1] { }
      }
    }
  }

  /** `run_all`: runs the selected stages in order and stops after the first failing one. */
  method RunAll(profile: ValidationProfile, includeTests: bool, shell: string -> CommandOutcome)
    returns (results: seq<ValidationResult>)
    ensures results == RunAllOver(profile, SelectedStages(includeTests), shell)
  {
    var stages := SelectedStages(includeTests);
    results := [];
    var i := 0;
    while i < |stages|
      invariant 0 <= i <= |stages|
      invariant results + RunAllOver(profile, stages[i..], shell) == RunAllOver(profile, stages, shell)
    {
      var result, _ := RunStage(profile, stages[i], shell);
      RunAllStep(profile, stages, i, shell);
      if !result.success {
        assert RunAllOver(profile, stages[i..], shell) == [result];
        results := results + [result];
        return;
      }
      AppendAssoc(results, [result], RunAllOver(profile, stages[i + 1..], shell));
      results := results + [result];
      i := i + 1;
    }
    assert stages[i..] == [];
    assert results + [] == results;
  }

  /** One step of `RunAllOver` from position `i`. */
  lemma RunAllStep(profile: ValidationProfile, stages: seq<ValidationStage>, i: nat, shell: string -> CommandOutcome)
    requires i < |stages|
    ensures var first := StageResult(stages[i], CommandsForStage(profile, stages[i]), shell);
      RunAllOver(profile, stages[i..], shell)
        == if first.success then [first] + RunAllOver(profile, stages[i + 1..], shell) else [first]
  {
    assert stages[i..][0] == stages[i];
    assert stages[i..][1..] == stages[i + 1..];
  }

  /** Every stage result is the stage's own, the list is a prefix of the stages, and it stops at a failure. */
  lemma RunAllIsPrefix(profile: ValidationProfile, includeTests: bool, shell: string -> CommandOutcome)
    ensures var r := RunAllOver(profile, SelectedStages(includeTests), shell);
      var stages := SelectedStages(includeTests);
      0 < |r| <= |stages|
      && (forall k :: 0 <= k < |r| ==> r[k].stage == stages[k])
      && (forall k :: 0 <= k < |r| - 1 ==> r[k].success)
      && (|r| < |stages| ==> !r[|r| - 1].success)
  {
    RunAllOverResults(profile, SelectedStages(includeTests), shell);
    RunAllOverStops(profile, SelectedStages(includeTests), shell);
  }

  /** Without tests requested, no result is for the test stage. */
  lemma NoTestStageUnlessRequested(profile: ValidationProfile, shell: string -> CommandOutcome)
    ensures var r := RunAllOver(profile, SelectedStages(false), shell);
      forall k :: 0 <= k < |r| ==> r[k].stage != Test
  {
    var r := RunAllOver(profile, SelectedStages(false), shell);
    RunAllOverResults(profile, SelectedStages(false), shell);
    forall k | 0 <= k < |r| ensures r[k].stage != Test {
      assert r[k].stage == ShortCircuitStages()[k];
    }
  }

  /** Every result passed. */
  predicate AllPassed(r: seq<ValidationResult>) {
    forall k :: 0 <= k < |r| ==> r[k].success
  }

  /** Every command of every one of `stages` succeeds. */
  ghost predicate StagesSucceed(profile: ValidationProfile, stages: seq<ValidationStage>, shell: string -> CommandOutcome) {
    forall j, c :: 0 <= j < |stages| && 0 <= c < |CommandsForStage(profile, stages[j])|
      ==> Succeeded(shell(CommandsForStage(profile, stages[j])[c]))
  }

  /** A list with a head passes exactly when its head and its tail do. */
  lemma AllPassedCons(x: ValidationResult, rest: seq<ValidationResult>)
    ensures AllPassed([x] + rest) <==> x.success && AllPassed(rest)
  {
    assert ([x] + rest)[0] == x;
    forall j | 0 <= j < |rest| ensures rest[j] == ([x] + rest)[j + 1] { }
  }

  /** The commands of a non-empty stage list succeed exactly when those of its first stage and of the rest do. */
  lemma StagesSucceedCons(profile: ValidationProfile, stages: seq<ValidationStage>, shell: string -> CommandOutcome)
    requires stages != []
    ensures StagesSucceed(profile, stages, shell)
      <==> (forall c :: 0 <= c < |CommandsForStage(profile, stages[0])| ==> Succeeded(shell(CommandsForStage(profile, stages[0])[c])))
           && StagesSucceed(profile, stages[1..], shell)
  {
    forall j | 1 <= j < |stages| ensures stages[j] == stages[1..][j - 1] { }
  }

  /** All results pass exactly when every command of every selected stage succeeds. */
  lemma {:induction false} AllPassIff(profile: ValidationProfile, stages: seq<ValidationStage>, shell: string -> CommandOutcome)
    ensures AllPassed(RunAllOver(profile, stages, shell)) <==> StagesSucceed(profile, stages, shell)
  {
    if stages != [] {
      var first := StageResult(stages[0], CommandsForStage(profile, stages[0]), shell);
      var rest := RunAllOver(profile, stages[1..], shell);
      AllPassIff(profile, stages[1..], shell);
      StagesSucceedCons(profile, stages, shell);
      if first.success {
        assert RunAllOver(profile, stages, shell) == [first] + rest;
        AllPassedCons(first, rest);
      } else {
        assert RunAllOver(profile, stages, shell) == [first];
        AllPassedCons(first, []);
        assert [first] + [] == [first];
      }
    }
  }
}
