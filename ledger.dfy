/**
 * The append-only implementation ledger: one event per step of the
 * implementation loop (an iteration starting, and its outcome).
 *
 * In the revision of `ledger.rs` modelled here the file defines the types,
 * `new` and `events`; `append`, `latest_iteration`, `events_for_requirement`,
 * `is_requirement_failed` and `get_last_validation_failure` are called from
 * `implement.rs` (lines 169, 189, 241 and 280) and the benchmarks (lines
 * 57-86). They are defined here outright: the largest iteration (0 when
 * empty), the requirement's events in order, whether its latest event is
 * `Failed`, and the message of its latest outcome event when that
 * validation failed.
 */
module Ledger {
  import opened Common

  // ---------------------------------------------------------------------
  // Event status and its snake_case wire form
  // ---------------------------------------------------------------------

  datatype EventStatus = Started | InProgress | Done | Failed

  function EventStatusToWire(s: EventStatus): (w: string)
    ensures EventStatusFromWire(w) == Some(s)
  {
    match s
    case Started => "started"
    case InProgress => "in_progress"
    case Done => "done"
    case Failed => "failed"
  }

  function EventStatusFromWire(w: string): (r: Option<EventStatus>)
    ensures r.Some? <==> w in {"started", "in_progress", "done", "failed"}
  {
    if w == "started" then Some(Started)
    else if w == "in_progress" then Some(InProgress)
    else if w == "done" then Some(Done)
    else if w == "failed" then Some(Failed)
    else None
  }

  /** Every wire string read back gives the status it was written from. */
  lemma EventStatusWireInverse(w: string)
    requires EventStatusFromWire(w).Some?
    ensures EventStatusToWire(EventStatusFromWire(w).value) == w
  {
  }

  // ---------------------------------------------------------------------
  // Events
  // ---------------------------------------------------------------------

  /**
   * One ledger event. `timestamp` is the clock reading, kept as text.
   * `message` is the validation output summary that the loop attaches with
   * `with_validation_output` (the `ledger.rs` revision modelled here
   * declares only the first five fields).
   */
  datatype LedgerEvent = LedgerEvent(
    timestamp: string,
    iteration: nat,
    requirement: string,
    status: EventStatus,
    validationPassed: Option<bool>,
    message: Option<string>)

  /** `LedgerEvent::new`: no validation result and no message yet, so only the four required keys are written. */
  function NewEvent(timestamp: string, iteration: nat, requirement: string, status: EventStatus): (r: LedgerEvent)
    ensures r.timestamp == timestamp && r.iteration == iteration && r.requirement == requirement && r.status == status
    ensures SerializedKeys(r) == ["timestamp", "iteration", "requirement", "status"]
  {
    LedgerEvent(timestamp, iteration, requirement, status, None, None)
  }

  /** `with_validation`: records the verdict and leaves every other field as it was. */
  function WithValidation(e: LedgerEvent, passed: bool): (r: LedgerEvent)
    ensures r.validationPassed == Some(passed) && "validationPassed" in SerializedKeys(r)
    ensures r.(validationPassed := e.validationPassed) == e
  {
    e.(validationPassed := Some(passed))
  }

  /** `with_validation_output`: attaches the message and leaves every other field as it was. */
  function WithValidationOutput(e: LedgerEvent, output: string): (r: LedgerEvent)
    ensures r.message == Some(output) && "message" in SerializedKeys(r)
    ensures r.(message := e.message) == e
  {
    e.(message := Some(output))
  }

  /**
   * The camelCase keys of the serialized event, in field order; the
   * `validationPassed` and `message` keys are skipped when those fields
   * are empty.
   */
  function SerializedKeys(e: LedgerEvent): (r: seq<string>)
    ensures |r| >= 4 && r[..4] == ["timestamp", "iteration", "requirement", "status"]
    ensures "validationPassed" in r <==> e.validationPassed.Some?
    ensures "message" in r <==> e.message.Some?
    ensures |r| == 4 + (if e.validationPassed.Some? then 1 else 0) + (if e.message.Some? then 1 else 0)
  {
    ["timestamp", "iteration", "requirement", "status"]
      + (if e.validationPassed.Some? then ["validationPassed"] else [])
      + (if e.message.Some? then ["message"] else [])
  }

  /** The events the loop builds serialize every field they fill in. */
  lemma SerializedKeysOfBuilders(t: string, n: nat, id: string, s: EventStatus, passed: bool, output: string)
    ensures SerializedKeys(NewEvent(t, n, id, s)) == ["timestamp", "iteration", "requirement", "status"]
    ensures SerializedKeys(WithValidation(NewEvent(t, n, id, s), passed))
         == ["timestamp", "iteration", "requirement", "status", "validationPassed"]
    ensures SerializedKeys(WithValidationOutput(WithValidation(NewEvent(t, n, id, s), passed), output))
         == ["timestamp", "iteration", "requirement", "status", "validationPassed", "message"]
  {
  }

  // ---------------------------------------------------------------------
  // Queries over an event sequence
  // ---------------------------------------------------------------------

  /** `latest_iteration`: the largest iteration number recorded, 0 for no events. */
  function MaxIteration(events: seq<LedgerEvent>): (r: nat)
    ensures forall k :: 0 <= k < |events| ==> events[k].iteration <= r
    ensures r == 0 || exists k :: 0 <= k < |events| && events[k].iteration == r
  {
    if events == [] then 0
    else
      var m := MaxIteration(events[..|events| - 1]);
      var last := events[|events| - 1].iteration;
      if last > m then last else m
  }

  /**
   * Appending an event numbered one past the latest makes it the latest:
   * the loop's iteration numbers start at 1 and increase by one per
   * iteration.
   */
  lemma NextIterationIsLatest(events: seq<LedgerEvent>, e: LedgerEvent)
    requires e.iteration == MaxIteration(events) + 1
    ensures e.iteration >= 1
    ensures MaxIteration(events + [e]) == e.iteration
  {
    assert (events + [e])[..|events|] == events;
  }

  /** An event of the same iteration leaves the latest iteration as it was. */
  lemma SameIterationKeepsLatest(events: seq<LedgerEvent>, e: LedgerEvent)
    requires e.iteration == MaxIteration(events)
    ensures MaxIteration(events + [e]) == MaxIteration(events)
  {
    assert (events + [e])[..|events|] == events;
  }

  /** `events_for_requirement`: the events of one requirement, in ledger order. */
  function EventsFor(events: seq<LedgerEvent>, id: string): (r: seq<LedgerEvent>)
    ensures |r| <= |events|
    ensures forall k :: 0 <= k < |r| ==> r[k].requirement == id && r[k] in events
    ensures forall k :: 0 <= k < |events| && events[k].requirement == id ==> events[k] in r
  {
    if events == [] then []
    else (if events[0].requirement == id then [events[0]] else []) + EventsFor(events[1..], id)
  }

  /** Appending an event extends the requirement's history by that event alone, or not at all. */
  lemma {:induction false} EventsForAppend(events: seq<LedgerEvent>, e: LedgerEvent, id: string)
    ensures EventsFor(events + [e], id)
         == EventsFor(events, id) + (if e.requirement == id then [e] else [])
  {
    if events == [] {
      assert [] + [e] == [e];
    } else {
      assert (events + [e])[1..] == events[1..] + [e];
      EventsForAppend(events[1..], e, id);
    }
  }

  /** An outcome event for `id`: one that carries a validation result. */
  predicate IsOutcomeFor(e: LedgerEvent, id: string) {
    e.requirement == id && e.validationPassed.Some?
  }

  /** The index of the most recent outcome event for `id`. */
  function LastOutcome(events: seq<LedgerEvent>, id: string): (r: Option<nat>)
    ensures r.Some? ==> r.value < |events| && IsOutcomeFor(events[r.value], id)
    ensures r.Some? ==> forall k :: r.value < k < |events| ==> !IsOutcomeFor(events[k], id)
    ensures r.None? <==> forall k :: 0 <= k < |events| ==> !IsOutcomeFor(events[k], id)
  {
    if events == [] then None
    else if IsOutcomeFor(events[|events| - 1], id) then Some(|events| - 1)
    else LastOutcome(events[..|events| - 1], id)
  }

  /**
   * `get_last_validation_failure`: the message of the requirement's most
   * recent outcome event, when that event records a failed validation.
   */
  function LastValidationFailure(events: seq<LedgerEvent>, id: string): (r: Option<string>)
    ensures r.Some? ==>
              exists k :: 0 <= k < |events| && IsOutcomeFor(events[k], id)
                          && events[k].validationPassed == Some(false) && events[k].message == r
                          && forall j :: k < j < |events| ==> !IsOutcomeFor(events[j], id)
    ensures (forall k :: 0 <= k < |events| ==> !IsOutcomeFor(events[k], id)) ==> r.None?
  {
    match LastOutcome(events, id)
    case None => None
    case Some(k) => if events[k].validationPassed == Some(false) then events[k].message else None
  }

  /** The index of the most recent event for `id`. */
  function LastEventFor(events: seq<LedgerEvent>, id: string): (r: Option<nat>)
    ensures r.Some? ==> r.value < |events| && events[r.value].requirement == id
    ensures r.Some? ==> forall k :: r.value < k < |events| ==> events[k].requirement != id
    ensures r.None? <==> forall k :: 0 <= k < |events| ==> events[k].requirement != id
  {
    if events == [] then None
    else if events[|events| - 1].requirement == id then Some(|events| - 1)
    else LastEventFor(events[..|events| - 1], id)
  }

  /** `is_requirement_failed`: the requirement's most recent event has status `Failed`. */
  function IsRequirementFailed(events: seq<LedgerEvent>, id: string): (r: bool)
    ensures r <==>
              exists k :: 0 <= k < |events| && events[k].requirement == id && events[k].status == Failed
                          && forall j :: k < j < |events| ==> events[j].requirement != id
  {
    match LastEventFor(events, id)
    case None => false
    case Some(k) => events[k].status == Failed
  }

  /**
   * The failed flag is decided by the latest event for the requirement:
   * after an event for `id` it is exactly whether that event is `Failed`
   * (so a later `Done` clears it), and no requirement without events failed.
   */
  lemma LatestEventDecidesFailed(events: seq<LedgerEvent>, e: LedgerEvent, id: string)
    requires e.requirement == id
    ensures IsRequirementFailed(events + [e], id) <==> e.status == Failed
    ensures e.status == Done ==> !IsRequirementFailed(events + [e], id)
    ensures EventsFor(events, id) == [] ==> !IsRequirementFailed(events, id)
  {
    assert (events + [e])[|events|] == e;
  }

  /** An event without a validation result (such as `Started`) does not change the last failure. */
  lemma NonOutcomeKeepsQueries(events: seq<LedgerEvent>, e: LedgerEvent, id: string)
    requires e.validationPassed.None?
    ensures LastValidationFailure(events + [e], id) == LastValidationFailure(events, id)
  {
    assert (events + [e])[..|events|] == events;
    assert !IsOutcomeFor((events + [e])[|events|], id);
  }

  /** After an outcome event for `id`, both queries read that event. */
  lemma OutcomeDecidesQueries(events: seq<LedgerEvent>, e: LedgerEvent, id: string)
    requires IsOutcomeFor(e, id)
    ensures LastValidationFailure(events + [e], id)
         == (if e.validationPassed == Some(false) then e.message else None)
    ensures IsRequirementFailed(events + [e], id) <==> e.status == Failed
  {
    assert (events + [e])[|events|] == e;
  }

  /** Outcome events of other requirements do not change the queries for `id`. */
  lemma OtherRequirementKeepsQueries(events: seq<LedgerEvent>, e: LedgerEvent, id: string)
    requires e.requirement != id
    ensures LastValidationFailure(events + [e], id) == LastValidationFailure(events, id)
    ensures IsRequirementFailed(events + [e], id) == IsRequirementFailed(events, id)
  {
    assert (events + [e])[..|events|] == events;
    assert !IsOutcomeFor((events + [e])[|events|], id);
    assert (events + [e])[|events|].requirement != id;
  }

  // ---------------------------------------------------------------------
  // The ledger object
  // ---------------------------------------------------------------------

  /** Iteration numbers never decrease along the ledger. */
  ghost predicate NonDecreasing(events: seq<LedgerEvent>) {
    forall j, k :: 0 <= j < k < |events| ==> events[j].iteration <= events[k].iteration
  }

  /** In a non-decreasing ledger the latest iteration is the last event's. */
  lemma {:induction false} LatestIsLast(events: seq<LedgerEvent>)
    requires NonDecreasing(events) && events != []
    ensures MaxIteration(events) == events[|events| - 1].iteration
  {
    var init := events[..|events| - 1];
    if init != [] {
      assert NonDecreasing(init) by {
        forall j, k | 0 <= j < k < |init| ensures init[j].iteration <= init[k].iteration {
          assert init[j] == events[j] && init[k] == events[k];
        }
      }
      LatestIsLast(init);
      assert init[|init| - 1] == events[|events| - 2];
    }
  }

  /** Appending at or after the latest iteration keeps the ledger non-decreasing. */
  lemma AppendKeepsNonDecreasing(events: seq<LedgerEvent>, e: LedgerEvent)
    requires NonDecreasing(events) && e.iteration >= MaxIteration(events)
    ensures NonDecreasing(events + [e])
  {
    var s := events + [e];
    forall j, k | 0 <= j < k < |s| ensures s[j].iteration <= s[k].iteration {
      if k == |events| {
        assert s[j] == events[j];
      } else {
        assert s[j] == events[j] && s[k] == events[k];
      }
    }
  }

  class Ledger {
    var events: seq<LedgerEvent>

    /** `Ledger::new`: no events. */
    constructor()
      ensures events == []
    {
      events := [];
    }

    /** `events`: the stored events, in order. */
    method Events() returns (r: seq<LedgerEvent>)
      ensures r == events
    {
      r := events;
    }

    /** `append`: one more event at the end; every earlier event stays. */
    method Append(e: LedgerEvent)
      modifies this
      ensures events == old(events) + [e]
      ensures |events| == |old(events)| + 1 && events[..|old(events)|] == old(events)
    {
      events := events + [e];
    }

    /** `latest_iteration`: every stored event's iteration is at most it, and it is 0 or one of them. */
    function LatestIteration(): (r: nat)
      reads this
      ensures forall k :: 0 <= k < |events| ==> events[k].iteration <= r
      ensures r == 0 || exists k :: 0 <= k < |events| && events[k].iteration == r
    {
      MaxIteration(events)
    }
  }
}
