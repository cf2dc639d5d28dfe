/**
 * The `commit-msg` hook: a commit message must reference a requirement,
 * that is contain `REQ-` followed by digits. The references are found the
 * way a `REQ-\d+` regular-expression scan finds them: leftmost first, each
 * as long as possible, never overlapping. References that no PRD knows
 * only produce warnings.
 */
module Hook {
  import opened Common
  import opened Text

  const RefPrefix := "REQ-"

  /** A reference starts at `i`: `REQ-` and then a digit. */
  predicate RefAt(s: string, i: nat) {
    i + 5 <= |s| && s[i..i + 4] == RefPrefix && IsDigit(s[i + 4])
  }

  /** Where the run of digits that starts at `i` ends. */
  function DigitsEnd(s: string, i: nat): (e: nat)
    requires i <= |s|
    ensures i <= e <= |s| && AllDigits(s[i..e])
    ensures e == |s| || !IsDigit(s[e])
    decreases |s| - i
  {
    if i < |s| && IsDigit(s[i]) then
      var e := DigitsEnd(s, i + 1);
      assert s[i..e] == [s[i]] + s[i + 1..e];
      e
    else i
  }

  /** A match: the half-open range `start..end` of the message. */
  datatype Span = Span(start: nat, end: nat)

  /** `s[sp.start..sp.end]` is `REQ-` and a maximal run of one or more digits. */
  predicate IsRef(s: string, sp: Span) {
    sp.start + 5 <= sp.end <= |s| && RefAt(s, sp.start)
    && AllDigits(s[sp.start + 4..sp.end]) && (sp.end == |s| || !IsDigit(s[sp.end]))
  }

  /** No reference starts in `from..to`. */
  predicate NoRefIn(s: string, from: nat, to: nat) {
    forall j :: from <= j < to ==> !RefAt(s, j)
  }

  /** The matches from position `i` on (`find_iter`), each a maximal reference. */
  function SpansFrom(s: string, i: nat): (r: seq<Span>)
    requires i <= |s|
    ensures forall k :: 0 <= k < |r| ==> i <= r[k].start && IsRef(s, r[k])
    decreases |s| - i
  {
    if i == |s| then []
    else if RefAt(s, i) then
      var e := DigitsEnd(s, i + 4);
      [Span(i, e)] + SpansFrom(s, e)
    else SpansFrom(s, i + 1)
  }

  /** A reference found at `i` ends where its digits end. */
  lemma SpansAtRef(s: string, i: nat)
    requires i < |s| && RefAt(s, i)
    ensures SpansFrom(s, i) == [Span(i, DigitsEnd(s, i + 4))] + SpansFrom(s, DigitsEnd(s, i + 4))
  {
  }

  /** Where no reference starts, the scan moves on by one. */
  lemma SpansSkip(s: string, i: nat)
    requires i < |s| && !RefAt(s, i)
    ensures SpansFrom(s, i) == SpansFrom(s, i + 1)
  {
  }

  /** No reference starts in two adjacent ranges, so none in their union. */
  lemma NoRefJoin(s: string, a: nat, b: nat, c: nat)
    requires a <= b <= c && NoRefIn(s, a, b) && NoRefIn(s, b, c)
    ensures NoRefIn(s, a, c)
  {
  }

  /** The matches from `i` come in order, without overlap, and no reference starts between two of them. */
  ghost predicate ScanOrdered(s: string, i: nat)
    requires i <= |s|
  {
    var r := SpansFrom(s, i);
    forall k :: 0 <= k < |r| - 1 ==> r[k].end <= r[k + 1].start && NoRefIn(s, r[k].end, r[k + 1].start)
  }

  /** A match at `i` keeps the scan ordered when the scan after it is ordered and complete. */
  lemma OrderedAtRef(s: string, i: nat)
    requires i < |s| && RefAt(s, i)
    requires ScanOrdered(s, DigitsEnd(s, i + 4)) && ScanComplete(s, DigitsEnd(s, i + 4))
    ensures ScanOrdered(s, i)
  {
    var e := DigitsEnd(s, i + 4);
    SpansAtRef(s, i);
    var rest := SpansFrom(s, e);
    var r := SpansFrom(s, i);
    assert r == [Span(i, e)] + rest;
    forall k | 0 <= k < |r| - 1
      ensures r[k].end <= r[k + 1].start && NoRefIn(s, r[k].end, r[k + 1].start)
    {
      if k == 0 {
        assert r[0] == Span(i, e) && r[1] == rest[0];
      } else {
        assert r[k] == rest[k - 1] && r[k + 1] == rest[k];
      }
    }
  }

  /** The matches come in order, without overlap, and no reference starts between two of them. */
  lemma {:induction false} SpansOrdered(s: string, i: nat)
    requires i <= |s|
    ensures ScanOrdered(s, i)
    decreases |s| - i
  {
    if i < |s| {
      if RefAt(s, i) {
        var e := DigitsEnd(s, i + 4);
        SpansOrdered(s, e);
        SpansComplete(s, e);
        OrderedAtRef(s, i);
      } else {
        SpansSkip(s, i);
        SpansOrdered(s, i + 1);
      }
    }
  }

  /**
   * The scan from `i` skips no reference: none starts before the first
   * match or after the last, and with no match there is none from `i` on.
   */
  ghost predicate ScanComplete(s: string, i: nat)
    requires i <= |s|
  {
    var r := SpansFrom(s, i);
    (r == [] ==> NoRefIn(s, i, |s|))
    && (r != [] ==> NoRefIn(s, i, r[0].start) && NoRefIn(s, r[|r| - 1].end, |s|))
  }

  /** A match at `i` keeps the scan complete when the scan after it is complete. */
  lemma CompleteAtRef(s: string, i: nat)
    requires i < |s| && RefAt(s, i) && ScanComplete(s, DigitsEnd(s, i + 4))
    ensures ScanComplete(s, i)
  {
    var e := DigitsEnd(s, i + 4);
    SpansAtRef(s, i);
    var rest := SpansFrom(s, e);
    var r := SpansFrom(s, i);
    assert r == [Span(i, e)] + rest;
    if rest != [] {
      assert r[|r| - 1] == rest[|rest| - 1];
    }
  }

  /** Skipping a position where no reference starts keeps the scan complete. */
  lemma CompleteSkip(s: string, i: nat)
    requires i < |s| && !RefAt(s, i) && ScanComplete(s, i + 1)
    ensures ScanComplete(s, i)
  {
    SpansSkip(s, i);
    assert NoRefIn(s, i, i + 1);
    var r := SpansFrom(s, i);
    if r == [] {
      NoRefJoin(s, i, i + 1, |s|);
    } else {
      NoRefJoin(s, i, i + 1, r[0].start);
    }
  }

  /** The scan skips no reference (`ScanComplete`) from any position on. */
  lemma {:induction false} SpansComplete(s: string, i: nat)
    requires i <= |s|
    ensures ScanComplete(s, i)
    decreases |s| - i
  {
    if i < |s| {
      if RefAt(s, i) {
        SpansComplete(s, DigitsEnd(s, i + 4));
        CompleteAtRef(s, i);
      } else {
        SpansComplete(s, i + 1);
        CompleteSkip(s, i);
      }
    }
  }

  /** The references in a message, in order. */
  function Refs(message: string): (r: seq<string>)
  {
    var spans := SpansFrom(message, 0);
    seq(|spans|, k requires 0 <= k < |spans| => message[spans[k].start..spans[k].end])
  }

  /** Each reference is `REQ-` followed by one or more digits. */
  lemma RefsShape(message: string)
    ensures forall k :: 0 <= k < |Refs(message)| ==>
      |Refs(message)[k]| >= 5 && Refs(message)[k][..4] == RefPrefix && AllDigits(Refs(message)[k][4..])
  {
    var spans := SpansFrom(message, 0);
    forall k | 0 <= k < |spans|
      ensures |Refs(message)[k]| >= 5 && Refs(message)[k][..4] == RefPrefix && AllDigits(Refs(message)[k][4..])
    {
      var sp := spans[k];
      assert IsRef(message, sp);
      assert Refs(message)[k] == message[sp.start..sp.end];
      assert message[sp.start..sp.end][..4] == message[sp.start..sp.start + 4];
      assert message[sp.start..sp.end][4..] == message[sp.start + 4..sp.end];
    }
  }

  /** There is no reference at all exactly when the scan finds none. */
  lemma NoRefsIff(message: string)
    ensures Refs(message) == [] <==> forall i :: 0 <= i < |message| ==> !RefAt(message, i)
  {
    SpansComplete(message, 0);
    var spans := SpansFrom(message, 0);
    if spans != [] {
      assert IsRef(message, spans[0]);
    }
  }

  /** The verdict of the hook: rejected, or accepted with the references no PRD knows. */
  datatype HookOutcome = Rejected | Accepted(unknown: seq<string>)

  /** The references not among the known requirement ids, in order. */
  function Unknown(refs: seq<string>, known: seq<string>): (r: seq<string>)
    ensures forall x :: x in r <==> x in refs && x !in known
    ensures |r| <= |refs|
  {
    if refs == [] then []
    else (if refs[0] in known then [] else [refs[0]]) + Unknown(refs[1..], known)
  }

  /**
   * `commit_msg` on a message, given the requirement ids of every PRD when
   * the tasks directory exists (`None` when it does not).
   */
  function CommitMsg(message: string, knownIds: Option<seq<string>>): (r: HookOutcome)
    ensures r.Rejected? <==> Refs(message) == []
    ensures r.Accepted? && knownIds.None? ==> r.unknown == []
    ensures r.Accepted? && knownIds.Some? ==>
              forall x :: x in r.unknown <==> x in Refs(message) && x !in knownIds.value
  {
    var refs := Refs(message);
    if refs == [] then Rejected
    else match knownIds
      case None => Accepted([])
      case Some(ids) => Accepted(Unknown(refs, ids))
  }

  /**
   * A message is rejected exactly when nowhere in it does `REQ-` stand
   * right before a digit; then the known ids do not matter.
   */
  lemma RejectedIff(message: string, knownIds: Option<seq<string>>)
    ensures CommitMsg(message, knownIds).Rejected? <==> forall i :: 0 <= i < |message| ==> !RefAt(message, i)
  {
    NoRefsIff(message);
  }

  /**
   * A reference that no PRD knows never rejects the message: it is only
   * listed as a warning, and exactly such references are listed.
   */
  lemma UnknownOnlyWarns(message: string, ids: seq<string>)
    requires Refs(message) != []
    ensures CommitMsg(message, Some(ids)).Accepted?
    ensures CommitMsg(message, None) == Accepted([])
    ensures forall x :: x in CommitMsg(message, Some(ids)).unknown <==> x in Refs(message) && x !in ids
  {
  }

  /** No uppercase `R` means no reference. */
  lemma NoRNoRef(s: string, from: nat)
    requires from <= |s| && forall j :: from <= j < |s| ==> s[j] != 'R'
    ensures NoRefIn(s, from, |s|)
  {
    forall j | from <= j < |s| ensures !RefAt(s, j) {
      if j + 4 <= |s| {
        assert s[j..j + 4][0] == s[j];
      }
    }
  }

  /** `REQ-01: Add feature` references `REQ-01` and is accepted. */
  lemma ExampleAccepted(knownIds: Option<seq<string>>)
    ensures Refs("REQ-01: Add feature") == ["REQ-01"]
    ensures CommitMsg("REQ-01: Add feature", knownIds).Accepted?
  {
    var s := "REQ-01: Add feature";
    assert RefAt(s, 0);
    assert DigitsEnd(s, 4) == 6 by {
      assert IsDigit(s[4]) && IsDigit(s[5]) && !IsDigit(s[6]);
      assert DigitsEnd(s, 6) == 6;
    }
    NoRNoRef(s, 6);
    SpansComplete(s, 6);
    SpansAtRef(s, 0);
    assert SpansFrom(s, 6) == [];
    assert s[0..6] == "REQ-01";
  }

  /** `Add feature without reference` is rejected. */
  lemma ExampleRejected(knownIds: Option<seq<string>>)
    ensures CommitMsg("Add feature without reference", knownIds) == Rejected
  {
    var s := "Add feature without reference";
    NoRNoRef(s, 0);
    RejectedIff(s, knownIds);
  }
}
