/**
 * The `status` command's progress summary: how many requirements are done,
 * and the icons shown for a feature and for each requirement.
 */
module Status {
  import P = Prd

  /** The number of `Done` requirements (`filter(..).count()`). */
  function CountDone(reqs: seq<P.Requirement>): (n: nat)
    ensures n <= |reqs|
    ensures n == |reqs| <==> forall j :: 0 <= j < |reqs| ==> reqs[j].status == P.Done
    ensures n == 0 <==> forall j :: 0 <= j < |reqs| ==> reqs[j].status != P.Done
  {
    if reqs == [] then 0
    else (if reqs[0].status == P.Done then 1 else 0) + CountDone(reqs[1..])
  }

  /** Counting splits over a concatenation. */
  lemma {:induction false} CountDoneAppend(a: seq<P.Requirement>, b: seq<P.Requirement>)
    ensures CountDone(a + b) == CountDone(a) + CountDone(b)
  {
    if a == [] {
      assert a + b == b;
    } else {
      assert (a + b)[1..] == a[1..] + b;
      CountDoneAppend(a[1..], b);
    }
  }

  /** `count_requirements`: (done, total). */
  function CountRequirements(prd: P.Prd): (r: (nat, nat))
    reads prd
    ensures r.1 == |prd.requirements| && r.0 <= r.1
    ensures r.0 == r.1 <==> forall j :: 0 <= j < |prd.requirements| ==> prd.requirements[j].status == P.Done
  {
    (CountDone(prd.requirements), |prd.requirements|)
  }

  const Complete := "\U{2705}"
  const Partial := "\U{1F504}"
  const Empty := "\U{2B1C}"

  /**
   * `status_icon`: "complete" exactly when all of at least one requirement
   * are done, "partial" when some but not all are, and "empty" exactly
   * when none is done (also for a feature without requirements).
   */
  function StatusIcon(done: nat, total: nat): (icon: string)
    ensures icon == Complete <==> done == total && total > 0
    ensures icon == Partial <==> done > 0 && !(done == total && total > 0)
    ensures icon == Empty <==> done == 0
  {
    if done == total && total > 0 then Complete
    else if done > 0 then Partial
    else Empty
  }

  /** For a PRD, the feature is shown complete exactly when it has requirements and all are done. */
  lemma PrdComplete(prd: P.Prd)
    ensures var c := CountRequirements(prd);
      (StatusIcon(c.0, c.1) == Complete)
        == (|prd.requirements| > 0 && forall j :: 0 <= j < |prd.requirements| ==> prd.requirements[j].status == P.Done)
  {
  }

  /** `req_status_icon`: the icon the markdown rendering shows for the status. */
  function ReqStatusIcon(s: P.RequirementStatus): (icon: string)
    ensures icon == P.MarkdownIcon(s)
  {
    match s
    case Todo => Empty
    case InProgress => Partial
    case Done => Complete
    case Blocked => "\U{1F6AB}"
  }

  /**
   * Each status has its own icon, and the feature icons are those of a
   * done, an in-progress and a todo requirement.
   */
  lemma ReqStatusIcons(s: P.RequirementStatus, t: P.RequirementStatus)
    ensures ReqStatusIcon(s) == ReqStatusIcon(t) <==> s == t
    ensures Complete == ReqStatusIcon(P.Done) && Partial == ReqStatusIcon(P.InProgress)
         && Empty == ReqStatusIcon(P.Todo)
  {
  }
}
