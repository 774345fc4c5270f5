/** Plan steps and the pure per-step rules of plan revision (`app/learning/lesson_plan.py`). */
module PlanSteps {
  import opened Ids
  import opened Sorting
  import opened Wrappers

  datatype StepType = New | Review | Detour
  datatype Status = Pending | Active | Done | Proposed | Skipped
  datatype Guidance = Guided | Exploration
  datatype DetourOutcome = Mastered | Disproved | Declined
  datatype Reason = Diagnosed | RepeatedFailure | External
  datatype Subject = Subject(id: int, name: string)

  /** A moment, in any unit. */
  type Time = int

  /** Profile-driven teaching parameters. */
  datatype Scaffolding = Scaffolding(
    targetDifficulty: Option<real>, hintDensity: Option<string>, preferredItemType: Option<string>)

  /** What revision refreshes on every open step. Absent flags are those never yet written. */
  datatype Hints = Hints(
    targetDifficulty: Option<real>, hintDensity: Option<string>, preferredItemType: Option<string>,
    checkFirst: Option<bool>, retentionCheck: Option<bool>, transferCheck: Option<bool>)

  datatype Step = Step(
    kc: KcId, order: int, stepType: StepType, status: Status, hints: Hints,
    detourFor: Option<KcId>, reason: Option<Reason>,
    openedAt: Option<Time>, offeredAt: Option<Time>,
    outcome: Option<DetourOutcome>, source: Option<Subject>)

  /** A reason to open a detour: `prereq` should come before `blocked`. */
  datatype Trigger = Trigger(prereq: KcId, blocked: KcId, reason: Reason, source: Option<Subject>)

  /** What one revision is told about the learner. Due reviews come soonest first. */
  datatype Evidence = Evidence(
    mastered: set<KcId>, disproved: set<KcId>, due: seq<KcId>,
    provisional: set<KcId>, retentionChecks: set<KcId>, transferChecks: set<KcId>,
    scaffolding: Scaffolding, guidance: Guidance, now: Time)

  const NO_HINTS := Hints(None, None, None, None, None, None)

  /** The question format of detours within the subject, which no profile overrides. */
  const DETOUR_ITEM_TYPE := "short"

  // ---- One step at a time ---------------------------------------------------------------

  predicate IsClosed(s: Step) {
    s.status.Done? || s.status.Skipped?
  }

  predicate IsExternal(s: Step) {
    s.stepType.Detour? && s.reason == Some(External)
  }

  /** An open detour: taken or merely offered. */
  predicate IsOpenDetour(s: Step) {
    s.stepType.Detour? && (s.status.Pending? || s.status.Active? || s.status.Proposed?)
  }

  predicate IsOpenReview(s: Step) {
    s.stepType.Review? && !IsClosed(s)
  }

  predicate IsOpenNew(s: Step) {
    s.stepType.New? && !IsClosed(s)
  }

  /** A detour that only exists for the sake of the step it is in front of: an offer, or an open external one. */
  predicate IsTethered(s: Step) {
    s.stepType.Detour? && (s.status.Proposed? || (IsExternal(s) && !IsClosed(s)))
  }

  /** A step the learner could be working on. */
  predicate IsTeachable(s: Step) {
    !IsClosed(s) && !s.status.Proposed?
  }

  function CloseByEvidence(ev: Evidence, s: Step): Step {
    if IsClosed(s) then s
    else match s.stepType
      case New => if s.kc in ev.mastered then s.(status := Done) else s
      case Review => s
      case Detour =>
        if s.kc in ev.mastered then
          s.(status := Done, outcome := Some(Mastered))
        else if !s.status.Proposed? && s.kc in ev.disproved && s.openedAt.Some? && !IsExternal(s) then
          s.(status := Done, outcome := Some(Disproved))
        else s
  }

  function CloseUndue(due: set<KcId>, s: Step): Step {
    if IsOpenReview(s) && s.kc !in due then s.(status := Done) else s
  }

  function Deactivate(s: Step): Step {
    if s.status.Active? then s.(status := Pending) else s
  }

  function Refresh(ev: Evidence, s: Step): Step {
    if IsClosed(s) then s
    else
      var retention := s.stepType.Review? && s.kc in ev.retentionChecks;
      s.(hints := Hints(
        ev.scaffolding.targetDifficulty,
        ev.scaffolding.hintDensity,
        if s.stepType.Detour? && !IsExternal(s) then Some(DETOUR_ITEM_TYPE) else ev.scaffolding.preferredItemType,
        Some(s.kc in ev.provisional),
        Some(retention),
        Some(s.stepType.Review? && s.kc in ev.transferChecks && !retention)))
  }

  function BareStep(kc: KcId, order: int, stepType: StepType): Step {
    Step(kc, order, stepType, Pending, NO_HINTS, None, None, None, None, None, None)
  }

  function DetourStep(ev: Evidence, t: Trigger): Step {
    var offered := ev.guidance.Exploration?;
    Step(t.prereq, 0, Detour, if offered then Proposed else Pending, NO_HINTS,
         Some(t.blocked), Some(t.reason), if offered then None else Some(ev.now), Some(ev.now), None, t.source)
  }

  // ---- Lookups the revision builds from the plan ----------------------------------------

  /** The status of each new step's component; the last such step wins. */
  function NewStatus(steps: seq<Step>): map<KcId, Status> {
    if steps == [] then map[]
    else
      var before, s := NewStatus(steps[..|steps| - 1]), steps[|steps| - 1];
      if s.stepType.New? then before[s.kc := s.status] else before
  }

  /** The order of each new step's component; the last such step wins. */
  function NewOrder(steps: seq<Step>): map<KcId, int> {
    if steps == [] then map[]
    else
      var before, s := NewOrder(steps[..|steps| - 1]), steps[|steps| - 1];
      if s.stepType.New? then before[s.kc := s.order] else before
  }

  /** The position of each due component; the last mention wins. */
  function ReviewRank(due: seq<KcId>): map<KcId, int> {
    if due == [] then map[]
    else ReviewRank(due[..|due| - 1])[due[|due| - 1] := |due| - 1]
  }

  /** Whether the step a tethered detour is for is done or gone. */
  predicate TargetGone(status: map<KcId, Status>, s: Step) {
    match s.detourFor
    case None => true
    case Some(b) => b !in status || status[b].Done?
  }

  predicate IsStale(status: map<KcId, Status>, s: Step) {
    IsTethered(s) && TargetGone(status, s)
  }

  // ---- Ordering -------------------------------------------------------------------------

  datatype Ranks = Ranks(review: map<KcId, int>, dueCount: nat, newOrder: map<KcId, int>)

  function Bucket(s: Step): int {
    if IsClosed(s) then 3
    else if s.stepType.Detour? && !s.status.Proposed? && !IsExternal(s) then 0
    else if s.stepType.Review? then 1
    else 2
  }

  function PlaceKey(r: Ranks, s: Step): Key {
    if IsOpenReview(s) then
      Key(Bucket(s), if s.kc in r.review then r.review[s.kc] else r.dueCount, 0)
    else if s.status.Proposed? || (IsExternal(s) && !IsClosed(s)) then
      Key(Bucket(s), if s.detourFor.Some? && s.detourFor.value in r.newOrder then r.newOrder[s.detourFor.value] else s.order, 0)
    else if Bucket(s) == 2 then
      Key(2, s.order, 1)
    else
      Key(Bucket(s), s.order, 0)
  }

  function ByPlace(r: Ranks): Step -> Key {
    s => PlaceKey(r, s)
  }

  function RanksOf(ev: Evidence, steps: seq<Step>): Ranks {
    Ranks(ReviewRank(ev.due), |ev.due|, NewOrder(steps))
  }
}

/** `revise_steps` and `decide_detour`: what they compute, and the loops that compute it. */
module PlanRevision {
  import opened Distinctness
  import opened Ids
  import opened PlanSteps
  import opened Sorting
  import opened Wrappers

  // ---- The revision as a composition of passes ------------------------------------------

  function CloseAll(ev: Evidence, steps: seq<Step>): seq<Step> {
    seq(|steps|, i requires 0 <= i < |steps| => CloseByEvidence(ev, steps[i]))
  }

  function DropStale(status: map<KcId, Status>, steps: seq<Step>): seq<Step> {
    if steps == [] then []
    else
      var kept, s := DropStale(status, steps[..|steps| - 1]), steps[|steps| - 1];
      if IsStale(status, s) then kept else kept + [s]
  }

  /** Why a trigger is refused: its external target is finished, it is already open, or it is mastered. */
  predicate Refuses(ev: Evidence, status: map<KcId, Status>, steps: seq<Step>, t: Trigger) {
    || (t.reason.External? && (t.blocked !in status || status[t.blocked].Done? || status[t.blocked].Skipped?))
    || (exists i :: 0 <= i < |steps| && IsOpenDetour(steps[i]) && steps[i].kc == t.prereq)
    || t.prereq in ev.mastered
  }

  function InsertAll(ev: Evidence, status: map<KcId, Status>, steps: seq<Step>, triggers: seq<Trigger>): seq<Step> {
    if triggers == [] then steps
    else
      var before, t := InsertAll(ev, status, steps, triggers[..|triggers| - 1]), triggers[|triggers| - 1];
      if Refuses(ev, status, before, t) then before else before + [DetourStep(ev, t)]
  }

  function CloseUndueAll(due: set<KcId>, steps: seq<Step>): seq<Step> {
    seq(|steps|, i requires 0 <= i < |steps| => CloseUndue(due, steps[i]))
  }

  /** Components that already have an open review. */
  function Covered(steps: seq<Step>): set<KcId> {
    set i | 0 <= i < |steps| && IsOpenReview(steps[i]) :: steps[i].kc
  }

  /** One review for each due component not covered yet, in due order. */
  function MissingReviews(covered: set<KcId>, due: seq<KcId>): seq<Step>
    decreases |due|
  {
    if due == [] then []
    else if due[0] in covered then MissingReviews(covered, due[1..])
    else [BareStep(due[0], 0, Review)] + MissingReviews(covered + {due[0]}, due[1..])
  }

  function Renumber(steps: seq<Step>): seq<Step> {
    seq(|steps|, i requires 0 <= i < |steps| => steps[i].(order := i))
  }

  function DeactivateAll(steps: seq<Step>): seq<Step> {
    seq(|steps|, i requires 0 <= i < |steps| => Deactivate(steps[i]))
  }

  /** The position of the first teachable step, or the length of the plan. */
  function FirstTeachable(steps: seq<Step>): (n: nat)
    ensures n <= |steps|
    ensures n < |steps| ==> IsTeachable(steps[n])
    ensures forall i :: 0 <= i < n ==> !IsTeachable(steps[i])
  {
    if steps == [] || IsTeachable(steps[0]) then 0 else 1 + FirstTeachable(steps[1..])
  }

  function ActivateFirst(steps: seq<Step>): seq<Step> {
    var n := FirstTeachable(steps);
    if n < |steps| then steps[n := steps[n].(status := Active)] else steps
  }

  function RefreshAll(ev: Evidence, steps: seq<Step>): seq<Step> {
    seq(|steps|, i requires 0 <= i < |steps| => Refresh(ev, steps[i]))
  }

  /** Evidence applied and stale offers dropped. */
  function Pruned(ev: Evidence, steps: seq<Step>): seq<Step> {
    var closed := CloseAll(ev, steps);
    DropStale(NewStatus(closed), closed)
  }

  function WithDetours(ev: Evidence, steps: seq<Step>, triggers: seq<Trigger>): seq<Step> {
    InsertAll(ev, NewStatus(CloseAll(ev, steps)), Pruned(ev, steps), triggers)
  }

  function WithReviews(ev: Evidence, steps: seq<Step>): seq<Step> {
    var kept := CloseUndueAll(Elements(ev.due), steps);
    kept + MissingReviews(Covered(kept), ev.due)
  }

  /** Everything the plan holds after the revision, before it is put in order. */
  function Gathered(ev: Evidence, steps: seq<Step>, triggers: seq<Trigger>): seq<Step> {
    WithReviews(ev, WithDetours(ev, steps, triggers))
  }

  function Sorted(ev: Evidence, steps: seq<Step>): seq<Step> {
    StableSort(steps, ByPlace(RanksOf(ev, steps)))
  }

  function Finished(ev: Evidence, steps: seq<Step>): seq<Step> {
    RefreshAll(ev, ActivateFirst(DeactivateAll(Renumber(steps))))
  }

  function Revised(ev: Evidence, steps: seq<Step>, triggers: seq<Trigger>): seq<Step> {
    Finished(ev, Sorted(ev, Gathered(ev, steps, triggers)))
  }

  // ---- `revise_steps` -------------------------------------------------------------------

  method ReviseSteps(steps: seq<Step>, ev: Evidence, detour: Option<Trigger>, externals: seq<Trigger>)
      returns (result: seq<Step>)
    ensures result == Revised(ev, steps, (if detour.Some? then [detour.value] else []) + externals)
  {
    var triggers := (if detour.Some? then [detour.value] else []) + externals;
    result := ApplyEvidence(steps, ev);
    var status := NewStatus(result);
    result := DropStale(status, result);
    result := InsertDetours(result, ev, status, triggers);
    result := RefreshReviews(result, ev);
    result := StableSort(result, ByPlace(RanksOf(ev, result)));
    result := Renumbered(result);
    result := Reactivated(result);
    result := Retaught(result, ev);
  }

  method ApplyEvidence(steps: seq<Step>, ev: Evidence) returns (result: seq<Step>)
    ensures result == CloseAll(ev, steps)
  {
    result := steps;
    for i := 0 to |steps|
      invariant |result| == |steps|
      invariant forall j :: 0 <= j < i ==> result[j] == CloseByEvidence(ev, steps[j])
      invariant forall j :: i <= j < |steps| ==> result[j] == steps[j]
    {
      var s := result[i];
      if s.status.Done? || s.status.Skipped? {
        continue;
      }
      if s.stepType.New? {
        if s.kc in ev.mastered {
          result := result[i := s.(status := Done)];
        }
      } else if s.stepType.Detour? {
        if s.kc in ev.mastered {
          result := result[i := s.(status := Done, outcome := Some(Mastered))];
        } else if !s.status.Proposed? && s.kc in ev.disproved && s.openedAt.Some? && !IsExternal(s) {
          result := result[i := s.(status := Done, outcome := Some(Disproved))];
        }
      }
    }
  }

  method InsertDetours(steps: seq<Step>, ev: Evidence, status: map<KcId, Status>, triggers: seq<Trigger>)
      returns (result: seq<Step>)
    ensures result == InsertAll(ev, status, steps, triggers)
  {
    result := steps;
    for k := 0 to |triggers|
      invariant result == InsertAll(ev, status, steps, triggers[..k])
    {
      var t := triggers[k];
      assert triggers[..k + 1][..k] == triggers[..k];
      if t.reason.External? && (t.blocked !in status || status[t.blocked].Done? || status[t.blocked].Skipped?) {
        continue;
      }
      var alreadyOpen := exists i :: 0 <= i < |result| && IsOpenDetour(result[i]) && result[i].kc == t.prereq;
      if alreadyOpen || t.prereq in ev.mastered {
        continue;
      }
      result := result + [DetourStep(ev, t)];
    }
    assert triggers[..|triggers|] == triggers;
  }

  method RefreshReviews(steps: seq<Step>, ev: Evidence) returns (result: seq<Step>)
    ensures result == WithReviews(ev, steps)
  {
    var due := Elements(ev.due);
    var covered := {};
    result := steps;
    for i := 0 to |steps|
      invariant |result| == |steps|
      invariant forall j :: 0 <= j < i ==> result[j] == CloseUndue(due, steps[j])
      invariant forall j :: i <= j < |steps| ==> result[j] == steps[j]
      invariant covered == Covered(result[..i])
    {
      var s := result[i];
      if IsOpenReview(s) {
        if s.kc !in due {
          result := result[i := s.(status := Done)];
        } else {
          covered := covered + {s.kc};
        }
      }
      CoveredExtends(result, i);
    }
    assert result[..|steps|] == result == CloseUndueAll(due, steps);
    result := AddMissing(result, covered, ev.due);
  }

  lemma CoveredExtends(steps: seq<Step>, i: nat)
    requires i < |steps|
    ensures Covered(steps[..i + 1]) == Covered(steps[..i]) + if IsOpenReview(steps[i]) then {steps[i].kc} else {}
  {
    var more := steps[..i + 1];
    assert forall j :: 0 <= j < i ==> more[j] == steps[..i][j];
    forall kc | kc in Covered(steps[..i])
      ensures kc in Covered(more)
    {
      var j :| 0 <= j < i && IsOpenReview(steps[..i][j]) && steps[..i][j].kc == kc;
      assert IsOpenReview(more[j]) && more[j].kc == kc;
    }
    if IsOpenReview(steps[i]) {
      assert IsOpenReview(more[i]) && more[i].kc == steps[i].kc;
    }
  }

  method AddMissing(steps: seq<Step>, already: set<KcId>, due: seq<KcId>) returns (result: seq<Step>)
    ensures result == steps + MissingReviews(already, due)
  {
    result := steps;
    var covered := already;
    for k := 0 to |due|
      invariant result + MissingReviews(covered, due[k..]) == steps + MissingReviews(already, due)
    {
      assert due[k..][1..] == due[k + 1..];
      if due[k] in covered {
        continue;
      }
      var added := BareStep(due[k], 0, Review);
      assert result + ([added] + MissingReviews(covered + {due[k]}, due[k + 1..]))
          == result + [added] + MissingReviews(covered + {due[k]}, due[k + 1..]);
      result := result + [added];
      covered := covered + {due[k]};
    }
  }

  method Renumbered(steps: seq<Step>) returns (result: seq<Step>)
    ensures result == Renumber(steps)
  {
    result := steps;
    for i := 0 to |steps|
      invariant |result| == |steps|
      invariant forall j :: 0 <= j < i ==> result[j] == steps[j].(order := j)
      invariant forall j :: i <= j < |steps| ==> result[j] == steps[j]
    {
      result := result[i := result[i].(order := i)];
    }
  }

  method Reactivated(steps: seq<Step>) returns (result: seq<Step>)
    ensures result == ActivateFirst(DeactivateAll(steps))
  {
    result := steps;
    for i := 0 to |steps|
      invariant |result| == |steps|
      invariant forall j :: 0 <= j < i ==> result[j] == Deactivate(steps[j])
      invariant forall j :: i <= j < |steps| ==> result[j] == steps[j]
    {
      if result[i].status.Active? {
        result := result[i := result[i].(status := Pending)];
      }
    }
    assert result == DeactivateAll(steps);
    for i := 0 to |result|
      invariant |result| == |steps| && result == DeactivateAll(steps)
      invariant forall j :: 0 <= j < i ==> !IsTeachable(result[j])
    {
      if IsTeachable(result[i]) {
        assert FirstTeachable(result) == i;
        result := result[i := result[i].(status := Active)];
        return;
      }
    }
  }

  method Retaught(steps: seq<Step>, ev: Evidence) returns (result: seq<Step>)
    ensures result == RefreshAll(ev, steps)
  {
    result := steps;
    for i := 0 to |steps|
      invariant |result| == |steps|
      invariant forall j :: 0 <= j < i ==> result[j] == Refresh(ev, steps[j])
      invariant forall j :: i <= j < |steps| ==> result[j] == steps[j]
    {
      result := result[i := Refresh(ev, result[i])];
    }
  }

  // ---- `decide_detour` and `build_initial_steps` ----------------------------------------

  datatype Decision = Accept | Skip
  datatype Decided = Steps(steps: seq<Step>) | DetourNotOpen

  /** The first open detour to `prereq`, or the length of the plan. */
  function OpenDetourAt(steps: seq<Step>, prereq: KcId): (n: nat)
    ensures n <= |steps|
    ensures n < |steps| ==> IsOpenDetour(steps[n]) && steps[n].kc == prereq
    ensures forall i :: 0 <= i < n ==> !(IsOpenDetour(steps[i]) && steps[i].kc == prereq)
  {
    if steps == [] || (IsOpenDetour(steps[0]) && steps[0].kc == prereq) then 0
    else 1 + OpenDetourAt(steps[1..], prereq)
  }

  /** The step a decision leaves behind. */
  function Answered(s: Step, decision: Decision, now: Time): Step {
    match decision
    case Accept => s.(status := Pending, openedAt := Some(now))
    case Skip => s.(status := Skipped, outcome := Some(Declined))
  }

  function DecideDetour(steps: seq<Step>, prereq: KcId, decision: Decision, now: Time): (r: Decided)
    ensures r.DetourNotOpen? <==>
      forall i :: 0 <= i < |steps| && IsOpenDetour(steps[i]) && steps[i].kc == prereq
        ==> decision.Accept? && !steps[OpenDetourAt(steps, prereq)].status.Proposed?
  {
    var n := OpenDetourAt(steps, prereq);
    if n == |steps| || (decision.Accept? && !steps[n].status.Proposed?) then DetourNotOpen
    else Steps(steps[n := Answered(steps[n], decision, now)])
  }

  /** Bare new steps in objective order. */
  function BuildInitialSteps(order: seq<KcId>): (steps: seq<Step>)
    ensures |steps| == |order|
  {
    seq(|order|, i requires 0 <= i < |order| => BareStep(order[i], i, New))
  }
}
