/** What every revision and every decision keeps true of a plan. */
module PlanInvariants {
  import opened Distinctness
  import opened Ids
  import opened PlanRevision
  import opened PlanSteps
  import opened Sorting
  import opened Wrappers

  // ---- The invariant --------------------------------------------------------------------

  /**
    A detour has an outcome exactly when it is closed, a taken one has a start and an offer has
    none; new and review steps are only ever pending, active or done.
   */
  predicate StepOk(s: Step) {
    match s.stepType
    case New => (s.status.Pending? || s.status.Active? || s.status.Done?) && s.outcome.None?
    case Review => (s.status.Pending? || s.status.Active? || s.status.Done?) && s.outcome.None?
    case Detour =>
      && s.detourFor.Some? && s.reason.Some?
      && (IsClosed(s) <==> s.outcome.Some?)
      && (s.status.Skipped? <==> s.outcome == Some(Declined))
      && (s.status.Proposed? ==> s.openedAt.None?)
      && (s.status.Pending? || s.status.Active? ==> s.openedAt.Some?)
  }

  /** Two steps a plan never holds together: one component new twice, or in two open detours or open reviews. */
  predicate Clash(a: Step, b: Step) {
    && a.kc == b.kc
    && ( || (a.stepType.New? && b.stepType.New?)
         || (IsOpenDetour(a) && IsOpenDetour(b))
         || (IsOpenReview(a) && IsOpenReview(b)))
  }

  predicate SameOrder(a: Step, b: Step) {
    a.stepType.New? && b.stepType.New? && a.order == b.order
  }

  /** The open new step a tethered detour is in front of. */
  ghost predicate HasTarget(steps: seq<Step>, x: Step) {
    exists y :: y in steps && IsOpenNew(y) && x.detourFor == Some(y.kc)
  }

  ghost predicate TargetsLive(steps: seq<Step>) {
    forall x :: x in steps && IsTethered(x) ==> HasTarget(steps, x)
  }

  /** The part of the invariant that does not depend on the order of the steps. */
  ghost predicate Core(steps: seq<Step>) {
    && (forall s :: s in steps ==> StepOk(s))
    && Apart(steps, Clash)
  }

  ghost predicate AtMostOneActive(steps: seq<Step>) {
    forall i, j :: 0 <= i < |steps| && 0 <= j < |steps| && steps[i].status.Active? && steps[j].status.Active? ==> i == j
  }

  ghost predicate PlanOk(steps: seq<Step>) {
    && Core(steps)
    && TargetsLive(steps)
    && (forall i :: 0 <= i < |steps| ==> steps[i].order == i)
    && AtMostOneActive(steps)
  }

  /** The only active step is the first one the learner could work on, and there is one if any step is open. */
  ghost predicate ActiveIsFirst(steps: seq<Step>) {
    && (forall i :: 0 <= i < |steps| ==> (steps[i].status.Active? <==> i == FirstTeachable(steps)))
    && ((exists i :: 0 <= i < |steps| && !IsClosed(steps[i])) ==> FirstTeachable(steps) < |steps|)
  }

  /** The components under open review are exactly the due ones. */
  ghost predicate ReviewsAreDue(ev: Evidence, steps: seq<Step>) {
    forall kc :: kc in ev.due <==> exists s :: s in steps && IsOpenReview(s) && s.kc == kc
  }

  /**
    A trigger that could be offered is for an open new step this revision does not finish.
    External triggers, and ordinary ones taken without asking, need no such promise.
   */
  ghost predicate WellAimed(ev: Evidence, steps: seq<Step>, t: Trigger) {
    || t.reason.External?
    || ev.guidance.Guided?
    || (t.blocked !in ev.mastered && exists y :: y in steps && IsOpenNew(y) && y.kc == t.blocked)
  }

  // ---- Evidence and pruning -------------------------------------------------------------

  lemma ClashSymmetric()
    ensures Symmetric(Clash) && Symmetric(SameOrder)
  {
  }

  lemma CloseAllKeeps(ev: Evidence, steps: seq<Step>)
    requires Core(steps)
    ensures Core(CloseAll(ev, steps))
    ensures Apart(steps, SameOrder) ==> Apart(CloseAll(ev, steps), SameOrder)
  {
    var a := CloseAll(ev, steps);
    forall i, j | 0 <= i < j < |a|
      ensures !Clash(a[i], a[j])
      ensures Apart(steps, SameOrder) ==> !SameOrder(a[i], a[j])
    {
      assert !Clash(steps[i], steps[j]);
      assert Apart(steps, SameOrder) ==> !SameOrder(steps[i], steps[j]);
    }
    forall s | s in a
      ensures StepOk(s)
    {
      var i :| 0 <= i < |a| && a[i] == s;
      assert StepOk(steps[i]);
    }
  }

  lemma {:induction false} DropStaleMembers(status: map<KcId, Status>, steps: seq<Step>)
    ensures forall s :: s in DropStale(status, steps) <==> s in steps && !IsStale(status, s)
    decreases |steps|
  {
    if steps != [] {
      DropStaleMembers(status, steps[..|steps| - 1]);
      assert steps == steps[..|steps| - 1] + [steps[|steps| - 1]];
    }
  }

  lemma {:induction false} DropStaleKeepsApart(status: map<KcId, Status>, steps: seq<Step>, clash: (Step, Step) -> bool)
    requires Apart(steps, clash)
    ensures Apart(DropStale(status, steps), clash)
    decreases |steps|
  {
    if steps != [] {
      var init, last := steps[..|steps| - 1], steps[|steps| - 1];
      DropStaleKeepsApart(status, init, clash);
      DropStaleMembers(status, init);
      var kept := DropStale(status, init);
      forall i | 0 <= i < |kept|
        ensures !clash(kept[i], last)
      {
        assert kept[i] in init;
        var j :| 0 <= j < |init| && init[j] == kept[i];
        assert steps[j] == init[j];
      }
    }
  }

  /** The status table holds what the new steps say, and nothing else. */
  lemma {:induction false} NewStatusFound(steps: seq<Step>, kc: KcId)
    requires kc in NewStatus(steps)
    ensures exists s :: s in steps && s.stepType.New? && s.kc == kc && s.status == NewStatus(steps)[kc]
    decreases |steps|
  {
    var init, last := steps[..|steps| - 1], steps[|steps| - 1];
    if last.stepType.New? && last.kc == kc {
      assert last in steps;
    } else {
      NewStatusFound(init, kc);
      var s :| s in init && s.stepType.New? && s.kc == kc && s.status == NewStatus(init)[kc];
      assert s in steps;
    }
  }

  lemma {:induction false} NewStatusHolds(steps: seq<Step>, s: Step)
    requires Apart(steps, Clash) && s in steps && s.stepType.New?
    ensures s.kc in NewStatus(steps) && NewStatus(steps)[s.kc] == s.status
    decreases |steps|
  {
    var init, last := steps[..|steps| - 1], steps[|steps| - 1];
    if s == last {
    } else {
      var i :| 0 <= i < |steps| && steps[i] == s;
      assert init[i] == s;
      assert !Clash(steps[i], steps[|steps| - 1]);
      NewStatusHolds(init, s);
    }
  }

  lemma PrunedKeeps(ev: Evidence, steps: seq<Step>)
    requires Core(steps)
    ensures Core(Pruned(ev, steps)) && TargetsLive(Pruned(ev, steps))
    ensures Apart(steps, SameOrder) ==> Apart(Pruned(ev, steps), SameOrder)
  {
    var a := CloseAll(ev, steps);
    var status := NewStatus(a);
    var b := DropStale(status, a);
    CloseAllKeeps(ev, steps);
    DropStaleMembers(status, a);
    DropStaleKeepsApart(status, a, Clash);
    if Apart(steps, SameOrder) {
      DropStaleKeepsApart(status, a, SameOrder);
    }
    forall x | x in b && IsTethered(x)
      ensures HasTarget(b, x)
    {
      var kc := x.detourFor.value;
      NewStatusFound(a, kc);
      var y :| y in a && y.stepType.New? && y.kc == kc && y.status == status[kc];
      assert IsOpenNew(y) && y in b;
    }
  }

  // ---- Inserting detours ----------------------------------------------------------------

  /** What is known of the table the triggers are checked against. */
  ghost predicate StatusAgrees(status: map<KcId, Status>, steps: seq<Step>) {
    forall kc :: kc in status && !status[kc].Done? && !status[kc].Skipped?
      ==> exists y :: y in steps && IsOpenNew(y) && y.kc == kc
  }

  /** If `t` ends up as a tethered detour, the step it is for is open and new. */
  ghost predicate Aimed(ev: Evidence, steps: seq<Step>, t: Trigger) {
    t.reason.External? || ev.guidance.Guided? || exists y :: y in steps && IsOpenNew(y) && y.kc == t.blocked
  }

  lemma {:induction false} InsertAllKeeps(ev: Evidence, status: map<KcId, Status>, steps: seq<Step>, triggers: seq<Trigger>)
    requires Core(steps)
    ensures Core(InsertAll(ev, status, steps, triggers))
    ensures Apart(steps, SameOrder) ==> Apart(InsertAll(ev, status, steps, triggers), SameOrder)
    ensures steps <= InsertAll(ev, status, steps, triggers)
    ensures TargetsLive(steps) && StatusAgrees(status, steps) && (forall t :: t in triggers ==> Aimed(ev, steps, t))
      ==> TargetsLive(InsertAll(ev, status, steps, triggers))
    decreases |triggers|
  {
    if triggers != [] {
      var init, t := triggers[..|triggers| - 1], triggers[|triggers| - 1];
      assert triggers == init + [t];
      InsertAllKeeps(ev, status, steps, init);
      var before := InsertAll(ev, status, steps, init);
      if !Refuses(ev, status, before, t) {
        InsertOneKeeps(ev, status, before, t);
        if TargetsLive(before) && StatusAgrees(status, steps) && Aimed(ev, steps, t) {
          InsertOneLive(ev, status, steps, before, t);
        }
      }
    }
  }

  lemma InsertOneKeeps(ev: Evidence, status: map<KcId, Status>, before: seq<Step>, t: Trigger)
    requires Core(before) && !Refuses(ev, status, before, t)
    ensures Core(before + [DetourStep(ev, t)])
    ensures Apart(before, SameOrder) ==> Apart(before + [DetourStep(ev, t)], SameOrder)
  {
    forall i | 0 <= i < |before|
      ensures !Clash(before[i], DetourStep(ev, t))
    {
    }
  }

  lemma InsertOneLive(ev: Evidence, status: map<KcId, Status>, steps: seq<Step>, before: seq<Step>, t: Trigger)
    requires TargetsLive(before) && StatusAgrees(status, steps) && steps <= before
    requires !Refuses(ev, status, before, t) && Aimed(ev, steps, t)
    ensures TargetsLive(before + [DetourStep(ev, t)])
  {
    var after := before + [DetourStep(ev, t)];
    forall x | x in after && IsTethered(x)
      ensures HasTarget(after, x)
    {
      if x in before {
        assert HasTarget(before, x);
        var y :| y in before && IsOpenNew(y) && x.detourFor == Some(y.kc);
        assert y in after;
      } else {
        var y :| y in steps && IsOpenNew(y) && y.kc == t.blocked;
        assert y in before;
        assert y in after;
      }
    }
  }

  lemma WithDetoursKeeps(ev: Evidence, steps: seq<Step>, triggers: seq<Trigger>)
    requires Core(steps)
    ensures Core(WithDetours(ev, steps, triggers))
    ensures (forall t :: t in triggers ==> WellAimed(ev, steps, t)) ==> TargetsLive(WithDetours(ev, steps, triggers))
    ensures Apart(steps, SameOrder) ==> Apart(WithDetours(ev, steps, triggers), SameOrder)
  {
    var a := CloseAll(ev, steps);
    var status := NewStatus(a);
    PrunedKeeps(ev, steps);
    CloseAllKeeps(ev, steps);
    DropStaleMembers(status, a);
    InsertAllKeeps(ev, status, Pruned(ev, steps), triggers);
    forall kc | kc in status && !status[kc].Done? && !status[kc].Skipped?
      ensures exists y :: y in Pruned(ev, steps) && IsOpenNew(y) && y.kc == kc
    {
      NewStatusFound(a, kc);
      var y :| y in a && y.stepType.New? && y.kc == kc && y.status == status[kc];
      assert IsOpenNew(y) && y in Pruned(ev, steps);
    }
    assert StatusAgrees(status, Pruned(ev, steps));
    forall t | t in triggers && WellAimed(ev, steps, t)
      ensures Aimed(ev, Pruned(ev, steps), t)
    {
      AimSurvivesPruning(ev, steps, t);
    }
  }

  lemma AimSurvivesPruning(ev: Evidence, steps: seq<Step>, t: Trigger)
    requires WellAimed(ev, steps, t)
    ensures Aimed(ev, Pruned(ev, steps), t)
  {
    if !t.reason.External? && !ev.guidance.Guided? {
      var a := CloseAll(ev, steps);
      DropStaleMembers(NewStatus(a), a);
      var y :| y in steps && IsOpenNew(y) && y.kc == t.blocked;
      var i :| 0 <= i < |steps| && steps[i] == y;
      assert a[i] == y && !IsStale(NewStatus(a), y);
      assert y in Pruned(ev, steps);
    }
  }

  // ---- Reviews --------------------------------------------------------------------------

  lemma {:induction false} MissingReviewsMembers(covered: set<KcId>, due: seq<KcId>)
    ensures forall s :: s in MissingReviews(covered, due) <==>
      s == BareStep(s.kc, 0, Review) && s.kc in due && s.kc !in covered
    decreases |due|
  {
    if due != [] {
      var rest := if due[0] in covered then MissingReviews(covered, due[1..]) else MissingReviews(covered + {due[0]}, due[1..]);
      MissingReviewsMembers(if due[0] in covered then covered else covered + {due[0]}, due[1..]);
      assert forall kc :: kc in due <==> kc == due[0] || kc in due[1..];
    }
  }

  lemma {:induction false} MissingReviewsApart(covered: set<KcId>, due: seq<KcId>)
    ensures Apart(MissingReviews(covered, due), Clash)
    decreases |due|
  {
    if due != [] {
      if due[0] in covered {
        MissingReviewsApart(covered, due[1..]);
      } else {
        MissingReviewsApart(covered + {due[0]}, due[1..]);
        MissingReviewsMembers(covered + {due[0]}, due[1..]);
        var rest := MissingReviews(covered + {due[0]}, due[1..]);
        assert forall i :: 0 <= i < |rest| ==> rest[i] in rest;
      }
    }
  }

  lemma CoveredMembers(steps: seq<Step>)
    ensures forall kc :: kc in Covered(steps) <==> exists s :: s in steps && IsOpenReview(s) && s.kc == kc
  {
    forall s | s in steps && IsOpenReview(s)
      ensures s.kc in Covered(steps)
    {
      var i :| 0 <= i < |steps| && steps[i] == s;
    }
  }

  lemma CloseUndueKeeps(due: set<KcId>, steps: seq<Step>)
    requires Core(steps)
    ensures Core(CloseUndueAll(due, steps))
    ensures TargetsLive(steps) ==> TargetsLive(CloseUndueAll(due, steps))
    ensures Apart(steps, SameOrder) ==> Apart(CloseUndueAll(due, steps), SameOrder)
    ensures forall s :: s in CloseUndueAll(due, steps) && IsOpenReview(s) ==> s.kc in due
  {
    var c := CloseUndueAll(due, steps);
    forall i, j | 0 <= i < j < |c|
      ensures !Clash(c[i], c[j])
      ensures Apart(steps, SameOrder) ==> !SameOrder(c[i], c[j])
    {
      assert !Clash(steps[i], steps[j]);
      assert Apart(steps, SameOrder) ==> !SameOrder(steps[i], steps[j]);
    }
    forall s | s in c
      ensures StepOk(s)
      ensures IsOpenReview(s) ==> s.kc in due
      ensures IsTethered(s) && TargetsLive(steps) ==> HasTarget(c, s)
    {
      var i :| 0 <= i < |c| && c[i] == s;
      assert StepOk(steps[i]);
      if IsTethered(s) && TargetsLive(steps) {
        assert s == steps[i] && HasTarget(steps, s);
        var y :| y in steps && IsOpenNew(y) && s.detourFor == Some(y.kc);
        var j :| 0 <= j < |steps| && steps[j] == y;
        assert c[j] == y;
      }
    }
  }

  lemma WithReviewsKeeps(ev: Evidence, steps: seq<Step>)
    requires Core(steps)
    ensures Core(WithReviews(ev, steps))
    ensures TargetsLive(steps) ==> TargetsLive(WithReviews(ev, steps))
    ensures Apart(steps, SameOrder) ==> Apart(WithReviews(ev, steps), SameOrder)
    ensures ReviewsAreDue(ev, WithReviews(ev, steps))
  {
    var due := Elements(ev.due);
    var kept := CloseUndueAll(due, steps);
    var missing := MissingReviews(Covered(kept), ev.due);
    CloseUndueKeeps(due, steps);
    CoveredMembers(kept);
    MissingReviewsMembers(Covered(kept), ev.due);
    MissingReviewsApart(Covered(kept), ev.due);
    AppendReviewsKeeps(kept, missing, Covered(kept));
    EveryDueIsReviewed(ev, kept);
  }

  /** With the missing reviews added, the due components are those under open review. */
  lemma EveryDueIsReviewed(ev: Evidence, kept: seq<Step>)
    requires forall s :: s in kept && IsOpenReview(s) ==> s.kc in ev.due
    ensures ReviewsAreDue(ev, kept + MissingReviews(Covered(kept), ev.due))
  {
    var missing := MissingReviews(Covered(kept), ev.due);
    CoveredMembers(kept);
    MissingReviewsMembers(Covered(kept), ev.due);
    forall kc | kc in ev.due
      ensures exists s :: s in kept + missing && IsOpenReview(s) && s.kc == kc
    {
      if kc in Covered(kept) {
        var s :| s in kept && IsOpenReview(s) && s.kc == kc;
        assert s in kept + missing;
      } else {
        assert BareStep(kc, 0, Review) in missing;
        assert BareStep(kc, 0, Review) in kept + missing;
      }
    }
  }

  lemma AppendReviewsKeeps(kept: seq<Step>, missing: seq<Step>, covered: set<KcId>)
    requires Core(kept) && covered == Covered(kept)
    requires forall s :: s in missing ==> s == BareStep(s.kc, 0, Review) && s.kc !in covered
    requires Apart(missing, Clash)
    ensures Core(kept + missing)
    ensures TargetsLive(kept) ==> TargetsLive(kept + missing)
    ensures Apart(kept, SameOrder) ==> Apart(kept + missing, SameOrder)
  {
    CoveredMembers(kept);
    forall i, j | 0 <= i < |kept| && 0 <= j < |missing|
      ensures !Clash(kept[i], missing[j]) && !SameOrder(kept[i], missing[j])
    {
      assert kept[i] in kept && missing[j] in missing;
    }
    forall i, j | 0 <= i < j < |missing|
      ensures !SameOrder(missing[i], missing[j])
    {
      assert missing[i] in missing;
    }
    forall x | x in kept + missing && IsTethered(x) && TargetsLive(kept)
      ensures HasTarget(kept + missing, x)
    {
      assert x in kept && HasTarget(kept, x);
      var y :| y in kept && IsOpenNew(y) && x.detourFor == Some(y.kc);
      assert y in kept + missing;
    }
  }

  lemma GatheredKeeps(ev: Evidence, steps: seq<Step>, triggers: seq<Trigger>)
    requires Core(steps)
    ensures Core(Gathered(ev, steps, triggers))
    ensures (forall t :: t in triggers ==> WellAimed(ev, steps, t)) ==> TargetsLive(Gathered(ev, steps, triggers))
    ensures Apart(steps, SameOrder) ==> Apart(Gathered(ev, steps, triggers), SameOrder)
    ensures ReviewsAreDue(ev, Gathered(ev, steps, triggers))
  {
    WithDetoursKeeps(ev, steps, triggers);
    WithReviewsKeeps(ev, WithDetours(ev, steps, triggers));
  }

  // ---- Order, activation and hints ------------------------------------------------------

  lemma SameMembersKeep(ev: Evidence, s: seq<Step>, t: seq<Step>)
    requires multiset(s) == multiset(t)
    ensures forall x :: x in s <==> x in t
    ensures TargetsLive(s) ==> TargetsLive(t)
    ensures ReviewsAreDue(ev, s) ==> ReviewsAreDue(ev, t)
  {
    assert forall x :: x in s <==> x in multiset(s);
    assert forall x :: x in t <==> x in multiset(t);
    forall x | x in t && IsTethered(x) && TargetsLive(s)
      ensures HasTarget(t, x)
    {
      assert HasTarget(s, x);
    }
  }

  lemma SortedKeeps(ev: Evidence, steps: seq<Step>)
    requires Core(steps)
    ensures Core(Sorted(ev, steps))
    ensures TargetsLive(steps) ==> TargetsLive(Sorted(ev, steps))
    ensures ReviewsAreDue(ev, steps) ==> ReviewsAreDue(ev, Sorted(ev, steps))
    ensures Apart(steps, SameOrder) ==> Apart(Sorted(ev, steps), SameOrder)
  {
    var key := ByPlace(RanksOf(ev, steps));
    var t := StableSort(steps, key);
    ClashSymmetric();
    SortKeepsApart(steps, key, Clash);
    if Apart(steps, SameOrder) {
      SortKeepsApart(steps, key, SameOrder);
    }
    SameMembersKeep(ev, steps, t);
  }

  /** A step without what numbering, activation and refreshing write. */
  function Shape(s: Step): Step {
    s.(order := 0, hints := NO_HINTS, status := if s.status.Active? then Pending else s.status)
  }

  lemma ShapeDecides(a: Step, b: Step)
    requires Shape(a) == Shape(b)
    ensures a.kc == b.kc && a.stepType == b.stepType && a.detourFor == b.detourFor
    ensures StepOk(a) <==> StepOk(b)
    ensures IsClosed(a) <==> IsClosed(b)
    ensures IsTethered(a) <==> IsTethered(b)
    ensures IsTeachable(a) <==> IsTeachable(b)
    ensures IsOpenNew(a) <==> IsOpenNew(b)
    ensures IsOpenDetour(a) <==> IsOpenDetour(b)
    ensures IsOpenReview(a) <==> IsOpenReview(b)
    ensures IsClosed(a) ==> a.status == b.status
  {
  }

  /** The final passes leave the shape of every step alone and make its order its position. */
  lemma FinishedShapes(ev: Evidence, steps: seq<Step>)
    ensures |Finished(ev, steps)| == |steps|
    ensures forall i :: 0 <= i < |steps| ==> Shape(Finished(ev, steps)[i]) == Shape(steps[i])
    ensures forall i :: 0 <= i < |steps| ==> Finished(ev, steps)[i].order == i
    ensures forall i :: 0 <= i < |steps| && IsClosed(steps[i]) ==> Finished(ev, steps)[i] == steps[i].(order := i)
  {
  }

  lemma {:induction false} FirstTeachableByShape(s: seq<Step>, t: seq<Step>)
    requires |s| == |t| && forall i :: 0 <= i < |s| ==> Shape(s[i]) == Shape(t[i])
    ensures FirstTeachable(s) == FirstTeachable(t)
  {
    var m, n := FirstTeachable(s), FirstTeachable(t);
    if m < |s| {
      ShapeDecides(s[m], t[m]);
    }
    if n < |t| {
      ShapeDecides(s[n], t[n]);
    }
  }

  lemma FinishedActive(ev: Evidence, steps: seq<Step>)
    ensures forall i :: 0 <= i < |steps| ==>
      (Finished(ev, steps)[i].status.Active? <==> i == FirstTeachable(Finished(ev, steps)))
  {
    FinishedShapes(ev, steps);
    var d := DeactivateAll(Renumber(steps));
    assert forall i :: 0 <= i < |d| ==> Shape(d[i]) == Shape(steps[i]);
    FirstTeachableByShape(Finished(ev, steps), d);
  }

  lemma FinishedKeepsCore(ev: Evidence, steps: seq<Step>)
    requires Core(steps)
    ensures Core(Finished(ev, steps))
  {
    var r := Finished(ev, steps);
    FinishedShapes(ev, steps);
    forall i | 0 <= i < |steps| {
      ShapeDecides(r[i], steps[i]);
    }
    forall s | s in r
      ensures StepOk(s)
    {
      var i :| 0 <= i < |r| && r[i] == s;
      assert steps[i] in steps;
    }
    forall i, j | 0 <= i < j < |r|
      ensures !Clash(r[i], r[j])
    {
      assert !Clash(steps[i], steps[j]);
    }
  }

  lemma FinishedKeeps(ev: Evidence, steps: seq<Step>)
    requires Core(steps) && TargetsLive(steps) && ReviewsAreDue(ev, steps)
    ensures PlanOk(Finished(ev, steps)) && ReviewsAreDue(ev, Finished(ev, steps)) && ActiveIsFirst(Finished(ev, steps))
  {
    FinishedShapes(ev, steps);
    FinishedActive(ev, steps);
    FinishedKeepsCore(ev, steps);
    FinishedMembers(ev, steps);
    OpenMeansTeachable(Finished(ev, steps));
  }

  lemma FinishedMembers(ev: Evidence, steps: seq<Step>)
    requires (forall s :: s in steps ==> StepOk(s)) && TargetsLive(steps) && ReviewsAreDue(ev, steps)
    ensures (forall s :: s in Finished(ev, steps) ==> StepOk(s)) && TargetsLive(Finished(ev, steps))
    ensures ReviewsAreDue(ev, Finished(ev, steps))
  {
    var r := Finished(ev, steps);
    FinishedShapes(ev, steps);
    forall x | x in r
      ensures StepOk(x) && (IsTethered(x) ==> HasTarget(r, x))
      ensures IsOpenReview(x) ==> x.kc in ev.due
    {
      var i :| 0 <= i < |r| && r[i] == x;
      ShapeDecides(x, steps[i]);
      assert steps[i] in steps;
      if IsTethered(x) {
        assert HasTarget(steps, steps[i]);
        var y :| y in steps && IsOpenNew(y) && steps[i].detourFor == Some(y.kc);
        var j :| 0 <= j < |steps| && steps[j] == y;
        ShapeDecides(r[j], y);
        assert r[j] in r;
      }
    }
    forall kc | kc in ev.due
      ensures exists s :: s in r && IsOpenReview(s) && s.kc == kc
    {
      var s :| s in steps && IsOpenReview(s) && s.kc == kc;
      var i :| 0 <= i < |steps| && steps[i] == s;
      ShapeDecides(r[i], s);
      assert r[i] in r;
    }
  }

  /** An open step is teachable, or is an offer whose target is. */
  lemma OpenMeansTeachable(steps: seq<Step>)
    requires TargetsLive(steps) && forall s :: s in steps ==> StepOk(s)
    ensures (exists i :: 0 <= i < |steps| && !IsClosed(steps[i])) ==> FirstTeachable(steps) < |steps|
  {
    if i :| 0 <= i < |steps| && !IsClosed(steps[i]) {
      var x := steps[i];
      assert x in steps;
      if !IsTeachable(x) {
        assert IsTethered(x) && HasTarget(steps, x);
        var y :| y in steps && IsOpenNew(y) && x.detourFor == Some(y.kc);
        var j :| 0 <= j < |steps| && steps[j] == y;
        assert IsTeachable(steps[j]);
      }
    }
  }

  /**
    A revision turns any plan with a sound core, well-aimed triggers included, into one that
    satisfies the whole invariant, with exactly the due reviews open and the first teachable
    step active.
   */
  lemma RevisionEstablishes(ev: Evidence, steps: seq<Step>, triggers: seq<Trigger>)
    requires Core(steps) && forall t :: t in triggers ==> WellAimed(ev, steps, t)
    ensures PlanOk(Revised(ev, steps, triggers))
    ensures ReviewsAreDue(ev, Revised(ev, steps, triggers))
    ensures ActiveIsFirst(Revised(ev, steps, triggers))
  {
    var d := Gathered(ev, steps, triggers);
    GatheredKeeps(ev, steps, triggers);
    SortedKeeps(ev, d);
    FinishedKeeps(ev, Sorted(ev, d));
  }

  /** The core of the invariant survives any trigger, well aimed or not. */
  lemma RevisionKeepsCore(ev: Evidence, steps: seq<Step>, triggers: seq<Trigger>)
    requires Core(steps)
    ensures Core(Revised(ev, steps, triggers))
  {
    var d := Gathered(ev, steps, triggers);
    GatheredKeeps(ev, steps, triggers);
    SortedKeeps(ev, d);
    FinishedKeepsCore(ev, Sorted(ev, d));
  }

  // ---- Decisions and the plan's beginning -----------------------------------------------

  /** A decision changes one step, an open detour to `prereq`, and keeps the invariant. */
  lemma DecisionKeeps(steps: seq<Step>, prereq: KcId, decision: Decision, now: Time)
    requires PlanOk(steps) && DecideDetour(steps, prereq, decision, now).Steps?
    ensures PlanOk(DecideDetour(steps, prereq, decision, now).steps)
  {
    var n := OpenDetourAt(steps, prereq);
    var r := DecideDetour(steps, prereq, decision, now).steps;
    forall i, j | 0 <= i < j < |r|
      ensures !Clash(r[i], r[j])
    {
      assert !Clash(steps[i], steps[j]);
    }
    forall s | s in r
      ensures StepOk(s)
    {
      var i :| 0 <= i < |r| && r[i] == s;
      assert steps[i] in steps;
    }
    AnsweredKeepsTargets(steps, n, r);
  }

  /** Answering a detour takes no new step away, so what is still tethered keeps its target. */
  lemma AnsweredKeepsTargets(steps: seq<Step>, n: nat, after: seq<Step>)
    requires TargetsLive(steps) && |after| == |steps| && n < |steps| && IsOpenDetour(steps[n])
    requires forall i :: 0 <= i < |steps| && i != n ==> after[i] == steps[i]
    requires IsTethered(after[n]) ==> IsTethered(steps[n]) && after[n].detourFor == steps[n].detourFor
    ensures TargetsLive(after)
  {
    forall s | s in after && IsTethered(s)
      ensures HasTarget(after, s)
    {
      var i :| 0 <= i < |after| && after[i] == s;
      assert steps[i] in steps && HasTarget(steps, steps[i]);
      var y :| y in steps && IsOpenNew(y) && s.detourFor == Some(y.kc);
      var j :| 0 <= j < |steps| && steps[j] == y;
      assert after[j] == y;
    }
  }

  lemma InitialPlanOk(order: seq<KcId>)
    requires NoDuplicates(order)
    ensures PlanOk(BuildInitialSteps(order))
  {
  }

  /** Bare steps for components not yet planned can be added without harming the core. */
  lemma ExtendedKeepsCore(steps: seq<Step>, order: seq<KcId>)
    requires Core(steps) && NoDuplicates(order)
    requires forall s :: s in steps && s.stepType.New? ==> s.kc !in order
    ensures Core(steps + BuildInitialSteps(order))
  {
    var more := BuildInitialSteps(order);
    forall i, j | 0 <= i < |steps| && 0 <= j < |more|
      ensures !Clash(steps[i], more[j])
    {
      assert steps[i] in steps && order[j] in order;
    }
  }
}
