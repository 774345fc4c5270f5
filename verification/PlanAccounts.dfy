/** Where every step of a revised plan comes from, and what is said of each one that was closed. */
module PlanAccounts {
  import opened Distinctness
  import opened Ids
  import opened PlanFixpoint
  import opened PlanInvariants
  import opened PlanRevision
  import opened PlanSteps
  import opened Sorting
  import opened Wrappers

  // ---- What a revised step may be ---------------------------------------------------------

  /** Closed before, and the same but for its place. */
  predicate StaysClosed(x: Step, y: Step) {
    IsClosed(x) && y == x.(order := y.order)
  }

  /** Why an open step may be closed, and with which outcome. */
  predicate Closes(ev: Evidence, x: Step, outcome: Option<DetourOutcome>) {
    match x.stepType
    case New => x.kc in ev.mastered && outcome == x.outcome
    case Review => x.kc !in ev.due && outcome == x.outcome
    case Detour =>
      || (x.kc in ev.mastered && outcome == Some(Mastered))
      || (x.kc !in ev.mastered && x.kc in ev.disproved && outcome == Some(Disproved)
          && !x.status.Proposed? && x.reason != Some(External) && x.openedAt.Some?)
  }

  /** Open before and closed now, for a reason, with the outcome that reason has; nothing else but its place changed. */
  predicate ClosedNow(ev: Evidence, x: Step, y: Step) {
    !IsClosed(x) && Closes(ev, x, y.outcome) && y == x.(status := Done, outcome := y.outcome, order := y.order)
  }

  /** Open before and still: only place, hints, and being the active step may have changed. */
  predicate StaysOpen(x: Step, y: Step) {
    && !IsClosed(x) && !IsClosed(y) && (x.status.Proposed? <==> y.status.Proposed?)
    && y == x.(order := y.order, hints := y.hints, status := y.status)
  }

  /** Opened for this trigger: offered where the learner explores, otherwise taken at once. */
  predicate OpenedFor(ev: Evidence, t: Trigger, y: Step) {
    && y.stepType.Detour? && y.kc == t.prereq && y.detourFor == Some(t.blocked) && y.reason == Some(t.reason)
    && y.source == t.source && y.offeredAt == Some(ev.now) && y.outcome.None? && !IsClosed(y)
    && if ev.guidance.Exploration? then y.status.Proposed? && y.openedAt.None?
       else !y.status.Proposed? && y.openedAt == Some(ev.now)
  }

  /** A review of a due component, about nothing else. */
  predicate ReviewFor(ev: Evidence, y: Step) {
    && y.stepType.Review? && y.kc in ev.due && !IsClosed(y) && !y.status.Proposed?
    && y.detourFor.None? && y.reason.None? && y.openedAt.None? && y.offeredAt.None? && y.outcome.None? && y.source.None?
  }

  ghost predicate Accounted(ev: Evidence, steps: seq<Step>, triggers: seq<Trigger>, y: Step) {
    || (exists x :: x in steps && StaysClosed(x, y))
    || (exists x :: x in steps && ClosedNow(ev, x, y))
    || (exists x :: x in steps && StaysOpen(x, y))
    || (exists t :: t in triggers && OpenedFor(ev, t, y))
    || ReviewFor(ev, y)
  }

  // ---- Pass by pass -----------------------------------------------------------------------

  lemma PrunedAccounted(ev: Evidence, steps: seq<Step>, y: Step)
    requires y in Pruned(ev, steps)
    ensures exists x :: x in steps && (StaysClosed(x, y) || ClosedNow(ev, x, y) || StaysOpen(x, y))
  {
    var a := CloseAll(ev, steps);
    DropStaleMembers(NewStatus(a), a);
    var i :| 0 <= i < |a| && a[i] == y;
    assert steps[i] in steps && y == CloseByEvidence(ev, steps[i]);
  }

  lemma {:induction false} InsertedFrom(ev: Evidence, status: map<KcId, Status>, steps: seq<Step>, triggers: seq<Trigger>, y: Step)
    requires y in InsertAll(ev, status, steps, triggers)
    ensures y in steps || exists t :: t in triggers && y == DetourStep(ev, t)
    decreases |triggers|
  {
    if triggers != [] {
      var init, t := triggers[..|triggers| - 1], triggers[|triggers| - 1];
      assert t in triggers;
      if y in InsertAll(ev, status, steps, init) {
        InsertedFrom(ev, status, steps, init, y);
      }
    }
  }

  lemma WithDetoursAccounted(ev: Evidence, steps: seq<Step>, triggers: seq<Trigger>, y: Step)
    requires y in WithDetours(ev, steps, triggers)
    ensures || (exists x :: x in steps && (StaysClosed(x, y) || ClosedNow(ev, x, y) || StaysOpen(x, y)))
            || (exists t :: t in triggers && OpenedFor(ev, t, y))
  {
    InsertedFrom(ev, NewStatus(CloseAll(ev, steps)), Pruned(ev, steps), triggers, y);
    if y in Pruned(ev, steps) {
      PrunedAccounted(ev, steps, y);
    }
  }

  /** A review that is open before the reviews are looked at was open before the revision. */
  lemma UndueAccounted(ev: Evidence, steps: seq<Step>, triggers: seq<Trigger>, c: Step)
    requires c in WithDetours(ev, steps, triggers) && IsOpenReview(c) && c.kc !in ev.due
    ensures exists x :: x in steps && ClosedNow(ev, x, c.(status := Done))
  {
    InsertedNothing(ev, steps, triggers, c);
    assert ClosedNow(ev, c, c.(status := Done));
  }

  /** Only the final passes move the active mark, so such a review is the very step it was. */
  lemma InsertedNothing(ev: Evidence, steps: seq<Step>, triggers: seq<Trigger>, c: Step)
    requires c in WithDetours(ev, steps, triggers) && IsOpenReview(c)
    ensures c in steps
  {
    InsertedFrom(ev, NewStatus(CloseAll(ev, steps)), Pruned(ev, steps), triggers, c);
    var a := CloseAll(ev, steps);
    DropStaleMembers(NewStatus(a), a);
    var i :| 0 <= i < |a| && a[i] == c;
    assert steps[i] in steps && c == CloseByEvidence(ev, steps[i]);
  }

  lemma GatheredAccounted(ev: Evidence, steps: seq<Step>, triggers: seq<Trigger>, y: Step)
    requires y in Gathered(ev, steps, triggers)
    ensures Accounted(ev, steps, triggers, y)
  {
    var c := WithDetours(ev, steps, triggers);
    var due := Elements(ev.due);
    var kept := CloseUndueAll(due, c);
    MissingReviewsMembers(Covered(kept), ev.due);
    if y in kept {
      var i :| 0 <= i < |kept| && kept[i] == y;
      assert c[i] in c && y == CloseUndue(due, c[i]);
      if IsOpenReview(c[i]) && c[i].kc !in due {
        UndueAccounted(ev, steps, triggers, c[i]);
      } else {
        WithDetoursAccounted(ev, steps, triggers, y);
      }
    } else {
      assert ReviewFor(ev, y);
    }
  }

  /** Sorting and the final passes move a step, refresh it, and make it active or not; a closed one they only move. */
  lemma FinishedFrom(ev: Evidence, steps: seq<Step>, triggers: seq<Trigger>, y: Step) returns (g: Step)
    requires y in Revised(ev, steps, triggers)
    ensures g in Gathered(ev, steps, triggers) && Shape(g) == Shape(y) && (IsClosed(g) ==> y == g.(order := y.order))
  {
    var t := Sorted(ev, Gathered(ev, steps, triggers));
    FinishedShapes(ev, t);
    var i :| 0 <= i < |t| && Finished(ev, t)[i] == y;
    g := t[i];
    assert g in multiset(t);
  }

  lemma MovedStaysAccounted(ev: Evidence, steps: seq<Step>, triggers: seq<Trigger>, g: Step, y: Step)
    requires Accounted(ev, steps, triggers, g) && Shape(g) == Shape(y) && (IsClosed(g) ==> y == g.(order := y.order))
    ensures Accounted(ev, steps, triggers, y)
  {
    ShapeDecides(g, y);
    if x :| x in steps && StaysClosed(x, g) {
      assert StaysClosed(x, y);
    } else if x :| x in steps && ClosedNow(ev, x, g) {
      assert ClosedNow(ev, x, y);
    } else if x :| x in steps && StaysOpen(x, g) {
      assert StaysOpen(x, y);
    } else if t :| t in triggers && OpenedFor(ev, t, g) {
      assert OpenedFor(ev, t, y);
    } else {
      assert ReviewFor(ev, y);
    }
  }

  /**
    Every step of a revised plan is accounted for: it was closed before and is unchanged; or it
    was open and is closed now, for one of the reasons there are and with that reason's outcome;
    or it was open and still is; or it was opened for a trigger, or as a review of a due component.
   */
  lemma EveryStepIsAccountedFor(ev: Evidence, steps: seq<Step>, triggers: seq<Trigger>)
    ensures forall y :: y in Revised(ev, steps, triggers) ==> Accounted(ev, steps, triggers, y)
  {
    forall y | y in Revised(ev, steps, triggers)
      ensures Accounted(ev, steps, triggers, y)
    {
      var g := FinishedFrom(ev, steps, triggers, y);
      GatheredAccounted(ev, steps, triggers, g);
      MovedStaysAccounted(ev, steps, triggers, g, y);
    }
  }

  // ---- What has a reason to be closed is --------------------------------------------------

  lemma {:induction false} InsertedKeepsAll(ev: Evidence, status: map<KcId, Status>, steps: seq<Step>, triggers: seq<Trigger>, y: Step)
    requires y in steps
    ensures y in InsertAll(ev, status, steps, triggers)
    decreases |triggers|
  {
    if triggers != [] {
      InsertedKeepsAll(ev, status, steps, triggers[..|triggers| - 1], y);
    }
  }

  /** What the revision has closed before it sorts is in the revised plan. */
  lemma ClosedIsThere(ev: Evidence, steps: seq<Step>, triggers: seq<Trigger>, g: Step) returns (y: Step)
    requires g in Gathered(ev, steps, triggers) && IsClosed(g)
    ensures y in Revised(ev, steps, triggers) && y == g.(order := y.order)
  {
    var t := Sorted(ev, Gathered(ev, steps, triggers));
    FinishedShapes(ev, t);
    assert g in multiset(t);
    var i :| 0 <= i < |t| && t[i] == g;
    y := Finished(ev, t)[i];
  }

  lemma NewOrDetourClosed(ev: Evidence, steps: seq<Step>, triggers: seq<Trigger>, x: Step, outcome: Option<DetourOutcome>)
    requires x in steps && !IsClosed(x) && !x.stepType.Review? && Closes(ev, x, outcome)
    ensures x.(status := Done, outcome := outcome) in Gathered(ev, steps, triggers)
  {
    var a, done := CloseAll(ev, steps), x.(status := Done, outcome := outcome);
    var i :| 0 <= i < |steps| && steps[i] == x;
    assert a[i] == done && !IsStale(NewStatus(a), done);
    DropStaleMembers(NewStatus(a), a);
    InsertedKeepsAll(ev, NewStatus(a), Pruned(ev, steps), triggers, done);
    KeptUnderReviews(ev, WithDetours(ev, steps, triggers), done);
  }

  lemma KeptUnderReviews(ev: Evidence, c: seq<Step>, s: Step)
    requires s in c
    ensures CloseUndue(Elements(ev.due), s) in WithReviews(ev, c)
  {
    var kept := CloseUndueAll(Elements(ev.due), c);
    var j :| 0 <= j < |c| && c[j] == s;
    assert kept[j] in kept;
  }

  lemma ReviewClosed(ev: Evidence, steps: seq<Step>, triggers: seq<Trigger>, x: Step)
    requires x in steps && IsOpenReview(x) && x.kc !in ev.due
    ensures x.(status := Done) in Gathered(ev, steps, triggers)
  {
    var a := CloseAll(ev, steps);
    var i :| 0 <= i < |steps| && steps[i] == x;
    assert a[i] == x && !IsStale(NewStatus(a), x);
    DropStaleMembers(NewStatus(a), a);
    InsertedKeepsAll(ev, NewStatus(a), Pruned(ev, steps), triggers, x);
    KeptUnderReviews(ev, WithDetours(ev, steps, triggers), x);
  }

  /** Whatever the evidence gives a reason to close is in the revised plan, closed, with that reason's outcome. */
  lemma WhatCanCloseIsClosed(ev: Evidence, steps: seq<Step>, triggers: seq<Trigger>, x: Step, outcome: Option<DetourOutcome>)
    requires x in steps && !IsClosed(x) && Closes(ev, x, outcome)
    ensures exists y :: y in Revised(ev, steps, triggers) && ClosedNow(ev, x, y) && y.outcome == outcome
  {
    var done := x.(status := Done, outcome := outcome);
    if x.stepType.Review? {
      ReviewClosed(ev, steps, triggers, x);
    } else {
      NewOrDetourClosed(ev, steps, triggers, x, outcome);
    }
    var y := ClosedIsThere(ev, steps, triggers, done);
    assert ClosedNow(ev, x, y);
  }
}
