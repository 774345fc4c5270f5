/** What a learner sees after a revision or a decision: which detours are open, and what is taught in which order. */
module PlanOutcome {
  import opened Distinctness
  import opened Ids
  import opened PlanFixpoint
  import opened PlanInvariants
  import opened PlanRevision
  import opened PlanSteps
  import opened Sorting
  import opened Wrappers

  // ---- Which detours are open -----------------------------------------------------------

  ghost predicate HasOpenDetour(steps: seq<Step>, kc: KcId) {
    exists s :: s in steps && IsOpenDetour(s) && s.kc == kc
  }

  /** A component the plan is still teaching, evidence considered. */
  ghost predicate StillTaught(ev: Evidence, steps: seq<Step>, kc: KcId) {
    kc !in ev.mastered && exists y :: y in steps && IsOpenNew(y) && y.kc == kc
  }

  /**
    An open detour goes on while its component is not mastered: a tethered one as long as the
    step it is for is being taught, a taken one as long as it is not disproved.
   */
  ghost predicate GoesOn(ev: Evidence, steps: seq<Step>, x: Step) {
    && IsOpenDetour(x) && x.kc !in ev.mastered
    && if IsTethered(x) then x.detourFor.Some? && StillTaught(ev, steps, x.detourFor.value) else x.kc !in ev.disproved
  }

  /** A trigger counts unless its component is mastered or, if it is external, what it is for is no longer taught. */
  ghost predicate Counts(ev: Evidence, steps: seq<Step>, t: Trigger) {
    t.prereq !in ev.mastered && (t.reason.External? ==> StillTaught(ev, steps, t.blocked))
  }

  /** A component whose entry in the revision's status table is still open is still taught. */
  lemma OpenEntryIsTaught(ev: Evidence, steps: seq<Step>, kc: KcId)
    requires Core(steps) && kc in NewStatus(CloseAll(ev, steps))
    ensures var status := NewStatus(CloseAll(ev, steps));
            !status[kc].Skipped? && (!status[kc].Done? ==> StillTaught(ev, steps, kc))
  {
    var a := CloseAll(ev, steps);
    NewStatusFound(a, kc);
    var y :| y in a && y.stepType.New? && y.kc == kc && y.status == NewStatus(a)[kc];
    var i :| 0 <= i < |a| && a[i] == y;
    assert steps[i] in steps && StepOk(steps[i]);
  }

  lemma TaughtHasOpenEntry(ev: Evidence, steps: seq<Step>, kc: KcId)
    requires Core(steps) && StillTaught(ev, steps, kc)
    ensures var status := NewStatus(CloseAll(ev, steps)); kc in status && !status[kc].Done? && !status[kc].Skipped?
  {
    var a := CloseAll(ev, steps);
    CloseAllKeeps(ev, steps);
    var y :| y in steps && IsOpenNew(y) && y.kc == kc;
    var i :| 0 <= i < |steps| && steps[i] == y;
    assert a[i] == y && a[i] in a;
    NewStatusHolds(a, a[i]);
  }

  /** What the revision's status table says about a component. */
  lemma StatusMeans(ev: Evidence, steps: seq<Step>, kc: KcId)
    requires Core(steps)
    ensures var status := NewStatus(CloseAll(ev, steps));
            && (StillTaught(ev, steps, kc) <==> kc in status && !status[kc].Done? && !status[kc].Skipped?)
            && (kc in status ==> !status[kc].Skipped?)
  {
    if kc in NewStatus(CloseAll(ev, steps)) {
      OpenEntryIsTaught(ev, steps, kc);
    }
    if StillTaught(ev, steps, kc) {
      TaughtHasOpenEntry(ev, steps, kc);
    }
  }

  /** A detour goes on exactly when the evidence leaves it open and pruning leaves it in the plan. */
  lemma GoesOnExactlyWhenKept(ev: Evidence, steps: seq<Step>, x: Step)
    requires Core(steps) && x in steps && IsOpenDetour(x)
    ensures var after := CloseByEvidence(ev, x);
            GoesOn(ev, steps, x) <==> IsOpenDetour(after) && !IsStale(NewStatus(CloseAll(ev, steps)), after)
  {
    assert StepOk(x);
    StatusMeans(ev, steps, x.detourFor.value);
  }

  lemma GoingOnIsPruned(ev: Evidence, steps: seq<Step>, x: Step)
    requires Core(steps) && x in steps && GoesOn(ev, steps, x)
    ensures HasOpenDetour(Pruned(ev, steps), x.kc)
  {
    var a := CloseAll(ev, steps);
    DropStaleMembers(NewStatus(a), a);
    GoesOnExactlyWhenKept(ev, steps, x);
    var i :| 0 <= i < |steps| && steps[i] == x;
    assert a[i] in a;
    assert a[i] in Pruned(ev, steps);
  }

  lemma PrunedDetours(ev: Evidence, steps: seq<Step>, kc: KcId)
    requires Core(steps)
    ensures HasOpenDetour(Pruned(ev, steps), kc) <==> exists x :: x in steps && x.kc == kc && GoesOn(ev, steps, x)
  {
    if x :| x in steps && x.kc == kc && GoesOn(ev, steps, x) {
      GoingOnIsPruned(ev, steps, x);
    }
    if HasOpenDetour(Pruned(ev, steps), kc) {
      var a := CloseAll(ev, steps);
      DropStaleMembers(NewStatus(a), a);
      var s :| s in Pruned(ev, steps) && IsOpenDetour(s) && s.kc == kc;
      var i :| 0 <= i < |a| && a[i] == s;
      assert steps[i] in steps && IsOpenDetour(steps[i]);
      GoesOnExactlyWhenKept(ev, steps, steps[i]);
    }
  }

  lemma {:induction false} InsertedDetours(
    ev: Evidence, status: map<KcId, Status>, steps: seq<Step>, triggers: seq<Trigger>, kc: KcId)
    ensures HasOpenDetour(InsertAll(ev, status, steps, triggers), kc) <==>
      || HasOpenDetour(steps, kc)
      || exists t :: t in triggers && t.prereq == kc && kc !in ev.mastered
           && (t.reason.External? ==> t.blocked in status && !status[t.blocked].Done? && !status[t.blocked].Skipped?)
    decreases |triggers|
  {
    if triggers != [] {
      var init, t := triggers[..|triggers| - 1], triggers[|triggers| - 1];
      assert triggers == init + [t];
      InsertedDetours(ev, status, steps, init, kc);
      var before := InsertAll(ev, status, steps, init);
      if Refuses(ev, status, before, t) {
        if i :| 0 <= i < |before| && IsOpenDetour(before[i]) && before[i].kc == t.prereq {
          assert before[i] in before;
        }
      } else {
        var after := before + [DetourStep(ev, t)];
        assert DetourStep(ev, t) in after && IsOpenDetour(DetourStep(ev, t));
        assert forall s :: s in after <==> s in before || s == DetourStep(ev, t);
      }
    }
  }

  lemma WithDetoursDetours(ev: Evidence, steps: seq<Step>, triggers: seq<Trigger>, kc: KcId)
    requires Core(steps)
    ensures HasOpenDetour(WithDetours(ev, steps, triggers), kc) <==>
      || (exists x :: x in steps && x.kc == kc && GoesOn(ev, steps, x))
      || (exists t :: t in triggers && t.prereq == kc && Counts(ev, steps, t))
  {
    var status := NewStatus(CloseAll(ev, steps));
    PrunedDetours(ev, steps, kc);
    InsertedDetours(ev, status, Pruned(ev, steps), triggers, kc);
    forall t | t in triggers
      ensures StillTaught(ev, steps, t.blocked) <==>
        t.blocked in status && !status[t.blocked].Done? && !status[t.blocked].Skipped?
    {
      StatusMeans(ev, steps, t.blocked);
    }
  }

  /** Reviews are added and closed; every other step stays as it is. */
  lemma ReviewsKeepDetours(ev: Evidence, steps: seq<Step>, kc: KcId)
    ensures HasOpenDetour(WithReviews(ev, steps), kc) <==> HasOpenDetour(steps, kc)
  {
    var kept := CloseUndueAll(Elements(ev.due), steps);
    MissingReviewsMembers(Covered(kept), ev.due);
    if HasOpenDetour(WithReviews(ev, steps), kc) {
      var s :| s in WithReviews(ev, steps) && IsOpenDetour(s) && s.kc == kc;
      assert s in kept;
      var j :| 0 <= j < |kept| && kept[j] == s;
      assert steps[j] in steps;
    }
    if HasOpenDetour(steps, kc) {
      var s :| s in steps && IsOpenDetour(s) && s.kc == kc;
      var j :| 0 <= j < |steps| && steps[j] == s;
      assert kept[j] == s && s in kept;
    }
  }

  lemma SameMembersSameDetours(s: seq<Step>, t: seq<Step>, kc: KcId)
    requires multiset(s) == multiset(t)
    ensures HasOpenDetour(s, kc) <==> HasOpenDetour(t, kc)
  {
    assert forall x :: x in s <==> x in multiset(s);
    assert forall x :: x in t <==> x in multiset(t);
  }

  /** Numbering, activation and refreshing open and close nothing. */
  lemma FinishedKeepsDetours(ev: Evidence, steps: seq<Step>, kc: KcId)
    ensures HasOpenDetour(Finished(ev, steps), kc) <==> HasOpenDetour(steps, kc)
  {
    var r := Finished(ev, steps);
    FinishedShapes(ev, steps);
    if HasOpenDetour(r, kc) {
      var s :| s in r && IsOpenDetour(s) && s.kc == kc;
      var i :| 0 <= i < |r| && r[i] == s;
      ShapeDecides(s, steps[i]);
      assert steps[i] in steps;
    }
    if HasOpenDetour(steps, kc) {
      var s :| s in steps && IsOpenDetour(s) && s.kc == kc;
      var i :| 0 <= i < |steps| && steps[i] == s;
      ShapeDecides(r[i], s);
      assert r[i] in r;
    }
  }

  /**
    After a revision a detour to `kc` is open exactly when one was and goes on, or a trigger
    asked for one that counts.
   */
  lemma OpenDetoursExactlyWhen(ev: Evidence, steps: seq<Step>, triggers: seq<Trigger>, kc: KcId)
    requires Core(steps)
    ensures HasOpenDetour(Revised(ev, steps, triggers), kc) <==>
      || (exists x :: x in steps && x.kc == kc && GoesOn(ev, steps, x))
      || (exists t :: t in triggers && t.prereq == kc && Counts(ev, steps, t))
  {
    WithDetoursDetours(ev, steps, triggers, kc);
    var g := Gathered(ev, steps, triggers);
    ReviewsKeepDetours(ev, WithDetours(ev, steps, triggers), kc);
    SameMembersSameDetours(g, Sorted(ev, g), kc);
    FinishedKeepsDetours(ev, Sorted(ev, g), kc);
  }

  /** A plan of new steps only, once revised without triggers, has no detour. */
  lemma NoDetours(ev: Evidence, order: seq<KcId>, kc: KcId)
    requires NoDuplicates(order)
    ensures !HasOpenDetour(Revised(ev, BuildInitialSteps(order), []), kc)
  {
    InitialPlanOk(order);
    OpenDetoursExactlyWhen(ev, BuildInitialSteps(order), [], kc);
  }

  /** Pruning opens no detour. */
  lemma PrunedAddsNone(ev: Evidence, steps: seq<Step>, kc: KcId)
    requires Core(steps) && !HasOpenDetour(steps, kc)
    ensures forall i :: 0 <= i < |Pruned(ev, steps)| ==> !(IsOpenDetour(Pruned(ev, steps)[i]) && Pruned(ev, steps)[i].kc == kc)
  {
    PrunedDetours(ev, steps, kc);
    forall i | 0 <= i < |Pruned(ev, steps)|
      ensures !(IsOpenDetour(Pruned(ev, steps)[i]) && Pruned(ev, steps)[i].kc == kc)
    {
      assert Pruned(ev, steps)[i] in Pruned(ev, steps);
    }
  }

  /**
    An instance: in a plan for `a` alone, an offer to prepare for `b`, which has no step, is
    inserted by one revision and gone after the next.
   */
  lemma OfferIsDropped(ev: Evidence, a: KcId, b: KcId, prereq: KcId)
    requires a != b && prereq !in ev.mastered && ev.guidance.Exploration?
    ensures var steps, t := Revised(ev, BuildInitialSteps([a]), []), Trigger(prereq, b, Diagnosed, None);
            && HasOpenDetour(Revised(ev, steps, [t]), prereq)
            && Revised(ev, Revised(ev, steps, [t]), []) != Revised(ev, steps, [t])
  {
    var bare := BuildInitialSteps([a]);
    var steps, t := Revised(ev, bare, []), Trigger(prereq, b, Diagnosed, None);
    InitialPlanOk([a]);
    RevisionEstablishes(ev, bare, []);
    NoDetours(ev, [a], prereq);
    PrunedAddsNone(ev, steps, prereq);
    forall y | y in steps && IsOpenNew(y)
      ensures y.kc != b
    {
      OpenNewIsOld(ev, bare, [], y);
    }
    OfferSurvivesExactlyWhenAimed(ev, steps, t);
    assert t in [t] && Counts(ev, steps, t);
    OpenDetoursExactlyWhen(ev, steps, [t], prereq);
  }

  // ---- In which order the plan is taught ------------------------------------------------

  /** A detour the learner has taken, other than to another subject. */
  predicate IsTaken(s: Step) {
    IsOpenDetour(s) && !IsTethered(s)
  }

  /** Taken detours first, then the due reviews, then everything else that is open, then history. */
  ghost predicate Banded(p: seq<Step>) {
    forall i, j :: 0 <= i < j < |p| ==>
      && (IsTaken(p[j]) ==> IsTaken(p[i]))
      && (IsOpenReview(p[j]) ==> IsTaken(p[i]) || IsOpenReview(p[i]))
      && (!IsClosed(p[j]) ==> !IsClosed(p[i]))
  }

  /** Reviews stand as they fall due. */
  ghost predicate ReviewsInDueOrder(ev: Evidence, p: seq<Step>) {
    forall i, j, a, b :: 0 <= i < |p| && 0 <= j < |p| && 0 <= a < b < |ev.due|
      && IsOpenReview(p[i]) && IsOpenReview(p[j]) && p[i].kc == ev.due[a] && p[j].kc == ev.due[b]
      ==> i < j
  }

  /** Between a tethered detour and the step it is for there is nothing but detours for the same step. */
  ghost predicate OffersAtTheirSteps(p: seq<Step>) {
    forall i, j :: 0 <= i < |p| && 0 <= j < |p| && IsTethered(p[i]) && IsOpenNew(p[j]) && p[i].detourFor == Some(p[j].kc)
      ==> i < j && forall k :: i < k < j ==> IsTethered(p[k]) && p[k].detourFor == p[i].detourFor
  }

  /** The sort left the revised plan sorted by the keys the plan itself gives. */
  lemma RevisedSorted(ev: Evidence, steps: seq<Step>, triggers: seq<Trigger>)
    requires Core(steps) && Untangled(steps, triggers)
    requires forall t :: t in triggers ==> WellAimed(ev, steps, t)
    ensures var p := Revised(ev, steps, triggers); PlanOk(p) && SortedBy(p, ByPlace(RanksOf(ev, p)))
  {
    var d := Gathered(ev, steps, triggers);
    var t := Sorted(ev, d);
    RevisionEstablishes(ev, steps, triggers);
    GatheredKeeps(ev, steps, triggers);
    SortedKeeps(ev, d);
    SameMembersKeep(ev, d, t);
    StableSortSorts(d, ByPlace(RanksOf(ev, d)));
    SortedIsUntangled(ev, steps, triggers);
    FinishedSorted(ev, d, t);
  }

  lemma SortedIsBanded(r: Ranks, p: seq<Step>)
    requires PlanOk(p) && SortedBy(p, ByPlace(r))
    ensures Banded(p)
  {
    forall i, j | 0 <= i < j < |p|
      ensures Bucket(p[i]) <= Bucket(p[j])
    {
      assert p[i] in p && p[j] in p;
      assert Leq(ByPlace(r)(p[i]), ByPlace(r)(p[j]));
    }
    forall i | 0 <= i < |p|
      ensures StepOk(p[i])
    {
      assert p[i] in p;
    }
  }

  lemma {:induction false} RankIsPosition(due: seq<KcId>, a: nat)
    requires NoDuplicates(due) && a < |due|
    ensures due[a] in ReviewRank(due) && ReviewRank(due)[due[a]] == a
    decreases |due|
  {
    var init, n := due[..|due| - 1], |due| - 1;
    if a < n {
      assert due[a] != due[n];
      RankIsPosition(init, a);
    }
  }

  lemma SortedIsInDueOrder(ev: Evidence, p: seq<Step>)
    requires NoDuplicates(ev.due) && SortedBy(p, ByPlace(RanksOf(ev, p)))
    ensures ReviewsInDueOrder(ev, p)
  {
    var key := ByPlace(RanksOf(ev, p));
    forall i, j, a, b | 0 <= i < |p| && 0 <= j < |p| && 0 <= a < b < |ev.due|
      && IsOpenReview(p[i]) && IsOpenReview(p[j]) && p[i].kc == ev.due[a] && p[j].kc == ev.due[b]
      ensures i < j
    {
      RankIsPosition(ev.due, a);
      RankIsPosition(ev.due, b);
      SmallerStandsFirst(p, key, i, j);
    }
  }

  lemma SortedHasOffersAtTheirSteps(ev: Evidence, p: seq<Step>, i: nat, j: nat)
    requires PlanOk(p) && SortedBy(p, ByPlace(RanksOf(ev, p))) && i < |p| && j < |p|
    requires IsTethered(p[i]) && IsOpenNew(p[j]) && p[i].detourFor == Some(p[j].kc)
    ensures i < j && forall k :: i < k < j ==> IsTethered(p[k]) && p[k].detourFor == p[i].detourFor
  {
    var r := RanksOf(ev, p);
    var key := ByPlace(r);
    KeyByAnchor(r, p, p, i);
    KeyByAnchor(r, p, p, j);
    var a := Anchor(p, i);
    OnePlace(p, a, j);
    SmallerStandsFirst(p, key, i, j);
    forall k | i < k < j
      ensures IsTethered(p[k]) && p[k].detourFor == p[i].detourFor
    {
      KeyByAnchor(r, p, p, k);
      assert Leq(key(p[i]), key(p[k])) && Leq(key(p[k]), key(p[j]));
    }
  }

  /**
    A revised plan is taught in this order: detours the learner has taken, due reviews as they
    fall due, the rest with every offer directly in front of the step it is for, and last what
    is closed.
   */
  lemma RevisedIsInTeachingOrder(ev: Evidence, steps: seq<Step>, triggers: seq<Trigger>)
    requires Core(steps) && Untangled(steps, triggers)
    requires forall t :: t in triggers ==> WellAimed(ev, steps, t)
    ensures Banded(Revised(ev, steps, triggers)) && OffersAtTheirSteps(Revised(ev, steps, triggers))
    ensures NoDuplicates(ev.due) ==> ReviewsInDueOrder(ev, Revised(ev, steps, triggers))
  {
    var p := Revised(ev, steps, triggers);
    RevisedSorted(ev, steps, triggers);
    SortedIsBanded(RanksOf(ev, p), p);
    if NoDuplicates(ev.due) {
      SortedIsInDueOrder(ev, p);
    }
    forall i, j | 0 <= i < |p| && 0 <= j < |p| && IsTethered(p[i]) && IsOpenNew(p[j]) && p[i].detourFor == Some(p[j].kc)
      ensures i < j && forall k :: i < k < j ==> IsTethered(p[k]) && p[k].detourFor == p[i].detourFor
    {
      SortedHasOffersAtTheirSteps(ev, p, i, j);
    }
  }

  // ---- What an open step asks for -------------------------------------------------------

  /**
    The step carries the current teaching parameters: only a review is ever a check, never of
    both kinds, and only a detour within the subject asks in the detour format.
   */
  predicate AsksRightly(ev: Evidence, s: Step) {
    && s.hints.checkFirst == Some(s.kc in ev.provisional)
    && (s.hints.retentionCheck == Some(true) <==> IsOpenReview(s) && s.kc in ev.retentionChecks)
    && (s.hints.transferCheck == Some(true) <==>
          IsOpenReview(s) && s.kc in ev.transferChecks && s.hints.retentionCheck != Some(true))
    && s.hints.preferredItemType
       == (if IsTaken(s) || (IsTethered(s) && !IsExternal(s)) then Some(DETOUR_ITEM_TYPE) else ev.scaffolding.preferredItemType)
    && s.hints.targetDifficulty == ev.scaffolding.targetDifficulty && s.hints.hintDensity == ev.scaffolding.hintDensity
  }

  /** Whatever plan is revised, every open step asks rightly afterwards. */
  lemma OpenStepsAreCurrent(ev: Evidence, steps: seq<Step>, triggers: seq<Trigger>)
    ensures forall s :: s in Revised(ev, steps, triggers) && !IsClosed(s) ==> AsksRightly(ev, s)
  {
    var p := Revised(ev, steps, triggers);
    var r := ActivateFirst(DeactivateAll(Renumber(Sorted(ev, Gathered(ev, steps, triggers)))));
    forall s | s in p && !IsClosed(s)
      ensures AsksRightly(ev, s)
    {
      var i :| 0 <= i < |p| && p[i] == s;
      assert s == Refresh(ev, r[i]);
    }
  }

  // ---- What a decision leaves -----------------------------------------------------------

  /** The one step a decision answers: accepting starts the offer now, skipping closes it as declined. */
  ghost predicate AnsweredAt(steps: seq<Step>, after: seq<Step>, n: int, prereq: KcId, decision: Decision, now: Time) {
    && |after| == |steps| && 0 <= n < |steps|
    && (forall i :: 0 <= i < |steps| && i != n ==> after[i] == steps[i])
    && IsOpenDetour(steps[n]) && steps[n].kc == prereq
    && (decision.Accept? ==> steps[n].status.Proposed? && after[n].status.Pending? && after[n].openedAt == Some(now))
    && (decision.Skip? ==> after[n].status.Skipped? && after[n].outcome == Some(Declined))
    && after[n].(status := steps[n].status, openedAt := steps[n].openedAt, outcome := steps[n].outcome) == steps[n]
  }

  /**
    A decision answers one open detour and touches no other step. It is given once: afterwards
    there is nothing left to accept, and something left to skip only if the answer was to accept.
   */
  lemma DecisionIsGivenOnce(steps: seq<Step>, prereq: KcId, decision: Decision, now: Time, later: Time)
    requires PlanOk(steps) && DecideDetour(steps, prereq, decision, now).Steps?
    ensures var after := DecideDetour(steps, prereq, decision, now).steps;
            && (exists n :: AnsweredAt(steps, after, n, prereq, decision, now))
            && (HasOpenDetour(after, prereq) <==> decision.Accept?)
            && DecideDetour(after, prereq, Accept, later).DetourNotOpen?
            && (DecideDetour(after, prereq, Skip, later).Steps? <==> decision.Accept?)
  {
    var n := OpenDetourAt(steps, prereq);
    var after := DecideDetour(steps, prereq, decision, now).steps;
    assert AnsweredAt(steps, after, n, prereq, decision, now);
    forall i | 0 <= i < |steps| && i != n
      ensures !(IsOpenDetour(after[i]) && after[i].kc == prereq)
    {
      assert i < n ==> !Clash(steps[i], steps[n]);
      assert n < i ==> !Clash(steps[n], steps[i]);
    }
    if decision.Accept? {
      assert after[n] in after && IsOpenDetour(after[n]) && after[n].kc == prereq;
      assert OpenDetourAt(after, prereq) == n;
    } else {
      assert OpenDetourAt(after, prereq) == |after|;
    }
  }
}
