/** Closed steps are history: a revision moves them and changes nothing else about them. */
module PlanHistory {
  import opened Distinctness
  import opened Ids
  import opened PlanHorizon
  import opened PlanInvariants
  import opened PlanRevision
  import opened PlanRuns
  import opened PlanSteps
  import opened Sorting

  /** The step is `v`, wherever in the plan it stands. */
  function Is(v: Step): Step -> bool {
    (s: Step) => s.(order := 0) == v
  }

  /** How many steps of the plan are `v`, wherever they stand. */
  ghost function Times(steps: seq<Step>, v: Step): nat {
    |Those(steps, Is(v))|
  }

  lemma {:induction false} TimesPointwise(s: seq<Step>, t: seq<Step>, v: Step)
    requires |s| == |t| && forall i :: 0 <= i < |s| && Is(v)(s[i]) ==> Is(v)(t[i])
    ensures Times(s, v) <= Times(t, v)
    decreases |s|
  {
    if s != [] {
      TimesPointwise(s[1..], t[1..], v);
    }
  }

  lemma TimesJoin(s: seq<Step>, t: seq<Step>, v: Step)
    ensures Times(s + t, v) == Times(s, v) + Times(t, v)
  {
    ThoseSplit(s, t, Is(v));
  }

  lemma {:induction false} TimesOfKept(status: map<KcId, Status>, steps: seq<Step>, v: Step)
    requires IsClosed(v)
    ensures Times(DropStale(status, steps), v) == Times(steps, v)
    decreases |steps|
  {
    if steps != [] {
      var init, last := steps[..|steps| - 1], steps[|steps| - 1];
      TimesOfKept(status, init, v);
      assert steps == init + [last];
      TimesJoin(init, [last], v);
      TimesJoin(DropStale(status, init), [last], v);
      ThoseCons(last, [], Is(v));
      assert [last] + [] == [last];
    }
  }

  lemma {:induction false} TimesOfInserted(ev: Evidence, status: map<KcId, Status>, steps: seq<Step>, triggers: seq<Trigger>, v: Step)
    ensures Times(InsertAll(ev, status, steps, triggers), v) >= Times(steps, v)
    decreases |triggers|
  {
    if triggers != [] {
      var init, t := triggers[..|triggers| - 1], triggers[|triggers| - 1];
      TimesOfInserted(ev, status, steps, init, v);
      TimesJoin(InsertAll(ev, status, steps, init), [DetourStep(ev, t)], v);
    }
  }

  lemma TimesOfGathered(ev: Evidence, steps: seq<Step>, triggers: seq<Trigger>, v: Step)
    requires IsClosed(v)
    ensures Times(Gathered(ev, steps, triggers), v) >= Times(steps, v)
  {
    var a := CloseAll(ev, steps);
    TimesPointwise(steps, a, v);
    TimesOfKept(NewStatus(a), a, v);
    TimesOfInserted(ev, NewStatus(a), Pruned(ev, steps), triggers, v);
    var c := WithDetours(ev, steps, triggers);
    var kept := CloseUndueAll(Elements(ev.due), c);
    TimesPointwise(c, kept, v);
    TimesJoin(kept, MissingReviews(Covered(kept), ev.due), v);
  }

  lemma TimesOfSorted(ev: Evidence, steps: seq<Step>, v: Step)
    ensures Times(Sorted(ev, steps), v) == Times(steps, v)
  {
    var key := ByPlace(RanksOf(ev, steps));
    ThoseOfSort(steps, key, Is(v));
    var those := Those(steps, Is(v));
    assert |those| == |multiset(those)| == |multiset(StableSort(those, key))|;
  }

  /**
    Every closed step survives every revision with its status, outcome, hints and stamps: for
    any closed step, a plan holds it at least as often afterwards as before.
   */
  lemma ClosedStepsStay(ev: Evidence, steps: seq<Step>, triggers: seq<Trigger>, v: Step)
    requires IsClosed(v)
    ensures Times(Revised(ev, steps, triggers), v) >= Times(steps, v)
  {
    var d := Gathered(ev, steps, triggers);
    TimesOfGathered(ev, steps, triggers, v);
    TimesOfSorted(ev, d, v);
    FinishedShapes(ev, Sorted(ev, d));
    TimesPointwise(Sorted(ev, d), Finished(ev, Sorted(ev, d)), v);
  }

  // ---- Over whole runs --------------------------------------------------------------------

  /** The extension and its second pass keep closed steps as well. */
  lemma ApplyRevisionKeepsHistory(plan: Plan, input: Input, triggers: seq<Trigger>, cap: nat, v: Step)
    requires IsClosed(v)
    ensures Times(ApplyRevision(plan, input, triggers, cap).steps, v) >= Times(plan.steps, v)
  {
    var revised := Revised(input.ev, plan.steps, triggers);
    var ext := HorizonExtension(plan.objective, revised, cap);
    ClosedStepsStay(input.ev, plan.steps, triggers, v);
    if ext != [] {
      TimesJoin(revised, BuildInitialSteps(ext), v);
      ClosedStepsStay(SecondPass(input), revised + BuildInitialSteps(ext), [], v);
    }
  }

  /** A decision closes or starts a detour that was open; what was closed stays. */
  lemma DecisionKeepsHistory(steps: seq<Step>, prereq: KcId, decision: Decision, now: Time, v: Step)
    requires IsClosed(v) && DecideDetour(steps, prereq, decision, now).Steps?
    ensures Times(DecideDetour(steps, prereq, decision, now).steps, v) >= Times(steps, v)
  {
    TimesPointwise(steps, DecideDetour(steps, prereq, decision, now).steps, v);
  }

  lemma ActKeepsHistory(plan: Plan, a: Action, cap: nat, v: Step)
    requires IsClosed(v)
    ensures Times(Act(plan, a, cap).steps, v) >= Times(plan.steps, v)
  {
    match a {
      case Revise(input, detour) =>
        ApplyRevisionKeepsHistory(plan, input, (if detour.Some? then [detour.value] else []) + input.externals, cap, v);
      case Decide(input, prereq, decision, at) =>
        if DecideDetour(plan.steps, prereq, decision, at).Steps? {
          DecisionKeepsHistory(plan.steps, prereq, decision, at, v);
          var decided := plan.(steps := DecideDetour(plan.steps, prereq, decision, at).steps);
          ApplyRevisionKeepsHistory(decided, input, input.externals, cap, v);
        }
    }
  }

  /**
    Through any sequence of revisions and decisions closed steps change only in order: whatever
    was closed is still there at the end, with its status, outcome, hints and stamps, as often
    as it was.
   */
  lemma {:induction false} HistoryIsKept(plan: Plan, actions: seq<Action>, cap: nat, v: Step)
    requires IsClosed(v)
    ensures Times(Run(plan, actions, cap).steps, v) >= Times(plan.steps, v)
    decreases |actions|
  {
    if actions != [] {
      ActKeepsHistory(plan, actions[0], cap, v);
      HistoryIsKept(Act(plan, actions[0], cap), actions[1..], cap, v);
    }
  }
}
