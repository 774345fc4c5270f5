/**
  Whole lives of a plan: generation, then any sequence of revisions and detour decisions, each
  followed by the horizon extension (`_apply_revision` in `app/services/lesson_plan.py`).
 */
module PlanRuns {
  import opened Distinctness
  import opened Ids
  import opened PlanFixpoint
  import opened PlanHorizon
  import opened PlanInvariants
  import opened PlanOutcome
  import opened PlanRevision
  import opened PlanSteps
  import Sorting
  import opened Wrappers

  datatype Plan = Plan(objective: seq<KcId>, steps: seq<Step>)

  /** What drives one revision. `arrivals` are deferred components found already mastered. */
  datatype Input = Input(ev: Evidence, arrivals: set<KcId>, externals: seq<Trigger>)

  datatype Action =
    | Revise(input: Input, detour: Option<Trigger>)
    | Decide(input: Input, prereq: KcId, decision: Decision, at: Time)

  /** The evidence of the second pass, which also covers what arrived and disproves nothing. */
  function SecondPass(input: Input): Evidence {
    input.ev.(mastered := input.ev.mastered + input.arrivals, disproved := {})
  }

  /** Once revised, the plan takes in what the horizon has room for and is revised again if that is anything. */
  function Extend(plan: Plan, input: Input, revised: seq<Step>, cap: nat): Plan {
    var extension := HorizonExtension(plan.objective, revised, cap);
    plan.(steps := if extension == [] then revised
                   else Revised(SecondPass(input), revised + BuildInitialSteps(extension), []))
  }

  function ApplyRevision(plan: Plan, input: Input, triggers: seq<Trigger>, cap: nat): Plan {
    Extend(plan, input, Revised(input.ev, plan.steps, triggers), cap)
  }

  function Act(plan: Plan, a: Action, cap: nat): Plan {
    match a
    case Revise(input, detour) =>
      ApplyRevision(plan, input, (if detour.Some? then [detour.value] else []) + input.externals, cap)
    case Decide(input, prereq, decision, at) =>
      match DecideDetour(plan.steps, prereq, decision, at)
      case DetourNotOpen => plan
      case Steps(decided) => ApplyRevision(plan.(steps := decided), input, input.externals, cap)
  }

  function Generate(objective: seq<KcId>, input: Input, cap: nat): Plan {
    var window := if cap < |objective| then objective[..cap] else objective;
    Plan(objective, Revised(input.ev, BuildInitialSteps(window), input.externals))
  }

  /** The planner asks for a detour only from an open new step the evidence does not finish. */
  ghost predicate Legal(plan: Plan, a: Action) {
    && (forall t :: t in a.input.externals ==> t.reason.External?)
    && (a.Revise? && a.detour.Some? ==>
          && !a.detour.value.reason.External?
          && a.detour.value.blocked !in a.input.ev.mastered
          && exists y :: y in plan.steps && IsOpenNew(y) && y.kc == a.detour.value.blocked)
  }

  function Run(plan: Plan, actions: seq<Action>, cap: nat): Plan
    decreases |actions|
  {
    if actions == [] then plan else Run(Act(plan, actions[0], cap), actions[1..], cap)
  }

  ghost predicate LegalRun(plan: Plan, actions: seq<Action>, cap: nat)
    decreases |actions|
  {
    actions == [] || (Legal(plan, actions[0]) && LegalRun(Act(plan, actions[0], cap), actions[1..], cap))
  }

  // ---- The window over the objective ----------------------------------------------------

  ghost predicate PlannedUpTo(plan: Plan, k: int) {
    0 <= k <= |plan.objective| && Planned(plan.steps) == Elements(plan.objective[..k])
  }

  /** The plan invariant, with the planned components a beginning of the objective and the cap respected. */
  ghost predicate Windowed(plan: Plan, cap: nat) {
    && PlanOk(plan.steps)
    && NoDuplicates(plan.objective)
    && OpenCount(plan.steps) <= cap
    && exists k :: PlannedUpTo(plan, k)
  }

  /** How much of the objective is still to be planned. */
  function Deferred(plan: Plan): nat {
    |Unplanned(plan.objective, Planned(plan.steps))|
  }

  ghost predicate HasNew(steps: seq<Step>, kc: KcId) {
    exists s :: s in steps && s.stepType.New? && s.kc == kc
  }

  lemma PlannedByMembers(steps: seq<Step>)
    ensures forall kc :: kc in Planned(steps) <==> HasNew(steps, kc)
  {
    forall s | s in steps && s.stepType.New?
      ensures s.kc in Planned(steps)
    {
      var i :| 0 <= i < |steps| && steps[i] == s;
    }
  }

  lemma PlannedPointwise(s: seq<Step>, t: seq<Step>)
    requires |s| == |t|
    requires forall i :: 0 <= i < |s| ==> s[i].kc == t[i].kc && (s[i].stepType.New? <==> t[i].stepType.New?)
    ensures Planned(s) == Planned(t)
  {
    forall i | 0 <= i < |s| && s[i].stepType.New?
      ensures s[i].kc in Planned(t)
    {
      assert t[i].stepType.New? && t[i].kc == s[i].kc;
    }
    forall i | 0 <= i < |t| && t[i].stepType.New?
      ensures t[i].kc in Planned(s)
    {
      assert s[i].stepType.New? && s[i].kc == t[i].kc;
    }
  }

  lemma PlannedJoin(s: seq<Step>, t: seq<Step>)
    ensures Planned(s + t) == Planned(s) + Planned(t)
  {
    PlannedByMembers(s);
    PlannedByMembers(t);
    PlannedByMembers(s + t);
    forall kc | HasNew(s, kc) || HasNew(t, kc)
      ensures HasNew(s + t, kc)
    {
      var x :| (x in s || x in t) && x.stepType.New? && x.kc == kc;
      assert x in s + t;
    }
  }

  lemma {:induction false} PlannedOfInserted(ev: Evidence, status: map<KcId, Status>, steps: seq<Step>, triggers: seq<Trigger>)
    ensures Planned(InsertAll(ev, status, steps, triggers)) == Planned(steps)
    decreases |triggers|
  {
    if triggers != [] {
      var init, t := triggers[..|triggers| - 1], triggers[|triggers| - 1];
      PlannedOfInserted(ev, status, steps, init);
      PlannedJoin(InsertAll(ev, status, steps, init), [DetourStep(ev, t)]);
      assert Planned([DetourStep(ev, t)]) == {};
    }
  }

  lemma PlannedOfGathered(ev: Evidence, steps: seq<Step>, triggers: seq<Trigger>)
    ensures Planned(Gathered(ev, steps, triggers)) == Planned(steps)
  {
    var a := CloseAll(ev, steps);
    PlannedPointwise(steps, a);
    var b := Pruned(ev, steps);
    DropStaleMembers(NewStatus(a), a);
    PlannedByMembers(a);
    PlannedByMembers(b);
    forall kc
      ensures HasNew(a, kc) <==> HasNew(b, kc)
    {
    }
    PlannedOfInserted(ev, NewStatus(a), b, triggers);
    var c := WithDetours(ev, steps, triggers);
    var kept := CloseUndueAll(Elements(ev.due), c);
    PlannedPointwise(c, kept);
    var missing := MissingReviews(Covered(kept), ev.due);
    MissingReviewsMembers(Covered(kept), ev.due);
    PlannedJoin(kept, missing);
    PlannedByMembers(missing);
    assert Planned(missing) == {};
  }

  /** A revision neither plans nor forgets a component. */
  lemma RevisionKeepsPlanned(ev: Evidence, steps: seq<Step>, triggers: seq<Trigger>)
    ensures Planned(Revised(ev, steps, triggers)) == Planned(steps)
  {
    var d := Gathered(ev, steps, triggers);
    var t := Sorted(ev, d);
    PlannedOfGathered(ev, steps, triggers);
    SameMembersKeep(ev, d, t);
    PlannedByMembers(d);
    PlannedByMembers(t);
    assert forall kc :: HasNew(d, kc) <==> HasNew(t, kc);
    FinishedShapes(ev, t);
    forall i | 0 <= i < |t| {
      ShapeDecides(Finished(ev, t)[i], t[i]);
    }
    PlannedPointwise(t, Finished(ev, t));
  }

  // ---- Counting what is open ------------------------------------------------------------

  lemma {:induction false} OpenCountIsLength(steps: seq<Step>)
    requires forall s :: s in steps ==> StepOk(s)
    ensures OpenCount(steps) == |OpenNews(steps)|
    decreases |steps|
  {
    if steps != [] {
      var init, last := steps[..|steps| - 1], steps[|steps| - 1];
      OpenCountIsLength(init);
      assert steps == init + [last];
      ThoseSplit(init, [last], IsOpenNew);
      assert last in steps && StepOk(last);
      ThoseCons(last, [], IsOpenNew);
      assert [last] + [] == [last];
    }
  }

  lemma {:induction false} ThoseNotLonger(steps: seq<Step>, test: Step -> bool)
    ensures |Those(steps, test)| <= |steps|
    ensures (exists s :: s in steps && !test(s)) ==> |Those(steps, test)| < |steps|
    decreases |steps|
  {
    if steps != [] {
      ThoseNotLonger(steps[1..], test);
      HeadAndTail(steps);
    }
  }

  lemma SortKeepsLength(steps: seq<Step>)
    ensures |Sorting.StableSort(steps, ByOrder())| == |steps|
  {
    assert |steps| == |multiset(steps)| == |multiset(Sorting.StableSort(steps, ByOrder()))|;
  }

  /** A revision opens no new step, and closes one whenever the evidence masters one. */
  lemma RevisionOpenCount(ev: Evidence, steps: seq<Step>, triggers: seq<Trigger>)
    requires Core(steps)
    ensures OpenCount(Revised(ev, steps, triggers)) <= OpenCount(steps)
    ensures (exists y :: y in steps && IsOpenNew(y) && y.kc in ev.mastered)
      ==> OpenCount(Revised(ev, steps, triggers)) < OpenCount(steps)
  {
    var r := Revised(ev, steps, triggers);
    var left := Those(OpenNews(steps), Unmastered(ev));
    SortKeepsLength(left);
    RevisionKeepsCore(ev, steps, triggers);
    OpenCountIsLength(steps);
    OpenCountIsLength(r);
    RevisedNewSteps(ev, steps, triggers);
    assert |Kcs(OpenNews(r))| == |OpenNews(r)|;
    ThoseNotLonger(OpenNews(steps), Unmastered(ev));
    ThoseMembers(steps, IsOpenNew);
  }

  // ---- Extending the window -------------------------------------------------------------

  lemma {:induction false} UnplannedIsRest(objective: seq<KcId>, k: nat)
    requires k <= |objective| && NoDuplicates(objective)
    ensures Unplanned(objective, Elements(objective[..k])) == objective[k..]
  {
    UnplannedFrom(objective, k, 0);
    assert objective[0..] == objective;
  }

  lemma {:induction false} UnplannedFrom(objective: seq<KcId>, k: nat, i: nat)
    requires i <= |objective| && k <= |objective| && NoDuplicates(objective)
    ensures Unplanned(objective[i..], Elements(objective[..k])) == if i <= k then objective[k..] else objective[i..]
    decreases |objective| - i
  {
    if i < |objective| {
      UnplannedFrom(objective, k, i + 1);
      assert objective[i..][1..] == objective[i + 1..];
      InFront(objective, k, i);
      DropOne(objective, i);
    }
  }

  lemma InFront(objective: seq<KcId>, k: nat, i: nat)
    requires i < |objective| && k <= |objective| && NoDuplicates(objective)
    ensures objective[i] in Elements(objective[..k]) <==> i < k
  {
    if i < k {
      assert objective[i] == objective[..k][i];
    } else {
      forall j | 0 <= j < k
        ensures objective[..k][j] != objective[i]
      {
      }
    }
  }

  lemma BareStepsPlan(order: seq<KcId>)
    ensures Planned(BuildInitialSteps(order)) == Elements(order)
    ensures OpenCount(BuildInitialSteps(order)) == |order|
  {
    var bare := BuildInitialSteps(order);
    forall kc | kc in order
      ensures kc in Planned(bare)
    {
      var i :| 0 <= i < |order| && order[i] == kc;
      assert bare[i].kc == kc;
    }
    OpenCountIsLength(bare);
    ThoseOfAll(bare, IsOpenNew);
  }

  lemma OpenCountJoin(s: seq<Step>, t: seq<Step>)
    requires (forall x :: x in s ==> StepOk(x)) && forall x :: x in t ==> StepOk(x)
    ensures OpenCount(s + t) == OpenCount(s) + OpenCount(t)
  {
    OpenCountIsLength(s);
    OpenCountIsLength(t);
    OpenCountIsLength(s + t);
    ThoseSplit(s, t, IsOpenNew);
  }

  /** Pulling the next components into a revised plan keeps the window, and pulls in as many as there is room for. */
  lemma ExtendKeepsWindow(plan: Plan, input: Input, revised: seq<Step>, cap: nat, k: nat) returns (m: nat)
    requires NoDuplicates(plan.objective) && k <= |plan.objective|
    requires PlanOk(revised) && Planned(revised) == Elements(plan.objective[..k]) && OpenCount(revised) <= cap
    ensures PlannedUpTo(Extend(plan, input, revised, cap), m)
    ensures PlanOk(Extend(plan, input, revised, cap).steps)
    ensures OpenCount(Extend(plan, input, revised, cap).steps) <= cap
    ensures var room := cap - OpenCount(revised);
            m == if room < |plan.objective| - k then k + room else |plan.objective|
  {
    ExtensionIsNext(plan.objective, revised, cap, k);
    var ext := HorizonExtension(plan.objective, revised, cap);
    m := k + |ext|;
    if ext != [] {
      ExtendedWindow(plan, input, revised, cap, k, ext);
    }
  }

  /** A revision with its extension keeps the window. */
  lemma ExtensionKeepsWindow(plan: Plan, input: Input, triggers: seq<Trigger>, cap: nat, k: nat) returns (m: nat)
    requires NoDuplicates(plan.objective) && PlannedUpTo(plan, k)
    requires PlanOk(plan.steps) && OpenCount(plan.steps) <= cap
    requires forall t :: t in triggers ==> WellAimed(input.ev, plan.steps, t)
    ensures PlannedUpTo(ApplyRevision(plan, input, triggers, cap), m)
    ensures PlanOk(ApplyRevision(plan, input, triggers, cap).steps)
    ensures OpenCount(ApplyRevision(plan, input, triggers, cap).steps) <= cap
    ensures var room := cap - OpenCount(Revised(input.ev, plan.steps, triggers));
            m == if room < |plan.objective| - k then k + room else |plan.objective|
  {
    RevisionEstablishes(input.ev, plan.steps, triggers);
    RevisionKeepsPlanned(input.ev, plan.steps, triggers);
    RevisionOpenCount(input.ev, plan.steps, triggers);
    m := ExtendKeepsWindow(plan, input, Revised(input.ev, plan.steps, triggers), cap, k);
  }

  lemma DeferredIsRest(plan: Plan, k: nat)
    requires NoDuplicates(plan.objective) && PlannedUpTo(plan, k)
    ensures Deferred(plan) == |plan.objective| - k
  {
    UnplannedIsRest(plan.objective, k);
  }

  /** The extension is the next stretch of the objective, as long as there is room for. */
  lemma ExtensionIsNext(objective: seq<KcId>, steps: seq<Step>, cap: nat, k: nat)
    requires k <= |objective| && NoDuplicates(objective) && Planned(steps) == Elements(objective[..k])
    requires OpenCount(steps) <= cap
    ensures var ext := HorizonExtension(objective, steps, cap);
            && k + |ext| <= |objective|
            && ext == objective[k..k + |ext|]
            && |ext| == if cap - OpenCount(steps) < |objective| - k then cap - OpenCount(steps) else |objective| - k
  {
    UnplannedIsRest(objective, k);
    var ext, rest, room := HorizonExtension(objective, steps, cap), objective[k..], cap - OpenCount(steps);
    assert ext == if room < |rest| then rest[..room] else rest;
    TakeFromRest(objective, k, room, ext);
  }

  lemma TakeFromRest(objective: seq<KcId>, k: nat, room: nat, ext: seq<KcId>)
    requires k <= |objective| && ext == if room < |objective[k..]| then objective[k..][..room] else objective[k..]
    ensures k + |ext| <= |objective| && ext == objective[k..k + |ext|]
    ensures |ext| == if room < |objective| - k then room else |objective| - k
  {
  }

  lemma ArrivalsAreNew(objective: seq<KcId>, steps: seq<Step>, k: nat, ext: seq<KcId>)
    requires NoDuplicates(objective) && k + |ext| <= |objective| && ext == objective[k..k + |ext|]
    requires Planned(steps) == Elements(objective[..k])
    ensures NoDuplicates(ext) && Elements(objective[..k]) + Elements(ext) == Elements(objective[..k + |ext|])
    ensures forall s :: s in steps && s.stepType.New? ==> s.kc !in ext
  {
    PlannedByMembers(steps);
    forall s | s in steps && s.stepType.New?
      ensures s.kc !in ext
    {
      assert HasNew(steps, s.kc);
      assert s.kc in objective[..k];
    }
    assert objective[..k + |ext|] == objective[..k] + ext;
    JoinDistinct(objective[..k], ext);
  }

  lemma ExtendedWindow(plan: Plan, input: Input, revised: seq<Step>, cap: nat, k: nat, ext: seq<KcId>)
    requires NoDuplicates(plan.objective) && k + |ext| <= |plan.objective| && ext == plan.objective[k..k + |ext|]
    requires PlanOk(revised) && Planned(revised) == Elements(plan.objective[..k])
    requires OpenCount(revised) + |ext| <= cap
    ensures PlanOk(Revised(SecondPass(input), revised + BuildInitialSteps(ext), []))
    ensures OpenCount(Revised(SecondPass(input), revised + BuildInitialSteps(ext), [])) <= cap
    ensures PlannedUpTo(plan.(steps := Revised(SecondPass(input), revised + BuildInitialSteps(ext), [])), k + |ext|)
  {
    ArrivalsAreNew(plan.objective, revised, k, ext);
    ExtendedPlan(SecondPass(input), revised, ext);
  }

  lemma ExtendedPlan(ev: Evidence, revised: seq<Step>, ext: seq<KcId>)
    requires PlanOk(revised) && NoDuplicates(ext)
    requires forall s :: s in revised && s.stepType.New? ==> s.kc !in ext
    ensures var r := Revised(ev, revised + BuildInitialSteps(ext), []);
            && PlanOk(r)
            && Planned(r) == Planned(revised) + Elements(ext)
            && OpenCount(r) <= OpenCount(revised) + |ext|
  {
    var bare := BuildInitialSteps(ext);
    ExtendedKeepsCore(revised, ext);
    RevisionEstablishes(ev, revised + bare, []);
    RevisionKeepsPlanned(ev, revised + bare, []);
    RevisionOpenCount(ev, revised + bare, []);
    BareStepsPlan(ext);
    PlannedJoin(revised, bare);
    OpenCountJoin(revised, bare);
  }

  /**
    What the evidence masters is not taught on, whether it was in the plan or arrived with the
    extension.
   */
  lemma MasteredIsNotTaught(plan: Plan, input: Input, triggers: seq<Trigger>, cap: nat, y: Step)
    requires y in ApplyRevision(plan, input, triggers, cap).steps && IsOpenNew(y)
    ensures y.kc !in input.ev.mastered
    ensures HorizonExtension(plan.objective, Revised(input.ev, plan.steps, triggers), cap) != [] ==> y.kc !in input.arrivals
  {
    var revised := Revised(input.ev, plan.steps, triggers);
    var ext := HorizonExtension(plan.objective, revised, cap);
    if ext == [] {
      OpenNewIsOld(input.ev, plan.steps, triggers, y);
    } else {
      OpenNewIsOld(SecondPass(input), revised + BuildInitialSteps(ext), [], y);
    }
  }

  /**
    A detour the revision leaves to be taken is still open once the plan is extended, unless its
    component turns out mastered: what was disproved before is not disproved again.
   */
  lemma DetoursSurviveExtension(plan: Plan, input: Input, triggers: seq<Trigger>, cap: nat, k: nat, x: Step)
    requires Core(plan.steps) && NoDuplicates(plan.objective) && PlannedUpTo(plan, k)
    requires OpenCount(Revised(input.ev, plan.steps, triggers)) <= cap
    requires x in Revised(input.ev, plan.steps, triggers) && IsOpenDetour(x) && !IsTethered(x) && x.kc !in input.arrivals
    ensures HasOpenDetour(ApplyRevision(plan, input, triggers, cap).steps, x.kc)
  {
    var revised := Revised(input.ev, plan.steps, triggers);
    var ext := HorizonExtension(plan.objective, revised, cap);
    if ext != [] {
      OpenDetourIsNotMastered(input.ev, plan.steps, triggers, x);
      RevisionKeepsCore(input.ev, plan.steps, triggers);
      RevisionKeepsPlanned(input.ev, plan.steps, triggers);
      ExtensionKeepsCore(plan.objective, revised, cap, k);
      DetourGoesOn(SecondPass(input), revised, BuildInitialSteps(ext), x);
    }
  }

  lemma OpenDetourIsNotMastered(ev: Evidence, steps: seq<Step>, triggers: seq<Trigger>, x: Step)
    requires Core(steps) && x in Revised(ev, steps, triggers) && IsOpenDetour(x)
    ensures x.kc !in ev.mastered
  {
    OpenDetoursExactlyWhen(ev, steps, triggers, x.kc);
  }

  lemma ExtensionKeepsCore(objective: seq<KcId>, steps: seq<Step>, cap: nat, k: nat)
    requires Core(steps) && NoDuplicates(objective) && k <= |objective| && Planned(steps) == Elements(objective[..k])
    requires OpenCount(steps) <= cap
    ensures Core(steps + BuildInitialSteps(HorizonExtension(objective, steps, cap)))
  {
    var ext := HorizonExtension(objective, steps, cap);
    ExtensionIsNext(objective, steps, cap, k);
    ArrivalsAreNew(objective, steps, k, ext);
    ExtendedKeepsCore(steps, ext);
  }

  lemma DetourGoesOn(ev: Evidence, steps: seq<Step>, more: seq<Step>, x: Step)
    requires Core(steps + more) && ev.disproved == {}
    requires x in steps && IsOpenDetour(x) && !IsTethered(x) && x.kc !in ev.mastered
    ensures HasOpenDetour(Revised(ev, steps + more, []), x.kc)
  {
    assert x in steps + more && GoesOn(ev, steps + more, x);
    OpenDetoursExactlyWhen(ev, steps + more, [], x.kc);
  }

  // ---- What a learner is shown ----------------------------------------------------------

  /**
    The plan is fit to be taught from: the first teachable step is the active one, the open
    reviews are the due ones, the steps stand in teaching order, and each open one asks rightly.
   */
  ghost predicate Current(ev: Evidence, steps: seq<Step>) {
    && ActiveIsFirst(steps) && ReviewsAreDue(ev, steps)
    && Banded(steps) && OffersAtTheirSteps(steps)
    && (NoDuplicates(ev.due) ==> ReviewsInDueOrder(ev, steps))
    && (forall s :: s in steps && !IsClosed(s) ==> AsksRightly(ev, s))
  }

  lemma RevisedIsCurrent(ev: Evidence, steps: seq<Step>, triggers: seq<Trigger>)
    requires Core(steps) && Untangled(steps, triggers)
    requires forall t :: t in triggers ==> WellAimed(ev, steps, t)
    ensures Current(ev, Revised(ev, steps, triggers))
  {
    RevisionEstablishes(ev, steps, triggers);
    RevisedIsInTeachingOrder(ev, steps, triggers);
    OpenStepsAreCurrent(ev, steps, triggers);
  }

  /** The second pass is told of the same due reviews. */
  lemma ExtendIsCurrent(plan: Plan, input: Input, revised: seq<Step>, cap: nat, k: nat)
    requires NoDuplicates(plan.objective) && k <= |plan.objective|
    requires PlanOk(revised) && Planned(revised) == Elements(plan.objective[..k]) && OpenCount(revised) <= cap
    requires Current(input.ev, revised)
    ensures Current(input.ev, Extend(plan, input, revised, cap).steps)
  {
    var ext := HorizonExtension(plan.objective, revised, cap);
    if ext != [] {
      Arrivals(plan.objective, revised, cap, k, ext);
      ExtendedIsCurrent(SecondPass(input), revised, ext);
      SameAskingSameCurrent(SecondPass(input), input.ev, Revised(SecondPass(input), revised + BuildInitialSteps(ext), []));
    }
  }

  lemma ExtendedIsCurrent(ev: Evidence, revised: seq<Step>, ext: seq<KcId>)
    requires PlanOk(revised) && NoDuplicates(ext) && forall s :: s in revised && s.stepType.New? ==> s.kc !in ext
    ensures Current(ev, Revised(ev, revised + BuildInitialSteps(ext), []))
  {
    ExtendedKeepsCore(revised, ext);
    ExtendedIsUntangled(revised, ext);
    RevisedIsCurrent(ev, revised + BuildInitialSteps(ext), []);
  }

  lemma SameAskingSameCurrent(ev: Evidence, other: Evidence, steps: seq<Step>)
    requires AskAlike(ev, other) && Current(ev, steps)
    ensures Current(other, steps)
  {
    assert forall s :: s in steps && !IsClosed(s) ==> AsksRightly(ev, s);
  }

  lemma RevisionIsCurrent(plan: Plan, input: Input, triggers: seq<Trigger>, cap: nat)
    requires Windowed(plan, cap)
    requires forall t :: t in triggers ==> WellAimed(input.ev, plan.steps, t)
    ensures Current(input.ev, ApplyRevision(plan, input, triggers, cap).steps)
  {
    var k :| PlannedUpTo(plan, k);
    RevisionEstablishes(input.ev, plan.steps, triggers);
    RevisionKeepsPlanned(input.ev, plan.steps, triggers);
    RevisionOpenCount(input.ev, plan.steps, triggers);
    NumberedIsUntangled(plan.steps, triggers);
    RevisedIsCurrent(input.ev, plan.steps, triggers);
    ExtendIsCurrent(plan, input, Revised(input.ev, plan.steps, triggers), cap, k);
  }

  // ---- A revision and its extension, repeated -------------------------------------------

  /** With nothing open mastered a revision finishes none of the open new steps. */
  lemma NoneFinished(ev: Evidence, steps: seq<Step>)
    requires Core(steps) && forall y :: y in steps && IsOpenNew(y) ==> y.kc !in ev.mastered
    ensures OpenCount(Revised(ev, steps, [])) == OpenCount(steps)
  {
    var r, here := Revised(ev, steps, []), OpenNews(steps);
    RevisionKeepsCore(ev, steps, []);
    OpenCountIsLength(r);
    OpenCountIsLength(steps);
    RevisedNewSteps(ev, steps, []);
    ThoseMembers(steps, IsOpenNew);
    ThoseOfAll(here, Unmastered(ev));
    SortKeepsLength(here);
    assert |Kcs(OpenNews(r))| == |Kcs(Sorting.StableSort(here, ByOrder()))|;
  }

  /** If nothing open or arriving is mastered, the second pass leaves all of it open. */
  lemma ExtendedCount(ev: Evidence, revised: seq<Step>, ext: seq<KcId>)
    requires PlanOk(revised) && NoDuplicates(ext) && forall s :: s in revised && s.stepType.New? ==> s.kc !in ext
    requires forall y :: y in revised + BuildInitialSteps(ext) && IsOpenNew(y) ==> y.kc !in ev.mastered
    ensures OpenCount(Revised(ev, revised + BuildInitialSteps(ext), [])) == OpenCount(revised) + |ext|
  {
    ExtendedKeepsCore(revised, ext);
    NoneFinished(ev, revised + BuildInitialSteps(ext));
    BareStepsPlan(ext);
    OpenCountJoin(revised, BuildInitialSteps(ext));
  }

  lemma NoRoom(objective: seq<KcId>, steps: seq<Step>, cap: nat, m: nat)
    requires m <= |objective| && NoDuplicates(objective) && Planned(steps) == Elements(objective[..m])
    requires OpenCount(steps) <= cap && (m == |objective| || OpenCount(steps) == cap)
    ensures HorizonExtension(objective, steps, cap) == []
  {
    ExtensionIsNext(objective, steps, cap, m);
  }

  /**
    The horizon is filled at one go: unless the second pass finds what is open or arriving
    mastered, there is nothing to pull in once it has run.
   */
  lemma NothingMoreFits(plan: Plan, input: Input, revised: seq<Step>, cap: nat, k: nat, ext: seq<KcId>)
    requires NoDuplicates(plan.objective) && k <= |plan.objective|
    requires PlanOk(revised) && Planned(revised) == Elements(plan.objective[..k]) && OpenCount(revised) <= cap
    requires ext == HorizonExtension(plan.objective, revised, cap) && ext != []
    requires forall y :: y in revised + BuildInitialSteps(ext) && IsOpenNew(y) ==> y.kc !in SecondPass(input).mastered
    ensures HorizonExtension(plan.objective, Revised(SecondPass(input), revised + BuildInitialSteps(ext), []), cap) == []
  {
    ExtensionFills(plan.objective, revised, cap, k, ext);
    FilledUp(SecondPass(input), plan.objective, revised, cap, k, ext);
  }

  lemma ExtensionFills(objective: seq<KcId>, steps: seq<Step>, cap: nat, k: nat, ext: seq<KcId>)
    requires k <= |objective| && NoDuplicates(objective) && Planned(steps) == Elements(objective[..k])
    requires OpenCount(steps) <= cap && ext == HorizonExtension(objective, steps, cap)
    ensures k + |ext| <= |objective| && OpenCount(steps) + |ext| <= cap
    ensures k + |ext| == |objective| || OpenCount(steps) + |ext| == cap
    ensures Planned(steps) + Elements(ext) == Elements(objective[..k + |ext|])
    ensures NoDuplicates(ext) && forall s :: s in steps && s.stepType.New? ==> s.kc !in ext
  {
    ExtensionIsNext(objective, steps, cap, k);
    ArrivalsAreNew(objective, steps, k, ext);
  }

  lemma FilledUp(ev: Evidence, objective: seq<KcId>, revised: seq<Step>, cap: nat, k: nat, ext: seq<KcId>)
    requires NoDuplicates(objective) && k + |ext| <= |objective| && OpenCount(revised) + |ext| <= cap
    requires k + |ext| == |objective| || OpenCount(revised) + |ext| == cap
    requires PlanOk(revised) && Planned(revised) + Elements(ext) == Elements(objective[..k + |ext|])
    requires NoDuplicates(ext) && forall s :: s in revised && s.stepType.New? ==> s.kc !in ext
    requires forall y :: y in revised + BuildInitialSteps(ext) && IsOpenNew(y) ==> y.kc !in ev.mastered
    ensures HorizonExtension(objective, Revised(ev, revised + BuildInitialSteps(ext), []), cap) == []
  {
    ExtendedPlan(ev, revised, ext);
    ExtendedCount(ev, revised, ext);
    NoRoom(objective, Revised(ev, revised + BuildInitialSteps(ext), []), cap, k + |ext|);
  }

  /**
    The whole revision, extension included, is idempotent: on the same evidence and without a
    fresh trigger the second one changes nothing, as long as the first found no component it
    pulled in mastered already.
   */
  lemma ApplyingTwiceIsApplyingOnce(plan: Plan, input: Input, triggers: seq<Trigger>, cap: nat)
    requires Windowed(plan, cap) && input.arrivals == {}
    requires forall t :: t in triggers ==> WellAimed(input.ev, plan.steps, t) && Steady(input.ev, t)
    requires forall kc :: kc in HorizonExtension(plan.objective, Revised(input.ev, plan.steps, triggers), cap)
               ==> kc !in input.ev.mastered
    ensures var once := ApplyRevision(plan, input, triggers, cap); ApplyRevision(once, input, [], cap) == once
  {
    var revised := Revised(input.ev, plan.steps, triggers);
    var once := Extend(plan, input, revised, cap);
    var k :| PlannedUpTo(plan, k);
    RevisionEstablishes(input.ev, plan.steps, triggers);
    RevisionKeepsPlanned(input.ev, plan.steps, triggers);
    RevisionOpenCount(input.ev, plan.steps, triggers);
    NumberedIsUntangled(plan.steps, triggers);
    RevisedIsSettled(input.ev, plan.steps, triggers);
    OnceIsFixed(plan, input, revised, cap, k);
  }

  lemma OnceIsFixed(plan: Plan, input: Input, revised: seq<Step>, cap: nat, k: nat)
    requires NoDuplicates(plan.objective) && k <= |plan.objective| && input.arrivals == {}
    requires PlanOk(revised) && Planned(revised) == Elements(plan.objective[..k]) && OpenCount(revised) <= cap
    requires Settled(input.ev, revised)
    requires forall kc :: kc in HorizonExtension(plan.objective, revised, cap) ==> kc !in input.ev.mastered
    ensures var once := Extend(plan, input, revised, cap); ApplyRevision(once, input, [], cap) == once
  {
    var ext := HorizonExtension(plan.objective, revised, cap);
    if ext == [] {
      SettledIsFixed(input.ev, revised);
    } else {
      Arrivals(plan.objective, revised, cap, k, ext);
      OpenIsUnmastered(input, revised, ext);
      NothingMoreFits(plan, input, revised, cap, k, ext);
      ExtendedStays(input.ev, SecondPass(input), revised, ext);
    }
    AppliedStays(Extend(plan, input, revised, cap), input, cap);
  }

  /** What is pulled in is new to the plan. */
  lemma Arrivals(objective: seq<KcId>, steps: seq<Step>, cap: nat, k: nat, ext: seq<KcId>)
    requires k <= |objective| && NoDuplicates(objective) && Planned(steps) == Elements(objective[..k])
    requires OpenCount(steps) <= cap && ext == HorizonExtension(objective, steps, cap)
    ensures NoDuplicates(ext) && forall s :: s in steps && s.stepType.New? ==> s.kc !in ext
  {
    ExtensionIsNext(objective, steps, cap, k);
    ArrivalsAreNew(objective, steps, k, ext);
  }

  lemma AppliedStays(plan: Plan, input: Input, cap: nat)
    requires Revised(input.ev, plan.steps, []) == plan.steps && HorizonExtension(plan.objective, plan.steps, cap) == []
    ensures ApplyRevision(plan, input, [], cap) == plan
  {
  }

  lemma OpenIsUnmastered(input: Input, revised: seq<Step>, ext: seq<KcId>)
    requires Settled(input.ev, revised) && input.arrivals == {}
    requires forall kc :: kc in ext ==> kc !in input.ev.mastered
    ensures forall y :: y in revised + BuildInitialSteps(ext) && IsOpenNew(y) ==> y.kc !in SecondPass(input).mastered
  {
    forall y | y in revised + BuildInitialSteps(ext) && IsOpenNew(y)
      ensures y.kc !in SecondPass(input).mastered
    {
      if y in revised {
        assert CloseByEvidence(input.ev, y) == y;
      } else {
        assert y in BuildInitialSteps(ext) && y.kc in ext;
      }
    }
  }

  // ---- Every run ------------------------------------------------------------------------

  lemma LegalIsAimed(plan: Plan, a: Action, t: Trigger)
    requires Legal(plan, a) && a.Revise?
    requires t in (if a.detour.Some? then [a.detour.value] else []) + a.input.externals
    ensures WellAimed(a.input.ev, plan.steps, t)
  {
  }

  lemma DecisionKeepsNew(steps: seq<Step>, prereq: KcId, decision: Decision, at: Time)
    requires PlanOk(steps) && DecideDetour(steps, prereq, decision, at).Steps?
    ensures Planned(DecideDetour(steps, prereq, decision, at).steps) == Planned(steps)
    ensures OpenCount(DecideDetour(steps, prereq, decision, at).steps) == OpenCount(steps)
    ensures forall y :: IsOpenNew(y) ==> (y in steps <==> y in DecideDetour(steps, prereq, decision, at).steps)
  {
    var n := OpenDetourAt(steps, prereq);
    var r := DecideDetour(steps, prereq, decision, at).steps;
    PlannedPointwise(steps, r);
    SameOpenCount(steps, r);
    forall y | IsOpenNew(y)
      ensures y in steps <==> y in r
    {
      if y in steps {
        var i :| 0 <= i < |steps| && steps[i] == y;
        assert r[i] == y;
      }
    }
  }

  lemma {:induction false} SameOpenCount(s: seq<Step>, t: seq<Step>)
    requires |s| == |t|
    requires forall i :: 0 <= i < |s| ==> s[i] == t[i] || (!s[i].stepType.New? && !t[i].stepType.New?)
    ensures OpenCount(s) == OpenCount(t)
    decreases |s|
  {
    if s != [] {
      SameOpenCount(s[..|s| - 1], t[..|t| - 1]);
    }
  }

  /** Whether the action revises the plan: a decision on a detour that is not open raises instead. */
  predicate Revises(plan: Plan, a: Action) {
    a.Decide? ==> DecideDetour(plan.steps, a.prereq, a.decision, a.at).Steps?
  }

  /** One action keeps the invariant and defers nothing that was planned; if it revises, the plan is current. */
  lemma ActKeeps(plan: Plan, a: Action, cap: nat)
    requires Windowed(plan, cap) && Legal(plan, a)
    ensures Windowed(Act(plan, a, cap), cap)
    ensures Revises(plan, a) ==> Current(a.input.ev, Act(plan, a, cap).steps)
    ensures !Revises(plan, a) ==> Act(plan, a, cap) == plan
    ensures Deferred(Act(plan, a, cap)) <= Deferred(plan)
    ensures Finishes(plan, a) && Deferred(plan) > 0 ==> Deferred(Act(plan, a, cap)) < Deferred(plan)
  {
    match a {
      case Revise(input, detour) =>
        var triggers := (if detour.Some? then [detour.value] else []) + input.externals;
        forall t | t in triggers {
          LegalIsAimed(plan, a, t);
        }
        RevisionAdvances(plan, input, triggers, cap);
        RevisionIsCurrent(plan, input, triggers, cap);
      case Decide(input, prereq, decision, at) =>
        if DecideDetour(plan.steps, prereq, decision, at).Steps? {
          DecidedIsWindowed(plan, cap, prereq, decision, at);
          var decided := plan.(steps := DecideDetour(plan.steps, prereq, decision, at).steps);
          RevisionAdvances(decided, input, input.externals, cap);
          RevisionIsCurrent(decided, input, input.externals, cap);
        }
    }
  }

  lemma DecidedIsWindowed(plan: Plan, cap: nat, prereq: KcId, decision: Decision, at: Time)
    requires Windowed(plan, cap) && DecideDetour(plan.steps, prereq, decision, at).Steps?
    ensures var decided := plan.(steps := DecideDetour(plan.steps, prereq, decision, at).steps);
            && Windowed(decided, cap) && Deferred(decided) == Deferred(plan)
            && forall y :: IsOpenNew(y) ==> (y in plan.steps <==> y in decided.steps)
  {
    var decided := plan.(steps := DecideDetour(plan.steps, prereq, decision, at).steps);
    DecisionKeeps(plan.steps, prereq, decision, at);
    DecisionKeepsNew(plan.steps, prereq, decision, at);
    var k :| PlannedUpTo(plan, k);
    assert PlannedUpTo(decided, k);
  }

  lemma RevisionAdvances(plan: Plan, input: Input, triggers: seq<Trigger>, cap: nat)
    requires Windowed(plan, cap)
    requires forall t :: t in triggers ==> WellAimed(input.ev, plan.steps, t)
    ensures Windowed(ApplyRevision(plan, input, triggers, cap), cap)
    ensures Deferred(ApplyRevision(plan, input, triggers, cap)) <= Deferred(plan)
    ensures (exists y :: y in plan.steps && IsOpenNew(y) && y.kc in input.ev.mastered) && Deferred(plan) > 0
      ==> Deferred(ApplyRevision(plan, input, triggers, cap)) < Deferred(plan)
  {
    var k :| PlannedUpTo(plan, k);
    var m := ExtensionKeepsWindow(plan, input, triggers, cap, k);
    RevisionOpenCount(input.ev, plan.steps, triggers);
    DeferredIsRest(plan, k);
    DeferredIsRest(ApplyRevision(plan, input, triggers, cap), m);
  }

  /** The action revises the plan and masters a step that is open. */
  ghost predicate Finishes(plan: Plan, a: Action) {
    Revises(plan, a) && exists y :: y in plan.steps && IsOpenNew(y) && y.kc in a.input.ev.mastered
  }

  lemma GeneratedWindowed(objective: seq<KcId>, input: Input, cap: nat)
    requires NoDuplicates(objective) && forall t :: t in input.externals ==> t.reason.External?
    ensures Windowed(Generate(objective, input, cap), cap)
    ensures Current(input.ev, Generate(objective, input, cap).steps)
    ensures PlannedUpTo(Generate(objective, input, cap), if cap < |objective| then cap else |objective|)
  {
    var k := if cap < |objective| then cap else |objective|;
    var window := objective[..k];
    assert cap >= |objective| ==> window == objective;
    InitialPlanOk(window);
    BareStepsPlan(window);
    RevisionEstablishes(input.ev, BuildInitialSteps(window), input.externals);
    RevisionKeepsPlanned(input.ev, BuildInitialSteps(window), input.externals);
    RevisionOpenCount(input.ev, BuildInitialSteps(window), input.externals);
    assert PlannedUpTo(Generate(objective, input, cap), k);
    NumberedIsUntangled(BuildInitialSteps(window), input.externals);
    RevisedIsCurrent(input.ev, BuildInitialSteps(window), input.externals);
  }

  /** The evidence of the last action that revised the plan, `ev` if none did. */
  function Latest(ev: Evidence, plan: Plan, actions: seq<Action>, cap: nat): Evidence
    decreases |actions|
  {
    if actions == [] then ev
    else Latest(if Revises(plan, actions[0]) then actions[0].input.ev else ev, Act(plan, actions[0], cap), actions[1..], cap)
  }

  lemma {:induction false} RunKeeps(plan: Plan, actions: seq<Action>, cap: nat, ev: Evidence)
    requires Windowed(plan, cap) && Current(ev, plan.steps) && LegalRun(plan, actions, cap)
    ensures Windowed(Run(plan, actions, cap), cap)
    ensures Current(Latest(ev, plan, actions, cap), Run(plan, actions, cap).steps)
    ensures Run(plan, actions, cap).objective == plan.objective
    decreases |actions|
  {
    if actions != [] {
      var a := actions[0];
      ActKeeps(plan, a, cap);
      RunKeeps(Act(plan, a, cap), actions[1..], cap, if Revises(plan, a) then a.input.ev else ev);
    }
  }

  /**
    From generation through any sequence of revisions and decisions: the plan invariant holds,
    what is planned is a beginning of the objective, the open new steps respect the cap, the
    first teachable step is active, the open reviews are those of the latest evidence, the steps
    stand in teaching order, and each open one asks as the latest evidence says.
   */
  lemma EveryReachablePlanIsSound(objective: seq<KcId>, input: Input, actions: seq<Action>, cap: nat)
    requires NoDuplicates(objective) && forall t :: t in input.externals ==> t.reason.External?
    requires LegalRun(Generate(objective, input, cap), actions, cap)
    ensures var plan := Run(Generate(objective, input, cap), actions, cap);
            && Windowed(plan, cap) && plan.objective == objective
            && Current(Latest(input.ev, Generate(objective, input, cap), actions, cap), plan.steps)
  {
    GeneratedWindowed(objective, input, cap);
    RunKeeps(Generate(objective, input, cap), actions, cap, input.ev);
  }

  /**
    Every reachable plan is left alone by a second revision on the evidence of the first, as
    long as no fresh trigger comes with it.
   */
  lemma EveryReachablePlanSettles(
    objective: seq<KcId>, input: Input, actions: seq<Action>, cap: nat, ev: Evidence)
    requires NoDuplicates(objective) && forall t :: t in input.externals ==> t.reason.External?
    requires LegalRun(Generate(objective, input, cap), actions, cap)
    ensures var steps := Run(Generate(objective, input, cap), actions, cap).steps;
            Revised(ev, Revised(ev, steps, []), []) == Revised(ev, steps, [])
  {
    EveryReachablePlanIsSound(objective, input, actions, cap);
    NumberedIsUntangled(Run(Generate(objective, input, cap), actions, cap).steps, []);
    RevisingTwiceIsRevisingOnce(ev, Run(Generate(objective, input, cap), actions, cap).steps, []);
  }

  /** A decision that is taken is a revision of the decided plan without a detour of its own; one that is not changes nothing. */
  lemma DecidingIsRevising(plan: Plan, input: Input, prereq: KcId, decision: Decision, at: Time, cap: nat)
    ensures var decided, after := DecideDetour(plan.steps, prereq, decision, at), Act(plan, Decide(input, prereq, decision, at), cap);
            match decided
            case DetourNotOpen => after == plan
            case Steps(steps) => after == Act(plan.(steps := steps), Revise(input, None), cap)
  {
    assert [] + input.externals == input.externals;
  }

  // ---- Progress -------------------------------------------------------------------------

  /** While anything is deferred, every action of the run finishes an open new step. */
  ghost predicate KeepsFinishing(plan: Plan, actions: seq<Action>, cap: nat)
    decreases |actions|
  {
    || actions == []
    || ( && (Deferred(plan) > 0 ==> Finishes(plan, actions[0]))
         && KeepsFinishing(Act(plan, actions[0], cap), actions[1..], cap))
  }

  /** If open steps keep finishing, the whole objective is planned within as many actions as were deferred. */
  lemma {:induction false} WholeObjectiveIsPlanned(plan: Plan, actions: seq<Action>, cap: nat)
    requires Windowed(plan, cap) && LegalRun(plan, actions, cap) && KeepsFinishing(plan, actions, cap)
    requires |actions| >= Deferred(plan)
    ensures Planned(Run(plan, actions, cap).steps) == Elements(plan.objective)
    decreases |actions|
  {
    if actions == [] {
      var k :| PlannedUpTo(plan, k);
      UnplannedIsRest(plan.objective, k);
      assert plan.objective[..k] == plan.objective;
    } else {
      ActKeeps(plan, actions[0], cap);
      assert Act(plan, actions[0], cap).objective == plan.objective;
      WholeObjectiveIsPlanned(Act(plan, actions[0], cap), actions[1..], cap);
    }
  }
}
