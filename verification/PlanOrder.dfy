/** What the window means for prerequisites, and what extending it does to the teaching order. */
module PlanOrder {
  import opened Distinctness
  import opened Ids
  import opened PlanHorizon
  import opened PlanInvariants
  import opened PlanRevision
  import opened PlanRuns
  import opened PlanSteps
  import opened Prerequisites
  import TopoSort
  import opened Wrappers

  /** A planned component's kept prerequisites are planned too. */
  lemma PlannedHoldsPrerequisites(targets: seq<KcId>, kept: seq<Edge<KcId>>, plan: Plan, cap: nat, e: Edge<KcId>)
    requires Windowed(plan, cap)
    requires forall n :: n in plan.objective <==> TopoSort.InClosure(targets, kept, n)
    requires forall i, j :: 0 <= i < |plan.objective| && 0 <= j < |plan.objective|
               && Edge(plan.objective[i], plan.objective[j]) in kept
               ==> i < j
    requires e in kept && e.dependent in Planned(plan.steps)
    ensures e.prereq in Planned(plan.steps)
  {
    var k :| PlannedUpTo(plan, k);
    assert e.dependent in Elements(plan.objective[..k]);
    TopoSort.ObjectivePrefixIsClosed(targets, kept, plan.objective, k, e);
  }

  /** Every planned component's kept prerequisites are planned. */
  ghost predicate HoldsPrerequisites(kept: seq<Edge<KcId>>, steps: seq<Step>) {
    forall e :: e in kept && e.dependent in Planned(steps) ==> e.prereq in Planned(steps)
  }

  /**
    Generation as a whole: the stored edges are filtered, closed over and sorted into the
    objective, and its beginning becomes the plan. Whatever is done with the plan after that,
    it never holds a component without the prerequisites kept for it.
   */
  method GeneratePlan(targets: seq<KcId>, stored: seq<Edge<KcId>>, tiebreak: map<KcId, int>, input: Input, cap: nat)
    returns (plan: Plan)
    requires forall t :: t in input.externals ==> t.reason.External?
    ensures plan == Generate(plan.objective, input, cap)
    ensures forall n :: n in plan.objective <==> TopoSort.InClosure(targets, Kept(stored), n)
    ensures forall actions :: LegalRun(plan, actions, cap) ==> HoldsPrerequisites(Kept(stored), Run(plan, actions, cap).steps)
  {
    var objective := TopoSort.PlanObjective(targets, stored, tiebreak);
    var window := if cap < |objective| then objective[..cap] else objective;
    var steps := ReviseSteps(BuildInitialSteps(window), input.ev, None, input.externals);
    assert [] + input.externals == input.externals;
    plan := Plan(objective, steps);
    forall actions | LegalRun(plan, actions, cap)
      ensures HoldsPrerequisites(Kept(stored), Run(plan, actions, cap).steps)
    {
      RunsHoldPrerequisites(targets, Kept(stored), objective, input, actions, cap);
    }
  }

  lemma RunsHoldPrerequisites(
    targets: seq<KcId>, kept: seq<Edge<KcId>>, objective: seq<KcId>, input: Input, actions: seq<Action>, cap: nat)
    requires NoDuplicates(objective) && forall n :: n in objective <==> TopoSort.InClosure(targets, kept, n)
    requires forall i, j :: 0 <= i < |objective| && 0 <= j < |objective| && Edge(objective[i], objective[j]) in kept ==> i < j
    requires forall t :: t in input.externals ==> t.reason.External?
    requires LegalRun(Generate(objective, input, cap), actions, cap)
    ensures HoldsPrerequisites(kept, Run(Generate(objective, input, cap), actions, cap).steps)
  {
    var plan := Run(Generate(objective, input, cap), actions, cap);
    EveryReachablePlanIsSound(objective, input, actions, cap);
    forall e | e in kept && e.dependent in Planned(plan.steps)
      ensures e.prereq in Planned(plan.steps)
    {
      PlannedHoldsPrerequisites(targets, kept, plan, cap, e);
    }
  }

  // ---- What the extension does to the teaching order ------------------------------------

  lemma {:induction false} ThoseIndex(steps: seq<Step>, test: Step -> bool, m: nat) returns (i: nat)
    requires m < |Those(steps, test)|
    ensures m <= i < |steps| && steps[i] == Those(steps, test)[m]
    decreases |steps|
  {
    if test(steps[0]) {
      if m == 0 {
        i := 0;
      } else {
        i := ThoseIndex(steps[1..], test, m - 1);
        i := i + 1;
      }
    } else {
      i := ThoseIndex(steps[1..], test, m);
      i := i + 1;
    }
  }

  /**
    Whenever two open steps remain and the first arriving component is not mastered, the
    arrivals are taught before an open step that precedes them in the objective.
   */
  lemma OpenStepsAreOvertaken(ev: Evidence, p: seq<Step>, arriving: seq<KcId>)
    requires PlanOk(p) && NoDuplicates(arriving)
    requires forall s :: s in p && s.stepType.New? ==> s.kc !in arriving
    requires |Those(OpenNews(p), Unmastered(ev))| >= 2
    requires arriving != [] && arriving[0] !in ev.mastered
    ensures Kcs(OpenNews(Revised(ev, p + BuildInitialSteps(arriving), []))) != Kcs(InObjectiveOrder(ev, p, arriving))
  {
    var here := OpenNews(p);
    var m := ThoseIndex(here, Unmastered(ev), 1);
    var i := ThoseIndex(p, IsOpenNew, m);
    ThoseMembers(p, IsOpenNew);
    ThoseMembers(here, Unmastered(ev));
    assert Those(here, Unmastered(ev))[1] in Those(here, Unmastered(ev));
    assert here[m] in here;
    assert IsOpenNew(p[i]) && p[i].kc !in ev.mastered && 1 <= i;
    assert !NoneBehind(ev, p, arriving);
    ExtensionInOrderExactlyWhen(ev, p, arriving);
  }

  /** Open step `i` and arrival `j`, neither mastered, are joined by a kept edge. */
  ghost predicate Joined(ev: Evidence, kept: seq<Edge<KcId>>, p: seq<Step>, arriving: seq<KcId>, i: int, j: int) {
    && 0 <= i < |p| && 0 <= j < |arriving| && IsOpenNew(p[i])
    && p[i].kc !in ev.mastered && arriving[j] !in ev.mastered && Edge(p[i].kc, arriving[j]) in kept
  }

  /**
    Every arrival is taught after the open prerequisites it was kept behind exactly when none of
    them stands further back in the plan than the arrival's new number.
   */
  lemma PrerequisitesFirstExactlyWhen(ev: Evidence, kept: seq<Edge<KcId>>, p: seq<Step>, arriving: seq<KcId>)
    requires PlanOk(p) && NoDuplicates(arriving)
    requires forall s :: s in p && s.stepType.New? ==> s.kc !in arriving
    ensures var taught := Kcs(OpenNews(Revised(ev, p + BuildInitialSteps(arriving), [])));
            (forall i, j :: Joined(ev, kept, p, arriving, i, j) ==> Precedes(taught, p[i].kc, arriving[j]))
            <==> (forall i, j :: Joined(ev, kept, p, arriving, i, j) ==> i <= j)
  {
    forall i, j | Joined(ev, kept, p, arriving, i, j)
      ensures Precedes(Kcs(OpenNews(Revised(ev, p + BuildInitialSteps(arriving), []))), p[i].kc, arriving[j]) <==> i <= j
    {
      TaughtFirstExactlyWhen(ev, p, arriving, i, j);
    }
  }

  // ---- An instance: a chain of four components -------------------------------------------

  function Chain(x: KcId, a: KcId, b: KcId, c: KcId): seq<Edge<KcId>> {
    [Edge(x, a), Edge(a, b), Edge(b, c)]
  }

  lemma {:induction false} PathAscends(edges: seq<Edge<KcId>>, p: seq<KcId>, rank: KcId -> int)
    requires IsPath(edges, p) && |p| > 1 && forall e :: e in edges ==> rank(e.prereq) < rank(e.dependent)
    ensures rank(p[0]) < rank(p[|p| - 1])
    decreases |p|
  {
    assert Edge(p[0], p[1]) in edges;
    if |p| > 2 {
      PathTail(edges, p);
      PathAscends(edges, p[1..], rank);
    }
  }

  /** The chain is kept whole, and its four components are the closure of the last. */
  lemma ChainIsKept(x: KcId, a: KcId, b: KcId, c: KcId)
    requires NoDuplicates([x, a, b, c])
    ensures Kept(Chain(x, a, b, c)) == Chain(x, a, b, c)
    ensures Edge(b, c) in Chain(x, a, b, c)
    ensures forall n :: n in [x, a, b, c] <==> TopoSort.InClosure([c], Chain(x, a, b, c), n)
  {
    assert Chain(x, a, b, c)[2] in Chain(x, a, b, c);
    var chain, all := Chain(x, a, b, c), [x, a, b, c];
    assert all[0] != all[1] && all[0] != all[2] && all[0] != all[3] && all[1] != all[2] && all[1] != all[3] && all[2] != all[3];
    var rank := (n: KcId) => if n == x then 0 else if n == a then 1 else if n == b then 2 else 3;
    if Cyclic(chain) {
      var p :| IsPath(chain, p) && |p| > 1 && p[0] == p[|p| - 1];
      PathAscends(chain, p, rank);
      assert false;
    }
    WholeExactlyWhenAcyclic(chain);
    ChainReaches(x, a, b, c);
    forall n | TopoSort.InClosure([c], chain, n)
      ensures n in all
    {
      var p :| PathFromTo(chain, p, n, c);
      TopoSort.ClosedBackward(chain, {x, a, b, c}, p);
    }
  }

  lemma ChainReaches(x: KcId, a: KcId, b: KcId, c: KcId)
    ensures forall n :: n in [x, a, b, c] ==> TopoSort.InClosure([c], Chain(x, a, b, c), n)
  {
    var chain := Chain(x, a, b, c);
    assert chain[0] in chain && chain[1] in chain && chain[2] in chain;
    ReachesSelf(chain, c);
    ReachThroughEdge(chain, b, c, c);
    ReachThroughEdge(chain, a, b, c);
    ReachThroughEdge(chain, x, a, c);
    assert c in [c];
  }

  /**
    The instance from generation on: four components under a cap of three, nothing mastered, then
    the first one mastered. The stored plan does not teach the rest in the objective's order.
   */
  lemma ExtensionOutOfOrder(x: KcId, a: KcId, b: KcId, c: KcId, first: Input, input: Input)
    requires NoDuplicates([x, a, b, c])
    requires first.ev.mastered == {} && first.externals == []
    requires input.ev.mastered == {x} && input.arrivals == {} && input.externals == []
    ensures var plan := Generate([x, a, b, c], first, 3);
            && Kcs(OpenNews(plan.steps)) == [x, a, b]
            && LegalRun(plan, [Revise(input, None)], 3)
            && Planned(Run(plan, [Revise(input, None)], 3).steps) == {x, a, b, c}
            && Kcs(OpenNews(Run(plan, [Revise(input, None)], 3).steps)) != [a, b, c]
  {
    var p := StoredNext(x, a, b, c, first, input);
    Overtaken(x, a, b, c, input, p);
    PlannedAfterOvertaking(x, a, b, c, input, p);
  }

  /**
    If the four are a chain, what is taught too early is the last component, before the third,
    which is its own prerequisite.
   */
  lemma PrerequisiteOvertaken(x: KcId, a: KcId, b: KcId, c: KcId, first: Input, input: Input)
    requires NoDuplicates([x, a, b, c])
    requires first.ev.mastered == {} && first.externals == []
    requires input.ev.mastered == {x} && input.arrivals == {} && input.externals == []
    ensures var plan, kept := Generate([x, a, b, c], first, 3), Kept(Chain(x, a, b, c));
            && (forall n :: n in plan.objective <==> TopoSort.InClosure([c], kept, n))
            && Edge(b, c) in kept
            && LegalRun(plan, [Revise(input, None)], 3)
            && Precedes(Kcs(OpenNews(Run(plan, [Revise(input, None)], 3).steps)), c, b)
  {
    var p := StoredNext(x, a, b, c, first, input);
    ChainIsKept(x, a, b, c);
    TaughtTooEarly(x, a, b, c, input, p);
  }

  /** What the one revision stores, and the plan `p` it extends. */
  lemma StoredNext(x: KcId, a: KcId, b: KcId, c: KcId, first: Input, input: Input) returns (p: seq<Step>)
    requires NoDuplicates([x, a, b, c])
    requires first.ev.mastered == {} && first.externals == []
    requires input.ev.mastered == {x} && input.arrivals == {} && input.externals == []
    ensures PlanOk(p) && Kcs(OpenNews(p)) == [a, b] && Planned(p) == {x, a, b}
    ensures var plan := Generate([x, a, b, c], first, 3);
            && Kcs(OpenNews(plan.steps)) == [x, a, b]
            && LegalRun(plan, [Revise(input, None)], 3)
            && Run(plan, [Revise(input, None)], 3).steps == Revised(SecondPass(input), p + BuildInitialSteps([c]), [])
  {
    var plan := Generate([x, a, b, c], first, 3);
    p := Revised(input.ev, plan.steps, []);
    GeneratedFirstThree(x, a, b, c, first);
    FirstMastered(x, a, b, c, plan.steps, input.ev);
    RunOnce(plan, input, p, [c]);
  }

  /** Of two open steps the second stands at place one at least; the arrival is numbered zero. */
  lemma TaughtTooEarly(x: KcId, a: KcId, b: KcId, c: KcId, input: Input, p: seq<Step>)
    requires NoDuplicates([x, a, b, c]) && input.ev.mastered == {x} && input.arrivals == {}
    requires PlanOk(p) && Kcs(OpenNews(p)) == [a, b] && Planned(p) == {x, a, b}
    ensures Precedes(Kcs(OpenNews(Revised(SecondPass(input), p + BuildInitialSteps([c]), []))), c, b)
  {
    NotYetPlanned(x, a, b, c, p);
    assert [x, a, b, c][0] != [x, a, b, c][2] && [x, a, b, c][0] != [x, a, b, c][3];
    var i := SecondOpen(a, b, p);
    TaughtFirstExactlyWhen(SecondPass(input), p, [c], i, 0);
  }

  lemma SecondOpen(a: KcId, b: KcId, p: seq<Step>) returns (i: nat)
    requires Kcs(OpenNews(p)) == [a, b]
    ensures 0 < i < |p| && IsOpenNew(p[i]) && p[i].kc == b
  {
    assert |Kcs(OpenNews(p))| == 2 && Kcs(OpenNews(p))[1] == b;
    i := ThoseIndex(p, IsOpenNew, 1);
    ThoseMembers(p, IsOpenNew);
    assert OpenNews(p)[1] in OpenNews(p);
  }

  /** A run of one revision without detours. */
  lemma RunOnce(plan: Plan, input: Input, p: seq<Step>, arriving: seq<KcId>)
    requires p == Revised(input.ev, plan.steps, []) && input.externals == []
    requires arriving == HorizonExtension(plan.objective, p, 3) && arriving != []
    ensures LegalRun(plan, [Revise(input, None)], 3)
    ensures Run(plan, [Revise(input, None)], 3).steps == Revised(SecondPass(input), p + BuildInitialSteps(arriving), [])
  {
    var none: seq<Trigger> := [];
    assert none + none == none;
    var a := Revise(input, None);
    assert [a][1..] == [];
    assert Run(plan, [a], 3) == Act(plan, a, 3);
  }

  /** With nothing mastered the first plan teaches its window in order. */
  lemma FreshPlan(ev: Evidence, window: seq<KcId>)
    requires NoDuplicates(window) && ev.mastered == {}
    ensures var p := Revised(ev, BuildInitialSteps(window), []);
            PlanOk(p) && Kcs(OpenNews(p)) == window && Planned(p) == Elements(window)
  {
    var bare := BuildInitialSteps(window);
    InitialPlanOk(window);
    RevisionEstablishes(ev, bare, []);
    RevisionKeepsPlanned(ev, bare, []);
    BareStepsPlan(window);
    RevisionKeepsTeachingOrder(ev, bare, []);
    ThoseOfAll(bare, IsOpenNew);
    ThoseOfAll(bare, Unmastered(ev));
    assert Kcs(bare) == window;
  }

  lemma GeneratedFirstThree(x: KcId, a: KcId, b: KcId, c: KcId, first: Input)
    requires NoDuplicates([x, a, b, c]) && first.ev.mastered == {} && first.externals == []
    ensures var plan := Generate([x, a, b, c], first, 3);
            && PlanOk(plan.steps) && Kcs(OpenNews(plan.steps)) == [x, a, b] && Planned(plan.steps) == {x, a, b}
  {
    FirstThree(x, a, b, c);
    FreshPlan(first.ev, [x, a, b]);
    assert Generate([x, a, b, c], first, 3).steps == Revised(first.ev, BuildInitialSteps([x, a, b]), []);
  }

  lemma FirstThree(x: KcId, a: KcId, b: KcId, c: KcId)
    requires NoDuplicates([x, a, b, c])
    ensures [x, a, b, c][..3] == [x, a, b] && NoDuplicates([x, a, b]) && Elements([x, a, b]) == {x, a, b}
  {
    var objective, window := [x, a, b, c], [x, a, b];
    assert forall i :: 0 <= i < 3 ==> window[i] == objective[i];
  }

  lemma FirstMastered(x: KcId, a: KcId, b: KcId, c: KcId, steps: seq<Step>, ev: Evidence)
    requires NoDuplicates([x, a, b, c]) && ev.mastered == {x}
    requires PlanOk(steps) && Kcs(OpenNews(steps)) == [x, a, b] && Planned(steps) == {x, a, b}
    ensures var p := Revised(ev, steps, []);
            && PlanOk(p) && Kcs(OpenNews(p)) == [a, b] && Planned(p) == {x, a, b}
            && HorizonExtension([x, a, b, c], p, 3) == [c]
  {
    var p := Revised(ev, steps, []);
    RevisionEstablishes(ev, steps, []);
    RevisionKeepsPlanned(ev, steps, []);
    RevisionKeepsTeachingOrder(ev, steps, []);
    RestUnmastered(x, a, b, c, OpenNews(steps), ev);
    assert Elements([x, a, b]) == {x, a, b};
    OneMoreFits(x, a, b, c, p);
  }

  lemma RestUnmastered(x: KcId, a: KcId, b: KcId, c: KcId, here: seq<Step>, ev: Evidence)
    requires NoDuplicates([x, a, b, c]) && ev.mastered == {x} && Kcs(here) == [x, a, b]
    ensures Kcs(Those(here, Unmastered(ev))) == [a, b]
  {
    var objective := [x, a, b, c];
    assert objective[0] != objective[1] && objective[0] != objective[2];
    assert |here| == |Kcs(here)| == 3;
    assert here[0].kc == Kcs(here)[0] && here[1].kc == Kcs(here)[1] && here[2].kc == Kcs(here)[2];
    assert here == [here[0]] + ([here[1]] + ([here[2]] + []));
    ThoseCons(here[2], [], Unmastered(ev));
    ThoseCons(here[1], [here[2]] + [], Unmastered(ev));
    ThoseCons(here[0], [here[1]] + ([here[2]] + []), Unmastered(ev));
  }

  lemma OneMoreFits(x: KcId, a: KcId, b: KcId, c: KcId, p: seq<Step>)
    requires NoDuplicates([x, a, b, c]) && PlanOk(p) && Kcs(OpenNews(p)) == [a, b]
    requires Planned(p) == Elements([x, a, b])
    ensures HorizonExtension([x, a, b, c], p, 3) == [c]
  {
    assert [x, a, b, c][..3] == [x, a, b];
    OpenCountIsLength(p);
    assert |Kcs(OpenNews(p))| == 2;
    ExtensionIsNext([x, a, b, c], p, 3, 3);
  }

  lemma PlannedAfterOvertaking(x: KcId, a: KcId, b: KcId, c: KcId, input: Input, p: seq<Step>)
    requires Planned(p) == {x, a, b}
    ensures Planned(Revised(SecondPass(input), p + BuildInitialSteps([c]), [])) == {x, a, b, c}
  {
    RevisionKeepsPlanned(SecondPass(input), p + BuildInitialSteps([c]), []);
    PlannedJoin(p, BuildInitialSteps([c]));
    BareStepsPlan([c]);
  }

  lemma Overtaken(x: KcId, a: KcId, b: KcId, c: KcId, input: Input, p: seq<Step>)
    requires NoDuplicates([x, a, b, c]) && input.ev.mastered == {x} && input.arrivals == {}
    requires PlanOk(p) && Kcs(OpenNews(p)) == [a, b] && Planned(p) == {x, a, b}
    ensures Kcs(OpenNews(Revised(SecondPass(input), p + BuildInitialSteps([c]), []))) != [a, b, c]
  {
    StillOpen(x, a, b, c, input, p);
    NotYetPlanned(x, a, b, c, p);
    OpenStepsAreOvertaken(SecondPass(input), p, [c]);
    assert Kcs(InObjectiveOrder(SecondPass(input), p, [c])) == [a, b, c];
  }

  lemma NotYetPlanned(x: KcId, a: KcId, b: KcId, c: KcId, p: seq<Step>)
    requires NoDuplicates([x, a, b, c]) && Planned(p) == {x, a, b}
    ensures forall s :: s in p && s.stepType.New? ==> s.kc !in [c]
  {
    var objective := [x, a, b, c];
    assert objective[0] != objective[3] && objective[1] != objective[3] && objective[2] != objective[3];
    PlannedByMembers(p);
    forall s | s in p && s.stepType.New?
      ensures s.kc !in [c]
    {
      assert HasNew(p, s.kc);
    }
  }

  /** The second pass masters nothing more, so the open steps and the arrival stay open. */
  lemma StillOpen(x: KcId, a: KcId, b: KcId, c: KcId, input: Input, p: seq<Step>)
    requires NoDuplicates([x, a, b, c]) && input.ev.mastered == {x} && input.arrivals == {}
    requires Kcs(OpenNews(p)) == [a, b]
    ensures Those(OpenNews(p), Unmastered(SecondPass(input))) == OpenNews(p)
    ensures Those(BuildInitialSteps([c]), Unmastered(SecondPass(input))) == BuildInitialSteps([c])
  {
    var ev, here := SecondPass(input), OpenNews(p);
    var objective := [x, a, b, c];
    assert objective[0] != objective[1] && objective[0] != objective[2] && objective[0] != objective[3];
    assert here[0].kc == Kcs(here)[0] && here[1].kc == Kcs(here)[1];
    assert forall s :: s in here ==> Unmastered(ev)(s);
    ThoseOfAll(here, Unmastered(ev));
    ThoseOfAll(BuildInitialSteps([c]), Unmastered(ev));
  }
}
