/** Revising a revised plan again, on the same evidence, changes nothing. */
module PlanFixpoint {
  import opened Distinctness
  import opened Ids
  import opened PlanInvariants
  import opened PlanRevision
  import opened PlanSteps
  import opened Sorting
  import opened Wrappers

  /** Every pass of a revision leaves this plan as it is. */
  ghost predicate Settled(ev: Evidence, p: seq<Step>) {
    && (forall s :: s in p ==> CloseByEvidence(ev, s) == s && Refresh(ev, s) == s)
    && Core(p) && TargetsLive(p) && ReviewsAreDue(ev, p)
    && SortedBy(p, ByPlace(RanksOf(ev, p)))
    && (forall i :: 0 <= i < |p| ==> p[i].order == i)
    && (forall i :: 0 <= i < |p| ==> (p[i].status.Active? <==> i == FirstTeachable(p)))
  }

  // ---- A settled plan is a fixed point --------------------------------------------------

  lemma {:induction false} NothingDropped(status: map<KcId, Status>, steps: seq<Step>)
    requires forall s :: s in steps ==> !IsStale(status, s)
    ensures DropStale(status, steps) == steps
    decreases |steps|
  {
    if steps != [] {
      var init := steps[..|steps| - 1];
      NothingDropped(status, init);
      assert steps == init + [steps[|steps| - 1]];
    }
  }

  lemma LiveTargetsNotStale(steps: seq<Step>)
    requires Core(steps) && TargetsLive(steps)
    ensures forall s :: s in steps ==> !IsStale(NewStatus(steps), s)
  {
    forall s | s in steps && IsTethered(s)
      ensures !TargetGone(NewStatus(steps), s)
    {
      assert HasTarget(steps, s);
      var y :| y in steps && IsOpenNew(y) && s.detourFor == Some(y.kc);
      NewStatusHolds(steps, y);
    }
  }

  lemma {:induction false} NothingMissing(covered: set<KcId>, due: seq<KcId>)
    requires forall kc :: kc in due ==> kc in covered
    ensures MissingReviews(covered, due) == []
    decreases |due|
  {
    if due != [] {
      assert due[0] in due;
      NothingMissing(covered, due[1..]);
    }
  }

  lemma SettledGathers(ev: Evidence, p: seq<Step>)
    requires Settled(ev, p)
    ensures Gathered(ev, p, []) == p
  {
    assert CloseAll(ev, p) == p;
    LiveTargetsNotStale(p);
    NothingDropped(NewStatus(p), p);
    assert WithDetours(ev, p, []) == p;
    assert CloseUndueAll(Elements(ev.due), p) == p;
    CoveredMembers(p);
    NothingMissing(Covered(p), ev.due);
  }

  lemma SettledFinishes(ev: Evidence, p: seq<Step>)
    requires Settled(ev, p)
    ensures Finished(ev, p) == p
  {
    assert Renumber(p) == p;
    var d := DeactivateAll(p);
    forall i | 0 <= i < |p|
      ensures Shape(d[i]) == Shape(p[i])
    {
    }
    FirstTeachableByShape(d, p);
    assert ActivateFirst(d) == p;
    assert RefreshAll(ev, p) == p;
  }

  lemma SettledIsFixed(ev: Evidence, p: seq<Step>)
    requires Settled(ev, p)
    ensures Revised(ev, p, []) == p
  {
    SettledGathers(ev, p);
    SortedIsFixed(p, ByPlace(RanksOf(ev, p)));
    SettledFinishes(ev, p);
  }

  // ---- What a revision leaves has been decided by the evidence --------------------------

  /** The evidence has nothing more to say about this step. */
  predicate Decided(ev: Evidence, s: Step) {
    CloseByEvidence(ev, s) == s
  }

  /** A detour taken on the spot is not one the same evidence already disproves. */
  predicate Steady(ev: Evidence, t: Trigger) {
    t.reason.External? || ev.guidance.Exploration? || t.prereq !in ev.disproved
  }

  lemma {:induction false} InsertedDecided(ev: Evidence, status: map<KcId, Status>, steps: seq<Step>, triggers: seq<Trigger>)
    requires forall s :: s in steps ==> Decided(ev, s)
    requires forall t :: t in triggers ==> Steady(ev, t)
    ensures forall s :: s in InsertAll(ev, status, steps, triggers) ==> Decided(ev, s)
    decreases |triggers|
  {
    if triggers != [] {
      var init, t := triggers[..|triggers| - 1], triggers[|triggers| - 1];
      assert t in triggers;
      InsertedDecided(ev, status, steps, init);
    }
  }

  lemma GatheredDecided(ev: Evidence, steps: seq<Step>, triggers: seq<Trigger>)
    requires forall t :: t in triggers ==> Steady(ev, t)
    ensures forall s :: s in Gathered(ev, steps, triggers) ==> Decided(ev, s)
  {
    var a := CloseAll(ev, steps);
    DropStaleMembers(NewStatus(a), a);
    InsertedDecided(ev, NewStatus(a), Pruned(ev, steps), triggers);
    var c := WithDetours(ev, steps, triggers);
    var kept := CloseUndueAll(Elements(ev.due), c);
    MissingReviewsMembers(Covered(kept), ev.due);
    forall s | s in kept
      ensures Decided(ev, s)
    {
      var i :| 0 <= i < |kept| && kept[i] == s;
      assert c[i] in c;
    }
  }

  /** Whether the evidence would close a step does not depend on its order, hints or being the active one. */
  lemma SameShapeDecided(ev: Evidence, a: Step, b: Step)
    requires Shape(a) == Shape(b) && Decided(ev, a)
    ensures Decided(ev, b)
  {
    ShapeDecides(a, b);
  }

  lemma FinishedDecided(ev: Evidence, steps: seq<Step>)
    requires forall s :: s in steps ==> Decided(ev, s)
    ensures forall s :: s in Finished(ev, steps) ==> Decided(ev, s) && Refresh(ev, s) == s
  {
    var r := Finished(ev, steps);
    FinishedShapes(ev, steps);
    forall s | s in r
      ensures Decided(ev, s) && Refresh(ev, s) == s
    {
      var i :| 0 <= i < |r| && r[i] == s;
      assert steps[i] in steps && Shape(s) == Shape(steps[i]);
      SameShapeDecided(ev, steps[i], s);
    }
  }

  // ---- Steps that share an order --------------------------------------------------------

  /** The components whose steps detours are tethered to. */
  function Targets(steps: seq<Step>): set<KcId> {
    set s | s in steps && IsTethered(s) && s.detourFor.Some? :: s.detourFor.value
  }

  function Blocked(triggers: seq<Trigger>): set<KcId> {
    set t | t in triggers :: t.blocked
  }

  predicate IsTaught(s: Step) {
    IsOpenNew(s) && !s.status.Proposed?
  }

  /** `a`, in front, has the order of `b`, which a detour is tethered to: the sort cannot put the detour next to `b`. */
  function Overtaking(targets: set<KcId>): (Step, Step) -> bool {
    (a: Step, b: Step) => IsTaught(a) && IsTaught(b) && a.order == b.order && b.kc in targets
  }

  /** Of the open new steps with one order only the foremost has, or may be given, tethered detours. */
  ghost predicate Untangled(steps: seq<Step>, triggers: seq<Trigger>) {
    Apart(steps, Overtaking(Targets(steps) + Blocked(triggers)))
  }

  /** A plan without two new steps of one order, as any plan whose order is its position, is untangled. */
  lemma DistinctIsUntangled(steps: seq<Step>, triggers: seq<Trigger>)
    requires Apart(steps, SameOrder)
    ensures Untangled(steps, triggers)
  {
    forall i, j | 0 <= i < j < |steps|
      ensures !Overtaking(Targets(steps) + Blocked(triggers))(steps[i], steps[j])
    {
      assert !SameOrder(steps[i], steps[j]);
    }
  }

  lemma NumberedIsUntangled(steps: seq<Step>, triggers: seq<Trigger>)
    requires PlanOk(steps)
    ensures Untangled(steps, triggers)
  {
    DistinctIsUntangled(steps, triggers);
  }

  /** The arrivals of an extension share orders with open steps, but stand behind them and have no detours. */
  lemma ExtendedIsUntangled(steps: seq<Step>, order: seq<KcId>)
    requires PlanOk(steps) && forall s :: s in steps && s.stepType.New? ==> s.kc !in order
    ensures Untangled(steps + BuildInitialSteps(order), [])
  {
    var bare := BuildInitialSteps(order);
    var all := steps + bare;
    forall i, j | 0 <= i < j < |all|
      ensures !Overtaking(Targets(all) + Blocked([]))(all[i], all[j])
    {
      if |steps| <= j {
        NoneForArrivals(steps, order, all[j].kc);
      }
    }
  }

  lemma NoneForArrivals(steps: seq<Step>, order: seq<KcId>, kc: KcId)
    requires TargetsLive(steps) && kc in order
    requires forall s :: s in steps && s.stepType.New? ==> s.kc !in order
    ensures kc !in Targets(steps + BuildInitialSteps(order))
  {
    var all := steps + BuildInitialSteps(order);
    forall s | s in all && IsTethered(s) && s.detourFor.Some?
      ensures s.detourFor.value != kc
    {
      assert s in steps && HasTarget(steps, s);
    }
  }

  lemma CloseAllKeepsUntangled(ev: Evidence, steps: seq<Step>, targets: set<KcId>)
    requires Apart(steps, Overtaking(targets))
    ensures Apart(CloseAll(ev, steps), Overtaking(targets))
  {
    var a := CloseAll(ev, steps);
    forall i, j | 0 <= i < j < |a|
      ensures !Overtaking(targets)(a[i], a[j])
    {
      assert !Overtaking(targets)(steps[i], steps[j]);
    }
  }

  /** Adding steps that are not new ones tangles nothing. */
  lemma OthersKeepUntangled(steps: seq<Step>, more: seq<Step>, targets: set<KcId>)
    requires Apart(steps, Overtaking(targets)) && forall s :: s in more ==> !s.stepType.New?
    ensures Apart(steps + more, Overtaking(targets))
  {
    var all := steps + more;
    forall i, j | 0 <= i < j < |all|
      ensures !Overtaking(targets)(all[i], all[j])
    {
      if |steps| <= j {
        assert all[j] in more;
      }
    }
  }

  lemma {:induction false} InsertedKeepsUntangled(
    ev: Evidence, status: map<KcId, Status>, steps: seq<Step>, triggers: seq<Trigger>, targets: set<KcId>)
    requires Apart(steps, Overtaking(targets))
    ensures Apart(InsertAll(ev, status, steps, triggers), Overtaking(targets))
    decreases |triggers|
  {
    if triggers != [] {
      var init, t := triggers[..|triggers| - 1], triggers[|triggers| - 1];
      InsertedKeepsUntangled(ev, status, steps, init, targets);
      OthersKeepUntangled(InsertAll(ev, status, steps, init), [DetourStep(ev, t)], targets);
    }
  }

  lemma ReviewsKeepUntangled(ev: Evidence, steps: seq<Step>, targets: set<KcId>)
    requires Apart(steps, Overtaking(targets))
    ensures Apart(WithReviews(ev, steps), Overtaking(targets))
  {
    var kept := CloseUndueAll(Elements(ev.due), steps);
    forall i, j | 0 <= i < j < |kept|
      ensures !Overtaking(targets)(kept[i], kept[j])
    {
      assert !Overtaking(targets)(steps[i], steps[j]);
    }
    MissingReviewsMembers(Covered(kept), ev.due);
    OthersKeepUntangled(kept, MissingReviews(Covered(kept), ev.due), targets);
  }

  lemma GatheredKeepsUntangled(ev: Evidence, steps: seq<Step>, triggers: seq<Trigger>, targets: set<KcId>)
    requires Apart(steps, Overtaking(targets))
    ensures Apart(Gathered(ev, steps, triggers), Overtaking(targets))
  {
    var status := NewStatus(CloseAll(ev, steps));
    CloseAllKeepsUntangled(ev, steps, targets);
    DropStaleKeepsApart(status, CloseAll(ev, steps), Overtaking(targets));
    InsertedKeepsUntangled(ev, status, Pruned(ev, steps), triggers, targets);
    ReviewsKeepUntangled(ev, WithDetours(ev, steps, triggers), targets);
  }

  lemma {:induction false} InsertedTargets(ev: Evidence, status: map<KcId, Status>, steps: seq<Step>, triggers: seq<Trigger>)
    ensures Targets(InsertAll(ev, status, steps, triggers)) <= Targets(steps) + Blocked(triggers)
    decreases |triggers|
  {
    if triggers != [] {
      var init, t := triggers[..|triggers| - 1], triggers[|triggers| - 1];
      InsertedTargets(ev, status, steps, init);
      var before, after := InsertAll(ev, status, steps, init), InsertAll(ev, status, steps, triggers);
      assert t in triggers && Blocked(init) <= Blocked(triggers);
      forall s | s in after && IsTethered(s) && s.detourFor.Some?
        ensures s.detourFor.value in Targets(steps) + Blocked(triggers)
      {
        assert s in before || s == DetourStep(ev, t);
        assert s in before ==> s.detourFor.value in Targets(before);
      }
    }
  }

  lemma PrunedTargets(ev: Evidence, steps: seq<Step>)
    ensures Targets(Pruned(ev, steps)) <= Targets(steps)
  {
    var a := CloseAll(ev, steps);
    DropStaleMembers(NewStatus(a), a);
    forall s | s in Pruned(ev, steps) && IsTethered(s)
      ensures s in steps
    {
      var i :| 0 <= i < |a| && a[i] == s;
      assert steps[i] == s;
    }
  }

  lemma ReviewTargets(ev: Evidence, steps: seq<Step>)
    ensures Targets(WithReviews(ev, steps)) <= Targets(steps)
  {
    var kept := CloseUndueAll(Elements(ev.due), steps);
    MissingReviewsMembers(Covered(kept), ev.due);
    forall s | s in WithReviews(ev, steps) && IsTethered(s)
      ensures s in steps
    {
      assert s in kept;
      var i :| 0 <= i < |kept| && kept[i] == s;
      assert steps[i] == s;
    }
  }

  /** No step gets a tethered detour but those that had one and those the triggers are for. */
  lemma GatheredTargets(ev: Evidence, steps: seq<Step>, triggers: seq<Trigger>)
    ensures Targets(Gathered(ev, steps, triggers)) <= Targets(steps) + Blocked(triggers)
  {
    PrunedTargets(ev, steps);
    InsertedTargets(ev, NewStatus(CloseAll(ev, steps)), Pruned(ev, steps), triggers);
    ReviewTargets(ev, WithDetours(ev, steps, triggers));
  }

  lemma FewerTargets(steps: seq<Step>, few: set<KcId>, more: set<KcId>)
    requires few <= more && Apart(steps, Overtaking(more))
    ensures Apart(steps, Overtaking(few))
  {
    forall i, j | 0 <= i < j < |steps|
      ensures !Overtaking(few)(steps[i], steps[j])
    {
      assert !Overtaking(more)(steps[i], steps[j]);
    }
  }

  /** The stable sort leaves steps of one order as they stood. */
  lemma SortKeepsUntangled(ev: Evidence, d: seq<Step>, targets: set<KcId>)
    requires Apart(d, Overtaking(targets))
    ensures Apart(Sorted(ev, d), Overtaking(targets)) && Targets(Sorted(ev, d)) == Targets(d)
  {
    SortKeepsApart(d, ByPlace(RanksOf(ev, d)), Overtaking(targets));
    var t := Sorted(ev, d);
    assert forall x :: x in t <==> x in multiset(t);
    assert forall x :: x in d <==> x in multiset(d);
  }

  lemma SortedIsUntangled(ev: Evidence, steps: seq<Step>, triggers: seq<Trigger>)
    requires Untangled(steps, triggers)
    ensures var t := Sorted(ev, Gathered(ev, steps, triggers)); Apart(t, Overtaking(Targets(t)))
  {
    var all, d := Targets(steps) + Blocked(triggers), Gathered(ev, steps, triggers);
    GatheredKeepsUntangled(ev, steps, triggers, all);
    GatheredTargets(ev, steps, triggers);
    SortKeepsUntangled(ev, d, all);
    FewerTargets(Sorted(ev, d), Targets(d), all);
  }

  // ---- The order a revision leaves is the order the next one asks for -------------------

  lemma {:induction false} NewOrderHolds(steps: seq<Step>, s: Step)
    requires Apart(steps, Clash) && s in steps && s.stepType.New?
    ensures s.kc in NewOrder(steps) && NewOrder(steps)[s.kc] == s.order
    decreases |steps|
  {
    var init, last := steps[..|steps| - 1], steps[|steps| - 1];
    if s != last {
      var i :| 0 <= i < |steps| && steps[i] == s;
      assert init[i] == s;
      assert !Clash(steps[i], steps[|steps| - 1]);
      NewOrderHolds(init, s);
    }
  }

  /** Where the target of `t[i]` stands, or `i` itself for a step that stands on its own. */
  ghost function Anchor(t: seq<Step>, i: nat): (b: nat)
    requires i < |t| && TargetsLive(t)
    ensures b < |t|
    ensures IsTethered(t[i]) ==> IsOpenNew(t[b]) && t[i].detourFor == Some(t[b].kc)
    ensures !IsTethered(t[i]) ==> b == i
  {
    if IsTethered(t[i]) then
      assert t[i] in t && HasTarget(t, t[i]);
      var y :| y in t && IsOpenNew(y) && t[i].detourFor == Some(y.kc);
      var b :| 0 <= b < |t| && t[b] == y;
      b
    else i
  }

  /** The sorting key of a step, spelt out through its anchor. */
  lemma KeyByAnchor(r: Ranks, source: seq<Step>, t: seq<Step>, i: nat)
    requires Core(source) && Core(t) && TargetsLive(t) && i < |t|
    requires forall x :: x in t ==> x in source
    requires r.newOrder == NewOrder(source)
    ensures PlaceKey(r, t[i]).major == Bucket(t[i])
    ensures Bucket(t[i]) in {0, 3} ==> PlaceKey(r, t[i]) == Key(Bucket(t[i]), t[i].order, 0)
    ensures Bucket(t[i]) == 2 ==>
      PlaceKey(r, t[i]) == Key(2, t[Anchor(t, i)].order, if IsTethered(t[i]) then 0 else 1)
    ensures Bucket(t[i]) == 2 ==> IsOpenNew(t[Anchor(t, i)])
  {
    assert t[i] in t && StepOk(t[i]);
    var b := Anchor(t, i);
    if IsTethered(t[i]) {
      assert t[b] in t;
      NewOrderHolds(source, t[b]);
    }
  }

  /** Open new steps stand in the order of their old places, one with a tethered detour first of its order. */
  ghost predicate Ascending(t: seq<Step>) {
    forall x, y :: 0 <= x < y < |t| && IsOpenNew(t[x]) && IsOpenNew(t[y])
      ==> t[x].order <= t[y].order && (t[x].order == t[y].order ==> t[y].kc !in Targets(t))
  }

  /** If two steps were in order by their old places, they are in order by their new ones. */
  lemma StaysInOrder(t: seq<Step>, i: nat, j: nat)
    requires i < j < |t| && TargetsLive(t) && Core(t) && Ascending(t)
    requires Bucket(t[i]) == 2 && Bucket(t[j]) == 2
    requires IsOpenNew(t[Anchor(t, i)]) && IsOpenNew(t[Anchor(t, j)])
    requires var a, b := Anchor(t, i), Anchor(t, j);
             || t[a].order < t[b].order
             || (t[a].order == t[b].order && (IsTethered(t[i]) || !IsTethered(t[j])))
    ensures var a, b := Anchor(t, i), Anchor(t, j);
            a < b || (a == b && (IsTethered(t[i]) || !IsTethered(t[j])))
  {
    var a := Anchor(t, i);
    assert t[i] in t;
    assert IsTethered(t[i]) ==> t[a].kc in Targets(t);
  }

  lemma NewStepsAscend(r: Ranks, t: seq<Step>)
    requires SortedBy(t, ByPlace(r)) && Core(t) && Apart(t, Overtaking(Targets(t)))
    ensures Ascending(t)
  {
    forall x, y | 0 <= x < y < |t| && IsOpenNew(t[x]) && IsOpenNew(t[y])
      ensures t[x].order <= t[y].order && (t[x].order == t[y].order ==> t[y].kc !in Targets(t))
    {
      var key := ByPlace(r);
      assert t[x] in t && t[y] in t;
      assert Leq(key(t[x]), key(t[y]));
      assert !Overtaking(Targets(t))(t[x], t[y]);
    }
  }

  lemma FinishedSorted(ev: Evidence, source: seq<Step>, t: seq<Step>)
    requires Core(source) && Core(t) && TargetsLive(t) && ReviewsAreDue(ev, t) && Apart(t, Overtaking(Targets(t)))
    requires forall x :: x in t ==> x in source
    requires SortedBy(t, ByPlace(RanksOf(ev, source)))
    ensures SortedBy(Finished(ev, t), ByPlace(RanksOf(ev, Finished(ev, t))))
  {
    var r := Finished(ev, t);
    FinishedKeeps(ev, t);
    NewStepsAscend(RanksOf(ev, source), t);
    forall i, j | 0 <= i < j < |r|
      ensures Leq(PlaceKey(RanksOf(ev, r), r[i]), PlaceKey(RanksOf(ev, r), r[j]))
    {
      PairSorted(ev, source, t, i, j);
    }
  }

  lemma PairSorted(ev: Evidence, source: seq<Step>, t: seq<Step>, i: nat, j: nat)
    requires Core(source) && Core(t) && TargetsLive(t)
    requires forall x :: x in t ==> x in source
    requires SortedBy(t, ByPlace(RanksOf(ev, source)))
    requires Ascending(t) && i < j < |t| && PlanOk(Finished(ev, t))
    ensures Leq(PlaceKey(RanksOf(ev, Finished(ev, t)), Finished(ev, t)[i]),
                PlaceKey(RanksOf(ev, Finished(ev, t)), Finished(ev, t)[j]))
  {
    var r := Finished(ev, t);
    var before, after := RanksOf(ev, source), RanksOf(ev, r);
    FinishedShapes(ev, t);
    ShapeDecides(r[i], t[i]);
    ShapeDecides(r[j], t[j]);
    assert Leq(ByPlace(before)(t[i]), ByPlace(before)(t[j]));
    if Bucket(t[i]) == 2 && Bucket(t[j]) == 2 {
      OpenPairSorted(ev, source, t, i, j);
    } else {
      KeyByAnchor(before, source, t, i);
      KeyByAnchor(before, source, t, j);
      KeyByAnchor(after, r, r, i);
      KeyByAnchor(after, r, r, j);
    }
  }

  /** The same for two steps among the new ones and their offers. */
  lemma OpenPairSorted(ev: Evidence, source: seq<Step>, t: seq<Step>, i: nat, j: nat)
    requires Core(source) && Core(t) && TargetsLive(t) && forall x :: x in t ==> x in source
    requires Ascending(t) && i < j < |t| && PlanOk(Finished(ev, t)) && Bucket(t[i]) == 2 && Bucket(t[j]) == 2
    requires Leq(PlaceKey(RanksOf(ev, source), t[i]), PlaceKey(RanksOf(ev, source), t[j]))
    ensures |Finished(ev, t)| == |t|
    ensures Leq(PlaceKey(RanksOf(ev, Finished(ev, t)), Finished(ev, t)[i]),
                PlaceKey(RanksOf(ev, Finished(ev, t)), Finished(ev, t)[j]))
  {
    var r := Finished(ev, t);
    FinishedShapes(ev, t);
    ShapeDecides(r[i], t[i]);
    ShapeDecides(r[j], t[j]);
    AnchorByShape(ev, t, i);
    AnchorByShape(ev, t, j);
    OldKeysInOrder(RanksOf(ev, source), source, t, i, j);
    KeyByAnchor(RanksOf(ev, r), r, r, i);
    KeyByAnchor(RanksOf(ev, r), r, r, j);
  }

  lemma OldKeysInOrder(before: Ranks, source: seq<Step>, t: seq<Step>, i: nat, j: nat)
    requires Core(source) && Core(t) && TargetsLive(t) && forall x :: x in t ==> x in source
    requires before.newOrder == NewOrder(source)
    requires Ascending(t) && i < j < |t| && Bucket(t[i]) == 2 && Bucket(t[j]) == 2
    requires Leq(PlaceKey(before, t[i]), PlaceKey(before, t[j]))
    ensures var a, b := Anchor(t, i), Anchor(t, j);
            a < b || (a == b && (IsTethered(t[i]) || !IsTethered(t[j])))
  {
    KeyByAnchor(before, source, t, i);
    KeyByAnchor(before, source, t, j);
    StaysInOrder(t, i, j);
  }

  /** A component has one new step. */
  lemma OnePlace(t: seq<Step>, a: nat, b: nat)
    requires Core(t) && a < |t| && b < |t| && t[a].stepType.New? && t[b].stepType.New? && t[a].kc == t[b].kc
    ensures a == b
  {
  }

  lemma AnchorByShape(ev: Evidence, t: seq<Step>, i: nat)
    requires i < |t| && TargetsLive(t) && PlanOk(Finished(ev, t))
    ensures |Finished(ev, t)| == |t| && Anchor(Finished(ev, t), i) == Anchor(t, i)
  {
    var r := Finished(ev, t);
    FinishedShapes(ev, t);
    ShapeDecides(r[i], t[i]);
    var a, b := Anchor(r, i), Anchor(t, i);
    ShapeDecides(r[b], t[b]);
    if IsTethered(t[i]) {
      OnePlace(r, a, b);
    }
  }

  // ---- The theorem ----------------------------------------------------------------------

  lemma RevisedIsSettled(ev: Evidence, steps: seq<Step>, triggers: seq<Trigger>)
    requires Core(steps) && Untangled(steps, triggers)
    requires forall t :: t in triggers ==> WellAimed(ev, steps, t) && Steady(ev, t)
    ensures Settled(ev, Revised(ev, steps, triggers))
  {
    var d := Gathered(ev, steps, triggers);
    var t := Sorted(ev, d);
    GatheredKeeps(ev, steps, triggers);
    GatheredDecided(ev, steps, triggers);
    SortedKeeps(ev, d);
    SameMembersKeep(ev, d, t);
    StableSortSorts(d, ByPlace(RanksOf(ev, d)));
    FinishedDecided(ev, t);
    FinishedKeeps(ev, t);
    SortedIsUntangled(ev, steps, triggers);
    FinishedSorted(ev, d, t);
  }

  /** What an extension leaves is settled too, although its arrivals are numbered from zero again. */
  lemma ExtendedIsSettled(ev: Evidence, steps: seq<Step>, order: seq<KcId>)
    requires PlanOk(steps) && NoDuplicates(order)
    requires forall s :: s in steps && s.stepType.New? ==> s.kc !in order
    ensures Settled(ev, Revised(ev, steps + BuildInitialSteps(order), []))
  {
    ExtendedKeepsCore(steps, order);
    ExtendedIsUntangled(steps, order);
    RevisedIsSettled(ev, steps + BuildInitialSteps(order), []);
  }

  /**
    Revising is idempotent: whatever a revision left, a second one on the same evidence and
    without a fresh trigger leaves exactly as it is.
   */
  lemma RevisingTwiceIsRevisingOnce(ev: Evidence, steps: seq<Step>, triggers: seq<Trigger>)
    requires Core(steps) && Untangled(steps, triggers)
    requires forall t :: t in triggers ==> WellAimed(ev, steps, t) && Steady(ev, t)
    ensures Revised(ev, Revised(ev, steps, triggers), []) == Revised(ev, steps, triggers)
  {
    RevisedIsSettled(ev, steps, triggers);
    SettledIsFixed(ev, Revised(ev, steps, triggers));
  }

  /** An open new step left by a revision was open before it and is not mastered. */
  lemma OpenNewIsOld(ev: Evidence, steps: seq<Step>, triggers: seq<Trigger>, y: Step)
    requires y in Revised(ev, steps, triggers) && IsOpenNew(y)
    ensures y.kc !in ev.mastered && exists x :: x in steps && IsOpenNew(x) && x.kc == y.kc
  {
    var x := GatheredAs(ev, steps, triggers, y);
    ShapeDecides(y, x);
    GatheredNewIsOld(ev, steps, triggers, x);
  }

  /** What a revised step was before the sort and the final passes. */
  lemma GatheredAs(ev: Evidence, steps: seq<Step>, triggers: seq<Trigger>, y: Step) returns (x: Step)
    requires y in Revised(ev, steps, triggers)
    ensures x in Gathered(ev, steps, triggers) && Shape(x) == Shape(y)
  {
    var t := Sorted(ev, Gathered(ev, steps, triggers));
    FinishedShapes(ev, t);
    var i :| 0 <= i < |t| && Finished(ev, t)[i] == y;
    x := t[i];
    assert x in multiset(t);
  }

  lemma GatheredNewIsOld(ev: Evidence, steps: seq<Step>, triggers: seq<Trigger>, y: Step)
    requires y in Gathered(ev, steps, triggers) && IsOpenNew(y)
    ensures y.kc !in ev.mastered && exists x :: x in steps && IsOpenNew(x) && x.kc == y.kc
  {
    var c := WithDetours(ev, steps, triggers);
    var kept := CloseUndueAll(Elements(ev.due), c);
    MissingReviewsMembers(Covered(kept), ev.due);
    assert y in kept;
    var j :| 0 <= j < |kept| && kept[j] == y;
    var a := CloseAll(ev, steps);
    InsertedNewIsOld(ev, NewStatus(a), Pruned(ev, steps), triggers, c[j]);
    DropStaleMembers(NewStatus(a), a);
    var k :| 0 <= k < |a| && a[k] == c[j];
    assert steps[k] in steps;
  }

  lemma {:induction false} InsertedNewIsOld(
    ev: Evidence, status: map<KcId, Status>, steps: seq<Step>, triggers: seq<Trigger>, y: Step)
    requires y in InsertAll(ev, status, steps, triggers) && y.stepType.New?
    ensures y in steps
    decreases |triggers|
  {
    if triggers != [] {
      InsertedNewIsOld(ev, status, steps, triggers[..|triggers| - 1], y);
    }
  }

  /**
    An offer that was inserted survives the next revision exactly when it was made for an open
    new step the revision did not finish; otherwise it is dropped again at once.
   */
  lemma OfferSurvivesExactlyWhenAimed(ev: Evidence, steps: seq<Step>, t: Trigger)
    requires PlanOk(steps) && ev.guidance.Exploration? && !t.reason.External?
    requires !Refuses(ev, NewStatus(CloseAll(ev, steps)), Pruned(ev, steps), t)
    ensures Revised(ev, Revised(ev, steps, [t]), []) == Revised(ev, steps, [t]) <==> WellAimed(ev, steps, t)
  {
    var r := Revised(ev, steps, [t]);
    if WellAimed(ev, steps, t) {
      NumberedIsUntangled(steps, [t]);
      RevisingTwiceIsRevisingOnce(ev, steps, [t]);
    } else {
      RevisionKeepsCore(ev, steps, [t]);
      RevisionEstablishes(ev, r, []);
      var x := OfferIsThere(ev, steps, t);
      forall y | y in r && IsOpenNew(y)
        ensures x.detourFor != Some(y.kc)
      {
        OpenNewIsOld(ev, steps, [t], y);
      }
      assert !HasTarget(r, x);
      assert !TargetsLive(r);
    }
  }

  lemma OfferIsThere(ev: Evidence, steps: seq<Step>, t: Trigger) returns (x: Step)
    requires ev.guidance.Exploration?
    requires !Refuses(ev, NewStatus(CloseAll(ev, steps)), Pruned(ev, steps), t)
    ensures x in Revised(ev, steps, [t]) && IsTethered(x) && x.detourFor == Some(t.blocked)
  {
    var d := DetourStep(ev, t);
    var status := NewStatus(CloseAll(ev, steps));
    assert [t][..|[t]| - 1] == [];
    assert InsertAll(ev, status, Pruned(ev, steps), [t][..|[t]| - 1]) == Pruned(ev, steps);
    assert WithDetours(ev, steps, [t]) == Pruned(ev, steps) + [d];
    var c := WithDetours(ev, steps, [t]);
    var kept := CloseUndueAll(Elements(ev.due), c);
    assert kept[|c| - 1] == d;
    var g := Gathered(ev, steps, [t]);
    assert g[|c| - 1] == d;
    assert d in multiset(Sorted(ev, g));
    var i :| 0 <= i < |Sorted(ev, g)| && Sorted(ev, g)[i] == d;
    FinishedShapes(ev, Sorted(ev, g));
    x := Finished(ev, Sorted(ev, g))[i];
    ShapeDecides(x, d);
  }

  // ---- An extension, on the evidence before it -------------------------------------------

  /** What is mastered or disproved aside, the two ask for the same. */
  predicate AskAlike(ev: Evidence, other: Evidence) {
    other == ev.(mastered := other.mastered, disproved := other.disproved)
  }

  /** Closing by more evidence what less has already decided leaves it decided. */
  lemma GatheredStaysDecided(ev: Evidence, more: Evidence, steps: seq<Step>)
    requires forall s :: s in steps ==> Decided(ev, s)
    ensures forall s :: s in Gathered(more, steps, []) ==> Decided(ev, s)
  {
    var a := CloseAll(more, steps);
    DropStaleMembers(NewStatus(a), a);
    forall s | s in WithDetours(more, steps, [])
      ensures Decided(ev, s)
    {
      var i :| 0 <= i < |a| && a[i] == s;
      assert steps[i] in steps;
    }
    ReviewsStayDecided(ev, more, WithDetours(more, steps, []));
  }

  lemma ReviewsStayDecided(ev: Evidence, more: Evidence, steps: seq<Step>)
    requires forall s :: s in steps ==> Decided(ev, s)
    ensures forall s :: s in WithReviews(more, steps) ==> Decided(ev, s)
  {
    var kept := CloseUndueAll(Elements(more.due), steps);
    MissingReviewsMembers(Covered(kept), more.due);
    forall s | s in kept
      ensures Decided(ev, s)
    {
      var i :| 0 <= i < |kept| && kept[i] == s;
      assert steps[i] in steps;
    }
  }

  lemma RevisedStaysDecided(ev: Evidence, more: Evidence, steps: seq<Step>)
    requires forall s :: s in steps ==> Decided(ev, s)
    ensures forall s :: s in Revised(more, steps, []) ==> Decided(ev, s)
  {
    GatheredStaysDecided(ev, more, steps);
    forall y | y in Revised(more, steps, [])
      ensures Decided(ev, y)
    {
      var x := GatheredAs(more, steps, [], y);
      SameShapeDecided(ev, x, y);
    }
  }

  /** Settled on the evidence of the second pass and decided by that of the first, a plan is settled on the first. */
  lemma SettledOnBoth(ev: Evidence, more: Evidence, p: seq<Step>)
    requires AskAlike(more, ev) && Settled(more, p) && forall s :: s in p ==> Decided(ev, s)
    ensures Settled(ev, p)
  {
    assert RanksOf(ev, p) == RanksOf(more, p);
    forall s | s in p
      ensures Refresh(ev, s) == s
    {
      assert Refresh(more, s) == s;
    }
  }

  /** Once extended, the plan is left alone by a revision on the evidence it was revised on. */
  lemma ExtendedStays(ev: Evidence, more: Evidence, revised: seq<Step>, ext: seq<KcId>)
    requires AskAlike(more, ev) && Settled(ev, revised) && PlanOk(revised) && NoDuplicates(ext)
    requires forall s :: s in revised && s.stepType.New? ==> s.kc !in ext
    requires forall kc :: kc in ext ==> kc !in ev.mastered
    ensures var p := Revised(more, revised + BuildInitialSteps(ext), []); Revised(ev, p, []) == p
  {
    var all := revised + BuildInitialSteps(ext);
    var p := Revised(more, all, []);
    forall s | s in all
      ensures Decided(ev, s)
    {
      if s !in revised {
        assert s in BuildInitialSteps(ext) && s.kc in ext;
      }
    }
    RevisedStaysDecided(ev, more, all);
    ExtendedIsSettled(more, revised, ext);
    SettledOnBoth(ev, more, p);
    SettledIsFixed(ev, p);
  }
}
