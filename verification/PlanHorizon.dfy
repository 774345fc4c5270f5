/** Windowing the objective, and the order new steps are taught in (`horizon_extension`). */
module PlanHorizon {
  import opened Distinctness
  import opened Ids
  import opened PlanInvariants
  import opened PlanRevision
  import opened PlanSteps
  import opened Sorting
  import opened Wrappers

  // ---- `horizon_extension` --------------------------------------------------------------

  function Planned(steps: seq<Step>): set<KcId> {
    set i | 0 <= i < |steps| && steps[i].stepType.New? :: steps[i].kc
  }

  function OpenCount(steps: seq<Step>): nat {
    if steps == [] then 0
    else OpenCount(steps[..|steps| - 1]) + (if steps[|steps| - 1].stepType.New? && !steps[|steps| - 1].status.Done? then 1 else 0)
  }

  function Unplanned(objective: seq<KcId>, planned: set<KcId>): seq<KcId> {
    if objective == [] then []
    else (if objective[0] in planned then [] else [objective[0]]) + Unplanned(objective[1..], planned)
  }

  /** As much of the unplanned objective, from its front, as the cap leaves room for. */
  function HorizonExtension(objective: seq<KcId>, steps: seq<Step>, maxOpenSteps: int): seq<KcId> {
    var room := maxOpenSteps - OpenCount(steps);
    if room <= 0 then []
    else
      var rest := Unplanned(objective, Planned(steps));
      if room < |rest| then rest[..room] else rest
  }

  // ---- What a revision does to the new steps --------------------------------------------

  /** The steps of a plan that satisfy a test, in plan order. */
  ghost function Those(steps: seq<Step>, test: Step -> bool): seq<Step> {
    if steps == [] then []
    else if test(steps[0]) then [steps[0]] + Those(steps[1..], test)
    else Those(steps[1..], test)
  }

  /** The open new steps, in plan order. */
  ghost function OpenNews(steps: seq<Step>): seq<Step> {
    Those(steps, IsOpenNew)
  }

  ghost function Kcs(steps: seq<Step>): seq<KcId> {
    seq(|steps|, i requires 0 <= i < |steps| => steps[i].kc)
  }

  function Unmastered(ev: Evidence): Step -> bool {
    (s: Step) => s.kc !in ev.mastered
  }

  lemma {:induction false} ThoseSplit(a: seq<Step>, b: seq<Step>, test: Step -> bool)
    ensures Those(a + b, test) == Those(a, test) + Those(b, test)
    decreases |a|
  {
    if a == [] {
      assert a + b == b;
    } else {
      assert (a + b)[1..] == a[1..] + b;
      ThoseSplit(a[1..], b, test);
    }
  }

  lemma {:induction false} ThoseMembers(steps: seq<Step>, test: Step -> bool)
    ensures forall x :: x in Those(steps, test) <==> x in steps && test(x)
    decreases |steps|
  {
    if steps != [] {
      ThoseMembers(steps[1..], test);
      HeadAndTail(steps);
    }
  }

  lemma {:induction false} ThoseApart(steps: seq<Step>, test: Step -> bool, clash: (Step, Step) -> bool)
    requires Apart(steps, clash)
    ensures Apart(Those(steps, test), clash)
    decreases |steps|
  {
    if steps != [] {
      ThoseApart(steps[1..], test, clash);
      ThoseMembers(steps[1..], test);
      var rest := Those(steps[1..], test);
      forall j | 0 <= j < |rest|
        ensures !clash(steps[0], rest[j])
      {
        assert rest[j] in steps[1..];
      }
    }
  }

  lemma {:induction false} ThoseSorted(steps: seq<Step>, test: Step -> bool, key: Step -> Key)
    requires SortedBy(steps, key)
    ensures SortedBy(Those(steps, test), key)
    decreases |steps|
  {
    if steps != [] {
      ThoseSorted(steps[1..], test, key);
      ThoseMembers(steps[1..], test);
      var rest := Those(steps[1..], test);
      forall j | 0 <= j < |rest|
        ensures Leq(key(steps[0]), key(rest[j]))
      {
        assert rest[j] in steps[1..];
      }
    }
  }

  lemma ThoseCons(x: Step, s: seq<Step>, test: Step -> bool)
    ensures Those([x] + s, test) == if test(x) then [x] + Those(s, test) else Those(s, test)
  {
    assert ([x] + s)[1..] == s;
  }

  lemma InsertBehind(x: Step, y: Step, s: seq<Step>, key: Step -> Key)
    requires !Leq(key(x), key(y))
    ensures Insert(x, [y] + s, key) == [y] + Insert(x, s, key)
  {
    assert ([y] + s)[1..] == s;
  }

  lemma InsertInFront(x: Step, s: seq<Step>, key: Step -> Key)
    requires forall y :: y in s ==> Leq(key(x), key(y))
    ensures Insert(x, s, key) == [x] + s
  {
    if s != [] {
      assert s[0] in s;
    }
  }

  lemma {:induction false} ThoseOfInsert(x: Step, s: seq<Step>, key: Step -> Key, test: Step -> bool)
    requires SortedBy(s, key)
    ensures Those(Insert(x, s, key), test) == if test(x) then Insert(x, Those(s, test), key) else Those(s, test)
    decreases |s|
  {
    if s == [] || Leq(key(x), key(s[0])) {
      ThoseCons(x, s, test);
      ThoseMembers(s, test);
      forall y | y in s
        ensures Leq(key(x), key(y))
      {
        var i :| 0 <= i < |s| && s[i] == y;
        assert i == 0 || Leq(key(s[0]), key(s[i]));
      }
      InsertInFront(x, Those(s, test), key);
    } else {
      ThoseOfInsert(x, s[1..], key, test);
      ThoseCons(s[0], Insert(x, s[1..], key), test);
      InsertBehind(x, s[0], Those(s[1..], test), key);
    }
  }

  /** Picking steps out of a sorted plan is sorting the steps picked out. */
  lemma {:induction false} ThoseOfSort(s: seq<Step>, key: Step -> Key, test: Step -> bool)
    ensures Those(StableSort(s, key), test) == StableSort(Those(s, test), key)
    decreases |s|
  {
    if s != [] {
      ThoseOfSort(s[1..], key, test);
      StableSortSorts(s[1..], key);
      ThoseOfInsert(s[0], StableSort(s[1..], key), key, test);
      var rest := Those(s[1..], test);
      assert ([s[0]] + rest)[1..] == rest;
    }
  }

  lemma {:induction false} ThoseOfDropStale(status: map<KcId, Status>, steps: seq<Step>)
    ensures OpenNews(DropStale(status, steps)) == OpenNews(steps)
    decreases |steps|
  {
    if steps != [] {
      var init, last := steps[..|steps| - 1], steps[|steps| - 1];
      ThoseOfDropStale(status, init);
      assert steps == init + [last];
      ThoseSplit(init, [last], IsOpenNew);
      ThoseSplit(DropStale(status, init), [last], IsOpenNew);
      assert IsStale(status, last) ==> OpenNews([last]) == [];
    }
  }

  lemma {:induction false} ThoseOfInserted(ev: Evidence, status: map<KcId, Status>, steps: seq<Step>, triggers: seq<Trigger>)
    ensures OpenNews(InsertAll(ev, status, steps, triggers)) == OpenNews(steps)
    decreases |triggers|
  {
    if triggers != [] {
      var init, t := triggers[..|triggers| - 1], triggers[|triggers| - 1];
      ThoseOfInserted(ev, status, steps, init);
      ThoseSplit(InsertAll(ev, status, steps, init), [DetourStep(ev, t)], IsOpenNew);
    }
  }

  lemma {:induction false} ThoseOfNone(steps: seq<Step>, test: Step -> bool)
    requires forall s :: s in steps ==> !test(s)
    ensures Those(steps, test) == []
    decreases |steps|
  {
    if steps != [] {
      assert steps[0] in steps;
      ThoseOfNone(steps[1..], test);
    }
  }

  lemma {:induction false} ThoseOfClosed(ev: Evidence, steps: seq<Step>)
    ensures OpenNews(CloseAll(ev, steps)) == Those(OpenNews(steps), Unmastered(ev))
    decreases |steps|
  {
    if steps != [] {
      ThoseOfClosed(ev, steps[1..]);
      assert CloseAll(ev, steps)[1..] == CloseAll(ev, steps[1..]);
      if IsOpenNew(steps[0]) {
        ThoseCons(steps[0], OpenNews(steps[1..]), Unmastered(ev));
      }
    }
  }

  lemma {:induction false} ThoseOfUndue(due: set<KcId>, steps: seq<Step>)
    ensures OpenNews(CloseUndueAll(due, steps)) == OpenNews(steps)
    decreases |steps|
  {
    if steps != [] {
      ThoseOfUndue(due, steps[1..]);
      assert CloseUndueAll(due, steps)[1..] == CloseUndueAll(due, steps[1..]);
    }
  }

  lemma ThoseOfGathered(ev: Evidence, steps: seq<Step>, triggers: seq<Trigger>)
    ensures OpenNews(Gathered(ev, steps, triggers)) == Those(OpenNews(steps), Unmastered(ev))
  {
    var a := CloseAll(ev, steps);
    var status := NewStatus(a);
    ThoseOfClosed(ev, steps);
    ThoseOfDropStale(status, a);
    ThoseOfInserted(ev, status, DropStale(status, a), triggers);
    var c := WithDetours(ev, steps, triggers);
    var kept := CloseUndueAll(Elements(ev.due), c);
    ThoseOfUndue(Elements(ev.due), c);
    MissingReviewsMembers(Covered(kept), ev.due);
    ThoseOfNone(MissingReviews(Covered(kept), ev.due), IsOpenNew);
    ThoseSplit(kept, MissingReviews(Covered(kept), ev.due), IsOpenNew);
  }

  lemma {:induction false} ThoseByShape(s: seq<Step>, t: seq<Step>)
    requires |s| == |t| && forall i :: 0 <= i < |s| ==> Shape(s[i]) == Shape(t[i])
    ensures Kcs(OpenNews(s)) == Kcs(OpenNews(t))
    decreases |s|
  {
    if s != [] {
      ShapeDecides(s[0], t[0]);
      ThoseByShape(s[1..], t[1..]);
      if IsOpenNew(s[0]) {
        KcsOfJoin([s[0]], OpenNews(s[1..]));
        KcsOfJoin([t[0]], OpenNews(t[1..]));
        assert Kcs([s[0]]) == Kcs([t[0]]);
      }
    }
  }

  lemma KcsOfJoin(a: seq<Step>, b: seq<Step>)
    ensures Kcs(a + b) == Kcs(a) + Kcs(b)
  {
  }

  /** Open new steps sort by their old order alone. */
  function ByOrder(): Step -> Key {
    (s: Step) => Key(2, s.order, 1)
  }

  lemma {:induction false} SameKeysSameSort(s: seq<Step>, one: Step -> Key, other: Step -> Key)
    requires forall x :: x in s ==> one(x) == other(x)
    ensures StableSort(s, one) == StableSort(s, other)
    decreases |s|
  {
    if s != [] {
      HeadAndTail(s);
      SameKeysSameSort(s[1..], one, other);
      var rest := StableSort(s[1..], one);
      forall x | x in rest
        ensures one(x) == other(x)
      {
        assert x in multiset(rest);
        assert x in s[1..];
      }
      SameKeysSameInsert(s[0], rest, one, other);
    }
  }

  lemma {:induction false} SameKeysSameInsert(x: Step, s: seq<Step>, one: Step -> Key, other: Step -> Key)
    requires one(x) == other(x) && forall y :: y in s ==> one(y) == other(y)
    ensures Insert(x, s, one) == Insert(x, s, other)
    decreases |s|
  {
    if s != [] {
      assert s[0] in s;
      SameKeysSameInsert(x, s[1..], one, other);
    }
  }

  /**
    The new steps a revision leaves open are those that were open and are not mastered, sorted
    by the order they came in with.
   */
  lemma RevisedNewSteps(ev: Evidence, steps: seq<Step>, triggers: seq<Trigger>)
    requires Core(steps)
    ensures Kcs(OpenNews(Revised(ev, steps, triggers)))
         == Kcs(StableSort(Those(OpenNews(steps), Unmastered(ev)), ByOrder()))
  {
    var d := Gathered(ev, steps, triggers);
    GatheredKeeps(ev, steps, triggers);
    ThoseOfGathered(ev, steps, triggers);
    NewStepsSortByOrder(ev, d);
    FinishedShapes(ev, Sorted(ev, d));
    ThoseByShape(Finished(ev, Sorted(ev, d)), Sorted(ev, d));
  }

  lemma NewStepsSortByOrder(ev: Evidence, d: seq<Step>)
    requires Core(d)
    ensures OpenNews(Sorted(ev, d)) == StableSort(OpenNews(d), ByOrder())
  {
    var r := RanksOf(ev, d);
    ThoseOfSort(d, ByPlace(r), IsOpenNew);
    NewPlaces(r, d);
    SameKeysSameSort(OpenNews(d), ByPlace(r), ByOrder());
  }

  lemma NewPlaces(r: Ranks, d: seq<Step>)
    requires Core(d)
    ensures forall x :: x in OpenNews(d) ==> ByPlace(r)(x) == ByOrder()(x)
  {
    ThoseMembers(d, IsOpenNew);
    forall x | x in OpenNews(d)
      ensures ByPlace(r)(x) == ByOrder()(x)
    {
      assert x in d && StepOk(x);
      assert PlaceKey(r, x) == Key(2, x.order, 1);
    }
  }

  lemma PositionsAscend(steps: seq<Step>, test: Step -> bool)
    requires forall i :: 0 <= i < |steps| ==> steps[i].order == i
    ensures SortedBy(Those(steps, test), ByOrder())
  {
    assert SortedBy(steps, ByOrder());
    ThoseSorted(steps, test, ByOrder());
  }

  /** On a plan whose orders are its positions, a revision never reorders the new steps. */
  lemma RevisionKeepsTeachingOrder(ev: Evidence, steps: seq<Step>, triggers: seq<Trigger>)
    requires PlanOk(steps)
    ensures Kcs(OpenNews(Revised(ev, steps, triggers))) == Kcs(Those(OpenNews(steps), Unmastered(ev)))
  {
    RevisedNewSteps(ev, steps, triggers);
    PositionsAscend(steps, IsOpenNew);
    ThoseSorted(OpenNews(steps), Unmastered(ev), ByOrder());
    SortedIsFixed(Those(OpenNews(steps), Unmastered(ev)), ByOrder());
  }

  // ---- Extending the horizon does reorder them ------------------------------------------

  /** Every open step already in the plan stands no later than any arriving one is numbered. */
  ghost predicate NoneBehind(ev: Evidence, p: seq<Step>, arriving: seq<KcId>) {
    forall i, j :: 0 <= i < |p| && 0 <= j < |arriving|
      && IsOpenNew(p[i]) && p[i].kc !in ev.mastered && arriving[j] !in ev.mastered
      ==> i <= j
  }

  /** The teaching order the objective asks for: what is open now, then what arrives. */
  ghost function InObjectiveOrder(ev: Evidence, p: seq<Step>, arriving: seq<KcId>): seq<Step> {
    Those(OpenNews(p), Unmastered(ev)) + Those(BuildInitialSteps(arriving), Unmastered(ev))
  }

  lemma ExtendedNewSteps(ev: Evidence, p: seq<Step>, arriving: seq<KcId>)
    ensures Those(OpenNews(p + BuildInitialSteps(arriving)), Unmastered(ev)) == InObjectiveOrder(ev, p, arriving)
  {
    var bare := BuildInitialSteps(arriving);
    ThoseSplit(p, bare, IsOpenNew);
    ThoseOfAll(bare, IsOpenNew);
    ThoseSplit(OpenNews(p), bare, Unmastered(ev));
  }

  lemma {:induction false} ThoseOfAll(steps: seq<Step>, test: Step -> bool)
    requires forall s :: s in steps ==> test(s)
    ensures Those(steps, test) == steps
    decreases |steps|
  {
    if steps != [] {
      assert steps[0] in steps;
      ThoseOfAll(steps[1..], test);
      assert steps == [steps[0]] + steps[1..];
    }
  }

  /**
    Components pulled in by the horizon are taught after those already open exactly when no
    open step stands behind the number an arriving one is given. The arriving steps are
    numbered from 0 again, so in general they are taught too early.
   */
  lemma ExtensionInOrderExactlyWhen(ev: Evidence, p: seq<Step>, arriving: seq<KcId>)
    requires PlanOk(p) && NoDuplicates(arriving)
    requires forall s :: s in p && s.stepType.New? ==> s.kc !in arriving
    ensures Kcs(OpenNews(Revised(ev, p + BuildInitialSteps(arriving), []))) == Kcs(InObjectiveOrder(ev, p, arriving))
       <==> NoneBehind(ev, p, arriving)
  {
    ExtendedKeepsCore(p, arriving);
    RevisedNewSteps(ev, p + BuildInitialSteps(arriving), []);
    ExtendedNewSteps(ev, p, arriving);
    SortedExactlyWhenNoneBehind(ev, p, arriving);
    WantedApart(ev, p, arriving);
    SortChangesNothingExactlyWhen(InObjectiveOrder(ev, p, arriving));
  }

  lemma SortedExactlyWhenNoneBehind(ev: Evidence, p: seq<Step>, arriving: seq<KcId>)
    requires PlanOk(p) && NoDuplicates(arriving)
    requires forall s :: s in p && s.stepType.New? ==> s.kc !in arriving
    ensures SortedBy(InObjectiveOrder(ev, p, arriving), ByOrder()) <==> NoneBehind(ev, p, arriving)
  {
    var wanted := InObjectiveOrder(ev, p, arriving);
    if NoneBehind(ev, p, arriving) {
      WantedSorted(ev, p, arriving);
    } else {
      var i, j :| 0 <= i < |p| && 0 <= j < |arriving| && IsOpenNew(p[i])
        && p[i].kc !in ev.mastered && arriving[j] !in ev.mastered && j < i;
      var m, n := WantedPlaces(ev, p, arriving, i, j);
      assert !Leq(ByOrder()(wanted[m]), ByOrder()(wanted[n]));
    }
  }

  lemma SortChangesNothingExactlyWhen(wanted: seq<Step>)
    requires forall i, j :: 0 <= i < j < |wanted| ==> wanted[i].kc != wanted[j].kc
    ensures Kcs(StableSort(wanted, ByOrder())) == Kcs(wanted) <==> SortedBy(wanted, ByOrder())
  {
    var got := StableSort(wanted, ByOrder());
    StableSortSorts(wanted, ByOrder());
    if SortedBy(wanted, ByOrder()) {
      SortedIsFixed(wanted, ByOrder());
    } else if Kcs(got) == Kcs(wanted) {
      SameKcsSameSteps(wanted, got);
    }
  }

  lemma {:induction false} SameKcsSameSteps(a: seq<Step>, b: seq<Step>)
    requires Kcs(a) == Kcs(b) && |a| == |b| && multiset(a) == multiset(b)
    requires forall i, j :: 0 <= i < j < |a| ==> a[i].kc != a[j].kc
    ensures a == b
  {
    forall i | 0 <= i < |a|
      ensures a[i] == b[i]
    {
      assert b[i] in multiset(b);
      assert b[i] in a;
      var j :| 0 <= j < |a| && a[j] == b[i];
      assert Kcs(a)[i] == Kcs(b)[i];
    }
  }

  lemma WantedApart(ev: Evidence, p: seq<Step>, arriving: seq<KcId>)
    requires PlanOk(p) && NoDuplicates(arriving)
    requires forall s :: s in p && s.stepType.New? ==> s.kc !in arriving
    ensures forall i, j :: 0 <= i < j < |InObjectiveOrder(ev, p, arriving)| ==>
      InObjectiveOrder(ev, p, arriving)[i].kc != InObjectiveOrder(ev, p, arriving)[j].kc
  {
    var wanted := InObjectiveOrder(ev, p, arriving);
    var all := p + BuildInitialSteps(arriving);
    ExtendedKeepsCore(p, arriving);
    ExtendedNewSteps(ev, p, arriving);
    ThoseApart(all, IsOpenNew, Clash);
    ThoseApart(OpenNews(all), Unmastered(ev), Clash);
    ThoseMembers(all, IsOpenNew);
    ThoseMembers(OpenNews(all), Unmastered(ev));
    forall i, j | 0 <= i < j < |wanted|
      ensures wanted[i].kc != wanted[j].kc
    {
      assert wanted[i] in wanted && wanted[j] in wanted;
      assert !Clash(wanted[i], wanted[j]);
    }
  }

  lemma WantedSorted(ev: Evidence, p: seq<Step>, arriving: seq<KcId>)
    requires PlanOk(p) && NoneBehind(ev, p, arriving)
    ensures SortedBy(InObjectiveOrder(ev, p, arriving), ByOrder())
  {
    var here, next := Those(OpenNews(p), Unmastered(ev)), Those(BuildInitialSteps(arriving), Unmastered(ev));
    PositionsAscend(p, IsOpenNew);
    ThoseSorted(OpenNews(p), Unmastered(ev), ByOrder());
    PositionsAscend(BuildInitialSteps(arriving), Unmastered(ev));
    ThoseMembers(p, IsOpenNew);
    ThoseMembers(OpenNews(p), Unmastered(ev));
    ThoseMembers(BuildInitialSteps(arriving), Unmastered(ev));
    forall x, y | x in here && y in next
      ensures x.order <= y.order
    {
      var i :| 0 <= i < |p| && p[i] == x;
      assert y in BuildInitialSteps(arriving);
      var j :| 0 <= j < |arriving| && BuildInitialSteps(arriving)[j] == y;
    }
    forall i, j | 0 <= i < |here| && 0 <= j < |next|
      ensures Leq(ByOrder()(here[i]), ByOrder()(next[j]))
    {
      assert here[i] in here && next[j] in next;
    }
  }

  /** Where an open step and an arriving one stand in the order the objective asks for. */
  lemma WantedPlaces(ev: Evidence, p: seq<Step>, arriving: seq<KcId>, i: nat, j: nat) returns (m: nat, n: nat)
    requires PlanOk(p) && i < |p| && j < |arriving|
    requires IsOpenNew(p[i]) && p[i].kc !in ev.mastered && arriving[j] !in ev.mastered
    ensures m < n < |InObjectiveOrder(ev, p, arriving)|
    ensures InObjectiveOrder(ev, p, arriving)[m] == p[i]
    ensures InObjectiveOrder(ev, p, arriving)[n] == BuildInitialSteps(arriving)[j]
  {
    var here, next := Those(OpenNews(p), Unmastered(ev)), Those(BuildInitialSteps(arriving), Unmastered(ev));
    ThoseMembers(p, IsOpenNew);
    ThoseMembers(OpenNews(p), Unmastered(ev));
    ThoseMembers(BuildInitialSteps(arriving), Unmastered(ev));
    assert p[i] in p && p[i] in here;
    assert BuildInitialSteps(arriving)[j] in BuildInitialSteps(arriving);
    assert BuildInitialSteps(arriving)[j] in next;
    m :| 0 <= m < |here| && here[m] == p[i];
    var k :| 0 <= k < |next| && next[k] == BuildInitialSteps(arriving)[j];
    n := |here| + k;
  }

  // ---- Which of two is taught first -----------------------------------------------------

  /** `x` is taught before `y`. */
  ghost predicate Precedes(kcs: seq<KcId>, x: KcId, y: KcId) {
    exists m, n :: 0 <= m < n < |kcs| && kcs[m] == x && kcs[n] == y
  }

  predicate SameKc(a: Step, b: Step) {
    a.kc == b.kc
  }

  /** `b` in front of `a`, though they have the same order. */
  function Swapped(a: Step, b: Step): (Step, Step) -> bool {
    (x: Step, y: Step) => x == b && y == a && a.order == b.order
  }

  lemma SortedPlaces(wanted: seq<Step>, m: nat, n: nat) returns (u: nat, v: nat)
    requires m < n < |wanted| && Apart(wanted, SameKc)
    ensures var got := StableSort(wanted, ByOrder());
            u < |got| && v < |got| && got[u] == wanted[m] && got[v] == wanted[n]
            && (wanted[m].order <= wanted[n].order <==> u < v) && u != v
  {
    var a, b, got := wanted[m], wanted[n], StableSort(wanted, ByOrder());
    StableSortSorts(wanted, ByOrder());
    assert !SameKc(a, b);
    assert a in multiset(got) && b in multiset(got);
    u :| 0 <= u < |got| && got[u] == a;
    v :| 0 <= v < |got| && got[v] == b;
    if a.order < b.order {
      SmallerStandsFirst(got, ByOrder(), u, v);
    } else if b.order < a.order {
      SmallerStandsFirst(got, ByOrder(), v, u);
    } else {
      NeverSwapped(wanted, m, n);
      SortKeepsApart(wanted, ByOrder(), Swapped(a, b));
      NotApart(got, Swapped(a, b), v, u);
    }
  }

  lemma NeverSwapped(wanted: seq<Step>, m: nat, n: nat)
    requires m < n < |wanted| && Apart(wanted, SameKc)
    ensures Apart(wanted, Swapped(wanted[m], wanted[n]))
  {
    forall i, j | 0 <= i < j < |wanted|
      ensures !Swapped(wanted[m], wanted[n])(wanted[i], wanted[j])
    {
      OnlyPlace(wanted, i, n);
      OnlyPlace(wanted, j, m);
    }
  }

  lemma OnlyPlace(wanted: seq<Step>, i: nat, n: nat)
    requires i < |wanted| && n < |wanted| && Apart(wanted, SameKc)
    ensures wanted[i].kc == wanted[n].kc ==> i == n
  {
    if wanted[i].kc == wanted[n].kc {
      NotApart(wanted, SameKc, i, n);
      NotApart(wanted, SameKc, n, i);
    }
  }

  /** Sorted by order, of two wanted steps the first is taught first exactly when its order is no larger. */
  lemma PrecedesExactlyWhen(wanted: seq<Step>, m: nat, n: nat)
    requires m < n < |wanted| && Apart(wanted, SameKc)
    ensures Precedes(Kcs(StableSort(wanted, ByOrder())), wanted[m].kc, wanted[n].kc) <==> wanted[m].order <= wanted[n].order
    ensures Precedes(Kcs(StableSort(wanted, ByOrder())), wanted[n].kc, wanted[m].kc) <==> wanted[m].order > wanted[n].order
  {
    var got := StableSort(wanted, ByOrder());
    var u, v := SortedPlaces(wanted, m, n);
    SortKeepsApart(wanted, ByOrder(), SameKc);
    KcsAreDistinct(got);
    PrecedesByPlace(Kcs(got), u, v);
    PrecedesByPlace(Kcs(got), v, u);
  }

  lemma KcsAreDistinct(steps: seq<Step>)
    requires Apart(steps, SameKc)
    ensures NoDuplicates(Kcs(steps))
  {
    forall i, j | 0 <= i < j < |steps|
      ensures Kcs(steps)[i] != Kcs(steps)[j]
    {
      assert !SameKc(steps[i], steps[j]);
    }
  }

  lemma PrecedesByPlace(kcs: seq<KcId>, u: nat, v: nat)
    requires NoDuplicates(kcs) && u < |kcs| && v < |kcs|
    ensures Precedes(kcs, kcs[u], kcs[v]) <==> u < v
  {
  }

  /**
    After the extension's pass an open step is taught before an arriving one exactly when its
    place in the plan is no larger than the arrival's number, and after it otherwise.
   */
  lemma TaughtFirstExactlyWhen(ev: Evidence, p: seq<Step>, arriving: seq<KcId>, i: nat, j: nat)
    requires PlanOk(p) && NoDuplicates(arriving) && i < |p| && j < |arriving|
    requires forall s :: s in p && s.stepType.New? ==> s.kc !in arriving
    requires IsOpenNew(p[i]) && p[i].kc !in ev.mastered && arriving[j] !in ev.mastered
    ensures var taught := Kcs(OpenNews(Revised(ev, p + BuildInitialSteps(arriving), [])));
            && (Precedes(taught, p[i].kc, arriving[j]) <==> i <= j)
            && (Precedes(taught, arriving[j], p[i].kc) <==> j < i)
  {
    var wanted := InObjectiveOrder(ev, p, arriving);
    ExtendedKeepsCore(p, arriving);
    RevisedNewSteps(ev, p + BuildInitialSteps(arriving), []);
    ExtendedNewSteps(ev, p, arriving);
    WantedApart(ev, p, arriving);
    var m, n := WantedPlaces(ev, p, arriving, i, j);
    assert Apart(wanted, SameKc);
    PrecedesExactlyWhen(wanted, m, n);
  }
}
