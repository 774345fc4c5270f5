/**
  Ordering components so that prerequisites come first: the backward closure of the targets and
  Kahn's algorithm with a total tiebreak (`app/learning/lesson_plan.py`).
 */
module TopoSort {
  import opened Distinctness
  import opened Ids
  import opened Prerequisites
  import opened Sorting

  datatype Ordering =
    | Ordered(order: seq<KcId>)
    | CyclicPrerequisites(unordered: seq<KcId>)

  // ---- What an order is, and what stands in its way -------------------------------------

  /** `o` lists exactly `nodes`, each once, and puts every in-set prerequisite first. */
  ghost predicate IsOrder(nodes: set<KcId>, edges: seq<Edge<KcId>>, o: seq<KcId>) {
    && NoDuplicates(o)
    && Elements(o) == nodes
    && forall i, j :: 0 <= i < |o| && 0 <= j < |o| && Edge(o[i], o[j]) in edges ==> i < j
  }

  /** Every member of `u` has a prerequisite inside `u`, so none of them can come first. */
  ghost predicate SelfSupporting(nodes: set<KcId>, edges: seq<Edge<KcId>>, u: set<KcId>) {
    && u <= nodes
    && forall n {:trigger HasPrereqIn(edges, u, n)} :: n in u ==> HasPrereqIn(edges, u, n)
  }

  ghost predicate HasPrereqIn(edges: seq<Edge<KcId>>, u: set<KcId>, n: KcId) {
    exists p :: p in u && Edge(p, n) in edges
  }

  /** The nodes that may come next once `done` has been emitted. */
  ghost function Available(nodes: set<KcId>, edges: seq<Edge<KcId>>, done: set<KcId>): set<KcId> {
    set n | n in nodes && n !in done && IsFree(nodes, edges, done, n)
  }

  ghost predicate IsFree(nodes: set<KcId>, edges: seq<Edge<KcId>>, done: set<KcId>, n: KcId) {
    forall e :: e in edges && e.dependent == n && e.prereq in nodes ==> e.prereq in done
  }

  /** Each element of `o` was available when it was emitted. */
  ghost predicate Emission(nodes: set<KcId>, edges: seq<Edge<KcId>>, o: seq<KcId>) {
    forall i :: 0 <= i < |o| ==> EmittedAt(nodes, edges, o, i)
  }

  ghost predicate EmittedAt(nodes: set<KcId>, edges: seq<Edge<KcId>>, o: seq<KcId>, i: nat)
    requires i < |o|
  {
    o[i] in Available(nodes, edges, Elements(o[..i]))
  }

  // ---- The tiebreak ---------------------------------------------------------------------

  /** Known components by their tiebreak, then unknown ones by id. */
  function NodeKey(tiebreak: map<KcId, int>, n: KcId): Key {
    if n in tiebreak then Key(0, tiebreak[n], 0) else Key(1, 0, n.id)
  }

  function ByTiebreak(tiebreak: map<KcId, int>): KcId -> Key {
    n => NodeKey(tiebreak, n)
  }

  ghost predicate KeysDistinct(nodes: set<KcId>, tiebreak: map<KcId, int>) {
    forall m, n :: m in nodes && n in nodes && m != n ==> NodeKey(tiebreak, m) != NodeKey(tiebreak, n)
  }

  /** Each element is the smallest that could have come next. */
  ghost predicate Greedy(nodes: set<KcId>, edges: seq<Edge<KcId>>, tiebreak: map<KcId, int>, o: seq<KcId>) {
    forall i :: 0 <= i < |o| ==> Smallest(nodes, edges, tiebreak, Elements(o[..i]), o[i])
  }

  ghost predicate Smallest(
    nodes: set<KcId>, edges: seq<Edge<KcId>>, tiebreak: map<KcId, int>, done: set<KcId>, n: KcId)
  {
    && n in Available(nodes, edges, done)
    && forall m :: m in Available(nodes, edges, done) ==> Leq(NodeKey(tiebreak, n), NodeKey(tiebreak, m))
  }

  /** What `TopoSort` promises of its result. */
  ghost predicate IsTopoResult(nodes: set<KcId>, edges: seq<Edge<KcId>>, tiebreak: map<KcId, int>, r: Ordering) {
    match r
    case Ordered(o) =>
      IsOrder(nodes, edges, o) && Greedy(nodes, edges, tiebreak, o)
    case CyclicPrerequisites(u) =>
      && u != []
      && NoDuplicates(u)
      && SortedBy(u, ByTiebreak(tiebreak))
      && SelfSupporting(nodes, edges, Elements(u))
      && forall w :: SelfSupporting(nodes, edges, w) ==> w <= Elements(u)
  }

  // ---- Counting the prerequisites still outstanding -------------------------------------

  function InSet(nodes: set<KcId>, e: Edge<KcId>): bool {
    e.dependent in nodes && e.prereq in nodes
  }

  /** The dependents of `n`, once for every edge that names them. */
  ghost function SuccessorList(nodes: set<KcId>, edges: seq<Edge<KcId>>, n: KcId): seq<KcId> {
    if edges == [] then []
    else
      var init, e := edges[..|edges| - 1], edges[|edges| - 1];
      SuccessorList(nodes, init, n) + (if InSet(nodes, e) && e.prereq == n then [e.dependent] else [])
  }

  /** How many edges into `n` start at an in-set node that is not in `done`. */
  ghost function Outstanding(nodes: set<KcId>, edges: seq<Edge<KcId>>, done: set<KcId>, n: KcId): nat {
    if edges == [] then 0
    else
      var init, e := edges[..|edges| - 1], edges[|edges| - 1];
      Outstanding(nodes, init, done, n)
      + (if InSet(nodes, e) && e.dependent == n && e.prereq !in done then 1 else 0)
  }

  /** The indegree table holds, for every node, what is still outstanding. */
  ghost predicate Counts(nodes: set<KcId>, edges: seq<Edge<KcId>>, done: set<KcId>, indegree: map<KcId, int>) {
    && indegree.Keys == nodes
    && forall n :: n in nodes ==> indegree[n] == Outstanding(nodes, edges, done, n)
  }

  ghost predicate ListsSuccessors(nodes: set<KcId>, edges: seq<Edge<KcId>>, successors: map<KcId, seq<KcId>>) {
    && successors.Keys == nodes
    && forall n :: n in nodes ==> successors[n] == SuccessorList(nodes, edges, n)
  }

  lemma {:induction false} OutstandingZero(nodes: set<KcId>, edges: seq<Edge<KcId>>, done: set<KcId>, n: KcId)
    requires n in nodes
    ensures Outstanding(nodes, edges, done, n) == 0 <==> IsFree(nodes, edges, done, n)
  {
    if edges != [] {
      var init, e := edges[..|edges| - 1], edges[|edges| - 1];
      assert edges == init + [e];
      OutstandingZero(nodes, init, done, n);
    }
  }

  /** Emitting `node` takes off exactly the edges that leave it. */
  lemma {:induction false} OutstandingAfter(
    nodes: set<KcId>, edges: seq<Edge<KcId>>, done: set<KcId>, node: KcId, n: KcId)
    requires node in nodes && node !in done
    ensures Outstanding(nodes, edges, done, n)
         == Outstanding(nodes, edges, done + {node}, n) + multiset(SuccessorList(nodes, edges, node))[n]
  {
    if edges != [] {
      OutstandingAfter(nodes, edges[..|edges| - 1], done, node, n);
    }
  }

  lemma {:induction false} SuccessorsInSet(nodes: set<KcId>, edges: seq<Edge<KcId>>, n: KcId)
    ensures forall s :: s in SuccessorList(nodes, edges, n) ==> s in nodes
  {
    if edges != [] {
      SuccessorsInSet(nodes, edges[..|edges| - 1], n);
    }
  }

  // ---- Kahn's algorithm -----------------------------------------------------------------

  lemma CountOneMore(
    nodes: set<KcId>, edges: seq<Edge<KcId>>, i: nat, before: map<KcId, int>, after: map<KcId, int>)
    requires i < |edges| && Counts(nodes, edges[..i], {}, before)
    requires after == if InSet(nodes, edges[i])
                      then before[edges[i].dependent := before[edges[i].dependent] + 1] else before
    ensures Counts(nodes, edges[..i + 1], {}, after)
  {
    assert edges[..i + 1][..i] == edges[..i];
  }

  lemma ListOneMore(
    nodes: set<KcId>, edges: seq<Edge<KcId>>, i: nat, before: map<KcId, seq<KcId>>, after: map<KcId, seq<KcId>>)
    requires i < |edges| && ListsSuccessors(nodes, edges[..i], before)
    requires after == if InSet(nodes, edges[i])
                      then before[edges[i].prereq := before[edges[i].prereq] + [edges[i].dependent]] else before
    ensures ListsSuccessors(nodes, edges[..i + 1], after)
  {
    assert edges[..i + 1][..i] == edges[..i];
  }

  /** The tables Kahn's algorithm starts from: indegrees and dependents, edge by edge. */
  method BuildTables(nodes: set<KcId>, edges: seq<Edge<KcId>>)
      returns (indegree: map<KcId, int>, successors: map<KcId, seq<KcId>>)
    ensures Counts(nodes, edges, {}, indegree)
    ensures ListsSuccessors(nodes, edges, successors)
  {
    indegree := map n | n in nodes :: 0;
    successors := map n | n in nodes :: [];
    for i := 0 to |edges|
      invariant Counts(nodes, edges[..i], {}, indegree)
      invariant ListsSuccessors(nodes, edges[..i], successors)
    {
      var e := edges[i];
      ghost var counted, listed := indegree, successors;
      if InSet(nodes, e) {
        successors := successors[e.prereq := successors[e.prereq] + [e.dependent]];
        indegree := indegree[e.dependent := indegree[e.dependent] + 1];
      }
      CountOneMore(nodes, edges, i, counted, indegree);
      ListOneMore(nodes, edges, i, listed, successors);
    }
    assert edges[..|edges|] == edges;
  }

  /** The nodes of a set, in whatever order it is iterated in, that satisfy `indegree == 0`. */
  method FreeAtStart(nodes: set<KcId>, indegree: map<KcId, int>) returns (free: seq<KcId>)
    requires indegree.Keys == nodes
    ensures NoDuplicates(free)
    ensures Elements(free) == set n | n in nodes && indegree[n] == 0
  {
    free := [];
    var rest := nodes;
    while rest != {}
      invariant rest <= nodes && NoDuplicates(free)
      invariant Elements(free) == set n | n in nodes - rest && indegree[n] == 0
    {
      var n :| n in rest;
      rest := rest - {n};
      if indegree[n] == 0 {
        ElementsAppend(free, n);
        free := free + [n];
      }
    }
  }

  /** The indegree table while the edges in `pending` are still to be taken off it. */
  ghost predicate CountsWith(
    nodes: set<KcId>, edges: seq<Edge<KcId>>, done: set<KcId>, indegree: map<KcId, int>, pending: multiset<KcId>)
  {
    && indegree.Keys == nodes
    && forall n :: n in nodes ==> indegree[n] == Outstanding(nodes, edges, done, n) + pending[n]
  }

  lemma StillPending(nodes: set<KcId>, edges: seq<Edge<KcId>>, done: set<KcId>, node: KcId, table: map<KcId, int>)
    requires node in nodes && node !in done && Counts(nodes, edges, done, table)
    ensures CountsWith(nodes, edges, done + {node}, table, multiset(SuccessorList(nodes, edges, node)))
  {
    forall n | n in nodes {
      OutstandingAfter(nodes, edges, done, node, n);
    }
  }

  /** `freed` lists, once each, the nodes whose count has come down to zero since `table`. */
  ghost predicate ListsFreed(nodes: set<KcId>, table: map<KcId, int>, indegree: map<KcId, int>, freed: seq<KcId>) {
    && table.Keys == nodes && indegree.Keys == nodes && NoDuplicates(freed)
    && (forall n :: n in nodes ==> indegree[n] <= table[n])
    && forall n :: n in freed <==> n in nodes && table[n] > 0 && indegree[n] == 0
  }

  lemma TakeOff(
    nodes: set<KcId>, edges: seq<Edge<KcId>>, done: set<KcId>, table: map<KcId, int>, before: map<KcId, int>,
    freed: seq<KcId>, pending: multiset<KcId>, s: KcId)
    requires ListsFreed(nodes, table, before, freed) && s in nodes
    requires CountsWith(nodes, edges, done, before, multiset{s} + pending)
    ensures CountsWith(nodes, edges, done, before[s := before[s] - 1], pending)
    ensures ListsFreed(nodes, table, before[s := before[s] - 1], if before[s] == 1 then freed + [s] else freed)
  {
    assert before[s] > 0;
    ElementsAppend(freed, s);
  }

  /** Takes `node`'s edges off the table and reports the nodes this frees. */
  method Release(
    nodes: set<KcId>, ghost edges: seq<Edge<KcId>>, ghost done: set<KcId>, node: KcId,
    table: map<KcId, int>, dependents: seq<KcId>)
      returns (indegree: map<KcId, int>, freed: seq<KcId>)
    requires node in nodes && node !in done && Counts(nodes, edges, done, table)
    requires dependents == SuccessorList(nodes, edges, node)
    ensures Counts(nodes, edges, done + {node}, indegree)
    ensures ListsFreed(nodes, table, indegree, freed)
  {
    indegree, freed := table, [];
    SuccessorsInSet(nodes, edges, node);
    assert dependents[0..] == dependents;
    StillPending(nodes, edges, done, node, table);
    for i := 0 to |dependents|
      invariant CountsWith(nodes, edges, done + {node}, indegree, multiset(dependents[i..]))
      invariant ListsFreed(nodes, table, indegree, freed)
    {
      var s := dependents[i];
      DropOne(dependents, i);
      TakeOff(nodes, edges, done + {node}, table, indegree, freed, multiset(dependents[i + 1..]), s);
      indegree := indegree[s := indegree[s] - 1];
      if indegree[s] == 0 {
        freed := freed + [s];
      }
    }
  }

  lemma AvailableByCount(nodes: set<KcId>, edges: seq<Edge<KcId>>, done: set<KcId>, indegree: map<KcId, int>)
    requires Counts(nodes, edges, done, indegree)
    ensures Available(nodes, edges, done) == set n | n in nodes && n !in done && indegree[n] == 0
  {
    forall n | n in nodes
      ensures indegree[n] == 0 <==> IsFree(nodes, edges, done, n)
    {
      OutstandingZero(nodes, edges, done, n);
    }
  }

  /** Once emitted a node's own indegree stays at zero, so nothing frees it again. */
  lemma EmittedStayFree(nodes: set<KcId>, edges: seq<Edge<KcId>>, done: set<KcId>, o: seq<KcId>, n: KcId)
    requires n in Elements(o) && Elements(o) <= done && Emission(nodes, edges, o)
    ensures n in nodes && Outstanding(nodes, edges, done, n) == 0
  {
    var i :| 0 <= i < |o| && o[i] == n;
    assert EmittedAt(nodes, edges, o, i);
    OutstandingZero(nodes, edges, done, n);
  }

  /** What holds between two rounds of the main loop. */
  ghost predicate KahnInvariant(
    nodes: set<KcId>, edges: seq<Edge<KcId>>, tiebreak: map<KcId, int>,
    ordered: seq<KcId>, ready: seq<KcId>, indegree: map<KcId, int>)
  {
    && NoDuplicates(ordered) && Elements(ordered) <= nodes
    && Counts(nodes, edges, Elements(ordered), indegree)
    && NoDuplicates(ready) && SortedBy(ready, ByTiebreak(tiebreak))
    && Elements(ready) == Available(nodes, edges, Elements(ordered))
    && Greedy(nodes, edges, tiebreak, ordered)
  }

  method TopoSort(kcIds: seq<KcId>, edges: seq<Edge<KcId>>, tiebreak: map<KcId, int>) returns (r: Ordering)
    ensures IsTopoResult(Elements(kcIds), edges, tiebreak, r)
  {
    var nodes := Elements(kcIds);
    var indegree, successors := BuildTables(nodes, edges);
    var free := FreeAtStart(nodes, indegree);
    var ready := StableSort(free, ByTiebreak(tiebreak));
    KahnStart(nodes, edges, tiebreak, indegree, free);
    var ordered: seq<KcId> := [];
    while ready != []
      invariant KahnInvariant(nodes, edges, tiebreak, ordered, ready, indegree)
      decreases |nodes| - |ordered|
    {
      var node, rest := ready[0], ready[1..];
      HeadIsSmallest(nodes, edges, tiebreak, Elements(ordered), ready);
      ghost var table := indegree;
      var freed;
      indegree, freed := Release(nodes, edges, Elements(ordered), node, indegree, successors[node]);
      KahnStep(nodes, edges, tiebreak, ordered, ready, table, indegree, freed);
      ready := StableSort(rest + freed, ByTiebreak(tiebreak));
      ordered := ordered + [node];
      DistinctCardinality(ordered);
      SubsetCardinality(Elements(ordered), nodes);
    }
    r := Outcome(nodes, edges, tiebreak, ordered, indegree);
  }

  /** What is reported once nothing is ready: the order, or the nodes that never became ready. */
  method Outcome(
    nodes: set<KcId>, ghost edges: seq<Edge<KcId>>, tiebreak: map<KcId, int>, ordered: seq<KcId>,
    ghost indegree: map<KcId, int>)
      returns (r: Ordering)
    requires KahnInvariant(nodes, edges, tiebreak, ordered, [], indegree)
    ensures IsTopoResult(nodes, edges, tiebreak, r)
  {
    DistinctCardinality(ordered);
    SubsetCardinality(Elements(ordered), nodes);
    if |ordered| < |nodes| {
      var left := Leftovers(nodes, ordered);
      r := CyclicPrerequisites(StableSort(left, ByTiebreak(tiebreak)));
      KahnStuck(nodes, edges, tiebreak, ordered, indegree, left);
    } else {
      GreedyIsOrder(nodes, edges, tiebreak, ordered);
      r := Ordered(ordered);
    }
  }

  lemma KahnStuck(
    nodes: set<KcId>, edges: seq<Edge<KcId>>, tiebreak: map<KcId, int>, ordered: seq<KcId>,
    indegree: map<KcId, int>, left: seq<KcId>)
    requires KahnInvariant(nodes, edges, tiebreak, ordered, [], indegree) && |ordered| < |nodes|
    requires NoDuplicates(left) && Elements(left) == nodes - Elements(ordered)
    ensures IsTopoResult(nodes, edges, tiebreak, CyclicPrerequisites(StableSort(left, ByTiebreak(tiebreak))))
  {
    var none: seq<KcId> := [];
    assert Elements(none) == {};
    GreedyEmits(nodes, edges, tiebreak, ordered);
    var u := StableSort(left, ByTiebreak(tiebreak));
    SameCountsSameDistinctness(u, left);
    StableSortSorts(left, ByTiebreak(tiebreak));
    StuckIsLargest(nodes, edges, ordered);
    SomethingLeft(nodes, ordered, left);
  }

  lemma SomethingLeft(nodes: set<KcId>, ordered: seq<KcId>, left: seq<KcId>)
    requires |ordered| < |nodes| && Elements(ordered) <= nodes && Elements(left) == nodes - Elements(ordered)
    ensures left != []
  {
    DistinctCardinality(ordered);
    DistinctCardinality(left);
    assert nodes == Elements(ordered) + Elements(left);
    assert |nodes| == |Elements(ordered)| + |Elements(left)|;
  }

  lemma KahnStart(
    nodes: set<KcId>, edges: seq<Edge<KcId>>, tiebreak: map<KcId, int>, indegree: map<KcId, int>, free: seq<KcId>)
    requires Counts(nodes, edges, {}, indegree) && NoDuplicates(free)
    requires Elements(free) == set n | n in nodes && indegree[n] == 0
    ensures KahnInvariant(nodes, edges, tiebreak, [], StableSort(free, ByTiebreak(tiebreak)), indegree)
  {
    var none: seq<KcId> := [];
    assert Elements(none) == {};
    AvailableByCount(nodes, edges, {}, indegree);
    SameCountsSameDistinctness(StableSort(free, ByTiebreak(tiebreak)), free);
    StableSortSorts(free, ByTiebreak(tiebreak));
  }

  /** Emitting the head and merging in what it frees keeps the invariant. */
  lemma KahnStep(
    nodes: set<KcId>, edges: seq<Edge<KcId>>, tiebreak: map<KcId, int>,
    ordered: seq<KcId>, ready: seq<KcId>, table: map<KcId, int>, indegree: map<KcId, int>, freed: seq<KcId>)
    requires KahnInvariant(nodes, edges, tiebreak, ordered, ready, table) && ready != []
    requires Smallest(nodes, edges, tiebreak, Elements(ordered), ready[0])
    requires Counts(nodes, edges, Elements(ordered) + {ready[0]}, indegree)
    requires ListsFreed(nodes, table, indegree, freed)
    ensures KahnInvariant(nodes, edges, tiebreak, ordered + [ready[0]],
                          StableSort(ready[1..] + freed, ByTiebreak(tiebreak)), indegree)
  {
    var node, rest, done := ready[0], ready[1..], Elements(ordered);
    var after := done + {node};
    ElementsAppend(ordered, node);
    HeadAndTail(ready);
    assert node in Elements(ready);
    GreedyEmits(nodes, edges, tiebreak, ordered);
    GreedyExtends(nodes, edges, tiebreak, ordered, node);
    FreedAreNew(nodes, edges, done, ordered, ready, table, indegree, freed);
    var merged := rest + freed;
    JoinDistinct(rest, freed);
    SameCountsSameDistinctness(StableSort(merged, ByTiebreak(tiebreak)), merged);
    StableSortSorts(merged, ByTiebreak(tiebreak));
  }

  /** Freed nodes were neither emitted nor ready before, and with the rest they are what is available. */
  lemma FreedAreNew(
    nodes: set<KcId>, edges: seq<Edge<KcId>>, done: set<KcId>, ordered: seq<KcId>, ready: seq<KcId>,
    table: map<KcId, int>, indegree: map<KcId, int>, freed: seq<KcId>)
    requires done == Elements(ordered) && Emission(nodes, edges, ordered)
    requires ready != [] && NoDuplicates(ready) && Elements(ready) == Available(nodes, edges, done)
    requires Counts(nodes, edges, done, table) && Counts(nodes, edges, done + {ready[0]}, indegree)
    requires ListsFreed(nodes, table, indegree, freed)
    ensures forall n :: n in freed ==> n !in ready && n !in ordered
    ensures Elements(ready[1..]) + Elements(freed) == Available(nodes, edges, done + {ready[0]})
  {
    var node, rest := ready[0], ready[1..];
    HeadAndTail(ready);
    AvailableByCount(nodes, edges, done, table);
    AvailableByCount(nodes, edges, done + {node}, indegree);
    forall n | n in freed
      ensures n in Elements(freed)
    {
    }
    forall n | n in ready
      ensures n in Elements(ready)
    {
    }
    forall n | n in ordered
      ensures n in nodes && table[n] == 0
    {
      EmittedStayFree(nodes, edges, done, ordered, n);
    }
    forall n | n in nodes && table[n] == 0
      ensures indegree[n] == 0
    {
      OutstandingShrinks(nodes, edges, done, done + {node}, n);
    }
  }

  lemma {:induction false} OutstandingShrinks(
    nodes: set<KcId>, edges: seq<Edge<KcId>>, done: set<KcId>, more: set<KcId>, n: KcId)
    requires done <= more
    ensures Outstanding(nodes, edges, more, n) <= Outstanding(nodes, edges, done, n)
  {
    if edges != [] {
      OutstandingShrinks(nodes, edges[..|edges| - 1], done, more, n);
    }
  }

  lemma GreedyEmits(nodes: set<KcId>, edges: seq<Edge<KcId>>, tiebreak: map<KcId, int>, o: seq<KcId>)
    requires Greedy(nodes, edges, tiebreak, o)
    ensures Emission(nodes, edges, o)
  {
    forall i | 0 <= i < |o|
      ensures EmittedAt(nodes, edges, o, i)
    {
      assert Smallest(nodes, edges, tiebreak, Elements(o[..i]), o[i]);
    }
  }

  method Leftovers(nodes: set<KcId>, ordered: seq<KcId>) returns (left: seq<KcId>)
    ensures NoDuplicates(left) && Elements(left) == nodes - Elements(ordered)
  {
    left := [];
    var rest := nodes - Elements(ordered);
    while rest != {}
      invariant NoDuplicates(left) && rest <= nodes - Elements(ordered)
      invariant Elements(left) == nodes - Elements(ordered) - rest
    {
      var n :| n in rest;
      rest := rest - {n};
      ElementsAppend(left, n);
      left := left + [n];
    }
  }

  lemma HeadIsSmallest(
    nodes: set<KcId>, edges: seq<Edge<KcId>>, tiebreak: map<KcId, int>, done: set<KcId>, ready: seq<KcId>)
    requires ready != [] && SortedBy(ready, ByTiebreak(tiebreak))
    requires Elements(ready) == Available(nodes, edges, done)
    ensures Smallest(nodes, edges, tiebreak, done, ready[0])
  {
    var key := ByTiebreak(tiebreak);
    forall m | m in Available(nodes, edges, done)
      ensures Leq(NodeKey(tiebreak, ready[0]), NodeKey(tiebreak, m))
    {
      assert m in Elements(ready);
      var j :| 0 <= j < |ready| && ready[j] == m;
      assert j == 0 || Leq(key(ready[0]), key(ready[j]));
    }
    assert ready[0] in Elements(ready);
  }

  lemma GreedyExtends(nodes: set<KcId>, edges: seq<Edge<KcId>>, tiebreak: map<KcId, int>, o: seq<KcId>, n: KcId)
    requires Greedy(nodes, edges, tiebreak, o)
    requires Smallest(nodes, edges, tiebreak, Elements(o), n)
    ensures Greedy(nodes, edges, tiebreak, o + [n])
  {
    forall i | 0 <= i < |o| + 1
      ensures Smallest(nodes, edges, tiebreak, Elements((o + [n])[..i]), (o + [n])[i])
    {
      if i < |o| {
        assert (o + [n])[..i] == o[..i];
      } else {
        assert (o + [n])[..i] == o;
      }
    }
  }

  lemma GreedyIsOrder(nodes: set<KcId>, edges: seq<Edge<KcId>>, tiebreak: map<KcId, int>, o: seq<KcId>)
    requires Greedy(nodes, edges, tiebreak, o) && NoDuplicates(o) && Elements(o) == nodes
    ensures IsOrder(nodes, edges, o)
  {
    forall i, j | 0 <= i < |o| && 0 <= j < |o| && Edge(o[i], o[j]) in edges
      ensures i < j
    {
      assert Smallest(nodes, edges, tiebreak, Elements(o[..j]), o[j]);
      assert IsFree(nodes, edges, Elements(o[..j]), o[j]);
      var e := Edge(o[i], o[j]);
      assert o[i] in Elements(o);
      assert e in edges && e.dependent == o[j] && e.prereq in nodes;
      assert o[i] in o[..j];
    }
  }

  /** When nothing more can be emitted, what is left is the largest self-supporting set. */
  lemma StuckIsLargest(nodes: set<KcId>, edges: seq<Edge<KcId>>, o: seq<KcId>)
    requires Available(nodes, edges, Elements(o)) == {} && Elements(o) <= nodes
    requires Emission(nodes, edges, o)
    ensures SelfSupporting(nodes, edges, nodes - Elements(o))
    ensures forall w :: SelfSupporting(nodes, edges, w) ==> w <= nodes - Elements(o)
  {
    var left := nodes - Elements(o);
    forall n | n in left
      ensures HasPrereqIn(edges, left, n)
    {
      assert n !in Available(nodes, edges, Elements(o));
      assert !IsFree(nodes, edges, Elements(o), n);
      var e :| e in edges && e.dependent == n && e.prereq in nodes && e.prereq !in Elements(o);
      assert e.prereq in left && Edge(e.prereq, n) == e;
    }
    forall w | SelfSupporting(nodes, edges, w)
      ensures w <= left
    {
      NeverEmitted(nodes, edges, o, |o|, w);
      assert o[..|o|] == o;
    }
  }

  lemma SupportedIsNotFree(nodes: set<KcId>, edges: seq<Edge<KcId>>, done: set<KcId>, w: set<KcId>, n: KcId)
    requires SelfSupporting(nodes, edges, w) && w !! done && IsFree(nodes, edges, done, n)
    ensures n !in w
  {
    forall p | p in w
      ensures Edge(p, n) !in edges
    {
      assert Edge(p, n).prereq in nodes && Edge(p, n).dependent == n;
    }
    assert !HasPrereqIn(edges, w, n);
  }

  lemma {:induction false} NeverEmitted(nodes: set<KcId>, edges: seq<Edge<KcId>>, o: seq<KcId>, i: nat, w: set<KcId>)
    requires i <= |o| && SelfSupporting(nodes, edges, w) && Emission(nodes, edges, o)
    ensures w !! Elements(o[..i])
    decreases i
  {
    if i > 0 {
      NeverEmitted(nodes, edges, o, i - 1, w);
      var n, done := o[i - 1], Elements(o[..i - 1]);
      assert EmittedAt(nodes, edges, o, i - 1);
      assert o[..i] == o[..i - 1] + [n];
      ElementsAppend(o[..i - 1], n);
      SupportedIsNotFree(nodes, edges, done, w, n);
    }
  }

  // ---- What the result means ------------------------------------------------------------

  /** An order exists exactly when no non-empty set supports itself. */
  lemma OrderLeavesNothing(nodes: set<KcId>, edges: seq<Edge<KcId>>, o: seq<KcId>, w: set<KcId>)
    requires IsOrder(nodes, edges, o) && SelfSupporting(nodes, edges, w)
    ensures w == {}
  {
    forall i | 0 <= i < |o|
      ensures EmittedAt(nodes, edges, o, i)
    {
      OrderIsAvailable(nodes, edges, o, i);
    }
    NeverEmitted(nodes, edges, o, |o|, w);
    assert o[..|o|] == o;
  }

  lemma OrderIsAvailable(nodes: set<KcId>, edges: seq<Edge<KcId>>, o: seq<KcId>, i: nat)
    requires IsOrder(nodes, edges, o) && i < |o|
    ensures o[i] in Available(nodes, edges, Elements(o[..i]))
  {
    forall e | e in edges && e.dependent == o[i] && e.prereq in nodes
      ensures e.prereq in Elements(o[..i])
    {
      assert e.prereq in Elements(o);
      var j :| 0 <= j < |o| && o[j] == e.prereq;
      assert e == Edge(o[j], o[i]);
    }
    assert o[i] in Elements(o);
  }

  /** `TopoSort` returns an order exactly when the in-set edges admit one. */
  lemma OrdersExactlyWhenPossible(nodes: set<KcId>, edges: seq<Edge<KcId>>, tiebreak: map<KcId, int>, r: Ordering)
    requires IsTopoResult(nodes, edges, tiebreak, r)
    ensures r.Ordered? <==> exists o :: IsOrder(nodes, edges, o)
  {
    if r.CyclicPrerequisites? {
      assert r.unordered[0] in Elements(r.unordered);
      forall o
        ensures !IsOrder(nodes, edges, o)
      {
        if IsOrder(nodes, edges, o) {
          OrderLeavesNothing(nodes, edges, o, Elements(r.unordered));
        }
      }
    }
  }

  /** `a` comes no later than `b` when orders are compared component by component. */
  ghost predicate LexLeq(tiebreak: map<KcId, int>, a: seq<KcId>, b: seq<KcId>) {
    || a == b
    || exists i :: LexSmallerAt(tiebreak, a, b, i)
  }

  ghost predicate LexSmallerAt(tiebreak: map<KcId, int>, a: seq<KcId>, b: seq<KcId>, i: int) {
    && 0 <= i < |a| && i < |b|
    && a[..i] == b[..i]
    && Less(NodeKey(tiebreak, a[i]), NodeKey(tiebreak, b[i]))
  }

  lemma {:induction false} FirstDifference<T>(a: seq<T>, b: seq<T>) returns (i: nat)
    requires |a| == |b| && a != b
    ensures i < |a| && a[i] != b[i] && a[..i] == b[..i]
  {
    i := 0;
    assert exists k :: 0 <= k < |a| && a[k] != b[k];
    while a[i] == b[i]
      invariant i < |a| && a[..i] == b[..i]
      invariant exists k :: i <= k < |a| && a[k] != b[k]
      decreases |a| - i
    {
      i := i + 1;
    }
  }

  /** With distinct keys the result is the lexicographically least of all orders. */
  lemma ResultIsLexLeast(
    nodes: set<KcId>, edges: seq<Edge<KcId>>, tiebreak: map<KcId, int>, r: Ordering, o: seq<KcId>)
    requires IsTopoResult(nodes, edges, tiebreak, r) && r.Ordered?
    requires KeysDistinct(nodes, tiebreak) && IsOrder(nodes, edges, o)
    ensures LexLeq(tiebreak, r.order, o)
  {
    DistinctCardinality(o);
    DistinctCardinality(r.order);
    if r.order != o {
      var i := FirstDifference(r.order, o);
      OrderIsAvailable(nodes, edges, o, i);
      assert Smallest(nodes, edges, tiebreak, Elements(r.order[..i]), r.order[i]);
      assert o[i] in nodes && r.order[i] in nodes;
      assert LexSmallerAt(tiebreak, r.order, o, i);
    }
  }

  lemma LexAntisymmetric(tiebreak: map<KcId, int>, a: seq<KcId>, b: seq<KcId>)
    requires LexLeq(tiebreak, a, b) && LexLeq(tiebreak, b, a)
    ensures a == b
  {
    if a != b {
      var i :| LexSmallerAt(tiebreak, a, b, i);
      forall j {
        LexOneWay(tiebreak, a, b, i, j);
      }
    }
  }

  lemma LexOneWay(tiebreak: map<KcId, int>, a: seq<KcId>, b: seq<KcId>, i: int, j: int)
    requires LexSmallerAt(tiebreak, a, b, i)
    ensures !LexSmallerAt(tiebreak, b, a, j)
  {
    if 0 <= j < i {
      assert a[..i][j] == b[..i][j];
    } else if i < j < |b| && j < |a| {
      assert a[..j][i] == a[i] && b[..j][i] == b[i];
    }
  }

  /**
    With distinct keys the outcome, order or failure, depends only on which edges there are:
    not on their order, not on repetitions, not on how the node set is iterated.
   */
  lemma ResultIsUnique(
    nodes: set<KcId>, edges: seq<Edge<KcId>>, others: seq<Edge<KcId>>, tiebreak: map<KcId, int>,
    r: Ordering, q: Ordering)
    requires IsTopoResult(nodes, edges, tiebreak, r) && IsTopoResult(nodes, others, tiebreak, q)
    requires KeysDistinct(nodes, tiebreak)
    requires forall e :: e in edges <==> e in others
    ensures r == q
  {
    forall o
      ensures IsOrder(nodes, edges, o) <==> IsOrder(nodes, others, o)
    {
    }
    forall w
      ensures SelfSupporting(nodes, edges, w) <==> SelfSupporting(nodes, others, w)
    {
      assert forall n :: HasPrereqIn(edges, w, n) <==> HasPrereqIn(others, w, n);
    }
    OrdersExactlyWhenPossible(nodes, edges, tiebreak, r);
    OrdersExactlyWhenPossible(nodes, others, tiebreak, q);
    if r.Ordered? {
      ResultIsLexLeast(nodes, edges, tiebreak, r, q.order);
      ResultIsLexLeast(nodes, others, tiebreak, q, r.order);
      LexAntisymmetric(tiebreak, r.order, q.order);
    } else {
      assert Elements(r.unordered) == Elements(q.unordered);
      SortedDistinctUnique(nodes, tiebreak, r.unordered, q.unordered);
    }
  }

  lemma SortedDistinctUnique(nodes: set<KcId>, tiebreak: map<KcId, int>, a: seq<KcId>, b: seq<KcId>)
    requires KeysDistinct(nodes, tiebreak) && Elements(a) == Elements(b) <= nodes
    requires NoDuplicates(a) && NoDuplicates(b)
    requires SortedBy(a, ByTiebreak(tiebreak)) && SortedBy(b, ByTiebreak(tiebreak))
    ensures a == b
  {
    DistinctCardinality(a);
    DistinctCardinality(b);
    if a != b {
      var i := FirstDifference(a, b);
      SmallerStandsEarlier(nodes, tiebreak, a, b, i);
      SmallerStandsEarlier(nodes, tiebreak, b, a, i);
    }
  }

  /** At the first difference, `b`'s element is not smaller than `a`'s. */
  lemma SmallerStandsEarlier(nodes: set<KcId>, tiebreak: map<KcId, int>, a: seq<KcId>, b: seq<KcId>, i: nat)
    requires Elements(a) == Elements(b) <= nodes && |a| == |b| && i < |a|
    requires NoDuplicates(b) && SortedBy(a, ByTiebreak(tiebreak)) && KeysDistinct(nodes, tiebreak)
    requires a[..i] == b[..i] && a[i] != b[i]
    ensures Less(NodeKey(tiebreak, a[i]), NodeKey(tiebreak, b[i]))
  {
    assert b[i] in Elements(b) && a[i] in Elements(a);
    var j :| 0 <= j < |a| && a[j] == b[i];
    forall k | 0 <= k < i
      ensures a[k] != b[i]
    {
      assert a[..i][k] == b[..i][k];
    }
    var key := ByTiebreak(tiebreak);
    assert Leq(key(a[i]), key(a[j]));
  }

  // ---- The tiebreak, spelt out ------------------------------------------------------------

  /** A known component may come before another when its tiebreak is no larger; an unknown one only before unknown ones, by id. */
  predicate MayComeFirst(tiebreak: map<KcId, int>, m: KcId, n: KcId) {
    if m in tiebreak then n in tiebreak ==> tiebreak[m] <= tiebreak[n] else n !in tiebreak && m.id <= n.id
  }

  lemma KeysMean(tiebreak: map<KcId, int>, m: KcId, n: KcId)
    ensures Leq(NodeKey(tiebreak, m), NodeKey(tiebreak, n)) <==> MayComeFirst(tiebreak, m, n)
    ensures NodeKey(tiebreak, m) == NodeKey(tiebreak, n) <==>
      m == n || (m in tiebreak && n in tiebreak && tiebreak[m] == tiebreak[n])
  {
  }

  /** Keys are distinct exactly when no two known components share a tiebreak. */
  lemma DistinctExactlyWhen(nodes: set<KcId>, tiebreak: map<KcId, int>)
    ensures KeysDistinct(nodes, tiebreak) <==>
      forall m, n :: m in nodes && n in nodes && m != n && m in tiebreak && n in tiebreak ==> tiebreak[m] != tiebreak[n]
  {
    forall m, n | m in nodes && n in nodes && m != n
      ensures NodeKey(tiebreak, m) != NodeKey(tiebreak, n) <==> !(m in tiebreak && n in tiebreak && tiebreak[m] == tiebreak[n])
    {
      KeysMean(tiebreak, m, n);
    }
  }

  /**
    Whatever else could have been emitted at a place, what was emitted there is known if that is,
    has no larger tiebreak if both are known, and no larger id if neither is.
   */
  lemma NextIsSmallest(
    nodes: set<KcId>, edges: seq<Edge<KcId>>, tiebreak: map<KcId, int>, o: seq<KcId>, i: nat, m: KcId)
    requires IsTopoResult(nodes, edges, tiebreak, Ordered(o)) && i < |o| && m in nodes && m !in o[..i]
    requires forall e :: e in edges && e.dependent == m && e.prereq in nodes ==> e.prereq in o[..i]
    ensures o[i] in tiebreak && m in tiebreak ==> tiebreak[o[i]] <= tiebreak[m]
    ensures m in tiebreak ==> o[i] in tiebreak
    ensures o[i] !in tiebreak && m !in tiebreak ==> o[i].id <= m.id
  {
    assert Smallest(nodes, edges, tiebreak, Elements(o[..i]), o[i]);
    assert m in Available(nodes, edges, Elements(o[..i]));
    KeysMean(tiebreak, o[i], m);
  }

  /** With nothing to respect, the order is the tiebreak's: known components ascending, then the unknown ones by id. */
  lemma WithoutEdgesAscends(nodes: set<KcId>, edges: seq<Edge<KcId>>, tiebreak: map<KcId, int>, o: seq<KcId>, i: nat, j: nat)
    requires IsTopoResult(nodes, edges, tiebreak, Ordered(o)) && i < j < |o|
    requires forall e :: e in edges ==> !(e.prereq in nodes && e.dependent in nodes)
    ensures o[i] in tiebreak && o[j] in tiebreak ==> tiebreak[o[i]] <= tiebreak[o[j]]
    ensures o[j] in tiebreak ==> o[i] in tiebreak
    ensures o[i] !in tiebreak && o[j] !in tiebreak ==> o[i].id < o[j].id
  {
    assert o[j] in o && o[j] in Elements(o);
    NextIsSmallest(nodes, edges, tiebreak, o, i, o[j]);
    assert o[i] != o[j];
  }

  /** What cannot be ordered is reported in the same order. */
  lemma LeftoversAscend(nodes: set<KcId>, edges: seq<Edge<KcId>>, tiebreak: map<KcId, int>, u: seq<KcId>, i: nat, j: nat)
    requires IsTopoResult(nodes, edges, tiebreak, CyclicPrerequisites(u)) && i < j < |u|
    ensures MayComeFirst(tiebreak, u[i], u[j])
  {
    assert Leq(ByTiebreak(tiebreak)(u[i]), ByTiebreak(tiebreak)(u[j]));
    KeysMean(tiebreak, u[i], u[j]);
  }

  // ---- `prerequisite_closure` -----------------------------------------------------------

  /** Every target and everything it transitively depends on. */
  ghost predicate InClosure(targets: seq<KcId>, edges: seq<Edge<KcId>>, n: KcId) {
    exists t :: t in targets && Reachable(edges, n, t)
  }

  function Prereqs(edges: seq<Edge<KcId>>): set<KcId> {
    set e | e in edges :: e.prereq
  }

  method PrerequisiteClosure(targets: seq<KcId>, edges: seq<Edge<KcId>>) returns (closure: set<KcId>)
    ensures forall n :: n in closure <==> InClosure(targets, edges, n)
  {
    var prereqsOf := PrereqLists(edges);
    closure := {};
    var queue := targets;
    ghost var universe := Elements(targets) + Prereqs(edges);
    SearchStarts(targets, edges);
    while queue != []
      invariant Searching(targets, edges, closure, queue)
      decreases |universe - closure|, |queue|
    {
      var kc := queue[0];
      SearchStep(targets, edges, closure, queue, if kc in prereqsOf then prereqsOf[kc] else []);
      queue := queue[1..];
      if kc in closure {
        continue;
      }
      AddingShrinksRest(universe, closure, kc);
      closure := closure + {kc};
      queue := queue + if kc in prereqsOf then prereqsOf[kc] else [];
    }
    ClosureIsComplete(targets, edges, closure);
  }

  /** What holds while the backward search runs: every find is justified, nothing found is lost. */
  ghost predicate Searching(targets: seq<KcId>, edges: seq<Edge<KcId>>, closure: set<KcId>, queue: seq<KcId>) {
    && closure + Elements(queue) <= Elements(targets) + Prereqs(edges)
    && (forall n :: n in closure + Elements(queue) ==> InClosure(targets, edges, n))
    && Elements(targets) <= closure + Elements(queue)
    && Frontier(edges, closure, queue)
  }

  lemma SearchStarts(targets: seq<KcId>, edges: seq<Edge<KcId>>)
    ensures Searching(targets, edges, {}, targets)
  {
    forall t | t in targets
      ensures InClosure(targets, edges, t)
    {
      ReachesSelf(edges, t);
    }
  }

  lemma SearchStep(targets: seq<KcId>, edges: seq<Edge<KcId>>, closure: set<KcId>, queue: seq<KcId>, more: seq<KcId>)
    requires Searching(targets, edges, closure, queue) && queue != []
    requires more == PrereqList(edges, queue[0])
    ensures queue[0] in Elements(targets) + Prereqs(edges)
    ensures queue[0] in closure ==> Searching(targets, edges, closure, queue[1..])
    ensures Searching(targets, edges, closure + {queue[0]}, queue[1..] + more)
  {
    var kc, rest := queue[0], queue[1..];
    HeadAndTail(queue);
    JoinDistinct(rest, more);
    PrereqListHolds(edges, kc);
    FrontierStep(edges, closure, kc, rest, more);
    assert kc in Elements(queue);
    forall p | p in Elements(more)
      ensures p in Prereqs(edges) && InClosure(targets, edges, p)
    {
      assert Edge(p, kc) in edges;
      InClosureBackward(targets, edges, p, kc);
    }
  }

  lemma ClosureIsComplete(targets: seq<KcId>, edges: seq<Edge<KcId>>, closure: set<KcId>)
    requires Searching(targets, edges, closure, [])
    ensures forall n :: n in closure <==> InClosure(targets, edges, n)
  {
    var none: seq<KcId> := [];
    assert Elements(none) == {};
    forall n | InClosure(targets, edges, n)
      ensures n in closure
    {
      var t :| t in targets && Reachable(edges, n, t);
      var p :| PathFromTo(edges, p, n, t);
      ClosedBackward(edges, closure, p);
    }
  }

  ghost predicate Frontier(edges: seq<Edge<KcId>>, closure: set<KcId>, queue: seq<KcId>) {
    forall e :: e in edges && e.dependent in closure ==> e.prereq in closure || e.prereq in queue
  }

  lemma FrontierStep(edges: seq<Edge<KcId>>, closure: set<KcId>, kc: KcId, rest: seq<KcId>, more: seq<KcId>)
    requires Frontier(edges, closure, [kc] + rest)
    requires forall p :: p in more <==> Edge(p, kc) in edges
    ensures Frontier(edges, closure + {kc}, rest + more)
  {
    forall e | e in edges && e.dependent in closure + {kc}
      ensures e.prereq in closure + {kc} || e.prereq in rest + more
    {
      if e.dependent == kc {
        assert e == Edge(e.prereq, kc);
      }
    }
  }

  lemma InClosureBackward(targets: seq<KcId>, edges: seq<Edge<KcId>>, p: KcId, kc: KcId)
    requires Edge(p, kc) in edges && InClosure(targets, edges, kc)
    ensures InClosure(targets, edges, p)
  {
    var t :| t in targets && Reachable(edges, kc, t);
    ReachThroughEdge(edges, p, kc, t);
  }

  /** The prerequisites `edges` give `k`, once for every edge. */
  ghost function PrereqList(edges: seq<Edge<KcId>>, k: KcId): seq<KcId> {
    if edges == [] then []
    else
      var init, e := edges[..|edges| - 1], edges[|edges| - 1];
      PrereqList(init, k) + (if e.dependent == k then [e.prereq] else [])
  }

  lemma {:induction false} PrereqListHolds(edges: seq<Edge<KcId>>, k: KcId)
    ensures forall p :: p in PrereqList(edges, k) <==> Edge(p, k) in edges
  {
    if edges != [] {
      var init, e := edges[..|edges| - 1], edges[|edges| - 1];
      PrereqListHolds(init, k);
      assert edges == init + [e];
    }
  }

  method PrereqLists(edges: seq<Edge<KcId>>) returns (prereqsOf: map<KcId, seq<KcId>>)
    ensures forall k :: (if k in prereqsOf then prereqsOf[k] else []) == PrereqList(edges, k)
  {
    prereqsOf := map[];
    for i := 0 to |edges|
      invariant forall k :: (if k in prereqsOf then prereqsOf[k] else []) == PrereqList(edges[..i], k)
    {
      var e := edges[i];
      assert edges[..i + 1][..i] == edges[..i];
      var known := if e.dependent in prereqsOf then prereqsOf[e.dependent] else [];
      prereqsOf := prereqsOf[e.dependent := known + [e.prereq]];
    }
    assert edges[..|edges|] == edges;
  }

  lemma {:induction false} ClosedBackward(edges: seq<Edge<KcId>>, closure: set<KcId>, p: seq<KcId>)
    requires IsPath(edges, p) && p[|p| - 1] in closure
    requires Frontier(edges, closure, [])
    ensures p[0] in closure
    decreases |p|
  {
    if |p| > 1 {
      assert Edge(p[0], p[1]) in edges;
      PathTail(edges, p);
      ClosedBackward(edges, closure, p[1..]);
    }
  }

  // ---- The objective: closure, acyclic, topo_sort, in that order ------------------------

  /** A set that supports itself holds a cycle: walking backwards inside it has to repeat. */
  lemma SupportGivesCycle(nodes: set<KcId>, edges: seq<Edge<KcId>>, w: set<KcId>)
    requires SelfSupporting(nodes, edges, w) && w != {}
    ensures Cyclic(edges)
  {
    var n :| n in w;
    var p := WalkBack(nodes, edges, w, n, |w|);
    var i, j := Pigeonhole(p, w);
    var cycle := p[i..j + 1];
    forall k | 0 <= k < |cycle| - 1
      ensures Edge(cycle[k], cycle[k + 1]) in edges
    {
      var m := i + k;
      assert Edge(p[m], p[m + 1]) in edges;
    }
    assert IsPath(edges, cycle) && |cycle| > 1 && cycle[0] == cycle[|cycle| - 1];
  }

  lemma {:induction false} WalkBack(
    nodes: set<KcId>, edges: seq<Edge<KcId>>, w: set<KcId>, n: KcId, steps: nat) returns (p: seq<KcId>)
    requires SelfSupporting(nodes, edges, w) && n in w
    ensures IsPath(edges, p) && |p| == steps + 1 && Elements(p) <= w
    decreases steps
  {
    if steps == 0 {
      p := [n];
    } else {
      var rest := WalkBack(nodes, edges, w, n, steps - 1);
      assert rest[0] in Elements(rest);
      assert HasPrereqIn(edges, w, rest[0]);
      var q :| q in w && Edge(q, rest[0]) in edges;
      p := [q] + rest;
    }
  }

  /**
    What plan generation computes: the objective. It never fails on a stored cycle, because
    the closing edges have been dropped first.
   */
  method PlanObjective(targets: seq<KcId>, stored: seq<Edge<KcId>>, tiebreak: map<KcId, int>)
      returns (objective: seq<KcId>)
    ensures NoDuplicates(objective)
    ensures forall n :: n in objective <==> InClosure(targets, Kept(stored), n)
    ensures forall i, j :: 0 <= i < |objective| && 0 <= j < |objective|
              && Edge(objective[i], objective[j]) in Kept(stored)
              ==> i < j
    ensures IsTopoResult(Elements(objective), Kept(stored), tiebreak, Ordered(objective))
  {
    var kept, dropped := Acyclic(stored);
    var closure := PrerequisiteClosure(targets, kept);
    var listed := Leftovers(closure, []);
    var r := TopoSort(listed, kept, tiebreak);
    NeverCyclic(closure, kept, tiebreak, r);
    objective := r.order;
    assert forall n :: n in objective <==> n in Elements(objective);
  }

  /** On an acyclic graph `TopoSort` always returns an order. */
  lemma NeverCyclic(nodes: set<KcId>, edges: seq<Edge<KcId>>, tiebreak: map<KcId, int>, r: Ordering)
    requires IsTopoResult(nodes, edges, tiebreak, r) && !Cyclic(edges)
    ensures r.Ordered?
  {
    if r.CyclicPrerequisites? {
      assert r.unordered[0] in Elements(r.unordered);
      SupportGivesCycle(nodes, edges, Elements(r.unordered));
    }
  }

  /** Every beginning of the objective already holds the kept prerequisites of its members. */
  lemma ObjectivePrefixIsClosed(targets: seq<KcId>, kept: seq<Edge<KcId>>, objective: seq<KcId>, k: nat, e: Edge<KcId>)
    requires k <= |objective| && e in kept && e.dependent in objective[..k]
    requires forall n :: n in objective <==> InClosure(targets, kept, n)
    requires forall i, j :: 0 <= i < |objective| && 0 <= j < |objective|
               && Edge(objective[i], objective[j]) in kept
               ==> i < j
    ensures e.prereq in objective[..k]
  {
    var j :| 0 <= j < k && objective[j] == e.dependent;
    assert e.dependent in objective;
    var t :| t in targets && Reachable(kept, e.dependent, t);
    ReachThroughEdge(kept, e.prereq, e.dependent, t);
    assert InClosure(targets, kept, e.prereq);
    var i :| 0 <= i < |objective| && objective[i] == e.prereq;
    assert Edge(objective[i], objective[j]) == e;
    assert objective[..k][i] == e.prereq;
  }
}
