/**
  The prerequisite graph: which proposed edges are kept so that the rest can be ordered
  (`app/learning/prerequisites.py`). Nodes are any values that can be compared for equality,
  as in the source, where they are proposal keys at parse time and component ids at plan time.
 */
module Prerequisites {
  import opened Distinctness

  /** `prereq` should be mastered before `dependent`. */
  datatype Edge<N> = Edge(prereq: N, dependent: N)

  // ---- Paths, reachability and cycles ---------------------------------------------------

  ghost predicate IsPath<N>(edges: seq<Edge<N>>, p: seq<N>) {
    && |p| > 0
    && forall i :: 0 <= i < |p| - 1 ==> Edge(p[i], p[i + 1]) in edges
  }

  ghost predicate PathFromTo<N>(edges: seq<Edge<N>>, p: seq<N>, a: N, b: N) {
    IsPath(edges, p) && p[0] == a && p[|p| - 1] == b
  }

  ghost predicate Reachable<N(!new)>(edges: seq<Edge<N>>, a: N, b: N) {
    exists p :: PathFromTo(edges, p, a, b)
  }

  /** A closed walk of at least one edge. */
  ghost predicate Cyclic<N(!new)>(edges: seq<Edge<N>>) {
    exists p :: IsPath(edges, p) && |p| > 1 && p[0] == p[|p| - 1]
  }

  lemma ReachesSelf<N(!new)>(edges: seq<Edge<N>>, a: N)
    ensures Reachable(edges, a, a)
  {
    assert PathFromTo(edges, [a], a, a);
  }

  lemma ReachThroughEdge<N(!new)>(edges: seq<Edge<N>>, a: N, b: N, c: N)
    requires Edge(a, b) in edges && Reachable(edges, b, c)
    ensures Reachable(edges, a, c)
  {
    var p :| PathFromTo(edges, p, b, c);
    assert PathFromTo(edges, [a] + p, a, c);
  }

  lemma ReachTransitive<N(!new)>(edges: seq<Edge<N>>, a: N, b: N, c: N)
    requires Reachable(edges, a, b) && Reachable(edges, b, c)
    ensures Reachable(edges, a, c)
  {
    var p :| PathFromTo(edges, p, a, b);
    var q :| PathFromTo(edges, q, b, c);
    assert PathFromTo(edges, p + q[1..], a, c);
  }

  lemma ReachMonotone<N(!new)>(few: seq<Edge<N>>, more: seq<Edge<N>>, a: N, b: N)
    requires Reachable(few, a, b)
    requires forall e :: e in few ==> e in more
    ensures Reachable(more, a, b)
  {
    var p :| PathFromTo(few, p, a, b);
    assert PathFromTo(more, p, a, b);
  }

  lemma PathTail<N>(edges: seq<Edge<N>>, p: seq<N>)
    requires IsPath(edges, p) && |p| > 1
    ensures IsPath(edges, p[1..])
  {
    forall i | 0 <= i < |p| - 2
      ensures Edge(p[1..][i], p[1..][i + 1]) in edges
    {
      var j := i + 1;
      assert Edge(p[j], p[j + 1]) in edges;
    }
  }

  /** An edge whose end reaches back to its start lies on a cycle. */
  lemma EdgeClosesCycle<N(!new)>(edges: seq<Edge<N>>, e: Edge<N>)
    requires e in edges && Reachable(edges, e.dependent, e.prereq)
    ensures Cyclic(edges)
  {
    var p :| PathFromTo(edges, p, e.dependent, e.prereq);
    var cycle := [e.prereq] + p;
    assert IsPath(edges, cycle) && |cycle| > 1 && cycle[0] == cycle[|cycle| - 1];
  }

  // ---- `_reaches` -----------------------------------------------------------------------

  /** The adjacency lists hold exactly `edges`, in whatever multiplicity. */
  ghost predicate Represents<N(!new)>(successors: map<N, seq<N>>, edges: seq<Edge<N>>) {
    forall a, b :: Edge(a, b) in edges <==> a in successors && b in successors[a]
  }

  ghost predicate ClosedUnder<N>(edges: seq<Edge<N>>, seen: set<N>) {
    forall e :: e in edges && e.prereq in seen ==> e.dependent in seen
  }

  lemma {:induction false} ClosedHoldsPath<N>(edges: seq<Edge<N>>, seen: set<N>, p: seq<N>)
    requires ClosedUnder(edges, seen) && IsPath(edges, p) && p[0] in seen
    ensures p[|p| - 1] in seen
  {
    if |p| > 1 {
      assert Edge(p[0], p[1]) in edges;
      PathTail(edges, p);
      ClosedHoldsPath(edges, seen, p[1..]);
    }
  }

  function Dependents<N>(edges: seq<Edge<N>>): set<N> {
    set e | e in edges :: e.dependent
  }

  /** What an edge leads to from a node already seen is seen too, or still on the stack. */
  ghost predicate Covered<N(!new)>(edges: seq<Edge<N>>, seen: set<N>, stack: seq<N>) {
    forall e :: e in edges && e.prereq in seen ==> e.dependent in seen || e.dependent in stack
  }

  lemma CoveredWithout<N(!new)>(edges: seq<Edge<N>>, seen: set<N>, rest: seq<N>, node: N)
    requires Covered(edges, seen, rest + [node]) && node in seen
    ensures Covered(edges, seen, rest)
  {
  }

  /** What is on the stack has been reached. */
  ghost predicate Met<N(!new)>(edges: seq<Edge<N>>, start: N, universe: set<N>, stack: seq<N>) {
    forall n :: n in stack ==> n in universe && Reachable(edges, start, n)
  }

  lemma CoveredWithNext<N(!new)>(
    edges: seq<Edge<N>>, successors: map<N, seq<N>>, seen: set<N>, rest: seq<N>, node: N, next: seq<N>)
    requires Represents(successors, edges) && Covered(edges, seen, rest + [node])
    requires next == if node in successors then successors[node] else []
    ensures Covered(edges, seen + {node}, rest + next)
  {
    forall e | e in edges && e.prereq in seen + {node}
      ensures e.dependent in seen + {node} || e.dependent in rest + next
    {
      assert e == Edge(e.prereq, e.dependent);
    }
  }

  /** What one more edge leads to is reached as well. */
  lemma NextIsReached<N(!new)>(edges: seq<Edge<N>>, start: N, node: N, next: seq<N>)
    requires Reachable(edges, start, node) && forall n :: n in next ==> Edge(node, n) in edges
    ensures Met(edges, start, Dependents(edges), next)
  {
    forall n | n in next
      ensures n in Dependents(edges) && Reachable(edges, start, n)
    {
      assert Edge(node, n) in edges;
      ReachesSelf(edges, n);
      ReachThroughEdge(edges, node, n, n);
      ReachTransitive(edges, start, node, n);
    }
  }

  /** Nothing outside a closed set is reached from inside it. */
  lemma ClosedMissesGoal<N(!new)>(edges: seq<Edge<N>>, seen: set<N>, start: N, goal: N)
    requires ClosedUnder(edges, seen) && start in seen && goal !in seen
    ensures !Reachable(edges, start, goal)
  {
    if Reachable(edges, start, goal) {
      var p :| PathFromTo(edges, p, start, goal);
      ClosedHoldsPath(edges, seen, p);
    }
  }

  /**
    Depth-first search with a stack that may hold a node several times. The pair (nodes not yet
    seen, stack height) decreases, so the duplicates do not keep it from finishing.
   */
  method Reaches<N(==, !new)>(start: N, goal: N, successors: map<N, seq<N>>, ghost edges: seq<Edge<N>>)
      returns (found: bool)
    requires Represents(successors, edges)
    ensures found <==> Reachable(edges, start, goal)
  {
    var stack := [start];
    var seen: set<N> := {};
    ghost var universe := {start} + Dependents(edges);
    ReachesSelf(edges, start);
    while stack != []
      invariant Met(edges, start, universe, stack)
      invariant seen <= universe && goal !in seen
      invariant start in seen || start in stack
      invariant Covered(edges, seen, stack)
      decreases |universe - seen|, |stack|
    {
      var node := stack[|stack| - 1];
      ghost var before := stack;
      stack := stack[..|stack| - 1];
      assert before == stack + [node];
      if node == goal {
        return true;
      }
      if node in seen {
        CoveredWithout(edges, seen, stack, node);
        continue;
      }
      AddingShrinksRest(universe, seen, node);
      CoveredWithNext(edges, successors, seen, stack, node, if node in successors then successors[node] else []);
      seen := seen + {node};
      var next := if node in successors then successors[node] else [];
      NextIsReached(edges, start, node, next);
      stack := stack + next;
    }
    ClosedMissesGoal(edges, seen, start, goal);
    return false;
  }

  // ---- `acyclic`: what is kept, as a function of the input order ------------------------

  /** The edges kept from `edges`, taken in the order given. */
  ghost function Kept<N(!new)>(edges: seq<Edge<N>>): seq<Edge<N>> {
    if edges == [] then []
    else
      var before := Kept(edges[..|edges| - 1]);
      var e := edges[|edges| - 1];
      if Reachable(before, e.dependent, e.prereq) then before else before + [e]
  }

  /** The edges dropped from `edges`, in the order given. */
  ghost function Dropped<N(!new)>(edges: seq<Edge<N>>): seq<Edge<N>> {
    if edges == [] then []
    else
      var init := edges[..|edges| - 1];
      var e := edges[|edges| - 1];
      if Reachable(Kept(init), e.dependent, e.prereq) then Dropped(init) + [e] else Dropped(init)
  }

  method Acyclic<N(==, !new)>(edges: seq<Edge<N>>) returns (kept: seq<Edge<N>>, dropped: seq<Edge<N>>)
    ensures kept == Kept(edges) && dropped == Dropped(edges)
    ensures !Cyclic(kept)
  {
    var successors: map<N, seq<N>> := map[];
    kept, dropped := [], [];
    for i := 0 to |edges|
      invariant kept == Kept(edges[..i]) && dropped == Dropped(edges[..i])
      invariant Represents(successors, kept)
    {
      var e := edges[i];
      assert edges[..i + 1][..i] == edges[..i];
      var closes := Reaches(e.dependent, e.prereq, successors, kept);
      if closes {
        dropped := dropped + [e];
        continue;
      }
      var known := if e.prereq in successors then successors[e.prereq] else [];
      successors := successors[e.prereq := known + [e.dependent]];
      kept := kept + [e];
    }
    assert edges[..|edges|] == edges;
    KeptIsAcyclic(edges);
  }

  // ---- What keeping edges this way guarantees -------------------------------------------

  /** A walk that may use the extra edge `e` splits at its first and last use of `e`. */
  lemma {:induction false} WalkSplits<N(!new)>(k: seq<Edge<N>>, e: Edge<N>, p: seq<N>)
    requires IsPath(k + [e], p)
    ensures || Reachable(k, p[0], p[|p| - 1])
            || (Reachable(k, p[0], e.prereq) && Reachable(k, e.dependent, p[|p| - 1]))
  {
    if |p| == 1 {
      ReachesSelf(k, p[0]);
    } else {
      var rest := p[1..];
      PathTail(k + [e], p);
      WalkSplits(k, e, rest);
      assert Edge(p[0], p[1]) in k + [e];
      if Edge(p[0], p[1]) in k {
        if Reachable(k, p[1], p[|p| - 1]) {
          ReachThroughEdge(k, p[0], p[1], p[|p| - 1]);
        } else {
          ReachThroughEdge(k, p[0], p[1], e.prereq);
        }
      } else {
        ReachesSelf(k, e.prereq);
      }
    }
  }

  lemma AddingKeepsAcyclic<N(!new)>(k: seq<Edge<N>>, e: Edge<N>)
    requires !Cyclic(k) && !Reachable(k, e.dependent, e.prereq)
    ensures !Cyclic(k + [e])
  {
    if Cyclic(k + [e]) {
      var p :| IsPath(k + [e], p) && |p| > 1 && p[0] == p[|p| - 1];
      var rest := p[1..];
      PathTail(k + [e], p);
      WalkSplits(k, e, rest);
      assert Edge(p[0], p[1]) in k + [e];
      if Edge(p[0], p[1]) in k {
        if Reachable(k, p[1], p[0]) {
          EdgeClosesCycle(k, Edge(p[0], p[1]));
        } else {
          ReachThroughEdge(k, p[0], p[1], e.prereq);
          ReachTransitive(k, e.dependent, p[0], e.prereq);
        }
      }
    }
  }

  /** The kept edges contain no cycle. */
  lemma {:induction false} KeptIsAcyclic<N(!new)>(edges: seq<Edge<N>>)
    ensures !Cyclic(Kept(edges))
  {
    if edges == [] {
      assert forall p :: IsPath(Kept(edges), p) && |p| > 1 ==> Edge(p[0], p[1]) in Kept(edges);
    } else {
      var init := edges[..|edges| - 1];
      KeptIsAcyclic(init);
      var e := edges[|edges| - 1];
      if !Reachable(Kept(init), e.dependent, e.prereq) {
        AddingKeepsAcyclic(Kept(init), e);
      }
    }
  }

  /** What is kept from a prefix of the input is a prefix of what is kept from all of it. */
  lemma {:induction false} KeptPrefixStable<N(!new)>(edges: seq<Edge<N>>, n: nat)
    requires n <= |edges|
    ensures Kept(edges[..n]) <= Kept(edges)
    decreases |edges|
  {
    if n == |edges| {
      assert edges[..n] == edges;
    } else {
      var init := edges[..|edges| - 1];
      assert init[..n] == edges[..n];
      KeptPrefixStable(init, n);
    }
  }

  ghost predicate Subsequence<T>(s: seq<T>, t: seq<T>) {
    if s == [] then true
    else if t == [] then false
    else || Subsequence(s, t[..|t| - 1])
         || (s[|s| - 1] == t[|t| - 1] && Subsequence(s[..|s| - 1], t[..|t| - 1]))
  }

  lemma SubsequenceGrows<T>(s: seq<T>, t: seq<T>, x: T)
    requires Subsequence(s, t)
    ensures Subsequence(s, t + [x]) && Subsequence(s + [x], t + [x])
  {
    assert (t + [x])[..|t|] == t;
    assert (s + [x])[..|s|] == s;
  }

  /** Kept and dropped share out the input, and each keeps the order the edges came in. */
  lemma KeptDroppedPartition<N(!new)>(edges: seq<Edge<N>>)
    ensures multiset(Kept(edges)) + multiset(Dropped(edges)) == multiset(edges)
    ensures Subsequence(Kept(edges), edges) && Subsequence(Dropped(edges), edges)
  {
    KeptDroppedCount(edges);
    KeptDroppedOrder(edges);
  }

  lemma {:induction false} KeptDroppedCount<N(!new)>(edges: seq<Edge<N>>)
    ensures multiset(Kept(edges)) + multiset(Dropped(edges)) == multiset(edges)
  {
    if edges != [] {
      var init, e := edges[..|edges| - 1], edges[|edges| - 1];
      KeptDroppedCount(init);
      OneMoreEdge(edges);
      assert edges == init + [e];
    }
  }

  lemma {:induction false} KeptDroppedOrder<N(!new)>(edges: seq<Edge<N>>)
    ensures Subsequence(Kept(edges), edges) && Subsequence(Dropped(edges), edges)
  {
    if edges != [] {
      var init, e := edges[..|edges| - 1], edges[|edges| - 1];
      KeptDroppedOrder(init);
      SubsequenceGrows(Kept(init), init, e);
      SubsequenceGrows(Dropped(init), init, e);
      OneMoreEdge(edges);
      assert edges == init + [e];
    }
  }

  /** The last edge is kept or dropped. */
  lemma OneMoreEdge<N(!new)>(edges: seq<Edge<N>>)
    requires edges != []
    ensures var init, e := edges[..|edges| - 1], edges[|edges| - 1];
            || (Kept(edges) == Kept(init) && Dropped(edges) == Dropped(init) + [e])
            || (Kept(edges) == Kept(init) + [e] && Dropped(edges) == Dropped(init))
  {
  }

  /**
    An edge is dropped at position `i` exactly when it would close a cycle on the edges kept
    before it.
   */
  lemma DroppedExactlyWhenClosing<N(!new)>(edges: seq<Edge<N>>, i: nat)
    requires i < |edges|
    ensures Kept(edges[..i + 1]) == Kept(edges[..i]) <==> Cyclic(Kept(edges[..i]) + [edges[i]])
    ensures Kept(edges[..i + 1]) != Kept(edges[..i]) ==> Kept(edges[..i + 1]) == Kept(edges[..i]) + [edges[i]]
  {
    var before, e := Kept(edges[..i]), edges[i];
    assert edges[..i + 1][..i] == edges[..i];
    KeptIsAcyclic(edges[..i]);
    if Reachable(before, e.dependent, e.prereq) {
      ReachMonotone(before, before + [e], e.dependent, e.prereq);
      EdgeClosesCycle(before + [e], e);
    } else {
      AddingKeepsAcyclic(before, e);
    }
  }

  /** No dropped edge could be put back: each closes a cycle on everything that was kept. */
  lemma KeptIsMaximal<N(!new)>(edges: seq<Edge<N>>, e: Edge<N>)
    requires e in Dropped(edges)
    ensures Cyclic(Kept(edges) + [e])
  {
    var i := DroppedAt(edges, e);
    var before := Kept(edges[..i]);
    KeptPrefixStable(edges, i);
    ReachMonotone(before, Kept(edges) + [e], e.dependent, e.prereq);
    EdgeClosesCycle(Kept(edges) + [e], e);
  }

  lemma {:induction false} DroppedAt<N(!new)>(edges: seq<Edge<N>>, e: Edge<N>) returns (i: nat)
    requires e in Dropped(edges)
    ensures i < |edges| && edges[i] == e && Reachable(Kept(edges[..i]), e.dependent, e.prereq)
  {
    var init := edges[..|edges| - 1];
    if e in Dropped(init) {
      i := DroppedAt(init, e);
      assert init[..i] == edges[..i];
    } else {
      i := |edges| - 1;
    }
  }

  lemma FewerEdgesAcyclic<N(!new)>(few: seq<Edge<N>>, more: seq<Edge<N>>)
    requires !Cyclic(more) && forall e :: e in few ==> e in more
    ensures !Cyclic(few)
  {
    assert forall p :: IsPath(few, p) ==> IsPath(more, p);
  }

  /** Nothing is dropped exactly when the input has no cycle. */
  lemma {:induction false} WholeExactlyWhenAcyclic<N(!new)>(edges: seq<Edge<N>>)
    ensures Kept(edges) == edges <==> !Cyclic(edges)
  {
    if !Cyclic(edges) && edges != [] {
      var init := edges[..|edges| - 1];
      var e := edges[|edges| - 1];
      FewerEdgesAcyclic(init, edges);
      WholeExactlyWhenAcyclic(init);
      if Reachable(init, e.dependent, e.prereq) {
        ReachMonotone(init, edges, e.dependent, e.prereq);
        EdgeClosesCycle(edges, e);
      }
    }
    KeptIsAcyclic(edges);
  }
}
