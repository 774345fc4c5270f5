/** Values that may be absent, as the source writes `None`. */
module Wrappers {
  datatype Option<+T> = None | Some(value: T)
}

/** Component identifiers: a UUID, by its integer value, which orders as the UUID and its text do. */
module Ids {
  datatype KcId = Kc(id: int)
}

/** Facts about duplicates in sequences that the planner's proofs share. */
module Distinctness {

  ghost predicate NoDuplicates<T>(s: seq<T>) {
    forall i, j :: 0 <= i < j < |s| ==> s[i] != s[j]
  }

  function Elements<T>(s: seq<T>): set<T> {
    set x | x in s
  }

  lemma HeadAndTail<T>(s: seq<T>)
    requires s != []
    ensures s == [s[0]] + s[1..]
    ensures Elements(s) == {s[0]} + Elements(s[1..])
    ensures NoDuplicates(s) ==> NoDuplicates(s[1..]) && s[0] !in s[1..]
  {
  }

  lemma DropOne<T>(s: seq<T>, i: nat)
    requires i < |s|
    ensures s[i..] == [s[i]] + s[i + 1..]
    ensures multiset(s[i..]) == multiset{s[i]} + multiset(s[i + 1..])
  {
  }

  lemma JoinDistinct<T>(s: seq<T>, t: seq<T>)
    ensures Elements(s + t) == Elements(s) + Elements(t)
    ensures NoDuplicates(s) && NoDuplicates(t) && Elements(s) !! Elements(t) ==> NoDuplicates(s + t)
  {
    forall i, j | 0 <= i < |s| && 0 <= j < |t| && Elements(s) !! Elements(t)
      ensures s[i] != t[j]
    {
      assert s[i] in Elements(s) && t[j] in Elements(t);
    }
  }

  lemma AddingShrinksRest<T>(universe: set<T>, seen: set<T>, x: T)
    requires x in universe && x !in seen
    ensures |universe - (seen + {x})| < |universe - seen|
  {
    assert universe - (seen + {x}) == universe - seen - {x};
  }

  /** Distinctness depends only on how often each element occurs. */
  lemma {:induction false} NoDuplicatesByCount<T>(s: seq<T>)
    ensures NoDuplicates(s) <==> forall x :: multiset(s)[x] <= 1
  {
    if s != [] {
      var init, last := s[..|s| - 1], s[|s| - 1];
      assert s == init + [last];
      NoDuplicatesByCount(init);
      if NoDuplicates(s) {
        assert NoDuplicates(init);
        assert last !in init;
        assert last !in multiset(init);
      } else if forall x :: multiset(s)[x] <= 1 {
        assert multiset(s)[last] == multiset(init)[last] + 1;
        assert last !in multiset(init);
        assert forall x :: multiset(init)[x] <= multiset(s)[x];
      }
    }
  }

  lemma ElementsAppend<T>(s: seq<T>, x: T)
    ensures Elements(s + [x]) == Elements(s) + {x}
    ensures NoDuplicates(s) && x !in s ==> NoDuplicates(s + [x])
  {
  }

  lemma SameCountsSameDistinctness<T>(s: seq<T>, t: seq<T>)
    requires multiset(s) == multiset(t)
    ensures NoDuplicates(s) <==> NoDuplicates(t)
    ensures Elements(s) == Elements(t) && |s| == |t|
  {
    NoDuplicatesByCount(s);
    NoDuplicatesByCount(t);
    assert |s| == |multiset(s)|;
    assert forall x :: x in s <==> x in multiset(s);
    assert forall x :: x in t <==> x in multiset(t);
  }

  lemma {:induction false} DistinctCardinality<T>(s: seq<T>)
    ensures |Elements(s)| <= |s|
    ensures NoDuplicates(s) <==> |Elements(s)| == |s|
  {
    if s != [] {
      var init, last := s[..|s| - 1], s[|s| - 1];
      assert s == init + [last];
      DistinctCardinality(init);
      assert Elements(s) == Elements(init) + {last};
      if NoDuplicates(s) {
        assert NoDuplicates(init) && last !in init;
      } else if last !in init {
        assert !NoDuplicates(init);
      }
    }
  }

  lemma SubsetCardinality<T>(a: set<T>, b: set<T>)
    requires a <= b
    ensures |a| <= |b|
    ensures |a| == |b| ==> a == b
  {
    assert b == a + (b - a);
    assert |b| == |a| + |b - a|;
  }

  /** Pigeonhole: a sequence longer than the set it is drawn from repeats itself. */
  lemma Pigeonhole<T>(s: seq<T>, u: set<T>) returns (i: nat, j: nat)
    requires Elements(s) <= u && |s| > |u|
    ensures i < j < |s| && s[i] == s[j]
  {
    SubsetCardinality(Elements(s), u);
    DistinctCardinality(s);
    i, j :| 0 <= i < j < |s| && s[i] == s[j];
  }
}
