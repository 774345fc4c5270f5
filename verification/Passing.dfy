/** Runs of unaided passes: `passed_since` (`app/learning/mastery.py`). */
module Passing {
  import opened Wrappers
  import opened Ids
  import opened Evidence
  import Sorting

  /** A question is told apart by its item; an attempt without one is its own question. */
  datatype Question = OfItem(item: int) | OfAttempt(key: int)

  /** What the query returns of one answer. */
  datatype Look = Look(kc: KcId, passed: bool, counted: bool, question: Question)

  function QuestionOf(a: Attempt): Question {
    if a.item.Some? then OfItem(a.item.value) else OfAttempt(a.key)
  }

  /** The questions passed alone, counting back from the first of `looks` to the first failure. */
  function RunOf(looks: seq<Look>): set<Question> {
    if looks == [] || !looks[0].passed then {}
    else (if looks[0].counted then {looks[0].question} else {}) + RunOf(looks[1..])
  }

  function OfKc(looks: seq<Look>, kc: KcId): seq<Look> {
    if looks == [] then []
    else if looks[0].kc == kc then [looks[0]] + OfKc(looks[1..], kc)
    else OfKc(looks[1..], kc)
  }

  /** The component's run is long enough; with no counted pass there is no run at all. */
  predicate RunShown(looks: seq<Look>, passes: int) {
    RunOf(looks) != {} && |RunOf(looks)| >= passes
  }

  function ItemsOf(items: map<KcId, set<Question>>, kc: KcId): set<Question> {
    if kc in items then items[kc] else {}
  }

  /** What the loop still finds for `kc` at row `i`, given what it has found. */
  ghost function RunFrom(rows: seq<Look>, i: nat, items: map<KcId, set<Question>>, broken: set<KcId>, kc: KcId): set<Question>
    requires i <= |rows|
  {
    ItemsOf(items, kc) + (if kc in broken then {} else RunOf(OfKc(rows[i..], kc)))
  }

  lemma RowTaken(rows: seq<Look>, i: nat, kc: KcId)
    requires i < |rows|
    ensures OfKc(rows[i..], kc) == (if rows[i].kc == kc then [rows[i]] else []) + OfKc(rows[i + 1..], kc)
  {
    assert rows[i..][1..] == rows[i + 1..];
  }

  lemma RunTaken(look: Look, rest: seq<Look>)
    ensures RunOf([look] + rest) == if !look.passed then {} else (if look.counted then {look.question} else {}) + RunOf(rest)
  {
    assert ([look] + rest)[1..] == rest;
  }

  /** What the first row still to come adds to a component's run. */
  lemma RunWithoutRow(rows: seq<Look>, i: nat, items: map<KcId, set<Question>>, broken: set<KcId>, kc: KcId)
    requires i < |rows|
    ensures var look, rest := rows[i], RunOf(OfKc(rows[i + 1..], kc));
            RunFrom(rows, i, items, broken, kc) ==
              ItemsOf(items, kc)
              + (if kc in broken then {}
                 else if look.kc != kc then rest
                 else if !look.passed then {}
                 else (if look.counted then {look.question} else {}) + rest)
  {
    RowTaken(rows, i, kc);
    RunTaken(rows[i], OfKc(rows[i + 1..], kc));
    assert [] + OfKc(rows[i + 1..], kc) == OfKc(rows[i + 1..], kc);
  }

  /** Counting the first row still to come changes no component's run. */
  lemma RowDone(
    rows: seq<Look>, i: nat, items0: map<KcId, set<Question>>, broken0: set<KcId>,
    items: map<KcId, set<Question>>, broken: set<KcId>, kc: KcId)
    requires i < |rows|
    requires var look := rows[i];
             && broken == (if look.kc !in broken0 && !look.passed then broken0 + {look.kc} else broken0)
             && items == if look.kc !in broken0 && look.passed && look.counted
                         then items0[look.kc := ItemsOf(items0, look.kc) + {look.question}] else items0
    ensures RunFrom(rows, i + 1, items, broken, kc) == RunFrom(rows, i, items0, broken0, kc)
  {
    RunWithoutRow(rows, i, items0, broken0, kc);
  }

  /** `passed_since`, over rows that are each component's answers, latest first. */
  method PassedSince(rows: seq<Look>, passes: int) returns (confirmed: set<KcId>)
    ensures forall kc :: kc in confirmed <==> RunShown(OfKc(rows, kc), passes)
  {
    var items: map<KcId, set<Question>> := map[];
    var broken: set<KcId> := {};
    var i := 0;
    assert rows[0..] == rows;
    while i < |rows|
      invariant i <= |rows|
      invariant forall kc :: RunFrom(rows, i, items, broken, kc) == RunOf(OfKc(rows, kc))
      invariant forall kc :: kc in items ==> items[kc] != {}
    {
      var look := rows[i];
      ghost var items0, broken0 := items, broken;
      if look.kc in broken {
      } else if !look.passed {
        broken := broken + {look.kc};
      } else if look.counted {
        items := items[look.kc := ItemsOf(items, look.kc) + {look.question}];
      }
      forall kc
        ensures RunFrom(rows, i + 1, items, broken, kc) == RunFrom(rows, i, items0, broken0, kc)
      {
        RowDone(rows, i, items0, broken0, items, broken, kc);
      }
      i := i + 1;
    }
    confirmed := set kc | kc in items && |items[kc]| >= passes;
    forall kc
      ensures kc in confirmed <==> RunShown(OfKc(rows, kc), passes)
    {
      assert RunFrom(rows, i, items, broken, kc) == ItemsOf(items, kc);
    }
  }

  // ---- The rows of one component ----------------------------------------------------------

  function AnswersSince(events: seq<Event>, since: int): seq<Attempt> {
    if events == [] then []
    else
      var before, e := AnswersSince(events[..|events| - 1], since), events[|events| - 1];
      if e.Answer? && e.attempt.at >= since then before + [e.attempt] else before
  }

  function AtKey(a: Attempt): Sorting.Key {
    Sorting.Key(a.at, 0, 0)
  }

  function Reversed<T>(s: seq<T>): seq<T> {
    if s == [] then [] else Reversed(s[1..]) + [s[0]]
  }

  /** Latest observed first; the later row first among equals. */
  function LatestFirst(answers: seq<Attempt>): seq<Attempt> {
    Reversed(Sorting.StableSort(answers, AtKey))
  }

  function LookAt(kc: KcId, a: Attempt, passMark: real): Look {
    Look(kc, a.score >= passMark, a.hints == 0 && a.prior == 0 && !a.taught, QuestionOf(a))
  }

  function Looks(kc: KcId, answers: seq<Attempt>, passMark: real): seq<Look> {
    seq(|answers|, i requires 0 <= i < |answers| => LookAt(kc, answers[i], passMark))
  }

  /** The rows `passed_since` reads for one component. */
  function RowsOf(kc: KcId, events: seq<Event>, since: int, passMark: real): seq<Look> {
    Looks(kc, LatestFirst(AnswersSince(events, since)), passMark)
  }

  lemma {:induction false} OfKcJoin(a: seq<Look>, b: seq<Look>, kc: KcId)
    ensures OfKc(a + b, kc) == OfKc(a, kc) + OfKc(b, kc)
    decreases |a|
  {
    if a == [] {
      assert a + b == b;
    } else {
      assert (a + b)[1..] == a[1..] + b;
      OfKcJoin(a[1..], b, kc);
    }
  }

  lemma {:induction false} OfKcOwn(rows: seq<Look>, kc: KcId, other: KcId)
    requires forall i :: 0 <= i < |rows| ==> rows[i].kc == kc
    ensures OfKc(rows, other) == if other == kc then rows else []
    decreases |rows|
  {
    if rows != [] {
      OfKcOwn(rows[1..], kc, other);
    }
  }

  /** A question is in the run exactly when some counted pass of it comes before any failure. */
  lemma {:induction false} RunMeans(looks: seq<Look>, q: Question)
    ensures q in RunOf(looks) <==>
      exists i :: 0 <= i < |looks| && looks[i].counted && looks[i].question == q && AllPassed(looks, i)
    decreases |looks|
  {
    if looks != [] && looks[0].passed {
      var rest := looks[1..];
      RunMeans(rest, q);
      if q in RunOf(rest) {
        var i :| 0 <= i < |rest| && rest[i].counted && rest[i].question == q && AllPassed(rest, i);
        AllPassedCons(looks, i);
        assert looks[i + 1] == rest[i];
      } else if exists i :: 0 <= i < |looks| && looks[i].counted && looks[i].question == q && AllPassed(looks, i) {
        var i :| 0 <= i < |looks| && looks[i].counted && looks[i].question == q && AllPassed(looks, i);
        if i > 0 {
          AllPassedCons(looks, i - 1);
          assert rest[i - 1] == looks[i];
        }
      }
    } else if looks != [] {
      forall i | 0 <= i < |looks|
        ensures !AllPassed(looks, i)
      {
        assert !looks[0].passed;
      }
    }
  }

  predicate AllPassed(looks: seq<Look>, i: nat)
    requires i < |looks|
  {
    forall j :: 0 <= j <= i ==> looks[j].passed
  }

  lemma AllPassedCons(looks: seq<Look>, i: nat)
    requires i + 1 < |looks| && looks[0].passed
    ensures AllPassed(looks, i + 1) == AllPassed(looks[1..], i)
  {
    var rest := looks[1..];
    assert forall j :: 0 <= j < |rest| ==> rest[j] == looks[j + 1];
    if AllPassed(rest, i) {
      forall j | 0 <= j <= i + 1
        ensures looks[j].passed
      {
        assert j > 0 ==> rest[j - 1].passed;
      }
    }
  }

  // ---- The rows, from the log -------------------------------------------------------------

  lemma {:induction false} ReversedAt<T>(s: seq<T>, k: nat)
    requires k < |s|
    ensures |Reversed(s)| == |s| && Reversed(s)[k] == s[|s| - 1 - k]
    decreases |s|
  {
    if |s| > 1 {
      ReversedAt(s[1..], if k < |s| - 1 then k else 0);
    }
  }

  lemma {:induction false} ReversedCounts<T>(s: seq<T>)
    ensures |Reversed(s)| == |s| && multiset(Reversed(s)) == multiset(s)
    decreases |s|
  {
    if s != [] {
      ReversedCounts(s[1..]);
      assert s == [s[0]] + s[1..];
    }
  }

  /** The answers are read latest observed first, each of them once. */
  lemma LatestComesFirst(answers: seq<Attempt>)
    ensures multiset(LatestFirst(answers)) == multiset(answers) && |LatestFirst(answers)| == |answers|
    ensures forall i, j :: 0 <= i < j < |LatestFirst(answers)| ==> LatestFirst(answers)[i].at >= LatestFirst(answers)[j].at
  {
    var sorted := Sorting.StableSort(answers, AtKey);
    ReversedCounts(sorted);
    assert |answers| == |multiset(answers)| == |multiset(sorted)|;
    Sorting.StableSortSorts(answers, AtKey);
    forall i, j | 0 <= i < j < |sorted|
      ensures LatestFirst(answers)[i].at >= LatestFirst(answers)[j].at
    {
      ReversedAt(sorted, i);
      ReversedAt(sorted, j);
      assert Sorting.Leq(AtKey(sorted[|sorted| - 1 - j]), AtKey(sorted[|sorted| - 1 - i]));
    }
  }

  /** `b` in front of `a`, though they were observed at the same time. */
  function Swapped(a: Attempt, b: Attempt): (Attempt, Attempt) -> bool {
    (x: Attempt, y: Attempt) => x == b && y == a && a.at == b.at
  }

  ghost predicate ReadBefore(read: seq<Attempt>, x: Attempt, y: Attempt) {
    exists i, j :: 0 <= i < j < |read| && read[i] == x && read[j] == y
  }

  /** Of two answers observed at the same time the one logged later is read first. */
  lemma LaterRowFirst(answers: seq<Attempt>, m: nat, n: nat)
    requires m < n < |answers| && answers[m].at == answers[n].at
    requires forall i, j :: 0 <= i < j < |answers| ==> answers[i] != answers[j]
    ensures ReadBefore(LatestFirst(answers), answers[n], answers[m])
  {
    var a, b, sorted := answers[m], answers[n], Sorting.StableSort(answers, AtKey);
    NeverSwapped(answers, m, n);
    OnlyAt(answers, m, n);
    Sorting.SortKeepsApart(answers, AtKey, Swapped(a, b));
    assert a in multiset(sorted) && b in multiset(sorted);
    ReadInOrder(sorted, a, b);
  }

  lemma ReadInOrder(sorted: seq<Attempt>, a: Attempt, b: Attempt)
    requires a in sorted && b in sorted && a != b && a.at == b.at && Sorting.Apart(sorted, Swapped(a, b))
    ensures ReadBefore(Reversed(sorted), b, a)
  {
    var u: nat :| u < |sorted| && sorted[u] == a;
    var v: nat :| v < |sorted| && sorted[v] == b;
    Sorting.NotApart(sorted, Swapped(a, b), v, u);
    ReversedAt(sorted, |sorted| - 1 - v);
    ReversedAt(sorted, |sorted| - 1 - u);
    assert Reversed(sorted)[|sorted| - 1 - v] == b && Reversed(sorted)[|sorted| - 1 - u] == a;
  }

  lemma NeverSwapped(answers: seq<Attempt>, m: nat, n: nat)
    requires m < n < |answers| && forall i, j :: 0 <= i < j < |answers| ==> answers[i] != answers[j]
    ensures Sorting.Apart(answers, Swapped(answers[m], answers[n]))
  {
    forall i, j | 0 <= i < j < |answers|
      ensures !Swapped(answers[m], answers[n])(answers[i], answers[j])
    {
      OnlyAt(answers, i, n);
      OnlyAt(answers, j, m);
    }
  }

  lemma OnlyAt(answers: seq<Attempt>, i: nat, n: nat)
    requires i < |answers| && n < |answers|
    requires forall i, j :: 0 <= i < j < |answers| ==> answers[i] != answers[j]
    ensures answers[i] == answers[n] ==> i == n
  {
  }

  /** The answers read are the log's, each observed no earlier than the moment asked about. */
  lemma {:induction false} AnswersSinceAre(events: seq<Event>, since: int)
    ensures forall a :: a in AnswersSince(events, since) <==>
      exists i :: 0 <= i < |events| && events[i].Answer? && events[i].attempt == a && a.at >= since
    decreases |events|
  {
    if events != [] {
      var init, e := events[..|events| - 1], events[|events| - 1];
      AnswersSinceAre(init, since);
      forall a
        ensures a in AnswersSince(events, since) <==>
          exists i :: 0 <= i < |events| && events[i].Answer? && events[i].attempt == a && a.at >= since
      {
        if a in AnswersSince(init, since) {
          var i :| 0 <= i < |init| && init[i].Answer? && init[i].attempt == a && a.at >= since;
          assert events[i].Answer? && events[i].attempt == a;
        }
        if i :| 0 <= i < |events| && events[i].Answer? && events[i].attempt == a && a.at >= since {
          if i < |init| {
            assert init[i].Answer? && init[i].attempt == a;
          }
        }
      }
    }
  }

  /** The question an answer counts for: its item, or itself when it has none. */
  predicate IsAbout(a: Attempt, q: Question) {
    (a.item.Some? && q == OfItem(a.item.value)) || (a.item.None? && q == OfAttempt(a.key))
  }

  /** Answer `i` was about `q`, alone and without teaching, and it and every one read before it reached the mark. */
  predicate Counts(read: seq<Attempt>, i: int, mark: real, q: Question) {
    && 0 <= i < |read| && read[i].hints == 0 && read[i].prior == 0 && !read[i].taught && IsAbout(read[i], q)
    && forall j :: 0 <= j <= i ==> read[j].score >= mark
  }

  lemma InRun(looks: seq<Look>, q: Question, i: nat)
    requires i < |looks| && looks[i].counted && looks[i].question == q && AllPassed(looks, i)
    ensures q in RunOf(looks)
  {
    RunMeans(looks, q);
  }

  lemma CountsMeans(kc: KcId, read: seq<Attempt>, mark: real, q: Question, i: nat)
    requires i < |read|
    ensures var looks := Looks(kc, read, mark);
            looks[i].counted && looks[i].question == q && AllPassed(looks, i) <==> Counts(read, i, mark, q)
  {
    var looks := Looks(kc, read, mark);
    assert forall j :: 0 <= j <= i ==> looks[j] == LookAt(kc, read[j], mark);
  }

  lemma RunOverReads(kc: KcId, read: seq<Attempt>, mark: real, q: Question)
    ensures q in RunOf(Looks(kc, read, mark)) <==> exists i: nat :: Counts(read, i, mark, q)
  {
    var looks := Looks(kc, read, mark);
    if i: nat :| Counts(read, i, mark, q) {
      CountsMeans(kc, read, mark, q, i);
      InRun(looks, q, i);
    }
    if q in RunOf(looks) {
      RunMeans(looks, q);
      var i: nat :| i < |looks| && looks[i].counted && looks[i].question == q && AllPassed(looks, i);
      CountsMeans(kc, read, mark, q, i);
      assert Counts(read, i, mark, q);
    }
  }

  /** A question is in a component's run exactly when some answer of the log, read latest first, counts for it. */
  lemma RunOverLog(kc: KcId, events: seq<Event>, since: int, mark: real, q: Question, read: seq<Attempt>)
    requires read == LatestFirst(AnswersSince(events, since))
    ensures q in RunOf(RowsOf(kc, events, since, mark)) <==> exists i: nat :: Counts(read, i, mark, q)
  {
    RunOverReads(kc, read, mark, q);
  }
}
