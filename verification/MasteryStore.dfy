/** The learner's state rows and event log, written as `app/learning/mastery.py` writes them. */
module MasteryStore {
  import opened Wrappers
  import opened Ids
  import opened Estimates
  import opened Evidence
  import opened Passing
  import opened MasteryRow
  import opened MasteryRuns
  import D = Distinctness
  import Sorting

  /** A component an item is tagged with, and its relative credit. */
  datatype Tag = Tag(kc: KcId, weight: real)

  /** One graded interaction; `kcScores` holds the scores of components judged apart. */
  datatype Observation = Observation(
    tags: seq<Tag>, score: real, kcScores: map<KcId, real>, difficulty: real, item: Option<int>,
    hints: nat, prior: nat, taught: bool, correct: bool, key: int, selfReported: bool)

  function ByKc(t: Tag): Sorting.Key {
    Sorting.Key(t.kc.id, 0, 0)
  }

  function TotalWeight(tags: seq<Tag>): real {
    if tags == [] then 0.0 else tags[0].weight + TotalWeight(tags[1..])
  }

  /** What the validators of `Observation` let through, its tags being the keys of a dictionary. */
  ghost predicate ValidObservation(obs: Observation) {
    && obs.tags != []
    && (forall t :: t in obs.tags ==> t.weight > 0.0)
    && DistinctKcs(obs.tags)
  }

  lemma {:induction false} TotalIsPositive(tags: seq<Tag>)
    requires forall t :: t in tags ==> t.weight > 0.0
    ensures TotalWeight(tags) >= 0.0 && (tags != [] ==> TotalWeight(tags) > 0.0)
    decreases |tags|
  {
    if tags != [] {
      TotalIsPositive(tags[1..]);
      assert tags[0] in tags;
    }
  }

  /** `evidence_credit`: the fraction of a full observation an assisted attempt earns. */
  function Credit(hints: nat, prior: nat): real {
    1.0 / (1.0 + (hints + prior) as real)
  }

  function ScoreFor(obs: Observation, kc: KcId): real {
    if kc in obs.kcScores then obs.kcScores[kc] else obs.score
  }

  /** The event one tag of the observation logs. */
  function EventFor(obs: Observation, tag: Tag, total: real, now: int): Event
    requires total > 0.0
  {
    var a := Attempt(obs.key, now, ScoreFor(obs, tag.kc), obs.item, obs.hints, obs.prior, obs.taught, obs.correct);
    if obs.selfReported then SelfReport(a) else Answer(a, obs.difficulty, tag.weight / total, Credit(obs.hints, obs.prior))
  }

  function ActionFor(obs: Observation, tag: Tag, total: real, now: int): (a: Action)
    requires total > 0.0
    ensures WellFormed(a)
  {
    var e := EventFor(obs, tag, total, now);
    if obs.selfReported then Rated(e) else Graded(e)
  }

  /** Nothing is lost between what came in and what is logged for one tag: the log grew by this event. */
  ghost predicate Logged(obs: Observation, tag: Tag, now: int, before: seq<Event>, after: seq<Event>) {
    && |after| == |before| + 1 && after[..|before|] == before
    && var e := after[|before|];
       && IsAttempt(e) && (e.SelfReport? <==> obs.selfReported)
       && e.attempt.score == (if tag.kc in obs.kcScores then obs.kcScores[tag.kc] else obs.score)
       && e.attempt.at == now && e.attempt.key == obs.key && e.attempt.item == obs.item
       && e.attempt.hints == obs.hints && e.attempt.prior == obs.prior
       && e.attempt.taught == obs.taught && e.attempt.correct == obs.correct
       && (e.Answer? ==>
             && e.difficulty == obs.difficulty
             && e.weight * TotalWeight(obs.tags) == tag.weight
             && e.credit * (1.0 + obs.hints as real + obs.prior as real) == 1.0)
  }

  lemma ActionLogs(p: Policy, obs: Observation, tag: Tag, now: int, c: Component)
    requires TotalWeight(obs.tags) > 0.0
    ensures Logged(obs, tag, now, c.events, Act(p, tag.kc, c, ActionFor(obs, tag, TotalWeight(obs.tags), now)).events)
  {
    var total := TotalWeight(obs.tags);
    assert tag.weight / total * total == tag.weight;
    CreditIs(obs.hints, obs.prior);
    var after := Act(p, tag.kc, c, ActionFor(obs, tag, total, now)).events;
    assert after == c.events + [EventFor(obs, tag, total, now)];
  }

  lemma CreditIs(hints: nat, prior: nat)
    ensures Credit(hints, prior) * (1.0 + hints as real + prior as real) == 1.0
  {
    assert (hints + prior) as real == hints as real + prior as real;
  }

  function Shares(tags: seq<Tag>, total: real): real
    requires total != 0.0
  {
    if tags == [] then 0.0 else tags[0].weight / total + Shares(tags[1..], total)
  }

  /** The shares of an observation's tags add up to one whole observation. */
  lemma SharesAddUp(tags: seq<Tag>, total: real)
    requires total == TotalWeight(tags) && total > 0.0
    ensures Shares(tags, total) == 1.0
  {
    SharesScale(tags, total, total);
    assert total / total == 1.0;
  }

  lemma {:induction false} SharesScale(tags: seq<Tag>, total: real, sum: real)
    requires total > 0.0 && sum == TotalWeight(tags)
    ensures Shares(tags, total) == sum / total
    decreases |tags|
  {
    if tags != [] {
      var rest := TotalWeight(tags[1..]);
      SharesScale(tags[1..], total, rest);
      Quotients(tags[0].weight, rest, total);
    }
  }

  lemma Quotients(x: real, y: real, z: real)
    requires z > 0.0
    ensures x / z + y / z == (x + y) / z
  {
  }

  /** The part of a write that happens in the loop over the components, before any milestone is looked at. */
  function Folded(p: Policy, c: Component, e: Event): Component
    requires IsAttempt(e)
  {
    Component(Some(if e.Answer? then GradeRow(p, Held(c), e) else RateRow(p, Held(c), e)), c.events + [e])
  }

  /** The head start a source gives: its estimate decayed to now, never more certain than the floor. */
  function Carried(p: Policy, source: Row, now: int): Estimate {
    var current := p.decay(source.estimate, ElapsedDays(source.lastSeen, now));
    Estimate(current.ability, if current.uncertainty < p.floor then p.floor else current.uncertainty)
  }

  /** A head start has the source's decayed ability, and is never more certain than the source now is or the floor. */
  lemma CarriedIs(p: Policy, source: Row, now: int, days: real)
    requires days * MICROSECONDS_PER_DAY == if source.lastSeen.Some? && source.lastSeen.value <= now then (now - source.lastSeen.value) as real else 0.0
    ensures var current, carried := p.decay(source.estimate, days), Carried(p, source, now);
            && carried.ability == current.ability
            && carried.uncertainty >= p.floor && carried.uncertainty >= current.uncertainty
            && (carried.uncertainty == p.floor || carried.uncertainty == current.uncertainty)
  {
    ElapsedIs(source.lastSeen, now, days);
  }

  /** What is done to a row once the answer's event is in the log. */
  function Settled(p: Policy, kc: KcId, row: Row, events: seq<Event>, now: int): Row {
    MarkRow(p, AchieveRow(p, ConfirmRow(p, kc, row, events, now), events, now), events, now)
  }

  function KcsOf(tags: seq<Tag>): seq<KcId> {
    seq(|tags|, i requires 0 <= i < |tags| => tags[i].kc)
  }

  predicate SameKc(a: Tag, b: Tag) {
    a.kc == b.kc
  }

  ghost predicate DistinctKcs(tags: seq<Tag>) {
    forall i, j :: 0 <= i < j < |tags| ==> !SameKc(tags[i], tags[j])
  }

  lemma KcsAreDistinct(tags: seq<Tag>)
    requires DistinctKcs(tags)
    ensures D.NoDuplicates(KcsOf(tags))
  {
    forall i, j | 0 <= i < j < |tags|
      ensures KcsOf(tags)[i] != KcsOf(tags)[j]
    {
      assert !SameKc(tags[i], tags[j]);
    }
  }

  /** The ascending order has the same tags, still one for each component. */
  lemma OrderIsDistinct(tags: seq<Tag>, order: seq<Tag>)
    requires DistinctKcs(tags) && order == Sorting.StableSort(tags, ByKc)
    ensures DistinctKcs(order)
    ensures forall t :: t in order <==> t in tags
    ensures forall kc :: kc in KcsOf(order) <==> kc in KcsOf(tags)
  {
    Sorting.SortKeepsApart(tags, ByKc, SameKc);
    SameTags(tags, order);
  }

  lemma SameTags(tags: seq<Tag>, order: seq<Tag>)
    requires multiset(tags) == multiset(order)
    ensures forall t :: t in order <==> t in tags
    ensures forall kc :: kc in KcsOf(order) <==> kc in KcsOf(tags)
  {
    forall t
      ensures t in order <==> t in tags
    {
      assert t in order <==> t in multiset(order);
    }
    KcsIn(tags);
    KcsIn(order);
  }

  lemma KcsIn(tags: seq<Tag>)
    ensures forall kc :: kc in KcsOf(tags) <==> exists t :: t in tags && t.kc == kc
  {
    forall kc
      ensures kc in KcsOf(tags) <==> exists t :: t in tags && t.kc == kc
    {
      if kc in KcsOf(tags) {
        var i :| 0 <= i < |tags| && KcsOf(tags)[i] == kc;
        assert tags[i] in tags;
      }
      if t :| t in tags && t.kc == kc {
        var i :| 0 <= i < |tags| && tags[i] == t;
        assert KcsOf(tags)[i] == kc;
      }
    }
  }

  function EventsIn(logs: map<KcId, seq<Event>>, kc: KcId): seq<Event> {
    if kc in logs then logs[kc] else []
  }

  /** The answers `passed_since` reads for one component, if its head start is still provisional. */
  function PendingOf(p: Policy, rows: map<KcId, Row>, logs: map<KcId, seq<Event>>, kc: KcId): seq<Look> {
    if kc in rows && IsProvisional(rows[kc])
    then RowsOf(kc, EventsIn(logs, kc), rows[kc].transferred.value, p.passMark) else []
  }

  /** The query's rows for all of them, component by component. */
  function PendingLooks(p: Policy, rows: map<KcId, Row>, logs: map<KcId, seq<Event>>, kcs: seq<KcId>): seq<Look> {
    if kcs == [] then []
    else PendingLooks(p, rows, logs, kcs[..|kcs| - 1]) + PendingOf(p, rows, logs, kcs[|kcs| - 1])
  }

  lemma PendingOwn(p: Policy, rows: map<KcId, Row>, logs: map<KcId, seq<Event>>, last: KcId, kc: KcId)
    ensures OfKc(PendingOf(p, rows, logs, last), kc) == if kc == last then PendingOf(p, rows, logs, last) else []
  {
    OfKcOwn(PendingOf(p, rows, logs, last), last, kc);
  }

  lemma LastOrBefore(kcs: seq<KcId>, kc: KcId)
    requires kcs != [] && D.NoDuplicates(kcs)
    ensures var init, last := kcs[..|kcs| - 1], kcs[|kcs| - 1];
            && D.NoDuplicates(init)
            && (kc in kcs <==> kc in init || kc == last) && !(kc in init && kc == last)
  {
    var init, last := kcs[..|kcs| - 1], kcs[|kcs| - 1];
    assert kcs == init + [last];
    assert forall i :: 0 <= i < |init| ==> init[i] == kcs[i];
  }

  lemma {:induction false} PendingOfEach(
    p: Policy, rows: map<KcId, Row>, logs: map<KcId, seq<Event>>, kcs: seq<KcId>, kc: KcId)
    requires D.NoDuplicates(kcs)
    ensures OfKc(PendingLooks(p, rows, logs, kcs), kc) == if kc in kcs then PendingOf(p, rows, logs, kc) else []
    decreases |kcs|
  {
    if kcs != [] {
      var init, last := kcs[..|kcs| - 1], kcs[|kcs| - 1];
      LastOrBefore(kcs, kc);
      PendingOfEach(p, rows, logs, init, kc);
      OfKcJoin(PendingLooks(p, rows, logs, init), PendingOf(p, rows, logs, last), kc);
      PendingOwn(p, rows, logs, last, kc);
      var before, own := PendingLooks(p, rows, logs, init), PendingOf(p, rows, logs, last);
      assert PendingLooks(p, rows, logs, kcs) == before + own;
      assert OfKc(before + own, kc) == OfKc(before, kc) + OfKc(own, kc);
    }
  }

  function WithConfirmed(row: Row, confirmed: bool, now: int): Row {
    if confirmed then row.(confirmed := Some(now)) else row
  }

  /** Whether the query confirms a head start says just what `ConfirmRow` says of it. */
  lemma ConfirmedByRun(
    p: Policy, rows: map<KcId, Row>, logs: map<KcId, seq<Event>>, kcs: seq<KcId>, kc: KcId, now: int)
    requires D.NoDuplicates(kcs) && kc in kcs && kc in rows
    ensures ConfirmRow(p, kc, rows[kc], EventsIn(logs, kc), now)
         == WithConfirmed(rows[kc], RunShown(OfKc(PendingLooks(p, rows, logs, kcs), kc), p.passes), now)
  {
    PendingOfEach(p, rows, logs, kcs, kc);
  }

  class Store {
    const policy: Policy
    var rows: map<KcId, Row>
    var logs: map<KcId, seq<Event>>

    constructor (p: Policy)
      ensures policy == p && forall kc :: View(kc) == UNSEEN
    {
      policy := p;
      rows := map[];
      logs := map[];
    }

    function EventsAt(kc: KcId): seq<Event>
      reads this
    {
      EventsIn(logs, kc)
    }

    function View(kc: KcId): Component
      reads this
    {
      Component(if kc in rows then Some(rows[kc]) else None, EventsAt(kc))
    }

    /** Every component's row is the replay of its log, in whatever order attempts came in. */
    ghost predicate Replays()
      reads this
    {
      forall kc :: Kept(policy, View(kc))
    }

    /** Every component's row agrees with its log. */
    ghost predicate Valid()
      reads this
    {
      forall kc :: Sound(policy, View(kc))
    }

    /** `_get_or_create_state`. */
    method GetOrCreate(kc: KcId) returns (row: Row)
      modifies this`rows
      ensures row == Held(old(View(kc))) && rows == old(rows)[kc := row]
    {
      if kc !in rows {
        rows := rows[kc := FRESH];
      }
      row := rows[kc];
    }

    /** One component of an answer or a rating: its row folded, its event logged. */
    method FoldOne(kc: KcId, e: Event)
      requires IsAttempt(e)
      modifies this
      ensures View(kc) == Folded(policy, old(View(kc)), e)
      ensures forall other :: other != kc ==> View(other) == old(View(other))
    {
      var row := GetOrCreate(kc);
      if e.SelfReport? {
        rows := rows[kc := RateRow(policy, row, e)];
      } else {
        rows := rows[kc := GradeRow(policy, row, e)];
      }
      logs := logs[kc := EventsAt(kc) + [e]];
    }

    /** `_confirm_transfers`. */
    method ConfirmTransfers(kcs: seq<KcId>, now: int)
      requires forall kc :: kc in kcs ==> kc in rows
      requires D.NoDuplicates(kcs)
      modifies this`rows
      ensures rows.Keys == old(rows).Keys
      ensures forall kc :: kc in kcs ==> rows[kc] == ConfirmRow(policy, kc, old(rows)[kc], EventsAt(kc), now)
      ensures forall kc :: kc in rows && kc !in kcs ==> rows[kc] == old(rows)[kc]
    {
      var confirmed := PassedSince(PendingLooks(policy, rows, logs, kcs), policy.passes);
      forall kc | kc in kcs
        ensures ConfirmRow(policy, kc, rows[kc], EventsAt(kc), now) == WithConfirmed(rows[kc], kc in confirmed, now)
      {
        ConfirmedByRun(policy, rows, logs, kcs, kc, now);
      }
      StampConfirmed(kcs, confirmed, now);
    }

    method StampConfirmed(kcs: seq<KcId>, confirmed: set<KcId>, now: int)
      requires forall kc :: kc in kcs ==> kc in rows
      requires D.NoDuplicates(kcs)
      modifies this`rows
      ensures rows.Keys == old(rows).Keys
      ensures forall kc :: kc in kcs ==> rows[kc] == WithConfirmed(old(rows)[kc], kc in confirmed, now)
      ensures forall kc :: kc in rows && kc !in kcs ==> rows[kc] == old(rows)[kc]
    {
      for i := 0 to |kcs|
        invariant rows.Keys == old(rows).Keys
        invariant forall j :: 0 <= j < i ==> rows[kcs[j]] == WithConfirmed(old(rows)[kcs[j]], kcs[j] in confirmed, now)
        invariant forall j :: i <= j < |kcs| ==> rows[kcs[j]] == old(rows)[kcs[j]]
        invariant forall kc :: kc in rows && kc !in kcs ==> rows[kc] == old(rows)[kc]
      {
        var kc := kcs[i];
        if kc in confirmed {
          rows := rows[kc := rows[kc].(confirmed := Some(now))];
        }
      }
    }

    /** `_record_achievements`. */
    method RecordAchievements(kcs: seq<KcId>, now: int)
      requires forall kc :: kc in kcs ==> kc in rows
      requires D.NoDuplicates(kcs)
      modifies this`rows
      ensures rows.Keys == old(rows).Keys
      ensures forall kc :: kc in kcs ==> rows[kc] == AchieveRow(policy, old(rows)[kc], EventsAt(kc), now)
      ensures forall kc :: kc in rows && kc !in kcs ==> rows[kc] == old(rows)[kc]
    {
      for i := 0 to |kcs|
        invariant rows.Keys == old(rows).Keys
        invariant forall j :: 0 <= j < i ==> rows[kcs[j]] == AchieveRow(policy, old(rows)[kcs[j]], EventsAt(kcs[j]), now)
        invariant forall j :: i <= j < |kcs| ==> rows[kcs[j]] == old(rows)[kcs[j]]
        invariant forall kc :: kc in rows && kc !in kcs ==> rows[kc] == old(rows)[kc]
      {
        var kc := kcs[i];
        var row := rows[kc];
        if row.achieved.None? && Conservative(row.estimate) >= policy.bar && !IsProvisional(row) {
          if RetentionShown(EventsAt(kc), policy.gap) {
            rows := rows[kc := row.(achieved := Some(now))];
          }
        }
      }
    }

    /** `_mark_evidence`. */
    method MarkEvidence(kcs: seq<KcId>, now: int)
      requires forall kc :: kc in kcs ==> kc in rows
      requires D.NoDuplicates(kcs)
      modifies this`rows
      ensures rows.Keys == old(rows).Keys
      ensures forall kc :: kc in kcs ==> rows[kc] == MarkRow(policy, old(rows)[kc], EventsAt(kc), now)
      ensures forall kc :: kc in rows && kc !in kcs ==> rows[kc] == old(rows)[kc]
    {
      for i := 0 to |kcs|
        invariant rows.Keys == old(rows).Keys
        invariant forall j :: 0 <= j < i ==> rows[kcs[j]] == MarkRow(policy, old(rows)[kcs[j]], EventsAt(kcs[j]), now)
        invariant forall j :: i <= j < |kcs| ==> rows[kcs[j]] == old(rows)[kcs[j]]
        invariant forall kc :: kc in rows && kc !in kcs ==> rows[kc] == old(rows)[kc]
      {
        var kc := kcs[i];
        var row, events := rows[kc], EventsAt(kc);
        row := row.(unaidedLast := LastUnaided(events));
        if !RetentionShown(events, policy.gap) {
          row := row.(retention := None);
        } else if row.retention.None? {
          row := row.(retention := Some(now));
        }
        if !TransferShown(events, policy.settingOf) {
          row := row.(setting := None);
        } else if row.setting.None? {
          row := row.(setting := Some(now));
        }
        rows := rows[kc := row.(marked := Some(now))];
      }
    }

    /** The loop over the tags, in ascending order of component. */
    method FoldTags(obs: Observation, order: seq<Tag>, total: real, now: int)
      requires total > 0.0 && DistinctKcs(order)
      modifies this
      ensures forall i :: 0 <= i < |order| ==>
        View(order[i].kc) == Folded(policy, old(View(order[i].kc)), EventFor(obs, order[i], total, now))
      ensures forall kc :: kc !in KcsOf(order) ==> View(kc) == old(View(kc))
    {
      for i := 0 to |order|
        invariant forall j :: 0 <= j < i ==>
          View(order[j].kc) == Folded(policy, old(View(order[j].kc)), EventFor(obs, order[j], total, now))
        invariant forall j :: i <= j < |order| ==> View(order[j].kc) == old(View(order[j].kc))
        invariant forall kc :: kc !in KcsOf(order) ==> View(kc) == old(View(kc))
      {
        assert KcsOf(order)[i] == order[i].kc;
        assert forall j :: 0 <= j < |order| && j != i ==> !SameKc(order[j], order[i]);
        FoldOne(order[i].kc, EventFor(obs, order[i], total, now));
      }
    }

    /** What is done after the loop, to components a judged answer touched. */
    method AfterAnswer(kcs: seq<KcId>, now: int)
      requires forall kc :: kc in kcs ==> kc in rows
      requires D.NoDuplicates(kcs)
      modifies this`rows
      ensures rows.Keys == old(rows).Keys
      ensures forall kc :: kc in kcs ==> rows[kc] == Settled(policy, kc, old(rows)[kc], EventsAt(kc), now)
      ensures forall kc :: kc in rows && kc !in kcs ==> rows[kc] == old(rows)[kc]
    {
      ConfirmTransfers(kcs, now);
      RecordAchievements(kcs, now);
      MarkEvidence(kcs, now);
    }

    /** A judged answer over its tags in order: fold each, then confirm, achieve and mark. */
    method RecordAnswer(obs: Observation, order: seq<Tag>, total: real, now: int)
      requires total > 0.0 && !obs.selfReported && DistinctKcs(order)
      modifies this
      ensures forall i :: 0 <= i < |order| ==>
        View(order[i].kc) == Act(policy, order[i].kc, old(View(order[i].kc)), ActionFor(obs, order[i], total, now))
      ensures forall kc :: kc !in KcsOf(order) ==> View(kc) == old(View(kc))
    {
      FoldTags(obs, order, total, now);
      label folded:
      KcsAreDistinct(order);
      forall kc | kc in KcsOf(order)
        ensures kc in rows
      {
        var i :| 0 <= i < |order| && order[i].kc == kc;
        assert View(order[i].kc).row.Some?;
      }
      AfterAnswer(KcsOf(order), now);
      forall i | 0 <= i < |order|
        ensures View(order[i].kc) == Act(policy, order[i].kc, old(View(order[i].kc)), ActionFor(obs, order[i], total, now))
      {
        assert KcsOf(order)[i] == order[i].kc;
        assert old@folded(View(order[i].kc)) == Folded(policy, old(View(order[i].kc)), EventFor(obs, order[i], total, now));
      }
    }

    /** A self-rating over its tags in order: only the loop. */
    method RecordRating(obs: Observation, order: seq<Tag>, total: real, now: int)
      requires total > 0.0 && obs.selfReported && DistinctKcs(order)
      modifies this
      ensures forall i :: 0 <= i < |order| ==>
        View(order[i].kc) == Act(policy, order[i].kc, old(View(order[i].kc)), ActionFor(obs, order[i], total, now))
      ensures forall kc :: kc !in KcsOf(order) ==> View(kc) == old(View(kc))
    {
      FoldTags(obs, order, total, now);
    }

    /** `record_observation`. */
    method RecordObservation(obs: Observation, now: int)
      requires ValidObservation(obs)
      modifies this
      ensures TotalWeight(obs.tags) > 0.0
      ensures forall t :: t in obs.tags ==>
        View(t.kc) == Act(policy, t.kc, old(View(t.kc)), ActionFor(obs, t, TotalWeight(obs.tags), now))
      ensures forall kc :: kc !in KcsOf(obs.tags) ==> View(kc) == old(View(kc))
      ensures old(Replays()) ==> Replays()
      ensures forall t :: t in obs.tags ==> Logged(obs, t, now, old(EventsAt(t.kc)), EventsAt(t.kc))
    {
      TotalIsPositive(obs.tags);
      var total := TotalWeight(obs.tags);
      var order := Sorting.StableSort(obs.tags, ByKc);
      OrderIsDistinct(obs.tags, order);
      if obs.selfReported {
        RecordRating(obs, order, total, now);
      } else {
        RecordAnswer(obs, order, total, now);
      }
      forall t | t in obs.tags
        ensures View(t.kc) == Act(policy, t.kc, old(View(t.kc)), ActionFor(obs, t, total, now))
      {
        var i :| 0 <= i < |order| && order[i] == t;
      }
      forall t | t in obs.tags
        ensures Logged(obs, t, now, old(EventsAt(t.kc)), EventsAt(t.kc))
      {
        ActionLogs(policy, obs, t, now, old(View(t.kc)));
      }
      forall kc | old(Replays())
        ensures Kept(policy, View(kc))
      {
        KcsIn(obs.tags);
        if t :| t in obs.tags && t.kc == kc {
          ActKeeps(policy, kc, old(View(kc)), ActionFor(obs, t, total, now));
        }
      }
    }

    /** Recorded no earlier than what each component already holds, an observation keeps every row in agreement. */
    method RecordInOrder(obs: Observation, now: int)
      requires ValidObservation(obs) && Valid()
      requires forall t :: t in obs.tags ==> NoneAfter(EventsAt(t.kc), now)
      modifies this
      ensures Valid()
    {
      RecordObservation(obs, now);
      forall kc
        ensures Sound(policy, View(kc))
      {
        KcsIn(obs.tags);
        if t :| t in obs.tags && t.kc == kc {
          TimelyActKeeps(policy, kc, old(View(kc)), ActionFor(obs, t, TotalWeight(obs.tags), now));
        }
      }
    }

    /** `seed_prior`: only for a component without a row. */
    method SeedPrior(kc: KcId, estimate: Estimate) returns (seeded: bool)
      modifies this
      ensures seeded == old(View(kc)).row.None?
      ensures View(kc) == Act(policy, kc, old(View(kc)), Placed(estimate))
      ensures forall other :: other != kc ==> View(other) == old(View(other))
    {
      if kc in rows {
        return false;
      }
      rows := rows[kc := FRESH.(estimate := estimate)];
      logs := logs[kc := EventsAt(kc) + [Placement(estimate)]];
      return true;
    }

    /** `seed_transfer`: the source's estimate, decayed and widened, for a target without answers. */
    method SeedTransfer(target: KcId, source: KcId, now: int) returns (seeded: bool)
      modifies this
      ensures Held(old(View(source))).lastSeen.None? ==> !seeded && View(target) == old(View(target))
      ensures Held(old(View(source))).lastSeen.Some? ==>
        && View(target) == Act(policy, target, old(View(target)), HeadStarted(Carried(policy, Held(old(View(source))), now), source, now))
        && seeded == TakesHeadStart(Held(old(View(target))), Carried(policy, Held(old(View(source))), now))
      ensures forall other :: other != target ==> View(other) == old(View(other))
    {
      if source !in rows || rows[source].lastSeen.None? {
        return false;
      }
      var estimate := Carried(policy, rows[source], now);
      var row := GetOrCreate(target);
      if row.lastSeen.Some? {
        return false;
      }
      if row.transferred.Some? && Conservative(row.estimate) >= Conservative(estimate) {
        return false;
      }
      row := row.(estimate := estimate, transferredFrom := Some(source), transferred := Some(now), confirmed := None);
      rows := rows[target := row];
      logs := logs[target := EventsAt(target) + [HeadStart(estimate, source)]];
      return true;
    }

    /** `revoke_transfer`: only a head start from this source that no answer has built on. */
    method RevokeTransfer(target: KcId, source: KcId) returns (revoked: bool)
      modifies this
      ensures View(target) == Act(policy, target, old(View(target)), Revoked(source))
      ensures revoked == TakesRevoke(Held(old(View(target))), source)
      ensures forall other :: other != target ==> View(other) == old(View(other))
    {
      var row := GetOrCreate(target);
      if row.transferredFrom != Some(source) || row.lastSeen.Some? {
        return false;
      }
      row := row.(estimate := UNKNOWN, transferredFrom := None, transferred := None, confirmed := None);
      rows := rows[target := row];
      logs := logs[target := EventsAt(target) + [Withdrawn(source)]];
      return true;
    }

    method MarkIfMissing(kc: KcId, now: int)
      modifies this`rows
      ensures View(kc) == Act(policy, kc, old(View(kc)), Marking(now))
      ensures forall other :: other != kc ==> View(other) == old(View(other))
    {
      if kc in rows && rows[kc].marked.None? {
        MarkEvidence([kc], now);
      }
    }

    /** `_marked_states`: the milestones filled in where they are missing. */
    method MarkMissing(kcs: seq<KcId>, now: int)
      requires D.NoDuplicates(kcs)
      modifies this
      ensures forall kc :: kc in kcs ==> View(kc) == Act(policy, kc, old(View(kc)), Marking(now))
      ensures forall kc :: kc !in kcs ==> View(kc) == old(View(kc))
    {
      for i := 0 to |kcs|
        invariant forall j :: 0 <= j < i ==> View(kcs[j]) == Act(policy, kcs[j], old(View(kcs[j])), Marking(now))
        invariant forall j :: i <= j < |kcs| ==> View(kcs[j]) == old(View(kcs[j]))
        invariant forall kc :: kc !in kcs ==> View(kc) == old(View(kc))
      {
        MarkIfMissing(kcs[i], now);
      }
    }

    /** `_retention_due` over the rows: milestones and dates only, soonest first. */
    method RetentionChecks(kcs: seq<KcId>, now: int) returns (due: seq<Check>)
      requires forall kc :: kc in kcs ==> kc in rows
      ensures forall i, j :: 0 <= i < j < |due| ==> due[i].at <= due[j].at
      ensures multiset(due) == multiset(ChecksOf(policy, rows, kcs, now))
    {
      var found: seq<Check> := [];
      for i := 0 to |kcs|
        invariant found == ChecksOf(policy, rows, kcs[..i], now)
      {
        var row := rows[kcs[i]];
        assert kcs[..i + 1][..i] == kcs[..i];
        if row.unaidedLast.Some? && row.retention.None? {
          var at := CheckAt(policy, row.unaidedLast.value, row.due);
          if at <= now {
            found := found + [Check(kcs[i], at)];
          }
        }
      }
      assert kcs[..|kcs|] == kcs;
      due := Sorting.StableSort(found, ByDate);
      Sorting.StableSortSorts(found, ByDate);
    }
  }

  /** A retention check that is due. */
  datatype Check = Check(kc: KcId, at: int)

  function ByDate(c: Check): Sorting.Key {
    Sorting.Key(c.at, 0, 0)
  }

  /** The checks the rows of these components owe. */
  function ChecksOf(p: Policy, rows: map<KcId, Row>, kcs: seq<KcId>, now: int): seq<Check>
    requires forall kc :: kc in kcs ==> kc in rows
  {
    if kcs == [] then []
    else
      var init, kc := kcs[..|kcs| - 1], kcs[|kcs| - 1];
      var at := RetentionDue(p, rows[kc], now);
      if at.Some? then ChecksOf(p, rows, init, now) + [Check(kc, at.value)] else ChecksOf(p, rows, init, now)
  }

  /** What the rows owe is what the event log says is owed, for rows kept in agreement with it. */
  lemma {:induction false} ChecksAreTheLogs(
    p: Policy, rows: map<KcId, Row>, logs: map<KcId, seq<Event>>, kcs: seq<KcId>, now: int, c: Check)
    requires p.gap >= 0 && forall kc :: kc in kcs ==> kc in rows && Kept(p, Component(Some(rows[kc]), EventsIn(logs, kc)))
    ensures c in ChecksOf(p, rows, kcs, now) <==>
      c.kc in kcs && RetentionDueFromLog(p, EventsIn(logs, c.kc), rows[c.kc].due, now) == Some(c.at)
    decreases |kcs|
  {
    if kcs != [] {
      var init, kc := kcs[..|kcs| - 1], kcs[|kcs| - 1];
      ChecksAreTheLogs(p, rows, logs, init, now, c);
      DueMatchesLog(p, Component(Some(rows[kc]), EventsIn(logs, kc)), now);
      assert kcs == init + [kc];
    }
  }
}
