/** One component's state row beside its event log: every write to it (`app/learning/mastery.py`). */
module MasteryRow {
  import opened Wrappers
  import opened Ids
  import opened Estimates
  import opened Evidence
  import opened Passing

  /** The scheduler's card, opaque here. */
  datatype Card = Card(blob: int)

  /** `LearnerKCState`. */
  datatype Row = Row(
    estimate: Estimate, lastSeen: Option<int>, card: Option<Card>, due: Option<int>, achieved: Option<int>,
    transferredFrom: Option<KcId>, transferred: Option<int>, confirmed: Option<int>,
    unaidedLast: Option<int>, retention: Option<int>, setting: Option<int>, marked: Option<int>)

  /** The estimator, the scheduler, the settings of items, and the thresholds. */
  datatype Policy = Policy(
    decay: (Estimate, real) -> Estimate, update: (Estimate, real, real, real) -> Estimate,
    review: (Option<Card>, real, int) -> (Card, int), settingOf: Settings,
    bar: real, gap: int, probe: int, passMark: real, passes: int, floor: real)

  const FRESH := Row(UNKNOWN, None, None, None, None, None, None, None, None, None, None, None)

  const MICROSECONDS_PER_DAY := 86400000000.0

  /** `_elapsed_days`. */
  function ElapsedDays(last: Option<int>, now: int): real {
    if last.None? || now < last.value then 0.0 else (now - last.value) as real / MICROSECONDS_PER_DAY
  }

  predicate IsProvisional(row: Row) {
    row.transferred.Some? && row.confirmed.None?
  }

  /** The weight an answer counts with. */
  function Counted(weight: real, credit: real): real {
    weight * credit
  }

  /** The judged answer `e`: a new estimate, and a new card with its due date. */
  function GradeRow(p: Policy, row: Row, e: Event): Row
    requires e.Answer?
  {
    var a := e.attempt;
    var prior := p.decay(row.estimate, ElapsedDays(row.lastSeen, a.at));
    var next := p.review(row.card, a.score, a.at);
    row.(estimate := p.update(prior, a.score, e.difficulty, Counted(e.weight, e.credit)),
         lastSeen := Some(a.at), card := Some(next.0), due := Some(next.1))
  }

  /** A self-rating: retention scheduling only. */
  function RateRow(p: Policy, row: Row, e: Event): Row
    requires e.SelfReport?
  {
    var next := p.review(row.card, e.attempt.score, e.attempt.at);
    row.(card := Some(next.0), due := Some(next.1))
  }

  /** `_confirm_transfers` for one row. */
  function ConfirmRow(p: Policy, kc: KcId, row: Row, events: seq<Event>, now: int): Row {
    if IsProvisional(row) && RunShown(RowsOf(kc, events, row.transferred.value, p.passMark), p.passes)
    then row.(confirmed := Some(now)) else row
  }

  /**
    A head start is confirmed exactly when enough questions count among the answers since it was
    given, and at least one does.
   */
  lemma ConfirmedExactlyWhen(
    p: Policy, kc: KcId, row: Row, events: seq<Event>, now: int, read: seq<Attempt>, questions: set<Question>)
    requires IsProvisional(row) && read == LatestFirst(AnswersSince(events, row.transferred.value))
    requires forall q :: q in questions <==> exists i: nat :: Counts(read, i, p.passMark, q)
    ensures ConfirmRow(p, kc, row, events, now)
         == if questions != {} && |questions| >= p.passes then row.(confirmed := Some(now)) else row
  {
    var run := RunOf(RowsOf(kc, events, row.transferred.value, p.passMark));
    forall q
      ensures q in run <==> q in questions
    {
      RunOverLog(kc, events, row.transferred.value, p.passMark, q, read);
    }
    assert run == questions;
  }

  predicate Achieves(p: Policy, row: Row, events: seq<Event>) {
    && row.achieved.None? && Conservative(row.estimate) >= p.bar && !IsProvisional(row)
    && RetentionShown(events, p.gap)
  }

  /** `_record_achievements` for one row. */
  function AchieveRow(p: Policy, row: Row, events: seq<Event>, now: int): Row {
    if Achieves(p, row, events) then row.(achieved := Some(now)) else row
  }

  function Stamp(stored: Option<int>, shown: bool, now: int): Option<int> {
    if !shown then None else if stored.None? then Some(now) else stored
  }

  /** `_mark_evidence` for one row. */
  function MarkRow(p: Policy, row: Row, events: seq<Event>, now: int): Row {
    row.(unaidedLast := LastUnaided(events),
         retention := Stamp(row.retention, RetentionShown(events, p.gap), now),
         setting := Stamp(row.setting, TransferShown(events, p.settingOf), now),
         marked := Some(now))
  }

  /** A whole judged answer: `e` is the last of `events`. */
  function AnswerRow(p: Policy, kc: KcId, row: Row, events: seq<Event>, e: Event): Row
    requires e.Answer?
  {
    var now := e.attempt.at;
    MarkRow(p, AchieveRow(p, ConfirmRow(p, kc, GradeRow(p, row, e), events, now), events, now), events, now)
  }

  // ---- Replay -----------------------------------------------------------------------------

  /** What the estimate of a component rests on. */
  datatype Belief = Belief(estimate: Estimate, lastSeen: Option<int>)

  function Fold(p: Policy, b: Belief, e: Event): Belief {
    match e
    case Answer(a, difficulty, weight, credit) =>
      Belief(p.update(p.decay(b.estimate, ElapsedDays(b.lastSeen, a.at)), a.score, difficulty, Counted(weight, credit)), Some(a.at))
    case SelfReport(_) => b
    case Placement(estimate) => b.(estimate := estimate)
    case HeadStart(estimate, _) => b.(estimate := estimate)
    case Withdrawn(_) => b.(estimate := UNKNOWN)
  }

  /** The component's own events folded through the estimator, from the population prior. */
  function Replay(p: Policy, events: seq<Event>): Belief {
    if events == [] then Belief(UNKNOWN, None) else Fold(p, Replay(p, events[..|events| - 1]), events[|events| - 1])
  }

  lemma ReplayMore(p: Policy, events: seq<Event>, e: Event)
    ensures Replay(p, events + [e]) == Fold(p, Replay(p, events), e)
  {
    assert (events + [e])[..|events|] == events;
  }

  function BeliefOf(row: Row): Belief {
    Belief(row.estimate, row.lastSeen)
  }
}

/** Every run of writes to one component keeps its row and its log in agreement. */
module MasteryRuns {
  import opened Wrappers
  import opened Ids
  import opened Estimates
  import opened Evidence
  import opened Passing
  import opened MasteryRow

  datatype Component = Component(row: Option<Row>, events: seq<Event>)

  datatype Action =
    | Graded(e: Event)
    | Rated(e: Event)
    | Placed(estimate: Estimate)
    | HeadStarted(estimate: Estimate, source: KcId, now: int)
    | Revoked(source: KcId)
    | Marking(now: int)

  const UNSEEN := Component(None, [])

  function Held(c: Component): Row {
    if c.row.Some? then c.row.value else FRESH
  }

  predicate WellFormed(a: Action) {
    (a.Graded? ==> a.e.Answer?) && (a.Rated? ==> a.e.SelfReport?)
  }

  /** A head start replaces a row without answers unless the one it has is already at least as good. */
  predicate TakesHeadStart(row: Row, estimate: Estimate) {
    row.lastSeen.None? && (row.transferred.None? || Conservative(row.estimate) < Conservative(estimate))
  }

  predicate TakesRevoke(row: Row, source: KcId) {
    row.transferredFrom == Some(source) && row.lastSeen.None?
  }

  function Act(p: Policy, kc: KcId, c: Component, a: Action): Component
    requires WellFormed(a)
  {
    var row := Held(c);
    match a
    case Graded(e) => Component(Some(AnswerRow(p, kc, row, c.events + [e], e)), c.events + [e])
    case Rated(e) => Component(Some(RateRow(p, row, e)), c.events + [e])
    case Placed(estimate) =>
      if c.row.Some? then c else Component(Some(FRESH.(estimate := estimate)), c.events + [Placement(estimate)])
    case HeadStarted(estimate, source, now) =>
      if TakesHeadStart(row, estimate) then
        Component(Some(row.(estimate := estimate, transferredFrom := Some(source), transferred := Some(now), confirmed := None)),
                  c.events + [HeadStart(estimate, source)])
      else c.(row := Some(row))
    case Revoked(source) =>
      if TakesRevoke(row, source) then
        Component(Some(row.(estimate := UNKNOWN, transferredFrom := None, transferred := None, confirmed := None)),
                  c.events + [Withdrawn(source)])
      else c.(row := Some(row))
    case Marking(now) =>
      if c.row.Some? && row.marked.None? then c.(row := Some(MarkRow(p, row, c.events, now))) else c
  }

  // ---- The invariant ------------------------------------------------------------------------

  /** What the row says of retention is what the whole log implies. */
  ghost predicate RetentionAgrees(p: Policy, row: Row, events: seq<Event>) {
    row.unaidedLast == LastUnaided(events) && (row.retention.Some? <==> RetentionShown(events, p.gap))
  }

  ghost predicate TransferAgrees(p: Policy, row: Row, events: seq<Event>) {
    row.setting.Some? <==> TransferShown(events, p.settingOf)
  }

  /** The row's milestones are what the whole log implies. */
  ghost predicate Agrees(p: Policy, row: Row, events: seq<Event>) {
    RetentionAgrees(p, row, events) && TransferAgrees(p, row, events)
  }

  ghost predicate NoAnswers(events: seq<Event>) {
    forall i :: 0 <= i < |events| ==> !events[i].Answer?
  }

  /** What a row may say of achievement: only what was measured here, confirmed and retained. */
  ghost predicate AchievementOk(p: Policy, row: Row, events: seq<Event>) {
    && (IsProvisional(row) ==> row.achieved.None?)
    && (row.achieved.Some? ==> row.lastSeen.Some? && RetentionShown(events, p.gap))
  }

  /**
    What holds of a component however late its events are logged: the estimate is the replay of
    its log, retention is what the log implies, and achievement was earned.
   */
  ghost predicate Kept(p: Policy, c: Component) {
    && (c.row.None? ==> c.events == [])
    && BeliefOf(Held(c)) == Replay(p, c.events)
    && RetentionAgrees(p, Held(c), c.events)
    && AchievementOk(p, Held(c), c.events)
    && (Held(c).lastSeen.None? ==> NoAnswers(c.events))
  }

  /** Logged in the order observed, transfer is what the log implies as well. */
  ghost predicate Sound(p: Policy, c: Component) {
    Kept(p, c) && TransferAgrees(p, Held(c), c.events) && InOrder(c.events)
  }

  /** The action's event, if any, may follow the log in the order observed. */
  ghost predicate Timely(c: Component, a: Action) {
    (a.Graded? || a.Rated?) ==> Follows(c.events, a.e)
  }

  lemma {:induction false} NoneWithoutAnswers(events: seq<Event>)
    requires NoAnswers(events)
    ensures LastUnaided(events) == None
    decreases |events|
  {
    if events != [] {
      NoneWithoutAnswers(events[..|events| - 1]);
    }
  }

  lemma FreshIsSound(p: Policy)
    ensures Sound(p, UNSEEN)
  {
    assert NoAnswers([]);
  }

  /** Marking makes a row agree with the log, whatever it said before. */
  lemma MarkingAgrees(p: Policy, row: Row, events: seq<Event>, now: int)
    ensures Agrees(p, MarkRow(p, row, events, now), events)
    ensures Agrees(p, row, events) ==> MarkRow(p, row, events, now) == row.(marked := Some(now))
  {
  }

  /** Of a row, a self-rating changes the card and the due date alone. */
  lemma RatingTouchesOnlyTheSchedule(p: Policy, kc: KcId, c: Component, e: Event)
    requires e.SelfReport?
    ensures var before, after := Held(c), Held(Act(p, kc, c, Rated(e)));
            && after == before.(card := after.card, due := after.due)
            && after.card == Some(p.review(before.card, e.attempt.score, e.attempt.at).0)
            && after.due == Some(p.review(before.card, e.attempt.score, e.attempt.at).1)
    ensures Replay(p, c.events + [e]) == Replay(p, c.events)
  {
    ReplayMore(p, c.events, e);
  }

  lemma OtherEventAchieves(p: Policy, row: Row, events: seq<Event>, e: Event)
    requires AchievementOk(p, row, events) && !e.Answer?
    ensures AchievementOk(p, row, events + [e])
  {
    OnlyAnswersShowRetention(events, e, p.gap);
  }

  lemma NoAnswersMore(events: seq<Event>, e: Event)
    requires NoAnswers(events) && !e.Answer?
    ensures NoAnswers(events + [e])
  {
  }

  lemma GradedAchieves(p: Policy, kc: KcId, row: Row, events: seq<Event>, e: Event)
    requires AchievementOk(p, row, events) && e.Answer?
    ensures AchievementOk(p, AnswerRow(p, kc, row, events + [e], e), events + [e])
  {
    if row.achieved.Some? {
      RetentionStays(events, e, p.gap);
    }
  }

  /** Of all an answer does to a row, grading alone moves the estimate. */
  lemma GradedBelief(p: Policy, kc: KcId, row: Row, events: seq<Event>, e: Event)
    requires e.Answer?
    ensures BeliefOf(AnswerRow(p, kc, row, events, e)) == BeliefOf(GradeRow(p, row, e)) == Fold(p, BeliefOf(row), e)
  {
    var now := e.attempt.at;
    var graded := GradeRow(p, row, e);
    var confirmed := ConfirmRow(p, kc, graded, events, now);
    assert BeliefOf(confirmed) == BeliefOf(graded);
    var achieved := AchieveRow(p, confirmed, events, now);
    assert BeliefOf(achieved) == BeliefOf(confirmed);
    assert BeliefOf(MarkRow(p, achieved, events, now)) == BeliefOf(achieved);
    assert BeliefOf(graded).estimate == Fold(p, BeliefOf(row), e).estimate;
  }

  lemma GradedAgrees(p: Policy, kc: KcId, row: Row, events: seq<Event>, e: Event)
    requires e.Answer?
    ensures Agrees(p, AnswerRow(p, kc, row, events, e), events)
  {
    var now := e.attempt.at;
    var achieved := AchieveRow(p, ConfirmRow(p, kc, GradeRow(p, row, e), events, now), events, now);
    MarkingAgrees(p, achieved, events, now);
  }

  /** Answers keep the milestones in agreement in whatever order they are logged: each one marks afresh. */
  lemma AnswersAlwaysAgree(p: Policy, kc: KcId, c: Component, e: Event)
    requires e.Answer?
    ensures Agrees(p, Held(Act(p, kc, c, Graded(e))), c.events + [e])
  {
    GradedAgrees(p, kc, Held(c), c.events + [e], e);
  }

  lemma GradedKeeps(p: Policy, kc: KcId, c: Component, e: Event)
    requires Kept(p, c) && e.Answer?
    ensures Kept(p, Act(p, kc, c, Graded(e)))
  {
    var row, events := Held(c), c.events + [e];
    var after := AnswerRow(p, kc, row, events, e);
    ReplayMore(p, c.events, e);
    GradedAchieves(p, kc, row, c.events, e);
    GradedBelief(p, kc, row, events, e);
    AnswersAlwaysAgree(p, kc, c, e);
    assert after.lastSeen == Some(e.attempt.at);
    var graded := Act(p, kc, c, Graded(e));
    assert graded == Component(Some(after), events) && Held(graded) == after;
    assert BeliefOf(Held(graded)) == Replay(p, graded.events);
  }

  lemma RatedKeeps(p: Policy, kc: KcId, c: Component, e: Event)
    requires Kept(p, c) && e.SelfReport?
    ensures Kept(p, Act(p, kc, c, Rated(e)))
  {
    RatingTouchesOnlyTheSchedule(p, kc, c, e);
    OnlyAnswersShowRetention(c.events, e, p.gap);
    OtherEventAchieves(p, Held(c), c.events, e);
    if Held(c).lastSeen.None? {
      NoAnswersMore(c.events, e);
    }
  }

  /** Placement, a head start or its withdrawal: a row without answers takes a new estimate. */
  lemma SeedKeeps(p: Policy, c: Component, row: Row, e: Event)
    requires Kept(p, c) && Held(c).lastSeen.None? && (e.Placement? || e.HeadStart? || e.Withdrawn?)
    requires BeliefOf(row) == Fold(p, BeliefOf(Held(c)), e)
    requires row.unaidedLast == Held(c).unaidedLast && row.retention == Held(c).retention
    requires row.achieved == Held(c).achieved
    ensures Kept(p, Component(Some(row), c.events + [e]))
  {
    ReplayMore(p, c.events, e);
    OnlyAnswersShowRetention(c.events, e, p.gap);
    OtherEventAchieves(p, Held(c), c.events, e);
    NoAnswersMore(c.events, e);
  }

  /** Every write keeps the row the replay of its log, in whatever order attempts are logged. */
  lemma ActKeeps(p: Policy, kc: KcId, c: Component, a: Action)
    requires WellFormed(a) && Kept(p, c)
    ensures Kept(p, Act(p, kc, c, a))
  {
    var row := Held(c);
    match a
    case Graded(e) => GradedKeeps(p, kc, c, e);
    case Rated(e) => RatedKeeps(p, kc, c, e);
    case Placed(estimate) =>
      if c.row.None? {
        SeedKeeps(p, c, FRESH.(estimate := estimate), Placement(estimate));
      }
    case HeadStarted(estimate, source, now) =>
      if TakesHeadStart(row, estimate) {
        SeedKeeps(p, c, row.(estimate := estimate, transferredFrom := Some(source), transferred := Some(now), confirmed := None),
                  HeadStart(estimate, source));
      }
    case Revoked(source) =>
      if TakesRevoke(row, source) {
        SeedKeeps(p, c, row.(estimate := UNKNOWN, transferredFrom := None, transferred := None, confirmed := None),
                  Withdrawn(source));
      }
    case Marking(now) =>
  }

  /**
    What one answer makes of a row, field by field: the estimate decayed over the days since the
    last answer, none for a first one or one observed before it, and updated by the answer's
    score, difficulty and share; the scheduler's card and date; and the time of the answer.
   */
  lemma AnswerFoldsItsFields(p: Policy, kc: KcId, c: Component, e: Event, days: real, share: real)
    requires e.Answer? && share == e.weight * e.credit
    requires var last := Held(c).lastSeen;
             days * MICROSECONDS_PER_DAY == if last.Some? && last.value <= e.attempt.at then (e.attempt.at - last.value) as real else 0.0
    ensures var before, after := Held(c), Held(Act(p, kc, c, Graded(e)));
            && after.estimate == p.update(p.decay(before.estimate, days), e.attempt.score, e.difficulty, share)
            && after.lastSeen == Some(e.attempt.at)
            && after.card == Some(p.review(before.card, e.attempt.score, e.attempt.at).0)
            && after.due == Some(p.review(before.card, e.attempt.score, e.attempt.at).1)
            && after.transferredFrom == before.transferredFrom && after.transferred == before.transferred
  {
    ElapsedIs(Held(c).lastSeen, e.attempt.at, days);
    assert Counted(e.weight, e.credit) == share;
    GradedBelief(p, kc, Held(c), c.events + [e], e);
  }

  /** Elapsed time is counted in days of 86,400 seconds and never negative. */
  lemma ElapsedIs(last: Option<int>, now: int, days: real)
    requires days * MICROSECONDS_PER_DAY == if last.Some? && last.value <= now then (now - last.value) as real else 0.0
    ensures ElapsedDays(last, now) == days
    ensures MICROSECONDS_PER_DAY == 24.0 * 60.0 * 60.0 * 1000000.0
  {
  }

  // ---- Transfer -----------------------------------------------------------------------------

  /** Some answer that showed transfer was not observed after `e` in the setting of `e`. */
  predicate Survives(events: seq<Event>, e: Event, settingOf: Settings) {
    exists i :: 0 <= i < |events| && ShowsTransfer(events, i, settingOf) && !Undercuts(events, e, i, settingOf)
  }

  /** `e`, as the new earliest attempt, puts some success beyond the first setting. */
  predicate Uncovers(events: seq<Event>, e: Event, settingOf: Settings) {
    exists i :: 0 <= i < |events| && Success(events[i]) && NewlyBeyond(events, e, i, settingOf)
  }

  /**
    Transfer after a self-rating, in whatever order it is logged: what was shown survives it, or
    it uncovers a success.
   */
  lemma TransferAfterRating(events: seq<Event>, e: Event, settingOf: Settings)
    requires e.SelfReport?
    ensures TransferShown(events + [e], settingOf) <==> Survives(events, e, settingOf) || Uncovers(events, e, settingOf)
  {
    var all := events + [e];
    assert all[|events|] == e;
    forall i | 0 <= i < |events|
      ensures ShowsTransfer(all, i, settingOf) <==>
        || (ShowsTransfer(events, i, settingOf) && !Undercuts(events, e, i, settingOf))
        || (Success(events[i]) && NewlyBeyond(events, e, i, settingOf))
    {
      ShowsWithOneMore(events, e, i, settingOf);
    }
  }

  /** A self-rating that neither undoes a transfer that was shown nor makes one of what was none. */
  predicate Harmless(events: seq<Event>, e: Event, settingOf: Settings) {
    if TransferShown(events, settingOf) then Survives(events, e, settingOf) || Uncovers(events, e, settingOf)
    else !Uncovers(events, e, settingOf)
  }

  /** A self-rating keeps all milestones in agreement exactly when it does no harm to transfer. */
  lemma RatingAgreesExactlyWhen(p: Policy, kc: KcId, c: Component, e: Event)
    requires e.SelfReport? && Agrees(p, Held(c), c.events)
    ensures Agrees(p, Held(Act(p, kc, c, Rated(e))), c.events + [e]) <==> Harmless(c.events, e, p.settingOf)
  {
    OnlyAnswersShowRetention(c.events, e, p.gap);
    TransferAfterRating(c.events, e, p.settingOf);
  }

  /**
    A write leaves transfer in agreement exactly when it is not a self-rating that does harm: no
    other write can put the row and its log apart, in whatever order attempts are logged.
   */
  lemma ActAgreesExactlyWhen(p: Policy, kc: KcId, c: Component, a: Action)
    requires WellFormed(a) && Kept(p, c) && TransferAgrees(p, Held(c), c.events)
    ensures var after := Act(p, kc, c, a);
            TransferAgrees(p, Held(after), after.events) <==> (a.Rated? ==> Harmless(c.events, a.e, p.settingOf))
  {
    match a
    case Graded(e) => AnswersAlwaysAgree(p, kc, c, e);
    case Rated(e) =>
      RatingAgreesExactlyWhen(p, kc, c, e);
      OnlyAnswersShowRetention(c.events, e, p.gap);
    case Placed(estimate) => OnlyAnswersShowTransfer(c.events, Placement(estimate), p.settingOf);
    case HeadStarted(estimate, source, now) => OnlyAnswersShowTransfer(c.events, HeadStart(estimate, source), p.settingOf);
    case Revoked(source) => OnlyAnswersShowTransfer(c.events, Withdrawn(source), p.settingOf);
    case Marking(now) =>
  }

  /** A self-rating observed after what is logged does no harm. */
  lemma TimelyIsHarmless(events: seq<Event>, e: Event, settingOf: Settings)
    requires e.SelfReport? && Follows(events, e)
    ensures Harmless(events, e, settingOf)
  {
    TransferAfterRating(events, e, settingOf);
    OnlyAnswersShowTransfer(events, e, settingOf);
  }

  /** Every write keeps transfer in agreement too, when attempts are logged in the order observed. */
  lemma TimelyActKeeps(p: Policy, kc: KcId, c: Component, a: Action)
    requires WellFormed(a) && Sound(p, c) && Timely(c, a)
    ensures Sound(p, Act(p, kc, c, a))
  {
    ActKeeps(p, kc, c, a);
    if a.Rated? {
      TimelyIsHarmless(c.events, a.e, p.settingOf);
    }
    ActAgreesExactlyWhen(p, kc, c, a);
    ActKeepsOrder(p, kc, c, a);
  }

  lemma ActKeepsOrder(p: Policy, kc: KcId, c: Component, a: Action)
    requires WellFormed(a) && InOrder(c.events) && Timely(c, a)
    ensures InOrder(Act(p, kc, c, a).events)
  {
    LogsOne(p, kc, c, a);
    if Act(p, kc, c, a).events != c.events {
      InOrderMore(c.events, EventOf(a));
    }
  }

  /** What a write logs if it logs anything. */
  function EventOf(a: Action): Event
    requires !a.Marking?
  {
    match a
    case Graded(e) => e
    case Rated(e) => e
    case Placed(estimate) => Placement(estimate)
    case HeadStarted(estimate, source, now) => HeadStart(estimate, source)
    case Revoked(source) => Withdrawn(source)
  }

  /** A write logs one event at most, behind what is logged. */
  lemma LogsOne(p: Policy, kc: KcId, c: Component, a: Action)
    requires WellFormed(a)
    ensures var events := Act(p, kc, c, a).events; events == c.events || (!a.Marking? && events == c.events + [EventOf(a)])
  {
  }

  // ---- Runs ---------------------------------------------------------------------------------

  function Run(p: Policy, kc: KcId, actions: seq<Action>): Component
    requires forall i :: 0 <= i < |actions| ==> WellFormed(actions[i])
  {
    if actions == [] then UNSEEN else Act(p, kc, Run(p, kc, actions[..|actions| - 1]), actions[|actions| - 1])
  }

  /** Each attempt of the run is observed no earlier than those logged before it. */
  ghost predicate TimelyRun(p: Policy, kc: KcId, actions: seq<Action>)
    requires forall i :: 0 <= i < |actions| ==> WellFormed(actions[i])
    decreases |actions|
  {
    actions != [] ==>
      TimelyRun(p, kc, actions[..|actions| - 1]) && Timely(Run(p, kc, actions[..|actions| - 1]), actions[|actions| - 1])
  }

  /**
    After any mix of answers, self-ratings, placements, head starts, revocations and markings, in
    whatever order they are logged: the estimate and the last answer are the fold of the
    component's own events, retention is what the whole log implies, and no provisional row is
    achieved.
   */
  lemma {:induction false} EveryRunReplays(p: Policy, kc: KcId, actions: seq<Action>)
    requires forall i :: 0 <= i < |actions| ==> WellFormed(actions[i])
    ensures Kept(p, Run(p, kc, actions))
    decreases |actions|
  {
    if actions == [] {
      FreshIsSound(p);
    } else {
      EveryRunReplays(p, kc, actions[..|actions| - 1]);
      ActKeeps(p, kc, Run(p, kc, actions[..|actions| - 1]), actions[|actions| - 1]);
    }
  }

  /** If attempts are logged in the order observed, transfer is what the whole log implies as well. */
  lemma {:induction false} EveryRunIsSound(p: Policy, kc: KcId, actions: seq<Action>)
    requires forall i :: 0 <= i < |actions| ==> WellFormed(actions[i])
    requires TimelyRun(p, kc, actions)
    ensures Sound(p, Run(p, kc, actions))
    decreases |actions|
  {
    if actions == [] {
      FreshIsSound(p);
    } else {
      EveryRunIsSound(p, kc, actions[..|actions| - 1]);
      TimelyActKeeps(p, kc, Run(p, kc, actions[..|actions| - 1]), actions[|actions| - 1]);
    }
  }

  /** What was shown or earned keeps the date it was first stored with; transfer, if logged in order. */
  lemma NothingIsWithdrawn(p: Policy, kc: KcId, c: Component, a: Action)
    requires WellFormed(a) && Kept(p, c)
    ensures var before, after := Held(c), Held(Act(p, kc, c, a));
            && (before.retention.Some? ==> after.retention == before.retention)
            && (before.achieved.Some? ==> after.achieved == before.achieved)
            && (before.lastSeen.Some? ==> after.lastSeen.Some?)
            && (Sound(p, c) && Timely(c, a) && before.setting.Some? ==> after.setting == before.setting)
  {
    if a.Graded? {
      if Held(c).retention.Some? {
        RetentionStays(c.events, a.e, p.gap);
      }
      if Sound(p, c) && Timely(c, a) && Held(c).setting.Some? {
        TransferStays(c.events, a.e, p.settingOf);
      }
    }
  }

  /** Only an answer that reaches the bar, with retention shown and nothing borrowed unconfirmed, achieves. */
  lemma AchievementIsEarned(p: Policy, kc: KcId, c: Component, a: Action)
    requires WellFormed(a) && Held(c).achieved.None? && Held(Act(p, kc, c, a)).achieved.Some?
    ensures Earns(p, Act(p, kc, c, a), a)
  {
  }

  /** The action is an answer, and what it left had reached achievement just then. */
  ghost predicate Earns(p: Policy, after: Component, a: Action) {
    && a.Graded? && a.e.Answer? && Held(after).achieved == Some(a.e.attempt.at)
    && !IsProvisional(Held(after)) && Conservative(Held(after).estimate) >= p.bar
    && RetentionShown(after.events, p.gap)
  }

  /**
    An answer achieves at once when the estimate it leaves is two deviations clear of the bar,
    nothing borrowed is left unconfirmed and retention is shown; milestones first seen with it
    carry its time, and those seen before keep theirs.
   */
  lemma AnswerAchievesExactlyWhen(p: Policy, kc: KcId, c: Component, e: Event)
    requires e.Answer?
    ensures var before, after := Held(c), Act(p, kc, c, Graded(e));
            var row := Held(after);
            && (row.achieved.Some? <==>
                  || before.achieved.Some?
                  || ( && row.estimate.ability - row.estimate.uncertainty - row.estimate.uncertainty >= p.bar
                       && (row.transferred.Some? ==> row.confirmed.Some?) && RetentionShown(after.events, p.gap)))
            && (row.achieved == before.achieved || row.achieved == Some(e.attempt.at))
            && row.marked == Some(e.attempt.at) && row.unaidedLast == LastUnaided(after.events)
            && (row.retention.Some? <==> RetentionShown(after.events, p.gap))
            && (row.setting.Some? <==> TransferShown(after.events, p.settingOf))
            && (row.retention.Some? ==> row.retention == if before.retention.Some? then before.retention else Some(e.attempt.at))
            && (row.setting.Some? ==> row.setting == if before.setting.Some? then before.setting else Some(e.attempt.at))
  {
    var row, now := Held(c), e.attempt.at;
    var events := c.events + [e];
    var graded := GradeRow(p, row, e);
    var confirmed := ConfirmRow(p, kc, graded, events, now);
    var achieved := AchieveRow(p, confirmed, events, now);
    assert achieved.estimate == confirmed.estimate && achieved.transferred == confirmed.transferred;
    assert Held(Act(p, kc, c, Graded(e))) == MarkRow(p, achieved, events, now);
  }

  /** Marking fills in the milestones of a row that has none yet; it logs nothing, and moves no estimate, schedule or achievement. */
  lemma MarkingFillsIn(p: Policy, kc: KcId, c: Component, now: int)
    ensures var after := Act(p, kc, c, Marking(now));
            && (c.row.None? || c.row.value.marked.Some? ==> after == c)
            && (c.row.Some? && c.row.value.marked.None? ==>
                  var before, row := c.row.value, Held(after);
                  && after.events == c.events && row.marked == Some(now) && row.unaidedLast == LastUnaided(c.events)
                  && row == before.(marked := row.marked, unaidedLast := row.unaidedLast, retention := row.retention, setting := row.setting))
  {
  }

  /**
    An achievement held after any run, in whatever order it was logged, was earned by one answer
    of that run, and has carried that answer's time ever since.
   */
  lemma {:induction false} EveryAchievementIsEarned(p: Policy, kc: KcId, actions: seq<Action>) returns (n: nat)
    requires forall i :: 0 <= i < |actions| ==> WellFormed(actions[i])
    requires Held(Run(p, kc, actions)).achieved.Some?
    ensures n < |actions| && Held(Run(p, kc, actions[..n])).achieved.None?
    ensures Earns(p, Run(p, kc, actions[..n + 1]), actions[n])
    ensures Held(Run(p, kc, actions)).achieved == Held(Run(p, kc, actions[..n + 1])).achieved
    decreases |actions|
  {
    var init, last := actions[..|actions| - 1], actions[|actions| - 1];
    var before := Run(p, kc, init);
    if Held(before).achieved.None? {
      n := |actions| - 1;
      AchievementIsEarned(p, kc, before, last);
      assert actions[..n + 1] == actions;
    } else {
      n := EveryAchievementIsEarned(p, kc, init);
      EveryRunReplays(p, kc, init);
      NothingIsWithdrawn(p, kc, before, last);
      assert init[..n] == actions[..n] && init[..n + 1] == actions[..n + 1];
    }
  }

  // ---- Out of order -------------------------------------------------------------------------

  function Try(key: int, at: int, item: int): Attempt {
    Attempt(key, at, 1.0, Some(item), 0, 0, false, true)
  }

  /**
    More evidence can undo transfer: an answer in one setting, a success in another, then a
    self-rating in that other setting that was observed before the success but is logged after it.
   */
  lemma LateRatingUndoesTransfer(settingOf: Settings)
    requires settingOf(Some(1)) != settingOf(Some(2))
    ensures var events := [Answer(Try(1, 10, 1), 0.0, 1.0, 1.0), Answer(Try(2, 30, 2), 0.0, 1.0, 1.0)];
            TransferShown(events, settingOf) && !TransferShown(events + [SelfReport(Try(3, 20, 2))], settingOf)
  {
    var events := [Answer(Try(1, 10, 1), 0.0, 1.0, 1.0), Answer(Try(2, 30, 2), 0.0, 1.0, 1.0)];
    var all := events + [SelfReport(Try(3, 20, 2))];
    assert ShowsTransfer(events, 1, settingOf) by {
      assert IsAttempt(events[0]) && events[0].attempt.at < events[1].attempt.at;
    }
    forall i | 0 <= i < |all|
      ensures !ShowsTransfer(all, i, settingOf)
    {
      assert SameSetting(all[1], all[2], settingOf);
    }
  }

  /**
    More evidence can make transfer without an answer: one success is not beyond its own setting
    until an attempt observed before it elsewhere is logged, and a self-rating is enough.
   */
  lemma LateRatingMakesTransfer(settingOf: Settings)
    requires settingOf(Some(1)) != settingOf(Some(2))
    ensures var events := [Answer(Try(2, 30, 2), 0.0, 1.0, 1.0)];
            !TransferShown(events, settingOf) && TransferShown(events + [SelfReport(Try(3, 20, 1))], settingOf)
  {
    var events := [Answer(Try(2, 30, 2), 0.0, 1.0, 1.0)];
    var all := events + [SelfReport(Try(3, 20, 1))];
    assert ShowsTransfer(all, 0, settingOf) by {
      assert IsAttempt(all[1]) && all[1].attempt.at < all[0].attempt.at;
    }
  }

  // ---- Retention checks, from the row alone ------------------------------------------------

  function MaxInt(a: int, b: int): int {
    if a < b then b else a
  }

  function MinInt(a: int, b: int): int {
    if a < b then a else b
  }

  /** When a check falls due, given the latest unaided answer and the scheduler's date. */
  function CheckAt(p: Policy, last: int, due: Option<int>): int {
    var byInterval := last + MaxInt(p.probe, p.gap);
    if due.Some? then MinInt(byInterval, MaxInt(due.value, last + p.gap)) else byInterval
  }

  /** `_retention_due` for one row: read from its milestones and dates only. */
  function RetentionDue(p: Policy, row: Row, now: int): Option<int> {
    if row.unaidedLast.None? || row.retention.Some? then None
    else
      var at := CheckAt(p, row.unaidedLast.value, row.due);
      if at <= now then Some(at) else None
  }

  /** The same, computed from the event log. */
  function RetentionDueFromLog(p: Policy, events: seq<Event>, due: Option<int>, now: int): Option<int> {
    var last := LastUnaided(events);
    if last.None? || RetentionShown(events, p.gap) then None
    else
      var at := CheckAt(p, last.value, due);
      if at <= now then Some(at) else None
  }

  /**
    A check is due exactly when something was shown unaided, retention was not, and either the
    probe interval has passed since, or the scheduler's date has and a check could count; it is
    dated at the earlier of the two.
   */
  lemma RetentionDueExactlyWhen(p: Policy, row: Row, now: int)
    ensures RetentionDue(p, row, now).Some? <==>
      && row.unaidedLast.Some? && row.retention.None?
      && (var last := row.unaidedLast.value;
          || (last + p.probe <= now && last + p.gap <= now)
          || (row.due.Some? && row.due.value <= now && last + p.gap <= now))
    ensures RetentionDue(p, row, now).Some? ==>
      var last, at := row.unaidedLast.value, RetentionDue(p, row, now).value;
      && last + p.gap <= at && (last + p.probe <= at || (row.due.Some? && row.due.value <= at))
      && (at == last + p.gap || at == last + p.probe || Some(at) == row.due)
      && !(last + p.gap < at && last + p.probe < at)
      && !(row.due.Some? && row.due.value < at && last + p.gap < at)
  {
  }

  /** The row-only check is the log's, and never falls before a check could count. */
  lemma DueMatchesLog(p: Policy, c: Component, now: int)
    requires Kept(p, c) && p.gap >= 0
    ensures RetentionDue(p, Held(c), now) == RetentionDueFromLog(p, c.events, Held(c).due, now)
    ensures RetentionDue(p, Held(c), now).Some? ==>
      now >= RetentionDue(p, Held(c), now).value >= LastUnaided(c.events).value + p.gap
  {
  }
}
