/** A mastery estimate: an ability and how uncertain it is (`app/learning/tracer.py`). */
module Estimates {
  datatype Estimate = Estimate(ability: real, uncertainty: real)

  const UNKNOWN := Estimate(0.0, 1.0)

  /** The ability an estimate supports two deviations down. */
  function Conservative(e: Estimate): real {
    e.ability - 2.0 * e.uncertainty
  }
}

/** What one component's event log says: `kc_evidence` and `_settings_evidence` (`app/learning/mastery.py`). */
module Evidence {
  import opened Wrappers
  import opened Ids
  import opened Estimates
  import D = Distinctness

  /** One attempt at a component. `at` is its `observed_at`, in microseconds. */
  datatype Attempt = Attempt(
    key: int, at: int, score: real, item: Option<int>, hints: nat, prior: nat, taught: bool, correct: bool)

  /** The rows of the learning log that concern one component. */
  datatype Event =
    | Answer(attempt: Attempt, difficulty: real, weight: real, credit: real)
    | SelfReport(attempt: Attempt)
    | Placement(estimate: Estimate)
    | HeadStart(estimate: Estimate, source: KcId)
    | Withdrawn(source: KcId)

  /** The setting of an item; `None` and deleted items are abstract. Fixed over a run. */
  type Settings = Option<int> -> string

  predicate IsAttempt(e: Event) {
    e.Answer? || e.SelfReport?
  }

  predicate Unaided(e: Event) {
    e.Answer? && e.attempt.hints == 0 && e.attempt.prior == 0 && !e.attempt.taught
  }

  // ---- Retention --------------------------------------------------------------------------

  function UnaidedKeys(events: seq<Event>): set<int> {
    set i | 0 <= i < |events| && Unaided(events[i]) :: events[i].attempt.key
  }

  function Later(a: Option<int>, t: int): Option<int> {
    if a.None? || a.value < t then Some(t) else a
  }

  function Earlier(a: Option<int>, t: int): Option<int> {
    if a.None? || t < a.value then Some(t) else a
  }

  /** `max(unassisted_when)`. */
  function LastUnaided(events: seq<Event>): Option<int> {
    if events == [] then None
    else
      var before, e := LastUnaided(events[..|events| - 1]), events[|events| - 1];
      if Unaided(e) then Later(before, e.attempt.at) else before
  }

  /** `min(unassisted_when)`. */
  function FirstUnaided(events: seq<Event>): Option<int> {
    if events == [] then None
    else
      var before, e := FirstUnaided(events[..|events| - 1]), events[|events| - 1];
      if Unaided(e) then Earlier(before, e.attempt.at) else before
  }

  /** Two unaided demonstrations at least, `gap` apart from the first to the last. */
  predicate RetentionShown(events: seq<Event>, gap: int) {
    var first, last := FirstUnaided(events), LastUnaided(events);
    |UnaidedKeys(events)| >= 2 && first.Some? && last.Some? && last.value - first.value >= gap
  }

  /** The fold's ends are the earliest and the latest unaided answer. */
  lemma {:induction false} UnaidedEnds(events: seq<Event>)
    ensures LastUnaided(events).None? <==> forall i :: 0 <= i < |events| ==> !Unaided(events[i])
    ensures FirstUnaided(events).None? <==> LastUnaided(events).None?
    ensures LastUnaided(events).Some? ==> exists i :: 0 <= i < |events| && Unaided(events[i]) && events[i].attempt.at == LastUnaided(events).value
    ensures FirstUnaided(events).Some? ==> exists i :: 0 <= i < |events| && Unaided(events[i]) && events[i].attempt.at == FirstUnaided(events).value
    ensures forall i :: 0 <= i < |events| && Unaided(events[i]) ==> FirstUnaided(events).value <= events[i].attempt.at <= LastUnaided(events).value
    decreases |events|
  {
    if events != [] {
      var init := events[..|events| - 1];
      UnaidedEnds(init);
      assert events == init + [events[|events| - 1]];
      forall i | 0 <= i < |init|
        ensures init[i] == events[i]
      {
      }
    }
  }

  /** Retention is shown exactly when there are two unaided demonstrations and two of them lie `gap` apart. */
  lemma RetentionMeans(events: seq<Event>, gap: int)
    ensures RetentionShown(events, gap) <==>
      && |UnaidedKeys(events)| >= 2
      && exists i, j :: 0 <= i < |events| && 0 <= j < |events| && Unaided(events[i]) && Unaided(events[j])
           && events[j].attempt.at - events[i].attempt.at >= gap
  {
    UnaidedEnds(events);
    if RetentionShown(events, gap) {
      var i :| 0 <= i < |events| && Unaided(events[i]) && events[i].attempt.at == FirstUnaided(events).value;
      var j :| 0 <= j < |events| && Unaided(events[j]) && events[j].attempt.at == LastUnaided(events).value;
      assert events[j].attempt.at - events[i].attempt.at >= gap;
    }
  }

  // ---- Transfer ---------------------------------------------------------------------------

  predicate Success(e: Event) {
    Unaided(e) && e.attempt.correct
  }

  predicate SameSetting(a: Event, b: Event, settingOf: Settings) {
    IsAttempt(a) && IsAttempt(b) && settingOf(a.attempt.item) == settingOf(b.attempt.item)
  }

  /** No attempt in this setting was earlier, and some attempt was. */
  predicate BeyondPractice(events: seq<Event>, i: nat, settingOf: Settings)
    requires i < |events|
  {
    && IsAttempt(events[i])
    && (forall j :: 0 <= j < |events| && SameSetting(events[i], events[j], settingOf) ==>
          events[i].attempt.at <= events[j].attempt.at)
    && exists j :: 0 <= j < |events| && IsAttempt(events[j]) && events[j].attempt.at < events[i].attempt.at
  }

  predicate ShowsTransfer(events: seq<Event>, i: nat, settingOf: Settings)
    requires i < |events|
  {
    Success(events[i]) && BeyondPractice(events, i, settingOf)
  }

  predicate TransferShown(events: seq<Event>, settingOf: Settings) {
    exists i :: 0 <= i < |events| && ShowsTransfer(events, i, settingOf)
  }

  /**
    Transfer is shown exactly when an unaided answer was right, some attempt came before it, and
    every attempt that did was set in another setting.
   */
  lemma TransferMeans(events: seq<Event>, settingOf: Settings)
    ensures TransferShown(events, settingOf) <==> exists i :: 0 <= i < |events| && FirstOfItsSetting(events, i, settingOf)
  {
    forall i | 0 <= i < |events| && IsAttempt(events[i])
      ensures ShowsTransfer(events, i, settingOf) <==> FirstOfItsSetting(events, i, settingOf)
    {
    }
  }

  ghost predicate FirstOfItsSetting(events: seq<Event>, i: nat, settingOf: Settings)
    requires i < |events|
  {
    var e := events[i];
    && e.Answer? && e.attempt.hints == 0 && e.attempt.prior == 0 && !e.attempt.taught && e.attempt.correct
    && (exists j :: 0 <= j < |events| && CameBefore(events[j], e))
    && (forall j :: 0 <= j < |events| && CameBefore(events[j], e) ==>
          settingOf(events[j].attempt.item) != settingOf(e.attempt.item))
  }

  /** An attempt observed before another; a self-rating is an attempt like any answer. */
  predicate CameBefore(a: Event, b: Event)
    requires b.Answer?
  {
    (a.Answer? || a.SelfReport?) && a.attempt.at < b.attempt.at
  }

  // ---- Evidence only grows ----------------------------------------------------------------

  /** No attempt in the log is later than `t`. */
  ghost predicate NoneAfter(events: seq<Event>, t: int) {
    forall i :: 0 <= i < |events| && IsAttempt(events[i]) ==> events[i].attempt.at <= t
  }

  /** Attempts are logged in the order they were observed. */
  ghost predicate InOrder(events: seq<Event>)
    decreases |events|
  {
    events != [] ==>
      var init, e := events[..|events| - 1], events[|events| - 1];
      InOrder(init) && (IsAttempt(e) ==> NoneAfter(init, e.attempt.at))
  }

  /** `e` may follow `events` in the order observed. */
  ghost predicate Follows(events: seq<Event>, e: Event) {
    IsAttempt(e) ==> NoneAfter(events, e.attempt.at)
  }

  lemma InOrderMore(events: seq<Event>, e: Event)
    requires InOrder(events) && Follows(events, e)
    ensures InOrder(events + [e])
  {
    assert (events + [e])[..|events|] == events;
  }

  lemma KeysMore(events: seq<Event>, e: Event)
    ensures UnaidedKeys(events + [e]) == UnaidedKeys(events) + (if Unaided(e) then {e.attempt.key} else {})
  {
    var all := events + [e];
    forall k | k in UnaidedKeys(events)
      ensures k in UnaidedKeys(all)
    {
      var i :| 0 <= i < |events| && Unaided(events[i]) && events[i].attempt.key == k;
      assert all[i] == events[i];
    }
    if Unaided(e) {
      assert all[|events|] == e;
    }
    forall k | k in UnaidedKeys(all)
      ensures k in UnaidedKeys(events) || (Unaided(e) && k == e.attempt.key)
    {
      var i :| 0 <= i < |all| && Unaided(all[i]) && all[i].attempt.key == k;
      assert i < |events| ==> all[i] == events[i];
    }
  }

  lemma LastMore(events: seq<Event>, e: Event)
    ensures LastUnaided(events + [e]) == if Unaided(e) then Later(LastUnaided(events), e.attempt.at) else LastUnaided(events)
    ensures FirstUnaided(events + [e]) == if Unaided(e) then Earlier(FirstUnaided(events), e.attempt.at) else FirstUnaided(events)
  {
    assert (events + [e])[..|events|] == events;
  }

  /** Retention, once shown, stays shown whatever is logged next, in whatever order. */
  lemma RetentionStays(events: seq<Event>, e: Event, gap: int)
    requires RetentionShown(events, gap)
    ensures RetentionShown(events + [e], gap)
  {
    KeysMore(events, e);
    LastMore(events, e);
    D.SubsetCardinality(UnaidedKeys(events), UnaidedKeys(events + [e]));
  }

  /** Nothing but a demonstrated answer changes what retention rests on. */
  lemma OnlyAnswersShowRetention(events: seq<Event>, e: Event, gap: int)
    requires !e.Answer?
    ensures RetentionShown(events + [e], gap) == RetentionShown(events, gap)
    ensures LastUnaided(events + [e]) == LastUnaided(events)
  {
    KeysMore(events, e);
    LastMore(events, e);
  }

  /** The first and the latest unaided answer, as the times they stand for. */
  lemma UnaidedMoves(events: seq<Event>, a: Attempt, difficulty: real, weight: real, credit: real)
    ensures var more := events + [Answer(a, difficulty, weight, credit)];
            if a.hints == 0 && a.prior == 0 && !a.taught
            then LastUnaided(more) == (if LastUnaided(events).Some? && LastUnaided(events).value >= a.at then LastUnaided(events) else Some(a.at))
            else LastUnaided(more) == LastUnaided(events)
  {
    LastMore(events, Answer(a, difficulty, weight, credit));
  }

  /** An answer with a hint, asked again, or after teaching shows no retention; nor does it show transfer, nor a wrong one. */
  lemma AssistedShowsNothing(events: seq<Event>, a: Attempt, difficulty: real, weight: real, credit: real, gap: int, settingOf: Settings)
    ensures a.hints > 0 || a.prior > 0 || a.taught ==>
      RetentionShown(events + [Answer(a, difficulty, weight, credit)], gap) == RetentionShown(events, gap)
    ensures a.hints > 0 || a.prior > 0 || a.taught || !a.correct ==>
      !ShowsTransfer(events + [Answer(a, difficulty, weight, credit)], |events|, settingOf)
  {
    var e := Answer(a, difficulty, weight, credit);
    KeysMore(events, e);
    LastMore(events, e);
  }

  lemma TransferAtStays(events: seq<Event>, e: Event, i: nat, settingOf: Settings)
    requires i < |events| && Follows(events, e) && ShowsTransfer(events, i, settingOf)
    ensures ShowsTransfer(events + [e], i, settingOf)
  {
    var all := events + [e];
    assert all[i] == events[i];
    var j :| 0 <= j < |events| && IsAttempt(events[j]) && events[j].attempt.at < events[i].attempt.at;
    assert all[j] == events[j];
  }

  lemma TransferAtWas(events: seq<Event>, e: Event, i: nat, settingOf: Settings)
    requires i < |events| && Follows(events, e) && ShowsTransfer(events + [e], i, settingOf)
    ensures ShowsTransfer(events, i, settingOf)
  {
    var all := events + [e];
    assert all[i] == events[i];
    forall j | 0 <= j < |events| && SameSetting(events[i], events[j], settingOf)
      ensures events[i].attempt.at <= events[j].attempt.at
    {
      assert all[j] == events[j];
    }
    var j :| 0 <= j < |all| && IsAttempt(all[j]) && all[j].attempt.at < all[i].attempt.at;
    assert j < |events|;
    assert events[j] == all[j];
  }

  /** Transfer, once shown, stays shown while attempts are logged in the order observed. */
  lemma TransferStays(events: seq<Event>, e: Event, settingOf: Settings)
    requires TransferShown(events, settingOf) && Follows(events, e)
    ensures TransferShown(events + [e], settingOf)
  {
    var i :| 0 <= i < |events| && ShowsTransfer(events, i, settingOf);
    TransferAtStays(events, e, i, settingOf);
  }

  /** Nothing but a demonstrated answer, logged in order, changes whether transfer is shown. */
  lemma OnlyAnswersShowTransfer(events: seq<Event>, e: Event, settingOf: Settings)
    requires !e.Answer? && Follows(events, e)
    ensures TransferShown(events + [e], settingOf) == TransferShown(events, settingOf)
  {
    if TransferShown(events, settingOf) {
      TransferStays(events, e, settingOf);
    } else if TransferShown(events + [e], settingOf) {
      var i :| 0 <= i < |events + [e]| && ShowsTransfer(events + [e], i, settingOf);
      assert i < |events|;
      TransferAtWas(events, e, i, settingOf);
    }
  }

  /**
    Transfer, once shown, is undone by a later-logged event exactly when that event is an attempt
    observed before every success that showed it, in their own setting, and shows none itself.
   */
  lemma TransferUndoneExactlyWhen(events: seq<Event>, e: Event, settingOf: Settings)
    requires TransferShown(events, settingOf)
    ensures !TransferShown(events + [e], settingOf) <==>
      && (forall i :: 0 <= i < |events| && ShowsTransfer(events, i, settingOf) ==>
            SameSetting(events[i], e, settingOf) && e.attempt.at < events[i].attempt.at)
      && !ShowsTransfer(events + [e], |events|, settingOf)
      && forall i :: 0 <= i < |events| && NewlyBeyond(events, e, i, settingOf) ==> !Success(events[i])
  {
    var all := events + [e];
    assert all[|events|] == e;
    forall i | 0 <= i < |events|
      ensures ShowsTransfer(all, i, settingOf) <==>
        || (ShowsTransfer(events, i, settingOf) && !Undercuts(events, e, i, settingOf))
        || (Success(events[i]) && NewlyBeyond(events, e, i, settingOf))
    {
      ShowsWithOneMore(events, e, i, settingOf);
    }
  }

  /** `e` was observed before attempt `i`, in its setting. */
  predicate Undercuts(events: seq<Event>, e: Event, i: nat, settingOf: Settings)
    requires i < |events|
  {
    SameSetting(events[i], e, settingOf) && e.attempt.at < events[i].attempt.at
  }

  /** Attempt `i` was the first in its setting and of all; `e` is an earlier one in another setting. */
  predicate NewlyBeyond(events: seq<Event>, e: Event, i: nat, settingOf: Settings)
    requires i < |events|
  {
    && IsAttempt(events[i]) && IsAttempt(e)
    && (forall j :: 0 <= j < |events| && IsAttempt(events[j]) ==> events[i].attempt.at <= events[j].attempt.at)
    && e.attempt.at < events[i].attempt.at && !SameSetting(events[i], e, settingOf)
  }

  lemma ShowsWithOneMore(events: seq<Event>, e: Event, i: nat, settingOf: Settings)
    requires i < |events|
    ensures ShowsTransfer(events + [e], i, settingOf) <==>
      || (ShowsTransfer(events, i, settingOf) && !Undercuts(events, e, i, settingOf))
      || (Success(events[i]) && NewlyBeyond(events, e, i, settingOf))
  {
    var all := events + [e];
    assert all[i] == events[i] && all[|events|] == e;
    assert forall j :: 0 <= j < |events| ==> all[j] == events[j];
  }
}
