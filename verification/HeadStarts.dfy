/** Head starts from linked components: which one a component ends up with, and what withdrawing one leaves. */
module HeadStarts {
  import opened Wrappers
  import opened Ids
  import opened Estimates
  import opened Evidence
  import opened MasteryRow
  import opened MasteryRuns

  /** A head start offered by `source` at `now`. */
  datatype Offer = Offer(estimate: Estimate, source: KcId, now: int)

  function AfterOffers(p: Policy, kc: KcId, c: Component, offers: seq<Offer>): Component {
    if offers == [] then c
    else
      var o := offers[|offers| - 1];
      Act(p, kc, AfterOffers(p, kc, c, offers[..|offers| - 1]), HeadStarted(o.estimate, o.source, o.now))
  }

  /** The row's standing is the one this offer gave. */
  ghost predicate StandsOn(row: Row, o: Offer) {
    row.estimate == o.estimate && row.transferredFrom == Some(o.source) && row.transferred == Some(o.now)
  }

  /** Once a component has an answer of its own, nothing borrowed or guessed moves its row or its log. */
  lemma AnswersOutrankHeadStarts(p: Policy, kc: KcId, c: Component, a: Action)
    requires Held(c).lastSeen.Some? && (a.Placed? || a.HeadStarted? || a.Revoked?)
    ensures Act(p, kc, c, a) == c
  {
  }

  /**
    However many links offer a head start, and in whatever order, an unanswered component ends
    up standing on an offer no other one beats, on the conservative estimate; a head start it
    already had is only given up for a better one.
   */
  lemma {:induction false} BestHeadStartWins(p: Policy, kc: KcId, c: Component, offers: seq<Offer>)
    requires Held(c).lastSeen.None?
    ensures var row := Held(AfterOffers(p, kc, c, offers));
            && row.lastSeen.None?
            && (forall o :: o in offers ==> Conservative(row.estimate) >= Conservative(o.estimate))
            && (Held(c).transferred.Some? ==> Conservative(row.estimate) >= Conservative(Held(c).estimate))
            && (row == Held(c) || exists o :: o in offers && StandsOn(row, o))
            && (row.transferred.Some? <==> Held(c).transferred.Some? || offers != [])
    decreases |offers|
  {
    if offers != [] {
      var init, o := offers[..|offers| - 1], offers[|offers| - 1];
      BestHeadStartWins(p, kc, c, init);
      assert offers == init + [o];
      var before, row := Held(AfterOffers(p, kc, c, init)), Held(AfterOffers(p, kc, c, offers));
      if TakesHeadStart(before, o.estimate) {
        assert StandsOn(row, o);
      } else {
        assert row == before;
      }
    }
  }

  lemma {:induction false} OffersComeTooLate(p: Policy, kc: KcId, c: Component, offers: seq<Offer>)
    requires Held(c).lastSeen.Some?
    ensures AfterOffers(p, kc, c, offers) == c
    decreases |offers|
  {
    if offers != [] {
      var init, o := offers[..|offers| - 1], offers[|offers| - 1];
      OffersComeTooLate(p, kc, c, init);
      AnswersOutrankHeadStarts(p, kc, c, HeadStarted(o.estimate, o.source, o.now));
    }
  }

  /** Two orders of the same offers leave equally good standings, to an answered component the one it had. */
  lemma OfferOrderDoesNotMatter(p: Policy, kc: KcId, c: Component, offers: seq<Offer>, others: seq<Offer>)
    requires forall o :: o in offers <==> o in others
    ensures Conservative(Held(AfterOffers(p, kc, c, offers)).estimate)
         == Conservative(Held(AfterOffers(p, kc, c, others)).estimate)
    ensures Held(c).lastSeen.Some? ==> AfterOffers(p, kc, c, offers) == c
  {
    if Held(c).lastSeen.Some? {
      OffersComeTooLate(p, kc, c, offers);
      OffersComeTooLate(p, kc, c, others);
      return;
    }
    BestHeadStartWins(p, kc, c, offers);
    BestHeadStartWins(p, kc, c, others);
    var one, two := Held(AfterOffers(p, kc, c, offers)), Held(AfterOffers(p, kc, c, others));
    if one == Held(c) && offers != [] {
      var o := offers[0];
      assert o in offers && o in others;
    }
    if two == Held(c) && others != [] {
      var o := others[0];
      assert o in others && o in offers;
    }
  }

  /**
    Withdrawing the head start a component stands on, before it has any answer, leaves it as if
    nothing had been known; withdrawing any other link's changes nothing. The milestones and the
    review schedule are untouched either way.
   */
  lemma RevokingUndoesTheHeadStart(p: Policy, kc: KcId, c: Component, source: KcId)
    requires Kept(p, c) && Held(c).lastSeen.None?
    ensures var before, after := Held(c), Held(Act(p, kc, c, Revoked(source)));
            && (before.transferredFrom == Some(source) ==>
                  && !IsProvisional(after) && BeliefOf(after) == Replay(p, []) && after.transferredFrom == None
                  && Replay(p, Act(p, kc, c, Revoked(source)).events) == Replay(p, []))
            && (before.transferredFrom != Some(source) ==> after == before)
            && after == before.(estimate := after.estimate, transferredFrom := after.transferredFrom,
                                transferred := after.transferred, confirmed := after.confirmed)
  {
    if TakesRevoke(Held(c), source) {
      ReplayMore(p, c.events, Withdrawn(source));
    }
  }

}
