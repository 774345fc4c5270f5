/** Rolling estimates up: `aggregate` (`app/learning/tracer.py`) and the roll-ups of `app/learning/mastery.py`. */
module Rollup {
  import opened Estimates
  import opened Tracer

  /** A child estimate and its coverage. */
  datatype Share = Share(estimate: Estimate, weight: real)

  function Weights(shares: seq<Share>): real {
    if shares == [] then 0.0 else shares[0].weight + Weights(shares[1..])
  }

  function Product(x: real, y: real): (z: real)
    ensures x > 0.0 && y > 0.0 ==> z > 0.0
    ensures x == y ==> z >= 0.0
  {
    x * y
  }

  function Squared(u: real): real {
    Product(u, u)
  }

  /** `sum(wi * u_i ** 2)`. */
  function Spread(shares: seq<Share>): real {
    if shares == [] then 0.0 else shares[0].weight * Squared(shares[0].estimate.uncertainty) + Spread(shares[1..])
  }

  /** `wi / u_i ** 2`. */
  function Precision(s: Share): real
    requires s.estimate.uncertainty > 0.0
  {
    s.weight / Squared(s.estimate.uncertainty)
  }

  function Precisions(shares: seq<Share>): real
    requires AllValid(shares)
  {
    if shares == [] then 0.0 else Precision(shares[0]) + Precisions(shares[1..])
  }

  function Pulled(shares: seq<Share>): real
    requires AllValid(shares)
  {
    if shares == [] then 0.0 else Precision(shares[0]) * shares[0].estimate.ability + Pulled(shares[1..])
  }

  /** An estimate's uncertainty is positive, and coverage is not negative. */
  predicate AllValid(shares: seq<Share>) {
    forall i :: 0 <= i < |shares| ==> shares[i].estimate.uncertainty > 0.0 && shares[i].weight >= 0.0
  }

  lemma {:induction false} PrecisionsArePositive(shares: seq<Share>)
    requires AllValid(shares)
    ensures Precisions(shares) >= 0.0 && Weights(shares) >= 0.0 && Spread(shares) >= 0.0
    ensures Weights(shares) > 0.0 ==> Precisions(shares) > 0.0
    decreases |shares|
  {
    if shares != [] {
      PrecisionsArePositive(shares[1..]);
      ShareIsPositive(shares[0].weight, Squared(shares[0].estimate.uncertainty));
    }
  }

  lemma ShareIsPositive(w: real, v: real)
    requires v > 0.0 && w >= 0.0
    ensures w * v >= 0.0 && w / v >= 0.0 && (w > 0.0 ==> w / v > 0.0)
  {
    NotNegative(w, v);
    Quotient(w, v);
  }

  lemma Quotient(w: real, v: real)
    requires w >= 0.0 && v > 0.0
    ensures w / v >= 0.0 && (w > 0.0 ==> w / v > 0.0) && (w / v) * v == w
  {
  }

  /** `aggregate`. */
  function Aggregate(sqrt: real -> real, shares: seq<Share>): Estimate
    requires AllValid(shares)
  {
    if shares == [] || Weights(shares) <= 0.0 then UNKNOWN
    else
      PrecisionsArePositive(shares);
      Estimate(Pulled(shares) / Precisions(shares),
               Clamp(sqrt(Spread(shares) / Weights(shares)), MIN_UNCERTAINTY, DEFAULT_UNCERTAINTY))
  }

  // ---- The point estimate stays among the children's --------------------------------------

  lemma {:induction false} PulledBetween(shares: seq<Share>, lo: real, hi: real)
    requires AllValid(shares) && forall i :: 0 <= i < |shares| ==> lo <= shares[i].estimate.ability <= hi
    ensures lo * Precisions(shares) <= Pulled(shares) <= hi * Precisions(shares)
    decreases |shares|
  {
    if shares != [] {
      var p, a := FirstPull(shares);
      PulledBetween(shares[1..], lo, hi);
      OneMorePull(lo, hi, p, a, Precisions(shares[1..]), Pulled(shares[1..]), Precisions(shares), Pulled(shares));
    } else {
      TimesZero(lo);
      TimesZero(hi);
    }
  }

  lemma TimesZero(x: real)
    ensures x * 0.0 == 0.0
  {
  }

  /** What the first share adds to the precisions and to the pull. */
  lemma FirstPull(shares: seq<Share>) returns (p: real, a: real)
    requires AllValid(shares) && shares != []
    ensures p >= 0.0 && a == shares[0].estimate.ability && AllValid(shares[1..])
    ensures Precisions(shares) == p + Precisions(shares[1..]) && Pulled(shares) == p * a + Pulled(shares[1..])
  {
    p, a := Precision(shares[0]), shares[0].estimate.ability;
    ShareIsPositive(shares[0].weight, Squared(shares[0].estimate.uncertainty));
  }

  lemma OneMorePull(lo: real, hi: real, p: real, a: real, ps: real, pulled: real, total: real, all: real)
    requires p >= 0.0 && lo <= a <= hi && lo * ps <= pulled <= hi * ps
    requires total == p + ps && all == p * a + pulled
    ensures lo * total <= all <= hi * total
  {
    Grows(lo, a, p);
    Grows(a, hi, p);
    Spreads(lo, p, ps);
    Spreads(hi, p, ps);
  }

  lemma Spreads(x: real, a: real, b: real)
    ensures x * (a + b) == x * a + x * b
  {
  }

  lemma QuotientBetween(lo: real, hi: real, n: real, d: real)
    requires d > 0.0 && lo * d <= n <= hi * d
    ensures lo <= n / d <= hi
  {
    assert (n / d) * d == n;
    Cancel(lo, n / d, d);
    Cancel(n / d, hi, d);
  }

  /** The aggregate ability lies between the smallest and the largest child ability. */
  lemma AbilityAmongChildren(sqrt: real -> real, shares: seq<Share>, lo: real, hi: real)
    requires AllValid(shares) && Weights(shares) > 0.0
    requires forall i :: 0 <= i < |shares| ==> lo <= shares[i].estimate.ability <= hi
    ensures lo <= Aggregate(sqrt, shares).ability <= hi
  {
    PrecisionsArePositive(shares);
    PulledBetween(shares, lo, hi);
    QuotientBetween(lo, hi, Pulled(shares), Precisions(shares));
  }

  // ---- Rolling up twice -------------------------------------------------------------------

  /** Equal coverage, one for each child. */
  function Equally(estimates: seq<Estimate>): seq<Share> {
    seq(|estimates|, i requires 0 <= i < |estimates| => Share(estimates[i], 1.0))
  }

  predicate AllWithin(estimates: seq<Estimate>) {
    forall i :: 0 <= i < |estimates| ==> MIN_UNCERTAINTY <= estimates[i].uncertainty <= DEFAULT_UNCERTAINTY
  }

  /** `rollup_topic`: a topic's components count equally. */
  function Topic(sqrt: real -> real, estimates: seq<Estimate>): Estimate
    requires AllWithin(estimates)
  {
    Aggregate(sqrt, Equally(estimates))
  }

  predicate GroupsOk(groups: seq<seq<Estimate>>) {
    forall i :: 0 <= i < |groups| ==> groups[i] != [] && AllWithin(groups[i])
  }

  /** A topic weighted by how many components it has. */
  function TopicShare(sqrt: real -> real, group: seq<Estimate>): Share
    requires AllWithin(group)
  {
    Share(Topic(sqrt, group), |group| as real)
  }

  function TopicShares(sqrt: real -> real, groups: seq<seq<Estimate>>): seq<Share>
    requires GroupsOk(groups)
  {
    if groups == [] then [] else [TopicShare(sqrt, groups[0])] + TopicShares(sqrt, groups[1..])
  }

  function Flat(groups: seq<seq<Estimate>>): seq<Estimate> {
    if groups == [] then [] else groups[0] + Flat(groups[1..])
  }

  lemma {:induction false} EquallyJoins(a: seq<Estimate>, b: seq<Estimate>)
    ensures Spread(Equally(a + b)) == Spread(Equally(a)) + Spread(Equally(b))
    ensures Weights(Equally(a + b)) == Weights(Equally(a)) + Weights(Equally(b))
    decreases |a|
  {
    if a == [] {
      assert a + b == b;
    } else {
      EquallyJoins(a[1..], b);
      assert Equally(a + b)[1..] == Equally(a[1..] + b);
      assert Equally(a)[1..] == Equally(a[1..]);
    }
  }

  lemma {:induction false} CountWeighs(estimates: seq<Estimate>)
    ensures Weights(Equally(estimates)) == |estimates| as real
    decreases |estimates|
  {
    if estimates != [] {
      CountWeighs(estimates[1..]);
      assert Equally(estimates)[1..] == Equally(estimates[1..]);
    }
  }

  /** The spread of `n` children within bounds is within `n` times the squares of the bounds. */
  lemma {:induction false} SpreadWithin(estimates: seq<Estimate>)
    requires AllWithin(estimates)
    ensures MIN_UNCERTAINTY * MIN_UNCERTAINTY * (|estimates| as real) <= Spread(Equally(estimates)) <= |estimates| as real
    decreases |estimates|
  {
    if estimates != [] {
      SpreadWithin(estimates[1..]);
      assert Equally(estimates)[1..] == Equally(estimates[1..]);
      SquareWithin(estimates[0].uncertainty);
    }
  }

  lemma SquareWithin(u: real)
    requires MIN_UNCERTAINTY <= u <= 1.0
    ensures MIN_UNCERTAINTY * MIN_UNCERTAINTY <= Squared(u) <= 1.0 && 1.0 * Squared(u) == Squared(u)
  {
    SquaresKeepOrder(MIN_UNCERTAINTY, u);
    SquaresKeepOrder(u, 1.0);
    assert 1.0 * 1.0 == 1.0;
  }

  ghost predicate IsSqrt(sqrt: real -> real) {
    forall v :: v >= 0.0 ==> IsRoot(sqrt(v), v)
  }

  /** A topic's uncertainty is not clamped, so its weight and variance give its children's spread back. */
  lemma TopicKeepsSpread(sqrt: real -> real, group: seq<Estimate>)
    requires IsSqrt(sqrt) && group != [] && AllWithin(group)
    ensures var t := TopicShare(sqrt, group);
            && MIN_UNCERTAINTY <= t.estimate.uncertainty <= DEFAULT_UNCERTAINTY
            && t.weight * Squared(t.estimate.uncertainty) == Spread(Equally(group))
  {
    var n, spread := |group| as real, Spread(Equally(group));
    CountWeighs(group);
    SpreadWithin(group);
    RootOfMean(sqrt, spread, n);
    assert Topic(sqrt, group).uncertainty == sqrt(spread / n);
  }

  /** The root of a mean of squares within the bounds is within them, and `n` times its square is the sum. */
  lemma RootOfMean(sqrt: real -> real, spread: real, n: real)
    requires IsSqrt(sqrt) && n > 0.0 && MIN_UNCERTAINTY * MIN_UNCERTAINTY * n <= spread <= n
    ensures MIN_UNCERTAINTY <= sqrt(spread / n) <= DEFAULT_UNCERTAINTY
    ensures n * Squared(sqrt(spread / n)) == spread
  {
    var v := spread / n;
    assert v * n == spread;
    Cancel(MIN_UNCERTAINTY * MIN_UNCERTAINTY, v, n);
    assert 1.0 * n == n;
    Cancel(v, 1.0, n);
    var r := sqrt(v);
    assert IsRoot(r, v);
    RootsKeepOrder(MIN_UNCERTAINTY, r);
    RootsKeepOrder(r, 1.0);
    assert Squared(r) == v;
    Commutes(n, v);
  }

  lemma SpreadCons(first: Share, rest: seq<Share>, part: real)
    requires part == first.weight * Squared(first.estimate.uncertainty)
    requires AllValid(rest) && first.estimate.uncertainty > 0.0 && first.weight >= 0.0
    ensures AllValid([first] + rest)
    ensures Spread([first] + rest) == part + Spread(rest) && Weights([first] + rest) == first.weight + Weights(rest)
  {
    assert ([first] + rest)[1..] == rest;
  }

  lemma {:induction false} TopicsKeepSpread(sqrt: real -> real, groups: seq<seq<Estimate>>)
    requires IsSqrt(sqrt) && GroupsOk(groups)
    ensures Spread(TopicShares(sqrt, groups)) == Spread(Equally(Flat(groups)))
    ensures Weights(TopicShares(sqrt, groups)) == Weights(Equally(Flat(groups)))
    ensures AllValid(TopicShares(sqrt, groups))
    decreases |groups|
  {
    if groups != [] {
      TopicsKeepSpread(sqrt, groups[1..]);
      OneMoreTopic(sqrt, groups[0], TopicShares(sqrt, groups[1..]), Flat(groups[1..]));
    }
  }

  /** A topic's share in front of others weighs and spreads as its components in front of theirs. */
  lemma OneMoreTopic(sqrt: real -> real, group: seq<Estimate>, shares: seq<Share>, rest: seq<Estimate>)
    requires IsSqrt(sqrt) && group != [] && AllWithin(group) && AllValid(shares)
    requires Spread(shares) == Spread(Equally(rest)) && Weights(shares) == Weights(Equally(rest))
    ensures Spread([TopicShare(sqrt, group)] + shares) == Spread(Equally(group + rest))
    ensures Weights([TopicShare(sqrt, group)] + shares) == Weights(Equally(group + rest))
    ensures AllValid([TopicShare(sqrt, group)] + shares)
  {
    TopicKeepsSpread(sqrt, group);
    CountWeighs(group);
    EquallyJoins(group, rest);
    TopicInFront(TopicShare(sqrt, group), shares, group, rest);
  }

  lemma TopicInFront(t: Share, shares: seq<Share>, group: seq<Estimate>, rest: seq<Estimate>)
    requires AllValid(shares) && t.estimate.uncertainty > 0.0 && t.weight >= 0.0
    requires t.weight == Weights(Equally(group)) && t.weight * Squared(t.estimate.uncertainty) == Spread(Equally(group))
    requires Spread(shares) == Spread(Equally(rest)) && Weights(shares) == Weights(Equally(rest))
    ensures AllValid([t] + shares)
    ensures Spread([t] + shares) == Spread(Equally(group)) + Spread(Equally(rest))
    ensures Weights([t] + shares) == Weights(Equally(group)) + Weights(Equally(rest))
  {
    SpreadCons(t, shares, Spread(Equally(group)));
  }

  lemma {:induction false} FlatWithin(groups: seq<seq<Estimate>>)
    requires GroupsOk(groups)
    ensures AllWithin(Flat(groups)) && (groups != [] ==> Flat(groups) != [])
    decreases |groups|
  {
    if groups != [] {
      FlatWithin(groups[1..]);
    }
  }

  /**
    `rollup_subject` weighs each topic by its component count; its uncertainty is that of one flat
    roll-up of all the components.
   */
  lemma SubjectIsFlat(sqrt: real -> real, groups: seq<seq<Estimate>>)
    requires IsSqrt(sqrt) && GroupsOk(groups)
    ensures AllValid(TopicShares(sqrt, groups)) && AllWithin(Flat(groups))
    ensures Aggregate(sqrt, TopicShares(sqrt, groups)).uncertainty == Topic(sqrt, Flat(groups)).uncertainty
  {
    TopicsKeepSpread(sqrt, groups);
    FlatWithin(groups);
    CountWeighs(Flat(groups));
  }

  /** However its children are weighted, an aggregate is neither surer than the floor nor less sure than knowing nothing. */
  lemma AggregateWithin(sqrt: real -> real, shares: seq<Share>)
    requires AllValid(shares)
    ensures MIN_UNCERTAINTY <= Aggregate(sqrt, shares).uncertainty <= DEFAULT_UNCERTAINTY
  {
  }

  // ---- Who pulls how hard -----------------------------------------------------------------

  lemma SharesCons(s: Share, rest: seq<Share>)
    requires AllValid(rest) && s.estimate.uncertainty > 0.0 && s.weight >= 0.0
    ensures AllValid([s] + rest)
    ensures Weights([s] + rest) == s.weight + Weights(rest)
    ensures Precisions([s] + rest) == Precision(s) + Precisions(rest)
    ensures Pulled([s] + rest) == Precision(s) * s.estimate.ability + Pulled(rest)
    ensures Spread([s] + rest) == s.weight * Squared(s.estimate.uncertainty) + Spread(rest)
  {
    assert ([s] + rest)[1..] == rest;
  }

  /** The aggregate of one child is that child. */
  lemma OneChildIsItself(sqrt: real -> real, s: Share)
    requires IsSqrt(sqrt) && s.weight > 0.0 && MIN_UNCERTAINTY <= s.estimate.uncertainty <= DEFAULT_UNCERTAINTY
    ensures AllValid([s]) && Aggregate(sqrt, [s]) == s.estimate
  {
    var u, w, a := s.estimate.uncertainty, s.weight, s.estimate.ability;
    assert [s] == [s] + [];
    SharesCons(s, []);
    ShareIsPositive(w, Squared(u));
    var p := Precision(s);
    assert Precisions([s]) == p && Pulled([s]) == p * a;
    assert Weights([s]) == w && Spread([s]) == w * Squared(u);
    Divides(Pulled([s]), p, a);
    Divides(Spread([s]), w, Squared(u));
    RootIs(sqrt, u, Squared(u));
    var root := sqrt(Spread([s]) / Weights([s]));
    assert Clamp(root, MIN_UNCERTAINTY, DEFAULT_UNCERTAINTY) == u;
  }

  lemma Divides(n: real, x: real, y: real)
    requires x > 0.0 && n == x * y
    ensures n / x == y
  {
  }

  lemma RootIs(sqrt: real -> real, u: real, v: real)
    requires IsSqrt(sqrt) && u >= 0.0 && v == u * u
    ensures sqrt(v) == u
  {
    assert v >= 0.0 && IsRoot(sqrt(v), v);
    RootsKeepOrder(sqrt(v), u);
    RootsKeepOrder(u, sqrt(v));
  }

  /**
    Of two children each pulls the aggregate by its weight over its squared uncertainty: what is
    left to each, times that, is the same.
   */
  lemma TwoChildrenBalance(sqrt: real -> real, s: Share, t: Share, p: real, q: real, a: real)
    requires AllValid([s, t]) && s.weight > 0.0 && t.weight > 0.0
    requires p * (s.estimate.uncertainty * s.estimate.uncertainty) == s.weight
    requires q * (t.estimate.uncertainty * t.estimate.uncertainty) == t.weight
    requires a == Aggregate(sqrt, [s, t]).ability
    ensures p > 0.0 && q > 0.0 && p * (a - s.estimate.ability) == q * (t.estimate.ability - a)
  {
    assert s == [s, t][0] && t == [s, t][1];
    assert [t] == [t] + [] && [s, t] == [s] + [t];
    SharesCons(t, []);
    SharesCons(s, [t]);
    PrecisionIs(s, p);
    PrecisionIs(t, q);
    Balance(p, q, s.estimate.ability, t.estimate.ability, a);
  }

  lemma PrecisionIs(s: Share, p: real)
    requires s.estimate.uncertainty > 0.0 && s.weight > 0.0
    requires p * (s.estimate.uncertainty * s.estimate.uncertainty) == s.weight
    ensures Precision(s) == p > 0.0
  {
    var v := Squared(s.estimate.uncertainty);
    assert v == s.estimate.uncertainty * s.estimate.uncertainty;
    Quotient(s.weight, v);
  }

  lemma Balance(p: real, q: real, x: real, y: real, a: real)
    requires p > 0.0 && q > 0.0 && a == (p * x + q * y) / (p + q)
    ensures p * (a - x) == q * (y - a)
  {
    assert a * (p + q) == p * x + q * y;
    Spreads(a, p, q);
  }

  /** Equally weighted, the more certain of two children is the nearer to their aggregate. */
  lemma CertaintyPulls(sqrt: real -> real, s: Share, t: Share)
    requires AllValid([s, t]) && s.weight == t.weight > 0.0 && s.estimate.ability < t.estimate.ability
    ensures var a := Aggregate(sqrt, [s, t]).ability;
            a - s.estimate.ability < t.estimate.ability - a <==> s.estimate.uncertainty < t.estimate.uncertainty
  {
    var a := Aggregate(sqrt, [s, t]).ability;
    assert s == [s, t][0] && t == [s, t][1];
    var p, q := Precision(s), Precision(t);
    Quotient(s.weight, Squared(s.estimate.uncertainty));
    Quotient(t.weight, Squared(t.estimate.uncertainty));
    TwoChildrenBalance(sqrt, s, t, p, q, a);
    Nearer(p, q, a - s.estimate.ability, t.estimate.ability - a);
    MoreCertainIsMorePrecise(s.weight, s.estimate.uncertainty, t.estimate.uncertainty, p, q);
  }

  lemma Nearer(p: real, q: real, x: real, y: real)
    requires p > 0.0 && q > 0.0 && p * x == q * y && x + y > 0.0
    ensures x < y <==> p > q
  {
    assert p * (x + y) == q * y + p * y == (p + q) * y;
    assert q * (x + y) == q * x + p * x == (p + q) * x;
    assert (p - q) * (x + y) == (p + q) * (y - x);
    if x < y {
      assert (p + q) * (y - x) > 0.0;
    } else {
      assert (p + q) * (y - x) <= 0.0;
    }
  }

  lemma MoreCertainIsMorePrecise(w: real, u: real, v: real, p: real, q: real)
    requires w > 0.0 && u > 0.0 && v > 0.0 && p > 0.0 && q > 0.0 && p * (u * u) == w == q * (v * v)
    ensures p > q <==> u < v
  {
    RootsKeepOrder(u, v);
    RootsKeepOrder(v, u);
    var x, y := u * u, v * v;
    assert x > 0.0 && y > 0.0;
    assert (p - q) * x == q * (y - x);
    if u < v {
      assert x < y;
      assert q * (y - x) > 0.0;
    } else {
      assert y <= x;
      assert q * (y - x) <= 0.0;
    }
  }
}
