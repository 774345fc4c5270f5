/** The estimator's arithmetic over the reals (`app/learning/tracer.py`). */
module Tracer {
  import opened Estimates

  const MIN_UNCERTAINTY := 0.05
  const DEFAULT_UNCERTAINTY := 1.0

  /** The estimator's parameters, and the two functions of the mathematics library it uses. */
  datatype Glicko = Glicko(volatility: real, maxUncertainty: real, sigmoid: real -> real, sqrt: real -> real)

  /** What is used of the two functions: the logistic lies strictly between 0 and 1, and a root is a root. */
  ghost predicate Lawful(g: Glicko) {
    && (forall x :: 0.0 < g.sigmoid(x) < 1.0)
    && (forall v :: v >= 0.0 ==> IsRoot(g.sqrt(v), v))
    && g.maxUncertainty >= MIN_UNCERTAINTY
  }

  predicate IsRoot(r: real, v: real) {
    r >= 0.0 && r * r == v
  }

  function MinOf(a: real, b: real): real {
    if a < b then a else b
  }

  function MaxOf(a: real, b: real): real {
    if a < b then b else a
  }

  function Clamp(x: real, lo: real, hi: real): real {
    MaxOf(lo, MinOf(hi, x))
  }

  function Expected(g: Glicko, prior: Estimate, difficulty: real): real {
    g.sigmoid(prior.ability - difficulty)
  }

  /** The posterior variance: the prior's precision and the answer's information added up. */
  function PosteriorVariance(u: real, info: real): real
    requires u > 0.0 && info >= 0.0
  {
    assert u * u > 0.0;
    1.0 / (1.0 / (u * u) + info)
  }

  /** The Fisher information an answer carries. */
  function Info(weight: real, e: real): real {
    weight * e * (1.0 - e)
  }

  lemma InfoIsPositive(weight: real, e: real)
    requires weight > 0.0 && 0.0 < e < 1.0
    ensures Info(weight, e) > 0.0
  {
    assert weight * e > 0.0;
  }

  /** `GlickoEstimator.update`. */
  function Update(g: Glicko, prior: Estimate, score: real, difficulty: real, weight: real): Estimate
    requires Lawful(g) && prior.uncertainty > 0.0 && weight > 0.0
  {
    var s := Clamp(score, 0.0, 1.0);
    var e := Expected(g, prior, difficulty);
    InfoIsPositive(weight, e);
    var v := PosteriorVariance(prior.uncertainty, Info(weight, e));
    Estimate(prior.ability + v * weight * (s - e), Clamp(g.sqrt(v), MIN_UNCERTAINTY, g.maxUncertainty))
  }

  /** The variance after `days` without an answer. */
  function Grown(g: Glicko, u: real, days: real): real {
    u * u + (g.volatility * g.volatility) * MaxOf(days, 0.0)
  }

  /** `GlickoEstimator.decay`. */
  function Decay(g: Glicko, prior: Estimate, days: real): Estimate {
    Estimate(prior.ability, MinOf(g.sqrt(Grown(g, prior.uncertainty, days)), g.maxUncertainty))
  }

  // ---- Products -----------------------------------------------------------------------------

  lemma Grows(x: real, y: real, z: real)
    requires x <= y && z >= 0.0
    ensures x * z <= y * z && z * x <= z * y
  {
    assert (y - x) * z >= 0.0;
    assert (y - x) * z == y * z - x * z;
  }

  lemma Shrinks(x: real, z: real)
    requires x <= 1.0 && z >= 0.0
    ensures x * z <= z && z * x <= z
  {
    Grows(x, 1.0, z);
    assert 1.0 * z == z && z * 1.0 == z;
  }

  lemma Positive(x: real, y: real)
    requires x > 0.0 && y > 0.0
    ensures x * y > 0.0
  {
  }

  lemma NotNegative(x: real, y: real)
    requires x >= 0.0 && y >= 0.0
    ensures x * y >= 0.0
  {
  }

  lemma Cancel(x: real, y: real, z: real)
    requires z > 0.0 && x * z <= y * z
    ensures x <= y
  {
    var w := (y - x) * z;
    assert w == y * z - x * z >= 0.0;
    assert w / z == y - x;
    assert w / z >= 0.0;
  }

  lemma Regroup(x: real, y: real, z: real)
    ensures (x * y) * z == x * (y * z) == y * (x * z)
  {
  }

  // ---- Roots --------------------------------------------------------------------------------

  lemma SquaresKeepOrder(a: real, b: real)
    requires 0.0 <= a <= b
    ensures a * a <= b * b
  {
    Grows(a, b, a);
    Grows(a, b, b);
  }

  lemma RootsKeepOrder(a: real, b: real)
    requires a >= 0.0 && b >= 0.0
    ensures a * a <= b * b <==> a <= b
  {
    if a <= b {
      SquaresKeepOrder(a, b);
    } else {
      var gap, sum := a - b, a + b;
      assert gap * sum > 0.0;
      assert gap * sum == a * a - b * b;
    }
  }

  // ---- One answer ---------------------------------------------------------------------------

  /** The new variance, without the fractions: `v` and the information account for the old one. */
  lemma VarianceBalances(u: real, info: real)
    requires u > 0.0 && info >= 0.0
    ensures var v := PosteriorVariance(u, info); v > 0.0 && v * (1.0 + info * (u * u)) == u * u && v <= u * u
  {
    var uu := u * u;
    assert uu > 0.0;
    var p := 1.0 / uu;
    assert p * uu == 1.0;
    assert p > 0.0;
    var v := 1.0 / (p + info);
    assert v * (p + info) == 1.0;
    assert v > 0.0;
    assert v * (p + info) * uu == v * (p * uu + info * uu) == v * (1.0 + info * uu);
    assert info * uu >= 0.0;
    assert v * (info * uu) >= 0.0;
  }

  /** Evidence never widens an estimate: the new root is at most the old uncertainty. */
  lemma RootShrinks(u: real, info: real, r: real)
    requires u > 0.0 && info >= 0.0 && IsRoot(r, PosteriorVariance(u, info))
    ensures 0.0 < r <= u
  {
    VarianceBalances(u, info);
    RootsKeepOrder(r, u);
    assert r != 0.0;
  }

  /** With `q = e (1 - e)`, `(1 - 2 e)^2 (1 + q) <= 1`. */
  lemma GapBound(e: real)
    requires 0.0 < e < 1.0
    ensures (1.0 - 2.0 * e) * (1.0 - 2.0 * e) * (1.0 + e * (1.0 - e)) <= 1.0
  {
    var q := e * (1.0 - e);
    assert q > 0.0;
    assert (1.0 - 2.0 * e) * (1.0 - 2.0 * e) == 1.0 - 4.0 * q;
    assert (1.0 - 4.0 * q) * (1.0 + q) == 1.0 - 3.0 * q - 4.0 * (q * q);
    assert q * q >= 0.0;
  }

  lemma UnitSquare(u: real)
    requires 0.0 < u <= 1.0
    ensures 0.0 < u * u <= 1.0
  {
    Positive(u, u);
    Shrinks(u, u);
  }

  lemma InfoIs(weight: real, e: real, q: real)
    requires q == e * (1.0 - e)
    ensures Info(weight, e) == weight * q
  {
    Regroup(weight, e, 1.0 - e);
  }

  lemma SmallShare(w: real, q: real, x: real, info: real)
    requires 0.0 < w <= 1.0 && 0.0 < q && 0.0 < x <= 1.0 && info == w * q
    ensures 0.0 <= info * x <= q
  {
    Shrinks(w, q);
    Positive(w, q);
    SmallerStill(info, q, x);
  }

  lemma SmallerStill(info: real, q: real, x: real)
    requires 0.0 < info <= q && 0.0 < x <= 1.0
    ensures 0.0 <= info * x <= q
  {
    Shrinks(x, info);
    Positive(info, x);
  }

  /** The root keeps at least the fraction `1 - 2 e` of the old uncertainty. */
  lemma ShareIsKept(u: real, weight: real, e: real, r: real)
    requires 0.0 < u <= 1.0 && 0.0 < weight <= 1.0 && 0.0 < e < 1.0
    requires Info(weight, e) >= 0.0 && IsRoot(r, PosteriorVariance(u, Info(weight, e)))
    ensures (1.0 - 2.0 * e) * (1.0 - 2.0 * e) * (u * u) <= r * r
  {
    var d, q, info := 1.0 - 2.0 * e, e * (1.0 - e), Info(weight, e);
    VarianceBalances(u, info);
    Positive(e, 1.0 - e);
    InfoIs(weight, e, q);
    GapBound(e);
    UnitSquare(u);
    SquareIsPositive(d);
    KeptShare(d * d, q, weight, info, u * u, r * r);
  }

  lemma RootKeepsEnough(u: real, weight: real, e: real, r: real)
    requires 0.0 < u <= 1.0 && 0.0 < weight <= 1.0 && 0.0 < e < 1.0
    requires Info(weight, e) >= 0.0 && IsRoot(r, PosteriorVariance(u, Info(weight, e)))
    ensures (1.0 - 2.0 * e) * u <= r
  {
    var d := 1.0 - 2.0 * e;
    if d > 0.0 {
      ShareIsKept(u, weight, e, r);
      RootOfShare(d, u, r);
    } else {
      Grows(d, 0.0, u);
      assert 0.0 * u == 0.0;
    }
  }

  /** From `dd (1 + q) <= 1` and `v (1 + w q x) == x`: `dd x <= v`. */
  lemma KeptShare(dd: real, q: real, w: real, info: real, x: real, v: real)
    requires dd >= 0.0 && q > 0.0 && 0.0 < w <= 1.0 && 0.0 < x <= 1.0 && v >= 0.0 && info == w * q
    requires dd * (1.0 + q) <= 1.0 && v * (1.0 + info * x) == x
    ensures dd * x <= v
  {
    SmallShare(w, q, x, info);
    Grows(1.0 + info * x, 1.0 + q, dd);
    Scaled(dd, 1.0 + info * x, x, v);
  }

  lemma RootOfShare(d: real, u: real, r: real)
    requires d > 0.0 && u > 0.0 && r >= 0.0 && (d * d) * (u * u) <= r * r
    ensures d * u <= r
  {
    Positive(d, u);
    SquareOfProduct(d, u);
    RootsKeepOrder(d * u, r);
  }

  lemma SquareOfProduct(x: real, y: real)
    ensures (x * y) * (x * y) == (x * x) * (y * y)
  {
    Regroup(x, y, x * y);
    Regroup(y, x, y);
    Regroup(x, x, y * y);
  }

  /** From `x * y <= 1` and `v * y == z`, `x * z <= v`. */
  lemma Scaled(x: real, y: real, z: real, v: real)
    requires y > 0.0 && v >= 0.0 && x * y <= 1.0 && v * y == z
    ensures x * z <= v
  {
    Regroup(x, v, y);
    Regroup(v, x, y);
    Grows(x * y, 1.0, v);
  }

  /** What the uncertainty can shrink by is at most what a wholly wrong answer takes off the ability. */
  lemma ShrinkIsPaidFor(u: real, weight: real, e: real, r: real)
    requires 0.0 < u <= 1.0 && 0.0 < weight <= 1.0 && 0.0 < e < 1.0
    requires Info(weight, e) >= 0.0 && IsRoot(r, PosteriorVariance(u, Info(weight, e)))
    ensures 2.0 * (u - r) <= PosteriorVariance(u, Info(weight, e)) * (weight * e)
  {
    var info := Info(weight, e);
    var v := Variance(u, info, r);
    var we, f := Lead(u, weight, e, r);
    ShrinkIsPaid(u, r, v, we, f, info);
  }

  /** What the answer weighs and what was not expected of it: together they are its information. */
  lemma Lead(u: real, weight: real, e: real, r: real) returns (we: real, f: real)
    requires 0.0 < u <= 1.0 && 0.0 < weight <= 1.0 && 0.0 < e < 1.0
    requires Info(weight, e) >= 0.0 && IsRoot(r, PosteriorVariance(u, Info(weight, e)))
    ensures we == weight * e > 0.0 && f > 0.0 && Info(weight, e) == we * f && (2.0 * f - 1.0) * u <= r
  {
    we, f := weight * e, 1.0 - e;
    RootKeepsLead(u, weight, e, f, r);
    Positive(weight, e);
    InfoIsProduct(weight, e, f);
  }

  /** The posterior variance with everything known of it. */
  lemma Variance(u: real, info: real, r: real) returns (v: real)
    requires u > 0.0 && info >= 0.0 && IsRoot(r, PosteriorVariance(u, info))
    ensures v == PosteriorVariance(u, info) == r * r && v > 0.0 && v * (1.0 + info * (u * u)) == u * u && 0.0 < r <= u
  {
    v := PosteriorVariance(u, info);
    VarianceBalances(u, info);
    RootShrinks(u, info, r);
  }

  lemma RootKeepsLead(u: real, weight: real, e: real, f: real, r: real)
    requires 0.0 < u <= 1.0 && 0.0 < weight <= 1.0 && 0.0 < e < 1.0 && f == 1.0 - e
    requires Info(weight, e) >= 0.0 && IsRoot(r, PosteriorVariance(u, Info(weight, e)))
    ensures (2.0 * f - 1.0) * u <= r
  {
    RootKeepsEnough(u, weight, e, r);
    assert 2.0 * f - 1.0 == 1.0 - 2.0 * e;
  }

  lemma InfoIsProduct(weight: real, e: real, f: real)
    requires f == 1.0 - e
    ensures Info(weight, e) == (weight * e) * f
  {
  }

  lemma ShrinkIsPaid(u: real, r: real, v: real, we: real, f: real, info: real)
    requires 0.0 < u <= 1.0 && 0.0 < r <= u && v > 0.0 && we > 0.0 && f > 0.0
    requires (2.0 * f - 1.0) * u <= r && v == r * r
    requires v * (1.0 + info * (u * u)) == u * u && info == we * f
    ensures 2.0 * (u - r) <= v * we
  {
    LeadIsSmall(u, f, r);
    Positive(v, we);
    PriorBalances(u, r, v, we, f, info);
    Payment(u, r, v, we, f * (u * u));
  }

  lemma PriorBalances(u: real, r: real, v: real, we: real, f: real, info: real)
    requires v == r * r && v * (1.0 + info * (u * u)) == u * u && info == we * f
    ensures u * u == r * r + v * (we * (f * (u * u)))
  {
    Distribute(v, info * (u * u));
    Regroup(we, f, u * u);
  }

  /** With `u^2 - r^2 == v * we * x` and `2 x <= u + r`, twice the gap `u - r` is at most `v * we`. */
  lemma Payment(u: real, r: real, v: real, we: real, x: real)
    requires 0.0 < r <= u && v * we > 0.0 && 2.0 * x <= u + r
    requires u * u == r * r + v * (we * x)
    ensures 2.0 * (u - r) <= v * we
  {
    var c := v * we;
    Regroup(v, we, x);
    assert (u - r) * (u + r) == u * u - r * r;
    Grows(2.0 * x, u + r, c);
    TwiceTimes(x, c);
    TwiceTimes(u - r, u + r);
    Commutes(c, u + r);
    Commutes(c, x);
    assert (2.0 * (u - r)) * (u + r) == 2.0 * (c * x) == (2.0 * x) * c <= (u + r) * c;
    Cancel(2.0 * (u - r), c, u + r);
  }

  lemma Commutes(x: real, y: real)
    ensures x * y == y * x
  {
  }

  lemma TwiceTimes(x: real, y: real)
    ensures (2.0 * x) * y == 2.0 * (x * y) == 2.0 * (y * x)
  {
  }

  lemma Distribute(v: real, k: real)
    ensures v * (1.0 + k) == v + v * k
  {
  }

  /** `2 (1 - e) u^2 <= u + r`, with `f == 1 - e`. */
  lemma LeadIsSmall(u: real, f: real, r: real)
    requires 0.0 < u <= 1.0 && 0.0 < f && (2.0 * f - 1.0) * u <= r
    ensures 2.0 * (f * (u * u)) <= u + r
  {
    Shrinks(u, u);
    Grows(u * u, u, f);
    assert (2.0 * f - 1.0) * u == 2.0 * (f * u) - u;
  }

  /**
    An entirely wrong answer never raises the conservative estimate, whatever the difficulty and
    the weight, floor included.
   */
  lemma WrongAnswerNeverHelps(g: Glicko, prior: Estimate, difficulty: real, weight: real)
    requires Lawful(g) && 0.0 < prior.uncertainty <= 1.0 && prior.uncertainty <= g.maxUncertainty
    requires 0.0 < weight <= 1.0
    ensures Conservative(Update(g, prior, 0.0, difficulty, weight)) <= Conservative(prior)
  {
    var e, u := Expected(g, prior, difficulty), prior.uncertainty;
    InfoIsPositive(weight, e);
    var v := PosteriorVariance(u, Info(weight, e));
    VarianceBalances(u, Info(weight, e));
    var r := g.sqrt(v);
    RootShrinks(u, Info(weight, e), r);
    ShrinkIsPaidFor(u, weight, e, r);
    var post := Update(g, prior, 0.0, difficulty, weight);
    assert post.uncertainty >= r;
    Regroup(v, weight, e);
    assert v * weight * (0.0 - e) == -(v * (weight * e));
  }

  /** An answer widens the estimate exactly when the prior is already below the floor. */
  lemma EvidenceWidensExactlyBelowFloor(g: Glicko, prior: Estimate, score: real, difficulty: real, weight: real)
    requires Lawful(g) && 0.0 < prior.uncertainty <= g.maxUncertainty && weight > 0.0
    ensures Update(g, prior, score, difficulty, weight).uncertainty > prior.uncertainty <==> prior.uncertainty < MIN_UNCERTAINTY
    ensures MIN_UNCERTAINTY <= Update(g, prior, score, difficulty, weight).uncertainty <= g.maxUncertainty
  {
    var e := Expected(g, prior, difficulty);
    InfoIsPositive(weight, e);
    VarianceBalances(prior.uncertainty, Info(weight, e));
    RootShrinks(prior.uncertainty, Info(weight, e), g.sqrt(PosteriorVariance(prior.uncertainty, Info(weight, e))));
  }

  /** Ability moves towards the score: up when it beats the expectation, down when it falls short. */
  lemma AbilityFollowsScore(g: Glicko, prior: Estimate, score: real, difficulty: real, weight: real)
    requires Lawful(g) && prior.uncertainty > 0.0 && weight > 0.0 && 0.0 <= score <= 1.0
    ensures var e, post := Expected(g, prior, difficulty), Update(g, prior, score, difficulty, weight);
            && (score > e <==> post.ability > prior.ability)
            && (score < e <==> post.ability < prior.ability)
  {
    var e := Expected(g, prior, difficulty);
    InfoIsPositive(weight, e);
    var v := PosteriorVariance(prior.uncertainty, Info(weight, e));
    VarianceBalances(prior.uncertainty, Info(weight, e));
    assert v * weight > 0.0;
    SameSign(v * weight, score - e);
  }

  lemma SameSign(c: real, x: real)
    requires c > 0.0
    ensures (x > 0.0 <==> c * x > 0.0) && (x < 0.0 <==> c * x < 0.0)
  {
  }

  /** What is expected rises with ability and falls with difficulty, as the logistic rises. */
  lemma ExpectationFollows(g: Glicko, one: Estimate, other: Estimate, difficulty: real, harder: real)
    requires forall x, y :: x < y ==> g.sigmoid(x) < g.sigmoid(y)
    ensures one.ability < other.ability ==> Expected(g, one, difficulty) < Expected(g, other, difficulty)
    ensures difficulty < harder ==> Expected(g, one, harder) < Expected(g, one, difficulty)
  {
  }

  /**
    An answer's information adds to the precision held before, and moves the ability by its share
    of the surprise; the uncertainty is the root of what is left, between the floor and the cap.
   */
  lemma AnswerAddsPrecision(
    g: Glicko, prior: Estimate, score: real, difficulty: real, weight: real, e: real, info: real) returns (v: real)
    requires Lawful(g) && prior.uncertainty > 0.0 && weight > 0.0 && 0.0 <= score <= 1.0
    requires e == g.sigmoid(prior.ability - difficulty) && info == weight * e * (1.0 - e)
    ensures v > 0.0 && v * (1.0 + info * (prior.uncertainty * prior.uncertainty)) == prior.uncertainty * prior.uncertainty
    ensures Update(g, prior, score, difficulty, weight).ability == prior.ability + v * weight * (score - e)
    ensures MIN_UNCERTAINTY * MIN_UNCERTAINTY <= v <= g.maxUncertainty * g.maxUncertainty ==>
      Update(g, prior, score, difficulty, weight).uncertainty * Update(g, prior, score, difficulty, weight).uncertainty == v
  {
    InfoIsPositive(weight, e);
    assert info == Info(weight, e);
    v := PosteriorVariance(prior.uncertainty, info);
    VarianceBalances(prior.uncertainty, info);
    if MIN_UNCERTAINTY * MIN_UNCERTAINTY <= v <= g.maxUncertainty * g.maxUncertainty {
      RootWithin(g, v);
      assert Update(g, prior, score, difficulty, weight).uncertainty == g.sqrt(v);
    }
  }

  lemma RootWithin(g: Glicko, v: real)
    requires Lawful(g) && v > 0.0 && MIN_UNCERTAINTY * MIN_UNCERTAINTY <= v <= g.maxUncertainty * g.maxUncertainty
    ensures MIN_UNCERTAINTY <= g.sqrt(v) <= g.maxUncertainty && g.sqrt(v) * g.sqrt(v) == v
  {
    assert IsRoot(g.sqrt(v), v);
    RootsKeepOrder(MIN_UNCERTAINTY, g.sqrt(v));
    RootsKeepOrder(g.sqrt(v), g.maxUncertainty);
  }

  // ---- Time ---------------------------------------------------------------------------------

  lemma GrownIsPositive(g: Glicko, u: real, days: real)
    ensures Grown(g, u, days) >= u * u >= 0.0
  {
    SquareIsPositive(u);
    SquareIsPositive(g.volatility);
    NotNegative(g.volatility * g.volatility, MaxOf(days, 0.0));
  }

  lemma SquareIsPositive(x: real)
    ensures x * x >= 0.0
  {
  }

  /** Capping the root of `v` before adding `w` to its square caps the root of `v + w` alike. */
  lemma CappedRoots(g: Glicko, v: real, w: real, capped: real)
    requires Lawful(g) && v >= 0.0 && w >= 0.0 && capped == MinOf(g.sqrt(v), g.maxUncertainty)
    ensures MinOf(g.sqrt(capped * capped + w), g.maxUncertainty) == MinOf(g.sqrt(v + w), g.maxUncertainty)
  {
    var m, first := g.maxUncertainty, g.sqrt(v);
    assert IsRoot(first, v) && IsRoot(g.sqrt(v + w), v + w);
    if first >= m {
      assert capped == m;
      SquareIsPositive(m);
      assert IsRoot(g.sqrt(m * m + w), m * m + w);
      RootsKeepOrder(m, g.sqrt(m * m + w));
      RootsKeepOrder(first, g.sqrt(v + w));
    } else {
      assert capped == first;
      assert capped * capped == v;
    }
  }

  /** Decaying over `a` and then `b` days is decaying over both together, the cap included. */
  lemma DecayAddsUp(g: Glicko, prior: Estimate, a: real, b: real)
    requires Lawful(g) && prior.uncertainty >= 0.0 && a >= 0.0 && b >= 0.0
    ensures Decay(g, Decay(g, prior, a), b) == Decay(g, prior, a + b)
  {
    var u, cc := prior.uncertainty, g.volatility * g.volatility;
    SquareIsPositive(g.volatility);
    NotNegative(cc, b);
    GrownIsPositive(g, u, a);
    assert Grown(g, u, a + b) == Grown(g, u, a) + cc * b by {
      assert cc * (a + b) == cc * a + cc * b;
    }
    var capped := Decay(g, prior, a).uncertainty;
    assert Grown(g, capped, b) == capped * capped + cc * b;
    CappedRoots(g, Grown(g, u, a), cc * b, capped);
  }

  /** Decay only widens, and never past the cap. */
  lemma DecayWidens(g: Glicko, prior: Estimate, days: real)
    requires Lawful(g) && 0.0 <= prior.uncertainty <= g.maxUncertainty
    ensures prior.uncertainty <= Decay(g, prior, days).uncertainty <= g.maxUncertainty
    ensures Decay(g, prior, days).ability == prior.ability
  {
    var v := Grown(g, prior.uncertainty, days);
    GrownIsPositive(g, prior.uncertainty, days);
    assert IsRoot(g.sqrt(v), v);
    RootsKeepOrder(prior.uncertainty, g.sqrt(v));
  }

  /** Without an answer the variance grows by the squared volatility a day, until the cap. */
  lemma DecayGrowsVariance(g: Glicko, prior: Estimate, days: real)
    requires Lawful(g) && 0.0 <= prior.uncertainty && days >= 0.0
    ensures var r := Decay(g, prior, days).uncertainty;
            || r * r == prior.uncertainty * prior.uncertainty + g.volatility * g.volatility * days
            || (r == g.maxUncertainty && r * r <= prior.uncertainty * prior.uncertainty + g.volatility * g.volatility * days)
    ensures days == 0.0 && prior.uncertainty <= g.maxUncertainty ==> Decay(g, prior, days) == prior
  {
    var v := Grown(g, prior.uncertainty, days);
    GrownIsPositive(g, prior.uncertainty, days);
    assert IsRoot(g.sqrt(v), v);
    if g.sqrt(v) >= g.maxUncertainty {
      RootsKeepOrder(g.maxUncertainty, g.sqrt(v));
    }
    if days == 0.0 {
      assert v == prior.uncertainty * prior.uncertainty;
      RootsKeepOrder(g.sqrt(v), prior.uncertainty);
      RootsKeepOrder(prior.uncertainty, g.sqrt(v));
    }
  }

  /** A score outside the scale counts as the nearer end of it. */
  lemma ScoresStayOnScale(g: Glicko, prior: Estimate, score: real, difficulty: real, weight: real)
    requires Lawful(g) && prior.uncertainty > 0.0 && weight > 0.0
    ensures score >= 1.0 ==> Update(g, prior, score, difficulty, weight) == Update(g, prior, 1.0, difficulty, weight)
    ensures score <= 0.0 ==> Update(g, prior, score, difficulty, weight) == Update(g, prior, 0.0, difficulty, weight)
  {
  }
}
