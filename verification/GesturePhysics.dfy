/** Where a released gesture settles: damping past the ends of a range, and rounding a projection onto a step. */
module GesturePhysics {
  import opened Reals
  import Tracking = SwipeTracker

  const STIFFNESS := 0.5
  const OVERSCROLL_LIMIT := 0.05

  function Overscroll(excess: real, limit: real): real
    requires excess >= 0.0 && limit > 0.0
  {
    limit * (1.0 - 1.0 / (1.0 + STIFFNESS * excess / limit))
  }

  /** `rubberBand` */
  function RubberBand(position: real, low: real, high: real, limit: real): real
    requires low <= high && limit > 0.0
  {
    var clamped := Clamp(position, low, high);
    var extra := Overscroll(Abs(position - clamped), limit);
    if position < clamped then clamped - extra else clamped + extra
  }

  /** `rubberBandDerivative` */
  function RubberBandDerivative(position: real, low: real, high: real, limit: real): real
    requires low <= high && limit > 0.0
  {
    if low <= position <= high then 1.0
    else
      var excess := Abs(position - Clamp(position, low, high));
      var denominator := 1.0 + STIFFNESS * excess / limit;
      STIFFNESS / (denominator * denominator)
  }

  // The damping factor, in which all the formulas are polynomials

  ghost function Factor(excess: real, limit: real): (w: real)
    requires excess >= 0.0 && limit > 0.0
  {
    1.0 / (1.0 + STIFFNESS * excess / limit)
  }

  lemma FactorFacts(excess: real, limit: real)
    requires excess >= 0.0 && limit > 0.0
    ensures var w := Factor(excess, limit);
            0.0 < w <= 1.0 && w * (1.0 + STIFFNESS * excess / limit) == 1.0 && (excess > 0.0 ==> w < 1.0)
  {
    var u := STIFFNESS * excess / limit;
    if excess > 0.0 {
      assert u * limit == STIFFNESS * excess;
      assert u > 0.0;
    }
  }

  /** The difference of two damped excesses, in terms of the factors. */
  lemma OverscrollDifference(a: real, b: real, limit: real)
    requires a >= 0.0 && b >= 0.0 && limit > 0.0
    ensures Overscroll(b, limit) - Overscroll(a, limit)
         == STIFFNESS * (b - a) * (Factor(a, limit) * Factor(b, limit))
    ensures limit * (Factor(a, limit) - Factor(b, limit)) == STIFFNESS * (b - a) * (Factor(a, limit) * Factor(b, limit))
  {
    FactorFacts(a, limit);
    FactorFacts(b, limit);
    DifferenceOfFactors(Factor(a, limit), STIFFNESS * a / limit, Factor(b, limit), STIFFNESS * b / limit, limit,
                        STIFFNESS * a, STIFFNESS * b);
  }

  lemma DifferenceOfFactors(w1: real, u1: real, w2: real, u2: real, limit: real, x1: real, x2: real)
    requires w1 * (1.0 + u1) == 1.0 && w2 * (1.0 + u2) == 1.0 && limit > 0.0 && u1 == x1 / limit && u2 == x2 / limit
    ensures limit * (w1 - w2) == (x2 - x1) * (w1 * w2)
  {
    assert w1 - w2 == w1 * (w2 * (1.0 + u2)) - w2 * (w1 * (1.0 + u1));
    assert w1 - w2 == (u2 - u1) * (w1 * w2);
    assert limit * u1 == x1 && limit * u2 == x2;
    assert limit * ((u2 - u1) * (w1 * w2)) == (limit * u2 - limit * u1) * (w1 * w2);
  }

  lemma ProductInUnit(a: real, b: real)
    requires 0.0 < a <= 1.0 && 0.0 < b <= 1.0
    ensures 0.0 < a * b <= 1.0
  {
    assert a * b <= a * 1.0;
  }

  lemma ScaledByUnit(distance: real, f: real)
    requires 0.0 < distance && 0.0 < f <= 1.0
    ensures 0.0 < distance * f <= distance
  {
    assert distance * f <= distance * 1.0;
  }

  /** Damped excess grows with the excess, at no more than the stiffness, and never reaches the limit. */
  lemma OverscrollRises(a: real, b: real, limit: real)
    requires 0.0 <= a < b && limit > 0.0
    ensures 0.0 <= Overscroll(a, limit) < Overscroll(b, limit) <= Overscroll(a, limit) + STIFFNESS * (b - a)
    ensures Factor(b, limit) < Factor(a, limit)
  {
    OverscrollDifference(a, b, limit);
    OverscrollBounds(a, limit);
    FactorFacts(a, limit);
    FactorFacts(b, limit);
    ProductInUnit(Factor(a, limit), Factor(b, limit));
    ScaledByUnit(STIFFNESS * (b - a), Factor(a, limit) * Factor(b, limit));
    PositiveFactor(limit, Factor(a, limit) - Factor(b, limit),
                   STIFFNESS * (b - a) * (Factor(a, limit) * Factor(b, limit)));
  }

  lemma PositiveFactor(limit: real, difference: real, product: real)
    requires limit > 0.0 && limit * difference == product > 0.0
    ensures difference > 0.0
  {
    assert difference == product / limit;
  }

  /** Pushing twice the limit past an end moves half the limit past it, and no push is felt more than half. */
  lemma DampingHalves(excess: real, limit: real)
    requires excess >= 0.0 && limit > 0.0
    ensures Overscroll(2.0 * limit, limit) == 0.5 * limit && Overscroll(excess, limit) <= 0.5 * excess
  {
    assert STIFFNESS * (2.0 * limit) / limit == 1.0;
    OverscrollBounds(0.0, limit);
    if excess > 0.0 {
      OverscrollRises(0.0, excess, limit);
    }
  }

  lemma OverscrollBounds(excess: real, limit: real)
    requires excess >= 0.0 && limit > 0.0
    ensures 0.0 <= Overscroll(excess, limit) < limit
    ensures excess == 0.0 ==> Overscroll(excess, limit) == 0.0
  {
    FactorFacts(excess, limit);
    var w := Factor(excess, limit);
    assert Overscroll(excess, limit) == limit * (1.0 - w);
    ScaledByUnit(limit, w);
    assert limit * (1.0 - w) == limit - limit * w;
  }

  // The rubber band

  function Above(position: real, high: real): (excess: real)
    ensures excess >= 0.0
  {
    if position > high then position - high else 0.0
  }

  /** A position is its clamped part and one damped excess at either end. */
  lemma RubberBandParts(position: real, low: real, high: real, limit: real)
    requires low <= high && limit > 0.0
    ensures RubberBand(position, low, high, limit)
         == Clamp(position, low, high)
            + Overscroll(Above(position, high), limit) - Overscroll(Above(low, position), limit)
    ensures Clamp(position, low, high) == position - Above(position, high) + Above(low, position)
  {
    OverscrollBounds(0.0, limit);
  }

  lemma ExcessRises(a: real, b: real, limit: real)
    requires 0.0 <= a <= b && limit > 0.0
    ensures 0.0 <= Overscroll(b, limit) - Overscroll(a, limit) <= STIFFNESS * (b - a)
    ensures a < b ==> Overscroll(a, limit) < Overscroll(b, limit)
  {
    if a < b {
      OverscrollRises(a, b, limit);
    }
  }

  /** The band is the identity in its range, strictly increasing and 1-Lipschitz everywhere, and stays within the
      limit of its range. */
  lemma RubberBandRises(p: real, q: real, low: real, high: real, limit: real)
    requires low <= high && limit > 0.0 && p < q
    ensures RubberBand(p, low, high, limit) < RubberBand(q, low, high, limit)
        <= RubberBand(p, low, high, limit) + (q - p)
    ensures low <= p <= high ==> RubberBand(p, low, high, limit) == p
    ensures low - limit < RubberBand(p, low, high, limit) < high + limit
  {
    RubberBandParts(p, low, high, limit);
    RubberBandParts(q, low, high, limit);
    ExcessRises(Above(p, high), Above(q, high), limit);
    ExcessRises(Above(low, q), Above(low, p), limit);
    OverscrollBounds(Above(p, high), limit);
    OverscrollBounds(Above(low, p), limit);
    OverscrollBounds(0.0, limit);
  }

  // The derivative

  ghost function Square(d: real): (square: real)
    ensures square >= 0.0
  {
    SquareIsNonNegative(d);
    d * d
  }

  ghost function SlopeOf(w: real): real {
    STIFFNESS * Square(w)
  }

  /** How far a rise is from the straight line of a slope. */
  ghost function Remainder(rise: real, slope: real, distance: real): real {
    Abs(rise - slope * distance)
  }

  ghost function Tolerance(distance: real, limit: real): real
    requires limit > 0.0
  {
    STIFFNESS * STIFFNESS * Square(distance) / limit
  }

  lemma DerivativeIsFactor(position: real, low: real, high: real, limit: real)
    requires low <= high && limit > 0.0 && !(low <= position <= high)
    ensures RubberBandDerivative(position, low, high, limit)
         == SlopeOf(Factor(Above(position, high) + Above(low, position), limit))
  {
    var excess := Above(position, high) + Above(low, position);
    FactorFacts(excess, limit);
    assert excess == Abs(position - Clamp(position, low, high));
    SquareOfReciprocal(1.0 + STIFFNESS * excess / limit, Factor(excess, limit));
  }

  lemma SquareOfReciprocal(d: real, w: real)
    requires w * d == 1.0 && d > 0.0 && d * d > 0.0
    ensures STIFFNESS / (d * d) == SlopeOf(w)
  {
    assert (w * w) * (d * d) == (w * d) * (w * d);
    var square, inverse := d * d, w * w;
    assert inverse * square == 1.0;
  }

  /** The error of the straight line is at most a constant times the square of the step. */
  lemma QuadraticRemainder(a: real, b: real, limit: real)
    requires a >= 0.0 && b >= 0.0 && limit > 0.0
    ensures Remainder(Overscroll(b, limit) - Overscroll(a, limit), SlopeOf(Factor(a, limit)), b - a)
         <= Tolerance(b - a, limit)
  {
    var w1, w2, d, rise := Factor(a, limit), Factor(b, limit), b - a, Overscroll(b, limit) - Overscroll(a, limit);
    assert 0.0 < w1 <= 1.0 && 0.0 < w2 <= 1.0 by {
      FactorFacts(a, limit);
      FactorFacts(b, limit);
    }
    assert rise == STIFFNESS * d * (w1 * w2) && limit * (w1 - w2) == STIFFNESS * d * (w1 * w2) by {
      OverscrollDifference(a, b, limit);
    }
    RemainderOf(w1, w2, d, limit, rise);
  }

  lemma RemainderOf(w1: real, w2: real, d: real, limit: real, rise: real)
    requires limit > 0.0 && 0.0 < w1 <= 1.0 && 0.0 < w2 <= 1.0
    requires rise == STIFFNESS * d * (w1 * w2) && limit * (w1 - w2) == STIFFNESS * d * (w1 * w2)
    ensures Remainder(rise, SlopeOf(w1), d) <= Tolerance(d, limit)
  {
    var f, gap := GapFacts(w1, w2, d, limit, rise);
    GapBound(rise, SlopeOf(w1), d, limit, f, gap);
  }

  lemma GapBound(rise: real, slope: real, d: real, limit: real, f: real, gap: real)
    requires limit > 0.0 && 0.0 < f <= 1.0
    requires gap == rise - slope * d && limit * gap == -(STIFFNESS * STIFFNESS * Square(d) * f)
    ensures Remainder(rise, slope, d) <= Tolerance(d, limit)
  {
    RemainderBound(f, Square(d), limit, gap);
  }

  /** The error as a product with the square of the step. */
  lemma GapFacts(w1: real, w2: real, d: real, limit: real, rise: real) returns (f: real, gap: real)
    requires limit > 0.0 && 0.0 < w1 <= 1.0 && 0.0 < w2 <= 1.0
    requires rise == STIFFNESS * d * (w1 * w2) && limit * (w1 - w2) == STIFFNESS * d * (w1 * w2)
    ensures gap == rise - SlopeOf(w1) * d && 0.0 < f <= 1.0
    ensures limit * gap == -(STIFFNESS * STIFFNESS * Square(d) * f)
  {
    f := Times(Times(w1, w1), w2);
    gap := rise - SlopeOf(w1) * d;
    RemainderForm(w1, w2, d, limit, rise, d * d, f);
  }

  ghost function Times(a: real, b: real): (product: real)
    requires 0.0 < a <= 1.0 && 0.0 < b <= 1.0
    ensures 0.0 < product <= 1.0
  {
    ProductInUnit(a, b);
    a * b
  }

  lemma RemainderForm(w1: real, w2: real, d: real, limit: real, rise: real, square: real, f: real)
    requires limit > 0.0 && limit * (w1 - w2) == STIFFNESS * d * (w1 * w2)
    requires rise == STIFFNESS * d * (w1 * w2) && square == d * d && f == w1 * w1 * w2
    ensures limit * (rise - SlopeOf(w1) * d) == -(STIFFNESS * STIFFNESS * square * f)
  {
    assert rise - SlopeOf(w1) * d == -(STIFFNESS * d * w1) * (w1 - w2);
    assert limit * (rise - SlopeOf(w1) * d) == -(STIFFNESS * d * w1) * (limit * (w1 - w2));
  }

  lemma RemainderBound(f: real, square: real, limit: real, remainder: real)
    requires 0.0 < f <= 1.0 && limit > 0.0 && square >= 0.0
    requires limit * remainder == -(STIFFNESS * STIFFNESS * square * f)
    ensures Abs(remainder) <= STIFFNESS * STIFFNESS * square / limit
  {
    var bound := STIFFNESS * STIFFNESS * square;
    if square > 0.0 {
      ScaledByUnit(bound, f);
    }
    DividedBound(remainder, bound, bound * f, limit);
  }

  lemma DividedBound(remainder: real, bound: real, part: real, limit: real)
    requires limit > 0.0 && 0.0 <= part <= bound && limit * remainder == -part
    ensures Abs(remainder) <= bound / limit
  {
    assert remainder == -(part / limit);
    assert bound / limit - part / limit == (bound - part) / limit;
  }

  lemma Mirrored(rise: real, slope: real, distance: real, limit: real)
    requires limit > 0.0
    ensures Remainder(-rise, slope, -distance) == Remainder(rise, slope, distance)
    ensures Tolerance(-distance, limit) == Tolerance(distance, limit)
  {
    assert (-distance) * (-distance) == distance * distance;
    assert slope * (-distance) == -(slope * distance);
  }

  /** Outside the range, on either side, the derivative is the slope of the band. */
  lemma DerivativeIsSlope(p: real, q: real, low: real, high: real, limit: real)
    requires low <= high && limit > 0.0
    requires (p > high && q >= high) || (p < low && q <= low)
    ensures Remainder(RubberBand(q, low, high, limit) - RubberBand(p, low, high, limit),
                      RubberBandDerivative(p, low, high, limit), q - p)
         <= Tolerance(q - p, limit)
  {
    if p > high {
      BandAbove(p, q, low, high, limit);
      QuadraticRemainder(p - high, q - high, limit);
      assert q - high - (p - high) == q - p;
    } else {
      BandBelow(p, q, low, high, limit);
      QuadraticRemainder(low - p, low - q, limit);
      assert low - q - (low - p) == -(q - p);
      Mirrored(RubberBand(q, low, high, limit) - RubberBand(p, low, high, limit),
               RubberBandDerivative(p, low, high, limit), q - p, limit);
    }
  }

  lemma BandAbove(p: real, q: real, low: real, high: real, limit: real)
    requires low <= high && limit > 0.0 && p > high && q >= high
    ensures RubberBand(q, low, high, limit) - RubberBand(p, low, high, limit)
         == Overscroll(q - high, limit) - Overscroll(p - high, limit)
    ensures RubberBandDerivative(p, low, high, limit) == SlopeOf(Factor(p - high, limit))
  {
    RubberBandParts(p, low, high, limit);
    RubberBandParts(q, low, high, limit);
    DerivativeIsFactor(p, low, high, limit);
  }

  lemma BandBelow(p: real, q: real, low: real, high: real, limit: real)
    requires low <= high && limit > 0.0 && p < low && q <= low
    ensures RubberBand(q, low, high, limit) - RubberBand(p, low, high, limit)
         == -(Overscroll(low - q, limit) - Overscroll(low - p, limit))
    ensures RubberBandDerivative(p, low, high, limit) == SlopeOf(Factor(low - p, limit))
  {
    RubberBandParts(p, low, high, limit);
    RubberBandParts(q, low, high, limit);
    DerivativeIsFactor(p, low, high, limit);
  }

  // Landing

  /** `std::lround`: to the nearest integer, halves away from zero. */
  function Round(v: real): int {
    if v >= 0.0 then (v + 0.5).Floor else -((-v + 0.5).Floor)
  }

  lemma RoundIsNearest(v: real, n: int)
    ensures Abs(v - Round(v) as real) <= Abs(v - n as real)
    ensures Abs(v - Round(v) as real) == 0.5 ==> (Round(v) as real > v <==> v > 0.0)
    ensures Abs(v - n as real) < 0.5 ==> n == Round(v)
  {
  }

  /** `stepTarget` */
  function StepTarget(projected: real, low: int, high: int): int
    requires low <= high
  {
    Round(Clamp(projected, low as real, high as real))
  }

  lemma TargetExists(projected: real, low: int, high: int)
    requires low <= high
    ensures low <= StepTarget(projected, low, high) <= high
  {
    RoundIsNearest(Clamp(projected, low as real, high as real), low);
    RoundIsNearest(Clamp(projected, low as real, high as real), high);
  }

  /** Of all steps the target is nearest to the projection. */
  lemma TargetIsNearest(projected: real, low: int, high: int, n: int)
    requires low <= n <= high
    ensures Abs(projected - StepTarget(projected, low, high) as real) <= Abs(projected - n as real)
  {
    TargetExists(projected, low, high);
    RoundIsNearest(Clamp(projected, low as real, high as real), n);
    RoundIsNearest(Clamp(projected, low as real, high as real), low);
    RoundIsNearest(Clamp(projected, low as real, high as real), high);
  }

  datatype StepRelease = StepRelease(target: int, position: real, velocity: real)

  /** What the tracker reports at a release. */
  datatype Reading = Reading(pos: real, projectedEnd: real, velocity: real)

  /** `release` */
  function Release(reading: Reading, unitsPerStep: real, origin: real, low: int, high: int): StepRelease
    requires unitsPerStep > 0.0 && low <= high
  {
    var travelled := origin + reading.pos / unitsPerStep;
    var position := RubberBand(travelled, low as real, high as real, OVERSCROLL_LIMIT);
    var projected :=
      RubberBand(origin + reading.projectedEnd / unitsPerStep, low as real, high as real, OVERSCROLL_LIMIT);
    StepRelease(
      StepTarget(projected, low, high), position,
      reading.velocity / unitsPerStep * RubberBandDerivative(position, low as real, high as real, OVERSCROLL_LIMIT))
  }

  /** A release lands on an existing step: the projection clamped and rounded as if there were no damping. */
  lemma DampingKeepsTheTarget(reading: Reading, unitsPerStep: real, origin: real, low: int, high: int)
    requires unitsPerStep > 0.0 && low <= high
    ensures var target := Release(reading, unitsPerStep, origin, low, high).target;
            target == StepTarget(origin + reading.projectedEnd / unitsPerStep, low, high) && low <= target <= high
  {
    var projected := origin + reading.projectedEnd / unitsPerStep;
    RubberBandParts(projected, low as real, high as real, OVERSCROLL_LIMIT);
    OverscrollBounds(Above(projected, high as real), OVERSCROLL_LIMIT);
    OverscrollBounds(Above(low as real, projected), OVERSCROLL_LIMIT);
    OverscrollBounds(0.0, OVERSCROLL_LIMIT);
    TargetExists(projected, low, high);
  }

  /** What a tracker reports: its position, where it would coast to, and its velocity. The logarithm of the
      deceleration is a negative constant. */
  function ReadingOf(track: Tracking.Track, logDeceleration: real): Reading
    requires logDeceleration < 0.0
  {
    var velocity := Tracking.Velocity(track.history);
    Reading(track.pos, track.pos - velocity / (1000.0 * logDeceleration), velocity)
  }

  /** Resting the fingers for longer than the window before letting go bleeds off all speed: the zero-delta sample that
      precedes a release then leaves nothing to project, and the gesture lands where the fingers are. */
  lemma RestingReleaseLandsInPlace(
    track: Tracking.Track, accepted: seq<Tracking.Stamp>, at: nat, logDeceleration: real, unitsPerStep: real,
    origin: real,
    low: int, high: int)
    requires Tracking.Tracks(track, accepted) && accepted != [] && logDeceleration < 0.0
    requires Tracking.LIMIT < at - accepted[|accepted| - 1].at <= Tracking.HALF - Tracking.LIMIT - 1
    requires unitsPerStep > 0.0 && low <= high
    ensures var sampled := Tracking.Pushed(track, 0.0, at % Tracking.WRAP);
            var release := Release(ReadingOf(sampled, logDeceleration), unitsPerStep, origin, low, high);
            release.target == StepTarget(origin + track.pos / unitsPerStep, low, high) && release.velocity == 0.0
  {
    var sampled := Tracking.Pushed(track, 0.0, at % Tracking.WRAP);
    RestingSample(track, accepted, at);
    var reading := ReadingOf(sampled, logDeceleration);
    assert reading == Reading(track.pos, track.pos, 0.0);
    DampingKeepsTheTarget(reading, unitsPerStep, origin, low, high);
  }

  lemma RestingSample(track: Tracking.Track, accepted: seq<Tracking.Stamp>, at: nat)
    requires Tracking.Tracks(track, accepted) && accepted != []
    requires Tracking.LIMIT < at - accepted[|accepted| - 1].at <= Tracking.HALF - Tracking.LIMIT - 1
    ensures var sampled := Tracking.Pushed(track, 0.0, at % Tracking.WRAP);
            sampled.pos == track.pos && Tracking.Velocity(sampled.history) == 0.0
  {
    var next := Tracking.Stamp(0.0, at);
    var all, sampled := accepted + [next], Tracking.Pushed(track, 0.0, at % Tracking.WRAP);
    Tracking.PushTracks(track, accepted, next);
    assert all[..|accepted|] == accepted;
    forall i | 0 <= i < |accepted| ensures at - all[i].at > Tracking.LIMIT {
      assert all[i].at <= all[|accepted| - 1].at;
    }
    Tracking.FirstRecentIs(all, |accepted|);
    Tracking.VelocityIsTrue(sampled, all);
  }

  /** Pushing past an end leaves a smaller excess on the same side. */
  lemma DampedExcess(travelled: real, low: real, high: real, limit: real)
    requires low <= high && limit > 0.0 && !(low <= travelled <= high)
    ensures var position := RubberBand(travelled, low, high, limit);
            var excess := Above(travelled, high) + Above(low, travelled);
            var damped := Above(position, high) + Above(low, position);
            !(low <= position <= high) && 0.0 < damped < excess
  {
    var excess := Above(travelled, high) + Above(low, travelled);
    RubberBandParts(travelled, low, high, limit);
    OverscrollBounds(0.0, limit);
    OverscrollRises(0.0, excess, limit);
  }

  lemma Quotient(a: real, b: real, q: real)
    requires b > 0.0 && q == a / b
    ensures q * b == a && (a > 0.0 <==> q > 0.0) && (a < 0.0 <==> q < 0.0)
  {
    if q > 0.0 {
      ScaledPositive(q, b, a);
    } else if q < 0.0 {
      ScaledPositive(-q, b, -a);
    }
  }

  /** A tracker projects ahead of its position, in the direction of its velocity and in proportion to it: by what
      speed is left when it decays at the given rate. */
  lemma ProjectionLiesAhead(track: Tracking.Track, logDeceleration: real)
    requires logDeceleration < 0.0
    ensures var r := ReadingOf(track, logDeceleration);
            && r.pos == track.pos && r.velocity == Tracking.Velocity(track.history)
            && (r.projectedEnd > r.pos <==> r.velocity > 0.0) && (r.projectedEnd < r.pos <==> r.velocity < 0.0)
            && (r.projectedEnd - r.pos) * (1000.0 * -logDeceleration) == r.velocity
  {
    var r, rate := ReadingOf(track, logDeceleration), 1000.0 * -logDeceleration;
    assert r.velocity / (1000.0 * logDeceleration) == -(r.velocity / rate);
    Quotient(r.velocity, rate, r.projectedEnd - r.pos);
  }

  lemma RoundRises(a: real, b: real)
    requires a <= b
    ensures Round(a) <= Round(b)
  {
  }

  lemma StepTargetRises(a: real, b: real, low: int, high: int)
    requires low <= high && a <= b
    ensures StepTarget(a, low, high) <= StepTarget(b, low, high)
  {
    RoundRises(Clamp(a, low as real, high as real), Clamp(b, low as real, high as real));
  }

  lemma SharesRise(a: real, b: real, unitsPerStep: real)
    requires unitsPerStep > 0.0 && a <= b
    ensures a / unitsPerStep <= b / unitsPerStep
  {
    Quotient(b - a, unitsPerStep, b / unitsPerStep - a / unitsPerStep);
  }

  /** A gesture released while it moves lands no step short of the one it is at, on the side it moves to. */
  lemma ReleaseAimsAhead(track: Tracking.Track, logDeceleration: real, unitsPerStep: real, origin: real, low: int,
                         high: int)
    requires logDeceleration < 0.0 && unitsPerStep > 0.0 && low <= high
    ensures var r := ReadingOf(track, logDeceleration);
            var target, here := Release(r, unitsPerStep, origin, low, high).target,
                                StepTarget(origin + track.pos / unitsPerStep, low, high);
            (r.velocity >= 0.0 ==> target >= here) && (r.velocity <= 0.0 ==> target <= here)
  {
    var r := ReadingOf(track, logDeceleration);
    ProjectionLiesAhead(track, logDeceleration);
    DampingKeepsTheTarget(r, unitsPerStep, origin, low, high);
    if r.velocity >= 0.0 {
      SharesRise(r.pos, r.projectedEnd, unitsPerStep);
      StepTargetRises(origin + r.pos / unitsPerStep, origin + r.projectedEnd / unitsPerStep, low, high);
    }
    if r.velocity <= 0.0 {
      SharesRise(r.projectedEnd, r.pos, unitsPerStep);
      StepTargetRises(origin + r.projectedEnd / unitsPerStep, origin + r.pos / unitsPerStep, low, high);
    }
  }

  /** Inside its range a position is seen as it is; beyond an end on the same side, short of where it is, and at most
      the limit past the end. */
  ghost predicate SeenAs(travelled: real, seen: real, low: real, high: real, limit: real) {
    && (low <= travelled <= high ==> seen == travelled)
    && (travelled > high ==> high < seen < travelled && seen < high + limit)
    && (travelled < low ==> travelled < seen < low && low - limit < seen)
  }

  lemma BandIsSeen(travelled: real, low: real, high: real, limit: real)
    requires low <= high && limit > 0.0
    ensures SeenAs(travelled, RubberBand(travelled, low, high, limit), low, high, limit)
  {
    RubberBandRises(travelled, travelled + 1.0, low, high, limit);
    if !(low <= travelled <= high) {
      var excess := Above(travelled, high) + Above(low, travelled);
      RubberBandParts(travelled, low, high, limit);
      OverscrollBounds(0.0, limit);
      OverscrollRises(0.0, excess, limit);
    }
  }

  lemma ReleasePosition(reading: Reading, unitsPerStep: real, origin: real, low: int, high: int)
    requires unitsPerStep > 0.0 && low <= high
    ensures Release(reading, unitsPerStep, origin, low, high).position
         == RubberBand(origin + reading.pos / unitsPerStep, low as real, high as real, OVERSCROLL_LIMIT)
  {
  }

  /** A release begins where the gesture is seen, a twentieth of a step past an end at most. */
  lemma ReleaseBeginsWhereSeen(reading: Reading, unitsPerStep: real, origin: real, low: int, high: int)
    requires unitsPerStep > 0.0 && low <= high
    ensures SeenAs(origin + reading.pos / unitsPerStep, Release(reading, unitsPerStep, origin, low, high).position,
                   low as real, high as real, 0.05)
  {
    ReleasePosition(reading, unitsPerStep, origin, low, high);
    BandIsSeen(origin + reading.pos / unitsPerStep, low as real, high as real, OVERSCROLL_LIMIT);
  }

  /** The slope at the damped position is steeper than at the position travelled to. */
  lemma SlopeAtDampedPosition(travelled: real, low: real, high: real, limit: real)
    requires low <= high && limit > 0.0 && !(low <= travelled <= high)
    ensures 0.0 < RubberBandDerivative(travelled, low, high, limit)
              < RubberBandDerivative(RubberBand(travelled, low, high, limit), low, high, limit)
  {
    var position := RubberBand(travelled, low, high, limit);
    DampedExcess(travelled, low, high, limit);
    DerivativeIsFactor(travelled, low, high, limit);
    DerivativeIsFactor(position, low, high, limit);
    var excess, damped := Above(travelled, high) + Above(low, travelled), Above(position, high) + Above(low, position);
    OverscrollRises(damped, excess, limit);
    FactorFacts(excess, limit);
    var a, b := Factor(excess, limit), Factor(damped, limit);
    SquareRises(a, b);
    var flat := RubberBandDerivative(travelled, low, high, limit);
    var steep := RubberBandDerivative(position, low, high, limit);
    assert flat == SlopeOf(a) && steep == SlopeOf(b);
    assert 0.0 < flat < steep;
  }

  lemma ProductsRise(a: real, b: real, square: real, mixed: real, larger: real)
    requires 0.0 < a < b && square == a * a && mixed == a * b && larger == b * b
    ensures 0.0 < square < larger
  {
    ScaledPositive(a, a, square);
    ScaledPositive(b - a, a, mixed - square);
    ScaledPositive(b - a, b, larger - mixed);
  }

  lemma ScaledPositive(a: real, b: real, product: real)
    requires a > 0.0 && b > 0.0 && product == a * b
    ensures product > 0.0
  {
  }

  lemma SquareRises(a: real, b: real)
    requires 0.0 < a < b
    ensures 0.0 < Square(a) < Square(b)
  {
    ProductsRise(a, b, Square(a), a * b, Square(b));
  }

  /** A speed times the slope of the band at the position travelled to. */
  function Visible(speed: real, travelled: real, low: real, high: real, limit: real): real
    requires low <= high && limit > 0.0
  {
    speed * RubberBandDerivative(travelled, low, high, limit)
  }

  /** A speed times the slope at the damped position. */
  function Carried(speed: real, travelled: real, low: real, high: real, limit: real): real
    requires low <= high && limit > 0.0
  {
    speed * RubberBandDerivative(RubberBand(travelled, low, high, limit), low, high, limit)
  }

  lemma InsideIsVisible(speed: real, travelled: real, low: real, high: real, limit: real)
    requires low <= travelled <= high && limit > 0.0
    ensures Carried(speed, travelled, low, high, limit) == Visible(speed, travelled, low, high, limit)
  {
    RubberBandRises(travelled, travelled + 1.0, low, high, limit);
  }

  lemma OutsideIsFaster(speed: real, travelled: real, low: real, high: real, limit: real)
    requires low <= high && limit > 0.0 && !(low <= travelled <= high)
    ensures var visible := Visible(speed, travelled, low, high, limit);
            var carried := Carried(speed, travelled, low, high, limit);
            Abs(visible) <= Abs(carried) && (carried == visible <==> speed == 0.0)
  {
    SlopeAtDampedPosition(travelled, low, high, limit);
    CompareScaled(speed, RubberBandDerivative(travelled, low, high, limit),
                  RubberBandDerivative(RubberBand(travelled, low, high, limit), low, high, limit),
                  Visible(speed, travelled, low, high, limit), Carried(speed, travelled, low, high, limit));
  }

  /** What is seen of the finger's speed, by the slope of the band where the finger is. */
  function VisibleSpeed(reading: Reading, unitsPerStep: real, origin: real, low: int, high: int): real
    requires unitsPerStep > 0.0 && low <= high
  {
    Visible(reading.velocity / unitsPerStep, origin + reading.pos / unitsPerStep, low as real, high as real,
            OVERSCROLL_LIMIT)
  }

  lemma ReleaseCarries(reading: Reading, unitsPerStep: real, origin: real, low: int, high: int)
    requires unitsPerStep > 0.0 && low <= high
    ensures Release(reading, unitsPerStep, origin, low, high).velocity
         == Carried(reading.velocity / unitsPerStep, origin + reading.pos / unitsPerStep, low as real, high as real,
                    OVERSCROLL_LIMIT)
  {
  }

  /** A release carries the visible speed exactly when the finger is at rest or inside the range; past an end, where it
      takes the slope at the damped position, it carries more. */
  lemma ReleaseSpeedIsVisibleIff(reading: Reading, unitsPerStep: real, origin: real, low: int, high: int)
    requires unitsPerStep > 0.0 && low <= high
    ensures var carried := Release(reading, unitsPerStep, origin, low, high).velocity;
            var visible := VisibleSpeed(reading, unitsPerStep, origin, low, high);
            && Abs(carried) >= Abs(visible)
            && (carried == visible <==>
                  reading.velocity == 0.0 || low as real <= origin + reading.pos / unitsPerStep <= high as real)
  {
    var speed, travelled := reading.velocity / unitsPerStep, origin + reading.pos / unitsPerStep;
    ReleaseCarries(reading, unitsPerStep, origin, low, high);
    ZeroSpeed(reading.velocity, unitsPerStep);
    if low as real <= travelled <= high as real {
      InsideIsVisible(speed, travelled, low as real, high as real, OVERSCROLL_LIMIT);
    } else {
      OutsideIsFaster(speed, travelled, low as real, high as real, OVERSCROLL_LIMIT);
    }
  }

  lemma ZeroSpeed(velocity: real, unitsPerStep: real)
    requires unitsPerStep > 0.0
    ensures velocity / unitsPerStep == 0.0 <==> velocity == 0.0
  {
    assert velocity == velocity / unitsPerStep * unitsPerStep;
  }

  lemma CompareScaled(v: real, a: real, b: real, smaller: real, larger: real)
    requires 0.0 < a < b && smaller == v * a && larger == v * b
    ensures Abs(smaller) <= Abs(larger) && (larger == smaller <==> v == 0.0)
  {
    assert larger - smaller == v * (b - a);
    if v > 0.0 {
      ScaledPositive(v, b - a, larger - smaller);
      ScaledPositive(v, a, smaller);
    } else if v < 0.0 {
      ScaledPositive(-v, b - a, smaller - larger);
      ScaledPositive(-v, a, -smaller);
    }
  }
}
