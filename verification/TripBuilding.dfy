/** The sublight approach after drop-out, and the builder that totals a trip's jumps and approaches. */
module TripBuilding {
  import opened Options
  import opened TravelTime

  // ----- One approach -----

  /** Speed up to a peak, hold it, slow down to rest. */
  datatype Flight = Flight(peakSpeed: real, accelSeconds: real, cruiseSeconds: real, decelSeconds: real) {
    function Seconds(): real {
      accelSeconds + cruiseSeconds + decelSeconds
    }

    /** The area under its speed: two triangles and the rectangle between them. */
    function Covered(): real {
      0.5 * (peakSpeed * accelSeconds) + peakSpeed * cruiseSeconds + 0.5 * (peakSpeed * decelSeconds)
    }
  }

  /** The speed curve: full thrust reaches maxSpeed in zeroToMax seconds, full retro stops from it in maxToZero. */
  datatype Curve = Curve(maxSpeed: real, zeroToMax: real, maxToZero: real) {
    predicate Valid() {
      maxSpeed > 0.0 && zeroToMax > 0.0 && maxToZero > 0.0
    }
  }

  function Squared(distanceM: real, c: Curve): real
    requires c.Valid()
  {
    2.0 * distanceM / (1.0 / (c.maxSpeed / c.zeroToMax) + 1.0 / (c.maxSpeed / c.maxToZero))
  }

  function AccelM(c: Curve): real {
    0.5 * c.maxSpeed * c.zeroToMax
  }

  function DecelM(c: Curve): real {
    0.5 * c.maxSpeed * c.maxToZero
  }

  function PeakFlight(peak: real, c: Curve): Flight
    requires c.Valid()
  {
    Flight(peak, peak / (c.maxSpeed / c.zeroToMax), 0.0, peak / (c.maxSpeed / c.maxToZero))
  }

  function FlightOver(distanceM: real, c: Curve, sqrt: real -> real): Flight
    requires c.Valid()
  {
    if distanceM >= AccelM(c) + DecelM(c) then
      Flight(c.maxSpeed, c.zeroToMax, (distanceM - AccelM(c) - DecelM(c)) / c.maxSpeed, c.maxToZero)
    else
      PeakFlight(sqrt(Squared(distanceM, c)), c)
  }

  predicate HasCurve(ship: ShipSpeed) {
    Known(ship.maxSpeed) && Known(ship.zeroToMax) && Known(ship.maxToZero)
  }

  function CurveOf(ship: ShipSpeed): (c: Curve)
    requires Sound(ship) && HasCurve(ship)
    ensures c.Valid()
  {
    Curve(ship.maxSpeed.value, ship.zeroToMax.value, ship.maxToZero.value)
  }

  const HYDROGEN_USAGE_UNIT_SCU: real := 0.000001

  predicate BurnKnown(ship: ShipSpeed) {
    ship.hydrogenUsageMain.Some? && ship.hydrogenUsageRetro.Some?
  }

  /** Seconds and hydrogen, which is None when unknown. */
  function Approach(distanceM: real, ship: ShipSpeed, sqrt: real -> real): (real, Option<real>)
    requires Sound(ship)
  {
    if distanceM <= 0.0 then (0.0, Some(0.0))
    else if !HasCurve(ship) then (distanceM / ship.scmSpeed, None)
    else
      var f := FlightOver(distanceM, CurveOf(ship), sqrt);
      var burn :=
        if BurnKnown(ship) then
          Some((ship.hydrogenUsageMain.value * f.accelSeconds + ship.hydrogenUsageRetro.value * f.decelSeconds)
               * HYDROGEN_USAGE_UNIT_SCU)
        else None;
      (f.Seconds(), burn)
  }

  /** A flight the ship can fly: both ramps at the curve's rates, no faster than its top, holding only the top speed. */
  ghost predicate Flyable(f: Flight, c: Curve) {
    && 0.0 <= f.peakSpeed <= c.maxSpeed
    && f.accelSeconds * c.maxSpeed == f.peakSpeed * c.zeroToMax
    && f.decelSeconds * c.maxSpeed == f.peakSpeed * c.maxToZero
    && f.cruiseSeconds >= 0.0 && (f.cruiseSeconds > 0.0 ==> f.peakSpeed == c.maxSpeed)
  }

  /** 1/accel + 1/decel, multiplied out. */
  lemma SquaredMeans(distanceM: real, c: Curve)
    requires c.Valid()
    ensures Squared(distanceM, c) * (c.zeroToMax + c.maxToZero) == 2.0 * distanceM * c.maxSpeed
  {
    var v, a, d := c.maxSpeed, c.zeroToMax, c.maxToZero;
    Inverse(v, a);
    Inverse(v, d);
    var k := 1.0 / (v / a) + 1.0 / (v / d);
    assert k * v == a + d;
    PositiveFactor(k, v);
    TimesBack(2.0 * distanceM, k, Squared(distanceM, c));
    var q := Squared(distanceM, c);
    assert q * (a + d) == (k * q) * v;
  }

  lemma Inverse(v: real, a: real)
    requires v > 0.0 && a > 0.0
    ensures v / a > 0.0 && 1.0 / (v / a) * v == a
  {
    var r := v / a;
    assert r * a == v;
    assert 1.0 / r * (r * a) == a;
  }

  lemma PositiveFactor(k: real, v: real)
    requires k * v > 0.0 && v > 0.0
    ensures k > 0.0
  {
    if k <= 0.0 {
      MulNonneg(-k, v);
    }
  }

  lemma RampSeconds(peak: real, v: real, t: real)
    requires v > 0.0 && t > 0.0
    ensures v / t > 0.0 && peak / (v / t) * v == peak * t
  {
    var r := v / t;
    assert r * t == v;
    assert peak / r * (r * t) == peak * t;
  }

  lemma CruiseFlight(rest: real, c: Curve)
    requires c.Valid() && rest >= 0.0
    ensures var f := Flight(c.maxSpeed, c.zeroToMax, rest / c.maxSpeed, c.maxToZero);
            Flyable(f, c) && f.Covered() == AccelM(c) + rest + DecelM(c)
  {
    TimesBack(rest, c.maxSpeed, rest / c.maxSpeed);
    NonnegFactor(c.maxSpeed, rest / c.maxSpeed);
  }

  lemma PeakRamps(peak: real, c: Curve)
    requires c.Valid()
    ensures var f := PeakFlight(peak, c);
            f.accelSeconds * c.maxSpeed == peak * c.zeroToMax && f.decelSeconds * c.maxSpeed == peak * c.maxToZero
  {
    RampSeconds(peak, c.maxSpeed, c.zeroToMax);
    RampSeconds(peak, c.maxSpeed, c.maxToZero);
  }

  lemma TriangleFlight(distanceM: real, f: Flight, q: real, c: Curve)
    requires c.Valid() && 0.0 <= distanceM <= AccelM(c) + DecelM(c)
    requires f.peakSpeed >= 0.0 && f.peakSpeed * f.peakSpeed == q && f.cruiseSeconds == 0.0
    requires q * (c.zeroToMax + c.maxToZero) == 2.0 * distanceM * c.maxSpeed
    requires f.accelSeconds * c.maxSpeed == f.peakSpeed * c.zeroToMax
    requires f.decelSeconds * c.maxSpeed == f.peakSpeed * c.maxToZero
    ensures Flyable(f, c) && f.Covered() == distanceM
  {
    Triangle(distanceM, c.maxSpeed, c.zeroToMax, c.maxToZero, f.peakSpeed, q, f.accelSeconds, f.decelSeconds);
  }

  /** The approach covers exactly its distance and never exceeds the top speed. */
  lemma FlightIsExact(distanceM: real, c: Curve, sqrt: real -> real)
    requires c.Valid() && IsSqrt(sqrt) && distanceM >= 0.0
    ensures Flyable(FlightOver(distanceM, c, sqrt), c)
    ensures FlightOver(distanceM, c, sqrt).Covered() == distanceM
  {
    if distanceM >= AccelM(c) + DecelM(c) {
      CruiseFlight(distanceM - AccelM(c) - DecelM(c), c);
    } else {
      SquaredNonneg(distanceM, c);
      SquaredMeans(distanceM, c);
      PeakRamps(sqrt(Squared(distanceM, c)), c);
      TriangleFlight(distanceM, FlightOver(distanceM, c, sqrt), Squared(distanceM, c), c);
    }
  }

  // ----- A flight's speed, and its integral -----

  function FlightSpeedAt(t: real, f: Flight, c: Curve): real
    requires c.Valid()
  {
    if t <= f.accelSeconds then c.maxSpeed / c.zeroToMax * t
    else if t <= f.accelSeconds + f.cruiseSeconds then f.peakSpeed
    else c.maxSpeed / c.maxToZero * (f.Seconds() - t)
  }

  function FlightCoveredAt(t: real, f: Flight, c: Curve): real
    requires c.Valid()
  {
    if t <= f.accelSeconds then
      0.5 * (c.maxSpeed / c.zeroToMax) * (t * t)
    else if t <= f.accelSeconds + f.cruiseSeconds then
      0.5 * (f.peakSpeed * f.accelSeconds) + f.peakSpeed * (t - f.accelSeconds)
    else
      f.Covered() - 0.5 * (c.maxSpeed / c.maxToZero) * ((f.Seconds() - t) * (f.Seconds() - t))
  }

  ghost predicate FlightSpeedWithin(s: real, t: real, f: Flight, c: Curve, low: real, high: real)
    requires c.Valid()
  {
    forall u :: s <= u <= t ==> low <= FlightSpeedAt(u, f, c) <= high
  }

  /** A ramp at rate v / a takes the peak's share of a. */
  lemma RampRate(v: real, a: real, peak: real, seconds: real)
    requires v > 0.0 && a > 0.0 && peak >= 0.0 && seconds * v == peak * a
    ensures v / a > 0.0 && v / a * seconds == peak && seconds >= 0.0
    ensures v / a * (seconds * seconds) == peak * seconds
  {
    var rate := v / a;
    assert rate * a == v;
    assert rate * seconds * a == peak * a;
    SameFactor(a, rate * seconds, peak);
    MulNonneg(peak, a);
    NonnegFactor(v, seconds);
    assert rate * (seconds * seconds) == rate * seconds * seconds;
  }

  lemma FlightRamps(f: Flight, c: Curve)
    requires c.Valid() && Flyable(f, c)
    ensures var up, down := c.maxSpeed / c.zeroToMax, c.maxSpeed / c.maxToZero;
            && up > 0.0 && up * f.accelSeconds == f.peakSpeed && f.accelSeconds >= 0.0
            && up * (f.accelSeconds * f.accelSeconds) == f.peakSpeed * f.accelSeconds
            && down > 0.0 && down * f.decelSeconds == f.peakSpeed && f.decelSeconds >= 0.0
            && down * (f.decelSeconds * f.decelSeconds) == f.peakSpeed * f.decelSeconds
  {
    RampRate(c.maxSpeed, c.zeroToMax, f.peakSpeed, f.accelSeconds);
    RampRate(c.maxSpeed, c.maxToZero, f.peakSpeed, f.decelSeconds);
  }

  lemma FlightSpeedsUp(s: real, t: real, f: Flight, c: Curve, low: real, high: real)
    requires c.Valid() && Flyable(f, c) && 0.0 <= s <= t <= f.accelSeconds && FlightSpeedWithin(s, t, f, c, low, high)
    ensures Between(t - s, low, high, FlightCoveredAt(t, f, c) - FlightCoveredAt(s, f, c))
  {
    FlightRamps(f, c);
    assert low <= FlightSpeedAt(s, f, c) && FlightSpeedAt(t, f, c) <= high;
    ConstantAccel(0.0, c.maxSpeed / c.zeroToMax, 0.0, s, t, t - s, FlightSpeedAt(s, f, c), FlightSpeedAt(t, f, c),
                  FlightCoveredAt(s, f, c), FlightCoveredAt(t, f, c));
    Widen(t - s, low, FlightSpeedAt(s, f, c), FlightSpeedAt(t, f, c), high, FlightCoveredAt(t, f, c) - FlightCoveredAt(s, f, c));
  }

  /** The cruise's formulas hold from its very start. */
  lemma InFlightCruise(t: real, f: Flight, c: Curve)
    requires c.Valid() && Flyable(f, c) && f.accelSeconds <= t <= f.accelSeconds + f.cruiseSeconds
    ensures FlightSpeedAt(t, f, c) == f.peakSpeed
    ensures FlightCoveredAt(t, f, c) == 0.5 * (f.peakSpeed * f.accelSeconds) + f.peakSpeed * (t - f.accelSeconds)
  {
    FlightRamps(f, c);
  }

  lemma FlightCruises(s: real, t: real, f: Flight, c: Curve, low: real, high: real)
    requires c.Valid() && Flyable(f, c) && FlightSpeedWithin(s, t, f, c, low, high)
    requires f.accelSeconds <= s <= t <= f.accelSeconds + f.cruiseSeconds
    ensures Between(t - s, low, high, FlightCoveredAt(t, f, c) - FlightCoveredAt(s, f, c))
  {
    InFlightCruise(s, f, c);
    InFlightCruise(t, f, c);
    assert low <= FlightSpeedAt(s, f, c) <= high;
    var d := FlightCoveredAt(t, f, c) - FlightCoveredAt(s, f, c);
    assert d == f.peakSpeed * (t - s);
    Widen(t - s, low, f.peakSpeed, f.peakSpeed, high, d);
  }

  /** And the braking's, with time running backwards from the end, from its start. */
  lemma InFlightBraking(t: real, f: Flight, c: Curve)
    requires c.Valid() && Flyable(f, c) && f.accelSeconds + f.cruiseSeconds <= t <= f.Seconds()
    ensures c.maxSpeed / c.maxToZero > 0.0
    ensures Moves(0.0, c.maxSpeed / c.maxToZero, 0.0, f.Seconds() - t, FlightSpeedAt(t, f, c), f.Covered() - FlightCoveredAt(t, f, c))
  {
    RampRate(c.maxSpeed, c.maxToZero, f.peakSpeed, f.decelSeconds);
    if t == f.accelSeconds + f.cruiseSeconds {
      InFlightCruise(t, f, c);
      assert f.Seconds() - t == f.decelSeconds;
      BrakingStarts(c.maxSpeed / c.maxToZero, f.decelSeconds, f.peakSpeed, f.Covered() - FlightCoveredAt(t, f, c));
    }
  }

  lemma BrakingStarts(rate: real, seconds: real, peak: real, left: real)
    requires rate * seconds == peak && rate * (seconds * seconds) == peak * seconds && left == 0.5 * (peak * seconds)
    ensures Moves(0.0, rate, 0.0, seconds, peak, left)
  {
    assert 0.5 * rate * (seconds * seconds) == 0.5 * (rate * (seconds * seconds));
  }

  lemma FlightBrakes(s: real, t: real, f: Flight, c: Curve, low: real, high: real)
    requires c.Valid() && Flyable(f, c) && FlightSpeedWithin(s, t, f, c, low, high)
    requires f.accelSeconds + f.cruiseSeconds <= s <= t <= f.Seconds()
    ensures Between(t - s, low, high, FlightCoveredAt(t, f, c) - FlightCoveredAt(s, f, c))
  {
    InFlightBraking(s, f, c);
    InFlightBraking(t, f, c);
    var vs, vt, ds, dt := FlightSpeedAt(s, f, c), FlightSpeedAt(t, f, c), FlightCoveredAt(s, f, c), FlightCoveredAt(t, f, c);
    assert low <= vt && vs <= high;
    Braked(c.maxSpeed / c.maxToZero, f.Seconds(), s, t, vs, vt, f.Covered(), ds, dt);
    Widen(t - s, low, vt, vs, high, dt - ds);
  }

  lemma Braked(rate: real, end: real, s: real, t: real, vs: real, vt: real, whole: real, ds: real, dt: real)
    requires rate > 0.0 && s <= t <= end
    requires Moves(0.0, rate, 0.0, end - s, vs, whole - ds) && Moves(0.0, rate, 0.0, end - t, vt, whole - dt)
    ensures Between(t - s, vt, vs, dt - ds)
  {
    ConstantAccel(0.0, rate, 0.0, end - t, end - s, t - s, vt, vs, whole - dt, whole - ds);
  }

  lemma FlightFromCruise(s: real, t: real, f: Flight, c: Curve, low: real, high: real)
    requires c.Valid() && Flyable(f, c) && FlightSpeedWithin(s, t, f, c, low, high)
    requires f.accelSeconds <= s <= t <= f.Seconds()
    ensures Between(t - s, low, high, FlightCoveredAt(t, f, c) - FlightCoveredAt(s, f, c))
  {
    var brake := f.accelSeconds + f.cruiseSeconds;
    if t <= brake {
      FlightCruises(s, t, f, c, low, high);
    } else if brake <= s {
      FlightBrakes(s, t, f, c, low, high);
    } else {
      FlightCruises(s, brake, f, c, low, high);
      FlightBrakes(brake, t, f, c, low, high);
      Added(brake - s, t - brake, low, high, FlightCoveredAt(brake, f, c) - FlightCoveredAt(s, f, c),
            FlightCoveredAt(t, f, c) - FlightCoveredAt(brake, f, c));
    }
  }

  /** Between any two moments of a flight its distance is the integral of its speed. */
  lemma FlightIntegratesSpeed(s: real, t: real, f: Flight, c: Curve, low: real, high: real)
    requires c.Valid() && Flyable(f, c) && 0.0 <= s <= t <= f.Seconds() && FlightSpeedWithin(s, t, f, c, low, high)
    ensures Between(t - s, low, high, FlightCoveredAt(t, f, c) - FlightCoveredAt(s, f, c))
  {
    var peak := f.accelSeconds;
    if t <= peak {
      FlightSpeedsUp(s, t, f, c, low, high);
    } else if peak <= s {
      FlightFromCruise(s, t, f, c, low, high);
    } else {
      FlightSpeedsUp(s, peak, f, c, low, high);
      FlightFromCruise(peak, t, f, c, low, high);
      Added(peak - s, t - peak, low, high, FlightCoveredAt(peak, f, c) - FlightCoveredAt(s, f, c),
            FlightCoveredAt(t, f, c) - FlightCoveredAt(peak, f, c));
    }
  }

  /** It begins and ends at rest, and covers nothing at first and Covered at last. */
  lemma FlightEnds(f: Flight, c: Curve)
    requires c.Valid() && Flyable(f, c)
    ensures FlightSpeedAt(0.0, f, c) == 0.0 == FlightSpeedAt(f.Seconds(), f, c)
    ensures FlightCoveredAt(0.0, f, c) == 0.0 && FlightCoveredAt(f.Seconds(), f, c) == f.Covered()
  {
    RampRate(c.maxSpeed, c.zeroToMax, f.peakSpeed, f.accelSeconds);
    RampRate(c.maxSpeed, c.maxToZero, f.peakSpeed, f.decelSeconds);
    InFlightBraking(f.Seconds(), f, c);
    AtRest(c.maxSpeed / c.maxToZero, f.Seconds() - f.Seconds(), FlightSpeedAt(f.Seconds(), f, c), f.Covered() - FlightCoveredAt(f.Seconds(), f, c));
  }

  lemma AtRest(rate: real, none: real, speed: real, left: real)
    requires none == 0.0 && Moves(0.0, rate, 0.0, none, speed, left)
    ensures speed == 0.0 && left == 0.0
  {
  }

  // ----- The same on the ship's own data -----

  predicate CurveGiven(ship: ShipSpeed) {
    && ship.maxSpeed.Some? && ship.maxSpeed.value > 0.0
    && ship.zeroToMax.Some? && ship.zeroToMax.value > 0.0
    && ship.maxToZero.Some? && ship.maxToZero.value > 0.0
  }

  /** Full thrust up to a peak no faster than the ship's top speed, held only at the top, and full retro down to rest. */
  ghost predicate FliesApproach(f: Flight, ship: ShipSpeed)
    requires CurveGiven(ship)
  {
    && 0.0 <= f.peakSpeed <= ship.maxSpeed.value
    && f.accelSeconds * ship.maxSpeed.value == f.peakSpeed * ship.zeroToMax.value
    && f.decelSeconds * ship.maxSpeed.value == f.peakSpeed * ship.maxToZero.value
    && f.cruiseSeconds >= 0.0 && (f.cruiseSeconds > 0.0 ==> f.peakSpeed == ship.maxSpeed.value)
  }

  /** Main thrusters burn while speeding up and retro thrusters while slowing down, in millionths of an SCU a second. */
  ghost predicate Burns(f: Flight, burn: Option<real>, ship: ShipSpeed) {
    && (burn.Some? <==> ship.hydrogenUsageMain.Some? && ship.hydrogenUsageRetro.Some?)
    && (burn.Some? ==>
          1000000.0 * burn.value == f.accelSeconds * ship.hydrogenUsageMain.value + f.decelSeconds * ship.hydrogenUsageRetro.value)
  }

  ghost predicate ByFlight(f: Flight, distanceM: real, seconds: real, burn: Option<real>, ship: ShipSpeed)
    requires CurveGiven(ship)
  {
    FliesApproach(f, ship) && f.Covered() == distanceM && f.Seconds() == seconds && Burns(f, burn, ship)
  }

  /** The seconds and the burn of a flight the ship can fly over the distance; without its curve, SCM speed and a burn unknown. */
  ghost predicate ApproachFlown(distanceM: real, seconds: real, burn: Option<real>, ship: ShipSpeed) {
    if distanceM <= 0.0 then seconds == 0.0 && burn == Some(0.0)
    else if CurveGiven(ship) then exists f: Flight :: ByFlight(f, distanceM, seconds, burn, ship)
    else ship.scmSpeed * seconds == distanceM && burn == None
  }

  lemma ApproachIsExact(distanceM: real, ship: ShipSpeed, sqrt: real -> real)
    requires Sound(ship) && IsSqrt(sqrt)
    ensures ApproachFlown(distanceM, Approach(distanceM, ship, sqrt).0, Approach(distanceM, ship, sqrt).1, ship)
  {
    if distanceM > 0.0 && CurveGiven(ship) {
      var f := FlightOver(distanceM, CurveOf(ship), sqrt);
      FlightIsExact(distanceM, CurveOf(ship), sqrt);
      OnOwnCurve(f, ship);
      ApproachBurns(distanceM, ship, sqrt);
      assert ByFlight(f, distanceM, Approach(distanceM, ship, sqrt).0, Approach(distanceM, ship, sqrt).1, ship);
    }
  }

  lemma OnOwnCurve(f: Flight, ship: ShipSpeed)
    requires Sound(ship) && CurveGiven(ship) && HasCurve(ship) && Flyable(f, CurveOf(ship))
    ensures FliesApproach(f, ship)
  {
  }

  lemma ApproachBurns(distanceM: real, ship: ShipSpeed, sqrt: real -> real)
    requires Sound(ship) && CurveGiven(ship) && HasCurve(ship) && distanceM > 0.0
    ensures Burns(FlightOver(distanceM, CurveOf(ship), sqrt), Approach(distanceM, ship, sqrt).1, ship)
  {
  }

  /** An approach added to what a trip has taken and burnt so far. */
  ghost predicate ApproachAdded(distanceM: real, seconds: real, before: Option<real>, after: Option<real>, ship: ShipSpeed) {
    exists burn :: ApproachFlown(distanceM, seconds, burn, ship) && after == Plus(before, burn)
  }

  lemma NoApproach(burnt: Option<real>, ship: ShipSpeed)
    ensures ApproachAdded(0.0, 0.0, burnt, burnt, ship)
  {
    assert ApproachFlown(0.0, 0.0, Some(0.0), ship) && burnt == Plus(burnt, Some(0.0));
  }

  function Plus(a: Option<real>, b: Option<real>): Option<real> {
    if a.Some? && b.Some? then Some(a.value + b.value) else None
  }

  lemma SquaredNonneg(distanceM: real, c: Curve)
    requires c.Valid() && distanceM >= 0.0
    ensures Squared(distanceM, c) >= 0.0
  {
    SquaredMeans(distanceM, c);
    MulNonneg(2.0 * distanceM, c.maxSpeed);
    NonnegFactor(c.zeroToMax + c.maxToZero, Squared(distanceM, c));
  }

  lemma Triangle(distanceM: real, v: real, a: real, d: real, peak: real, q: real, ta: real, td: real)
    requires v > 0.0 && a > 0.0 && d > 0.0 && peak >= 0.0
    requires peak * peak == q && q * (a + d) == 2.0 * distanceM * v
    requires distanceM <= 0.5 * v * a + 0.5 * v * d
    requires ta * v == peak * a && td * v == peak * d
    ensures peak <= v
    ensures 0.5 * (peak * ta) + peak * 0.0 + 0.5 * (peak * td) == distanceM
  {
    assert peak * peak * (a + d) == peak * (peak * a + peak * d) == peak * (ta * v + td * v);
    assert peak * (ta * v + td * v) == v * (peak * ta + peak * td);
    SameFactor(v, peak * ta + peak * td, 2.0 * distanceM);
    MulLe(2.0 * distanceM, v * (a + d), v);
    assert (a + d) * (peak * peak) <= (a + d) * (v * v);
    OrderByFactor(a + d, peak * peak, v * v);
    SquareLe(peak, v);
  }

  /** At the distance where a cruise first appears, the peak just reaches the top speed: both branches fly the same. */
  lemma FlightSwitch(c: Curve, sqrt: real -> real)
    requires c.Valid() && IsSqrt(sqrt)
    ensures sqrt(Squared(AccelM(c) + DecelM(c), c)) == c.maxSpeed
  {
    SwitchSquared(c);
    MulNonneg(c.maxSpeed, c.maxSpeed);
    SameRoot(sqrt(Squared(AccelM(c) + DecelM(c), c)), c.maxSpeed);
  }

  lemma SwitchSquared(c: Curve)
    requires c.Valid()
    ensures Squared(AccelM(c) + DecelM(c), c) == c.maxSpeed * c.maxSpeed
  {
    var m := AccelM(c) + DecelM(c);
    SquaredMeans(m, c);
    SwitchProduct(c.maxSpeed, c.zeroToMax, c.maxToZero, m);
    SameFactor(c.zeroToMax + c.maxToZero, Squared(m, c), c.maxSpeed * c.maxSpeed);
  }

  lemma SwitchProduct(v: real, a: real, d: real, m: real)
    requires m == 0.5 * v * a + 0.5 * v * d
    ensures 2.0 * m * v == (a + d) * (v * v)
  {
  }

  lemma SameRoot(x: real, y: real)
    requires x >= 0.0 && y >= 0.0 && x * x == y * y
    ensures x == y
  {
    SquareLe(x, y);
    SquareLe(y, x);
  }

  // ----- The builder -----

  /** What a trip has added up to so far. */
  datatype Trip = Trip(qtSeconds: real, qtM: real, approachSeconds: real, approachM: real, hydrogenScu: Option<real>)

  const NO_TRIP := Trip(0.0, 0.0, 0.0, 0.0, Some(0.0))

  function NotNegative(x: real): real {
    if x > 0.0 then x else 0.0
  }

  function Jumped(t: Trip, distanceM: real, ship: ShipSpeed, sqrt: real -> real): Trip
    requires Sound(ship)
  {
    t.(qtSeconds := t.qtSeconds + QtCruiseSeconds(distanceM, ship, sqrt) + ship.quantumSpoolTime,
       qtM := t.qtM + NotNegative(distanceM))
  }

  function Approached(t: Trip, distanceM: real, ship: ShipSpeed, sqrt: real -> real): Trip
    requires Sound(ship)
  {
    var (seconds, burn) := Approach(distanceM, ship, sqrt);
    t.(approachSeconds := t.approachSeconds + seconds,
       approachM := t.approachM + NotNegative(distanceM),
       hydrogenScu := if burn.None? || t.hydrogenScu.None? then None else Some(t.hydrogenScu.value + burn.value))
  }

  /** A hop's length and the radius around its destination where quantum travel drops out, when known. */
  datatype Hop = Hop(distanceM: real, arrivalRadius: Option<real>)

  function Hopped(t: Trip, hop: Hop, ship: ShipSpeed, sqrt: real -> real): Trip
    requires Sound(ship)
  {
    if !Known(hop.arrivalRadius) then Jumped(t, hop.distanceM, ship, sqrt)
    else if hop.distanceM <= hop.arrivalRadius.value then Approached(t, hop.distanceM, ship, sqrt)
    else
      Approached(Jumped(t, hop.distanceM - hop.arrivalRadius.value, ship, sqrt), hop.arrivalRadius.value, ship, sqrt)
  }

  function AfterHops(t: Trip, hops: seq<Hop>, ship: ShipSpeed, sqrt: real -> real): Trip
    requires Sound(ship)
  {
    if hops == [] then t else Hopped(AfterHops(t, hops[..|hops| - 1], ship, sqrt), hops[|hops| - 1], ship, sqrt)
  }

  function TotalM(hops: seq<Hop>): real {
    if hops == [] then 0.0 else TotalM(hops[..|hops| - 1]) + NotNegative(hops[|hops| - 1].distanceM)
  }

  /** A negative radius makes the jump longer than the hop, and the approach does not take that back. */
  predicate Overshoots(hop: Hop) {
    hop.arrivalRadius.Some? && hop.arrivalRadius.value < 0.0 && hop.arrivalRadius.value < hop.distanceM
  }

  /** However a hop is split it adds its own length, exactly unless it overshoots, when it adds more. */
  lemma HopAddsItsLength(t: Trip, hop: Hop, ship: ShipSpeed, sqrt: real -> real)
    requires Sound(ship)
    ensures var t' := Hopped(t, hop, ship, sqrt);
            var added := t'.qtM + t'.approachM - (t.qtM + t.approachM);
            added >= NotNegative(hop.distanceM) && (added == NotNegative(hop.distanceM) <==> !Overshoots(hop))
  {
  }

  /** A hop of one metre with a radius of minus one adds two metres. */
  lemma NegativeRadiusAddsTooMuch(ship: ShipSpeed, sqrt: real -> real)
    requires Sound(ship)
    ensures var t := AfterHops(NO_TRIP, [Hop(1.0, Some(-1.0))], ship, sqrt); t.qtM + t.approachM == 2.0
  {
    var hops := [Hop(1.0, Some(-1.0))];
    assert hops[..|hops| - 1] == [];
    assert AfterHops(NO_TRIP, hops, ship, sqrt) == Hopped(NO_TRIP, hops[0], ship, sqrt);
  }

  /** The trip's distance is the sum of its hops, whichever way each one was split, exactly when none overshoots. */
  lemma {:induction false} TripDistance(hops: seq<Hop>, ship: ShipSpeed, sqrt: real -> real)
    requires Sound(ship)
    ensures var t := AfterHops(NO_TRIP, hops, ship, sqrt);
            && t.qtM + t.approachM >= TotalM(hops)
            && (t.qtM + t.approachM == TotalM(hops) <==> forall k :: 0 <= k < |hops| ==> !Overshoots(hops[k]))
  {
    if hops != [] {
      var before, last := hops[..|hops| - 1], hops[|hops| - 1];
      TripDistance(before, ship, sqrt);
      HopAddsItsLength(AfterHops(NO_TRIP, before, ship, sqrt), last, ship, sqrt);
      assert forall k :: 0 <= k < |before| ==> before[k] == hops[k];
      assert (forall k :: 0 <= k < |hops| ==> !Overshoots(hops[k]))
        <==> !Overshoots(last) && forall k :: 0 <= k < |before| ==> !Overshoots(before[k]);
    }
  }

  /** The hop flies a nonzero approach whose burn the ship data does not give. */
  predicate BurnsUnknown(hop: Hop, ship: ShipSpeed) {
    && Known(hop.arrivalRadius) && Least(hop.distanceM, hop.arrivalRadius.value) > 0.0
    && !(HasCurve(ship) && BurnKnown(ship))
  }

  /** One unknown burn makes the whole trip's hydrogen unknown, and nothing else does. */
  lemma {:induction false} HydrogenUnknown(hops: seq<Hop>, ship: ShipSpeed, sqrt: real -> real)
    requires Sound(ship)
    ensures AfterHops(NO_TRIP, hops, ship, sqrt).hydrogenScu.None? <==> exists k :: 0 <= k < |hops| && BurnsUnknown(hops[k], ship)
  {
    if hops != [] {
      var before, last := hops[..|hops| - 1], hops[|hops| - 1];
      HydrogenUnknown(before, ship, sqrt);
      var t := AfterHops(NO_TRIP, before, ship, sqrt);
      assert Hopped(t, last, ship, sqrt).hydrogenScu.None? <==> t.hydrogenScu.None? || BurnsUnknown(last, ship);
      if k :| 0 <= k < |hops| && BurnsUnknown(hops[k], ship) {
        assert k < |before| ==> BurnsUnknown(before[k], ship);
      }
      assert BurnsUnknown(last, ship) ==> BurnsUnknown(hops[|hops| - 1], ship);
      assert forall k :: 0 <= k < |before| ==> before[k] == hops[k];
    }
  }

  /** The time of a jump is the one in which the ship covers it. */
  lemma JumpCovers(distanceM: real, ship: ShipSpeed, sqrt: real -> real)
    requires Sound(ship) && IsSqrt(sqrt)
    ensures DistanceIn(QtCruiseSeconds(distanceM, ship, sqrt), ship) == NotNegative(distanceM)
  {
    DistanceInverts(NotNegative(distanceM), ship, sqrt);
  }

  /** The hop lies within its arrival radius. */
  predicate Within(hop: Hop) {
    hop.arrivalRadius.Some? && hop.arrivalRadius.value != 0.0 && hop.distanceM <= hop.arrivalRadius.value
  }

  /** How much of the hop is flown as an approach. */
  function Sublight(hop: Hop): real {
    if hop.arrivalRadius.None? || hop.arrivalRadius.value <= 0.0 || hop.distanceM <= 0.0 then 0.0
    else if hop.distanceM < hop.arrivalRadius.value then hop.distanceM
    else hop.arrivalRadius.value
  }

  datatype TripEstimate = TripEstimate(
    seconds: real, qtSeconds: real, approachSeconds: real,
    distanceM: real, qtDistanceM: real, approachDistanceM: real,
    qtFuelScu: Option<real>, qtFuelPct: Option<real>, hydrogenScu: Option<real>, hydrogenPct: Option<real>
  )

  class TripBuilder {
    const ship: ShipSpeed
    const sqrt: real -> real
    var qtSeconds: real
    var qtM: real
    var approachSeconds: real
    var approachM: real
    var hydrogenScu: Option<real>

    ghost function State(): Trip
      reads this
    {
      Trip(qtSeconds, qtM, approachSeconds, approachM, hydrogenScu)
    }

    constructor (ship: ShipSpeed, sqrt: real -> real)
      ensures State() == NO_TRIP && this.ship == ship && this.sqrt == sqrt
    {
      this.ship, this.sqrt := ship, sqrt;
      qtSeconds, qtM, approachSeconds, approachM, hydrogenScu := 0.0, 0.0, 0.0, 0.0, Some(0.0);
    }

    /** Adds the jump's length, and besides the spool just the time in which the ship covers it. */
    method AddJump(distanceM: real)
      requires Sound(ship)
      modifies this
      ensures State() == Jumped(old(State()), distanceM, ship, sqrt)
      ensures qtM - old(qtM) == NotNegative(distanceM)
      ensures IsSqrt(sqrt) ==> DistanceIn(qtSeconds - old(qtSeconds) - ship.quantumSpoolTime, ship) == qtM - old(qtM)
    {
      if IsSqrt(sqrt) {
        JumpCovers(distanceM, ship, sqrt);
      }
      qtSeconds := qtSeconds + (QtCruiseSeconds(distanceM, ship, sqrt) + ship.quantumSpoolTime);
      qtM := qtM + NotNegative(distanceM);
    }

    /**
     * Adds the approach's length, and the time and the burn of a flight that covers it. The hydrogen
     * stays known exactly while every burn is.
     */
    method AddApproach(distanceM: real)
      requires Sound(ship)
      modifies this
      ensures State() == Approached(old(State()), distanceM, ship, sqrt)
      ensures approachM - old(approachM) == NotNegative(distanceM)
      ensures IsSqrt(sqrt) ==>
                ApproachAdded(distanceM, approachSeconds - old(approachSeconds), old(hydrogenScu), hydrogenScu, ship)
    {
      var (seconds, burn) := Approach(distanceM, ship, sqrt);
      if IsSqrt(sqrt) {
        ApproachIsExact(distanceM, ship, sqrt);
        assert ApproachAdded(distanceM, seconds, hydrogenScu, Plus(hydrogenScu, burn), ship);
      }
      approachSeconds := approachSeconds + seconds;
      approachM := approachM + NotNegative(distanceM);
      if burn.None? || hydrogenScu.None? {
        hydrogenScu := None;
      } else {
        hydrogenScu := Some(hydrogenScu.value + burn.value);
      }
    }

    /**
     * Adds the hop's own length, however it is split, exactly unless it overshoots. A hop that lies
     * within its arrival radius spools no jump; any other jumps as far as the radius, where it has one.
     */
    method AddHop(hop: Hop)
      requires Sound(ship)
      modifies this
      ensures State() == Hopped(old(State()), hop, ship, sqrt)
      ensures qtM + approachM == old(qtM) + old(approachM) + NotNegative(hop.distanceM) <==> !Overshoots(hop)
      ensures hydrogenScu.Some? <==> old(hydrogenScu).Some? && !BurnsUnknown(hop, ship)
      ensures approachM - old(approachM) == Sublight(hop)
      ensures Within(hop) ==> qtM == old(qtM) && qtSeconds == old(qtSeconds)
      ensures IsSqrt(sqrt) && !Within(hop) ==>
                DistanceIn(qtSeconds - old(qtSeconds) - ship.quantumSpoolTime, ship) == qtM - old(qtM)
      ensures IsSqrt(sqrt) ==>
                ApproachAdded(Sublight(hop), approachSeconds - old(approachSeconds), old(hydrogenScu), hydrogenScu, ship)
    {
      HopAddsItsLength(State(), hop, ship, sqrt);
      if !Known(hop.arrivalRadius) {
        AddJump(hop.distanceM);
        NoApproach(hydrogenScu, ship);
        return;
      }
      if hop.distanceM <= hop.arrivalRadius.value {
        AddApproach(hop.distanceM);
        return;
      }
      AddJump(hop.distanceM - hop.arrivalRadius.value);
      AddApproach(hop.arrivalRadius.value);
    }

    /** Fuel in proportion to the range flown; a percentage is the share of the tank. */
    method Build() returns (e: TripEstimate)
      ensures e.seconds == e.qtSeconds + e.approachSeconds && e.distanceM == e.qtDistanceM + e.approachDistanceM
      ensures Trip(e.qtSeconds, e.qtDistanceM, e.approachSeconds, e.approachDistanceM, e.hydrogenScu) == State()
      ensures e.qtFuelScu.Some? <==> Known(ship.quantumFuelCapacity) && Known(ship.quantumRange)
      ensures e.qtFuelPct.Some? <==> e.qtFuelScu.Some?
      ensures e.qtFuelScu.Some? ==>
                && e.qtFuelScu.value * ship.quantumRange.value == e.qtDistanceM * ship.quantumFuelCapacity.value
                && e.qtFuelPct.value * ship.quantumFuelCapacity.value == 100.0 * e.qtFuelScu.value
      ensures e.hydrogenPct.Some? <==> hydrogenScu.Some? && Known(ship.hydrogenCapacity)
      ensures e.hydrogenPct.Some? ==> e.hydrogenPct.value * ship.hydrogenCapacity.value == 100.0 * hydrogenScu.value
    {
      var qtFuelScu, qtFuelPct := None, None;
      if Known(ship.quantumFuelCapacity) && Known(ship.quantumRange) {
        var capacity := ship.quantumFuelCapacity.value;
        var fuel := qtM * capacity / ship.quantumRange.value;
        qtFuelScu := Some(fuel);
        qtFuelPct := Some(100.0 * fuel / capacity);
      }
      var hydrogenPct := None;
      if hydrogenScu.Some? && Known(ship.hydrogenCapacity) {
        hydrogenPct := Some(100.0 * hydrogenScu.value / ship.hydrogenCapacity.value);
      }
      e := TripEstimate(qtSeconds + approachSeconds, qtSeconds, approachSeconds, qtM + approachM, qtM, approachM,
                        qtFuelScu, qtFuelPct, hydrogenScu, hydrogenPct);
    }
  }
}
