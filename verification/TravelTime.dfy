/**
 * Quantum-travel and approach times over the reals. The square root is a parameter known only by
 * its defining property.
 */
module TravelTime {
  import opened Options

  ghost predicate IsSqrt(sqrt: real -> real) {
    forall x: real :: x >= 0.0 ==> sqrt(x) >= 0.0 && sqrt(x) * sqrt(x) == x
  }

  datatype ShipSpeed = ShipSpeed(
    scmSpeed: real, quantumSpeed: real, quantumSpoolTime: real,
    quantumFuelCapacity: Option<real>, quantumRange: Option<real>,
    maxSpeed: Option<real>, zeroToMax: Option<real>, maxToZero: Option<real>,
    hydrogenCapacity: Option<real>, hydrogenUsageMain: Option<real>, hydrogenUsageRetro: Option<real>,
    quantumEngageSpeed: Option<real>, quantumStageOneAccel: Option<real>, quantumStageTwoAccel: Option<real>
  )

  /** Python's truth of an optional number: known and not zero. */
  predicate Known(x: Option<real>) {
    x.Some? && x.value != 0.0
  }

  predicate NoneOrNonnegative(x: Option<real>) {
    x.Some? ==> x.value >= 0.0
  }

  /** Ship data is positive where it is known; a zero counts as unknown. */
  predicate Sound(ship: ShipSpeed) {
    && ship.quantumSpeed > 0.0 && ship.scmSpeed > 0.0
    && NoneOrNonnegative(ship.quantumEngageSpeed)
    && NoneOrNonnegative(ship.quantumStageOneAccel) && NoneOrNonnegative(ship.quantumStageTwoAccel)
    && NoneOrNonnegative(ship.maxSpeed) && NoneOrNonnegative(ship.zeroToMax) && NoneOrNonnegative(ship.maxToZero)
  }

  // ----- Quantum cruise -----

  /** The drive's two acceleration stages: a1 up to engage speed, then a2 on to top speed. */
  datatype Profile = Profile(a1: real, a2: real, engage: real, top: real) {
    predicate Valid() {
      a1 > 0.0 && a2 > 0.0 && 0.0 < engage <= top
    }

    function T1(): real
      requires Valid()
    {
      engage / a1
    }

    function T2(): real
      requires Valid()
    {
      (top - engage) / a2
    }

    function D1(): real
      requires Valid()
    {
      0.5 * a1 * (T1() * T1())
    }

    function D2(): real
      requires Valid()
    {
      (engage + top) / 2.0 * T2()
    }

    function Ramp(): real
      requires Valid()
    {
      T1() + T2()
    }

    function RampM(): real
      requires Valid()
    {
      D1() + D2()
    }
  }

  predicate HasStages(ship: ShipSpeed) {
    Known(ship.quantumStageOneAccel) && Known(ship.quantumStageTwoAccel) && Known(ship.quantumEngageSpeed)
  }

  function Least(a: real, b: real): real {
    if b < a then b else a
  }

  function ProfileOf(ship: ShipSpeed): (p: Profile)
    requires Sound(ship) && HasStages(ship)
    ensures p.Valid() && p.top == ship.quantumSpeed
  {
    Profile(ship.quantumStageOneAccel.value, ship.quantumStageTwoAccel.value,
            Least(ship.quantumEngageSpeed.value, ship.quantumSpeed), ship.quantumSpeed)
  }

  /** The speed-up half of a trip too short for top speed: the time that covers halfM. */
  function HalfSeconds(halfM: real, p: Profile, sqrt: real -> real): real
    requires p.Valid()
  {
    if halfM <= p.D1() then
      sqrt(2.0 * halfM / p.a1)
    else
      p.T1() + StageTwoSeconds(halfM - p.D1(), p, sqrt)
  }

  /** The time within stage two that covers its first r metres. */
  function StageTwoSeconds(r: real, p: Profile, sqrt: real -> real): real
    requires p.Valid()
  {
    (-p.engage + sqrt(Radicand(r, p))) / p.a2
  }

  function Radicand(r: real, p: Profile): real {
    p.engage * p.engage + 2.0 * p.a2 * r
  }

  function ProfileSeconds(distanceM: real, p: Profile, sqrt: real -> real): real
    requires p.Valid()
  {
    if distanceM >= 2.0 * p.RampM() then
      2.0 * p.Ramp() + (distanceM - 2.0 * p.RampM()) / p.top
    else
      2.0 * HalfSeconds(distanceM / 2.0, p, sqrt)
  }

  function QtCruiseSeconds(distanceM: real, ship: ShipSpeed, sqrt: real -> real): real
    requires Sound(ship)
  {
    if distanceM <= 0.0 then 0.0
    else if !HasStages(ship) then distanceM / ship.quantumSpeed
    else ProfileSeconds(distanceM, ProfileOf(ship), sqrt)
  }

  // ----- The motion the profile describes -----

  /** Speed after t seconds of speeding up and then cruising. */
  function SpeedAt(t: real, p: Profile): real
    requires p.Valid()
  {
    if t <= p.T1() then p.a1 * t
    else if t <= p.Ramp() then p.engage + p.a2 * (t - p.T1())
    else p.top
  }

  /** Distance covered by then. */
  function CoveredAt(t: real, p: Profile): real
    requires p.Valid()
  {
    if t <= p.T1() then 0.5 * p.a1 * (t * t)
    else if t <= p.Ramp() then p.D1() + p.engage * (t - p.T1()) + 0.5 * p.a2 * ((t - p.T1()) * (t - p.T1()))
    else p.RampM() + p.top * (t - p.Ramp())
  }

  /** A trip speeds up for its first half and mirrors it for the second. */
  function TripCovered(seconds: real, p: Profile): real
    requires p.Valid()
  {
    2.0 * CoveredAt(seconds / 2.0, p)
  }

  // ----- Arithmetic -----

  lemma MulLe(a: real, b: real, c: real)
    requires a <= b && c >= 0.0
    ensures a * c <= b * c
  {
  }

  lemma SquareLe(a: real, b: real)
    requires 0.0 <= b && a * a <= b * b
    ensures a <= b
  {
    if a > b {
      SquareLt(b, a);
    }
  }

  lemma SquareLt(a: real, b: real)
    requires 0.0 <= a < b
    ensures a * a < b * b
  {
    MulPositive(b - a, b + a);
    assert b * b - a * a == (b - a) * (b + a);
  }

  lemma MulLt(a: real, b: real, c: real)
    requires a > 0.0 && b < c
    ensures a * b < a * c
  {
    MulPositive(a, c - b);
    assert a * c == a * b + a * (c - b);
  }

  lemma MulNonneg(a: real, b: real)
    requires a >= 0.0 && b >= 0.0
    ensures a * b >= 0.0
  {
  }

  lemma MulPositive(a: real, b: real)
    requires a > 0.0 && b > 0.0
    ensures a * b > 0.0
  {
  }

  // ----- The profile's pieces -----

  lemma StageOneMeets(p: Profile)
    requires p.Valid()
    ensures p.T1() > 0.0 && p.a1 * p.T1() == p.engage && p.D1() > 0.0
  {
    MulPositive(p.T1(), p.T1());
    MulPositive(p.a1, p.T1() * p.T1());
  }

  lemma StageTwoMeets(p: Profile)
    requires p.Valid()
    ensures p.T2() >= 0.0 && p.a2 * p.T2() == p.top - p.engage
  {
  }

  lemma StageTwoDistance(p: Profile)
    requires p.Valid()
    ensures p.D2() == p.engage * p.T2() + 0.5 * p.a2 * (p.T2() * p.T2()) >= 0.0
  {
    StageTwoMeets(p);
    Trapezoid(p.engage, p.top, p.a2, p.T2(), p.D2());
  }

  lemma Trapezoid(e: real, v: real, a: real, t: real, d: real)
    requires 0.0 <= e <= v && t >= 0.0 && a * t == v - e && d == (e + v) / 2.0 * t
    ensures d == e * t + 0.5 * a * (t * t) >= 0.0
  {
    assert a * (t * t) == (a * t) * t == (v - e) * t;
    assert (e + v) / 2.0 * t == e * t + (v - e) * t / 2.0;
    MulNonneg(e, t);
    MulNonneg(v - e, t);
  }

  /** After x seconds at acceleration a, from speed v and distance d, the speed is vx and the distance dx. */
  predicate Moves(v: real, a: real, d: real, x: real, vx: real, dx: real) {
    vx == v + a * x && dx == d + v * x + 0.5 * a * (x * x)
  }

  /** Over part of a stage at constant acceleration a, the distance lies between the end speeds' rectangles. */
  lemma ConstantAccel(v: real, a: real, d: real, x: real, y: real, w: real, vx: real, vy: real, dx: real, dy: real)
    requires a >= 0.0 && 0.0 <= x <= y && w == y - x
    requires Moves(v, a, d, x, vx, dx) && Moves(v, a, d, y, vy, dy)
    ensures Between(w, vx, vy, dy - dx)
  {
    assert y == x + w;
    assert y * y == x * x + 2.0 * (x * w) + w * w;
    assert a * (y * y) == a * (x * x) + 2.0 * (a * (x * w)) + a * (w * w);
    assert v * y == v * x + v * w;
    assert dy - dx == v * w + a * (x * w) + 0.5 * (a * (w * w));
    assert vx * w == v * w + a * (x * w);
    assert vy * w == v * w + a * (x * w) + a * (w * w);
    MulNonneg(w, w);
    MulNonneg(a, w * w);
  }

  lemma SpeedUpTo(t: real, p: Profile)
    requires p.Valid() && t >= 0.0
    ensures 0.0 <= SpeedAt(t, p) <= p.top
    ensures t > 0.0 ==> SpeedAt(t, p) > 0.0
    ensures t <= p.T1() ==> SpeedAt(t, p) <= p.engage
    ensures t > p.T1() ==> SpeedAt(t, p) >= p.engage
  {
    StageOneMeets(p);
    StageTwoMeets(p);
    if t <= p.T1() {
      MulLe(t, p.T1(), p.a1);
      MulNonneg(t, p.a1);
      if t > 0.0 {
        MulPositive(p.a1, t);
      }
    } else if t <= p.Ramp() {
      MulNonneg(t - p.T1(), p.a2);
      MulLe(t - p.T1(), p.T2(), p.a2);
    }
  }

  lemma SpeedNeverDrops(t: real, u: real, p: Profile)
    requires p.Valid() && 0.0 <= t <= u
    ensures 0.0 <= SpeedAt(t, p) <= SpeedAt(u, p) <= p.top
    ensures t > 0.0 ==> SpeedAt(t, p) > 0.0
  {
    SpeedUpTo(t, p);
    SpeedUpTo(u, p);
    if u <= p.T1() {
      FasterInStageOne(t, u, p);
    } else if t <= p.T1() {
      assert SpeedAt(t, p) <= p.engage <= SpeedAt(u, p);
    } else if u <= p.Ramp() {
      FasterInStageTwo(t, u, p);
    } else {
      assert SpeedAt(u, p) == p.top;
    }
  }

  lemma FasterInStageOne(t: real, u: real, p: Profile)
    requires p.Valid() && 0.0 <= t <= u <= p.T1()
    ensures SpeedAt(t, p) <= SpeedAt(u, p)
  {
    Faster(p.a1, t, u);
  }

  lemma FasterInStageTwo(t: real, u: real, p: Profile)
    requires p.Valid() && p.T1() < t <= u <= p.Ramp()
    ensures SpeedAt(t, p) <= SpeedAt(u, p)
  {
    Faster(p.a2, t - p.T1(), u - p.T1());
  }

  lemma Faster(a: real, x: real, y: real)
    requires a >= 0.0 && x <= y
    ensures a * x <= a * y
  {
    MulLe(x, y, a);
  }

  /** The distance covered from s to t lies between the rectangles of the two speeds: it is the speed's integral. */
  ghost predicate Integrates(s: real, t: real, p: Profile)
    requires p.Valid()
  {
    Between(t - s, SpeedAt(s, p), SpeedAt(t, p), CoveredAt(t, p) - CoveredAt(s, p))
  }

  predicate Between(w: real, low: real, high: real, d: real) {
    low * w <= d <= high * w
  }

  lemma StageOne(s: real, t: real, p: Profile)
    requires p.Valid() && 0.0 <= s <= t <= p.T1()
    ensures Integrates(s, t, p)
  {
    ConstantAccel(0.0, p.a1, 0.0, s, t, t - s, SpeedAt(s, p), SpeedAt(t, p), CoveredAt(s, p), CoveredAt(t, p));
  }

  /** The second stage's formulas hold from its very start. */
  lemma InStageTwo(t: real, p: Profile)
    requires p.Valid() && p.T1() <= t <= p.Ramp()
    ensures Moves(p.engage, p.a2, p.D1(), t - p.T1(), SpeedAt(t, p), CoveredAt(t, p))
  {
    StageOneMeets(p);
    if t == p.T1() {
      var none := t - p.T1();
      assert p.a2 * none == 0.0 && p.engage * none == 0.0 && none * none == 0.0;
    }
  }

  lemma StageTwo(s: real, t: real, p: Profile)
    requires p.Valid() && p.T1() <= s <= t <= p.Ramp()
    ensures Integrates(s, t, p)
  {
    InStageTwo(s, p);
    InStageTwo(t, p);
    ConstantAccel(p.engage, p.a2, p.D1(), s - p.T1(), t - p.T1(), t - s,
                  SpeedAt(s, p), SpeedAt(t, p), CoveredAt(s, p), CoveredAt(t, p));
  }

  /** And the cruise's from its start. */
  lemma InCruise(t: real, p: Profile)
    requires p.Valid() && p.Ramp() <= t
    ensures SpeedAt(t, p) == p.top
    ensures CoveredAt(t, p) == p.RampM() + p.top * (t - p.Ramp())
  {
    StageTwoMeets(p);
    if t == p.Ramp() {
      InStageTwo(t, p);
      StageTwoDistance(p);
      assert t - p.T1() == p.T2();
      assert p.top * (t - p.Ramp()) == 0.0;
    }
  }

  lemma Cruise(s: real, t: real, p: Profile)
    requires p.Valid() && p.Ramp() <= s <= t
    ensures Integrates(s, t, p)
  {
    InCruise(s, p);
    InCruise(t, p);
    ConstantAccel(p.top, 0.0, p.RampM(), s - p.Ramp(), t - p.Ramp(), t - s,
                  SpeedAt(s, p), SpeedAt(t, p), CoveredAt(s, p), CoveredAt(t, p));
  }

  lemma Joined(s: real, m: real, t: real, p: Profile)
    requires p.Valid() && 0.0 <= s <= m <= t
    ensures Integrates(s, m, p) && Integrates(m, t, p) ==> Integrates(s, t, p)
  {
    if Integrates(s, m, p) && Integrates(m, t, p) {
      SpeedNeverDrops(s, m, p);
      SpeedNeverDrops(m, t, p);
      Rectangles(SpeedAt(s, p), SpeedAt(m, p), SpeedAt(t, p), m - s, t - m, t - s,
                 CoveredAt(m, p) - CoveredAt(s, p), CoveredAt(t, p) - CoveredAt(m, p), CoveredAt(t, p) - CoveredAt(s, p));
    }
  }

  lemma Rectangles(a: real, b: real, c: real, x: real, y: real, z: real, d: real, e: real, f: real)
    requires a <= b <= c && x >= 0.0 && y >= 0.0 && z == x + y && f == d + e
    requires Between(x, a, b, d) && Between(y, b, c, e)
    ensures Between(z, a, c, f)
  {
    MulLe(a, b, y);
    MulLe(b, c, x);
    assert a * z == a * x + a * y;
    assert c * z == c * x + c * y;
  }

  /** CoveredAt is the integral of SpeedAt over the whole motion. */
  lemma CoveredIntegratesSpeed(s: real, t: real, p: Profile)
    requires p.Valid() && 0.0 <= s <= t
    ensures Integrates(s, t, p)
  {
    StageOneMeets(p);
    StageTwoMeets(p);
    var t1, ramp := p.T1(), p.Ramp();
    if t <= t1 {
      StageOne(s, t, p);
    } else if s >= ramp {
      Cruise(s, t, p);
    } else if t <= ramp {
      if s >= t1 {
        StageTwo(s, t, p);
      } else {
        StageOne(s, t1, p);
        StageTwo(t1, t, p);
        Joined(s, t1, t, p);
      }
    } else {
      Cruise(ramp, t, p);
      if s >= t1 {
        StageTwo(s, ramp, p);
      } else {
        StageOne(s, t1, p);
        StageTwo(t1, ramp, p);
        Joined(s, t1, ramp, p);
      }
      Joined(s, ramp, t, p);
    }
  }

  // ----- The whole trip, slowing down included -----

  /** Speed t seconds into a trip: up and along for the first half, the mirror image for the second. */
  function TripSpeedAt(t: real, seconds: real, p: Profile): real
    requires p.Valid()
  {
    if t <= seconds / 2.0 then SpeedAt(t, p) else SpeedAt(seconds - t, p)
  }

  function TripCoveredAt(t: real, seconds: real, p: Profile): real
    requires p.Valid()
  {
    if t <= seconds / 2.0 then CoveredAt(t, p) else TripCovered(seconds, p) - CoveredAt(seconds - t, p)
  }

  ghost predicate TripSpeedWithin(s: real, t: real, seconds: real, p: Profile, low: real, high: real)
    requires p.Valid()
  {
    forall u :: s <= u <= t ==> low <= TripSpeedAt(u, seconds, p) <= high
  }

  /** The trip starts and ends at rest, never exceeds the top speed, and covers nothing at first and TripCovered at last. */
  lemma TripEnds(t: real, seconds: real, p: Profile)
    requires p.Valid() && 0.0 <= t <= seconds
    ensures TripSpeedAt(0.0, seconds, p) == 0.0 == TripSpeedAt(seconds, seconds, p)
    ensures 0.0 <= TripSpeedAt(t, seconds, p) <= p.top
    ensures TripCoveredAt(0.0, seconds, p) == 0.0 && TripCoveredAt(seconds, seconds, p) == TripCovered(seconds, p)
  {
    AtStart(p);
    SpeedUpTo(0.0, p);
    SpeedUpTo(if t <= seconds / 2.0 then t else seconds - t, p);
    StageOneMeets(p);
  }

  /** Between any two moments of the trip the distance is the integral of the speed: within w times any bounds on it. */
  lemma TripIntegratesSpeed(s: real, t: real, seconds: real, p: Profile, low: real, high: real)
    requires p.Valid() && 0.0 <= s <= t <= seconds && TripSpeedWithin(s, t, seconds, p, low, high)
    ensures Between(t - s, low, high, TripCoveredAt(t, seconds, p) - TripCoveredAt(s, seconds, p))
  {
    var half := seconds / 2.0;
    if t <= half {
      FirstHalf(s, t, seconds, p, low, high);
    } else if half <= s {
      SecondHalf(s, t, seconds, p, low, high);
    } else {
      FirstHalf(s, half, seconds, p, low, high);
      SecondHalf(half, t, seconds, p, low, high);
      Added(half - s, t - half, low, high, TripCoveredAt(half, seconds, p) - TripCoveredAt(s, seconds, p),
            TripCoveredAt(t, seconds, p) - TripCoveredAt(half, seconds, p));
    }
  }

  lemma FirstHalf(s: real, t: real, seconds: real, p: Profile, low: real, high: real)
    requires p.Valid() && 0.0 <= s <= t <= seconds / 2.0 && TripSpeedWithin(s, t, seconds, p, low, high)
    ensures Between(t - s, low, high, TripCoveredAt(t, seconds, p) - TripCoveredAt(s, seconds, p))
  {
    CoveredIntegratesSpeed(s, t, p);
    assert low <= TripSpeedAt(s, seconds, p) && TripSpeedAt(t, seconds, p) <= high;
    Widen(t - s, low, SpeedAt(s, p), SpeedAt(t, p), high, CoveredAt(t, p) - CoveredAt(s, p));
  }

  lemma SecondHalf(s: real, t: real, seconds: real, p: Profile, low: real, high: real)
    requires p.Valid() && 0.0 <= seconds / 2.0 <= s <= t <= seconds && TripSpeedWithin(s, t, seconds, p, low, high)
    ensures Between(t - s, low, high, TripCoveredAt(t, seconds, p) - TripCoveredAt(s, seconds, p))
  {
    var from, to := seconds - t, seconds - s;
    CoveredIntegratesSpeed(from, to, p);
    assert TripSpeedAt(s, seconds, p) == SpeedAt(to, p) && TripSpeedAt(t, seconds, p) == SpeedAt(from, p);
    assert to - from == t - s;
    Widen(t - s, low, SpeedAt(from, p), SpeedAt(to, p), high, CoveredAt(to, p) - CoveredAt(from, p));
  }

  lemma Widen(w: real, low: real, from: real, to: real, high: real, d: real)
    requires w >= 0.0 && low <= from && to <= high && Between(w, from, to, d)
    ensures Between(w, low, high, d)
  {
    MulLe(low, from, w);
    MulLe(to, high, w);
  }

  lemma Added(x: real, y: real, low: real, high: real, d: real, e: real)
    requires Between(x, low, high, d) && Between(y, low, high, e)
    ensures Between(x + y, low, high, d + e)
  {
    assert low * (x + y) == low * x + low * y && high * (x + y) == high * x + high * y;
  }

  // ----- How far, and how long -----

  lemma CoveredIncreases(s: real, t: real, p: Profile)
    requires p.Valid() && 0.0 <= s < t
    ensures CoveredAt(s, p) < CoveredAt(t, p)
  {
    var m := (s + t) / 2.0;
    CoveredGrows(s, m, p);
    CoveredGrows(m, t, p);
  }

  lemma CoveredGrows(s: real, t: real, p: Profile)
    requires p.Valid() && 0.0 <= s < t
    ensures CoveredAt(s, p) <= CoveredAt(t, p)
    ensures s > 0.0 ==> CoveredAt(s, p) < CoveredAt(t, p)
  {
    CoveredIntegratesSpeed(s, t, p);
    SpeedNeverDrops(s, t, p);
    PositiveRectangle(t - s, SpeedAt(s, p), SpeedAt(t, p), CoveredAt(t, p) - CoveredAt(s, p));
  }

  lemma PositiveRectangle(w: real, low: real, high: real, d: real)
    requires Between(w, low, high, d) && low >= 0.0 && w > 0.0
    ensures d >= 0.0
    ensures low > 0.0 ==> d > 0.0
  {
    MulNonneg(low, w);
    if low > 0.0 {
      MulPositive(low, w);
    }
  }

  // ----- The returned time covers exactly the distance -----

  lemma StageOneIsExact(halfM: real, p: Profile, sqrt: real -> real)
    requires p.Valid() && IsSqrt(sqrt) && 0.0 <= halfM <= p.D1()
    ensures var h := sqrt(2.0 * halfM / p.a1); 0.0 <= h <= p.T1() && 0.5 * p.a1 * (h * h) == halfM
  {
    StageOneMeets(p);
    var h := sqrt(2.0 * halfM / p.a1);
    SqrtScaled(halfM, p.a1, h);
    NotLonger(h, p.T1(), p.a1);
  }

  lemma SqrtScaled(halfM: real, a: real, h: real)
    requires a > 0.0 && halfM >= 0.0
    requires 2.0 * halfM / a >= 0.0 ==> h * h == 2.0 * halfM / a
    ensures 2.0 * halfM / a >= 0.0 && 0.5 * a * (h * h) == halfM
  {
  }

  lemma NotLonger(h: real, t: real, a: real)
    requires a > 0.0 && t >= 0.0 && 0.5 * a * (h * h) <= 0.5 * a * (t * t)
    ensures h <= t
  {
    if h > t {
      SquareLt(t, h);
      MulLt(0.5 * a, t * t, h * h);
    }
  }

  /** Solving the second stage for the time that covers r metres of it. */
  lemma StageTwoIsExact(r: real, p: Profile, sqrt: real -> real)
    requires p.Valid() && IsSqrt(sqrt) && 0.0 <= r <= p.D2()
    ensures var x := StageTwoSeconds(r, p, sqrt);
            0.0 <= x <= p.T2() && p.engage * x + 0.5 * p.a2 * (x * x) == r
  {
    StageTwoMeets(p);
    StageTwoDistance(p);
    MulNonneg(p.a2, r);
    MulNonneg(p.engage, p.engage);
    var x, w := StageTwoSeconds(r, p, sqrt), sqrt(Radicand(r, p));
    TimesBack(-p.engage + w, p.a2, x);
    SolveStage(p.engage, p.top, p.a2, p.T2(), p.D2(), r, w, x);
  }

  lemma SolveStage(e: real, v: real, a: real, t: real, d: real, r: real, w: real, x: real)
    requires a > 0.0 && 0.0 < e <= v && t >= 0.0 && a * t == v - e
    requires d == e * t + 0.5 * a * (t * t) && 0.0 <= r <= d
    requires w >= 0.0 && w * w == e * e + 2.0 * a * r && a * x == -e + w
    ensures 0.0 <= x <= t && e * x + 0.5 * a * (x * x) == r
  {
    MulNonneg(a, r);
    SquareLe(e, w);
    SolveQuadratic(e, a, w, x, r);
    TopSquared(e, v, a, t, d);
    MulLe(r, d, a);
    SquareLe(w, v);
    OrderByFactor(a, 0.0, x);
    OrderByFactor(a, x, t);
  }

  lemma TimesBack(n: real, a: real, x: real)
    requires a > 0.0 && x == n / a
    ensures a * x == n
  {
  }

  lemma OrderByFactor(a: real, x: real, y: real)
    requires a > 0.0 && a * x <= a * y
    ensures x <= y
  {
    if x > y {
      MulLt(a, y, x);
    }
  }

  lemma SolveQuadratic(e: real, a: real, w: real, x: real, r: real)
    requires a > 0.0 && w * w == e * e + 2.0 * a * r && a * x == w - e
    ensures e * x + 0.5 * a * (x * x) == r
  {
    assert a * (x * x) == (a * x) * x == (w - e) * x;
    assert e * x + 0.5 * ((w - e) * x) == 0.5 * ((w + e) * x);
    assert a * ((w + e) * x) == (w + e) * (a * x) == (w + e) * (w - e) == w * w - e * e;
    SameFactor(a, (w + e) * x, 2.0 * r);
  }

  lemma SameFactor(a: real, x: real, y: real)
    requires a > 0.0 && a * x == a * y
    ensures x == y
  {
  }

  lemma TopSquared(e: real, v: real, a: real, t: real, d: real)
    requires a * t == v - e && d == e * t + 0.5 * a * (t * t)
    ensures e * e + 2.0 * (a * d) == v * v
  {
    assert a * d == e * (a * t) + 0.5 * ((a * t) * (a * t));
    assert (v - e) * (v - e) == v * v - 2.0 * (e * v) + e * e;
  }

  lemma HalfIsExact(halfM: real, p: Profile, sqrt: real -> real)
    requires p.Valid() && IsSqrt(sqrt) && 0.0 <= halfM <= p.RampM()
    ensures 0.0 <= HalfSeconds(halfM, p, sqrt) <= p.Ramp()
    ensures CoveredAt(HalfSeconds(halfM, p, sqrt), p) == halfM
  {
    StageTwoMeets(p);
    if halfM <= p.D1() {
      StageOneIsExact(halfM, p, sqrt);
    } else {
      StageTwoHalf(halfM - p.D1(), p, sqrt);
    }
  }

  lemma StageTwoHalf(r: real, p: Profile, sqrt: real -> real)
    requires p.Valid() && IsSqrt(sqrt) && 0.0 <= r <= p.D2()
    ensures 0.0 <= p.T1() + StageTwoSeconds(r, p, sqrt) <= p.Ramp()
    ensures CoveredAt(p.T1() + StageTwoSeconds(r, p, sqrt), p) == p.D1() + r
  {
    StageTwoIsExact(r, p, sqrt);
    IntoStageTwo(StageTwoSeconds(r, p, sqrt), r, p);
  }

  lemma IntoStageTwo(x: real, r: real, p: Profile)
    requires p.Valid() && 0.0 <= x <= p.T2() && p.engage * x + 0.5 * p.a2 * (x * x) == r
    ensures 0.0 <= p.T1() + x <= p.Ramp() && CoveredAt(p.T1() + x, p) == p.D1() + r
  {
    StageOneMeets(p);
    InStageTwo(p.T1() + x, p);
    assert p.T1() + x - p.T1() == x;
  }

  /** Integrating the two-stage profile over the returned time covers exactly the distance. */
  lemma ProfileIsExact(distanceM: real, p: Profile, sqrt: real -> real)
    requires p.Valid() && IsSqrt(sqrt) && distanceM >= 0.0
    ensures ProfileSeconds(distanceM, p, sqrt) >= 0.0
    ensures TripCovered(ProfileSeconds(distanceM, p, sqrt), p) == distanceM
  {
    if distanceM >= 2.0 * p.RampM() {
      LongTripIsExact(distanceM - 2.0 * p.RampM(), p);
    } else {
      HalfIsExact(distanceM / 2.0, p, sqrt);
    }
  }

  lemma LongTripIsExact(m: real, p: Profile)
    requires p.Valid() && m >= 0.0
    ensures 2.0 * p.Ramp() + m / p.top >= 0.0
    ensures TripCovered(2.0 * p.Ramp() + m / p.top, p) == 2.0 * p.RampM() + m
  {
    StageOneMeets(p);
    StageTwoMeets(p);
    CruiseIsExact(m, p.top);
    var seconds := m / p.top;
    InCruise(p.Ramp() + seconds / 2.0, p);
  }

  lemma CruiseIsExact(m: real, top: real)
    requires m >= 0.0 && top > 0.0
    ensures m / top >= 0.0 && top * (m / top / 2.0) == m / 2.0
  {
  }

  // ----- What exactness gives -----

  /** No other time covers the distance. */
  lemma ProfileTimeIsUnique(seconds: real, distanceM: real, p: Profile, sqrt: real -> real)
    requires p.Valid() && IsSqrt(sqrt) && seconds >= 0.0 && TripCovered(seconds, p) == distanceM && distanceM >= 0.0
    ensures seconds == ProfileSeconds(distanceM, p, sqrt)
  {
    ProfileIsExact(distanceM, p, sqrt);
    var s := ProfileSeconds(distanceM, p, sqrt);
    if seconds < s {
      CoveredIncreases(seconds / 2.0, s / 2.0, p);
    } else if s < seconds {
      CoveredIncreases(s / 2.0, seconds / 2.0, p);
    }
  }

  lemma TripNotFasterThanTop(seconds: real, distanceM: real, p: Profile)
    requires p.Valid() && seconds >= 0.0 && TripCovered(seconds, p) == distanceM
    ensures p.top * seconds >= distanceM
  {
    NotFasterThanTop(seconds / 2.0, p);
    assert p.top * seconds == 2.0 * (p.top * (seconds / 2.0));
  }

  lemma NotFasterThanTop(t: real, p: Profile)
    requires p.Valid() && t >= 0.0
    ensures CoveredAt(t, p) <= p.top * t
  {
    CoveredIntegratesSpeed(0.0, t, p);
    SpeedNeverDrops(0.0, t, p);
    AtStart(p);
    UnderTop(t, SpeedAt(0.0, p), SpeedAt(t, p), p.top, CoveredAt(t, p) - CoveredAt(0.0, p));
  }

  lemma AtStart(p: Profile)
    requires p.Valid()
    ensures CoveredAt(0.0, p) == 0.0
  {
    StageOneMeets(p);
  }

  lemma UnderTop(w: real, low: real, high: real, top: real, d: real)
    requires Between(w, low, high, d) && high <= top && w >= 0.0
    ensures d <= top * w
  {
    MulLe(high, top, w);
  }

  /** The cruise time for any ship: the profile's with the drive's stages known, else the flat-speed fallback. */
  lemma CruiseCases(distanceM: real, ship: ShipSpeed, sqrt: real -> real)
    requires Sound(ship) && IsSqrt(sqrt) && distanceM >= 0.0
    ensures HasStages(ship) ==> QtCruiseSeconds(distanceM, ship, sqrt) == ProfileSeconds(distanceM, ProfileOf(ship), sqrt)
    ensures !HasStages(ship) ==> ship.quantumSpeed * QtCruiseSeconds(distanceM, ship, sqrt) == distanceM
  {
    if distanceM == 0.0 && HasStages(ship) {
      var p := ProfileOf(ship);
      StageOneMeets(p);
      StageTwoDistance(p);
      StageOneIsExact(0.0, p, sqrt);
      ProfileTimeIsUnique(0.0, 0.0, p, sqrt);
    }
  }

  /** With the stages known, the profile flown for the returned time covers exactly the distance. */
  lemma QtCruiseIsExact(distanceM: real, ship: ShipSpeed, sqrt: real -> real)
    requires Sound(ship) && IsSqrt(sqrt) && distanceM >= 0.0 && HasStages(ship)
    ensures TripCovered(QtCruiseSeconds(distanceM, ship, sqrt), ProfileOf(ship)) == distanceM
  {
    CruiseCases(distanceM, ship, sqrt);
    ProfileIsExact(distanceM, ProfileOf(ship), sqrt);
  }

  // ----- The same on the ship's own data -----

  /** The ship's data give both acceleration stages and the speed where the first ends. */
  predicate StagesGiven(ship: ShipSpeed) {
    && ship.quantumStageOneAccel.Some? && ship.quantumStageOneAccel.value > 0.0
    && ship.quantumStageTwoAccel.Some? && ship.quantumStageTwoAccel.value > 0.0
    && ship.quantumEngageSpeed.Some? && ship.quantumEngageSpeed.value > 0.0
  }

  /**
   * The drive's speed t seconds after a standing start: stage one's acceleration as far as the engage
   * speed or the top, whichever is less, then stage two's, and never more than the top.
   */
  function DriveSpeedAt(t: real, ship: ShipSpeed): real
    requires StagesGiven(ship)
  {
    var (one, two, top) := (ship.quantumStageOneAccel.value, ship.quantumStageTwoAccel.value, ship.quantumSpeed);
    var engage := if top < ship.quantumEngageSpeed.value then top else ship.quantumEngageSpeed.value;
    TwoStages(t, one, two, engage, engage / one, top)
  }

  /** Acceleration one up to the engage speed, which takes engageS, then two up to the top. */
  function TwoStages(t: real, one: real, two: real, engage: real, engageS: real, top: real): real {
    if one * t <= engage then one * t
    else if engage + two * (t - engageS) <= top then engage + two * (t - engageS)
    else top
  }

  /** On a trip of so many seconds the second half mirrors the first. */
  function CruiseSpeedAt(t: real, seconds: real, ship: ShipSpeed): real
    requires StagesGiven(ship)
  {
    if t <= seconds / 2.0 then DriveSpeedAt(t, ship) else DriveSpeedAt(seconds - t, ship)
  }

  ghost predicate CruiseSpeedWithin(s: real, t: real, seconds: real, ship: ShipSpeed, low: real, high: real)
    requires StagesGiven(ship)
  {
    forall u :: s <= u <= t ==> low <= CruiseSpeedAt(u, seconds, ship) <= high
  }

  /** covered is the distance flown at that speed: between any two moments within the time times any bounds on the speed. */
  ghost predicate FliesTheDrive(covered: real -> real, seconds: real, ship: ShipSpeed)
    requires StagesGiven(ship)
  {
    && covered(0.0) == 0.0
    && forall s, t, low, high :: 0.0 <= s <= t <= seconds && CruiseSpeedWithin(s, t, seconds, ship, low, high) ==>
         Between(t - s, low, high, covered(t) - covered(s))
  }

  lemma DriveSpeedIsProfile(t: real, ship: ShipSpeed)
    requires Sound(ship) && StagesGiven(ship) && HasStages(ship) && t >= 0.0
    ensures DriveSpeedAt(t, ship) == SpeedAt(t, ProfileOf(ship))
  {
    OwnStages(t, ship);
    ProfileStages(t, ProfileOf(ship));
  }

  lemma OwnStages(t: real, ship: ShipSpeed)
    requires Sound(ship) && StagesGiven(ship) && HasStages(ship)
    ensures var p := ProfileOf(ship); DriveSpeedAt(t, ship) == TwoStages(t, p.a1, p.a2, p.engage, p.T1(), p.top)
  {
  }

  lemma ProfileStages(t: real, p: Profile)
    requires p.Valid()
    ensures SpeedAt(t, p) == TwoStages(t, p.a1, p.a2, p.engage, p.T1(), p.top)
  {
    StageOneMeets(p);
    StageTwoMeets(p);
    StageTimes(t, p.a1, p.a2, p.engage, p.T1(), p.T2(), p.top);
  }

  lemma StageTimes(t: real, one: real, two: real, engage: real, t1: real, t2: real, top: real)
    requires one > 0.0 && two > 0.0 && one * t1 == engage && two * t2 == top - engage
    ensures TwoStages(t, one, two, engage, t1, top)
         == if t <= t1 then one * t else if t <= t1 + t2 then engage + two * (t - t1) else top
  {
    SameStage(one, t, t1);
    var later := t - t1;
    SameStage(two, later, t2);
    assert engage + two * later <= top <==> t <= t1 + t2;
  }

  lemma SameStage(a: real, x: real, y: real)
    requires a > 0.0
    ensures a * x <= a * y <==> x <= y
  {
    if x <= y {
      MulLe(x, y, a);
    } else {
      MulLt(a, y, x);
    }
  }

  /**
   * The returned time is the one in which the ship covers the distance: flying its own drive's stages
   * where its data give them, and at its quantum speed throughout where they do not.
   */
  lemma QtCruiseFliesTheDrive(distanceM: real, ship: ShipSpeed, sqrt: real -> real)
    requires Sound(ship) && IsSqrt(sqrt)
    ensures QtCruiseSeconds(distanceM, ship, sqrt) >= 0.0
    ensures distanceM <= 0.0 ==> QtCruiseSeconds(distanceM, ship, sqrt) == 0.0
    ensures distanceM > 0.0 && StagesGiven(ship) ==>
              exists covered :: FliesTheDrive(covered, QtCruiseSeconds(distanceM, ship, sqrt), ship)
                                && covered(QtCruiseSeconds(distanceM, ship, sqrt)) == distanceM
    ensures distanceM > 0.0 && !StagesGiven(ship) ==> ship.quantumSpeed * QtCruiseSeconds(distanceM, ship, sqrt) == distanceM
  {
    if distanceM > 0.0 {
      var seconds := QtCruiseSeconds(distanceM, ship, sqrt);
      DistanceInverts(distanceM, ship, sqrt);
      if StagesGiven(ship) {
        var p := ProfileOf(ship);
        var covered := t => if p.Valid() then TripCoveredAt(t, seconds, p) else 0.0;
        QtCruiseIsExact(distanceM, ship, sqrt);
        ProfileFlies(covered, seconds, ship);
        TripEnds(seconds, seconds, p);
      }
    }
  }

  lemma ProfileFlies(covered: real -> real, seconds: real, ship: ShipSpeed)
    requires Sound(ship) && StagesGiven(ship) && HasStages(ship) && seconds >= 0.0
    requires forall t :: covered(t) == TripCoveredAt(t, seconds, ProfileOf(ship))
    ensures FliesTheDrive(covered, seconds, ship)
  {
    var p := ProfileOf(ship);
    TripEnds(0.0, seconds, p);
    forall s, t, low, high | 0.0 <= s <= t <= seconds && CruiseSpeedWithin(s, t, seconds, ship, low, high)
      ensures Between(t - s, low, high, covered(t) - covered(s))
    {
      forall u | s <= u <= t ensures low <= TripSpeedAt(u, seconds, p) <= high {
        DriveSpeedIsProfile(if u <= seconds / 2.0 then u else seconds - u, ship);
        assert low <= CruiseSpeedAt(u, seconds, ship) <= high;
      }
      TripIntegratesSpeed(s, t, seconds, p, low, high);
    }
  }

  /** A longer trip takes longer. */
  lemma QtCruiseIncreases(d: real, e: real, ship: ShipSpeed, sqrt: real -> real)
    requires Sound(ship) && IsSqrt(sqrt) && 0.0 <= d < e
    ensures 0.0 <= QtCruiseSeconds(d, ship, sqrt) < QtCruiseSeconds(e, ship, sqrt)
  {
    DistanceInverts(d, ship, sqrt);
    DistanceInverts(e, ship, sqrt);
    InverseIncreases(QtCruiseSeconds(d, ship, sqrt), QtCruiseSeconds(e, ship, sqrt), ship);
  }

  lemma InverseIncreases(s: real, t: real, ship: ShipSpeed)
    requires Sound(ship) && s >= 0.0 && t >= 0.0 && DistanceIn(s, ship) < DistanceIn(t, ship)
    ensures s < t
  {
    if t < s {
      DistanceIncreases(t, s, ship);
    }
  }

  /** The distance flown at full drive speed all the way. */
  function AtTopSpeed(seconds: real, ship: ShipSpeed): real {
    ship.quantumSpeed * seconds
  }

  /** No trip takes less time than its distance at full drive speed. */
  lemma QtCruiseNotFasterThanTop(distanceM: real, ship: ShipSpeed, sqrt: real -> real)
    requires Sound(ship) && IsSqrt(sqrt) && distanceM >= 0.0
    ensures AtTopSpeed(QtCruiseSeconds(distanceM, ship, sqrt), ship) >= distanceM
  {
    DistanceInverts(distanceM, ship, sqrt);
    DistanceUnderTop(QtCruiseSeconds(distanceM, ship, sqrt), distanceM, ship);
  }

  lemma DistanceUnderTop(seconds: real, distanceM: real, ship: ShipSpeed)
    requires Sound(ship) && seconds >= 0.0 && DistanceIn(seconds, ship) == distanceM
    ensures AtTopSpeed(seconds, ship) >= distanceM
  {
    if HasStages(ship) {
      TripNotFasterThanTop(seconds, distanceM, ProfileOf(ship));
    }
  }

  /** The distance a ship covers in a given cruise time. */
  function DistanceIn(seconds: real, ship: ShipSpeed): real
    requires Sound(ship)
  {
    if HasStages(ship) then TripCovered(seconds, ProfileOf(ship)) else ship.quantumSpeed * seconds
  }

  lemma NonnegFactor(a: real, x: real)
    requires a > 0.0 && a * x >= 0.0
    ensures x >= 0.0
  {
    if x < 0.0 {
      MulLt(a, x, 0.0);
    }
  }

  lemma DistanceInverts(distanceM: real, ship: ShipSpeed, sqrt: real -> real)
    requires Sound(ship) && IsSqrt(sqrt) && distanceM >= 0.0
    ensures DistanceIn(QtCruiseSeconds(distanceM, ship, sqrt), ship) == distanceM
    ensures QtCruiseSeconds(distanceM, ship, sqrt) >= 0.0
  {
    CruiseCases(distanceM, ship, sqrt);
    if HasStages(ship) {
      ProfileIsExact(distanceM, ProfileOf(ship), sqrt);
    } else {
      NonnegFactor(ship.quantumSpeed, QtCruiseSeconds(distanceM, ship, sqrt));
    }
  }

  lemma DistanceIncreases(s: real, t: real, ship: ShipSpeed)
    requires Sound(ship) && 0.0 <= s < t
    ensures DistanceIn(s, ship) < DistanceIn(t, ship)
  {
    if HasStages(ship) {
      CoveredIncreases(s / 2.0, t / 2.0, ProfileOf(ship));
    } else {
      MulLt(ship.quantumSpeed, s, t);
    }
  }

  /** The cruise time is continuous in the distance, at the switch between stages and everywhere else. */
  lemma QtCruiseIsContinuous(d: real, eps: real, ship: ShipSpeed, sqrt: real -> real)
    requires Sound(ship) && IsSqrt(sqrt) && d >= 0.0 && eps > 0.0
    ensures exists delta :: delta > 0.0 && CloseWithin(d, eps, delta, ship, sqrt)
  {
    var s := QtCruiseSeconds(d, ship, sqrt);
    DistanceInverts(d, ship, sqrt);
    DistanceIncreases(s, s + eps, ship);
    var above := DistanceIn(s + eps, ship) - d;
    var below := above;
    if s - eps >= 0.0 {
      DistanceIncreases(s - eps, s, ship);
      below := d - DistanceIn(s - eps, ship);
    }
    var delta := Least(above, below);
    forall e | e >= 0.0 && -delta < e - d < delta ensures -eps < QtCruiseSeconds(e, ship, sqrt) - s < eps {
      var t := QtCruiseSeconds(e, ship, sqrt);
      DistanceInverts(e, ship, sqrt);
      if t > s + eps {
        DistanceIncreases(s + eps, t, ship);
      }
      if s - eps >= 0.0 && t < s - eps {
        DistanceIncreases(t, s - eps, ship);
      }
    }
    assert CloseWithin(d, eps, delta, ship, sqrt);
  }

  ghost predicate CloseWithin(d: real, eps: real, delta: real, ship: ShipSpeed, sqrt: real -> real)
    requires Sound(ship)
  {
    forall e :: e >= 0.0 && -delta < e - d < delta ==>
      -eps < QtCruiseSeconds(e, ship, sqrt) - QtCruiseSeconds(d, ship, sqrt) < eps
  }
}
