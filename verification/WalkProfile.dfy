/**
  The speed profile of a walk and the times of its footstep sounds (`walkSeg` in
  assets/promo-kit/film/mascot.js): accelerate, cruise, brake, and find the time
  of each step by thirty halvings.
*/
module WalkProfile {
  import opened Reals

  datatype Walk = Walk(distance: real, duration: real, ramp: real)

  /** A walk over `distance` in the wanted time, which is never shorter than 0.3 seconds. */
  function Planned(distance: real, wanted: real, run: bool): Walk {
    var duration := if wanted < 0.3 then 0.3 else wanted;
    var most := if run then 0.14 else 0.2;
    Walk(distance, duration, if most < duration * 0.3 then most else duration * 0.3)
  }

  ghost predicate Proper(w: Walk) {
    w.distance > 0.0 && 0.0 < w.ramp && w.ramp <= 0.3 * w.duration
  }

  /** The walk takes the time wanted, when that is long enough, and speeds up for as long as it may: three tenths of its
      time, but never more than 0.14 seconds when running and 0.2 otherwise. */
  lemma PlannedProper(distance: real, wanted: real, run: bool)
    requires distance > 0.0
    ensures var w := Planned(distance, wanted, run);
            && Proper(w) && w.distance == distance && (wanted >= 0.3 ==> w.duration == wanted)
            && (wanted < 0.3 ==> w.duration == 0.3)
            && w.ramp <= (if run then 0.14 else 0.2)
            && (w.ramp == 0.3 * w.duration || w.ramp == if run then 0.14 else 0.2)
  {
  }

  /** The cruising speed. */
  function Cruise(w: Walk): real
    requires Proper(w)
  {
    w.distance / (w.duration - w.ramp)
  }

  /** The distance covered after `u` seconds. */
  function Covered(w: Walk, u: real): real
    requires Proper(w)
  {
    var v := Cruise(w);
    if u <= 0.0 then 0.0
    else if u >= w.duration then w.distance
    else if u < w.ramp then (v * u * u) / (2.0 * w.ramp)
    else if u < w.duration - w.ramp then (v * w.ramp) / 2.0 + v * (u - w.ramp)
    else w.distance - (v * (w.duration - u) * (w.duration - u)) / (2.0 * w.ramp)
  }

  // ----- the profile as a sum of three phases --------------------------------------------------

  function Within(x: real, low: real, high: real): real {
    if x < low then low else if x > high then high else x
  }

  /** Half the acceleration. */
  function Pull(w: Walk): real
    requires Proper(w)
  {
    Cruise(w) / (2.0 * w.ramp)
  }

  lemma Rates(w: Walk)
    requires Proper(w)
    ensures Cruise(w) > 0.0 && Pull(w) > 0.0
    ensures Cruise(w) * (w.duration - w.ramp) == w.distance
    ensures Pull(w) * (2.0 * w.ramp) == Cruise(w)
  {
    Positive(w.distance, w.duration - w.ramp);
    Positive(Cruise(w), 2.0 * w.ramp);
  }

  lemma Positive(a: real, b: real)
    requires a > 0.0 && b > 0.0
    ensures a / b > 0.0 && a / b * b == a
  {
    var q := a / b;
    assert q * b == a;
    if q <= 0.0 {
      NonNegative(-q, b);
    }
  }


  function SpeedUp(k: real, x: real): real {
    k * x * x
  }

  lemma QuotientOut(v: real, x: real, y: real, d: real)
    requires d > 0.0
    ensures (v * x * y) / d == v / d * x * y
  {
    var q := v / d;
    assert q * d == v;
    assert (v * x * y) == (q * x * y) * d;
  }

  /** What the three phases have covered by `u`. */
  function Accelerated(w: Walk, u: real): real
    requires Proper(w)
  {
    SpeedUp(Pull(w), Within(u, 0.0, w.ramp))
  }

  function Cruised(w: Walk, u: real): real
    requires Proper(w)
  {
    Cruise(w) * (Within(u, w.ramp, w.duration - w.ramp) - w.ramp)
  }

  function Braked(w: Walk, u: real): real
    requires Proper(w)
  {
    SpeedUp(Pull(w), w.ramp) - SpeedUp(Pull(w), w.duration - Within(u, w.duration - w.ramp, w.duration))
  }

  /** Half the ramp at full speed, twice, and the rest at full speed make the whole distance. */
  lemma WholeDistance(w: Walk)
    requires Proper(w)
    ensures var v, t, r := Cruise(w), w.duration, w.ramp;
            && SpeedUp(Pull(w), r) == v * r / 2.0
            && w.distance == v * r / 2.0 + v * ((t - r) - r) + v * r / 2.0
    ensures SpeedUp(Pull(w), 0.0) == 0.0
  {
    Rates(w);
    var k, v, t, r := Pull(w), Cruise(w), w.duration, w.ramp;
    hide Pull, Cruise;
    assert k * r * r == (k * (2.0 * r)) * r / 2.0;
    assert v * (t - r) == v * ((t - r) - r) + v * r;
  }

  lemma WhileAccelerating(w: Walk, u: real)
    requires Proper(w) && u < w.ramp
    ensures Covered(w, u) == Accelerated(w, u) && Cruised(w, u) == 0.0 && Braked(w, u) == 0.0
  {
    WholeDistance(w);
    QuotientOut(Cruise(w), u, u, 2.0 * w.ramp);
    hide Cruise;
  }

  lemma WhileCruising(w: Walk, u: real)
    requires Proper(w) && w.ramp <= u < w.duration - w.ramp
    ensures Covered(w, u) == Accelerated(w, u) + Cruised(w, u) && Braked(w, u) == 0.0
  {
    WholeDistance(w);
    hide Cruise, Pull, SpeedUp;
  }

  lemma WhileBraking(w: Walk, u: real)
    requires Proper(w) && w.duration - w.ramp <= u
    ensures Covered(w, u) == Accelerated(w, u) + Cruised(w, u) + Braked(w, u)
  {
    WholeDistance(w);
    var left := w.duration - u;
    QuotientOut(Cruise(w), left, left, 2.0 * w.ramp);
    assert SpeedUp(Pull(w), left) == (Cruise(w) * left * left) / (2.0 * w.ramp);
    hide Cruise, Pull, SpeedUp;
  }

  /** At every moment the distance is what the three phases covered so far. */
  lemma ThreePhases(w: Walk, u: real)
    requires Proper(w)
    ensures Covered(w, u) == Accelerated(w, u) + Cruised(w, u) + Braked(w, u)
  {
    hide Covered, Accelerated, Cruised, Braked;
    if u < w.ramp {
      WhileAccelerating(w, u);
    } else if u < w.duration - w.ramp {
      WhileCruising(w, u);
    } else {
      WhileBraking(w, u);
    }
  }

  lemma SpeedUpGrows(k: real, x: real, y: real, most: real)
    requires k > 0.0 && 0.0 <= x <= y <= most
    ensures 0.0 <= SpeedUp(k, y) - SpeedUp(k, x) <= k * (2.0 * most) * (y - x)
    ensures x < y ==> SpeedUp(k, x) < SpeedUp(k, y)
  {
    var d, s := y - x, x + y;
    assert SpeedUp(k, y) - SpeedUp(k, x) == k * (d * s);
    NonNegative(d, s);
    NonNegative(d, 2.0 * most - s);
    NonNegative(k, d * s);
    NonNegative(k, d * (2.0 * most - s));
    assert k * (d * (2.0 * most - s)) == k * (2.0 * most) * d - k * (d * s);
    if x < y {
      assert d * s > 0.0;
      assert k * (d * s) > 0.0;
    }
  }

  lemma WithinGrows(low: real, high: real, a: real, b: real)
    requires low <= high && a <= b
    ensures low <= Within(a, low, high) <= Within(b, low, high) <= high
  {
  }

  lemma AcceleratedGrows(w: Walk, a: real, b: real)
    requires Proper(w) && a <= b
    ensures 0.0 <= Accelerated(w, b) - Accelerated(w, a)
                <= Cruise(w) * (Within(b, 0.0, w.ramp) - Within(a, 0.0, w.ramp))
  {
    Rates(w);
    WithinGrows(0.0, w.ramp, a, b);
    hide Pull, Cruise, SpeedUp, Within;
    SpeedUpGrows(Pull(w), Within(a, 0.0, w.ramp), Within(b, 0.0, w.ramp), w.ramp);
  }

  lemma CruisedGrows(w: Walk, a: real, b: real)
    requires Proper(w) && a <= b
    ensures var from, to := w.ramp, w.duration - w.ramp;
            0.0 <= Cruised(w, b) - Cruised(w, a) <= Cruise(w) * (Within(b, from, to) - Within(a, from, to))
  {
    Rates(w);
    var v, a2, b2 := Cruise(w), Within(a, w.ramp, w.duration - w.ramp), Within(b, w.ramp, w.duration - w.ramp);
    WithinGrows(w.ramp, w.duration - w.ramp, a, b);
    hide Cruise, Within;
    NonNegative(v, b2 - a2);
    assert v * (b2 - w.ramp) - v * (a2 - w.ramp) == v * (b2 - a2);
  }

  lemma BrakedGrows(w: Walk, a: real, b: real)
    requires Proper(w) && a <= b
    ensures var from, to := w.duration - w.ramp, w.duration;
            0.0 <= Braked(w, b) - Braked(w, a) <= Cruise(w) * (Within(b, from, to) - Within(a, from, to))
  {
    Rates(w);
    var t := w.duration;
    var a3, b3 := Within(a, t - w.ramp, t), Within(b, t - w.ramp, t);
    WithinGrows(t - w.ramp, t, a, b);
    hide Pull, Cruise, SpeedUp, Within;
    SpeedUpGrows(Pull(w), t - b3, t - a3, w.ramp);
    assert (t - a3) - (t - b3) == b3 - a3;
  }

  lemma Distribute(v: real, d1: real, d2: real, d3: real, total: real)
    requires v >= 0.0 && d1 + d2 + d3 <= total
    ensures v * d1 + v * d2 + v * d3 <= v * total
  {
    NonNegative(v, total - (d1 + d2 + d3));
    assert v * (total - (d1 + d2 + d3)) == v * total - (v * d1 + v * d2 + v * d3);
  }

  lemma PartsWithin(w: Walk, a: real, b: real)
    requires Proper(w) && a <= b
    ensures var t, r := w.duration, w.ramp;
            (Within(b, 0.0, r) - Within(a, 0.0, r)) + (Within(b, r, t - r) - Within(a, r, t - r))
            + (Within(b, t - r, t) - Within(a, t - r, t)) <= b - a
  {
  }

  /** The distance never shrinks and never grows faster than the cruising speed. */
  lemma Steady(w: Walk, a: real, b: real)
    requires Proper(w) && a <= b
    ensures 0.0 <= Covered(w, b) - Covered(w, a) <= Cruise(w) * (b - a)
  {
    hide Covered, Accelerated, Cruised, Braked, Within, Cruise;
    var t, r := w.duration, w.ramp;
    Rates(w);
    ThreePhases(w, a);
    ThreePhases(w, b);
    AcceleratedGrows(w, a, b);
    CruisedGrows(w, a, b);
    BrakedGrows(w, a, b);
    PartsWithin(w, a, b);
    Distribute(Cruise(w), Within(b, 0.0, r) - Within(a, 0.0, r), Within(b, r, t - r) - Within(a, r, t - r),
               Within(b, t - r, t) - Within(a, t - r, t), b - a);
  }

  lemma NotYet(w: Walk, u: real)
    requires Proper(w) && u < w.duration
    ensures Covered(w, u) < w.distance
  {
    var late := Within(u, w.duration - w.ramp, w.duration);
    var left := w.duration - late;
    Steady(w, u, late);
    ThreePhases(w, w.duration);
    ThreePhases(w, late);
    Rates(w);
    SpeedUpGrows(Pull(w), 0.0, left, w.ramp);
    hide SpeedUp, Pull, Cruise;
    assert Accelerated(w, w.duration) == Accelerated(w, late) && Cruised(w, w.duration) == Cruised(w, late);
  }

  /** It starts at 0, ends at the whole distance, and gets there no sooner than at the end. */
  lemma Ends(w: Walk, u: real)
    requires Proper(w)
    ensures Covered(w, 0.0) == 0.0 && Covered(w, w.duration) == w.distance
    ensures u <= 0.0 ==> Covered(w, u) == 0.0
    ensures Covered(w, u) == w.distance <==> u >= w.duration
    ensures 0.0 <= Covered(w, u) <= w.distance
  {
    if u >= 0.0 {
      Steady(w, 0.0, u);
    }
    if u < w.duration {
      NotYet(w, u);
    }
    hide Cruise;
  }

  /** Continuous everywhere: any tolerance is met within the tolerance divided by the cruising speed. */
  lemma Continuous(w: Walk, a: real, b: real, eps: real)
    requires Proper(w) && eps > 0.0 && Cruise(w) > 0.0 && Abs(a - b) < eps / Cruise(w)
    ensures Abs(Covered(w, a) - Covered(w, b)) < eps
  {
    hide Cruise, Covered;
    var v := Cruise(w);
    if a <= b {
      Steady(w, a, b);
      Below(v, b - a, eps);
    } else {
      Steady(w, b, a);
      Below(v, a - b, eps);
    }
  }

  lemma Below(v: real, gap: real, eps: real)
    requires v > 0.0 && eps > 0.0 && gap < eps / v
    ensures v * gap < eps
  {
    var share := eps / v;
    Positive(eps, v);
    assert share * v == eps;
    assert v * (share - gap) > 0.0;
    assert v * (share - gap) == share * v - v * gap;
  }

  // ----- the footstep sounds ---------------------------------------------------------------------

  const TICKS := 1073741824   // 2 to the 30th

  /** The time of tick `k`, of 2 to the 30th over the whole walk. */
  function Tick(w: Walk, k: int): real {
    k as real * (w.duration / (TICKS as real))
  }

  /** `u` is the first tick at which the target is reached. */
  ghost predicate FirstTick(w: Walk, target: real, u: real, k: int)
    requires Proper(w)
  {
    && 0 < k <= TICKS && u == Tick(w, k) && Covered(w, u) >= target
    && forall j :: j < k ==> Covered(w, Tick(w, j)) < target
  }

  ghost predicate IsFirstTick(w: Walk, target: real, u: real)
    requires Proper(w)
  {
    exists k :: FirstTick(w, target, u, k)
  }

  lemma TickOrder(w: Walk, i: int, j: int)
    requires Proper(w)
    ensures i <= j ==> Tick(w, i) <= Tick(w, j)
    ensures Tick(w, i + 1) - Tick(w, i) == Tick(w, 1)
    ensures Tick(w, 1) > 0.0 && Tick(w, TICKS) == w.duration
  {
    var g := w.duration / (TICKS as real);
    Positive(w.duration, TICKS as real);
    if i <= j {
      NonNegative((j - i) as real, g);
      assert (j - i) as real * g == j as real * g - i as real * g;
    }
    assert (i + 1) as real * g == i as real * g + g;
  }

  /** A first tick is never before the target is reached, and at most one tick after it. */
  lemma FirstTickMeaning(w: Walk, target: real, u: real, x: real)
    requires Proper(w) && IsFirstTick(w, target, u)
    ensures Covered(w, x) < target ==> x < u
    ensures Covered(w, x) >= target ==> u - x < w.duration / (TICKS as real)
  {
    var k :| FirstTick(w, target, u, k);
    TickOrder(w, k - 1, k);
    if u <= x {
      Steady(w, u, x);
    }
    if x <= Tick(w, k - 1) {
      Steady(w, x, Tick(w, k - 1));
    }
    hide Covered;
    assert Covered(w, Tick(w, k - 1)) < target;
  }

  lemma NotBefore(w: Walk, target: real, u: real, i: int, j: int)
    requires Proper(w) && FirstTick(w, target, u, i) && Covered(w, Tick(w, j)) >= target
    ensures i <= j
  {
    hide Covered, Tick;
  }

  /** Later targets have later first ticks. */
  lemma FirstTicksInOrder(w: Walk, s: real, t: real, u: real, x: real)
    requires Proper(w) && s <= t && IsFirstTick(w, s, u) && IsFirstTick(w, t, x)
    ensures u <= x
  {
    hide Covered, Tick;
    var i :| FirstTick(w, s, u, i);
    var j :| FirstTick(w, t, x, j);
    TickOrder(w, i, j);
    NotBefore(w, s, u, i, j);
  }

  /** Targets a cruising tick apart have first ticks apart. */
  lemma FirstTicksApart(w: Walk, s: real, t: real, u: real, x: real)
    requires Proper(w) && IsFirstTick(w, s, u) && IsFirstTick(w, t, x)
    requires t - s >= Cruise(w) * (w.duration / (TICKS as real))
    ensures u < x
  {
    hide Covered, Cruise;
    var i :| FirstTick(w, s, u, i);
    TickOrder(w, i - 1, i);
    Steady(w, Tick(w, i - 1), u);
    assert Covered(w, Tick(w, i - 1)) < s;
    FirstTickMeaning(w, t, x, u);
  }

  /** The whole distance is reached exactly at the end. */
  lemma LastTick(w: Walk, u: real)
    requires Proper(w) && IsFirstTick(w, w.distance, u)
    ensures u == w.duration
  {
    var k :| FirstTick(w, w.distance, u, k);
    TickOrder(w, k, TICKS);
    Ends(w, u);
  }

  function Power(n: nat): nat {
    if n == 0 then 1 else 2 * Power(n - 1)
  }

  lemma {:induction false} PowerPlus(a: nat, b: nat)
    ensures Power(a + b) == Power(a) * Power(b)
  {
    if a != 0 {
      PowerPlus(a - 1, b);
      assert Power(a) * Power(b) == 2 * (Power(a - 1) * Power(b));
    }
  }

  lemma PowerThirty()
    ensures Power(30) == TICKS
  {
    PowerPlus(15, 15);
    PowerPlus(10, 5);
    PowerPlus(5, 5);
    assert Power(5) == 32;
  }

  lemma Halves(w: Walk, left: nat, a: int)
    requires Proper(w) && left > 0
    ensures (Tick(w, a * Power(left)) + Tick(w, (a + 1) * Power(left))) / 2.0 == Tick(w, (2 * a + 1) * Power(left - 1))
    ensures a * Power(left) == 2 * a * Power(left - 1)
    ensures (a + 1) * Power(left) == (2 * a + 2) * Power(left - 1)
  {
    var g, p := w.duration / (TICKS as real), Power(left - 1);
    var m := (2 * a + 1) * p;
    assert a * Power(left) == m - p && (a + 1) * Power(left) == m + p;
    hide Power;
    assert (m - p) as real * g == m as real * g - p as real * g;
    assert (m + p) as real * g == m as real * g + p as real * g;
  }

  /** Thirty halvings find the first tick at which the target is reached. */
  method FirstReached(w: Walk, target: real) returns (hi: real)
    requires Proper(w) && 0.0 < target <= w.distance
    ensures IsFirstTick(w, target, hi)
  {
    var lo := 0.0;
    hi := w.duration;
    ghost var a := 0;
    PowerThirty();
    TickOrder(w, 0, TICKS);
    Ends(w, 0.0);
    hide Covered, Cruise, Power;
    for i := 0 to 30
      invariant 0 <= a && (a + 1) * Power(30 - i) <= TICKS
      invariant lo == Tick(w, a * Power(30 - i)) && hi == Tick(w, (a + 1) * Power(30 - i))
      invariant Covered(w, lo) < target <= Covered(w, hi)
    {
      Halves(w, 30 - i, a);
      var mid := (lo + hi) / 2.0;
      if Covered(w, mid) < target {
        lo := mid;
        a := 2 * a + 1;
      } else {
        hi := mid;
        a := 2 * a;
        assert (a + 1) * Power(30 - (i + 1)) <= (a + 2) * Power(30 - (i + 1));
      }
    }
    PowerOne();
    FirstFound(w, target, a, lo, hi);
  }

  lemma PowerOne()
    ensures Power(0) == 1
  {
  }

  lemma FirstFound(w: Walk, target: real, a: int, lo: real, hi: real)
    requires Proper(w) && 0 <= a < TICKS && lo == Tick(w, a) && hi == Tick(w, a + 1)
    requires Covered(w, lo) < target <= Covered(w, hi)
    ensures IsFirstTick(w, target, hi)
  {
    hide Covered, Cruise, Tick;
    forall j | j < a + 1
      ensures Covered(w, Tick(w, j)) < target
    {
      TickOrder(w, j, a);
      Steady(w, Tick(w, j), lo);
    }
    assert FirstTick(w, target, hi, a + 1);
  }

  function Target(w: Walk, j: nat, n: nat): real
    requires n > 0
  {
    (w.distance * j as real) / (n as real)
  }

  lemma TargetsRise(w: Walk, j: nat, n: nat)
    requires Proper(w) && 0 < j <= n
    ensures 0.0 < Target(w, j, n) <= w.distance && Target(w, n, n) == w.distance
    ensures Target(w, j, n) - Target(w, j - 1, n) == w.distance / (n as real)
  {
    var d, q := w.distance, w.distance / (n as real);
    Positive(d, n as real);
    assert d * j as real == (q * j as real) * n as real;
    assert Target(w, j, n) == q * j as real;
    assert d * (j - 1) as real == (q * (j - 1) as real) * n as real;
    assert Target(w, j - 1, n) == q * (j - 1) as real;
    assert d * n as real == (q * n as real) * n as real;
    assert Target(w, n, n) == q * n as real;
    assert q * j as real - q * (j - 1) as real == q;
    Positive(q * j as real, 1.0) by {
      assert q * j as real > 0.0;
    }
    NonNegative(q, (n - j) as real);
    assert q * (n - j) as real == q * n as real - q * j as real;
  }

  /** The times of the `n` footstep sounds of a walk that starts at `at`. */
  method StepCues(w: Walk, at: real, n: nat) returns (cues: seq<real>)
    requires Proper(w) && n > 0
    ensures |cues| == n && forall j :: 0 <= j < n ==> IsFirstTick(w, Target(w, j + 1, n), cues[j] - at)
  {
    cues := [];
    for j := 1 to n + 1
      invariant |cues| == j - 1 && forall i :: 0 <= i < j - 1 ==> IsFirstTick(w, Target(w, i + 1, n), cues[i] - at)
    {
      TargetsRise(w, j, n);
      var u := FirstReached(w, Target(w, j, n));
      cues := cues + [at + u];
      assert cues[j - 1] - at == u;
    }
  }

  /** Footsteps come in order, the last with the end of the walk; and with fewer than 0.7 times 2 to the 30th of
      them, no two at once. */
  lemma CuesInOrder(w: Walk, at: real, n: nat, cues: seq<real>, i: nat)
    requires Proper(w) && n > 0 && |cues| == n
    requires forall j :: 0 <= j < n ==> IsFirstTick(w, Target(w, j + 1, n), cues[j] - at)
    ensures cues[n - 1] == at + w.duration
    ensures i + 1 < n ==> cues[i] <= cues[i + 1] && (n as real <= 0.7 * (TICKS as real) ==> cues[i] < cues[i + 1])
  {
    hide Covered, Tick, Cruise, Target, IsFirstTick;
    TargetsRise(w, n, n);
    LastTick(w, cues[n - 1] - at);
    if i + 1 < n {
      TargetsRise(w, i + 1, n);
      TargetsRise(w, i + 2, n);
      FirstTicksInOrder(w, Target(w, i + 1, n), Target(w, i + 2, n), cues[i] - at, cues[i + 1] - at);
      if n as real <= 0.7 * (TICKS as real) {
        StepsApart(w, n);
        FirstTicksApart(w, Target(w, i + 1, n), Target(w, i + 2, n), cues[i] - at, cues[i + 1] - at);
      }
    }
  }

  lemma StepsApart(w: Walk, n: nat)
    requires Proper(w) && 0 < n && n as real <= 0.7 * (TICKS as real)
    ensures w.distance / (n as real) >= Cruise(w) * (w.duration / (TICKS as real))
  {
    Rates(w);
    var v, t, m, p, d := Cruise(w), w.duration, n as real, TICKS as real, w.distance;
    var q, g := d / m, t / p;
    Positive(d, m);
    Positive(t, p);
    hide Cruise;
    assert q * m == v * (t - w.ramp);
    assert 0.7 * (v * t) <= v * (t - w.ramp) by {
      NonNegative(v, 0.3 * t - w.ramp);
      assert v * (0.3 * t - w.ramp) == v * (t - w.ramp) - 0.7 * (v * t);
    }
    assert v * t == (v * g) * p;
    NonNegative(q, 0.7 * p - m);
    assert q * (0.7 * p - m) == 0.7 * (q * p) - q * m;
    assert (v * g) * p <= q * p;
    assert q < v * g ==> (v * g - q) * p > 0.0;
  }
}
