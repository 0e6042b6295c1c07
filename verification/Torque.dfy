/**
 Tightening torque (backend/engineering_core) over the reals. The two angles only occur
 through their tangents P/(pi d2) and mu/cos 30, so tan(helix + rho) is their tangent sum.
 */
module Torque {
  import opened Reals

  /** pi and cos 30 degrees, known to lie in the bounds the proofs use. */
  datatype Trig = Trig(pi: real, cos30: real)

  type Constants = k: Trig | 3.1 < k.pi < 3.2 && 0.86 < k.cos30 < 0.87 witness Trig(3.14, 0.866)

  datatype Thread = Thread(pitchDiameter: real, pitch: real)

  datatype Friction = Friction(thread: real, bearing: real)

  function PitchDiameter(diameter: real, pitch: real): real {
    diameter - 0.6495 * pitch
  }

  function MinorDiameter(diameter: real, pitch: real): real {
    diameter - 1.2269 * pitch
  }

  function TanHelix(k: Constants, t: Thread): real
    requires t.pitchDiameter > 0.0
  {
    t.pitch / (k.pi * t.pitchDiameter)
  }

  function TanRho(k: Constants, mu: real): real {
    mu / k.cos30
  }

  /** The angles with tangents `a` and `b` do not add up to a right angle. */
  predicate NotRight(a: real, b: real) {
    a * b != 1.0
  }

  /** Together they stay below one. */
  predicate Acute(a: real, b: real) {
    a * b < 1.0
  }

  predicate TangentDefined(k: Constants, t: Thread, mu: real)
    requires t.pitchDiameter > 0.0
  {
    NotRight(TanHelix(k, t), TanRho(k, mu))
  }

  function TanSum(a: real, b: real): real
    requires NotRight(a, b)
  {
    (a + b) / (1.0 - a * b)
  }

  /** Torque per unit of preload, in mm. */
  function Coefficient(k: Constants, t: Thread, mu: Friction, bearingDiameter: real): real
    requires t.pitchDiameter > 0.0 && TangentDefined(k, t, mu.thread)
  {
    t.pitchDiameter / 2.0 * TanSum(TanHelix(k, t), TanRho(k, mu.thread)) + mu.bearing * (bearingDiameter / 2.0)
  }

  /** In Nm, from N and mm. */
  function TighteningTorque(preload: real, coefficient: real): (torque: real)
    ensures torque * 1000.0 == preload * coefficient
  {
    preload * coefficient / 1000.0
  }

  function PreloadFromTorque(torque: real, coefficient: real): (preload: real)
    requires coefficient > 0.0
    ensures preload * coefficient == torque * 1000.0
  {
    Quotient(torque * 1000.0, coefficient);
    torque * 1000.0 / coefficient
  }

  /**
   The coefficient with its divisions and tangents multiplied out: pitch and thread friction act at
   half the pitch diameter, bearing friction at half the bearing diameter.
   */
  lemma CoefficientBalance(k: Constants, t: Thread, mu: Friction, bearingDiameter: real)
    requires t.pitchDiameter > 0.0 && TangentDefined(k, t, mu.thread)
    ensures var arm := Coefficient(k, t, mu, bearingDiameter) - mu.bearing * bearingDiameter / 2.0;
      2.0 * arm * (k.pi * t.pitchDiameter * k.cos30 - t.pitch * mu.thread)
      == t.pitchDiameter * (t.pitch * k.cos30 + mu.thread * (k.pi * t.pitchDiameter))
  {
    var d, x, a, b := t.pitchDiameter, k.pi * t.pitchDiameter, TanHelix(k, t), TanRho(k, mu.thread);
    Quotient(t.pitch, x);
    Quotient(mu.thread, k.cos30);
    TanSumBack(a, b);
    var s := TanSum(a, b);
    var arm := Coefficient(k, t, mu, bearingDiameter) - mu.bearing * bearingDiameter / 2.0;
    assert 2.0 * arm == d * s by { HalfTwice(d, s, mu.bearing, bearingDiameter); }
    BalanceOut(d, s, t.pitch, mu.thread, x, k.cos30, a, b);
    Substitute(2.0 * arm, d * s, x * k.cos30 - t.pitch * mu.thread);
  }

  lemma TanSumBack(a: real, b: real)
    requires NotRight(a, b)
    ensures TanSum(a, b) * (1.0 - a * b) == a + b
  {
    QuotientBack(a + b, 1.0 - a * b);
  }

  lemma BalanceOut(d: real, s: real, p: real, mu: real, x: real, y: real, a: real, b: real)
    requires s * (1.0 - a * b) == a + b && a * x == p && b * y == mu
    ensures d * s * (x * y - p * mu) == d * (p * y + mu * x)
  {
    TangentsOut(a, b, s, x, y);
    Rearrange(d, s, x * y - p * mu);
  }

  lemma HalfTwice(d: real, s: real, mu: real, bearing: real)
    ensures 2.0 * (d / 2.0 * s + mu * (bearing / 2.0) - mu * bearing / 2.0) == d * s
  {
  }

  lemma Rearrange(d: real, s: real, w: real)
    ensures d * s * w == d * (s * w)
  {
  }

  lemma TangentsOut(a: real, b: real, s: real, x: real, y: real)
    requires s * (1.0 - a * b) == a + b
    ensures s * (x * y - (a * x) * (b * y)) == (a * x) * y + (b * y) * x
  {
    var z := x * y;
    assert (a * x) * (b * y) == (a * b) * z;
    assert z - (a * b) * z == (1.0 - a * b) * z;
    Substitute(s * (1.0 - a * b), a + b, z);
    Rearrange(s, 1.0 - a * b, z);
    assert (a * x) * y + (b * y) * x == (a + b) * z;
  }

  // ------------------------------------------------------- sign and monotonicity

  /** The thread's friction angle keeps helix + rho below a right angle. */
  predicate BelowRightAngle(k: Constants, t: Thread, mu: real) {
    t.pitch * mu < k.pi * t.pitchDiameter * k.cos30
  }

  lemma Substitute(x: real, y: real, c: real)
    requires x == y
    ensures x * c == y * c && c * x == c * y
  {
  }

  lemma RightAngle(k: Constants, t: Thread, mu: real)
    requires t.pitchDiameter > 0.0
    ensures BelowRightAngle(k, t, mu) <==> Acute(TanHelix(k, t), TanRho(k, mu))
    ensures BelowRightAngle(k, t, mu) ==> TangentDefined(k, t, mu)
  {
    Quotient(t.pitch, k.pi * t.pitchDiameter);
    Quotient(mu, k.cos30);
    ProductBelowOne(t.pitch, mu, TanHelix(k, t), k.pi * t.pitchDiameter, TanRho(k, mu), k.cos30);
  }

  lemma ProductBelowOne(p: real, mu: real, a: real, d: real, b: real, c: real)
    requires d > 0.0 && c > 0.0 && a * d == p && b * c == mu
    ensures p * mu < d * c <==> Acute(a, b)
    ensures Acute(a, b) ==> NotRight(a, b)
  {
    var dc, ab := d * c, a * b;
    Scale(0.0, d, c);
    Substitute(p, a * d, mu);
    Substitute(mu, b * c, a * d);
    assert (a * d) * (b * c) == ab * dc;
    Scale(ab, 1.0, dc);
  }

  /** The tangent of a sum grows with the second angle, as long as the sum stays below a right angle. */
  lemma TanSumMonotone(a: real, b: real, c: real)
    requires a > 0.0 && b < c && Acute(a, b) && Acute(a, c) && NotRight(a, b) && NotRight(a, c)
    ensures TanSum(a, b) < TanSum(a, c)
  {
    var u, v := 1.0 - a * b, 1.0 - a * c;
    Quotient(a + b, u);
    Quotient(a + c, v);
    CrossDifference(a, b, c);
    assert u * v > 0.0;
    var s, t := TanSum(a, b), TanSum(a, c);
    assert s * (u * v) == (s * u) * v && t * (u * v) == (t * v) * u;
    Scale(s, t, u * v);
  }

  lemma CrossDifference(a: real, b: real, c: real)
    requires b < c
    ensures (a + b) * (1.0 - a * c) < (a + c) * (1.0 - a * b)
  {
    var aa := a * a;
    assert aa >= 0.0;
    assert (a + c) * (1.0 - a * b) == a + c - aa * b - (a * b) * c;
    assert (a + b) * (1.0 - a * c) == a + b - aa * c - (a * b) * c;
    assert (c - b) * (1.0 + aa) == c - b + aa * c - aa * b;
    Scale(0.0, 1.0 + aa, c - b);
  }

  /** The sign of the tangent of a sum of two angles, the first of them positive. */
  lemma TanSumSign(a: real, b: real)
    requires a > 0.0 && b >= 0.0 && NotRight(a, b)
    ensures TanSum(a, b) > 0.0 <==> Acute(a, b)
  {
    var u := 1.0 - a * b;
    if u > 0.0 {
      Quotient(a + b, u);
    } else {
      Quotient(a + b, -u);
      assert (a + b) / u == -((a + b) / -u);
    }
  }

  /** With no bearing friction, the coefficient is positive exactly below a right angle. */
  lemma CoefficientSign(k: Constants, t: Thread, mu: real, bearingDiameter: real)
    requires t.pitchDiameter > 0.0 && t.pitch > 0.0 && mu >= 0.0
    ensures TangentDefined(k, t, mu) ==>
      (Coefficient(k, t, Friction(mu, 0.0), bearingDiameter) > 0.0 <==> BelowRightAngle(k, t, mu))
  {
    if !TangentDefined(k, t, mu) { return; }
    RightAngle(k, t, mu);
    FrictionTangents(k, t, mu);
    TanSumSign(TanHelix(k, t), TanRho(k, mu));
    var s := TanSum(TanHelix(k, t), TanRho(k, mu));
    Scale(0.0, s, t.pitchDiameter / 2.0);
    assert Coefficient(k, t, Friction(mu, 0.0), bearingDiameter) == t.pitchDiameter / 2.0 * s;
  }

  lemma FrictionTangents(k: Constants, t: Thread, mu: real)
    requires t.pitchDiameter > 0.0 && t.pitch > 0.0 && mu >= 0.0
    ensures TanHelix(k, t) > 0.0 && TanRho(k, mu) >= 0.0
  {
    assert k.pi * t.pitchDiameter > 0.0;
    Quotient(t.pitch, k.pi * t.pitchDiameter);
    Quotient(mu, k.cos30);
  }

  lemma CoefficientPositive(k: Constants, t: Thread, mu: Friction, bearingDiameter: real)
    requires t.pitchDiameter > 0.0 && t.pitch > 0.0 && mu.thread >= 0.0
    requires mu.bearing >= 0.0 && bearingDiameter > 0.0
    ensures BelowRightAngle(k, t, mu.thread) ==>
      TangentDefined(k, t, mu.thread) && Coefficient(k, t, mu, bearingDiameter) > 0.0
  {
    if !BelowRightAngle(k, t, mu.thread) { return; }
    RightAngle(k, t, mu.thread);
    CoefficientSign(k, t, mu.thread, bearingDiameter);
    Scale(0.0, mu.bearing, bearingDiameter / 2.0);
  }

  /** More friction, on the thread or under the head, means strictly more torque per unit of preload. */
  lemma CoefficientIncreases(k: Constants, t: Thread, mu: Friction, nu: Friction, bearingDiameter: real)
    requires t.pitchDiameter > 0.0 && t.pitch > 0.0 && bearingDiameter > 0.0
    requires BelowRightAngle(k, t, nu.thread)
    requires mu.thread <= nu.thread && mu.bearing <= nu.bearing && mu != nu
    ensures BelowRightAngle(k, t, mu.thread)
    ensures TangentDefined(k, t, mu.thread) && TangentDefined(k, t, nu.thread)
    ensures Coefficient(k, t, mu, bearingDiameter) < Coefficient(k, t, nu, bearingDiameter)
  {
    Scale(mu.thread, nu.thread, t.pitch);
    RightAngle(k, t, mu.thread);
    RightAngle(k, t, nu.thread);
    FrictionTangents(k, t, 0.0);
    Scale(mu.bearing, nu.bearing, bearingDiameter / 2.0);
    if mu.thread < nu.thread {
      var a, b, c := TanHelix(k, t), TanRho(k, mu.thread), TanRho(k, nu.thread);
      RhoIncreases(k, mu.thread, nu.thread);
      TanSumMonotone(a, b, c);
      Scale(TanSum(a, b), TanSum(a, c), t.pitchDiameter / 2.0);
    }
  }

  lemma RhoIncreases(k: Constants, mu: real, nu: real)
    requires mu < nu
    ensures TanRho(k, mu) < TanRho(k, nu)
  {
    Quotient(mu, k.cos30);
    Quotient(nu, k.cos30);
    Scale(TanRho(k, mu), TanRho(k, nu), k.cos30);
  }

  /** Pydantic's bounds keep a valid metric thread's friction angle below a right angle. */
  lemma BoundsKeepBelowRightAngle(k: Constants, diameter: real, pitch: real, mu: real)
    requires pitch > 0.0 && MinorDiameter(diameter, pitch) > 0.0 && 0.0 <= mu <= 1.0
    ensures BelowRightAngle(k, Thread(PitchDiameter(diameter, pitch), pitch), mu)
  {
    var d2 := PitchDiameter(diameter, pitch);
    BoundsCore(k.pi, k.cos30, d2, pitch, mu);
  }

  lemma BoundsCore(pi: real, cos30: real, d2: real, pitch: real, mu: real)
    requires pi > 3.1 && cos30 > 0.86 && 0.0 < pitch && 0.577 * pitch < d2 && 0.0 <= mu <= 1.0
    ensures pitch * mu < pi * d2 * cos30
  {
    var x := pi * d2;
    Scale(mu, 1.0, pitch);
    Scale(3.1, pi, d2);
    Scale(0.86, cos30, x);
    assert x > 3.1 * d2 && cos30 * x > 0.86 * x;
    assert pitch * mu <= pitch;
    assert pi * d2 * cos30 == cos30 * x;
  }

  // ------------------------------------------------------------------ round trips

  lemma TorqueRoundTrip(coefficient: real, preload: real, torque: real)
    requires coefficient > 0.0
    ensures PreloadFromTorque(TighteningTorque(preload, coefficient), coefficient) == preload
    ensures TighteningTorque(PreloadFromTorque(torque, coefficient), coefficient) == torque
  {
    var m := TighteningTorque(preload, coefficient);
    Quotient(torque * 1000.0, coefficient);
    Quotient(m * 1000.0, coefficient);
    Scale(PreloadFromTorque(m, coefficient), preload, coefficient);
  }

  /** Torque orders preload and preload orders torque. */
  lemma TorqueOrder(coefficient: real, preload: real, torque: real)
    requires coefficient > 0.0
    ensures TighteningTorque(preload, coefficient) <= torque <==> preload <= PreloadFromTorque(torque, coefficient)
    ensures torque <= TighteningTorque(preload, coefficient) <==> PreloadFromTorque(torque, coefficient) <= preload
  {
    Quotient(torque * 1000.0, coefficient);
    Scale(PreloadFromTorque(torque, coefficient), preload, coefficient);
    Scale(preload, PreloadFromTorque(torque, coefficient), coefficient);
  }

  // --------------------------------------------------------------- evaluate_joint

  datatype JointCheck = JointCheck(preload: real, torqueMin: real, torqueNom: real, torqueMax: real)

  function PreloadFromYield(rp02: real, stressArea: real, ratio: real): real {
    rp02 * stressArea * ratio
  }

  function EvaluateJoint(k: Constants, t: Thread, rp02: real, stressArea: real, ratio: real,
                         low: Friction, nom: Friction, high: Friction, bearingDiameter: real): (c: JointCheck)
    requires t.pitchDiameter > 0.0
    requires TangentDefined(k, t, low.thread) && TangentDefined(k, t, nom.thread) && TangentDefined(k, t, high.thread)
    ensures c.preload == rp02 * stressArea * ratio
    ensures c.torqueMin * 1000.0 == c.preload * Coefficient(k, t, low, bearingDiameter)
    ensures c.torqueNom * 1000.0 == c.preload * Coefficient(k, t, nom, bearingDiameter)
    ensures c.torqueMax * 1000.0 == c.preload * Coefficient(k, t, high, bearingDiameter)
  {
    var f := PreloadFromYield(rp02, stressArea, ratio);
    JointCheck(f, TighteningTorque(f, Coefficient(k, t, low, bearingDiameter)),
               TighteningTorque(f, Coefficient(k, t, nom, bearingDiameter)),
               TighteningTorque(f, Coefficient(k, t, high, bearingDiameter)))
  }

  /** Ordered friction limits give ordered, positive torques; equal torques only for equal friction. */
  lemma JointTorquesOrdered(k: Constants, t: Thread, rp02: real, stressArea: real, ratio: real,
                            low: Friction, nom: Friction, high: Friction, bearingDiameter: real)
    requires t.pitchDiameter > 0.0 && t.pitch > 0.0 && bearingDiameter > 0.0
    requires rp02 > 0.0 && stressArea > 0.0 && ratio > 0.0
    requires 0.0 <= low.thread <= nom.thread <= high.thread && 0.0 <= low.bearing <= nom.bearing <= high.bearing
    ensures BelowRightAngle(k, t, high.thread) ==>
      && TangentDefined(k, t, low.thread) && TangentDefined(k, t, nom.thread) && TangentDefined(k, t, high.thread)
      && var c := EvaluateJoint(k, t, rp02, stressArea, ratio, low, nom, high, bearingDiameter);
         && 0.0 < c.torqueMin <= c.torqueNom <= c.torqueMax
         && (c.torqueMin == c.torqueNom <==> low == nom) && (c.torqueNom == c.torqueMax <==> nom == high)
  {
    if !BelowRightAngle(k, t, high.thread) { return; }
    var f := PreloadFromYield(rp02, stressArea, ratio);
    Scale(0.0, rp02, stressArea);
    Scale(0.0, rp02 * stressArea, ratio);
    CoefficientPositive(k, t, high, bearingDiameter);
    OrderedPair(k, t, f, nom, high, bearingDiameter);
    OrderedPair(k, t, f, low, nom, bearingDiameter);
    CoefficientPositive(k, t, low, bearingDiameter);
    Scale(0.0, f, Coefficient(k, t, low, bearingDiameter));
  }

  lemma OrderedPair(k: Constants, t: Thread, preload: real, mu: Friction, nu: Friction, bearingDiameter: real)
    requires t.pitchDiameter > 0.0 && t.pitch > 0.0 && bearingDiameter > 0.0 && preload > 0.0
    requires mu.thread <= nu.thread && mu.bearing <= nu.bearing && BelowRightAngle(k, t, nu.thread)
    ensures BelowRightAngle(k, t, mu.thread)
    ensures TangentDefined(k, t, mu.thread) && TangentDefined(k, t, nu.thread)
    ensures mu == nu || TighteningTorque(preload, Coefficient(k, t, mu, bearingDiameter))
                        < TighteningTorque(preload, Coefficient(k, t, nu, bearingDiameter))
  {
    RightAngle(k, t, nu.thread);
    if mu != nu {
      CoefficientIncreases(k, t, mu, nu, bearingDiameter);
      var c, d := Coefficient(k, t, mu, bearingDiameter), Coefficient(k, t, nu, bearingDiameter);
      Scale(c, d, preload);
    }
  }
}
