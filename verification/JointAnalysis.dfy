/**
 The joint analysis of backend/calculation_engine/joint_analysis.py, on the inputs its endpoint
 accepts: preload, load sharing, the torque window, utilization, coverage and readiness.
 */
module JointAnalysis {
  import opened Options
  import opened Reals
  import opened Torque

  datatype Segment = Segment(length: real, modulus: real, area: real)

  datatype Request = Request(
    diameter: Option<real>, pitch: Option<real>, rp02: Option<real>, ratio: Option<real>, maxRatio: Option<real>,
    muThread: Option<real>, muBearing: Option<real>, bearingDiameter: Option<real>,
    boltSegments: Option<seq<Segment>>, jointSegments: Option<seq<Segment>>, axialLoad: Option<real>,
    minClamp: Option<real>, appliedTorque: Option<real>, failThreshold: Option<real>, warnThreshold: Option<real>)

  predicate Positive(x: Option<real>) {
    x.Some? ==> x.value > 0.0
  }

  predicate AtMostOne(x: Option<real>) {
    x.Some? ==> 0.0 <= x.value <= 1.0
  }

  predicate PositiveSegments(s: Option<seq<Segment>>) {
    s.Some? ==> forall i :: 0 <= i < |s.value| ==>
      s.value[i].length > 0.0 && s.value[i].modulus > 0.0 && s.value[i].area > 0.0
  }

  /** The field bounds of the endpoint's request model. */
  predicate Accepted(x: Request) {
    && Positive(x.diameter) && Positive(x.pitch) && Positive(x.rp02) && Positive(x.bearingDiameter)
    && Positive(x.ratio) && AtMostOne(x.ratio) && Positive(x.maxRatio) && AtMostOne(x.maxRatio)
    && AtMostOne(x.muThread) && AtMostOne(x.muBearing)
    && PositiveSegments(x.boltSegments) && PositiveSegments(x.jointSegments)
    && (x.minClamp.Some? ==> x.minClamp.value >= 0.0)
    && Positive(x.appliedTorque) && Positive(x.failThreshold) && Positive(x.warnThreshold)
  }

  /** Something is given that is below or at the bound, or above it. */
  ghost predicate NotOver(v: Option<real>, bound: real) {
    v.Some? && v.value <= bound
  }

  ghost predicate Over(v: Option<real>, bound: real) {
    v.Some? && v.value > bound
  }

  ghost predicate Negative(v: Option<real>) {
    v.Some? && v.value < 0.0
  }

  ghost predicate SomeSegmentNotPositive(s: Option<seq<Segment>>) {
    s.Some? && exists i ::
      0 <= i < |s.value| && (s.value[i].length <= 0.0 || s.value[i].modulus <= 0.0 || s.value[i].area <= 0.0)
  }

  /** Some figure that is given is not one the request model takes. */
  ghost predicate OutOfBounds(x: Request) {
    || NotOver(x.diameter, 0.0) || NotOver(x.pitch, 0.0) || NotOver(x.rp02, 0.0) || NotOver(x.bearingDiameter, 0.0)
    || NotOver(x.ratio, 0.0) || Over(x.ratio, 1.0) || NotOver(x.maxRatio, 0.0) || Over(x.maxRatio, 1.0)
    || Negative(x.muThread) || Over(x.muThread, 1.0) || Negative(x.muBearing) || Over(x.muBearing, 1.0)
    || Negative(x.minClamp) || NotOver(x.appliedTorque, 0.0)
    || NotOver(x.failThreshold, 0.0) || NotOver(x.warnThreshold, 0.0)
    || SomeSegmentNotPositive(x.boltSegments) || SomeSegmentNotPositive(x.jointSegments)
  }

  lemma AcceptedExactly(x: Request)
    ensures Accepted(x) <==> !OutOfBounds(x)
  {
  }

  datatype Loads = Loads(
    stressArea: Option<real>, preload: Option<real>, boltStiffness: Option<real>, jointStiffness: Option<real>,
    phi: Option<real>, loadIncrease: Option<real>, residual: Option<real>)

  datatype Window = Window(min: Option<real>, max: Option<real>)

  datatype Advice = Advice(recommended: Option<real>, fromApplied: Option<real>)

  datatype Safety = Safety(status: SafetyStatus, utilization: Option<real>, factor: Option<real>)

  datatype Finding = ClampLost | WindowInverted | OverUtilized

  datatype SafetyStatus = Pass | Warn | Fail | NotEvaluable | InvalidInput | MissingInput

  datatype Readiness = InsufficientData | Partial | TorqueWindowPartial | Full

  datatype Analysis = Analysis(loads: Loads, window: Window, inverted: bool, advice: Advice, safety: Safety,
                               critical: seq<Finding>, evaluated: nat, readiness: Readiness)

  datatype Outcome = Analysed(analysis: Analysis) | PitchTooLarge | Malformed

  // ------------------------------------------------------------------- stiffness

  function Compliance(s: seq<Segment>): real
    requires forall i :: 0 <= i < |s| ==> s[i].modulus > 0.0 && s[i].area > 0.0
  {
    if s == [] then 0.0
    else
      var last := s[|s| - 1];
      Positivity(last.modulus, last.area);
      Compliance(s[..|s| - 1]) + last.length / (last.modulus * last.area)
  }

  /** One spring's compliance is length over modulus times area, and springs in series add theirs. */
  lemma {:induction false} ComplianceAdds(s: seq<Segment>, last: Segment)
    requires forall i :: 0 <= i < |s| ==> s[i].modulus > 0.0 && s[i].area > 0.0
    requires last.modulus > 0.0 && last.area > 0.0
    ensures Compliance([]) == 0.0
    ensures (Compliance(s + [last]) - Compliance(s)) * (last.modulus * last.area) == last.length
  {
    assert (s + [last])[..|s|] == s;
    Positivity(last.modulus, last.area);
    Quotient(last.length, last.modulus * last.area);
  }

  lemma Positivity(x: real, y: real)
    requires x > 0.0 && y > 0.0
    ensures x * y > 0.0
  {
  }

  /** The stiffness belongs to these segments: together with their compliance it makes one. */
  ghost predicate StiffnessIs(s: Option<seq<Segment>>, c: Option<real>)
    requires PositiveSegments(s)
  {
    && (c.Some? <==> s.Some? && s.value != [])
    && (c.Some? ==> c.value > 0.0 && c.value * Compliance(s.value) == 1.0)
  }

  /** Series springs: the stiffness is the reciprocal of the summed compliances; None without segments. */
  method SeriesStiffness(s: Option<seq<Segment>>) returns (c: Option<real>)
    requires PositiveSegments(s)
    ensures StiffnessIs(s, c)
  {
    if s.None? || s.value == [] {
      return None;
    }
    var total := 0.0;
    for i := 0 to |s.value|
      invariant total == Compliance(s.value[..i])
      invariant i > 0 ==> total > 0.0
    {
      var segment := s.value[i];
      assert s.value[..i + 1][..i] == s.value[..i];
      Positivity(segment.modulus, segment.area);
      Quotient(segment.length, segment.modulus * segment.area);
      total := total + segment.length / (segment.modulus * segment.area);
    }
    assert s.value[..|s.value|] == s.value;
    Quotient(1.0, total);
    c := Some(1.0 / total);
  }

  // ------------------------------------------------------------------ torque inputs

  predicate GeometryReady(x: Request) {
    x.diameter.Some? && x.pitch.Some? && x.muThread.Some? && x.muBearing.Some? && x.bearingDiameter.Some?
  }

  predicate ThreadValid(x: Request) {
    x.diameter.Some? && x.pitch.Some? ==> MinorDiameter(x.diameter.value, x.pitch.value) > 0.0
  }

  /** Which figure of the request enters the coefficient where, with nothing left to divide by. */
  ghost predicate CoefficientBalances(k: Constants, x: Request, c: real)
    requires GeometryReady(x)
  {
    var p, mu := x.pitch.value, x.muThread.value;
    var d2 := x.diameter.value - 0.6495 * p;
    var arm := c - x.muBearing.value * x.bearingDiameter.value / 2.0;
    && p * mu < k.pi * d2 * k.cos30
    && 2.0 * arm * (k.pi * d2 * k.cos30 - p * mu) == d2 * (p * k.cos30 + mu * (k.pi * d2))
  }

  /** The torque coefficient of an accepted request with a valid thread: the guard against zero never fires. */
  function TorqueCoefficient(k: Constants, x: Request): (c: real)
    requires Accepted(x) && ThreadValid(x) && GeometryReady(x)
    ensures c > 0.0 && CoefficientBalances(k, x, c)
  {
    var t := Thread(PitchDiameter(x.diameter.value, x.pitch.value), x.pitch.value);
    var mu := Friction(x.muThread.value, x.muBearing.value);
    BoundsKeepBelowRightAngle(k, x.diameter.value, x.pitch.value, mu.thread);
    CoefficientPositive(k, t, mu, x.bearingDiameter.value);
    CoefficientBalance(k, t, mu, x.bearingDiameter.value);
    Coefficient(k, t, mu, x.bearingDiameter.value)
  }

  function AxialLoad(x: Request): real {
    if x.axialLoad.Some? then x.axialLoad.value else 0.0
  }

  function ResidualClampLoad(preload: real, phi: real, axialLoad: real): real {
    preload - (1.0 - phi) * axialLoad
  }

  function BoltForce(preload: real, phi: real, axialLoad: real): real {
    preload + phi * axialLoad
  }

  // ------------------------------------------------- what the figures mean

  /** Torque `m` leaves the required clamp load; the axial load only counts when phi is known. */
  ghost predicate MeetsClamp(x: Request, phi: Option<real>, c: real, m: real)
    requires x.minClamp.Some? && c > 0.0
  {
    x.minClamp.value <= PreloadFromTorque(m, c)
      - if phi.Some? && x.axialLoad.Some? then (1.0 - phi.value) * x.axialLoad.value else 0.0
  }

  /** Torque `m` keeps the preload within the permitted share of the yield load. */
  ghost predicate MeetsLimit(x: Request, area: real, c: real, m: real)
    requires x.rp02.Some? && x.maxRatio.Some? && c > 0.0
  {
    PreloadFromTorque(m, c) <= x.rp02.value * area * x.maxRatio.value
  }

  /** The stress area is that of the circle halfway between pitch and minor diameter. */
  ghost predicate AreaIs(k: Constants, diameter: real, pitch: real, area: real) {
    var twice := 2.0 * diameter - (0.6495 + 1.2269) * pitch;
    area > 0.0 && 16.0 * area == k.pi * (twice * twice)
  }

  ghost predicate PreloadIs(k: Constants, x: Request, area: Option<real>, preload: Option<real>) {
    && (area.Some? <==> x.diameter.Some? && x.pitch.Some?)
    && (area.Some? ==> AreaIs(k, x.diameter.value, x.pitch.value, area.value))
    && (preload.Some? <==> area.Some? && x.rp02.Some? && x.ratio.Some?)
    && (preload.Some? ==> preload.value == x.rp02.value * area.value * x.ratio.value)
  }

  /** Phi is the bolt's share of the stiffness. */
  ghost predicate PhiShares(cb: Option<real>, cc: Option<real>, phi: Option<real>) {
    && (phi.Some? <==> cb.Some? && cc.Some?)
    && (phi.Some? ==> 0.0 < phi.value < 1.0 && phi.value * (cb.value + cc.value) == cb.value)
  }

  /** The bolt takes the share phi of the axial load, and bolt and clamp together balance it. */
  ghost predicate LoadSharing(x: Request, preload: Option<real>, phi: Option<real>, loadIncrease: Option<real>,
                              residual: Option<real>)
  {
    && (residual.Some? <==> phi.Some? && preload.Some?)
    && (loadIncrease.Some? <==> residual.Some?)
    && (residual.Some? && x.axialLoad.None? ==> loadIncrease.value == 0.0 && residual.value == preload.value)
    && (residual.Some? && x.axialLoad.Some? ==>
          && loadIncrease.value == phi.value * x.axialLoad.value
          && (preload.value + loadIncrease.value) - residual.value == x.axialLoad.value)
  }

  ghost predicate LoadsExplained(k: Constants, x: Request, l: Loads)
    requires Accepted(x)
  {
    && PreloadIs(k, x, l.stressArea, l.preload) && PhiShares(l.boltStiffness, l.jointStiffness, l.phi)
    && LoadSharing(x, l.preload, l.phi, l.loadIncrease, l.residual)
    && StiffnessIs(x.boltSegments, l.boltStiffness) && StiffnessIs(x.jointSegments, l.jointStiffness)
  }

  /** A torque reaches the lower bound exactly when it meets the clamp demand; `g` is the coefficient, if known. */
  ghost predicate MinExact(g: Option<real>, x: Request, l: Loads, min: Option<real>)
    requires Positive(g)
  {
    && (min.Some? <==> g.Some? && x.minClamp.Some?)
    && (min.Some? ==> forall m: real :: min.value <= m <==> MeetsClamp(x, l.phi, g.value, m))
  }

  ghost predicate MaxExact(g: Option<real>, x: Request, l: Loads, max: Option<real>)
    requires Positive(g)
  {
    && (max.Some? <==> g.Some? && x.rp02.Some? && x.maxRatio.Some?)
    && (g.Some? ==> l.stressArea.Some?)
    && (max.Some? ==> forall m: real :: m <= max.value <==> MeetsLimit(x, l.stressArea.value, g.value, m))
  }

  /** So a torque is in the window exactly when it meets both demands. */
  ghost predicate WindowExact(g: Option<real>, x: Request, l: Loads, w: Window)
    requires Positive(g)
  {
    MinExact(g, x, l, w.min) && MaxExact(g, x, l, w.max)
  }

  /** The "inverted" finding says that no torque meets both demands. */
  ghost predicate NoTorqueMeetsBoth(g: Option<real>, x: Request, l: Loads)
    requires Positive(g)
  {
    && g.Some? && x.minClamp.Some? && x.rp02.Some? && l.stressArea.Some? && x.maxRatio.Some?
    && forall m: real :: !(MeetsClamp(x, l.phi, g.value, m) && MeetsLimit(x, l.stressArea.value, g.value, m))
  }

  /** The recommended torque gives the target preload, and lies in the window as that preload demands. */
  ghost predicate RecommendationExact(g: Option<real>, x: Request, l: Loads, w: Window, torque: Option<real>)
    requires Positive(g)
  {
    && (torque.Some? <==> g.Some? && l.preload.Some?)
    && (torque.Some? ==> torque.value * 1000.0 == l.preload.value * g.value)
    && (torque.Some? && w.min.Some? && l.residual.Some? && x.minClamp.Some? ==>
          (w.min.value <= torque.value <==> x.minClamp.value <= l.residual.value))
    && (torque.Some? && w.max.Some? && x.ratio.Some? && x.maxRatio.Some? ==>
          (torque.value <= w.max.value <==> x.ratio.value <= x.maxRatio.value))
  }

  /** And the implied preload is the one that takes the applied torque. */
  ghost predicate AdviceExact(g: Option<real>, x: Request, l: Loads, w: Window, a: Advice)
    requires Positive(g)
  {
    && RecommendationExact(g, x, l, w, a.recommended)
    && (a.fromApplied.Some? <==> g.Some? && x.appliedTorque.Some?)
    && (a.fromApplied.Some? ==> a.fromApplied.value * g.value == x.appliedTorque.value * 1000.0)
  }

  /** The stress the safety figures are about: of the service force when phi is known. */
  function Stress(l: Loads): Option<real> {
    if l.stressArea.None? || l.stressArea.value == 0.0 || l.preload.None? then None
    else if l.loadIncrease.Some? then Some((l.preload.value + l.loadIncrease.value) / l.stressArea.value)
    else Some(l.preload.value / l.stressArea.value)
  }

  predicate Given(stress: Option<real>, limit: Option<real>, fail: Option<real>) {
    stress.Some? && limit.Some? && fail.Some?
  }

  /** No negative stress, positive limits, and a warning threshold, if any, below the failing one. */
  predicate InRange(stress: Option<real>, limit: Option<real>, fail: Option<real>, warn: Option<real>) {
    && Given(stress, limit, fail)
    && stress.value >= 0.0 && limit.value > 0.0 && fail.value > 0.0
    && (warn.Some? ==> 0.0 < warn.value < fail.value)
  }

  /** `evaluate_safety`: a verdict exactly on complete evidence and inputs that are given and in range. */
  function EvaluateSafety(stress: Option<real>, limit: Option<real>, fail: Option<real>, warn: Option<real>,
                          evidenceComplete: bool): (r: (SafetyStatus, Option<real>))
    ensures r.0.MissingInput? <==> !Given(stress, limit, fail)
    ensures r.0.InvalidInput? <==> Given(stress, limit, fail) && !InRange(stress, limit, fail, warn)
    ensures r.0.NotEvaluable? <==> InRange(stress, limit, fail, warn) && !evidenceComplete
    ensures r.1.Some? <==> InRange(stress, limit, fail, warn) && evidenceComplete
    ensures r.1.Some? ==> r.1.value * limit.value == stress.value
    ensures r.1.Some? ==> (r.0.Fail? <==> r.1.value > fail.value)
    ensures r.1.Some? && !r.0.Fail? ==> (r.0.Warn? <==> warn.Some? && r.1.value > warn.value)
  {
    if stress.None? || limit.None? || fail.None? then (MissingInput, None)
    else if stress.value < 0.0 || limit.value <= 0.0 || fail.value <= 0.0 then (InvalidInput, None)
    else if warn.Some? && (warn.value <= 0.0 || warn.value >= fail.value) then (InvalidInput, None)
    else if !evidenceComplete then (NotEvaluable, None)
    else
      var u := stress.value / limit.value;
      Quotient(stress.value, limit.value);
      if u > fail.value then (Fail, Some(u))
      else if warn.Some? && u > warn.value then (Warn, Some(u))
      else (Pass, Some(u))
  }

  function One(x: Option<real>): (n: nat)
    ensures n <= 1 && (n == 1 <==> x.Some?)
  {
    if x.Some? then 1 else 0
  }

  function CountEvaluated(l: Loads, w: Window, a: Advice, s: Safety): nat {
    One(l.stressArea) + One(l.preload) + One(l.boltStiffness) + One(l.jointStiffness) + One(l.phi)
    + One(l.loadIncrease) + One(l.residual) + One(a.recommended) + One(a.fromApplied)
    + One(w.min) + One(w.max) + One(s.utilization) + One(s.factor)
  }

  // -------------------------------------------------------------- lemmas for the steps

  lemma LowerBound(c: real, required: real, torqueMin: real)
    requires c > 0.0 && torqueMin == TighteningTorque(required, c)
    ensures forall m: real :: torqueMin <= m <==> required <= PreloadFromTorque(m, c)
  {
    forall m: real ensures torqueMin <= m <==> required <= PreloadFromTorque(m, c) { TorqueOrder(c, required, m); }
  }

  lemma UpperBound(c: real, permitted: real, torqueMax: real)
    requires c > 0.0 && torqueMax == TighteningTorque(permitted, c)
    ensures forall m: real :: m <= torqueMax <==> PreloadFromTorque(m, c) <= permitted
  {
    forall m: real ensures m <= torqueMax <==> PreloadFromTorque(m, c) <= permitted { TorqueOrder(c, permitted, m); }
  }

  lemma InvertedExactly(g: Option<real>, x: Request, l: Loads, w: Window)
    requires Positive(g) && WindowExact(g, x, l, w)
    ensures w.min.Some? && w.max.Some? && w.min.value > w.max.value <==> NoTorqueMeetsBoth(g, x, l)
  {
    if w.min.Some? && w.max.Some? && w.min.value <= w.max.value {
      assert MeetsClamp(x, l.phi, g.value, w.min.value) && MeetsLimit(x, l.stressArea.value, g.value, w.min.value);
    }
  }

  lemma RecommendedAboveMin(x: Request, l: Loads, c: real, torque: real)
    requires c > 0.0 && l.residual.Some? && x.minClamp.Some?
    requires LoadSharing(x, l.preload, l.phi, l.loadIncrease, l.residual)
    requires PreloadFromTorque(torque, c) == l.preload.value
    ensures MeetsClamp(x, l.phi, c, torque) <==> x.minClamp.value <= l.residual.value
  {
  }

  lemma RecommendedBelowMax(x: Request, area: real, c: real, torque: real)
    requires c > 0.0 && area > 0.0 && x.rp02.Some? && x.rp02.value > 0.0 && x.ratio.Some? && x.maxRatio.Some?
    requires PreloadFromTorque(torque, c) == x.rp02.value * area * x.ratio.value
    ensures MeetsLimit(x, area, c, torque) <==> x.ratio.value <= x.maxRatio.value
  {
    RatiosOrder(x.rp02.value, area, x.ratio.value, x.maxRatio.value);
  }

  lemma RecommendedInWindow(k: Constants, c: real, x: Request, l: Loads, w: Window, torque: real)
    requires Accepted(x) && c > 0.0 && WindowExact(Some(c), x, l, w) && LoadsExplained(k, x, l)
    requires l.preload.Some? && PreloadFromTorque(torque, c) == l.preload.value
    ensures w.min.Some? && l.residual.Some? ==> (w.min.value <= torque <==> x.minClamp.value <= l.residual.value)
    ensures w.max.Some? ==> (torque <= w.max.value <==> x.ratio.value <= x.maxRatio.value)
  {
    if w.min.Some? && l.residual.Some? { RecommendedAboveMin(x, l, c, torque); }
    if w.max.Some? { RecommendedBelowMax(x, l.stressArea.value, c, torque); }
  }

  lemma RatiosOrder(rp02: real, area: real, ratio: real, maxRatio: real)
    requires rp02 > 0.0 && area > 0.0
    ensures rp02 * area * ratio <= rp02 * area * maxRatio <==> ratio <= maxRatio
  {
    Positivity(rp02, area);
    Scale(maxRatio, ratio, rp02 * area);
  }

  function StressArea(k: Constants, diameter: real, pitch: real): (a: real)
    requires diameter > 0.0 && pitch > 0.0 && MinorDiameter(diameter, pitch) > 0.0
    ensures AreaIs(k, diameter, pitch, a)
  {
    var mean := (PitchDiameter(diameter, pitch) + MinorDiameter(diameter, pitch)) / 2.0;
    Positivity(mean, mean);
    Positivity(k.pi / 4.0, mean * mean);
    MeanTwice(k.pi, mean, 2.0 * diameter - (0.6495 + 1.2269) * pitch);
    k.pi / 4.0 * (mean * mean)
  }

  lemma MeanTwice(pi: real, mean: real, twice: real)
    requires 2.0 * mean == twice
    ensures 16.0 * (pi / 4.0 * (mean * mean)) == pi * (twice * twice)
  {
    assert twice * twice == 4.0 * (mean * mean);
    Rescale(pi, mean * mean, twice * twice);
  }

  lemma Rescale(pi: real, a: real, b: real)
    requires b == 4.0 * a
    ensures 16.0 * (pi / 4.0 * a) == pi * b
  {
  }

  lemma PhiShare(cb: real, cc: real)
    requires cb > 0.0 && cc > 0.0
    ensures 0.0 < cb / (cb + cc) < 1.0 && cb / (cb + cc) * (cb + cc) == cb
  {
    Quotient(cb, cb + cc);
    Scale(cb / (cb + cc), 1.0, cb + cc);
  }

  // --------------------------------------------------------------------- the analysis

  /** Stress area and target preload. */
  method TargetPreload(k: Constants, x: Request) returns (l: Loads)
    requires Accepted(x) && ThreadValid(x)
    ensures PreloadIs(k, x, l.stressArea, l.preload)
  {
    l := Loads(None, None, None, None, None, None, None);
    if x.diameter.Some? && x.pitch.Some? {
      l := l.(stressArea := Some(StressArea(k, x.diameter.value, x.pitch.value)));
    }
    if l.stressArea.Some? && x.rp02.Some? && x.ratio.Some? {
      l := l.(preload := Some(PreloadFromYield(x.rp02.value, l.stressArea.value, x.ratio.value)));
    }
  }

  method LoadFactor(cb: Option<real>, cc: Option<real>) returns (phi: Option<real>)
    requires Positive(cb) && Positive(cc)
    ensures PhiShares(cb, cc, phi)
  {
    phi := None;
    if cb.Some? && cc.Some? {
      PhiShare(cb.value, cc.value);
      phi := Some(cb.value / (cb.value + cc.value));
    }
  }

  /** Stress area, target preload, stiffness, phi, and the sharing of the axial load. */
  method LoadFigures(k: Constants, x: Request) returns (l: Loads)
    requires Accepted(x) && ThreadValid(x)
    ensures LoadsExplained(k, x, l)
  {
    l := TargetPreload(k, x);
    var cb := SeriesStiffness(x.boltSegments);
    var cc := SeriesStiffness(x.jointSegments);
    var phi := LoadFactor(cb, cc);
    var loadIncrease, residual := ShareLoad(x, l.preload, phi);
    l := Loads(l.stressArea, l.preload, cb, cc, phi, loadIncrease, residual);
  }

  /** The bolt's share of the axial load and what is left of the clamp. */
  method ShareLoad(x: Request, preload: Option<real>, phi: Option<real>)
    returns (loadIncrease: Option<real>, residual: Option<real>)
    ensures LoadSharing(x, preload, phi, loadIncrease, residual)
  {
    loadIncrease, residual := None, None;
    if phi.Some? && preload.Some? {
      var service := BoltForce(preload.value, phi.value, AxialLoad(x));
      loadIncrease := Some(service - preload.value);
      residual := Some(ResidualClampLoad(preload.value, phi.value, AxialLoad(x)));
      ShareBalances(preload.value, phi.value, AxialLoad(x));
    }
  }

  lemma ShareBalances(preload: real, phi: real, axial: real)
    ensures BoltForce(preload, phi, axial) - ResidualClampLoad(preload, phi, axial) == axial
    ensures BoltForce(preload, phi, 0.0) == preload == ResidualClampLoad(preload, phi, 0.0)
  {
  }

  /** The torque of the least preload that leaves the required clamp. */
  method LeastTorque(g: Option<real>, x: Request, l: Loads) returns (min: Option<real>)
    requires Positive(g)
    ensures MinExact(g, x, l, min)
  {
    min := None;
    if g.Some? && x.minClamp.Some? {
      var required := if l.phi.Some? then x.minClamp.value + (1.0 - l.phi.value) * AxialLoad(x) else x.minClamp.value;
      min := Some(TighteningTorque(required, g.value));
      LowerBound(g.value, required, min.value);
    }
  }

  /** The torque of the greatest permitted preload. */
  method GreatestTorque(g: Option<real>, x: Request, l: Loads) returns (max: Option<real>)
    requires Positive(g) && (g.Some? ==> l.stressArea.Some?)
    ensures MaxExact(g, x, l, max)
  {
    max := None;
    if g.Some? && x.rp02.Some? && x.maxRatio.Some? {
      var permitted := PreloadFromYield(x.rp02.value, l.stressArea.value, x.maxRatio.value);
      max := Some(TighteningTorque(permitted, g.value));
      UpperBound(g.value, permitted, max.value);
    }
  }

  /** The torque window: the torques of the two limiting preloads, and whether they cross. */
  method TorqueWindow(g: Option<real>, x: Request, l: Loads) returns (w: Window, inverted: bool)
    requires Positive(g) && (g.Some? ==> l.stressArea.Some?)
    ensures WindowExact(g, x, l, w)
    ensures inverted <==> NoTorqueMeetsBoth(g, x, l)
  {
    var min := LeastTorque(g, x, l);
    var max := GreatestTorque(g, x, l);
    w := Window(min, max);
    InvertedExactly(g, x, l, w);
    inverted := w.min.Some? && w.max.Some? && w.min.value > w.max.value;
  }

  /** The torque of the target preload. */
  method Recommend(k: Constants, g: Option<real>, x: Request, l: Loads, w: Window) returns (torque: Option<real>)
    requires Accepted(x) && Positive(g) && LoadsExplained(k, x, l) && WindowExact(g, x, l, w)
    ensures RecommendationExact(g, x, l, w, torque)
  {
    torque := None;
    if g.Some? && l.preload.Some? {
      torque := Some(TighteningTorque(l.preload.value, g.value));
      TorqueRoundTrip(g.value, l.preload.value, 0.0);
      RecommendedInWindow(k, g.value, x, l, w, torque.value);
    }
  }

  /** The recommended torque and the preload an applied torque implies. */
  method TorqueAdvice(k: Constants, g: Option<real>, x: Request, l: Loads, w: Window) returns (a: Advice)
    requires Accepted(x) && Positive(g) && LoadsExplained(k, x, l) && WindowExact(g, x, l, w)
    ensures AdviceExact(g, x, l, w, a)
  {
    var recommended := Recommend(k, g, x, l, w);
    var fromApplied: Option<real> := None;
    if g.Some? && x.appliedTorque.Some? {
      fromApplied := Some(PreloadFromTorque(x.appliedTorque.value, g.value));
    }
    a := Advice(recommended, fromApplied);
  }

  ghost predicate SafetyExact(x: Request, l: Loads, s: Safety) {
    && (s.status, s.utilization) == EvaluateSafety(Stress(l), x.rp02, x.failThreshold, x.warnThreshold, true)
    && (s.factor.Some? <==> s.utilization.Some? && s.utilization.value > 0.0)
    && (s.factor.Some? ==> s.factor.value * s.utilization.value == 1.0)
  }

  method SafetyFigures(x: Request, l: Loads) returns (s: Safety)
    ensures SafetyExact(x, l, s)
    ensures s.utilization.Some? <==> InRange(Stress(l), x.rp02, x.failThreshold, x.warnThreshold)
    ensures s.factor.Some? <==> s.utilization.Some? && Stress(l).value > 0.0
  {
    var safety := EvaluateSafety(Stress(l), x.rp02, x.failThreshold, x.warnThreshold, true);
    s := Safety(safety.0, safety.1, None);
    if s.utilization.Some? { Quotient(Stress(l).value, x.rp02.value); }
    if s.utilization.Some? && s.utilization.value > 0.0 {
      Quotient(1.0, s.utilization.value);
      s := s.(factor := Some(1.0 / s.utilization.value));
    }
  }

  /** The findings, the coverage count and the readiness that go with the figures. */
  ghost predicate Summary(x: Request, a: Analysis) {
    && (ClampLost in a.critical <==> a.loads.residual.Some? && a.loads.residual.value < 0.0)
    && (WindowInverted in a.critical <==> a.inverted)
    && (OverUtilized in a.critical <==> a.safety.status.Fail?)
    && a.evaluated == One(a.loads.stressArea) + One(a.loads.preload) + One(a.loads.boltStiffness)
                      + One(a.loads.jointStiffness) + One(a.loads.phi) + One(a.loads.loadIncrease)
                      + One(a.loads.residual) + One(a.advice.recommended) + One(a.advice.fromApplied)
                      + One(a.window.min) + One(a.window.max) + One(a.safety.utilization) + One(a.safety.factor)
    && (a.readiness.InsufficientData? <==> a.evaluated == 0)
    && (a.readiness.Full? <==> a.window.min.Some? && a.window.max.Some? && a.safety.utilization.Some?)
    && (a.readiness.TorqueWindowPartial? <==>
          !a.readiness.Full? && (a.window.min.Some? || a.window.max.Some?))
    && (a.readiness.Partial? <==> a.evaluated > 0 && a.window.min.None? && a.window.max.None?)
  }

  method Summarise(x: Request, l: Loads, w: Window, inverted: bool, advice: Advice, safety: Safety)
    returns (a: Analysis)
    ensures a.loads == l && a.window == w && a.inverted == inverted && a.advice == advice && a.safety == safety
    ensures Summary(x, a)
  {
    var critical: seq<Finding> := [];
    if l.residual.Some? && l.residual.value < 0.0 {
      critical := critical + [ClampLost];
    }
    if inverted {
      critical := critical + [WindowInverted];
    }
    if safety.status.Fail? {
      critical := critical + [OverUtilized];
    }
    var evaluated := CountEvaluated(l, w, advice, safety);
    var readiness :=
      if evaluated == 0 then InsufficientData
      else if w.min.Some? && w.max.Some? && safety.utilization.Some? then Full
      else if w.min.Some? || w.max.Some? then TorqueWindowPartial
      else Partial;
    a := Analysis(l, w, inverted, advice, safety, critical, evaluated, readiness);
  }

  /** What the safety figures say of the request: the stress of the service load against the yield limit. */
  ghost predicate SafetyMeans(x: Request, l: Loads, s: Safety) {
    var service := if l.preload.None? then 0.0
                   else l.preload.value + if l.loadIncrease.Some? then l.loadIncrease.value else 0.0;
    && (s.utilization.Some? <==>
          && l.preload.Some? && x.failThreshold.Some? && service >= 0.0
          && (x.warnThreshold.Some? ==> x.warnThreshold.value < x.failThreshold.value))
    && (s.utilization.Some? ==>
          && x.rp02.Some? && l.stressArea.Some?
          && s.utilization.value * (x.rp02.value * l.stressArea.value) == service)
    && (s.status.Fail? <==> s.utilization.Some? && s.utilization.value > x.failThreshold.value)
    && (s.status.Warn? <==>
          && s.utilization.Some? && x.warnThreshold.Some?
          && x.warnThreshold.value < s.utilization.value <= x.failThreshold.value)
    && (s.status.MissingInput? <==> l.preload.None? || x.failThreshold.None?)
    && (s.factor.Some? <==> s.utilization.Some? && s.utilization.value > 0.0)
    && (s.factor.Some? ==> s.factor.value * s.utilization.value == 1.0)
  }

  lemma StressIs(l: Loads, service: real)
    requires l.stressArea.Some? && l.stressArea.value > 0.0 && l.preload.Some?
    requires service == l.preload.value + if l.loadIncrease.Some? then l.loadIncrease.value else 0.0
    ensures Stress(l).Some? && Stress(l).value * l.stressArea.value == service
    ensures Stress(l).value >= 0.0 <==> service >= 0.0
  {
    Quotient(service, l.stressArea.value);
    Quotient(-service, l.stressArea.value);
    assert -service / l.stressArea.value == -(service / l.stressArea.value);
  }

  lemma AreaKnown(k: Constants, x: Request, l: Loads)
    requires PreloadIs(k, x, l.stressArea, l.preload) && l.preload.Some?
    ensures l.stressArea.Some? && l.stressArea.value > 0.0 && x.rp02.Some?
  {
  }

  lemma SafetyExplained(k: Constants, x: Request, l: Loads, s: Safety)
    requires Accepted(x) && PreloadIs(k, x, l.stressArea, l.preload) && SafetyExact(x, l, s)
    ensures SafetyMeans(x, l, s)
  {
    if l.preload.Some? {
      AreaKnown(k, x, l);
      StressIs(l, l.preload.value + if l.loadIncrease.Some? then l.loadIncrease.value else 0.0);
      StressKnown(x, l, s, Stress(l).value);
    } else {
      NoStress(x, l, s);
    }
  }

  lemma NoStress(x: Request, l: Loads, s: Safety)
    requires l.preload.None? && SafetyExact(x, l, s)
    ensures SafetyMeans(x, l, s)
  {
    assert Stress(l).None?;
  }

  lemma StressKnown(x: Request, l: Loads, s: Safety, stress: real)
    requires l.preload.Some? && x.rp02.Some? && x.rp02.value > 0.0
    requires Positive(x.failThreshold) && Positive(x.warnThreshold)
    requires l.stressArea.Some? && Stress(l) == Some(stress) && SafetyExact(x, l, s)
    requires var service := l.preload.value + if l.loadIncrease.Some? then l.loadIncrease.value else 0.0;
      stress * l.stressArea.value == service && (stress >= 0.0 <==> service >= 0.0)
    ensures SafetyMeans(x, l, s)
  {
    if s.utilization.Some? { Regroup(s.utilization.value, x.rp02.value, l.stressArea.value, stress); }
  }

  lemma Regroup(u: real, limit: real, area: real, stress: real)
    requires u * limit == stress
    ensures u * (limit * area) == stress * area
  {
  }

  /** The coefficient when the request has all it takes. */
  ghost predicate CoefficientIs(k: Constants, x: Request, g: Option<real>) {
    && Positive(g)
    && (g.Some? <==> x.diameter.Some? && x.pitch.Some? && x.muThread.Some? && x.muBearing.Some?
                     && x.bearingDiameter.Some?)
    && (g.Some? ==> CoefficientBalances(k, x, g.value))
  }

  function Coefficients(k: Constants, x: Request): (g: Option<real>)
    requires Accepted(x) && ThreadValid(x)
    ensures CoefficientIs(k, x, g)
  {
    if GeometryReady(x) then Some(TorqueCoefficient(k, x)) else None
  }

  /** `analyze_joint`: it fails only for a pitch too large for its diameter. */
  method AnalyzeJoint(k: Constants, x: Request) returns (r: Outcome)
    ensures r.Malformed? <==> OutOfBounds(x)
    ensures r.PitchTooLarge? <==>
      !OutOfBounds(x) && x.diameter.Some? && x.pitch.Some? && x.diameter.value - 1.2269 * x.pitch.value <= 0.0
    ensures r.Analysed? ==> Accepted(x)
    ensures r.Analysed? ==> CoefficientIs(k, x, Coefficients(k, x))
    ensures r.Analysed? ==> LoadsExplained(k, x, r.analysis.loads)
    ensures r.Analysed? ==> WindowExact(Coefficients(k, x), x, r.analysis.loads, r.analysis.window)
    ensures r.Analysed? ==> (r.analysis.inverted <==> NoTorqueMeetsBoth(Coefficients(k, x), x, r.analysis.loads))
    ensures r.Analysed? ==> AdviceExact(Coefficients(k, x), x, r.analysis.loads, r.analysis.window, r.analysis.advice)
    ensures r.Analysed? ==> SafetyMeans(x, r.analysis.loads, r.analysis.safety) && Summary(x, r.analysis)
  {
    AcceptedExactly(x);
    if !Accepted(x) {
      return Malformed;
    }
    if x.diameter.Some? && x.pitch.Some? && MinorDiameter(x.diameter.value, x.pitch.value) <= 0.0 {
      return PitchTooLarge;
    }
    var g := Coefficients(k, x);
    var loads := LoadFigures(k, x);
    var window, inverted := TorqueWindow(g, x, loads);
    var advice := TorqueAdvice(k, g, x, loads, window);
    var safety := SafetyFigures(x, loads);
    SafetyExplained(k, x, loads, safety);
    var analysis := Summarise(x, loads, window, inverted, advice, safety);
    r := Analysed(analysis);
  }
}
