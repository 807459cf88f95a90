/** The converging helix of convergingHelix.py: like the guarded helix, but the
    progress range is [firstT, lastT], the fade length is `cvrgFactor`, and the
    guard only asks for a non-zero height and pitch. */
module ConvergingHelix {
  import opened MathLib
  import opened Common
  import opened HelixPoint

  datatype Params = Params(
    radius: real,
    pitch: real,
    height: real,
    inset: real,
    cvrgFactor: real,
    horzOffset: real,
    vertOffset: real,
    firstT: real,
    lastT: real)

  /** The height the helix climbs: it starts at `inset` and ends at height - inset. */
  function HeightHelix(p: Params): real {
    p.height - 2.0 * p.inset
  }

  /** The guard of func(t): every other combination returns the origin. */
  predicate Legal(p: Params, t: real) {
    && HeightHelix(p) != 0.0
    && p.pitch != 0.0
    && p.firstT <= t <= p.lastT
    && p.firstT <= p.cvrgFactor <= p.lastT
  }

  /** Branch selection of the fade, in the order the source tests it. */
  function FadeRegime(p: Params, t: real): Regime {
    if p.cvrgFactor > p.firstT && t <= p.cvrgFactor then LeadIn
    else if p.cvrgFactor == 0.0 || (p.cvrgFactor < t < p.lastT - p.cvrgFactor) then Body
    else LeadOut
  }

  /** func(t) of convergingHelix.py. The lead-in divides by `cvrgFactor` and
      raises when it is 0; the lead-out only runs with a non-zero `cvrgFactor`. */
  function Evaluate(m: Math, p: Params, t: real): (r: Sample)
    ensures !Legal(p, t) ==> r == Point(Origin)
    ensures r == ZeroDivision <==> Legal(p, t) && FadeRegime(p, t) == LeadIn && p.cvrgFactor == 0.0
  {
    if !Legal(p, t) then Point(Origin)
    else
      var scale: Option<real> :=
        match FadeRegime(p, t)
        case LeadIn =>
          if p.cvrgFactor == 0.0 then None else Some(m.sin(m.pi / 2.0 * t / p.cvrgFactor))
        case Body => Some(m.sin(m.pi / 2.0))
        case LeadOut =>
          Some(m.sin(-((2.0 * m.pi) - (m.pi / 2.0 * (p.lastT - t) / p.cvrgFactor))));
      if scale.None? then ZeroDivision
      else Point(PointAt(m, p.radius, p.horzOffset, p.vertOffset, p.pitch, HeightHelix(p),
                         p.inset, t, scale.value))
  }

  /** Any illegal parameter or progress value gives the origin. */
  lemma IllegalIsOrigin(m: Math, p: Params, t: real)
    requires || HeightHelix(p) == 0.0 || p.pitch == 0.0
             || t < p.firstT || p.lastT < t
             || p.cvrgFactor < p.firstT || p.lastT < p.cvrgFactor
    ensures Evaluate(m, p, t) == Point(Point3(0.0, 0.0, 0.0))
  {
  }

  /** The only reachable division by zero: a legal call with cvrgFactor == 0,
      firstT < 0 and t <= 0 takes the lead-in and divides by cvrgFactor. */
  lemma RaisesIff(m: Math, p: Params, t: real)
    ensures Evaluate(m, p, t) == ZeroDivision
            <==> Legal(p, t) && p.cvrgFactor == 0.0 && p.firstT < 0.0 && t <= 0.0
  {
  }

  /** Lead-in exactly when cvrgFactor > firstT and t <= cvrgFactor; else the body
      exactly when cvrgFactor == 0 or t lies strictly inside
      (cvrgFactor, lastT - cvrgFactor); else the lead-out, never with cvrgFactor == 0. */
  lemma RegimeSelection(p: Params, t: real)
    ensures FadeRegime(p, t) == LeadIn <==> p.cvrgFactor > p.firstT && t <= p.cvrgFactor
    ensures FadeRegime(p, t) == Body
            <==> !(p.cvrgFactor > p.firstT && t <= p.cvrgFactor)
                 && (p.cvrgFactor == 0.0 || p.cvrgFactor < t < p.lastT - p.cvrgFactor)
    ensures FadeRegime(p, t) == LeadOut ==> p.cvrgFactor != 0.0
  {
  }

  /** The fade scale of a legal call that does not raise. */
  function FadeScale(m: Math, p: Params, t: real): real
    requires Legal(p, t) && Evaluate(m, p, t) != ZeroDivision
  {
    match FadeRegime(p, t)
    case LeadIn => m.sin(m.pi / 2.0 * t / p.cvrgFactor)
    case Body => m.sin(m.pi / 2.0)
    case LeadOut => m.sin(-((2.0 * m.pi) - (m.pi / 2.0 * (p.lastT - t) / p.cvrgFactor)))
  }

  /** Every legal sample lies on the cylinder of radius radius + horzOffset * scale
      at height heightHelix * t + vertOffset * scale + inset. */
  lemma OnFadedCylinder(m: Math, p: Params, t: real)
    requires Lawful(m) && Legal(p, t) && Evaluate(m, p, t) != ZeroDivision
    ensures var s := FadeScale(m, p, t);
            var q := Evaluate(m, p, t);
            && q.Point?
            && RadialSq(q.point) == (p.radius + p.horzOffset * s) * (p.radius + p.horzOffset * s)
            && q.point.z == HeightHelix(p) * t + p.vertOffset * s + p.inset
  {
    var s := FadeScale(m, p, t);
    assert Evaluate(m, p, t)
        == Point(PointAt(m, p.radius, p.horzOffset, p.vertOffset, p.pitch, HeightHelix(p), p.inset, t, s));
    PointAtOnCylinder(m, p.radius, p.horzOffset, p.vertOffset, p.pitch, HeightHelix(p), p.inset, t, s);
  }

  /** In the body the scale is 1: radius + horzOffset and
      heightHelix * t + vertOffset + inset. */
  lemma BodyPoint(m: Math, p: Params, t: real)
    requires Lawful(m) && Legal(p, t) && FadeRegime(p, t) == Body
    ensures Evaluate(m, p, t).Point?
    ensures var q := Evaluate(m, p, t).point;
            && RadialSq(q) == (p.radius + p.horzOffset) * (p.radius + p.horzOffset)
            && q.z == HeightHelix(p) * t + p.vertOffset + p.inset
  {
    OnFadedCylinder(m, p, t);
  }

  /** At t == lastT the lead-out angle is -2 pi: the scale is 0, the point is back on
      `radius`, at height heightHelix * lastT + inset. */
  lemma LastPoint(m: Math, p: Params)
    requires Lawful(m) && Legal(p, p.lastT) && FadeRegime(p, p.lastT) == LeadOut
    ensures Evaluate(m, p, p.lastT).Point?
    ensures FadeScale(m, p, p.lastT) == 0.0
    ensures var q := Evaluate(m, p, p.lastT).point;
            && RadialSq(q) == p.radius * p.radius
            && q.z == HeightHelix(p) * p.lastT + p.inset
  {
    assert m.pi / 2.0 * (p.lastT - p.lastT) / p.cvrgFactor == 0.0;
    OnFadedCylinder(m, p, p.lastT);
  }

  /** A fade that is shorter than the range puts t == lastT in the lead-out. */
  lemma LastInLeadOut(p: Params)
    requires HeightHelix(p) != 0.0 && p.pitch != 0.0
    requires p.firstT <= p.cvrgFactor && 0.0 < p.cvrgFactor < p.lastT
    ensures Legal(p, p.lastT) && FadeRegime(p, p.lastT) == LeadOut
  {
  }

  /** With firstT < cvrgFactor and cvrgFactor > 0, t == 0 is in the lead-in with
      fade angle 0, so the point is (0, radius, inset). */
  lemma StartPoint(m: Math, p: Params)
    requires Lawful(m) && Legal(p, 0.0)
    requires p.firstT < p.cvrgFactor && 0.0 < p.cvrgFactor
    ensures Evaluate(m, p, 0.0) == Point(Point3(0.0, p.radius, p.inset))
  {
    assert m.pi / 2.0 * 0.0 / p.cvrgFactor == 0.0;
    assert HelixAngle(m, p.pitch, HeightHelix(p), 0.0) == 0.0;
  }

  /** The guard tests `!= 0`, so a negative height still evaluates: height 0 and
      inset 0.1 give heightHelix == -0.2 and f(0) == (0, 1, 0.1). */
  lemma NegativeHeightEvaluates(m: Math)
    requires Lawful(m)
    ensures var p := Params(1.0, 1.0, 0.0, 0.1, 20.0, 1.0, 1.0, -100.0, 100.0);
            HeightHelix(p) < 0.0 && Evaluate(m, p, 0.0) == Point(Point3(0.0, 1.0, 0.1))
  {
    StartPoint(m, Params(1.0, 1.0, 0.0, 0.1, 20.0, 1.0, 1.0, -100.0, 100.0));
  }

  /** With no horizontal offset every legal sample lies at distance |radius| from
      the axis, in every regime. */
  lemma NoHorzOffsetKeepsRadius(m: Math, p: Params, t: real)
    requires Lawful(m) && Legal(p, t) && Evaluate(m, p, t) != ZeroDivision
    requires p.horzOffset == 0.0
    ensures RadialSq(Evaluate(m, p, t).point) == p.radius * p.radius
  {
    OnFadedCylinder(m, p, t);
  }

  /** With no vertical offset every legal sample climbs linearly. */
  lemma NoVertOffsetClimbsLinearly(m: Math, p: Params, t: real)
    requires Lawful(m) && Legal(p, t) && Evaluate(m, p, t) != ZeroDivision
    requires p.vertOffset == 0.0
    ensures Evaluate(m, p, t).point.z == HeightHelix(p) * t + p.inset
  {
    OnFadedCylinder(m, p, t);
  }
}
