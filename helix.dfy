/** The point of a helix strand once its fade scale is known, shared by the
    evaluators of helix.py (lines 38-42) and thread4.py (lines 44-50). */
module HelixPoint {
  import opened MathLib
  import opened Common

  /** The helix angle after progress t: one full turn per pitch of climb. */
  function HelixAngle(m: Math, pitch: real, heightThreads: real, t: real): real
    requires pitch != 0.0 && heightThreads != 0.0
  {
    2.0 * m.pi / (pitch / heightThreads) * t
  }

  /** The helix point for the given fade scale; both evaluators of helix.py and
      thread4.py compute this once the scale is known. */
  function PointAt(m: Math, radius: real, depth: real, halfHeight: real,
                   pitch: real, heightThreads: real, inset: real,
                   t: real, scale: real): Point3
    requires pitch != 0.0 && heightThreads != 0.0
  {
    var r := radius + depth * scale;
    var a := HelixAngle(m, pitch, heightThreads, t);
    Point3(r * m.sin(-a), r * m.cos(a), heightThreads * t + halfHeight * scale + inset)
  }

  /** A helix point at scale `scale` lies on the cylinder of radius
      radius + depth * scale. */
  lemma PointAtOnCylinder(m: Math, radius: real, depth: real, halfHeight: real,
                          pitch: real, heightThreads: real, inset: real,
                          t: real, scale: real)
    requires Lawful(m)
    requires pitch != 0.0 && heightThreads != 0.0
    ensures var q := PointAt(m, radius, depth, halfHeight, pitch, heightThreads, inset, t, scale);
            RadialSq(q)
            == (radius + depth * scale) * (radius + depth * scale)
  {
    var r := radius + depth * scale;
    var a := HelixAngle(m, pitch, heightThreads, t);
    RotationKeepsRadius(m, r, a);
  }

}

/** The guarded tapering helix of helix.py: a closure over the thread
    dimensions that maps a progress value t to a point (x, y, z). The radial
    offset `threadDepth` and the vertical offset `threadHalfHeight` are scaled
    by a fade that rises with a sine over [0, frac], stays at 1 in the body and
    falls back with a sine over [1 - frac, 1]. */
module Helix {
  import opened MathLib
  import opened Common
  import opened HelixPoint

  datatype Params = Params(
    radius: real,
    pitch: real,
    height: real,
    threadDepth: real,
    threadHalfHeight: real,
    inset: real,
    frac: real)

  /** The height the threads occupy: they start at `inset` and end at height - inset. */
  function HeightThreads(p: Params): real {
    p.height - 2.0 * p.inset
  }

  /** Branch selection of the fade, in the order the source tests it. */
  function FadeRegime(frac: real, t: real): Regime {
    if frac > 0.0 && t <= frac then LeadIn
    else if frac == 0.0 || (t > frac && t < 1.0 - frac) then Body
    else LeadOut
  }

  /** The fade angle; both divisions by `frac` are only reached with frac != 0,
      which is why this function needs no precondition. */
  function FadeAngle(m: Math, frac: real, t: real): real {
    match FadeRegime(frac, t)
    case LeadIn => m.pi / 2.0 * t / frac
    case Body => m.pi / 2.0
    case LeadOut => -((2.0 * m.pi) - (m.pi / 2.0 * (1.0 - t) / frac))
  }

  function FadeScale(m: Math, frac: real, t: real): real {
    m.sin(FadeAngle(m, frac, t))
  }

  /** func(t) of helix.py: the origin unless the height left for the threads
      and the pitch are both positive. */
  function Evaluate(m: Math, p: Params, t: real): (r: Point3)
    ensures !NonDegenerate(p) ==> r == Origin
  {
    var heightThreads := HeightThreads(p);
    if heightThreads > 0.0 && p.pitch > 0.0 then
      PointAt(m, p.radius, p.threadDepth, p.threadHalfHeight, p.pitch, heightThreads,
              p.inset, t, FadeScale(m, p.frac, t))
    else
      Origin
  }

  predicate NonDegenerate(p: Params) {
    HeightThreads(p) > 0.0 && p.pitch > 0.0
  }

  /** Illegal dimensions give the origin for every t. */
  lemma DegenerateIsOrigin(m: Math, p: Params, t: real)
    requires p.height - 2.0 * p.inset <= 0.0 || p.pitch <= 0.0
    ensures Evaluate(m, p, t) == Point3(0.0, 0.0, 0.0)
  {
  }

  /** The branches are exhaustive and ordered: lead-in exactly when frac > 0 and
      t <= frac (so every negative t fades in), the body exactly when frac == 0
      or t lies strictly inside (frac, 1 - frac), and the lead-out otherwise,
      never with frac == 0. */
  lemma RegimeSelection(frac: real, t: real)
    ensures FadeRegime(frac, t) == LeadIn <==> frac > 0.0 && t <= frac
    ensures FadeRegime(frac, t) == Body <==> frac == 0.0 || frac < t < 1.0 - frac
    ensures FadeRegime(frac, t) == LeadOut ==> frac != 0.0 && (t <= frac || 1.0 - frac <= t)
    ensures frac > 0.0 && t < 0.0 ==> FadeRegime(frac, t) == LeadIn
  {
  }

  /** Every non-degenerate point lies on the cylinder of radius
      radius + threadDepth * scale, and its height is the linear climb plus the
      scaled half height, for every t (there is no guard on the range of t). */
  lemma OnFadedCylinder(m: Math, p: Params, t: real)
    requires Lawful(m) && NonDegenerate(p)
    ensures var s := FadeScale(m, p.frac, t);
            var q := Evaluate(m, p, t);
            && RadialSq(q) == (p.radius + p.threadDepth * s) * (p.radius + p.threadDepth * s)
            && q.z == HeightThreads(p) * t + p.threadHalfHeight * s + p.inset
  {
    PointAtOnCylinder(m, p.radius, p.threadDepth, p.threadHalfHeight, p.pitch, HeightThreads(p),
                      p.inset, t, FadeScale(m, p.frac, t));
  }

  /** In the body the scale is exactly 1: the point sits at radius + threadDepth
      and at height heightThreads * t + threadHalfHeight + inset. */
  lemma BodyPoint(m: Math, p: Params, t: real)
    requires Lawful(m) && NonDegenerate(p)
    requires FadeRegime(p.frac, t) == Body
    ensures FadeScale(m, p.frac, t) == 1.0
    ensures var q := Evaluate(m, p, t);
            && RadialSq(q) == (p.radius + p.threadDepth) * (p.radius + p.threadDepth)
            && q.z == HeightThreads(p) * t + p.threadHalfHeight + p.inset
  {
    OnFadedCylinder(m, p, t);
  }

  /** With a fade, the strand starts on the base radius at height `inset`. */
  lemma StartPoint(m: Math, p: Params)
    requires Lawful(m) && NonDegenerate(p)
    requires p.frac > 0.0
    ensures FadeScale(m, p.frac, 0.0) == 0.0
    ensures Evaluate(m, p, 0.0) == Point3(0.0, p.radius, p.inset)
  {
    assert FadeAngle(m, p.frac, 0.0) == 0.0;
    assert HelixAngle(m, p.pitch, HeightThreads(p), 0.0) == 0.0;
  }

  /** With 0 < frac < 1 the strand ends in the lead-out, back on the base radius,
      at height height - inset. */
  lemma EndPoint(m: Math, p: Params)
    requires Lawful(m) && NonDegenerate(p)
    requires 0.0 < p.frac < 1.0
    ensures FadeRegime(p.frac, 1.0) == LeadOut
    ensures FadeScale(m, p.frac, 1.0) == 0.0
    ensures var q := Evaluate(m, p, 1.0);
            RadialSq(q) == p.radius * p.radius && q.z == p.height - p.inset
  {
    assert FadeAngle(m, p.frac, 1.0) == -(2.0 * m.pi);
    OnFadedCylinder(m, p, 1.0);
  }

  /** With no thread depth every sample, whatever t, lies on the base radius. */
  lemma NoDepthStaysOnRadius(m: Math, p: Params, t: real)
    requires Lawful(m) && NonDegenerate(p)
    requires p.threadDepth == 0.0
    ensures RadialSq(Evaluate(m, p, t)) == p.radius * p.radius
  {
    OnFadedCylinder(m, p, t);
  }

  /** With no half height the height is the plain linear climb for every t,
      also far outside [0, 1] (f(100).z == 80.1 for height 1, inset 0.1). */
  lemma NoHalfHeightClimbsLinearly(m: Math, p: Params, t: real)
    requires Lawful(m) && NonDegenerate(p)
    requires p.threadHalfHeight == 0.0
    ensures Evaluate(m, p, t).z == HeightThreads(p) * t + p.inset
  {
  }

  /** The height of a sample does not depend on the radius or the thread depth. */
  lemma HeightIgnoresRadius(m: Math, p: Params, t: real, radius': real, depth': real)
    ensures Evaluate(m, p, t).z == Evaluate(m, p.(radius := radius', threadDepth := depth'), t).z
  {
  }
}
