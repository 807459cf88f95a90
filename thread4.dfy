/** thread4.py: an unguarded tapering helix closure that counts its calls in
    the module-global `helixCount`, and threadHelix, which turns the shared
    full-angle profile into 3 or 4 helix wires and the ruled faces between them. */
module Thread4 {
  import opened MathLib
  import opened Common
  import opened HelixPoint
  import Helix
  import opened FullAngleProfile

  /** The arguments of helix(radius, threadDepth, threadHalfHeight, pitch,
      height, inset, frac), in that order; a wire is the curve of one such call. */
  datatype HelixArgs = HelixArgs(
    radius: real,
    threadDepth: real,
    threadHalfHeight: real,
    pitch: real,
    height: real,
    inset: real,
    frac: real)

  function HeightThreads(a: HelixArgs): real {
    a.height - 2.0 * a.inset
  }

  /** func(t) of thread4.py. The fade is the one of helix.py; with no guard the
      angle divides by pitch / heightThreads, which raises when either is 0. */
  function Evaluate(m: Math, a: HelixArgs, t: real): (r: Sample)
    ensures r == ZeroDivision <==> HeightThreads(a) == 0.0 || a.pitch == 0.0
  {
    var heightThreads := HeightThreads(a);
    if heightThreads == 0.0 || a.pitch == 0.0 then ZeroDivision
    else
      Point(PointAt(m, a.radius, a.threadDepth, a.threadHalfHeight, a.pitch, heightThreads,
                    a.inset, t, Helix.FadeScale(m, a.frac, t)))
  }

  /** The call raises exactly when the pitch is 0 or height == 2 * inset. */
  lemma RaisesIff(m: Math, a: HelixArgs, t: real)
    ensures Evaluate(m, a, t) == ZeroDivision <==> a.pitch == 0.0 || a.height == 2.0 * a.inset
  {
  }

  /** Where helix.py's guard lets a call through, both closures give the same
      point. */
  lemma AgreesWithGuardedHelix(m: Math, a: HelixArgs, t: real)
    requires HeightThreads(a) > 0.0 && a.pitch > 0.0
    ensures Evaluate(m, a, t)
            == Point(Helix.Evaluate(m, Helix.Params(a.radius, a.pitch, a.height, a.threadDepth,
                                                    a.threadHalfHeight, a.inset, a.frac), t))
  {
  }

  /** Every call that does not raise lands on the cylinder of radius
      radius + threadDepth * scale at height
      heightThreads * t + threadHalfHeight * scale + inset — also for a negative
      pitch or height, where helix.py returns the origin. */
  lemma OnFadedCylinder(m: Math, a: HelixArgs, t: real)
    requires Lawful(m) && Evaluate(m, a, t) != ZeroDivision
    ensures var s := Helix.FadeScale(m, a.frac, t);
            var q := Evaluate(m, a, t).point;
            && RadialSq(q) == (a.radius + a.threadDepth * s) * (a.radius + a.threadDepth * s)
            && q.z == HeightThreads(a) * t + a.threadHalfHeight * s + a.inset
  {
    PointAtOnCylinder(m, a.radius, a.threadDepth, a.threadHalfHeight, a.pitch, HeightThreads(a),
                      a.inset, t, Helix.FadeScale(m, a.frac, t));
  }

  /** A negative pitch is not rejected: with a fade, t == 0 gives
      (0, radius, inset), where helix.py gives the origin. */
  lemma NegativePitchEvaluates(m: Math, a: HelixArgs)
    requires Lawful(m) && a.pitch < 0.0 && HeightThreads(a) != 0.0 && a.frac > 0.0
    ensures Evaluate(m, a, 0.0) == Point(Point3(0.0, a.radius, a.inset))
    ensures Helix.Evaluate(m, Helix.Params(a.radius, a.pitch, a.height, a.threadDepth,
                                           a.threadHalfHeight, a.inset, a.frac), 0.0)
            == Point3(0.0, 0.0, 0.0)
  {
    assert Helix.FadeAngle(m, a.frac, 0.0) == 0.0;
    assert HelixAngle(m, a.pitch, HeightThreads(a), 0.0) == 0.0;
  }

  /** A quotient is 0 exactly when its dividend is. */
  lemma QuotientZero(n: real, d: real)
    requires d != 0.0
    ensures n / d == 0.0 <==> n == 0.0
  {
    if n / d == 0.0 {
      assert n == (n / d) * d;
    }
  }

  /** The module-global call counter shared by every closure helix returns. */
  class HelixCounter {
    var helixCount: int

    constructor ()
      ensures helixCount == 0
    {
      helixCount := 0;
    }

    /** One call of func(t): reset the counter when t == 0, compute the point
        and count the call. A call that raises has already reset the counter
        but is not counted. The point never depends on the counter. */
    method Func(m: Math, a: HelixArgs, t: real) returns (r: Sample)
      modifies this
      ensures r == Evaluate(m, a, t)
      ensures helixCount == (if t == 0.0 then 0 else old(helixCount)) + (if r.Point? then 1 else 0)
    {
      if t == 0.0 {
        helixCount := 0;
      }
      var heightThreads := a.height - 2.0 * a.inset;
      var fadeAngle := Helix.FadeAngle(m, a.frac, t);
      var fadeScale := m.sin(fadeAngle);
      var z := heightThreads * t + a.threadHalfHeight * fadeScale + a.inset;
      var rad := a.radius + a.threadDepth * fadeScale;
      if heightThreads == 0.0 {
        return ZeroDivision;
      }
      var turns := a.pitch / heightThreads;
      QuotientZero(a.pitch, heightThreads);
      if turns == 0.0 {
        return ZeroDivision;
      }
      var angle := 2.0 * m.pi / turns * t;
      assert angle == HelixAngle(m, a.pitch, heightThreads, t);
      r := Point(Point3(rad * m.sin(-angle), rad * m.cos(angle), z));
      helixCount := helixCount + 1;
    }
  }

  /** One wire per strand, each a helix call with the strand's radius and
      offsets and the shared pitch, height, inset and fade fraction. */
  function Wires(m: Math, height: real, d: Dims, inset: real, frac: real): (r: seq<HelixArgs>)
    requires Computable(d)
    ensures |r| == 3 || |r| == 4
    ensures |r| == 4 <==> CutOff(d.pitch, d.majorDivisor) > 0.0
    ensures forall i :: 0 <= i < |r| ==>
              && r[i].radius == Derive(m, d).helixRadius
              && r[i].threadDepth == Strands(Derive(m, d))[i].horzOffset
              && r[i].threadHalfHeight == Strands(Derive(m, d))[i].vertOffset
              && r[i].pitch == d.pitch && r[i].height == height
              && r[i].inset == inset && r[i].frac == frac
  {
    var s := Strands(Derive(m, d));
    seq(|s|, i requires 0 <= i < |s| =>
      HelixArgs(s[i].radius, s[i].horzOffset, s[i].vertOffset, d.pitch, height, inset, frac))
  }

  /** threadHelix without the solid: the wires and faces handed to the
      geometry kernel, and the thread depth it returns (without the overlap). */
  method ThreadHelix(m: Math, height: real, d: Dims, inset: real, frac: real)
    returns (wires: seq<HelixArgs>, faces: seq<RuledFace>, threadDepth: real)
    requires Computable(d)
    ensures wires == Wires(m, height, d, inset, frac)
    ensures |wires| == 3 || |wires| == 4
    ensures faces == Faces(|wires|)
    ensures threadDepth == Derive(m, d).threadDepth
  {
    var angleRadians := Radians(m, d.angleDegs);
    var tanAngle := m.tan(angleRadians);
    var diaMajorCutOff := if d.majorDivisor.Some? then d.pitch / d.majorDivisor.value else 0.0;
    var diaMinorCutOff := if d.minorDivisor.Some? then d.pitch / d.minorDivisor.value else 0.0;
    var diaMajorThreadHalfHeight := diaMajorCutOff / 2.0;
    var diaMinorThreadHalfHeight := (d.pitch - diaMinorCutOff) / 2.0;
    var diaMajorToTip := diaMajorThreadHalfHeight * tanAngle;
    var diaMinorToTip := diaMinorThreadHalfHeight * tanAngle;
    threadDepth := diaMinorToTip - diaMajorToTip;

    var helixRadius, atRadius, oppositeRadius, td;
    if d.externalThreads {
      helixRadius := d.diaMajor / 2.0 - (threadDepth + d.threadOverlap);
      atRadius := (d.pitch - diaMinorCutOff) / 2.0;
      oppositeRadius := diaMajorCutOff / 2.0;
      td := threadDepth + d.threadOverlap;
    } else {
      helixRadius := d.diaMajor / 2.0 + d.threadOverlap;
      atRadius := (d.pitch - diaMajorCutOff) / 2.0;
      oppositeRadius := diaMinorCutOff / 2.0;
      td := -(threadDepth + d.threadOverlap);
    }

    wires := [];
    wires := wires + [HelixArgs(helixRadius, 0.0, -atRadius, d.pitch, height, inset, frac)];
    wires := wires + [HelixArgs(helixRadius, 0.0, atRadius, d.pitch, height, inset, frac)];
    wires := wires + [HelixArgs(helixRadius, td, -oppositeRadius, d.pitch, height, inset, frac)];
    if diaMajorThreadHalfHeight > 0.0 {
      wires := wires + [HelixArgs(helixRadius, td, oppositeRadius, d.pitch, height, inset, frac)];
    }
    assert |wires| == 3 || |wires| == 4;
    assert diaMajorCutOff == CutOff(d.pitch, d.majorDivisor);
    assert diaMinorCutOff == CutOff(d.pitch, d.minorDivisor);
    assert Derive(m, d) == Profile(diaMajorCutOff, diaMinorCutOff, diaMajorThreadHalfHeight, threadDepth,
                                   helixRadius, atRadius, oppositeRadius, td);
    assert forall i :: 0 <= i < |wires| ==> wires[i] == Wires(m, height, d, inset, frac)[i];

    faces := [];
    faces := faces + [RuledFace(0, 1)];
    faces := faces + [RuledFace(|wires| - 2, |wires| - 1)];
    faces := faces + [RuledFace(0, 2)];
    if |wires| == 4 {
      faces := faces + [RuledFace(1, |wires| - 1)];
    }
  }

  /** External threads, in the body of the fade: each root wire, which has no
      radial offset, lies on the helix radius diaMajor/2 - (threadDepth + overlap),
      and each tip wire reaches exactly the major radius. */
  lemma ExternalTipsReachMajorRadius(m: Math, height: real, d: Dims, inset: real, frac: real,
                                     i: nat, t: real)
    requires Lawful(m) && Computable(d) && d.externalThreads
    requires i < |Wires(m, height, d, inset, frac)|
    requires Evaluate(m, Wires(m, height, d, inset, frac)[i], t) != ZeroDivision
    requires Helix.FadeRegime(frac, t) == Body
    ensures var q := Evaluate(m, Wires(m, height, d, inset, frac)[i], t).point;
            var p := Derive(m, d);
            && (i < 2 ==> RadialSq(q) == p.helixRadius * p.helixRadius)
            && (2 <= i ==> RadialSq(q) == (d.diaMajor / 2.0) * (d.diaMajor / 2.0))
  {
    var w := Wires(m, height, d, inset, frac)[i];
    StrandShape(m, d);
    SideRadii(m, d);
    OnFadedCylinder(m, w, t);
    assert Helix.FadeScale(m, frac, t) == 1.0;
  }

  /** Internal threads: the root wires lie overlap outside the major radius, the
      tip wires reach threadDepth inside it in the body of the fade. */
  lemma InternalRootsOutsideMajorRadius(m: Math, height: real, d: Dims, inset: real, frac: real,
                                        i: nat, t: real)
    requires Lawful(m) && Computable(d) && !d.externalThreads
    requires i < |Wires(m, height, d, inset, frac)|
    requires Evaluate(m, Wires(m, height, d, inset, frac)[i], t) != ZeroDivision
    requires Helix.FadeRegime(frac, t) == Body
    ensures var q := Evaluate(m, Wires(m, height, d, inset, frac)[i], t).point;
            var p := Derive(m, d);
            && (i < 2 ==> RadialSq(q) == (d.diaMajor / 2.0 + d.threadOverlap) * (d.diaMajor / 2.0 + d.threadOverlap))
            && (2 <= i ==> RadialSq(q) == (d.diaMajor / 2.0 - p.threadDepth) * (d.diaMajor / 2.0 - p.threadDepth))
  {
    var w := Wires(m, height, d, inset, frac)[i];
    StrandShape(m, d);
    SideRadii(m, d);
    OnFadedCylinder(m, w, t);
    assert Helix.FadeScale(m, frac, t) == 1.0;
  }
}
