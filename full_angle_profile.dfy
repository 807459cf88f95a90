/** The thread profile derivation shared, line for line, by threadHelix of
    thread4.py (lines 96-127) and threads of thread5.py (lines 54-85): cutoffs
    from optional pitch divisors, a thread depth from the tangent of the FULL
    flank angle, and one helix radius with a signed tip offset per side. The
    strand list (3 or 4 strands) and the ruled-face index pairs of both files
    are defined here once; each file's module builds them with appends. */
module FullAngleProfile {
  import opened MathLib
  import opened Common

  /** The dimension parameters of threadHelix / threads. */
  datatype Dims = Dims(
    diaMajor: real,
    pitch: real,
    angleDegs: real,
    externalThreads: bool,
    majorDivisor: Option<real>,
    minorDivisor: Option<real>,
    threadOverlap: real)

  /** A cutoff divisor of 0 raises ZeroDivisionError; None means no cutoff. */
  predicate Computable(d: Dims) {
    && (d.majorDivisor.Some? ==> d.majorDivisor.value != 0.0)
    && (d.minorDivisor.Some? ==> d.minorDivisor.value != 0.0)
  }

  /** pitch / divisor, or 0 when there is no divisor. */
  function CutOff(pitch: real, divisor: Option<real>): (r: real)
    requires divisor.Some? ==> divisor.value != 0.0
    ensures divisor.None? ==> r == 0.0
    ensures divisor.Some? ==> r * divisor.value == pitch
  {
    match divisor
    case None => 0.0
    case Some(v) => pitch / v
  }

  /** Every value the derivation names, in the order the source computes it. */
  datatype Profile = Profile(
    majorCutOff: real,
    minorCutOff: real,
    majorHalfHeight: real,
    threadDepth: real,
    helixRadius: real,
    halfHeightAtRadius: real,
    halfHeightOpposite: real,
    tipOffset: real)

  function TanAngle(m: Math, d: Dims): real {
    m.tan(Radians(m, d.angleDegs))
  }

  /** The straight-line derivation of thread4.py:98-127 (thread5.py:56-85). */
  function Derive(m: Math, d: Dims): (p: Profile)
    requires Computable(d)
    ensures p.majorCutOff == CutOff(d.pitch, d.majorDivisor)
    ensures p.minorCutOff == CutOff(d.pitch, d.minorDivisor)
    ensures p.majorHalfHeight * 2.0 == p.majorCutOff
    ensures d.externalThreads ==>
              p.halfHeightAtRadius == (d.pitch - p.minorCutOff) / 2.0 && p.halfHeightOpposite == p.majorCutOff / 2.0
    ensures !d.externalThreads ==>
              p.halfHeightAtRadius == (d.pitch - p.majorCutOff) / 2.0 && p.halfHeightOpposite == p.minorCutOff / 2.0
    ensures p.helixRadius + p.tipOffset
            == if d.externalThreads then d.diaMajor / 2.0 else d.diaMajor / 2.0 - p.threadDepth
  {
    var tanAngle := TanAngle(m, d);
    var majorCutOff := CutOff(d.pitch, d.majorDivisor);
    var minorCutOff := CutOff(d.pitch, d.minorDivisor);
    var majorHalfHeight := majorCutOff / 2.0;
    var minorHalfHeight := (d.pitch - minorCutOff) / 2.0;
    var majorToTip := majorHalfHeight * tanAngle;
    var minorToTip := minorHalfHeight * tanAngle;
    var threadDepth := minorToTip - majorToTip;
    if d.externalThreads then
      Profile(majorCutOff, minorCutOff, majorHalfHeight, threadDepth,
              d.diaMajor / 2.0 - (threadDepth + d.threadOverlap),
              (d.pitch - minorCutOff) / 2.0, majorCutOff / 2.0,
              threadDepth + d.threadOverlap)
    else
      Profile(majorCutOff, minorCutOff, majorHalfHeight, threadDepth,
              d.diaMajor / 2.0 + d.threadOverlap,
              (d.pitch - majorCutOff) / 2.0, minorCutOff / 2.0,
              -(threadDepth + d.threadOverlap))
  }

  /** The strands in the order the wires are appended: the two root strands
      (no radial offset, vertical offsets -/+ the half height at the radius),
      then the tip strands (radial offset `tipOffset`, vertical offsets -/+ the
      opposite half height); the fourth only when the major half height is
      positive, on either side. */
  function Strands(p: Profile): (r: seq<HelixLocation>)
    ensures |r| == 3 || |r| == 4
    ensures |r| == 4 <==> p.majorHalfHeight > 0.0
    ensures forall i :: 0 <= i < |r| ==> r[i].radius == p.helixRadius
    ensures r[0].horzOffset == 0.0 && r[1].horzOffset == 0.0 && r[0].vertOffset == -r[1].vertOffset
    ensures forall i :: 2 <= i < |r| ==> r[i].horzOffset == p.tipOffset
  {
    [ HelixLocation(p.helixRadius, 0.0, -p.halfHeightAtRadius),
      HelixLocation(p.helixRadius, 0.0, p.halfHeightAtRadius),
      HelixLocation(p.helixRadius, p.tipOffset, -p.halfHeightOpposite) ]
    + (if p.majorHalfHeight > 0.0
       then [HelixLocation(p.helixRadius, p.tipOffset, p.halfHeightOpposite)]
       else [])
  }

  /** The ruled faces of thread4.py:214-219 / thread5.py:172-177 for n wires:
      (0, 1), (n-2, n-1), (0, 2) and, with four wires, (1, n-1). */
  function Faces(n: nat): (r: seq<RuledFace>)
    requires n == 3 || n == 4
    ensures |r| == n
    ensures forall f :: f in r ==> f.first < n && f.second < n && f.first != f.second
  {
    [RuledFace(0, 1), RuledFace(n - 2, n - 1), RuledFace(0, 2)]
    + (if n == 4 then [RuledFace(1, n - 1)] else [])
  }

  /** The cutoff is the pitch divided by its divisor, and 0 without one. */
  lemma CutOffValues(pitch: real, v: real)
    requires v != 0.0
    ensures CutOff(pitch, None) == 0.0
    ensures CutOff(pitch, Some(v)) == pitch / v
    ensures pitch == 0.0 <==> CutOff(pitch, Some(v)) == 0.0
  {
    var c := CutOff(pitch, Some(v));
    if c == 0.0 {
      assert pitch == c * v;
    }
  }

  /** The depth multiplies the FULL-angle tangent with the difference of the
      two half heights: ((pitch - minorCutOff)/2 - majorCutOff/2) * tan(angle).
      It does not depend on the side or on the overlap. */
  lemma ThreadDepthValue(m: Math, d: Dims)
    requires Computable(d)
    ensures var p := Derive(m, d);
            p.threadDepth
            == ((d.pitch - p.minorCutOff) / 2.0 - p.majorCutOff / 2.0) * TanAngle(m, d)
    ensures Derive(m, d).threadDepth
            == Derive(m, d.(externalThreads := !d.externalThreads, threadOverlap := 0.0)).threadDepth
  {
    var p, p' := Derive(m, d), Derive(m, d.(externalThreads := !d.externalThreads, threadOverlap := 0.0));
    assert p'.majorCutOff == p.majorCutOff && p'.minorCutOff == p.minorCutOff;
  }

  /** The flank of every profile rises by threadDepth over the difference of the
      two half heights times tan(angle), on both sides: for each side the half
      height at the radius minus the opposite half height is
      (pitch - majorCutOff - minorCutOff) / 2. */
  lemma FlankRise(m: Math, d: Dims)
    requires Computable(d)
    ensures var p := Derive(m, d);
            p.threadDepth == (p.halfHeightAtRadius - p.halfHeightOpposite) * TanAngle(m, d)
  {
  }

  /** External threads: the tip strands end exactly on the major radius and the
      root strands sit threadDepth + overlap inside it. Internal threads: the
      root strands sit `overlap` outside the major radius and the tip strands
      reach threadDepth inside it. */
  lemma SideRadii(m: Math, d: Dims)
    requires Computable(d)
    ensures var p := Derive(m, d);
            d.externalThreads ==>
              && p.helixRadius + p.tipOffset == d.diaMajor / 2.0
              && p.helixRadius == d.diaMajor / 2.0 - (p.threadDepth + d.threadOverlap)
    ensures var p := Derive(m, d);
            !d.externalThreads ==>
              && p.helixRadius == d.diaMajor / 2.0 + d.threadOverlap
              && p.helixRadius + p.tipOffset == d.diaMajor / 2.0 - p.threadDepth
  {
  }

  /** 3 or 4 strands (the assertion of thread4.py:210), and 4 exactly when the
      major half height is positive — on the internal side too, where the minor
      cutoff is the one at the tip. */
  lemma StrandCount(m: Math, d: Dims)
    requires Computable(d)
    ensures var n := |Strands(Derive(m, d))|; n == 3 || n == 4
    ensures |Strands(Derive(m, d))| == 4 <==> CutOff(d.pitch, d.majorDivisor) > 0.0
  {
  }

  /** All strands share the helix radius; the root strands have no radial offset
      and mirrored vertical offsets; the tip strands share the signed tip offset
      and, when there are two, mirror each other too. */
  lemma StrandShape(m: Math, d: Dims)
    requires Computable(d)
    ensures var p := Derive(m, d);
            var s := Strands(p);
            && (forall i :: 0 <= i < |s| ==> s[i].radius == p.helixRadius)
            && s[0].horzOffset == 0.0 && s[1].horzOffset == 0.0
            && s[0].vertOffset == -s[1].vertOffset
            && s[1].vertOffset == p.halfHeightAtRadius
            && s[2].horzOffset == p.tipOffset
            && s[2].vertOffset == -p.halfHeightOpposite
            && (|s| == 4 ==> s[3].horzOffset == p.tipOffset && s[3].vertOffset == -s[2].vertOffset)
  {
  }

  /** Internal threads without a minor cutoff but with a major cutoff get two
      identical tip strands, since the fourth strand is keyed on the major
      cutoff: the face (2, 3) is then ruled between equal wires. */
  lemma InternalTipStrandsCoincide(m: Math, d: Dims)
    requires Computable(d)
    requires !d.externalThreads && d.minorDivisor.None?
    requires CutOff(d.pitch, d.majorDivisor) > 0.0
    ensures var s := Strands(Derive(m, d));
            |s| == 4 && s[2] == s[3]
  {
  }

  /** One face per wire, every index names a wire, no face joins a wire to
      itself, and every wire is in exactly two faces, so the faces close up
      around the profile. */
  lemma FacesCoverEveryStrandTwice(n: nat)
    requires n == 3 || n == 4
    ensures |Faces(n)| == n
    ensures forall f :: f in Faces(n) ==> f.first < n && f.second < n && f.first != f.second
    ensures forall s :: 0 <= s < n ==> FacesOf(Faces(n), s) == 2
  {
    var faces := Faces(n);
    forall s | 0 <= s < n
      ensures FacesOf(faces, s) == 2
    {
      var f1 := faces[1..];
      var f2 := f1[1..];
      var f3 := f2[1..];
      assert FacesOf(faces, s) == (if s == 0 || s == 1 then 1 else 0) + FacesOf(f1, s);
      assert FacesOf(f1, s) == (if s == n - 2 || s == n - 1 then 1 else 0) + FacesOf(f2, s);
      assert FacesOf(f2, s) == (if s == 0 || s == 2 then 1 else 0) + FacesOf(f3, s);
      if n == 4 {
        assert f3[1..] == [];
        assert FacesOf(f3, s) == (if s == 1 || s == 3 then 1 else 0);
      } else {
        assert f3 == [];
      }
    }
  }
}
