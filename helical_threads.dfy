/** helicalthreads.py: the dimensions of a pair of mating helical threads and
    helical_threads, which derives from them the strands of the internal thread
    and of the external thread that fits into it with a clearance. The flank
    angle is split in half: every slope uses tan and sin of angle / 2. */
module Helical {
  import opened MathLib
  import opened Common
  import opened WingUtils
  import opened ProfilePoints

  /** HelicalThreadDim: the helix fields (radius, pitch, height, taper
      position, inset, first and last t) followed by the thread's own fields.
      WithDefaults gives the dataclass defaults of the thread's own fields. */
  datatype HelicalThreadDim = HelicalThreadDim(
    radius: real,
    pitch: real,
    height: real,
    taperRpos: real,
    inset: real,
    firstT: real,
    lastT: real,
    angleDegs: real,
    extClearance: real,
    majorCutoff: real,
    minorCutoff: real,
    threadOverlap: real)

  function WithDefaults(radius: real, pitch: real, height: real, taperRpos: real, inset: real,
                        firstT: real, lastT: real): (h: HelicalThreadDim)
    ensures h.radius == radius && h.pitch == pitch && h.height == height && h.taperRpos == taperRpos
    ensures h.inset == inset && h.firstT == firstT && h.lastT == lastT
    ensures h.angleDegs == 45.0 && h.extClearance == 0.1
    ensures h.majorCutoff == 0.0 && h.minorCutoff == 0.0 && h.threadOverlap == 0.001
  {
    HelicalThreadDim(radius, pitch, height, taperRpos, inset, firstT, lastT, 45.0, 0.1, 0.0, 0.0, 0.001)
  }

  function TanHalf(m: Math, h: HelicalThreadDim): real {
    m.tan(Radians(m, h.angleDegs) / 2.0)
  }

  function SinHalf(m: Math, h: HelicalThreadDim): real {
    m.sin(Radians(m, h.angleDegs) / 2.0)
  }

  function CosHalf(m: Math, h: HelicalThreadDim): real {
    m.cos(Radians(m, h.angleDegs) / 2.0)
  }

  /** helical_threads divides by tan and by sin of the half angle; either being
      0 raises ZeroDivisionError. */
  predicate Computable(m: Math, h: HelicalThreadDim) {
    TanHalf(m, h) != 0.0 && SinHalf(m, h) != 0.0
  }

  /** The depth of the internal thread: the flank's run from the major
      cutoff to the minor cutoff, each half height divided by tan(angle/2). */
  function IntThreadDepth(m: Math, h: HelicalThreadDim): real
    requires Computable(m, h)
  {
    ((h.pitch - h.majorCutoff) / 2.0) / TanHalf(m, h) - (h.minorCutoff / 2.0) / TanHalf(m, h)
  }

  /** thread_overlap_vert_adj: how much the overlap widens the root. */
  function OverlapVertAdj(m: Math, h: HelicalThreadDim): real {
    h.threadOverlap * TanHalf(m, h)
  }

  function HalfHeightAtRadius(m: Math, h: HelicalThreadDim): real {
    (h.pitch - h.majorCutoff) / 2.0 + OverlapVertAdj(m, h)
  }

  /** ext_vert_adj: (clearance / sin(angle/2) - clearance) * tan(angle/2). */
  function ExtVertAdj(m: Math, h: HelicalThreadDim): real
    requires Computable(m, h)
  {
    var hyp := h.extClearance / SinHalf(m, h);
    (hyp - h.extClearance) * TanHalf(m, h)
  }

  function ExtHelixRadius(m: Math, h: HelicalThreadDim): real
    requires Computable(m, h)
  {
    h.radius - IntThreadDepth(m, h) - h.extClearance
  }

  function ExtHalfHeightAtRadius(m: Math, h: HelicalThreadDim): real
    requires Computable(m, h)
  {
    (h.pitch - h.minorCutoff) / 2.0 - ExtVertAdj(m, h)
  }

  /** The collapse branch is taken when majorCutoff / 2 - ext_vert_adj < 0. */
  predicate Collapses(m: Math, h: HelicalThreadDim)
    requires Computable(m, h)
  {
    h.majorCutoff / 2.0 - ExtVertAdj(m, h) < 0.0
  }

  /** The opposite half height of the external thread after the collapse branch. */
  function ExtHalfHeightOpposite(m: Math, h: HelicalThreadDim): real
    requires Computable(m, h)
  {
    if Collapses(m, h) then 0.0 else h.majorCutoff / 2.0 - ExtVertAdj(m, h)
  }

  /** The depth of the external thread after the collapse branch. */
  function ExtThreadDepth(m: Math, h: HelicalThreadDim): real
    requires Computable(m, h)
  {
    if Collapses(m, h) then ExtHalfHeightAtRadius(m, h) / TanHalf(m, h) else IntThreadDepth(m, h)
  }

  /** The internal strands: two root strands `overlap` outside the radius, then
      the tip strands thread depth inside it, the second only with a positive
      minor cutoff. */
  function IntHelixes(m: Math, h: HelicalThreadDim): (r: seq<HelixLocation>)
    requires Computable(m, h)
    ensures |r| == 3 || |r| == 4
    ensures |r| == 4 <==> h.minorCutoff > 0.0
    ensures r[0].radius == r[1].radius == h.radius + h.threadOverlap
    ensures r[0].horzOffset == r[1].horzOffset == 0.0 && r[0].vertOffset == -r[1].vertOffset
    ensures forall i :: 2 <= i < |r| ==> r[i].radius == h.radius && r[i].horzOffset == -IntThreadDepth(m, h)
  {
    var depth := IntThreadDepth(m, h);
    [ HelixLocation(h.radius + h.threadOverlap, 0.0, -HalfHeightAtRadius(m, h)),
      HelixLocation(h.radius + h.threadOverlap, 0.0, HalfHeightAtRadius(m, h)),
      HelixLocation(h.radius, -depth, h.minorCutoff / 2.0) ]
    + (if h.minorCutoff > 0.0
       then [HelixLocation(h.radius, -depth, -(h.minorCutoff / 2.0))]
       else [])
  }

  /** The external strands: two root strands `overlap` inside the external
      helix radius, then the tip strands at the external thread depth, the
      second only with a positive opposite half height. */
  function ExtHelixes(m: Math, h: HelicalThreadDim): (r: seq<HelixLocation>)
    requires Computable(m, h)
    ensures |r| == 3 || |r| == 4
    ensures |r| == 4 <==> ExtHalfHeightOpposite(m, h) > 0.0
    ensures r[0].radius == r[1].radius == ExtHelixRadius(m, h) - h.threadOverlap
    ensures r[0].horzOffset == r[1].horzOffset == 0.0 && r[0].vertOffset == -r[1].vertOffset
    ensures forall i :: 2 <= i < |r| ==> r[i].radius == ExtHelixRadius(m, h) && r[i].horzOffset == ExtThreadDepth(m, h)
  {
    var radius, depth := ExtHelixRadius(m, h), ExtThreadDepth(m, h);
    var atRadius := ExtHalfHeightAtRadius(m, h) + OverlapVertAdj(m, h);
    var opposite := ExtHalfHeightOpposite(m, h);
    [ HelixLocation(radius - h.threadOverlap, 0.0, -atRadius),
      HelixLocation(radius - h.threadOverlap, 0.0, atRadius),
      HelixLocation(radius, depth, opposite) ]
    + (if opposite > 0.0
       then [HelixLocation(radius, depth, -opposite)]
       else [])
  }

  /** HelicalThreads: the dimensions and the two strand lists. */
  class HelicalThreads {
    var htd: HelicalThreadDim
    var intHelixRadius: real
    var intHelixes: seq<HelixLocation>
    var extHelixRadius: real
    var extHelixes: seq<HelixLocation>

    constructor (htd: HelicalThreadDim)
      ensures this.htd == htd
      ensures intHelixRadius == 0.0 && intHelixes == []
      ensures extHelixRadius == 0.0 && extHelixes == []
    {
      this.htd := htd;
      intHelixRadius := 0.0;
      intHelixes := [];
      extHelixRadius := 0.0;
      extHelixes := [];
    }
  }

  /** helical_threads: the strand lists are appended to one by one, in the
      order of the source, and stored in a fresh HelicalThreads, which holds
      the internal radius, the external radius and both lists. */
  method HelicalThreadsOf(m: Math, htd: HelicalThreadDim) returns (result: HelicalThreads)
    requires Computable(m, htd)
    ensures fresh(result)
    ensures result.htd == htd
    ensures result.intHelixRadius == htd.radius
    ensures result.intHelixes == IntHelixes(m, htd)
    ensures result.extHelixRadius == ExtHelixRadius(m, htd)
    ensures result.extHelixes == ExtHelixes(m, htd)
  {
    var angleRadians := Radians(m, htd.angleDegs);
    var tanHangle := m.tan(angleRadians / 2.0);
    var sinHangle := m.sin(angleRadians / 2.0);
    assert tanHangle == TanHalf(m, htd) && sinHangle == SinHalf(m, htd);
    var tipToMajorCutoff := ((htd.pitch - htd.majorCutoff) / 2.0) / tanHangle;
    var tipToMinorCutoff := (htd.minorCutoff / 2.0) / tanHangle;
    var intThreadDepth := tipToMajorCutoff - tipToMinorCutoff;

    var threadOverlapVertAdj := htd.threadOverlap * tanHangle;
    var halfHeightAtRadius := (htd.pitch - htd.majorCutoff) / 2.0 + threadOverlapVertAdj;
    var halfHeightOpposite := htd.minorCutoff / 2.0;
    assert intThreadDepth == IntThreadDepth(m, htd) && halfHeightAtRadius == HalfHeightAtRadius(m, htd);

    var intHelixRadius := htd.radius;
    var intHelixes := [];
    intHelixes := intHelixes + [HelixLocation(intHelixRadius + htd.threadOverlap, 0.0, -halfHeightAtRadius)];
    intHelixes := intHelixes + [HelixLocation(intHelixRadius + htd.threadOverlap, 0.0, halfHeightAtRadius)];
    intHelixes := intHelixes + [HelixLocation(intHelixRadius, -intThreadDepth, halfHeightOpposite)];
    if htd.minorCutoff > 0.0 {
      intHelixes := intHelixes + [HelixLocation(intHelixRadius, -intThreadDepth, -halfHeightOpposite)];
    }
    assert intHelixes == IntHelixes(m, htd);

    var hyp := htd.extClearance / sinHangle;
    var extVertAdj := (hyp - htd.extClearance) * tanHangle;
    var extHelixRadius := htd.radius - intThreadDepth - htd.extClearance;
    var extHalfHeightAtRadius := (htd.pitch - htd.minorCutoff) / 2.0 - extVertAdj;
    var extHalfHeightAtRadiusPlusTova := extHalfHeightAtRadius + threadOverlapVertAdj;
    assert extVertAdj == ExtVertAdj(m, htd) && extHalfHeightAtRadius == ExtHalfHeightAtRadius(m, htd);

    var extHalfHeightOpposite := htd.majorCutoff / 2.0 - extVertAdj;
    var extThreadDepth := intThreadDepth;
    if extHalfHeightOpposite < 0.0 {
      extHalfHeightOpposite := 0.0;
      extThreadDepth := extHalfHeightAtRadius / tanHangle;
    }
    assert extHalfHeightOpposite == ExtHalfHeightOpposite(m, htd);
    assert extThreadDepth == ExtThreadDepth(m, htd);

    var extHelixes := [];
    extHelixes := extHelixes + [HelixLocation(extHelixRadius - htd.threadOverlap, 0.0, -extHalfHeightAtRadiusPlusTova)];
    extHelixes := extHelixes + [HelixLocation(extHelixRadius - htd.threadOverlap, 0.0, extHalfHeightAtRadiusPlusTova)];
    extHelixes := extHelixes + [HelixLocation(extHelixRadius, extThreadDepth, extHalfHeightOpposite)];
    if extHalfHeightOpposite > 0.0 {
      extHelixes := extHelixes + [HelixLocation(extHelixRadius, extThreadDepth, -extHalfHeightOpposite)];
    }
    assert extHelixes == ExtHelixes(m, htd);

    result := new HelicalThreads(htd);
    result.intHelixRadius, result.intHelixes := intHelixRadius, intHelixes;
    result.extHelixRadius, result.extHelixes := extHelixRadius, extHelixes;
  }

  /** 3 or 4 internal strands, 4 exactly when the minor cutoff is positive. The
      root strands sit `overlap` outside the radius with mirrored vertical
      offsets; the tip strands sit thread depth inside it at +/- minorCutoff/2. */
  lemma IntStrands(m: Math, h: HelicalThreadDim)
    requires Computable(m, h)
    ensures var s := IntHelixes(m, h);
            && (|s| == 3 || |s| == 4)
            && (|s| == 4 <==> h.minorCutoff > 0.0)
    ensures var s := IntHelixes(m, h);
            && s[0].radius == h.radius + h.threadOverlap && s[1].radius == h.radius + h.threadOverlap
            && s[0].horzOffset == 0.0 && s[1].horzOffset == 0.0
            && s[0].vertOffset == -s[1].vertOffset
            && s[1].vertOffset == (h.pitch - h.majorCutoff) / 2.0 + h.threadOverlap * TanHalf(m, h)
            && (forall i :: 2 <= i < |s| ==> s[i].radius == h.radius && s[i].horzOffset == -IntThreadDepth(m, h))
            && s[2].vertOffset == h.minorCutoff / 2.0
            && (|s| == 4 ==> s[3].vertOffset == -s[2].vertOffset)
  {
  }

  /** The internal thread depth is the run of the flank: tan(angle/2) times it
      is the drop from the root half height (pitch - majorCutoff)/2 to the tip
      half height minorCutoff/2. */
  lemma DepthTimesTangent(m: Math, h: HelicalThreadDim)
    requires Computable(m, h)
    ensures TanHalf(m, h) * IntThreadDepth(m, h) == (h.pitch - h.majorCutoff) / 2.0 - h.minorCutoff / 2.0
  {
    var t := TanHalf(m, h);
    var a, b := (h.pitch - h.majorCutoff) / 2.0, h.minorCutoff / 2.0;
    assert t * (a / t) == a;
    assert t * (b / t) == b;
    assert t * (a / t - b / t) == t * (a / t) - t * (b / t);
  }

  /** The internal flank from root strand 1 to tip strand 2 keeps that slope
      with the overlap: the two differ by u = depth + overlap across and by
      tan(angle/2) * u along the axis. */
  lemma IntFlankSlope(m: Math, h: HelicalThreadDim)
    requires Computable(m, h)
    ensures SlopeRun(ProfilePoint(IntHelixes(m, h)[1], 0.0), ProfilePoint(IntHelixes(m, h)[2], 0.0),
                     TanHalf(m, h), IntThreadDepth(m, h) + h.threadOverlap)
  {
    DepthTimesTangent(m, h);
    var t := TanHalf(m, h);
    assert t * (IntThreadDepth(m, h) + h.threadOverlap) == t * IntThreadDepth(m, h) + h.threadOverlap * t;
  }

  /** The collapse branch: when the vertical adjustment for the clearance
      exceeds majorCutoff/2 the external tip narrows to a point, the opposite
      half height becomes 0 and the external depth is the root half height run
      down the flank; otherwise the depth is the internal one. Either way the
      opposite half height used afterwards is never negative. */
  lemma ExtCollapse(m: Math, h: HelicalThreadDim)
    requires Computable(m, h)
    ensures ExtHalfHeightOpposite(m, h) >= 0.0
    ensures Collapses(m, h) <==> h.majorCutoff / 2.0 < ExtVertAdj(m, h)
    ensures Collapses(m, h) ==>
              && ExtHalfHeightOpposite(m, h) == 0.0
              && TanHalf(m, h) * ExtThreadDepth(m, h) == ExtHalfHeightAtRadius(m, h)
    ensures !Collapses(m, h) ==>
              && ExtHalfHeightOpposite(m, h) == h.majorCutoff / 2.0 - ExtVertAdj(m, h)
              && ExtThreadDepth(m, h) == IntThreadDepth(m, h)
  {
    var t := TanHalf(m, h);
    assert t * (ExtHalfHeightAtRadius(m, h) / t) == ExtHalfHeightAtRadius(m, h);
  }

  /** 3 or 4 external strands, 4 exactly when the opposite half height left by
      the collapse branch is positive. The root strands sit `overlap` inside the
      external helix radius radius - depth - clearance with mirrored vertical
      offsets; the tip strands sit on that radius at the external depth. */
  lemma ExtStrands(m: Math, h: HelicalThreadDim)
    requires Computable(m, h)
    ensures var s := ExtHelixes(m, h);
            && (|s| == 3 || |s| == 4)
            && (|s| == 4 <==> ExtHalfHeightOpposite(m, h) > 0.0)
            && (|s| == 4 <==> h.majorCutoff / 2.0 > ExtVertAdj(m, h))
    ensures var s := ExtHelixes(m, h);
            var r := ExtHelixRadius(m, h);
            && r == h.radius - IntThreadDepth(m, h) - h.extClearance
            && s[0].radius == r - h.threadOverlap && s[1].radius == r - h.threadOverlap
            && s[0].horzOffset == 0.0 && s[1].horzOffset == 0.0
            && s[0].vertOffset == -s[1].vertOffset
            && s[1].vertOffset
               == (h.pitch - h.minorCutoff) / 2.0 - ExtVertAdj(m, h) + h.threadOverlap * TanHalf(m, h)
            && (forall i :: 2 <= i < |s| ==>
                  s[i].radius == r && s[i].horzOffset == ExtThreadDepth(m, h))
            && s[2].vertOffset == ExtHalfHeightOpposite(m, h)
            && (|s| == 4 ==> s[3].vertOffset == -s[2].vertOffset)
  {
  }

  /** Without clearance there is no vertical adjustment, so a non-negative
      major cutoff never collapses the external tip and the external thread
      has 4 strands exactly when the major cutoff is positive. */
  lemma NoClearanceNoCollapse(m: Math, h: HelicalThreadDim)
    requires Computable(m, h) && h.extClearance == 0.0 && h.majorCutoff >= 0.0
    ensures ExtVertAdj(m, h) == 0.0
    ensures !Collapses(m, h)
    ensures ExtThreadDepth(m, h) == IntThreadDepth(m, h)
    ensures |ExtHelixes(m, h)| == 4 <==> h.majorCutoff > 0.0
  {
    assert 0.0 / SinHalf(m, h) == 0.0;
  }

  /** The half-angle identities the clearance relies on, for a half angle whose
      cosine is not 0: tan * cos == sin and (1 + tan^2) * cos^2 == 1. */
  lemma HalfAngleTrig(m: Math, h: HelicalThreadDim)
    requires Lawful(m) && CosHalf(m, h) != 0.0
    ensures TanHalf(m, h) * CosHalf(m, h) == SinHalf(m, h)
    ensures (1.0 + TanHalf(m, h) * TanHalf(m, h)) * (CosHalf(m, h) * CosHalf(m, h)) == 1.0
  {
    TangentIdentities(m, Radians(m, h.angleDegs) / 2.0);
  }

  /** The constant behind the clearance: the vertical adjustment plus
      tan * clearance is tan * clearance / sin == clearance / cos, an offset
      along the axis that amounts to exactly the clearance across a flank of
      slope tan(angle/2). */
  lemma ClearanceConstant(m: Math, h: HelicalThreadDim)
    requires Lawful(m) && Computable(m, h) && CosHalf(m, h) != 0.0
    ensures (ExtVertAdj(m, h) + TanHalf(m, h) * h.extClearance) * CosHalf(m, h) == h.extClearance
    ensures PerpendicularOffset(ExtVertAdj(m, h) + TanHalf(m, h) * h.extClearance, TanHalf(m, h), h.extClearance)
  {
    HalfAngleTrig(m, h);
    ClearanceOverCosine(m, Radians(m, h.angleDegs) / 2.0, h.extClearance);
    OffsetFromCosine(ExtVertAdj(m, h) + TanHalf(m, h) * h.extClearance, TanHalf(m, h), CosHalf(m, h), h.extClearance);
  }

  /** Lower flank: with the external profile half a pitch above the internal
      one, the first external root point lies at distance |extClearance| from
      the internal flank through internal points 1 and 2. */
  lemma LowerFlankRootClearance(m: Math, h: HelicalThreadDim)
    requires Lawful(m) && Computable(m, h) && CosHalf(m, h) != 0.0
    requires IntThreadDepth(m, h) + h.threadOverlap != 0.0
    ensures var l1, l2 := ProfilePoint(IntHelixes(m, h)[1], 0.0), ProfilePoint(IntHelixes(m, h)[2], 0.0);
            && l1 != l2
            && PerpendicularDistance(m, ProfilePoint(ExtHelixes(m, h)[0], h.pitch / 2.0), l1, l2)
               == Abs(h.extClearance)
  {
    ClearanceConstant(m, h);
    IntFlankSlope(m, h);
    RootOffset(m, h);
    SlopedLineDistance(m, ProfilePoint(ExtHelixes(m, h)[0], h.pitch / 2.0),
                       ProfilePoint(IntHelixes(m, h)[1], 0.0), ProfilePoint(IntHelixes(m, h)[2], 0.0),
                       TanHalf(m, h), IntThreadDepth(m, h) + h.threadOverlap,
                       ExtVertAdj(m, h) + TanHalf(m, h) * h.extClearance, h.extClearance);
  }

  /** Measured across the internal flank (slope tan(angle/2)) from internal
      point 1, the first external root point is extVertAdj + tan * extClearance
      away. */
  lemma RootOffset(m: Math, h: HelicalThreadDim)
    requires Computable(m, h)
    ensures OffsetAcross(ProfilePoint(ExtHelixes(m, h)[0], h.pitch / 2.0), ProfilePoint(IntHelixes(m, h)[1], 0.0),
                         TanHalf(m, h), ExtVertAdj(m, h) + TanHalf(m, h) * h.extClearance)
  {
    DepthTimesTangent(m, h);
    var t, o, depth := TanHalf(m, h), h.threadOverlap, IntThreadDepth(m, h);
    var l1 := ProfilePoint(IntHelixes(m, h)[1], 0.0);
    var e0 := ProfilePoint(ExtHelixes(m, h)[0], h.pitch / 2.0);
    assert e0.x - l1.x == -(depth + h.extClearance + 2.0 * o);
    assert t * (e0.x - l1.x) == -(t * depth) - t * h.extClearance - 2.0 * (o * t);
  }

  /** Measured across the internal flank from internal point 1, the last
      external point (shifted by half a pitch) is as far off as the first:
      without the collapse it is the point on the opposite side of the
      external thread's tip, after the collapse it is the single tip, which
      the collapse branch puts back on the flank. */
  lemma TipOffset(m: Math, h: HelicalThreadDim)
    requires Computable(m, h)
    ensures var e := ExtHelixes(m, h);
            OffsetAcross(ProfilePoint(e[|e| - 1], h.pitch / 2.0), ProfilePoint(IntHelixes(m, h)[1], 0.0),
                         TanHalf(m, h), ExtVertAdj(m, h) + TanHalf(m, h) * h.extClearance)
  {
    DepthTimesTangent(m, h);
    ExtCollapse(m, h);
    var t, o, cl, depth := TanHalf(m, h), h.threadOverlap, h.extClearance, IntThreadDepth(m, h);
    var e := ExtHelixes(m, h);
    var l1 := ProfilePoint(IntHelixes(m, h)[1], 0.0);
    var pt := ProfilePoint(e[|e| - 1], h.pitch / 2.0);
    if Collapses(m, h) {
      var etd := ExtThreadDepth(m, h);
      assert pt.x - l1.x == etd - depth - cl - o;
      assert pt.y - l1.y == h.majorCutoff / 2.0 - o * t;
      assert t * (pt.x - l1.x) == t * etd - t * depth - t * cl - o * t;
    } else {
      assert pt.x - l1.x == -(cl + o);
      assert pt.y - l1.y == ExtVertAdj(m, h) - o * t;
      assert t * (pt.x - l1.x) == -(t * cl) - o * t;
    }
  }

  /** Lower flank: the last external point, too, lies at distance
      |extClearance| from the internal flank through internal points 1 and 2,
      whether or not the external tip collapsed. */
  lemma LowerFlankTipClearance(m: Math, h: HelicalThreadDim)
    requires Lawful(m) && Computable(m, h) && CosHalf(m, h) != 0.0
    requires IntThreadDepth(m, h) + h.threadOverlap != 0.0
    ensures var e := ExtHelixes(m, h);
            PerpendicularDistance(m, ProfilePoint(e[|e| - 1], h.pitch / 2.0),
                                  ProfilePoint(IntHelixes(m, h)[1], 0.0), ProfilePoint(IntHelixes(m, h)[2], 0.0))
            == Abs(h.extClearance)
  {
    ClearanceConstant(m, h);
    IntFlankSlope(m, h);
    TipOffset(m, h);
    SlopedLineDistance(m, ProfilePoint(ExtHelixes(m, h)[|ExtHelixes(m, h)| - 1], h.pitch / 2.0),
                       ProfilePoint(IntHelixes(m, h)[1], 0.0), ProfilePoint(IntHelixes(m, h)[2], 0.0),
                       TanHalf(m, h), IntThreadDepth(m, h) + h.threadOverlap,
                       ExtVertAdj(m, h) + TanHalf(m, h) * h.extClearance, h.extClearance);
  }

  /** The next internal thread, a pitch above: its flank from point 0 to the
      last point falls with slope -tan(angle/2) over the run depth + overlap.
      The last point is at pitch - minorCutoff/2 with or without a fourth
      strand once the minor cutoff is not negative. */
  lemma UpperFlankSlope(m: Math, h: HelicalThreadDim)
    requires Computable(m, h) && h.minorCutoff >= 0.0
    ensures var s := IntHelixes(m, h);
            SlopeRun(ProfilePoint(s[0], h.pitch), ProfilePoint(s[|s| - 1], h.pitch),
                     -TanHalf(m, h), IntThreadDepth(m, h) + h.threadOverlap)
  {
    DepthTimesTangent(m, h);
    var t := TanHalf(m, h);
    assert t * (IntThreadDepth(m, h) + h.threadOverlap) == t * IntThreadDepth(m, h) + h.threadOverlap * t;
  }

  /** Measured across the upper flank from the next internal point 0, external
      points 1 and 2 (shifted by half a pitch) are -(extVertAdj + tan * extClearance)
      off, the mirror image of the lower flank. */
  lemma UpperOffset(m: Math, h: HelicalThreadDim)
    requires Computable(m, h)
    ensures OffsetAcross(ProfilePoint(ExtHelixes(m, h)[1], h.pitch / 2.0), ProfilePoint(IntHelixes(m, h)[0], h.pitch),
                         -TanHalf(m, h), -(ExtVertAdj(m, h) + TanHalf(m, h) * h.extClearance))
    ensures OffsetAcross(ProfilePoint(ExtHelixes(m, h)[2], h.pitch / 2.0), ProfilePoint(IntHelixes(m, h)[0], h.pitch),
                         -TanHalf(m, h), -(ExtVertAdj(m, h) + TanHalf(m, h) * h.extClearance))
  {
    DepthTimesTangent(m, h);
    ExtCollapse(m, h);
    var t, o, cl, depth := TanHalf(m, h), h.threadOverlap, h.extClearance, IntThreadDepth(m, h);
    var l1 := ProfilePoint(IntHelixes(m, h)[0], h.pitch);
    var e1 := ProfilePoint(ExtHelixes(m, h)[1], h.pitch / 2.0);
    var e2 := ProfilePoint(ExtHelixes(m, h)[2], h.pitch / 2.0);
    assert e1.x - l1.x == -(depth + cl + 2.0 * o);
    assert t * (e1.x - l1.x) == -(t * depth) - t * cl - 2.0 * (o * t);
    if Collapses(m, h) {
      var etd := ExtThreadDepth(m, h);
      assert e2.x - l1.x == etd - depth - cl - o;
      assert t * (e2.x - l1.x) == t * etd - t * depth - t * cl - o * t;
    } else {
      assert e2.x - l1.x == -(cl + o);
      assert t * (e2.x - l1.x) == -(t * cl) - o * t;
    }
  }

  /** Upper flank: external points 1 and 2 lie at distance |extClearance| from
      the flank of the next internal thread, through its points 0 and last. */
  lemma UpperFlankClearance(m: Math, h: HelicalThreadDim)
    requires Lawful(m) && Computable(m, h) && CosHalf(m, h) != 0.0
    requires IntThreadDepth(m, h) + h.threadOverlap != 0.0 && h.minorCutoff >= 0.0
    ensures var s := IntHelixes(m, h);
            var l1, l2 := ProfilePoint(s[0], h.pitch), ProfilePoint(s[|s| - 1], h.pitch);
            && PerpendicularDistance(m, ProfilePoint(ExtHelixes(m, h)[1], h.pitch / 2.0), l1, l2) == Abs(h.extClearance)
            && PerpendicularDistance(m, ProfilePoint(ExtHelixes(m, h)[2], h.pitch / 2.0), l1, l2) == Abs(h.extClearance)
  {
    ClearanceConstant(m, h);
    MirroredOffset(ExtVertAdj(m, h) + TanHalf(m, h) * h.extClearance, TanHalf(m, h), h.extClearance);
    UpperFlankSlope(m, h);
    UpperOffset(m, h);
    SlopedLineDistance(m, ProfilePoint(ExtHelixes(m, h)[1], h.pitch / 2.0),
                       ProfilePoint(IntHelixes(m, h)[0], h.pitch),
                       ProfilePoint(IntHelixes(m, h)[|IntHelixes(m, h)| - 1], h.pitch),
                       -TanHalf(m, h), IntThreadDepth(m, h) + h.threadOverlap,
                       -(ExtVertAdj(m, h) + TanHalf(m, h) * h.extClearance), h.extClearance);
    SlopedLineDistance(m, ProfilePoint(ExtHelixes(m, h)[2], h.pitch / 2.0),
                       ProfilePoint(IntHelixes(m, h)[0], h.pitch),
                       ProfilePoint(IntHelixes(m, h)[|IntHelixes(m, h)| - 1], h.pitch),
                       -TanHalf(m, h), IntThreadDepth(m, h) + h.threadOverlap,
                       -(ExtVertAdj(m, h) + TanHalf(m, h) * h.extClearance), h.extClearance);
  }

  /** The internal tips clear the external root: every internal tip point lies
      |extClearance + overlap| from the line through external points 0 and 1,
      which runs along the axis at the external root radius. */
  lemma InternalTipClearance(m: Math, h: HelicalThreadDim)
    requires Lawful(m) && Computable(m, h)
    requires ExtHalfHeightAtRadius(m, h) + OverlapVertAdj(m, h) != 0.0
    ensures var s, e := IntHelixes(m, h), ExtHelixes(m, h);
            forall i :: 2 <= i < |s| ==>
              PerpendicularDistance(m, ProfilePoint(s[i], 0.0),
                                    ProfilePoint(e[0], h.pitch / 2.0), ProfilePoint(e[1], h.pitch / 2.0))
              == Abs(h.extClearance + h.threadOverlap)
  {
    var s, e := IntHelixes(m, h), ExtHelixes(m, h);
    forall i | 2 <= i < |s|
      ensures PerpendicularDistance(m, ProfilePoint(s[i], 0.0),
                                    ProfilePoint(e[0], h.pitch / 2.0), ProfilePoint(e[1], h.pitch / 2.0))
              == Abs(h.extClearance + h.threadOverlap)
    {
      VerticalLineDistance(m, ProfilePoint(s[i], 0.0),
                           ProfilePoint(e[0], h.pitch / 2.0), ProfilePoint(e[1], h.pitch / 2.0));
    }
  }

  /** For a positive tan(angle/2) a collapsed external tip is shallower than
      the internal thread: the depth falls by (extVertAdj - majorCutoff/2) / tan. */
  lemma CollapsedTipShallower(m: Math, h: HelicalThreadDim)
    requires Computable(m, h) && Collapses(m, h) && TanHalf(m, h) > 0.0
    ensures ExtThreadDepth(m, h) < IntThreadDepth(m, h)
  {
    var t, depth, etd := TanHalf(m, h), IntThreadDepth(m, h), ExtThreadDepth(m, h);
    DepthTimesTangent(m, h);
    ExtCollapse(m, h);
    assert t * etd == ExtHalfHeightAtRadius(m, h);
    assert t * depth - t * etd == ExtVertAdj(m, h) - h.majorCutoff / 2.0;
    assert t * (depth - etd) == t * depth - t * etd;
    PositiveFactor(t, depth - etd, t * (depth - etd));
  }

  /** The external tips clear the internal root: every external tip point lies
      |extClearance + overlap| from the line through internal points 0 and 1
      when the tip did not collapse. A collapsed tip is shallower than the
      internal thread, so for a positive tan(angle/2) it stays at least
      extClearance + overlap away. */
  lemma ExternalTipClearance(m: Math, h: HelicalThreadDim)
    requires Lawful(m) && Computable(m, h) && HalfHeightAtRadius(m, h) != 0.0
    ensures var s, e := IntHelixes(m, h), ExtHelixes(m, h);
            forall i :: 2 <= i < |e| ==>
              var d := PerpendicularDistance(m, ProfilePoint(e[i], h.pitch / 2.0),
                                             ProfilePoint(s[0], 0.0), ProfilePoint(s[1], 0.0));
              && (!Collapses(m, h) ==> d == Abs(h.extClearance + h.threadOverlap))
              && (TanHalf(m, h) > 0.0 && h.extClearance + h.threadOverlap >= 0.0 ==>
                    d >= h.extClearance + h.threadOverlap)
  {
    var s, e := IntHelixes(m, h), ExtHelixes(m, h);
    var cl, o := h.extClearance, h.threadOverlap;
    var shallower := IntThreadDepth(m, h) - ExtThreadDepth(m, h);
    if Collapses(m, h) && TanHalf(m, h) > 0.0 {
      CollapsedTipShallower(m, h);
    }
    forall i | 2 <= i < |e|
      ensures var d := PerpendicularDistance(m, ProfilePoint(e[i], h.pitch / 2.0),
                                             ProfilePoint(s[0], 0.0), ProfilePoint(s[1], 0.0));
              && (!Collapses(m, h) ==> d == Abs(cl + o))
              && (TanHalf(m, h) > 0.0 && cl + o >= 0.0 ==> d >= cl + o)
    {
      VerticalLineDistance(m, ProfilePoint(e[i], h.pitch / 2.0), ProfilePoint(s[0], 0.0), ProfilePoint(s[1], 0.0));
      assert ProfilePoint(e[i], h.pitch / 2.0).x - ProfilePoint(s[0], 0.0).x == -(cl + o + shallower);
    }
  }
}
