/** threads.py: ThreadDimensions, which derives the strands of an internal
    thread and of the external thread that fits into it with a clearance, and
    threads, which picks one side's strands, makes one wire per strand and
    rules a face between each wire and the next, cyclically. The flank slope is
    tan(angle/2); unlike helicalthreads.py the overlap widens the root by
    overlap / tan(angle/2), every strand of a side shares one radius, and the
    external tip is never clamped. */
module Threads {
  import opened MathLib
  import opened Common
  import opened WingUtils
  import opened ProfilePoints

  /** The arguments of ThreadDimensions / threads, in call order. A cutoff
      divisor of 0 means no cutoff. */
  datatype ThreadParams = ThreadParams(
    height: real,
    pitch: real,
    diaMajor: real,
    angleDegs: real,
    externalThreads: bool,
    majorDivisor: real,
    minorDivisor: real,
    threadOverlap: real,
    inset: real,
    taperRpos: real,
    extClearance: real)

  function TanHalf(m: Math, p: ThreadParams): real {
    m.tan(Radians(m, p.angleDegs) / 2.0)
  }

  function SinHalf(m: Math, p: ThreadParams): real {
    m.sin(Radians(m, p.angleDegs) / 2.0)
  }

  function CosHalf(m: Math, p: ThreadParams): real {
    m.cos(Radians(m, p.angleDegs) / 2.0)
  }

  /** ThreadDimensions divides by tan and by sin of the half angle; either
      being 0 raises ZeroDivisionError. */
  predicate Computable(m: Math, p: ThreadParams) {
    TanHalf(m, p) != 0.0 && SinHalf(m, p) != 0.0
  }

  /** pitch / divisor, or 0 when the divisor is 0. */
  function CutOff(pitch: real, divisor: real): (r: real)
    ensures divisor == 0.0 ==> r == 0.0
    ensures divisor != 0.0 ==> r * divisor == pitch
  {
    if divisor != 0.0 then pitch / divisor else 0.0
  }

  function MajorCutoff(p: ThreadParams): real {
    CutOff(p.pitch, p.majorDivisor)
  }

  function MinorCutoff(p: ThreadParams): real {
    CutOff(p.pitch, p.minorDivisor)
  }

  /** The thread depth: tip to minor diameter minus tip to major diameter,
      each half height divided by tan(angle/2). */
  function ThreadDepth(m: Math, p: ThreadParams): real
    requires Computable(m, p)
  {
    ((p.pitch - MinorCutoff(p)) / 2.0) / TanHalf(m, p) - (MajorCutoff(p) / 2.0) / TanHalf(m, p)
  }

  /** thread_overlap_vert_adj: overlap / tan(angle/2). */
  function OverlapVertAdj(m: Math, p: ThreadParams): real
    requires Computable(m, p)
  {
    p.threadOverlap / TanHalf(m, p)
  }

  function HalfHeightAtRadius(m: Math, p: ThreadParams): real
    requires Computable(m, p)
  {
    (p.pitch - MajorCutoff(p)) / 2.0 + OverlapVertAdj(m, p)
  }

  /** ext_vert_adj: (clearance / sin(angle/2) - clearance) * tan(angle/2). */
  function ExtVertAdj(m: Math, p: ThreadParams): real
    requires Computable(m, p)
  {
    var h := p.extClearance / SinHalf(m, p);
    (h - p.extClearance) * TanHalf(m, p)
  }

  function ExtHelixRadius(m: Math, p: ThreadParams): real
    requires Computable(m, p)
  {
    p.diaMajor / 2.0 - ThreadDepth(m, p) - p.extClearance
  }

  function ExtHalfHeightAtRadius(m: Math, p: ThreadParams): real
    requires Computable(m, p)
  {
    (p.pitch - MinorCutoff(p)) / 2.0 - ExtVertAdj(m, p) + OverlapVertAdj(m, p)
  }

  function ExtHalfHeightOpposite(m: Math, p: ThreadParams): real
    requires Computable(m, p)
  {
    MajorCutoff(p) / 2.0 - ExtVertAdj(m, p)
  }

  /** The internal strands, all at diaMajor/2 + overlap: two root strands, then
      the tip strands thread depth inside, the second only with a positive
      minor cutoff. */
  function Helixes(m: Math, p: ThreadParams): (r: seq<HelixLocation>)
    requires Computable(m, p)
    ensures |r| == 3 || |r| == 4
    ensures |r| == 4 <==> MinorCutoff(p) > 0.0
    ensures forall i :: 0 <= i < |r| ==> r[i].radius == p.diaMajor / 2.0 + p.threadOverlap
    ensures r[0].horzOffset == r[1].horzOffset == 0.0 && r[0].vertOffset == -r[1].vertOffset
    ensures forall i :: 2 <= i < |r| ==> r[i].horzOffset == -ThreadDepth(m, p)
  {
    var radius, depth := p.diaMajor / 2.0 + p.threadOverlap, ThreadDepth(m, p);
    var opposite := MinorCutoff(p) / 2.0;
    [ HelixLocation(radius, 0.0, -HalfHeightAtRadius(m, p)),
      HelixLocation(radius, 0.0, HalfHeightAtRadius(m, p)),
      HelixLocation(radius, -depth, opposite) ]
    + (if MinorCutoff(p) > 0.0 then [HelixLocation(radius, -depth, -opposite)] else [])
  }

  /** The external strands, all at the external helix radius minus the
      overlap: two root strands, then the tip strands thread depth outside, the
      second only with a positive major cutoff. */
  function ExtHelixes(m: Math, p: ThreadParams): (r: seq<HelixLocation>)
    requires Computable(m, p)
    ensures |r| == 3 || |r| == 4
    ensures |r| == 4 <==> MajorCutoff(p) > 0.0
    ensures forall i :: 0 <= i < |r| ==> r[i].radius == ExtHelixRadius(m, p) - p.threadOverlap
    ensures r[0].horzOffset == r[1].horzOffset == 0.0 && r[0].vertOffset == -r[1].vertOffset
    ensures forall i :: 2 <= i < |r| ==> r[i].horzOffset == ThreadDepth(m, p)
  {
    var radius, depth := ExtHelixRadius(m, p) - p.threadOverlap, ThreadDepth(m, p);
    var atRadius, opposite := ExtHalfHeightAtRadius(m, p), ExtHalfHeightOpposite(m, p);
    [ HelixLocation(radius, 0.0, -atRadius),
      HelixLocation(radius, 0.0, atRadius),
      HelixLocation(radius, depth, opposite) ]
    + (if MajorCutoff(p) > 0.0 then [HelixLocation(radius, depth, -opposite)] else [])
  }

  /** ThreadDimensions: the arguments and every value __init__ derives from
      them, in the order it assigns them. */
  class ThreadDimensions {
    var params: ThreadParams
    var angleRadians: real
    var tanHangle: real
    var sinHangle: real
    var diaMajorCutoff: real
    var diaMinorCutoff: real
    var diaMajorThreadHalfHeight: real
    var diaMinorThreadHalfHeight: real
    var tipToDiaMajor: real
    var tipToDiaMinor: real
    var threadDepth: real
    var helixRadius: real
    var threadOverlapVertAdj: real
    var threadHalfHeightAtHelixRadius: real
    var threadHalfHeightAtOppositeHelixRadius: real
    var helixes: seq<HelixLocation>
    var extVertAdj: real
    var extHelixRadius: real
    var extHelixes: seq<HelixLocation>

    constructor (m: Math, p: ThreadParams)
      requires Computable(m, p)
      ensures params == p
      ensures angleRadians == Radians(m, p.angleDegs)
      ensures tanHangle == TanHalf(m, p) && sinHangle == SinHalf(m, p)
      ensures diaMajorCutoff == MajorCutoff(p) && diaMinorCutoff == MinorCutoff(p)
      ensures diaMajorThreadHalfHeight == MajorCutoff(p) / 2.0
      ensures diaMinorThreadHalfHeight == (p.pitch - MinorCutoff(p)) / 2.0
      ensures TanHalf(m, p) * tipToDiaMajor == diaMajorThreadHalfHeight
      ensures TanHalf(m, p) * tipToDiaMinor == diaMinorThreadHalfHeight
      ensures threadDepth == tipToDiaMinor - tipToDiaMajor && threadDepth == ThreadDepth(m, p)
      ensures helixRadius == p.diaMajor / 2.0
      ensures threadOverlapVertAdj == OverlapVertAdj(m, p)
      ensures threadHalfHeightAtHelixRadius == HalfHeightAtRadius(m, p)
      ensures threadHalfHeightAtOppositeHelixRadius == MinorCutoff(p) / 2.0
      ensures helixes == Helixes(m, p)
      ensures extVertAdj == ExtVertAdj(m, p)
      ensures extHelixRadius == ExtHelixRadius(m, p)
      ensures extHelixes == ExtHelixes(m, p)
    {
      params := p;
      var angleRadians := Radians(m, p.angleDegs);
      var tanHangle := m.tan(angleRadians / 2.0);
      var sinHangle := m.sin(angleRadians / 2.0);
      assert tanHangle == TanHalf(m, p) && sinHangle == SinHalf(m, p);
      var diaMajorCutoff := if p.majorDivisor != 0.0 then p.pitch / p.majorDivisor else 0.0;
      var diaMinorCutoff := if p.minorDivisor != 0.0 then p.pitch / p.minorDivisor else 0.0;
      assert diaMajorCutoff == MajorCutoff(p) && diaMinorCutoff == MinorCutoff(p);
      var diaMajorThreadHalfHeight := diaMajorCutoff / 2.0;
      var diaMinorThreadHalfHeight := (p.pitch - diaMinorCutoff) / 2.0;
      var tipToDiaMajor := diaMajorThreadHalfHeight / tanHangle;
      var tipToDiaMinor := diaMinorThreadHalfHeight / tanHangle;
      assert tanHangle * tipToDiaMajor == diaMajorThreadHalfHeight;
      assert tanHangle * tipToDiaMinor == diaMinorThreadHalfHeight;
      var threadDepth := tipToDiaMinor - tipToDiaMajor;
      assert threadDepth == ThreadDepth(m, p);

      var helixRadius := p.diaMajor / 2.0;
      var threadOverlapVertAdj := p.threadOverlap / tanHangle;
      var threadHalfHeightAtHelixRadius := (p.pitch - diaMajorCutoff) / 2.0 + threadOverlapVertAdj;
      var threadHalfHeightAtOppositeHelixRadius := diaMinorCutoff / 2.0;
      assert threadHalfHeightAtHelixRadius == HalfHeightAtRadius(m, p);

      var helixes := [];
      helixes := helixes + [HelixLocation(helixRadius + p.threadOverlap, 0.0, -threadHalfHeightAtHelixRadius)];
      helixes := helixes + [HelixLocation(helixRadius + p.threadOverlap, 0.0, threadHalfHeightAtHelixRadius)];
      helixes := helixes
        + [HelixLocation(helixRadius + p.threadOverlap, -threadDepth, threadHalfHeightAtOppositeHelixRadius)];
      if diaMinorCutoff > 0.0 {
        helixes := helixes
          + [HelixLocation(helixRadius + p.threadOverlap, -threadDepth, -threadHalfHeightAtOppositeHelixRadius)];
      }
      assert helixes == Helixes(m, p);

      var h := p.extClearance / sinHangle;
      var extVertAdj := (h - p.extClearance) * tanHangle;
      var extHelixRadius := p.diaMajor / 2.0 - threadDepth - p.extClearance;
      assert extVertAdj == ExtVertAdj(m, p);
      var extThreadHalfHeightAtExtHelixRadius := (p.pitch - diaMinorCutoff) / 2.0 - extVertAdj + threadOverlapVertAdj;
      var extThreadHalfHeightAtOppositeExtHelixRadius := diaMajorCutoff / 2.0 - extVertAdj;
      assert extThreadHalfHeightAtExtHelixRadius == ExtHalfHeightAtRadius(m, p);

      var extHelixes := [];
      extHelixes := extHelixes
        + [HelixLocation(extHelixRadius - p.threadOverlap, 0.0, -extThreadHalfHeightAtExtHelixRadius)];
      extHelixes := extHelixes
        + [HelixLocation(extHelixRadius - p.threadOverlap, 0.0, extThreadHalfHeightAtExtHelixRadius)];
      extHelixes := extHelixes
        + [HelixLocation(extHelixRadius - p.threadOverlap, threadDepth, extThreadHalfHeightAtOppositeExtHelixRadius)];
      if diaMajorCutoff > 0.0 {
        extHelixes := extHelixes
          + [HelixLocation(extHelixRadius - p.threadOverlap, threadDepth, -extThreadHalfHeightAtOppositeExtHelixRadius)];
      }
      assert extHelixes == ExtHelixes(m, p);

      this.angleRadians, this.tanHangle, this.sinHangle := angleRadians, tanHangle, sinHangle;
      this.diaMajorCutoff, this.diaMinorCutoff := diaMajorCutoff, diaMinorCutoff;
      this.diaMajorThreadHalfHeight, this.diaMinorThreadHalfHeight := diaMajorThreadHalfHeight, diaMinorThreadHalfHeight;
      this.tipToDiaMajor, this.tipToDiaMinor, this.threadDepth := tipToDiaMajor, tipToDiaMinor, threadDepth;
      this.helixRadius, this.threadOverlapVertAdj := helixRadius, threadOverlapVertAdj;
      this.threadHalfHeightAtHelixRadius := threadHalfHeightAtHelixRadius;
      this.threadHalfHeightAtOppositeHelixRadius := threadHalfHeightAtOppositeHelixRadius;
      this.helixes := helixes;
      this.extVertAdj, this.extHelixRadius, this.extHelixes := extVertAdj, extHelixRadius, extHelixes;
    }
  }

  /** The faces of threads for n wires: face k rules wire k to wire (k + 1) % n. */
  function CyclicFaces(n: nat): (r: seq<RuledFace>)
    requires n > 0
    ensures |r| == n
    ensures forall f :: f in r ==> f.first < n && f.second < n
    ensures n > 1 ==> forall f :: f in r ==> f.first != f.second
  {
    seq(n, k requires 0 <= k < n => RuledFace(k, (k + 1) % n))
  }

  /** One wire per strand of the chosen side, in strand order, each a taperable
      helix call with the strand's radius and offsets. */
  function Wires(locations: seq<HelixLocation>, p: ThreadParams): (r: seq<TaperArgs>)
    ensures |r| == |locations|
    ensures forall i :: 0 <= i < |r| ==>
              && r[i].radius == locations[i].radius
              && r[i].horzOffset == locations[i].horzOffset
              && r[i].vertOffset == locations[i].vertOffset
              && r[i].pitch == p.pitch && r[i].height == p.height
              && r[i].taperRpos == p.taperRpos && r[i].inset == p.inset
  {
    seq(|locations|, i requires 0 <= i < |locations| =>
      TaperArgs(locations[i].radius, p.pitch, p.height, p.taperRpos, p.inset,
                locations[i].horzOffset, locations[i].vertOffset))
  }

  /** The strands threads builds: the internal ones unless externalThreads. */
  function Selected(m: Math, p: ThreadParams): (r: seq<HelixLocation>)
    requires Computable(m, p)
    ensures |r| == 3 || |r| == 4
    ensures |r| == 4 <==> (if p.externalThreads then MajorCutoff(p) else MinorCutoff(p)) > 0.0
  {
    if p.externalThreads then ExtHelixes(m, p) else Helixes(m, p)
  }

  /** threads without the solid: the dimensions, the wires and the faces
      handed to the geometry kernel. */
  method ThreadsOf(m: Math, p: ThreadParams) returns (td: ThreadDimensions, wires: seq<TaperArgs>, faces: seq<RuledFace>)
    requires Computable(m, p)
    ensures fresh(td)
    ensures td.params == p
    ensures td.helixes == Helixes(m, p) && td.extHelixes == ExtHelixes(m, p)
    ensures td.threadDepth == ThreadDepth(m, p)
    ensures wires == Wires(Selected(m, p), p)
    ensures |wires| == 3 || |wires| == 4
    ensures faces == CyclicFaces(|wires|)
  {
    td := new ThreadDimensions(m, p);
    var helixLocations := if !p.externalThreads then td.helixes else td.extHelixes;
    wires := seq(|helixLocations|, i requires 0 <= i < |helixLocations| =>
      TaperArgs(helixLocations[i].radius, p.pitch, p.height, p.taperRpos, p.inset,
                helixLocations[i].horzOffset, helixLocations[i].vertOffset));
    var lenWires := |wires|;
    assert lenWires == 3 || lenWires == 4;

    faces := [];
    faces := faces + [RuledFace(0, 1)];
    faces := faces + [RuledFace(1, 2)];
    if lenWires == 4 {
      faces := faces + [RuledFace(2, 3)];
    }
    faces := faces + [RuledFace(lenWires - 1, 0)];
    assert forall k :: 0 <= k < lenWires ==> faces[k] == CyclicFaces(lenWires)[k];
  }

  /** threads makes 4 wires exactly when the chosen side has a fourth strand:
      a positive minor cutoff for an internal thread, a positive major cutoff
      for an external one. Every wire of a side shares one radius. */
  lemma SelectedWires(m: Math, p: ThreadParams)
    requires Computable(m, p)
    ensures var w := Wires(Selected(m, p), p);
            && (|w| == 3 || |w| == 4)
            && (|w| == 4 <==> (if p.externalThreads then MajorCutoff(p) else MinorCutoff(p)) > 0.0)
            && (forall i :: 0 <= i < |w| ==> w[i].radius == w[0].radius)
            && (!p.externalThreads ==> w[0].radius == p.diaMajor / 2.0 + p.threadOverlap)
            && (p.externalThreads ==> w[0].radius == ExtHelixRadius(m, p) - p.threadOverlap)
  {
    IntStrands(m, p);
    ExtStrands(m, p);
  }

  /** The thread depth is the run of the flank: tan(angle/2) times it is the
      drop (pitch - minorCutoff)/2 - majorCutoff/2, and tan(angle/2) times the
      overlap adjustment is the overlap. */
  lemma DepthTimesTangent(m: Math, p: ThreadParams)
    requires Computable(m, p)
    ensures TanHalf(m, p) * ThreadDepth(m, p) == (p.pitch - MinorCutoff(p)) / 2.0 - MajorCutoff(p) / 2.0
    ensures TanHalf(m, p) * OverlapVertAdj(m, p) == p.threadOverlap
  {
    var t := TanHalf(m, p);
    var a, b := (p.pitch - MinorCutoff(p)) / 2.0, MajorCutoff(p) / 2.0;
    assert t * (a / t) == a;
    assert t * (b / t) == b;
    assert t * (a / t - b / t) == t * (a / t) - t * (b / t);
    assert t * (p.threadOverlap / t) == p.threadOverlap;
  }

  /** 3 or 4 internal strands, 4 exactly when the minor cutoff is positive; all
      share the radius diaMajor/2 + overlap. The root strands have no radial
      offset and mirrored vertical offsets (pitch - majorCutoff)/2 + overlap / tan;
      the tip strands sit thread depth inside at +/- minorCutoff/2. */
  lemma IntStrands(m: Math, p: ThreadParams)
    requires Computable(m, p)
    ensures var s := Helixes(m, p);
            && (|s| == 3 || |s| == 4)
            && (|s| == 4 <==> MinorCutoff(p) > 0.0)
            && (forall i :: 0 <= i < |s| ==> s[i].radius == p.diaMajor / 2.0 + p.threadOverlap)
            && s[0].horzOffset == 0.0 && s[1].horzOffset == 0.0
            && s[0].vertOffset == -s[1].vertOffset
            && s[1].vertOffset == (p.pitch - MajorCutoff(p)) / 2.0 + p.threadOverlap / TanHalf(m, p)
            && (forall i :: 2 <= i < |s| ==> s[i].horzOffset == -ThreadDepth(m, p))
            && s[2].vertOffset == MinorCutoff(p) / 2.0
            && (|s| == 4 ==> s[3].vertOffset == -s[2].vertOffset)
  {
  }

  /** 3 or 4 external strands, 4 exactly when the major cutoff is positive; all
      share the radius diaMajor/2 - depth - clearance - overlap. The root
      strands have no radial offset and mirrored vertical offsets; the tip
      strands sit thread depth outside at +/- (majorCutoff/2 - extVertAdj). */
  lemma ExtStrands(m: Math, p: ThreadParams)
    requires Computable(m, p)
    ensures var s := ExtHelixes(m, p);
            && (|s| == 3 || |s| == 4)
            && (|s| == 4 <==> MajorCutoff(p) > 0.0)
            && (forall i :: 0 <= i < |s| ==>
                  s[i].radius == p.diaMajor / 2.0 - ThreadDepth(m, p) - p.extClearance - p.threadOverlap)
            && s[0].horzOffset == 0.0 && s[1].horzOffset == 0.0
            && s[0].vertOffset == -s[1].vertOffset
            && s[1].vertOffset
               == (p.pitch - MinorCutoff(p)) / 2.0 - ExtVertAdj(m, p) + p.threadOverlap / TanHalf(m, p)
            && (forall i :: 2 <= i < |s| ==> s[i].horzOffset == ThreadDepth(m, p))
            && s[2].vertOffset == MajorCutoff(p) / 2.0 - ExtVertAdj(m, p)
            && (|s| == 4 ==> s[3].vertOffset == -s[2].vertOffset)
  {
  }

  /** There is no clamp: when the vertical adjustment for the clearance exceeds
      majorCutoff/2, the two external tip strands are still both built, with
      the first of them below the axis line and the second above it, the
      reverse of their order otherwise. */
  lemma NoClamp(m: Math, p: ThreadParams)
    requires Computable(m, p) && MajorCutoff(p) > 0.0 && MajorCutoff(p) / 2.0 < ExtVertAdj(m, p)
    ensures var s := ExtHelixes(m, p);
            |s| == 4 && s[2].vertOffset < 0.0 < s[3].vertOffset
  {
  }

  /** Face k joins wire k to the next wire, the last one back to wire 0: for 3
      or 4 wires there is one face per wire, no face joins a wire to itself,
      and every wire is in exactly two faces. */
  lemma CyclicFacesCoverEveryStrandTwice(n: nat)
    requires n == 3 || n == 4
    ensures |CyclicFaces(n)| == n
    ensures forall f :: f in CyclicFaces(n) ==> f.first < n && f.second < n && f.first != f.second
    ensures forall s :: 0 <= s < n ==> FacesOf(CyclicFaces(n), s) == 2
  {
    var faces := CyclicFaces(n);
    forall s | 0 <= s < n
      ensures FacesOf(faces, s) == 2
    {
      var f1 := faces[1..];
      var f2 := f1[1..];
      var f3 := f2[1..];
      assert FacesOf(faces, s) == (if s == 0 || s == 1 then 1 else 0) + FacesOf(f1, s);
      assert FacesOf(f1, s) == (if s == 1 || s == 2 then 1 else 0) + FacesOf(f2, s);
      assert FacesOf(f2, s) == (if s == 2 || s == (3 % n) then 1 else 0) + FacesOf(f3, s);
      if n == 4 {
        assert f3[1..] == [];
        assert FacesOf(f3, s) == (if s == 3 || s == 0 then 1 else 0);
      } else {
        assert f3 == [];
      }
    }
  }

  /** Without overlap the internal flank from strand 1 to strand 2 keeps the
      slope tan(angle/2) over the run of the thread depth. */
  lemma FlankSlope(m: Math, p: ThreadParams)
    requires Computable(m, p) && p.threadOverlap == 0.0
    ensures SlopeRun(ProfilePoint(Helixes(m, p)[1], 0.0), ProfilePoint(Helixes(m, p)[2], 0.0),
                     TanHalf(m, p), ThreadDepth(m, p))
  {
    DepthTimesTangent(m, p);
  }

  /** The vertical adjustment plus tan * clearance amounts to exactly the
      clearance across a flank of slope tan(angle/2). */
  lemma ClearanceConstant(m: Math, p: ThreadParams)
    requires Lawful(m) && Computable(m, p) && CosHalf(m, p) != 0.0
    ensures (ExtVertAdj(m, p) + TanHalf(m, p) * p.extClearance) * CosHalf(m, p) == p.extClearance
    ensures PerpendicularOffset(ExtVertAdj(m, p) + TanHalf(m, p) * p.extClearance, TanHalf(m, p), p.extClearance)
  {
    var x := Radians(m, p.angleDegs) / 2.0;
    TangentIdentities(m, x);
    ClearanceOverCosine(m, x, p.extClearance);
    OffsetFromCosine(ExtVertAdj(m, p) + TanHalf(m, p) * p.extClearance, TanHalf(m, p), CosHalf(m, p), p.extClearance);
  }

  /** Without overlap, measured across the internal flank from internal
      point 1, the first external point (half a pitch up) is
      extVertAdj + tan * extClearance off. */
  lemma RootOffset(m: Math, p: ThreadParams)
    requires Computable(m, p) && p.threadOverlap == 0.0
    ensures OffsetAcross(ProfilePoint(ExtHelixes(m, p)[0], p.pitch / 2.0), ProfilePoint(Helixes(m, p)[1], 0.0),
                         TanHalf(m, p), ExtVertAdj(m, p) + TanHalf(m, p) * p.extClearance)
  {
    DepthTimesTangent(m, p);
    var t, depth, cl := TanHalf(m, p), ThreadDepth(m, p), p.extClearance;
    var l1 := ProfilePoint(Helixes(m, p)[1], 0.0);
    var e0 := ProfilePoint(ExtHelixes(m, p)[0], p.pitch / 2.0);
    assert e0.x - l1.x == -(depth + cl);
    assert t * (e0.x - l1.x) == -(t * depth) - t * cl;
  }

  /** Without overlap the fourth external point is as far off as the first. */
  lemma TipOffset(m: Math, p: ThreadParams)
    requires Computable(m, p) && p.threadOverlap == 0.0 && MajorCutoff(p) > 0.0
    ensures |ExtHelixes(m, p)| == 4
    ensures OffsetAcross(ProfilePoint(ExtHelixes(m, p)[3], p.pitch / 2.0), ProfilePoint(Helixes(m, p)[1], 0.0),
                         TanHalf(m, p), ExtVertAdj(m, p) + TanHalf(m, p) * p.extClearance)
  {
    var l1 := ProfilePoint(Helixes(m, p)[1], 0.0);
    var e3 := ProfilePoint(ExtHelixes(m, p)[3], p.pitch / 2.0);
    assert e3.x - l1.x == -p.extClearance;
    assert e3.y - l1.y == ExtVertAdj(m, p);
  }

  /** Without overlap or a major cutoff the third and last external point is
      tan * extClearance - extVertAdj off: the adjustment counts against it. */
  lemma ShortTipOffset(m: Math, p: ThreadParams)
    requires Computable(m, p) && p.threadOverlap == 0.0 && MajorCutoff(p) == 0.0
    ensures |ExtHelixes(m, p)| == 3
    ensures OffsetAcross(ProfilePoint(ExtHelixes(m, p)[2], p.pitch / 2.0), ProfilePoint(Helixes(m, p)[1], 0.0),
                         TanHalf(m, p), TanHalf(m, p) * p.extClearance - ExtVertAdj(m, p))
  {
    var l1 := ProfilePoint(Helixes(m, p)[1], 0.0);
    var e2 := ProfilePoint(ExtHelixes(m, p)[2], p.pitch / 2.0);
    assert e2.x - l1.x == -p.extClearance;
    assert e2.y - l1.y == -ExtVertAdj(m, p);
  }

  /** tan * extClearance - extVertAdj amounts to extClearance * (2 sin - 1)
      across the flank. */
  lemma ShortfallConstant(m: Math, p: ThreadParams)
    requires Lawful(m) && Computable(m, p) && CosHalf(m, p) != 0.0
    ensures PerpendicularOffset(TanHalf(m, p) * p.extClearance - ExtVertAdj(m, p), TanHalf(m, p),
                                p.extClearance * (2.0 * SinHalf(m, p) - 1.0))
  {
    ClearanceConstant(m, p);
    TangentIdentities(m, Radians(m, p.angleDegs) / 2.0);
    var t, s, c, cl := TanHalf(m, p), SinHalf(m, p), CosHalf(m, p), p.extClearance;
    var k := t * cl - ExtVertAdj(m, p);
    assert k == 2.0 * (t * cl) - (ExtVertAdj(m, p) + t * cl);
    assert k * c == 2.0 * (cl * (t * c)) - (ExtVertAdj(m, p) + t * cl) * c;
    OffsetFromCosine(k, t, c, cl * (2.0 * s - 1.0));
  }

  /** Lower flank, without overlap: the first external point (half a pitch up)
      lies |extClearance| from the internal flank through internal points 1
      and 2. */
  lemma LowerFlankRootClearance(m: Math, p: ThreadParams)
    requires Lawful(m) && Computable(m, p) && CosHalf(m, p) != 0.0
    requires p.threadOverlap == 0.0 && ThreadDepth(m, p) != 0.0
    ensures PerpendicularDistance(m, ProfilePoint(ExtHelixes(m, p)[0], p.pitch / 2.0),
                                  ProfilePoint(Helixes(m, p)[1], 0.0), ProfilePoint(Helixes(m, p)[2], 0.0))
            == Abs(p.extClearance)
  {
    ClearanceConstant(m, p);
    FlankSlope(m, p);
    RootOffset(m, p);
    SlopedLineDistance(m, ProfilePoint(ExtHelixes(m, p)[0], p.pitch / 2.0),
                       ProfilePoint(Helixes(m, p)[1], 0.0), ProfilePoint(Helixes(m, p)[2], 0.0),
                       TanHalf(m, p), ThreadDepth(m, p),
                       ExtVertAdj(m, p) + TanHalf(m, p) * p.extClearance, p.extClearance);
  }

  /** Lower flank, without overlap and with a major cutoff: the fourth (last)
      external point lies |extClearance| from the internal flank too. */
  lemma LowerFlankTipClearance(m: Math, p: ThreadParams)
    requires Lawful(m) && Computable(m, p) && CosHalf(m, p) != 0.0
    requires p.threadOverlap == 0.0 && ThreadDepth(m, p) != 0.0 && MajorCutoff(p) > 0.0
    ensures |ExtHelixes(m, p)| == 4
    ensures PerpendicularDistance(m, ProfilePoint(ExtHelixes(m, p)[3], p.pitch / 2.0),
                                  ProfilePoint(Helixes(m, p)[1], 0.0), ProfilePoint(Helixes(m, p)[2], 0.0))
            == Abs(p.extClearance)
  {
    ClearanceConstant(m, p);
    FlankSlope(m, p);
    TipOffset(m, p);
    SlopedLineDistance(m, ProfilePoint(ExtHelixes(m, p)[3], p.pitch / 2.0),
                       ProfilePoint(Helixes(m, p)[1], 0.0), ProfilePoint(Helixes(m, p)[2], 0.0),
                       TanHalf(m, p), ThreadDepth(m, p),
                       ExtVertAdj(m, p) + TanHalf(m, p) * p.extClearance, p.extClearance);
  }

  /** Without a major cutoff the external thread has 3 strands and, with no
      clamp, its tip sits extVertAdj below the middle of the gap instead of on
      it: the tip, the last external point, lies only
      |extClearance * (2 sin(angle/2) - 1)| from the internal flank, which is
      less than |extClearance| for every angle strictly between 0 and 180
      degrees and every non-zero clearance. */
  lemma TriangularTipShortfall(m: Math, p: ThreadParams)
    requires Lawful(m) && Computable(m, p) && CosHalf(m, p) != 0.0
    requires p.threadOverlap == 0.0 && ThreadDepth(m, p) != 0.0 && MajorCutoff(p) == 0.0
    ensures |ExtHelixes(m, p)| == 3
    ensures PerpendicularDistance(m, ProfilePoint(ExtHelixes(m, p)[2], p.pitch / 2.0),
                                  ProfilePoint(Helixes(m, p)[1], 0.0), ProfilePoint(Helixes(m, p)[2], 0.0))
            == Abs(p.extClearance * (2.0 * SinHalf(m, p) - 1.0))
    ensures 0.0 < p.angleDegs < 180.0 && p.extClearance != 0.0 ==>
              Abs(p.extClearance * (2.0 * SinHalf(m, p) - 1.0)) < Abs(p.extClearance)
  {
    ShortfallConstant(m, p);
    FlankSlope(m, p);
    ShortTipOffset(m, p);
    SlopedLineDistance(m, ProfilePoint(ExtHelixes(m, p)[2], p.pitch / 2.0),
                       ProfilePoint(Helixes(m, p)[1], 0.0), ProfilePoint(Helixes(m, p)[2], 0.0),
                       TanHalf(m, p), ThreadDepth(m, p),
                       TanHalf(m, p) * p.extClearance - ExtVertAdj(m, p), p.extClearance * (2.0 * SinHalf(m, p) - 1.0));
    if 0.0 < p.angleDegs < 180.0 && p.extClearance != 0.0 {
      ShortfallBelowClearance(m, p);
    }
  }

  /** Across the root of the internal thread (the vertical line through
      internal points 0 and 1) the external tips lie |extClearance + 2 *
      overlap| off: the overlap moves the internal strands out and the
      external strands in, so without overlap this is the clearance. */
  lemma TipsClearRoot(m: Math, p: ThreadParams)
    requires Lawful(m) && Computable(m, p) && HalfHeightAtRadius(m, p) != 0.0
    ensures var e, i := ExtHelixes(m, p), Helixes(m, p);
            forall k :: 2 <= k < |e| ==>
              PerpendicularDistance(m, ProfilePoint(e[k], p.pitch / 2.0), ProfilePoint(i[0], 0.0),
                                    ProfilePoint(i[1], 0.0))
              == Abs(p.extClearance + 2.0 * p.threadOverlap)
  {
    var e, i := ExtHelixes(m, p), Helixes(m, p);
    forall k | 2 <= k < |e|
      ensures PerpendicularDistance(m, ProfilePoint(e[k], p.pitch / 2.0), ProfilePoint(i[0], 0.0),
                                    ProfilePoint(i[1], 0.0))
              == Abs(p.extClearance + 2.0 * p.threadOverlap)
    {
      VerticalLineDistance(m, ProfilePoint(e[k], p.pitch / 2.0), ProfilePoint(i[0], 0.0), ProfilePoint(i[1], 0.0));
      assert ProfilePoint(e[k], p.pitch / 2.0).x - ProfilePoint(i[0], 0.0).x
             == -(p.extClearance + 2.0 * p.threadOverlap);
    }
  }

  /** Across the tip of the internal thread (the vertical line through
      internal points 2 and 3, present with a positive minor cutoff) the
      external roots lie |extClearance + 2 * overlap| off as well. */
  lemma RootClearsTips(m: Math, p: ThreadParams)
    requires Lawful(m) && Computable(m, p) && MinorCutoff(p) > 0.0
    ensures |Helixes(m, p)| == 4
    ensures var e, i := ExtHelixes(m, p), Helixes(m, p);
            forall k :: 0 <= k < 2 ==>
              PerpendicularDistance(m, ProfilePoint(e[k], p.pitch / 2.0), ProfilePoint(i[2], 0.0),
                                    ProfilePoint(i[3], 0.0))
              == Abs(p.extClearance + 2.0 * p.threadOverlap)
  {
    var e, i := ExtHelixes(m, p), Helixes(m, p);
    forall k | 0 <= k < 2
      ensures PerpendicularDistance(m, ProfilePoint(e[k], p.pitch / 2.0), ProfilePoint(i[2], 0.0),
                                    ProfilePoint(i[3], 0.0))
              == Abs(p.extClearance + 2.0 * p.threadOverlap)
    {
      VerticalLineDistance(m, ProfilePoint(e[k], p.pitch / 2.0), ProfilePoint(i[2], 0.0), ProfilePoint(i[3], 0.0));
      assert ProfilePoint(e[k], p.pitch / 2.0).x - ProfilePoint(i[2], 0.0).x
             == -(p.extClearance + 2.0 * p.threadOverlap);
    }
  }

  /** For an angle strictly between 0 and 180 degrees and a non-zero clearance
      the shortfall is real: |extClearance * (2 sin(angle/2) - 1)| < |extClearance|. */
  lemma ShortfallBelowClearance(m: Math, p: ThreadParams)
    requires Lawful(m) && 0.0 < p.angleDegs < 180.0 && p.extClearance != 0.0
    ensures Abs(p.extClearance * (2.0 * SinHalf(m, p) - 1.0)) < Abs(p.extClearance)
  {
    SineBelowOne(m, p);
    assert -1.0 < 2.0 * SinHalf(m, p) - 1.0 < 1.0;
    ShrunkClearance(p.extClearance, 2.0 * SinHalf(m, p) - 1.0);
  }

  /** For an angle strictly between 0 and 180 degrees the sine of its half is
      strictly between 0 and 1. */
  lemma SineBelowOne(m: Math, p: ThreadParams)
    requires Lawful(m) && 0.0 < p.angleDegs < 180.0
    ensures 0.0 < SinHalf(m, p) < 1.0
  {
    var x := Radians(m, p.angleDegs) / 2.0;
    assert x == p.angleDegs * (m.pi / 360.0);
    assert p.angleDegs * (m.pi / 360.0) < 180.0 * (m.pi / 360.0);
    assert 0.0 < p.angleDegs * (m.pi / 360.0);
    var s, c, tn := m.sin(x), m.cos(x), m.tan(x);
    assert 0.0 < s && 0.0 < c;
    assert s * s + c * c == 1.0;
    SquarePositive(c, c * c);
    assert (1.0 + s) * (1.0 - s) == 1.0 - s * s;
    PositiveFactor(1.0 + s, 1.0 - s, (1.0 + s) * (1.0 - s));
  }

  /** Scaling a non-zero value by a factor strictly between -1 and 1 shrinks
      its absolute value. */
  lemma ShrunkClearance(cl: real, f: real)
    requires cl != 0.0 && -1.0 < f < 1.0
    ensures Abs(cl * f) < Abs(cl)
  {
    if 0.0 <= f {
      if 0.0 < cl { assert cl * f < cl; } else { assert cl < cl * f; }
    } else {
      if 0.0 < cl { assert -cl < cl * f; } else { assert cl * f < -cl; }
    }
  }
}
