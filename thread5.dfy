/** thread5.py: the derivation of thread4.py, with each wire a call of the
    taperable helix (radius, pitch, height, taper_rpos, inset, horz_offset,
    vert_offset) instead of thread4's own closure. */
module Thread5 {
  import opened MathLib
  import opened Common
  import opened FullAngleProfile
  import Thread4

  /** One taperable-helix call per strand, carrying the strand's radius and
      offsets and the shared pitch, height, taper position and inset. */
  function Wires(m: Math, height: real, d: Dims, inset: real, taperRpos: real): (r: seq<TaperArgs>)
    requires Computable(d)
    ensures |r| == 3 || |r| == 4
    ensures |r| == 4 <==> CutOff(d.pitch, d.majorDivisor) > 0.0
    ensures forall i :: 0 <= i < |r| ==>
              && r[i].radius == Derive(m, d).helixRadius
              && r[i].horzOffset == Strands(Derive(m, d))[i].horzOffset
              && r[i].vertOffset == Strands(Derive(m, d))[i].vertOffset
              && r[i].pitch == d.pitch && r[i].height == height
              && r[i].taperRpos == taperRpos && r[i].inset == inset
  {
    var s := Strands(Derive(m, d));
    seq(|s|, i requires 0 <= i < |s| =>
      TaperArgs(s[i].radius, d.pitch, height, taperRpos, inset, s[i].horzOffset, s[i].vertOffset))
  }

  /** threads of thread5.py without the solid: the wires, the faces and the
      thread depth it returns. */
  method Threads(m: Math, height: real, d: Dims, inset: real, taperRpos: real)
    returns (wires: seq<TaperArgs>, faces: seq<RuledFace>, threadDepth: real)
    requires Computable(d)
    ensures wires == Wires(m, height, d, inset, taperRpos)
    ensures |wires| == 3 || |wires| == 4
    ensures faces == Faces(|wires|)
    ensures threadDepth == Derive(m, d).threadDepth
  {
    var angleRadians := Radians(m, d.angleDegs);
    var tanAngle := m.tan(angleRadians);
    var diaMajorCutOff := if d.majorDivisor.Some? then d.pitch / d.majorDivisor.value else 0.0;
    var diaMinorCutOff := if d.minorDivisor.Some? then d.pitch / d.minorDivisor.value else 0.0;
    var diaMajorThreadHalfHeight := diaMajorCutOff / 2.0;
    var diaMinorThreadHalfHeight := (d.pitch - diaMinorCutOff) / 2.0;
    var diaMajorToTip := diaMajorThreadHalfHeight * tanAngle;
    var diaMinorToTip := diaMinorThreadHalfHeight * tanAngle;
    threadDepth := diaMinorToTip - diaMajorToTip;

    var helixRadius, atRadius, oppositeRadius, td;
    if d.externalThreads {
      helixRadius := d.diaMajor / 2.0 - (threadDepth + d.threadOverlap);
      atRadius := (d.pitch - diaMinorCutOff) / 2.0;
      oppositeRadius := diaMajorCutOff / 2.0;
      td := threadDepth + d.threadOverlap;
    } else {
      helixRadius := d.diaMajor / 2.0 + d.threadOverlap;
      atRadius := (d.pitch - diaMajorCutOff) / 2.0;
      oppositeRadius := diaMinorCutOff / 2.0;
      td := -(threadDepth + d.threadOverlap);
    }

    wires := [];
    wires := wires + [TaperArgs(helixRadius, d.pitch, height, taperRpos, inset, 0.0, -atRadius)];
    wires := wires + [TaperArgs(helixRadius, d.pitch, height, taperRpos, inset, 0.0, atRadius)];
    wires := wires + [TaperArgs(helixRadius, d.pitch, height, taperRpos, inset, td, -oppositeRadius)];
    if diaMajorThreadHalfHeight > 0.0 {
      wires := wires + [TaperArgs(helixRadius, d.pitch, height, taperRpos, inset, td, oppositeRadius)];
    }
    assert |wires| == 3 || |wires| == 4;
    assert diaMajorCutOff == CutOff(d.pitch, d.majorDivisor);
    assert diaMinorCutOff == CutOff(d.pitch, d.minorDivisor);
    assert Derive(m, d) == Profile(diaMajorCutOff, diaMinorCutOff, diaMajorThreadHalfHeight, threadDepth,
                                   helixRadius, atRadius, oppositeRadius, td);
    assert forall i :: 0 <= i < |wires| ==> wires[i] == Wires(m, height, d, inset, taperRpos)[i];

    faces := [];
    faces := faces + [RuledFace(0, 1)];
    faces := faces + [RuledFace(|wires| - 2, |wires| - 1)];
    faces := faces + [RuledFace(0, 2)];
    if |wires| == 4 {
      faces := faces + [RuledFace(1, |wires| - 1)];
    }
  }

  /** thread5.py hands the taperable helix the same strands, in the same order,
      as thread4.py hands its own closure: same count, radius and offsets, and
      the same faces. */
  lemma SameStrandsAsThread4(m: Math, height: real, d: Dims, inset: real, frac: real, taperRpos: real)
    requires Computable(d)
    ensures var w5 := Wires(m, height, d, inset, taperRpos);
            var w4 := Thread4.Wires(m, height, d, inset, frac);
            && |w5| == |w4|
            && forall i :: 0 <= i < |w5| ==>
                 && w5[i].radius == w4[i].radius
                 && w5[i].horzOffset == w4[i].threadDepth
                 && w5[i].vertOffset == w4[i].threadHalfHeight
                 && w5[i].pitch == w4[i].pitch && w5[i].height == w4[i].height
                 && w5[i].inset == w4[i].inset
  {
  }
}
