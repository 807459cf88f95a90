/** The 2-D point and line helpers of wing_utils.py. A point is an (x, y) pair of
    reals; a line is given by two of its points. */
module WingUtils {
  import opened MathLib

  datatype Pt2 = Pt2(x: real, y: real)

  /** xDist_2d: how far p1 lies past p2 along x. */
  function XDist(p1: Pt2, p2: Pt2): (r: real)
    ensures p2.x + r == p1.x
  {
    p1.x - p2.x
  }

  /** yDist_2d: how far p1 lies past p2 along y. */
  function YDist(p1: Pt2, p2: Pt2): (r: real)
    ensures p2.y + r == p1.y
  {
    p1.y - p2.y
  }

  /** sumPts: taking p2 away again leaves p1. */
  function SumPts(p1: Pt2, p2: Pt2): (r: Pt2)
    ensures r.x - p2.x == p1.x && r.y - p2.y == p1.y
  {
    Pt2(p1.x + p2.x, p1.y + p2.y)
  }

  /** diffPts: adding p2 back gives p1. */
  function DiffPts(p1: Pt2, p2: Pt2): (r: Pt2)
    ensures r.x + p2.x == p1.x && r.y + p2.y == p1.y
  {
    Pt2(p1.x - p2.x, p1.y - p2.y)
  }

  /** prodPts: the component-wise product. */
  function ProdPts(p1: Pt2, p2: Pt2): Pt2
  {
    Pt2(p1.x * p2.x, p1.y * p2.y)
  }

  /** crossProdPts: computed as a component-wise product with the swapped
      second point, it is the 2-D cross product its documentation promises. */
  function CrossProd(p1: Pt2, p2: Pt2): (r: real)
    ensures r == p1.x * p2.y - p1.y * p2.x
  {
    var prod := ProdPts(p1, Pt2(p2.y, p2.x));
    prod.x - prod.y
  }

  /** prodPts does not depend on the order of its arguments, has (1, 1) as
      identity and (0, 0) as zero. */
  lemma ProdPtsCommutes(p: Pt2, q: Pt2)
    ensures ProdPts(p, q) == ProdPts(q, p)
    ensures ProdPts(p, Pt2(1.0, 1.0)) == p
    ensures ProdPts(p, Pt2(0.0, 0.0)) == Pt2(0.0, 0.0)
  {
  }

  /** Subtracting what was added gives the point back. */
  lemma DiffUndoesSum(p: Pt2, q: Pt2)
    ensures DiffPts(SumPts(p, q), q) == p
    ensures SumPts(DiffPts(p, q), q) == p
  {
  }

  /** The distances along each axis change sign with the order of the points. */
  lemma DistAntisymmetric(p: Pt2, q: Pt2)
    ensures XDist(p, q) == -XDist(q, p) && YDist(p, q) == -YDist(q, p)
    ensures DiffPts(p, q) == Pt2(XDist(p, q), YDist(p, q))
  {
  }

  /** The cross product is antisymmetric and vanishes on equal points. */
  lemma CrossAntisymmetric(p: Pt2, q: Pt2)
    ensures CrossProd(p, q) == -CrossProd(q, p)
    ensures CrossProd(p, p) == 0.0
  {
  }

  /** translate_2d: every point shifted by `t`, in order. */
  function Translate2d(lst: seq<Pt2>, t: Pt2): (r: seq<Pt2>)
    ensures |r| == |lst|
    ensures forall i :: 0 <= i < |lst| ==> r[i] == SumPts(lst[i], t)
  {
    seq(|lst|, i requires 0 <= i < |lst| => SumPts(lst[i], t))
  }

  /** Translating by t and then by -t gives back the same list. */
  lemma TranslateRoundTrip(lst: seq<Pt2>, t: Pt2)
    ensures Translate2d(Translate2d(lst, t), Pt2(-t.x, -t.y)) == lst
  {
    var back := Translate2d(Translate2d(lst, t), Pt2(-t.x, -t.y));
    assert forall i :: 0 <= i < |lst| ==> back[i] == lst[i];
  }

  /** slope_2d: yDist / xDist, or +-radians(90) for a vertical line, the sign
      being that of yDist with 0 counting as positive. */
  function Slope2d(m: Math, p1: Pt2, p2: Pt2): (r: real)
    ensures XDist(p1, p2) != 0.0 ==> r * XDist(p1, p2) == YDist(p1, p2)
    ensures XDist(p1, p2) == 0.0 && YDist(p1, p2) >= 0.0 ==> r == Radians(m, 90.0)
    ensures XDist(p1, p2) == 0.0 && YDist(p1, p2) < 0.0 ==> r == -Radians(m, 90.0)
  {
    var d := DiffPts(p1, p2);
    if d.x == 0.0 then (if d.y >= 0.0 then 1.0 else -1.0) * Radians(m, 90.0)
    else d.y / d.x
  }

  /** The slope of a non-vertical line does not depend on the order of its
      points; for a vertical one it flips sign unless both points coincide. */
  lemma SlopeSymmetry(m: Math, p1: Pt2, p2: Pt2)
    ensures XDist(p1, p2) != 0.0 ==> Slope2d(m, p1, p2) == Slope2d(m, p2, p1)
    ensures XDist(p1, p2) == 0.0 && YDist(p1, p2) != 0.0
            ==> Slope2d(m, p1, p2) == -Slope2d(m, p2, p1)
  {
  }

  /** slope_yIntercept_2d as written: the intercept pairs the y of the first
      point with the x of the second. Result is (slope, yIntercept). */
  function SlopeYIntercept2dAsWritten(m: Math, p1: Pt2, p2: Pt2): (r: (real, real))
    ensures XDist(p1, p2) != 0.0 ==>
              && r.0 == SlopeYIntercept2d(m, p1, p2).0
              && r.1 == SlopeYIntercept2d(m, p1, p2).1 + YDist(p1, p2)
    ensures XDist(p1, p2) != 0.0 ==> (p1.y == r.0 * p1.x + r.1 <==> YDist(p1, p2) == 0.0)
  {
    var slope := Slope2d(m, p1, p2);
    var r := (slope, p1.y - slope * p2.x);
    if XDist(p1, p2) != 0.0 then
      assert r.1 - (p1.y - slope * p1.x) == slope * XDist(p1, p2);
      r
    else
      r
  }

  /** The line through (0, 0) and (1, 1) crosses the y axis at 0, but the
      intercept computed as written is -1. */
  lemma SlopeYInterceptAsWrittenIsWrong(m: Math)
    ensures var (slope, b) := SlopeYIntercept2dAsWritten(m, Pt2(0.0, 0.0), Pt2(1.0, 1.0));
            slope == 1.0 && b == -1.0 && 0.0 != slope * 0.0 + b
  {
  }

  /** slope_yIntercept_2d corrected: b = y1 - slope * x1. For a non-vertical line
      both points satisfy y == slope * x + b. */
  function SlopeYIntercept2d(m: Math, p1: Pt2, p2: Pt2): (r: (real, real))
    ensures XDist(p1, p2) != 0.0 ==>
              && p1.y == r.0 * p1.x + r.1
              && p2.y == r.0 * p2.x + r.1
  {
    var slope := Slope2d(m, p1, p2);
    var r := (slope, p1.y - slope * p1.x);
    if XDist(p1, p2) != 0.0 then
      assert slope * (p2.x - p1.x) == p2.y - p1.y;
      r
    else
      r
  }

  /** lineToPtDirection_2d: the cross product of (linePt2 - linePt1) with
      (pt - linePt1); positive on the left of the directed line, negative on the
      right, 0 on it. */
  function Direction(l1: Pt2, l2: Pt2, pt: Pt2): real
  {
    CrossProd(DiffPts(l2, l1), DiffPts(pt, l1))
  }

  /** Both line points are on the line, and swapping them flips every side. */
  lemma DirectionProperties(l1: Pt2, l2: Pt2, pt: Pt2)
    ensures Direction(l1, l2, l1) == 0.0 && Direction(l1, l2, l2) == 0.0
    ensures Direction(l2, l1, pt) == -Direction(l1, l2, pt)
  {
  }

  /** The determinant of intersectionLines_2d is the cross product of the two
      direction vectors: it is 0 exactly for parallel (or degenerate) lines. */
  function Determinant(l1p1: Pt2, l1p2: Pt2, l2p1: Pt2, l2p2: Pt2): (r: real)
    ensures r == CrossProd(DiffPts(l1p2, l1p1), DiffPts(l2p2, l2p1))
  {
    var a1 := YDist(l1p2, l1p1);
    var b1 := XDist(l1p1, l1p2);
    var a2 := YDist(l2p2, l2p1);
    var b2 := XDist(l2p1, l2p2);
    a1 * b2 - a2 * b1
  }

  /** intersectionLines_2d by Cramer's rule: the sentinel (float max, float max)
      for parallel lines, otherwise the point that lies on both lines. */
  function IntersectionLines2d(l1p1: Pt2, l1p2: Pt2, l2p1: Pt2, l2p2: Pt2): (r: Pt2)
    ensures Determinant(l1p1, l1p2, l2p1, l2p2) == 0.0 ==> r == Pt2(FloatMax, FloatMax)
    ensures Determinant(l1p1, l1p2, l2p1, l2p2) != 0.0 ==>
              Direction(l1p1, l1p2, r) == 0.0 && Direction(l2p1, l2p2, r) == 0.0
  {
    var a1 := YDist(l1p2, l1p1);
    var b1 := XDist(l1p1, l1p2);
    var c1 := a1 * l1p1.x + b1 * l1p1.y;
    var a2 := YDist(l2p2, l2p1);
    var b2 := XDist(l2p1, l2p2);
    var c2 := a2 * l2p1.x + b2 * l2p1.y;
    var det := a1 * b2 - a2 * b1;
    if det == 0.0 then Pt2(FloatMax, FloatMax)
    else
      var r := Pt2((b2 * c1 - b1 * c2) / det, (a1 * c2 - a2 * c1) / det);
      CramerSolves(a1, b1, c1, a2, b2, c2, det, r.x, r.y);
      OnLineFromEquation(l1p1, l1p2, r);
      OnLineFromEquation(l2p1, l2p2, r);
      r
  }

  /** A point solving a * x + b * y == c for the line's coefficients lies on it. */
  lemma OnLineFromEquation(p1: Pt2, p2: Pt2, q: Pt2)
    requires YDist(p2, p1) * q.x + XDist(p1, p2) * q.y == YDist(p2, p1) * p1.x + XDist(p1, p2) * p1.y
    ensures Direction(p1, p2, q) == 0.0
  {
    var a, b := YDist(p2, p1), XDist(p1, p2);
    assert a * (q.x - p1.x) + b * (q.y - p1.y) == 0.0;
    assert Direction(p1, p2, q) == (p2.x - p1.x) * (q.y - p1.y) - a * (q.x - p1.x);
  }

  /** Cramer's rule for two equations in two unknowns. */
  lemma CramerSolves(a1: real, b1: real, c1: real, a2: real, b2: real, c2: real,
                     det: real, x: real, y: real)
    requires det == a1 * b2 - a2 * b1 && det != 0.0
    requires x == (b2 * c1 - b1 * c2) / det && y == (a1 * c2 - a2 * c1) / det
    ensures a1 * x + b1 * y == c1 && a2 * x + b2 * y == c2
  {
    var xd, yd := x * det, y * det;
    assert xd == b2 * c1 - b1 * c2;
    assert yd == a1 * c2 - a2 * c1;
    assert (a1 * x + b1 * y) * det == a1 * xd + b1 * yd;
    assert a1 * xd + b1 * yd == c1 * det;
    assert (a2 * x + b2 * y) * det == a2 * xd + b2 * yd;
    assert a2 * xd + b2 * yd == c2 * det;
  }

  /** interpolatePt_2d: the crossing of the segment prvPt-curPt with the line.
      The list and the index it is also given are unused. */
  function InterpolatePt2d(l1: Pt2, l2: Pt2, curPt: Pt2, prvPt: Pt2): (r: Pt2)
    ensures Direction(l1, l2, prvPt) != Direction(l1, l2, curPt) ==>
              Direction(l1, l2, r) == 0.0 && Direction(curPt, prvPt, r) == 0.0
  {
    DeterminantIsDirectionChange(l1, l2, curPt, prvPt);
    IntersectionLines2d(l1, l2, curPt, prvPt)
  }

  /** The determinant of the line and the segment is how much the direction
      changes from one end of the segment to the other. */
  lemma DeterminantIsDirectionChange(l1: Pt2, l2: Pt2, curPt: Pt2, prvPt: Pt2)
    ensures Determinant(l1, l2, curPt, prvPt) == Direction(l1, l2, prvPt) - Direction(l1, l2, curPt)
  {
  }

  /** Strictly on opposite sides of the line. */
  predicate Opposite(prvDir: real, curDir: real) {
    (curDir > 0.0 && prvDir < 0.0) || (curDir < 0.0 && prvDir > 0.0)
  }

  /** Whether split_2d keeps a point with this direction. */
  predicate Keeps(retAbove: bool, dir: real) {
    (retAbove && dir >= 0.0) || (!retAbove && dir <= 0.0)
  }

  /** The cyclic predecessor of point i: the last point for i == 0. */
  function Pred(lst: seq<Pt2>, i: nat): Pt2
    requires 0 < |lst| && i < |lst|
  {
    if i == 0 then lst[|lst| - 1] else lst[i - 1]
  }

  /** What split_2d appends for point i: the crossing point when point i and its
      predecessor lie strictly on opposite sides, then point i itself when kept. */
  function Piece(l1: Pt2, l2: Pt2, lst: seq<Pt2>, retAbove: bool, i: nat): (r: seq<Pt2>)
    requires 0 < |lst| && i < |lst|
    ensures |r| <= 2
    ensures Keeps(retAbove, Direction(l1, l2, lst[i])) ==> |r| > 0 && r[|r| - 1] == lst[i]
  {
    var cur, prv := lst[i], Pred(lst, i);
    var curDir, prvDir := Direction(l1, l2, cur), Direction(l1, l2, prv);
    (if Opposite(prvDir, curDir) then [InterpolatePt2d(l1, l2, cur, prv)] else [])
    + (if Keeps(retAbove, curDir) then [cur] else [])
  }

  /** The output after the first k points: at most two points per input point. */
  function SplitUpTo(l1: Pt2, l2: Pt2, lst: seq<Pt2>, retAbove: bool, k: nat): (r: seq<Pt2>)
    requires 0 < |lst| && k <= |lst|
    ensures |r| <= 2 * k
  {
    if k == 0 then [] else SplitUpTo(l1, l2, lst, retAbove, k - 1) + Piece(l1, l2, lst, retAbove, k - 1)
  }

  /** split_2d's result: at most 2 * len(lst) points. */
  function Split(l1: Pt2, l2: Pt2, lst: seq<Pt2>, retAbove: bool): (r: seq<Pt2>)
    requires 0 < |lst|
    ensures |r| <= 2 * |lst|
  {
    SplitUpTo(l1, l2, lst, retAbove, |lst|)
  }

  /** split_2d: one pass over the closed polyline, carrying the previous point
      and its direction, appending to the new list. */
  method Split2d(l1: Pt2, l2: Pt2, lst: seq<Pt2>, retAbove: bool) returns (newList: seq<Pt2>)
    requires 0 < |lst|
    ensures newList == Split(l1, l2, lst, retAbove)
  {
    var retBelow := !retAbove;
    newList := [];
    var prvPt := lst[|lst| - 1];
    var prvDir := Direction(l1, l2, prvPt);
    var i := 0;
    while i < |lst|
      invariant 0 <= i <= |lst|
      invariant prvPt == (if i == 0 then lst[|lst| - 1] else lst[i - 1])
      invariant prvDir == Direction(l1, l2, prvPt)
      invariant newList == SplitUpTo(l1, l2, lst, retAbove, i)
    {
      var curPt := lst[i];
      var curDir := Direction(l1, l2, curPt);
      if (curDir > 0.0 && prvDir < 0.0) || (curDir < 0.0 && prvDir > 0.0) {
        var intrPt := InterpolatePt2d(l1, l2, curPt, prvPt);
        newList := newList + [intrPt];
      }
      if (retAbove && curDir >= 0.0) || (retBelow && curDir <= 0.0) {
        newList := newList + [curPt];
      }
      prvPt := curPt;
      prvDir := curDir;
      i := i + 1;
    }
  }

  /** Every output point is either a kept input point or lies on the line. */
  lemma {:induction false} SplitPoints(l1: Pt2, l2: Pt2, lst: seq<Pt2>, retAbove: bool, k: nat)
    requires 0 < |lst| && k <= |lst|
    ensures forall q :: q in SplitUpTo(l1, l2, lst, retAbove, k) ==>
              (q in lst[..k] && Keeps(retAbove, Direction(l1, l2, q))) || Direction(l1, l2, q) == 0.0
  {
    if k > 0 {
      SplitPoints(l1, l2, lst, retAbove, k - 1);
      PiecePoints(l1, l2, lst, retAbove, k - 1);
      assert lst[..k] == lst[..k - 1] + [lst[k - 1]];
    }
  }

  /** The points one input point contributes: itself when kept, or a point on
      the line. */
  lemma PiecePoints(l1: Pt2, l2: Pt2, lst: seq<Pt2>, retAbove: bool, i: nat)
    requires 0 < |lst| && i < |lst|
    ensures forall q :: q in Piece(l1, l2, lst, retAbove, i) ==>
              (q == lst[i] && Keeps(retAbove, Direction(l1, l2, q))) || Direction(l1, l2, q) == 0.0
  {
  }

  /** The points split_2d keeps, in input order. */
  function KeptPoints(l1: Pt2, l2: Pt2, lst: seq<Pt2>, retAbove: bool): seq<Pt2> {
    if lst == [] then []
    else KeptPoints(l1, l2, lst[..|lst| - 1], retAbove)
         + (if Keeps(retAbove, Direction(l1, l2, lst[|lst| - 1])) then [lst[|lst| - 1]] else [])
  }

  /** When no point lies strictly on the other side of the line from its cyclic
      predecessor, the output is exactly the kept points, in input order. */
  lemma {:induction false} SplitWithoutCrossing(l1: Pt2, l2: Pt2, lst: seq<Pt2>, retAbove: bool, k: nat)
    requires 0 < |lst| && k <= |lst|
    requires forall i :: 0 <= i < |lst| ==>
               !Opposite(Direction(l1, l2, Pred(lst, i)), Direction(l1, l2, lst[i]))
    ensures SplitUpTo(l1, l2, lst, retAbove, k) == KeptPoints(l1, l2, lst[..k], retAbove)
  {
    if k > 0 {
      SplitWithoutCrossing(l1, l2, lst, retAbove, k - 1);
      PieceWithoutCrossing(l1, l2, lst, retAbove, k - 1);
      assert lst[..k][..k - 1] == lst[..k - 1];
      assert lst[..k][k - 1] == lst[k - 1];
    }
  }

  /** Without a strict crossing a point contributes only itself, when kept. */
  lemma PieceWithoutCrossing(l1: Pt2, l2: Pt2, lst: seq<Pt2>, retAbove: bool, i: nat)
    requires 0 < |lst| && i < |lst|
    requires !Opposite(Direction(l1, l2, Pred(lst, i)), Direction(l1, l2, lst[i]))
    ensures Piece(l1, l2, lst, retAbove, i)
            == if Keeps(retAbove, Direction(l1, l2, lst[i])) then [lst[i]] else []
  {
  }

  /** Keeping the points above when none is strictly below returns the list unchanged. */
  lemma SplitAllAbove(l1: Pt2, l2: Pt2, lst: seq<Pt2>)
    requires 0 < |lst|
    requires forall i :: 0 <= i < |lst| ==> Direction(l1, l2, lst[i]) >= 0.0
    ensures Split(l1, l2, lst, true) == lst
  {
    SplitWithoutCrossing(l1, l2, lst, true, |lst|);
    KeptAll(l1, l2, lst);
    assert lst[..|lst|] == lst;
  }

  lemma {:induction false} KeptAll(l1: Pt2, l2: Pt2, lst: seq<Pt2>)
    requires forall i :: 0 <= i < |lst| ==> Direction(l1, l2, lst[i]) >= 0.0
    ensures KeptPoints(l1, l2, lst, true) == lst
  {
    if lst != [] {
      KeptAll(l1, l2, lst[..|lst| - 1]);
    }
  }

  /** a appears in b in order, possibly with other points in between
      (matched greedily from the end). */
  predicate Subsequence(a: seq<Pt2>, b: seq<Pt2>)
    decreases |b|
  {
    if a == [] then true
    else if b == [] then false
    else if a[|a| - 1] == b[|b| - 1] then Subsequence(a[..|a| - 1], b[..|b| - 1])
    else Subsequence(a, b[..|b| - 1])
  }

  /** Appending to b keeps a subsequence. */
  lemma {:induction false} SubsequenceAppend(a: seq<Pt2>, b: seq<Pt2>, x: Pt2)
    requires Subsequence(a, b)
    ensures Subsequence(a, b + [x])
    decreases |b|, 1
  {
    var b' := b + [x];
    assert b'[..|b'| - 1] == b;
    if a != [] && a[|a| - 1] == x {
      SubsequenceDropLast(a, b);
    }
  }

  /** Dropping the last point of a keeps a subsequence. */
  lemma {:induction false} SubsequenceDropLast(a: seq<Pt2>, b: seq<Pt2>)
    requires a != [] && Subsequence(a, b)
    ensures Subsequence(a[..|a| - 1], b)
    decreases |b|, 0
  {
    var a', b' := a[..|a| - 1], b[..|b| - 1];
    assert b == b' + [b[|b| - 1]];
    if a[|a| - 1] == b[|b| - 1] {
      SubsequenceAppend(a', b', b[|b| - 1]);
    } else {
      SubsequenceDropLast(a, b');
      SubsequenceAppend(a', b', b[|b| - 1]);
    }
  }

  /** Appending any sequence to b keeps a subsequence. */
  lemma {:induction false} SubsequenceExtend(a: seq<Pt2>, b: seq<Pt2>, c: seq<Pt2>)
    requires Subsequence(a, b)
    ensures Subsequence(a, b + c)
    decreases |c|
  {
    if c != [] {
      var c' := c[..|c| - 1];
      SubsequenceExtend(a, b, c');
      SubsequenceAppend(a, b + c', c[|c| - 1]);
      assert b + c == (b + c') + [c[|c| - 1]];
    } else {
      assert b + c == b;
    }
  }

  /** A point appended to both keeps a subsequence. */
  lemma SubsequenceAddMatched(a: seq<Pt2>, b: seq<Pt2>, x: Pt2)
    requires Subsequence(a, b)
    ensures Subsequence(a + [x], b + [x])
  {
    assert (a + [x])[..|a|] == a;
    assert (b + [x])[..|b|] == b;
  }

  /** Every point of a subsequence is a point of the sequence. */
  lemma {:induction false} SubsequenceMembers(a: seq<Pt2>, b: seq<Pt2>)
    requires Subsequence(a, b)
    ensures forall q :: q in a ==> q in b
    decreases |b|
  {
    if a != [] {
      var b' := b[..|b| - 1];
      assert b == b' + [b[|b| - 1]];
      if a[|a| - 1] == b[|b| - 1] {
        var a' := a[..|a| - 1];
        SubsequenceMembers(a', b');
        assert a == a' + [a[|a| - 1]];
      } else {
        SubsequenceMembers(a, b');
      }
    }
  }

  /** The points kept among the first k appear, in input order, in the output
      after k points, whether or not the polyline crosses the line. */
  lemma {:induction false} KeptPointsInSplitUpTo(l1: Pt2, l2: Pt2, lst: seq<Pt2>, retAbove: bool, k: nat)
    requires 0 < |lst| && k <= |lst|
    ensures Subsequence(KeptPoints(l1, l2, lst[..k], retAbove), SplitUpTo(l1, l2, lst, retAbove, k))
  {
    if k > 0 {
      KeptPointsInSplitUpTo(l1, l2, lst, retAbove, k - 1);
      var x := lst[k - 1];
      var kept := KeptPoints(l1, l2, lst[..k - 1], retAbove);
      var prefix := SplitUpTo(l1, l2, lst, retAbove, k - 1);
      var piece := Piece(l1, l2, lst, retAbove, k - 1);
      assert SplitUpTo(l1, l2, lst, retAbove, k) == prefix + piece;
      assert lst[..k][..k - 1] == lst[..k - 1];
      assert lst[..k][k - 1] == x;
      if Keeps(retAbove, Direction(l1, l2, x)) {
        assert KeptPoints(l1, l2, lst[..k], retAbove) == kept + [x];
        var front := piece[..|piece| - 1];
        assert piece == front + [x];
        SubsequenceExtend(kept, prefix, front);
        SubsequenceAddMatched(kept, prefix + front, x);
        assert prefix + piece == (prefix + front) + [x];
      } else {
        assert KeptPoints(l1, l2, lst[..k], retAbove) == kept;
        SubsequenceExtend(kept, prefix, piece);
      }
    }
  }

  /** A point that split_2d keeps is among the kept points. */
  lemma {:induction false} KeptMember(l1: Pt2, l2: Pt2, lst: seq<Pt2>, retAbove: bool, i: nat)
    requires i < |lst| && Keeps(retAbove, Direction(l1, l2, lst[i]))
    ensures lst[i] in KeptPoints(l1, l2, lst, retAbove)
  {
    if i < |lst| - 1 {
      KeptMember(l1, l2, lst[..|lst| - 1], retAbove, i);
    }
  }

  /** split_2d returns every point on the chosen side, in input order: the kept
      points form a subsequence of the output, and each one is in it. */
  lemma SplitKeepsPoints(l1: Pt2, l2: Pt2, lst: seq<Pt2>, retAbove: bool)
    requires 0 < |lst|
    ensures Subsequence(KeptPoints(l1, l2, lst, retAbove), Split(l1, l2, lst, retAbove))
    ensures forall i :: 0 <= i < |lst| && Keeps(retAbove, Direction(l1, l2, lst[i])) ==>
              lst[i] in Split(l1, l2, lst, retAbove)
  {
    KeptPointsInSplitUpTo(l1, l2, lst, retAbove, |lst|);
    assert lst[..|lst|] == lst;
    SubsequenceMembers(KeptPoints(l1, l2, lst, retAbove), Split(l1, l2, lst, retAbove));
    forall i | 0 <= i < |lst| && Keeps(retAbove, Direction(l1, l2, lst[i]))
      ensures lst[i] in Split(l1, l2, lst, retAbove)
    {
      KeptMember(l1, l2, lst, retAbove, i);
    }
  }

  /** perpendicular_distance_pt_to_line_2d for two distinct line points (Python
      divides by zero otherwise). The distance d satisfies
      d^2 * |linePt2 - linePt1|^2 == Direction^2 and is never negative. */
  function PerpendicularDistance(m: Math, pt: Pt2, l1: Pt2, l2: Pt2): (r: real)
    requires Lawful(m) && l1 != l2
    ensures 0.0 <= r
  {
    LineLengthPositive(l1, l2);
    Normalised(m, Numerator(pt, l1, l2), LineLengthSq(l1, l2))
  }

  /** The perpendicular distance d satisfies d^2 * |l2 - l1|^2 == Direction^2. */
  lemma PerpendicularDistanceSquared(m: Math, pt: Pt2, l1: Pt2, l2: Pt2)
    requires Lawful(m) && l1 != l2
    ensures PerpendicularDistance(m, pt, l1, l2) * PerpendicularDistance(m, pt, l1, l2) * LineLengthSq(l1, l2)
            == Direction(l1, l2, pt) * Direction(l1, l2, pt)
  {
    LineLengthPositive(l1, l2);
    NumeratorSquared(l1, l2, pt);
  }

  /** The numerator of the distance formula: yDist * x - xDist * y + cross. */
  function Numerator(pt: Pt2, l1: Pt2, l2: Pt2): real {
    YDist(l2, l1) * pt.x - XDist(l2, l1) * pt.y + CrossProd(l2, l1)
  }

  /** The numerator of the distance formula is minus the direction of pt, so
      the two have the same square. */
  lemma NumeratorSquared(l1: Pt2, l2: Pt2, pt: Pt2)
    ensures Numerator(pt, l1, l2) * Numerator(pt, l1, l2) == Direction(l1, l2, pt) * Direction(l1, l2, pt)
  {
    assert Numerator(pt, l1, l2) == -Direction(l1, l2, pt);
    SquareOfNegation(Numerator(pt, l1, l2), Direction(l1, l2, pt));
  }

  lemma SquareOfNegation(a: real, b: real)
    requires a == -b
    ensures a * a == b * b
  {
  }

  /** |n| / sqrt(sq) for a positive sq: non-negative, and its square times sq is n^2. */
  function Normalised(m: Math, n: real, sq: real): (r: real)
    requires Lawful(m) && 0.0 < sq
    ensures 0.0 <= r && r * r * sq == n * n
  {
    QuotientOfSquares(m, Abs(n), n, -n, sq);
    Abs(n) / m.sqrt(sq)
  }

  /** The arithmetic of the distance: n / sqrt(sq) squared, times sq, is n^2. */
  lemma QuotientOfSquares(m: Math, n: real, raw: real, dir: real, sq: real)
    requires Lawful(m) && 0.0 < sq
    requires 0.0 <= n && n * n == raw * raw && raw == -dir
    ensures 0.0 < m.sqrt(sq) && 0.0 <= n / m.sqrt(sq)
    ensures (n / m.sqrt(sq)) * (n / m.sqrt(sq)) * sq == dir * dir
  {
    var d := m.sqrt(sq);
    assert 0.0 <= d && d * d == sq;
    assert raw * raw == dir * dir;
    QuotientSquared(n, d);
  }

  /** The squared distance between the two line points. */
  function LineLengthSq(l1: Pt2, l2: Pt2): real {
    YDist(l2, l1) * YDist(l2, l1) + XDist(l2, l1) * XDist(l2, l1)
  }

  /** Two distinct points are a positive distance apart. */
  lemma LineLengthPositive(l1: Pt2, l2: Pt2)
    requires l1 != l2
    ensures 0.0 < LineLengthSq(l1, l2)
  {
    SumOfSquaresPositive(YDist(l2, l1), XDist(l2, l1), LineLengthSq(l1, l2));
  }

  /** The distance is c exactly when Direction^2 == c^2 * |linePt2 - linePt1|^2. */
  lemma DistanceFromDirection(m: Math, pt: Pt2, l1: Pt2, l2: Pt2, c: real)
    requires Lawful(m) && l1 != l2 && 0.0 <= c
    requires Direction(l1, l2, pt) * Direction(l1, l2, pt)
             == c * c * (LineLengthSq(l1, l2))
    ensures PerpendicularDistance(m, pt, l1, l2) == c
  {
    var r := PerpendicularDistance(m, pt, l1, l2);
    var sq := LineLengthSq(l1, l2);
    LineLengthPositive(l1, l2);
    PerpendicularDistanceSquared(m, pt, l1, l2);
    assert r * r * sq == c * c * sq;
    CancelPositive(r * r, c * c, sq);
    SquareRootUnique(r, c);
  }

  /** The distance from a line parallel to the y axis is the difference of the
      x coordinates. */
  lemma VerticalLineDistance(m: Math, pt: Pt2, l1: Pt2, l2: Pt2)
    requires Lawful(m) && l1.x == l2.x && l1.y != l2.y
    ensures PerpendicularDistance(m, pt, l1, l2) == Abs(pt.x - l1.x)
  {
    var dx, dy := pt.x - l1.x, l2.y - l1.y;
    assert Direction(l1, l2, pt) == -(dy * dx);
    assert LineLengthSq(l1, l2) == dy * dy;
    var a := Abs(dx);
    assert a * a == dx * dx;
    assert (dy * dx) * (dy * dx) == (dx * dx) * (dy * dy);
    DistanceFromDirection(m, pt, l1, l2, a);
  }

  /** l2 lies u back along x and t * u back along y from l1: the two span a
      line of slope t. */
  predicate SlopeRun(l1: Pt2, l2: Pt2, t: real, u: real) {
    l2.x - l1.x == -u && l2.y - l1.y == -(t * u)
  }

  /** Measured along y, pt lies k above the line of slope t through l1. */
  predicate OffsetAcross(pt: Pt2, l1: Pt2, t: real, k: real) {
    (pt.y - l1.y) - t * (pt.x - l1.x) == k
  }

  /** An offset k measured along y from a line of slope t is a perpendicular
      offset of |dist|: k^2 == dist^2 * (1 + t^2). */
  predicate PerpendicularOffset(k: real, t: real, dist: real) {
    k * k == dist * dist * (1.0 + t * t)
  }

  /** With cos^2 * (1 + t^2) == 1 for the slope t == tan of the line's angle,
      an offset k along y is the perpendicular offset k * cos. */
  lemma OffsetFromCosine(k: real, t: real, cosine: real, dist: real)
    requires (1.0 + t * t) * (cosine * cosine) == 1.0 && k * cosine == dist
    ensures PerpendicularOffset(k, t, dist)
  {
    var kk, tt, cc := k * k, t * t, cosine * cosine;
    assert dist * dist == kk * cc;
    calc {
      dist * dist * (1.0 + tt);
      kk * ((1.0 + tt) * cc);
      kk;
    }
  }

  /** The mirror image of a line (slope -t) keeps the offset -k at the same
      distance. */
  lemma MirroredOffset(k: real, t: real, dist: real)
    requires PerpendicularOffset(k, t, dist)
    ensures PerpendicularOffset(-k, -t, dist)
  {
    assert (-k) * (-k) == k * k && (-t) * (-t) == t * t;
  }

  /** A point k above (along y) the line of slope t through l1 and l2 lies at
      the distance |dist| that k amounts to across the line. */
  lemma SlopedLineDistance(m: Math, pt: Pt2, l1: Pt2, l2: Pt2, t: real, u: real, k: real, dist: real)
    requires Lawful(m) && u != 0.0
    requires SlopeRun(l1, l2, t, u) && OffsetAcross(pt, l1, t, k) && PerpendicularOffset(k, t, dist)
    ensures l1 != l2
    ensures PerpendicularDistance(m, pt, l1, l2) == Abs(dist)
  {
    var dx, dy := pt.x - l1.x, pt.y - l1.y;
    var ax, ay := l2.x - l1.x, l2.y - l1.y;
    assert Direction(l1, l2, pt) == ax * dy - ay * dx;
    assert LineLengthSq(l1, l2) == ay * ay + ax * ax;
    SlopedDirection(u, t, dx, dy, k);
    SlopedSquares(u, t, k, Abs(dist), LineLengthSq(l1, l2));
    DistanceFromDirection(m, pt, l1, l2, Abs(dist));
  }

  lemma SlopedDirection(u: real, t: real, dx: real, dy: real, k: real)
    requires dy - t * dx == k
    ensures (-u) * dy - (-(t * u)) * dx == -(u * k)
  {
    assert u * k == u * dy - u * (t * dx);
  }

  lemma SlopedSquares(u: real, t: real, k: real, c: real, len: real)
    requires k * k == c * c * (1.0 + t * t)
    requires len == (-(t * u)) * (-(t * u)) + (-u) * (-u)
    ensures (-(u * k)) * (-(u * k)) == c * c * len
  {
    var uu, kk, tt, cc := u * u, k * k, t * t, c * c;
    assert len == (1.0 + tt) * uu;
    calc {
      c * c * len;
      cc * ((1.0 + tt) * uu);
      (cc * (1.0 + tt)) * uu;
      kk * uu;
    }
  }

  /** Both line points are at distance 0 from their line. */
  lemma DistanceZeroOnLinePoints(m: Math, l1: Pt2, l2: Pt2)
    requires Lawful(m) && l1 != l2
    ensures PerpendicularDistance(m, l1, l1, l2) == 0.0
    ensures PerpendicularDistance(m, l2, l1, l2) == 0.0
  {
    DirectionProperties(l1, l2, l1);
    DistanceFromDirection(m, l1, l1, l2, 0.0);
    DistanceFromDirection(m, l2, l1, l2, 0.0);
  }
}
