# Helical thread geometry of cq-thread-experiments, in Dafny

cq-thread-experiments builds the threads of nuts and bolts as cadquery
solids. Each thread is 3 or 4 helical wires ("strands"), with ruled faces
between them. This project models everything that happens before the
geometry kernel is called:

- **The tapering helix evaluators.**
  - `helix` of helix.py and `convergingHelix` of convergingHelix.py are
    guarded closures.
  - The closure `helix` of thread4.py is unguarded and counts its calls in a
    global counter.
  - Each evaluator maps a progress value `t` to a point `(x, y, z)`. A
    three-branch fade (sine rise, constant 1, sine fall) scales the radial
    and vertical offsets.
- **The thread profile calculators.** Each derives, from the pitch, flank
  angle, cutoffs, overlap and clearance, the ordered strands
  `(radius, horzOffset, vertOffset)` of an internal and an external thread.
  - `helical_threads` (helicalthreads.py) collapses a too-narrow external tip
    to a triangle.
  - `ThreadDimensions` (threads.py) gives every strand of a side one radius
    and never clamps.
  - `threadHelix` / `threads` (thread4.py, thread5.py) use the tangent of the
    full flank angle and a side flag.
- **The strand-to-face rule.** This is which wires are ruled together:
  cyclically in threads.py, and as (0,1), (n-2,n-1), (0,2), (1,n-1) in
  thread4.py and thread5.py.
- **The 2-D helpers of wing_utils.py.** These are point arithmetic, the cross
  product, slopes, the side test, line intersection by Cramer's rule, the
  perpendicular distance, and `split_2d`, which clips a closed polyline
  against a line.

Transcendental functions are not computed. `MathLib.Math` carries `pi`, `sin`,
`cos`, `tan` and `sqrt` as values. `MathLib.Lawful` lists the only identities
any proof uses: sin 0 = 0, cos 0 = 1, sin(pi/2) = 1, sin(-2 pi) = 0,
sin² + cos² = 1, sin is odd, tan·cos = sin, sin and cos are positive on
(0, pi/2), and sqrt is the non-negative root.

The clearance properties are stated in the profile plane that the
repository's tests draw. A strand is the point
`(radius + horzOffset, vertOffset)` (`ProfilePoints.ProfilePoint`), and the
external points are shifted half a pitch along the axis.

Where a Python call raises `ZeroDivisionError`, the model does one of two
things:
- the evaluators return the `ZeroDivision` value;
- the profile calculators require the divisors to be non-zero (`Computable`).

Where the documentation and the code disagree, the model follows the code.
- `slope_yIntercept_2d` documents its result as `(yIntercept, Slope)` but
  returns `(slope, yIntercept)`, so the model returns `(slope, yIntercept)`.
- `lineToPtDirection_2d` documents a positive value as "above the line". The
  code returns the cross product of `linePt2 - linePt1` and `pt - linePt1`,
  which is positive on the left of the line directed from `linePt1` to
  `linePt2`. That is "above" only when `linePt1` is left of `linePt2`.
  `WingUtils.Direction` is that cross product.
- The docstring of `HelicalThreads` (helicalthreads.py:12-17) says `ext_helixes`
  has 4 entries when `minor_cutoff > 0`. The code adds the fourth external
  strand when the opposite half height, which comes from `major_cutoff`, is
  positive (helicalthreads.py:194). `Helical.ExtHelixes` follows the code.

## Model

| member | source | states |
|---|---|---|
| `HelixPoint.PointAtOnCylinder` | helix.py:38-41 | x = r·sin(-a), y = r·cos(a) lies at distance r = radius + depth·scale from the axis, for every angle |
| `Helix.Evaluate` | helix.py:15-49 | the origin whenever height - 2·inset or the pitch is not positive; the other points come from the fade (`FadeRegime`, `FadeAngle`, `FadeScale`) and `HelixPoint.PointAt`, and `Helix.OnFadedCylinder`, `BodyPoint`, `StartPoint` and `EndPoint` state where they lie |
| `Helix.DegenerateIsOrigin` | helix.py:23-49 | height - 2·inset <= 0 or pitch <= 0 gives the origin for every t |
| `Helix.RegimeSelection` | helix.py:27-35 | lead-in iff frac > 0 and t <= frac (every negative t included); body iff frac == 0 or frac < t < 1 - frac; lead-out only with frac != 0, so no branch divides by zero |
| `Helix.OnFadedCylinder` | helix.py:36-42 | every non-degenerate sample, for any t (no range guard), lies on radius + threadDepth·scale at height heightThreads·t + threadHalfHeight·scale + inset |
| `Helix.BodyPoint` | helix.py:30-42 | in the body the scale is 1: radius + threadDepth, height heightThreads·t + threadHalfHeight + inset |
| `Helix.StartPoint` | helix.py:27-42 | with frac > 0, f(0) = (0, radius, inset) |
| `Helix.EndPoint` | helix.py:33-42 | with 0 < frac < 1, t = 1 is in the lead-out, the scale is 0 and the point is on radius at height - inset |
| `Helix.NoDepthStaysOnRadius` | helix.py:38-41 | threadDepth 0 keeps every sample on the base radius |
| `Helix.NoHalfHeightClimbsLinearly` | helix.py:42 | threadHalfHeight 0 gives z = heightThreads·t + inset for every t, also outside [0, 1] |
| `Helix.HeightIgnoresRadius` | helix.py:38-42 | z does not depend on radius or threadDepth |
| `ConvergingHelix.Evaluate` | convergingHelix.py:38-79 | an illegal call gives the origin; a call raises exactly when it is legal, in the lead-in, with cvrgFactor 0; `ConvergingHelix.RaisesIff` and `OnFadedCylinder` state the rest |
| `ConvergingHelix.IllegalIsOrigin` | convergingHelix.py:46-79 | a zero heightHelix or pitch, t outside [firstT, lastT] or cvrgFactor outside [firstT, lastT] gives the origin |
| `ConvergingHelix.RaisesIff` | convergingHelix.py:47-59 | a call raises exactly when it is legal, cvrgFactor == 0, firstT < 0 and t <= 0 (the lead-in divides by cvrgFactor) |
| `ConvergingHelix.RegimeSelection` | convergingHelix.py:57-65 | lead-in iff cvrgFactor > firstT and t <= cvrgFactor; else body iff cvrgFactor == 0 or cvrgFactor < t < lastT - cvrgFactor; lead-out only with cvrgFactor != 0 |
| `ConvergingHelix.OnFadedCylinder` | convergingHelix.py:66-72 | every legal sample lies on radius + horzOffset·scale at height heightHelix·t + vertOffset·scale + inset |
| `ConvergingHelix.BodyPoint` | convergingHelix.py:60-72 | in the body: radius + horzOffset and heightHelix·t + vertOffset + inset |
| `ConvergingHelix.LastPoint` | convergingHelix.py:63-72 | at t = lastT in the lead-out the angle is -2 pi, the scale 0, the point on radius at heightHelix·lastT + inset |
| `ConvergingHelix.LastInLeadOut` | convergingHelix.py:47-65 | with 0 < cvrgFactor < lastT, t = lastT is legal and in the lead-out |
| `ConvergingHelix.StartPoint` | convergingHelix.py:57-72 | with firstT < cvrgFactor and cvrgFactor > 0, f(0) = (0, radius, inset) |
| `ConvergingHelix.NegativeHeightEvaluates` | convergingHelix.py:46-48 | the guard tests != 0: height 0, inset 0.1 gives heightHelix -0.2 and f(0) = (0, 1, 0.1) |
| `ConvergingHelix.NoHorzOffsetKeepsRadius` | convergingHelix.py:68-71 | horzOffset 0 keeps every legal sample at distance abs(radius) in every regime |
| `ConvergingHelix.NoVertOffsetClimbsLinearly` | convergingHelix.py:72 | vertOffset 0 gives z = heightHelix·t + inset |
| `Thread4.Evaluate` | thread4.py:16-54 | raises exactly when heightThreads or the pitch is 0, with no other guard; `Thread4.OnFadedCylinder` places every other point |
| `Thread4.RaisesIff` | thread4.py:25-48 | the unguarded closure raises exactly when pitch == 0 or height == 2·inset |
| `Thread4.AgreesWithGuardedHelix` | thread4.py:15-54 | where helix.py's guard admits a call, both closures give the same point |
| `Thread4.OnFadedCylinder` | thread4.py:43-50 | every call that does not raise lies on radius + threadDepth·scale at height heightThreads·t + threadHalfHeight·scale + inset |
| `Thread4.NegativePitchEvaluates` | thread4.py:25-50 | a negative pitch is not rejected: f(0) = (0, radius, inset) where helix.py gives the origin |
| `Thread4.HelixCounter.constructor` | thread4.py:12 | the global counter starts at 0 |
| `Thread4.HelixCounter.Func` | thread4.py:16-54 | the point is the closure's value and never depends on the counter; the counter is reset at t == 0 and counts each call that does not raise |
| `FullAngleProfile.CutOff` | thread4.py:98-103 | None gives 0, a divisor v gives r with r·v == pitch |
| `FullAngleProfile.Derive` | thread4.py:96-127 | the cutoffs are the divided pitch and the major half height is half the major cutoff; external: half height (pitch - minor)/2 at the radius and major/2 opposite, the tips reaching diaMajor/2; internal: (pitch - major)/2 at the radius and minor/2 opposite, the tips reaching diaMajor/2 - depth; `ThreadDepthValue`, `FlankRise` and `SideRadii` give the depth and the radii |
| `FullAngleProfile.CutOffValues` | thread4.py:98-103 | the cutoff is pitch / v, 0 without a divisor, and 0 with one exactly when the pitch is 0 |
| `FullAngleProfile.ThreadDepthValue` | thread4.py:96-111 | threadDepth = ((pitch - minorCutOff)/2 - majorCutOff/2)·tan(angle), the full angle, independent of side and overlap |
| `FullAngleProfile.FlankRise` | thread4.py:105-127 | on both sides threadDepth = (halfHeightAtRadius - halfHeightOpposite)·tan(angle) |
| `FullAngleProfile.SideRadii` | thread4.py:116-127 | external: tips end on diaMajor/2 and roots sit threadDepth + overlap inside; internal: roots sit overlap outside and tips threadDepth inside |
| `FullAngleProfile.StrandCount` | thread4.py:189-210 | 3 or 4 strands, 4 iff the major cutoff is positive, on either side |
| `FullAngleProfile.Strands` | thread4.py:133-207 | 3 or 4 strands, 4 iff the major half height is positive, all on the helix radius; the roots have no radial offset and mirrored vertical offsets; the tips carry the tip offset |
| `FullAngleProfile.StrandShape` | thread4.py:135-205 | one shared radius; roots (0, -/+halfHeightAtRadius); tips (td, -/+halfHeightOpposite) |
| `FullAngleProfile.InternalTipStrandsCoincide` | thread4.py:122-205 | internal, no minor divisor, positive major cutoff: the two tip strands are equal |
| `FullAngleProfile.Faces` | thread4.py:214-219 | one face per wire; every face joins two different wires that exist |
| `FullAngleProfile.FacesCoverEveryStrandTwice` | thread4.py:214-219 | (0,1), (n-2,n-1), (0,2), (1,n-1): n faces, no face joins a wire to itself, every wire in exactly two faces |
| `Thread4.Wires` | thread4.py:135-207 | 3 or 4 wires, 4 iff the major cutoff is positive; wire i has the helix radius, strand i's radial and vertical offsets, and the shared pitch, height, inset and fade fraction |
| `Thread4.ThreadHelix` | thread4.py:59-226 | the wires appended in order equal the profile's strands as helix calls; 3 or 4 of them; the faces and the returned depth (without overlap) |
| `Thread4.ExternalTipsReachMajorRadius` | thread4.py:116-205 | in the body of the fade, external root wires lie on the helix radius and tip wires exactly on diaMajor/2 |
| `Thread4.InternalRootsOutsideMajorRadius` | thread4.py:122-205 | in the body of the fade, internal root wires lie on diaMajor/2 + overlap and tip wires on diaMajor/2 - threadDepth |
| `Thread5.Wires` | thread5.py:93-165 | 3 or 4 taperable-helix calls, 4 iff the major cutoff is positive; call i has the helix radius, strand i's offsets, and the shared pitch, height, taper position and inset |
| `Thread5.Threads` | thread5.py:17-184 | the taperable-helix calls appended in order carry the profile's strands positionally; 3 or 4 of them; the faces and the returned depth |
| `Thread5.SameStrandsAsThread4` | thread5.py:93-163 | thread5 hands the same strands, in the same order, as thread4: count, radius, offsets, pitch, height, inset |
| `Helical.WithDefaults` | helicalthreads.py:23-27 | the seven helix arguments pass through unchanged; angle 45, clearance 0.1, cutoffs 0, overlap 0.001 |
| `Helical.HelicalThreads.constructor` | helicalthreads.py:47-52 | the dimensions are kept, both radii 0 and both lists empty |
| `Helical.HelicalThreadsOf` | helicalthreads.py:55-202 | a fresh object holding the dimensions, the internal radius, the external radius and both strand lists, built in source order |
| `Helical.IntHelixes` | helicalthreads.py:96-127 | 3 or 4 strands, 4 iff minorCutoff > 0; the roots overlap outside the radius with mirrored vertical offsets; the tips on the radius, thread depth inward |
| `Helical.ExtHelixes` | helicalthreads.py:172-200 | 3 or 4 strands, 4 iff the opposite half height is positive; the roots overlap inside the external radius with mirrored vertical offsets; the tips on it, the external depth outward |
| `Helical.IntStrands` | helicalthreads.py:86-127 | 3 or 4 internal strands, 4 iff minorCutoff > 0; roots at radius + overlap with offsets -/+((pitch - major)/2 + overlap·tan); tips at radius, -depth, +/-minor/2 |
| `Helical.DepthTimesTangent` | helicalthreads.py:78-83 | tan(angle/2)·depth is the drop from (pitch - major)/2 to minor/2 |
| `Helical.IntFlankSlope` | helicalthreads.py:100-119 | internal points 1 and 2 span a flank of slope tan(angle/2) over depth + overlap |
| `Helical.ExtCollapse` | helicalthreads.py:160-166 | collapse iff major/2 < extVertAdj; collapsed: opposite 0 and tan·extDepth = root half height; otherwise the internal depth; the opposite half height is never negative |
| `Helical.ExtStrands` | helicalthreads.py:134-200 | 3 or 4 external strands, 4 iff the opposite half height is positive; radius = radius - depth - clearance; roots overlap inside it with mirrored offsets; tips on it at the external depth |
| `Helical.NoClearanceNoCollapse` | helicalthreads.py:134-194 | clearance 0 and major >= 0: no vertical adjustment, no collapse, 4 external strands iff major > 0 |
| `Helical.ClearanceConstant` | helicalthreads.py:134-137 | (extVertAdj + tan·clearance)·cos = clearance: the adjustment is exactly the clearance across the flank |
| `Helical.LowerFlankRootClearance` | test_cq_threads.py:129-133 | the first external point is at distance abs(clearance) from the internal flank through points 1 and 2 |
| `Helical.LowerFlankTipClearance` | test_cq_threads.py:139-143 | the last external point, collapsed or not, is at distance abs(clearance) from that flank |
| `Helical.UpperFlankSlope` | helicalthreads.py:100-127 | the next internal thread's points 0 and last span a flank of slope -tan(angle/2) |
| `Helical.UpperFlankClearance` | test_cq_threads.py:173-183 | external points 1 and 2 are at abs(clearance) from the next internal thread's flank |
| `Helical.InternalTipClearance` | test_cq_threads.py:161-171 | every internal tip point is at abs(clearance + overlap) from the external root line |
| `Helical.CollapsedTipShallower` | helicalthreads.py:154-166 | a collapsed external tip is shallower than the internal thread |
| `Helical.ExternalTipClearance` | test_cq_threads.py:145-159 | external tips are at abs(clearance + overlap) from the internal root line without collapse, and at least clearance + overlap away when collapsed |
| `Threads.CutOff` | threads.py:102-111 | divisor 0 gives 0, otherwise r with r·divisor == pitch |
| `Threads.ThreadDimensions.constructor` | threads.py:63-223 | every field set in source order equals the derivation: tan and sin of the half angle, cutoffs, depth, overlap adjustment, both strand lists |
| `Threads.DepthTimesTangent` | threads.py:112-129 | tan(angle/2)·depth = (pitch - minor)/2 - major/2 and tan(angle/2)·(overlap / tan) = overlap |
| `Threads.Helixes` | threads.py:126-167 | 3 or 4 internal strands, 4 iff the minor cutoff is positive; all at diaMajor/2 + overlap; mirrored roots; the tips thread depth inward |
| `Threads.ExtHelixes` | threads.py:170-223 | 3 or 4 external strands, 4 iff the major cutoff is positive; all at the external radius minus the overlap; mirrored roots; the tips thread depth outward |
| `Threads.IntStrands` | threads.py:126-167 | 3 or 4 internal strands, 4 iff minor > 0; all at diaMajor/2 + overlap; roots -/+((pitch - major)/2 + overlap/tan); tips -depth at +/-minor/2 |
| `Threads.ExtStrands` | threads.py:170-223 | 3 or 4 external strands, 4 iff major > 0; all at diaMajor/2 - depth - clearance - overlap; mirrored roots; tips +depth at +/-(major/2 - extVertAdj) |
| `Threads.NoClamp` | threads.py:186-223 | with major/2 < extVertAdj both external tip strands are still built, in reversed order across the axis line |
| `Threads.Wires` | threads.py:281-300 | one wire per strand in strand order, carrying its radius and offsets and the shared pitch, height, taper position and inset |
| `Threads.Selected` | threads.py:279-281 | the chosen side's strands: 3 or 4, 4 iff that side's cutoff (major external, minor internal) is positive |
| `Threads.CyclicFaces` | threads.py:305-312 | one face per wire, each joining two existing wires, and two different ones once there is more than one wire |
| `Threads.ThreadsOf` | threads.py:224-312 | a fresh dimensions object built from the arguments, holding both strand lists and the depth; the wires of the chosen side, 3 or 4 of them; and the cyclic faces |
| `Threads.SelectedWires` | threads.py:276-303 | 4 wires iff the chosen side's cutoff (minor internal, major external) is positive; all wires of a side share one radius |
| `Threads.CyclicFacesCoverEveryStrandTwice` | threads.py:305-312 | face k joins k to (k+1) mod n: n faces, none degenerate, every wire in exactly two faces |
| `Threads.ClearanceConstant` | threads.py:170-171 | (extVertAdj + tan·clearance)·cos = clearance |
| `Threads.LowerFlankRootClearance` | test_threads.py:142-144 | without overlap the first external point is at abs(clearance) from the internal flank |
| `Threads.LowerFlankTipClearance` | test_threads.py:146-148 | without overlap and with a major cutoff, the fourth external point is at abs(clearance) from it |
| `Threads.TipsClearRoot` | test_threads.py:150-156 | the external tips are at abs(clearance + 2·overlap) from the internal root line |
| `Threads.RootClearsTips` | test_threads.py:158-164 | with a minor cutoff the external roots are at abs(clearance + 2·overlap) from the internal tip line |
| `Threads.TriangularTipShortfall` | test_threads_new.py:182-186 | without a major cutoff the external tip is only abs(clearance·(2 sin(angle/2) - 1)) from the internal flank |
| `Threads.ShortfallBelowClearance` | test_threads_new.py:182-186 | for 0 < angle < 180 and non-zero clearance that shortfall is strictly below abs(clearance) |
| `WingUtils.XDist` | wing_utils.py:61-64 | adding the result to p2.x gives p1.x |
| `WingUtils.YDist` | wing_utils.py:67-70 | adding the result to p2.y gives p1.y |
| `WingUtils.SumPts` | wing_utils.py:73-75 | subtracting p2 from the result gives p1, component by component |
| `WingUtils.DiffPts` | wing_utils.py:78-80 | adding p2 to the result gives p1, component by component |
| `WingUtils.ProdPtsCommutes` | wing_utils.py:83-85 | prodPts is commutative, (1, 1) is its identity and (0, 0) its zero |
| `WingUtils.CrossProd` | wing_utils.py:88-91 | computed from prodPts with the swapped point, it equals p1.x·p2.y - p1.y·p2.x |
| `WingUtils.DiffUndoesSum` | wing_utils.py:73-80 | diffPts(sumPts(p, q), q) == p and sumPts(diffPts(p, q), q) == p |
| `WingUtils.DistAntisymmetric` | wing_utils.py:61-70 | xDist and yDist change sign with the point order and are diffPts' components |
| `WingUtils.CrossAntisymmetric` | wing_utils.py:88-91 | cross(p, q) == -cross(q, p) and cross(p, p) == 0 |
| `WingUtils.Translate2d` | wing_utils.py:94-98 | same length, each point shifted by t, in order |
| `WingUtils.TranslateRoundTrip` | wing_utils.py:94-98 | translating by t and then by -t gives the list back |
| `WingUtils.Slope2d` | wing_utils.py:101-110 | r·xDist == yDist for a non-vertical line; +radians(90) for a vertical line with yDist >= 0, -radians(90) otherwise |
| `WingUtils.SlopeSymmetry` | wing_utils.py:101-110 | a non-vertical slope does not depend on point order; a vertical one flips sign |
| `WingUtils.SlopeYIntercept2dAsWritten` | wing_utils.py:113-126 | for a non-vertical line: the slope of the corrected version and an intercept that is off by yDist; the first point lies on the returned line iff the two points have the same y |
| `WingUtils.SlopeYInterceptAsWrittenIsWrong` | wing_utils.py:113-126 | through (0,0) and (1,1) the intercept as written is -1, so (0,0) is not on the returned line |
| `WingUtils.SlopeYIntercept2d` | wing_utils.py:113-126 | corrected intercept: both points of a non-vertical line satisfy y == slope·x + b |
| `WingUtils.DirectionProperties` | wing_utils.py:129-155 | `WingUtils.Direction` (lineToPtDirection_2d) is 0 at both line points; swapping the line points flips the sign |
| `WingUtils.Determinant` | wing_utils.py:171-182 | the determinant is the cross product of the two direction vectors |
| `WingUtils.IntersectionLines2d` | wing_utils.py:158-198 | determinant 0 gives (float max, float max); otherwise the result lies on both lines |
| `WingUtils.InterpolatePt2d` | wing_utils.py:201-222 | when the two points lie on different sides, the result is on the line and on the segment's line |
| `WingUtils.Split2d` | wing_utils.py:225-276 | the loop's output equals the split specification, piece by piece in input order |
| `WingUtils.Piece` | wing_utils.py:253-270 | at most 2 points per input point, the last of them the point itself when it is kept |
| `WingUtils.SplitUpTo` | wing_utils.py:248-276 | at most 2·k points after the first k input points |
| `WingUtils.Split` | wing_utils.py:225-276 | at most 2·len(lst) points come out; `WingUtils.SplitKeepsPoints` states that every kept point is among them, in input order |
| `WingUtils.KeptPointsInSplitUpTo` | wing_utils.py:253-270 | the points kept among the first k form a subsequence of the output after k points, also when the polyline crosses the line |
| `WingUtils.SplitKeepsPoints` | wing_utils.py:225-276 | every input point on the chosen side is returned, and the kept points appear in input order |
| `WingUtils.SplitPoints` | wing_utils.py:253-270 | every output point is a kept input point on the chosen side or lies on the line |
| `WingUtils.SplitWithoutCrossing` | wing_utils.py:253-270 | with no strict crossing the output is the kept points in input order |
| `WingUtils.SplitAllAbove` | wing_utils.py:225-276 | retAbove with no point strictly below returns the list unchanged |
| `WingUtils.PerpendicularDistance` | wing_utils.py:279-293 | never negative |
| `WingUtils.NumeratorSquared` | wing_utils.py:288 | the numerator of the distance formula has the square of the side test |
| `WingUtils.PerpendicularDistanceSquared` | wing_utils.py:279-293 | dist²·length² == direction² |
| `WingUtils.DistanceFromDirection` | wing_utils.py:279-293 | the distance is c >= 0 whenever direction² == c²·length² |
| `WingUtils.VerticalLineDistance` | wing_utils.py:279-293 | from a line parallel to the y axis the distance is abs(pt.x - line.x) |
| `WingUtils.SlopedLineDistance` | wing_utils.py:279-293 | a point k above a line of slope t is at abs(dist) when k² == dist²·(1 + t²) |
| `WingUtils.DistanceZeroOnLinePoints` | wing_utils.py:279-293 | both line points are at distance 0 |

## Left out

- Floating point: every quantity is an exact `real`. Rounding, `isclose` tolerances, NaN and signed zero are not modelled.
- Transcendentals: `sin`, `cos`, `tan`, `sqrt` and `pi` are not computed. Only the identities in `MathLib.Lawful` are assumed, so the decimal values the helix tests print are not reproduced.
- The geometry kernel: cadquery's `parametricCurve`, `makeRuledSurface`, `makeShell` and `makeSolid`, and the solid they build. The model stops at the wire arguments and the face index pairs fed to it.
- The taperable helix library is not part of this model. A wire of thread5.py or threads.py is the record of its call (`Common.TaperArgs`), not a curve. The fields `HelicalThreadDim` inherits from it are plain fields without defaults.
- Debug `print` calls, and the editor and kernel helpers `setCtx`, `show`, `dbg`, `valid` and `updatePending` of wing_utils.py.
- The bolt and nut scripts at the bottom of thread4.py and thread5.py, and cq_threads.py, cq_bolt.py, cq_nut.py, makeHelix.py, parameters.py and the thread1/2/3 prototypes. These build or export solids, or read configuration.
- Keyword defaults: each default is an explicit argument, since Dafny has no keyword arguments. These are inset 0 and frac 0.1 in helix.py:12-13; inset, cvrgFactor, both offsets and firstT 0 and lastT 1 in convergingHelix.py:10-15; pitch 1, angle 60, divisors 8 and 4, overlap 0.0001, inset 0 and frac 0.1 in thread4.py:15 and 62-70; and angle 60, divisors 8 and 4, overlap 0.0001, inset 0, taper position 0.1 and clearance 0 in threads.py:229-237. Only `Helical.WithDefaults` models a default-filling constructor, because helicalthreads.py builds one.
- The two arguments of `interpolatePt_2d` it never reads (the list and the index) are dropped.
- Helical.Computable: a half angle whose tangent or sine is 0 raises in Python. The profile calculators require it away instead of returning an error value.
- Threads.Computable: the same requirement for ThreadDimensions.
- FullAngleProfile.Computable: a divisor of `Some(0)` raises in Python and is required away.
- WingUtils.PerpendicularDistance: two equal line points divide by zero in Python and are required away.
- WingUtils.Split2d: an empty list raises IndexError in Python (`lst[len(lst) - 1]`, wing_utils.py:250). It is required away, as it is for Split, SplitUpTo and Piece.
- Helical.HelicalThreadsOf: Python creates the result object first and fills its fields. The model computes the same values in locals, in the same order, and stores them at the end. No caller can observe the difference.
- Threads.ThreadDimensions.constructor: computed in locals and stored at the end in the same way. The argument fields are kept as one `params` value.
- Helical.UpperFlankClearance: stated for minorCutoff >= 0 only, since a negative cutoff moves the last internal point off the flank.
- Helical.ExternalTipClearance: for a collapsed tip only a lower bound is stated, and only for a positive tan(angle/2). The collapsed tip is shallower, so the exact distance there depends on the collapse.
- Threads.LowerFlankRootClearance: stated for zero overlap, because test_threads.py strips the overlap from the points before measuring.
- Threads.LowerFlankTipClearance: stated for zero overlap, for the same reason.
- Threads.TriangularTipShortfall: stated for zero overlap, for the same reason.
- Helical.LowerFlankRootClearance: like the other flank clearance lemmas, it requires cos(angle/2) != 0 and a non-zero flank run, since the distance from a degenerate flank is undefined.
- Thread4.HelixCounter.Func: the counter is an object field rather than a module global. Only the source's resets and increments change it.

## Findings

| source | as written | input that shows it | evidently intended | confidence | as-written member | corrected member |
|---|---|---|---|---|---|---|
| wing_utils.py:123 | the intercept is linePt1[Y] - slope·linePt2[X], pairing y of one point with x of the other | the line through (0,0) and (1,1): slope 1, intercept -1, but the line crosses the y axis at 0 | linePt1[Y] - slope·linePt1[X], so both points lie on y = slope·x + b | high; not executed | `WingUtils.SlopeYInterceptAsWrittenIsWrong` | `WingUtils.SlopeYIntercept2d` |
| threads.py:186-223 | the external tip half height major/2 - extVertAdj is used unclamped, and without a major cutoff the single external tip sits extVertAdj below its place | angle 90, major divisor 0, minor divisor 4, clearance 0.05, overlap 0: the tip is 0.05·(2 sin 45° - 1) ≈ 0.0207 from the internal flank, not 0.05 | the collapse branch of helicalthreads.py:160-166 (opposite half height 0, depth recomputed), which keeps the tip at exactly the clearance | high; not executed | `Threads.TriangularTipShortfall` | `Helical.LowerFlankTipClearance` |
