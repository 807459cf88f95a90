/** Values shared by the helix evaluators and the thread profile calculators. */
module Common {

  datatype Option<T> = None | Some(value: T)

  /** A point of the parametric space curve, as the evaluators return it. */
  datatype Point3 = Point3(x: real, y: real, z: real)

  const Origin: Point3 := Point3(0.0, 0.0, 0.0)

  /** What one call of an evaluator produces: a point, or the ZeroDivisionError
      Python raises when a division by zero is reached. */
  datatype Sample = Point(point: Point3) | ZeroDivision

  /** The three branches of a fade: sine rise, constant 1, sine fall. */
  datatype Regime = LeadIn | Body | LeadOut

  /** Square of the distance of a point from the helix axis (the z axis). */
  function RadialSq(p: Point3): real {
    p.x * p.x + p.y * p.y
  }

  /** One strand of a thread profile: the helix radius it is built on and the
      radial and vertical offsets applied to it (HelixLocation). */
  datatype HelixLocation = HelixLocation(radius: real, horzOffset: real, vertOffset: real)

  /** The arguments of a call of the taperable helix (radius, pitch, height,
      taper position, inset, horizontal and vertical offset), in call order;
      the curve it produces is not part of this model. */
  datatype TaperArgs = TaperArgs(
    radius: real,
    pitch: real,
    height: real,
    taperRpos: real,
    inset: real,
    horzOffset: real,
    vertOffset: real)

  /** A ruled surface between wire `first` and wire `second`, by strand index. */
  datatype RuledFace = RuledFace(first: nat, second: nat)

  /** How many faces rule strand `s` to another strand. */
  function FacesOf(faces: seq<RuledFace>, s: nat): (n: nat)
    ensures n <= |faces|
  {
    if faces == [] then 0
    else (if faces[0].first == s || faces[0].second == s then 1 else 0) + FacesOf(faces[1..], s)
  }
}
