/** The few facts about Python's `math` module (pi, sin, cos, tan, sqrt, radians)
    that the thread geometry relies on. The functions are carried as values of
    the datatype `Math` and every property of them that a proof uses is listed
    in `Lawful`; nothing is computed numerically. */
module MathLib {

  datatype Math = Math(
    pi: real,
    sin: real -> real,
    cos: real -> real,
    tan: real -> real,
    sqrt: real -> real)

  /** The identities of the real sine, cosine, tangent and square root used here. */
  ghost predicate Lawful(m: Math) {
    && 3.0 < m.pi < 4.0
    && m.sin(0.0) == 0.0
    && m.cos(0.0) == 1.0
    && m.sin(m.pi / 2.0) == 1.0
    && m.sin(-(2.0 * m.pi)) == 0.0
    && (forall x {:trigger m.cos(x)} :: m.sin(x) * m.sin(x) + m.cos(x) * m.cos(x) == 1.0)
    && (forall x {:trigger m.cos(x)} :: m.sin(-x) == -m.sin(x))
    && (forall x {:trigger m.tan(x)} :: m.cos(x) != 0.0 ==> m.tan(x) * m.cos(x) == m.sin(x))
    && (forall x {:trigger m.tan(x)} :: 0.0 < x < m.pi / 2.0 ==> 0.0 < m.sin(x) && 0.0 < m.cos(x))
    && (forall x {:trigger m.sqrt(x)} :: 0.0 <= x ==> 0.0 <= m.sqrt(x) && m.sqrt(x) * m.sqrt(x) == x)
  }

  /** math.radians */
  function Radians(m: Math, degrees: real): real {
    degrees * m.pi / 180.0
  }

  /** sys.float_info.max, the largest finite IEEE-754 double. */
  const FloatMax: real := 179769313486231570814527423731704356798070567525844996598917476803157260780028538760589558632766878171540458953514382464234321326889464182768467546703537516986049910576551282076245490090389328944075868508455133942304583236903222948165808559332123348274797826204144723168738177180919299881250404026184124858368.0

  function Abs(x: real): (r: real)
    ensures 0.0 <= r && r * r == x * x
  {
    if x < 0.0 then -x else x
  }

  /** The identities of an angle whose cosine is not 0:
      tan * cos == sin and (1 + tan^2) * cos^2 == 1. */
  lemma TangentIdentities(m: Math, x: real)
    requires Lawful(m) && m.cos(x) != 0.0
    ensures m.tan(x) * m.cos(x) == m.sin(x)
    ensures (1.0 + m.tan(x) * m.tan(x)) * (m.cos(x) * m.cos(x)) == 1.0
  {
    var t, s, c := m.tan(x), m.sin(x), m.cos(x);
    assert t * c == s;
    assert s * s + c * c == 1.0;
    calc {
      (1.0 + t * t) * (c * c);
      c * c + (t * c) * (t * c);
      c * c + s * s;
      1.0;
    }
  }

  /** (cl / sin - cl) * tan + tan * cl == cl / cos: the vertical distance a
      clearance `cl` measured across a flank at angle x amounts to, times cos,
      is cl again. */
  lemma ClearanceOverCosine(m: Math, x: real, cl: real)
    requires Lawful(m) && m.sin(x) != 0.0 && m.cos(x) != 0.0
    ensures ((cl / m.sin(x) - cl) * m.tan(x) + m.tan(x) * cl) * m.cos(x) == cl
  {
    TangentIdentities(m, x);
    var t, s, c := m.tan(x), m.sin(x), m.cos(x);
    var hyp := cl / s;
    assert (hyp - cl) * t + t * cl == hyp * t;
    calc {
      (hyp * t) * c;
      hyp * (t * c);
      hyp * s;
      cl;
    }
  }

  /** A point of the xy-plane rotated by angle `a` at distance `r` from the axis
      (the helix evaluators use x = r*sin(-a), y = r*cos(a)) stays at distance `r`. */
  lemma RotationKeepsRadius(m: Math, r: real, a: real)
    requires Lawful(m)
    ensures (r * m.sin(-a)) * (r * m.sin(-a)) + (r * m.cos(a)) * (r * m.cos(a)) == r * r
  {
    var s, s', c := m.sin(a), m.sin(-a), m.cos(a);
    assert s' == -s;
    assert s * s + c * c == 1.0;
    calc {
      (r * s') * (r * s') + (r * c) * (r * c);
      r * r * (s' * s') + r * r * (c * c);
      { assert s' * s' == s * s; }
      r * r * (s * s + c * c);
      r * r;
    }
  }

  /** For an angle strictly between 0 and 90 degrees (half of a flank angle in
      (0, 180) degrees) the sine, cosine and tangent are all positive and
      tan^2 == sin^2 * (1 + tan^2). */
  lemma HalfAnglePositive(m: Math, x: real)
    requires Lawful(m)
    requires 0.0 < x < m.pi / 2.0
    ensures 0.0 < m.sin(x) && 0.0 < m.cos(x) && 0.0 < m.tan(x)
    ensures m.tan(x) * m.tan(x) == m.sin(x) * m.sin(x) * (1.0 + m.tan(x) * m.tan(x))
  {
    var s, c, t := m.sin(x), m.cos(x), m.tan(x);
    assert 0.0 < s && 0.0 < c;
    assert t * c == s;
    assert t == s / c;
    assert s * s + c * c == 1.0;
    calc {
      s * s * (1.0 + t * t);
      s * s + (t * t) * (s * s);
      { assert s * s == (t * c) * (t * c); }
      (t * c) * (t * c) + (t * t) * (s * s);
      (t * t) * (c * c + s * s);
      t * t;
    }
  }

  /** Two non-negative reals with equal squares are equal. */
  lemma SquareRootUnique(a: real, b: real)
    requires 0.0 <= a && 0.0 <= b && a * a == b * b
    ensures a == b
  {
    if a < b {
      SquareMonotone(a, b);
    } else if b < a {
      SquareMonotone(b, a);
    }
  }

  lemma SquareMonotone(a: real, b: real)
    requires 0.0 <= a < b
    ensures a * a < b * b
  {
    var ab := a * b;
    assert a * a <= ab;
    assert ab < b * b;
  }

  /** A product of two positive factors is positive. */
  lemma ProductPositive(a: real, b: real, p: real)
    requires 0.0 < a && 0.0 < b && p == a * b
    ensures 0.0 < p
  {
  }

  /** The square `s` of a non-zero real is positive. */
  lemma SquarePositive(a: real, s: real)
    requires a != 0.0 && s == a * a
    ensures 0.0 < s
  {
    if 0.0 < a {
      ProductPositive(a, a, s);
    } else {
      ProductPositive(-a, -a, s);
    }
  }

  /** A sum `s` of two squares is positive unless both bases are 0. */
  lemma SumOfSquaresPositive(a: real, b: real, s: real)
    requires a != 0.0 || b != 0.0
    requires s == a * a + b * b
    ensures 0.0 < s
  {
    var aa, bb := a * a, b * b;
    if a != 0.0 {
      SquarePositive(a, aa);
    } else {
      SquarePositive(b, bb);
    }
  }

  /** Squaring a quotient: (n / d)^2 * d^2 == n^2. */
  lemma QuotientSquared(n: real, d: real)
    requires d != 0.0
    ensures (n / d) * (n / d) * (d * d) == n * n
  {
    var q := n / d;
    assert q * d == n;
    assert q * q * (d * d) == (q * d) * (q * d);
  }

  /** A product with one positive factor is positive only if the other factor is. */
  lemma PositiveFactor(a: real, b: real, p: real)
    requires 0.0 < a && 0.0 < p && p == a * b
    ensures 0.0 < b
  {
    assert b == p / a;
  }

  /** A common positive factor cancels. */
  lemma CancelPositive(a: real, b: real, s: real)
    requires 0.0 < s && a * s == b * s
    ensures a == b
  {
    assert (a - b) * s == 0.0;
  }
}
