/** Great-circle distance. Of sine and cosine only the Pythagorean and addition identities are used. */
module Haversine {
  import opened RealArithmetic
  import opened Wrappers

  const EARTH_RADIUS_KM := 6371.0088

  datatype Maths = Maths(
    sin: real -> real, cos: real -> real, sqrt: real -> real, atan2: (real, real) -> real, radian: real)
  {
    ghost predicate Valid() {
      && (forall x :: Pythagoras(x))
      && (forall x, y :: Addition(x, y))
    }

    predicate Pythagoras(x: real) {
      sin(x) * sin(x) + cos(x) * cos(x) == 1.0
    }

    predicate Addition(x: real, y: real) {
      && sin(x + y) == sin(x) * cos(y) + cos(x) * sin(y)
      && cos(x + y) == cos(x) * cos(y) - sin(x) * sin(y)
    }

    function ToRadians(degrees: real): real {
      degrees * radian
    }
  }

  /** The haversine term, named `a` in the usual formula. */
  function Term(m: Maths, lat1: real, lon1: real, lat2: real, lon2: real): real {
    var sinLat := m.sin(m.ToRadians(lat2 - lat1) / 2.0);
    var sinLon := m.sin(m.ToRadians(lon2 - lon1) / 2.0);
    sinLat * sinLat + m.cos(m.ToRadians(lat1)) * m.cos(m.ToRadians(lat2)) * (sinLon * sinLon)
  }

  /** The distance, or `None` where a square root is taken of a negative number. */
  function Km(m: Maths, lat1: real, lon1: real, lat2: real, lon2: real): Option<real> {
    var a := Term(m, lat1, lon1, lat2, lon2);
    if 0.0 <= a <= 1.0 then Some(EARTH_RADIUS_KM * 2.0 * m.atan2(m.sqrt(a), m.sqrt(1.0 - a))) else None
  }

  lemma {:induction false} ZeroAngle(m: Maths)
    requires m.Valid()
    ensures m.sin(0.0) == 0.0 && m.cos(0.0) == 1.0
  {
    assert m.Pythagoras(0.0) && m.Addition(0.0, 0.0);
    var s, c := m.sin(0.0), m.cos(0.0);
    assert 0.0 + 0.0 == 0.0;
    assert s * s + c * c == 1.0 && s == s * c + c * s && c == c * c - s * s;
    OnlyUnit(s, c);
  }

  lemma OnlyUnit(s: real, c: real)
    requires s * s + c * c == 1.0 && s == s * c + c * s && c == c * c - s * s
    ensures s == 0.0 && c == 1.0
  {
    assert s * (1.0 - 2.0 * c) == 0.0;
    assert s == 0.0 || c == 0.5;
    assert s * s >= 0.0;
  }

  lemma {:induction false} Opposite(m: Maths, x: real)
    requires m.Valid()
    ensures m.sin(-x) == -m.sin(x) && m.cos(-x) == m.cos(x)
  {
    ZeroAngle(m);
    assert m.Pythagoras(x) && m.Addition(x, -x);
    assert x + (-x) == 0.0;
    SolveOpposite(m.sin(x), m.cos(x), m.sin(-x), m.cos(-x));
  }

  lemma SolveOpposite(s: real, c: real, s': real, c': real)
    requires s * s + c * c == 1.0 && s * c' + c * s' == 0.0 && c * c' - s * s' == 1.0
    ensures s' == -s && c' == c
  {
    assert s' == (s * s + c * c) * s';
    assert (s * s + c * c) * s' == s * (s * s') + c * (c * s');
    assert s * (s * s') + c * (c * s') == s * (c * c' - 1.0) + c * (0.0 - s * c');
    assert c' == (s * s + c * c) * c';
    assert (s * s + c * c) * c' == s * (s * c') + c * (c * c');
    assert s * (s * c') + c * (c * c') == s * (0.0 - c * s') + c * (1.0 + s * s');
  }

  /** sin²(x/2) in terms of cos x. */
  lemma {:induction false} HalfAngle(m: Maths, x: real)
    requires m.Valid()
    ensures m.sin(x / 2.0) * m.sin(x / 2.0) == (1.0 - m.cos(x)) / 2.0
  {
    var h := x / 2.0;
    assert m.Pythagoras(h) && m.Addition(h, h);
    assert h + h == x;
  }

  lemma {:induction false} UnitRange(m: Maths, x: real)
    requires m.Valid()
    ensures -1.0 <= m.cos(x) <= 1.0
    ensures 0.0 <= m.sin(x) * m.sin(x) <= 1.0
  {
    assert m.Pythagoras(x);
    SquaresBound(m.sin(x), m.cos(x));
  }

  lemma SquaresBound(s: real, c: real)
    requires s * s + c * c == 1.0
    ensures -1.0 <= c <= 1.0 && 0.0 <= s * s <= 1.0
  {
    assert s * s >= 0.0 && c * c >= 0.0;
    if c > 1.0 {
      MulPositive(c - 1.0, c + 1.0);
      assert false;
    }
    if c < -1.0 {
      MulPositive(-c - 1.0, -c + 1.0);
      assert false;
    }
  }

  lemma Subtract(radian: real, a: real, b: real)
    ensures (b - a) * radian == b * radian - a * radian
  {
  }

  /** The distance does not depend on which point comes first. */
  lemma {:induction false} Symmetric(m: Maths, lat1: real, lon1: real, lat2: real, lon2: real)
    requires m.Valid()
    ensures Term(m, lat1, lon1, lat2, lon2) == Term(m, lat2, lon2, lat1, lon1)
    ensures Km(m, lat1, lon1, lat2, lon2) == Km(m, lat2, lon2, lat1, lon1)
  {
    var dLat, dLon := m.ToRadians(lat2 - lat1) / 2.0, m.ToRadians(lon2 - lon1) / 2.0;
    assert m.ToRadians(lat1 - lat2) / 2.0 == -dLat && m.ToRadians(lon1 - lon2) / 2.0 == -dLon;
    Opposite(m, dLat);
    Opposite(m, dLon);
    SquareOfOpposite(m.sin(dLat));
    SquareOfOpposite(m.sin(dLon));
    assert m.cos(m.ToRadians(lat1)) * m.cos(m.ToRadians(lat2)) == m.cos(m.ToRadians(lat2)) * m.cos(m.ToRadians(lat1));
  }

  lemma SquareOfOpposite(s: real)
    ensures (-s) * (-s) == s * s
  {
  }

  /** Coinciding points have a zero term. */
  lemma {:induction false} ZeroAtSamePoint(m: Maths, lat: real, lon: real)
    requires m.Valid()
    ensures Term(m, lat, lon, lat, lon) == 0.0
  {
    ZeroAngle(m);
    assert m.ToRadians(lat - lat) / 2.0 == 0.0 && m.ToRadians(lon - lon) / 2.0 == 0.0;
  }

  // ---------------------------------------------------------------------------
  // What the term and the distance are

  /** A point of the unit sphere. */
  datatype Vector = Vector(x: real, y: real, z: real)

  /** The point at a latitude and a longitude, in degrees. */
  function OnSphere(m: Maths, lat: real, lon: real): Vector {
    var phi, lambda := m.ToRadians(lat), m.ToRadians(lon);
    Vector(m.cos(phi) * m.cos(lambda), m.cos(phi) * m.sin(lambda), m.sin(phi))
  }

  function Dot(u: Vector, v: Vector): real {
    u.x * v.x + u.y * v.y + u.z * v.z
  }

  function SquaredDistance(u: Vector, v: Vector): real {
    (u.x - v.x) * (u.x - v.x) + (u.y - v.y) * (u.y - v.y) + (u.z - v.z) * (u.z - v.z)
  }

  lemma SquaredDistanceIs(u: Vector, v: Vector)
    ensures SquaredDistance(u, v) == Dot(u, u) + Dot(v, v) - 2.0 * Dot(u, v)
  {
  }

  lemma {:induction false} UnitLength(m: Maths, lat: real, lon: real)
    requires m.Valid()
    ensures Dot(OnSphere(m, lat, lon), OnSphere(m, lat, lon)) == 1.0
  {
    var phi, lambda := m.ToRadians(lat), m.ToRadians(lon);
    assert m.Pythagoras(phi) && m.Pythagoras(lambda);
    UnitProduct(m.sin(phi), m.cos(phi), m.sin(lambda), m.cos(lambda));
    var p := OnSphere(m, lat, lon);
    assert p.x == m.cos(phi) * m.cos(lambda) && p.y == m.cos(phi) * m.sin(lambda) && p.z == m.sin(phi);
    DotOfSelf(p);
  }

  lemma DotOfSelf(u: Vector)
    ensures Dot(u, u) == u.x * u.x + u.y * u.y + u.z * u.z
  {
  }

  lemma UnitProduct(s: real, c: real, s': real, c': real)
    requires s * s + c * c == 1.0 && s' * s' + c' * c' == 1.0
    ensures (c * c') * (c * c') + (c * s') * (c * s') + s * s == 1.0
  {
    assert (c * c') * (c * c') + (c * s') * (c * s') == (c * c) * (c' * c' + s' * s');
  }

  /** cos(y - x) in terms of x and y. */
  lemma {:induction false} CosineOfDifference(m: Maths, x: real, y: real)
    requires m.Valid()
    ensures m.cos(y - x) == m.cos(x) * m.cos(y) + m.sin(x) * m.sin(y)
  {
    Opposite(m, x);
    assert m.Addition(y, -x) && y + (-x) == y - x;
  }

  /** The term is half of what the cosine of the angle between the two points lacks to 1. */
  lemma {:induction false} TermIsFromDot(m: Maths, lat1: real, lon1: real, lat2: real, lon2: real)
    requires m.Valid()
    ensures 4.0 * Term(m, lat1, lon1, lat2, lon2) == 2.0 - 2.0 * Dot(OnSphere(m, lat1, lon1), OnSphere(m, lat2, lon2))
  {
    var x, y, u, v := m.ToRadians(lat1), m.ToRadians(lat2), m.ToRadians(lon1), m.ToRadians(lon2);
    Subtract(m.radian, lat1, lat2);
    Subtract(m.radian, lon1, lon2);
    assert m.ToRadians(lat2 - lat1) == y - x && m.ToRadians(lon2 - lon1) == v - u;
    HalfAngle(m, y - x);
    HalfAngle(m, v - u);
    CosineOfDifference(m, x, y);
    CosineOfDifference(m, u, v);
    ChordArithmetic(m.cos(x), m.sin(x), m.cos(y), m.sin(y), m.cos(u), m.sin(u), m.cos(v), m.sin(v));
    DotIs(OnSphere(m, lat1, lon1), OnSphere(m, lat2, lon2),
          m.cos(x) * m.cos(u), m.cos(x) * m.sin(u), m.sin(x), m.cos(y) * m.cos(v), m.cos(y) * m.sin(v), m.sin(y));
  }

  lemma DotIs(u: Vector, v: Vector, a: real, b: real, c: real, a': real, b': real, c': real)
    requires u == Vector(a, b, c) && v == Vector(a', b', c')
    ensures Dot(u, v) == a * a' + b * b' + c * c'
  {
  }

  /** The term is a quarter of the squared straight-line distance between the two points. */
  lemma {:induction false} TermIsQuarterOfChordSquared(m: Maths, lat1: real, lon1: real, lat2: real, lon2: real)
    requires m.Valid()
    ensures 4.0 * Term(m, lat1, lon1, lat2, lon2)
         == SquaredDistance(OnSphere(m, lat1, lon1), OnSphere(m, lat2, lon2))
  {
    TermIsFromDot(m, lat1, lon1, lat2, lon2);
    UnitLength(m, lat1, lon1);
    UnitLength(m, lat2, lon2);
    SquaredDistanceIs(OnSphere(m, lat1, lon1), OnSphere(m, lat2, lon2));
  }

  lemma SquareIsNotNegative(x: real)
    ensures x * x >= 0.0
  {
  }

  lemma DistanceIsNotNegative(u: Vector, v: Vector)
    ensures SquaredDistance(u, v) >= 0.0
  {
    SquareIsNotNegative(u.x - v.x);
    SquareIsNotNegative(u.y - v.y);
    SquareIsNotNegative(u.z - v.z);
  }

  lemma AtMostOne(length: real, other: real, dot: real, distance: real)
    requires length == 1.0 && other == 1.0 && distance == length + other - 2.0 * dot && distance >= 0.0
    ensures dot <= 1.0
  {
  }

  lemma DotAtMostOne(u: Vector, v: Vector)
    requires Dot(u, u) == 1.0 && Dot(v, v) == 1.0
    ensures Dot(u, v) <= 1.0
  {
    SquaredDistanceIs(u, v);
    DistanceIsNotNegative(u, v);
    AtMostOne(Dot(u, u), Dot(v, v), Dot(u, v), SquaredDistance(u, v));
  }

  lemma DotOfOpposite(u: Vector, v: Vector)
    ensures Dot(u, Vector(-v.x, -v.y, -v.z)) == -Dot(u, v)
    ensures Dot(Vector(-v.x, -v.y, -v.z), Vector(-v.x, -v.y, -v.z)) == Dot(v, v)
  {
  }

  /** Whatever the coordinates, the term lies in [0, 1]: both square roots are defined and the distance exists. */
  lemma {:induction false} TermInUnitInterval(m: Maths, lat1: real, lon1: real, lat2: real, lon2: real)
    requires m.Valid()
    ensures 0.0 <= Term(m, lat1, lon1, lat2, lon2) <= 1.0
    ensures Km(m, lat1, lon1, lat2, lon2).Some?
  {
    var u, v := OnSphere(m, lat1, lon1), OnSphere(m, lat2, lon2);
    TermIsFromDot(m, lat1, lon1, lat2, lon2);
    UnitLength(m, lat1, lon1);
    UnitLength(m, lat2, lon2);
    DotOfOpposite(u, v);
    DotAtMostOne(u, v);
    DotAtMostOne(u, Vector(-v.x, -v.y, -v.z));
  }

  lemma ChordArithmetic(cx: real, sx: real, cy: real, sy: real, cu: real, su: real, cv: real, sv: real)
    ensures var lat, lon := (1.0 - (cx * cy + sx * sy)) / 2.0, (1.0 - (cu * cv + su * sv)) / 2.0;
            4.0 * (lat + cx * cy * lon) == 2.0 - 2.0 * ((cx * cu) * (cy * cv) + (cx * su) * (cy * sv) + sx * sy)
  {
    var p, q := cx * cy, cu * cv + su * sv;
    assert p * ((1.0 - q) / 2.0) == (p - p * q) / 2.0;
    assert p * q == (cx * cu) * (cy * cv) + (cx * su) * (cy * sv);
  }

  /** Root and arctangent at half an angle undo square, sine and cosine. */
  predicate Inverts(m: Maths, half: real) {
    && m.sqrt(m.sin(half) * m.sin(half)) == m.sin(half)
    && m.sqrt(m.cos(half) * m.cos(half)) == m.cos(half)
    && m.atan2(m.sin(half), m.cos(half)) == half
  }

  /** A term that is sin² of half an angle gives the length of the arc over that angle. */
  lemma {:induction false} ArcLength(m: Maths, lat1: real, lon1: real, lat2: real, lon2: real, half: real)
    requires m.Valid() && Inverts(m, half)
    requires Term(m, lat1, lon1, lat2, lon2) == m.sin(half) * m.sin(half)
    ensures Km(m, lat1, lon1, lat2, lon2) == Some(6371.0088 * (2.0 * half))
  {
    assert m.Pythagoras(half);
    UnitRange(m, half);
  }

  /** Along a meridian, and along the equator, the distance is the angle in radians times the Earth's radius. */
  lemma {:induction false} DistanceAlongCircle(m: Maths, from: real, to: real, other: real)
    requires m.Valid() && Inverts(m, (to - from) * m.radian / 2.0)
    ensures Km(m, from, other, to, other) == Some(6371.0088 * ((to - from) * m.radian))
    ensures Km(m, 0.0, from, 0.0, to) == Some(6371.0088 * ((to - from) * m.radian))
  {
    var half := (to - from) * m.radian / 2.0;
    ZeroAngle(m);
    assert m.ToRadians(other - other) / 2.0 == 0.0 && m.ToRadians(0.0 - 0.0) / 2.0 == 0.0 && m.ToRadians(0.0) == 0.0;
    assert m.ToRadians(to - from) / 2.0 == half;
    assert Term(m, from, other, to, other) == m.sin(half) * m.sin(half);
    assert Term(m, 0.0, from, 0.0, to) == m.sin(half) * m.sin(half);
    ArcLength(m, from, other, to, other, half);
    ArcLength(m, 0.0, from, 0.0, to, half);
  }

  /** Coinciding points are no distance apart. */
  lemma {:induction false} NoDistance(m: Maths, lat: real, lon: real)
    requires m.Valid() && m.sqrt(0.0) == 0.0 && m.atan2(0.0, m.sqrt(1.0)) == 0.0
    ensures Km(m, lat, lon, lat, lon) == Some(0.0)
  {
    ZeroAtSamePoint(m, lat, lon);
  }
}
