/** Ray-figure intersection. A ray is an origin `eye` and a direction `ray`; a
    hit is a parameter t with the hit point eye + t*ray. The source returns
    positive infinity for "no hit"; here that is None. */
module Intersect {
  import opened Numerics
  import opened Vectors
  import opened Figures

  /** The tolerance used against zero and at the box bounds: 1e-10. */
  const Eps: real := 1.0e-10

  /** The point of the ray at parameter t. */
  function RayAt(eye: Point3D, ray: Point3D, t: real): Point3D
  {
    Add(eye, Mul(t, ray))
  }

  predicate OnSphere(p: Point3D, center: Point3D, radius: real)
  {
    Scalar(Sub(p, center), Sub(p, center)) == radius * radius
  }

  /** The quadratic a*t^2 + b*t + c. */
  datatype Quadratic = Quadratic(a: real, b: real, c: real)

  function Eval(q: Quadratic, t: real): real
  {
    q.a * t * t + q.b * t + q.c
  }

  function Discriminant(q: Quadratic): real
  {
    q.b * q.b - 4.0 * q.a * q.c
  }

  /** The coefficients the source computes for a sphere: a = ray.ray,
      b = 2 (EC.ray), c = EC.EC - radius^2 with EC = eye - center. */
  function SphereQuadratic(eye: Point3D, ray: Point3D, center: Point3D, radius: real): Quadratic
  {
    var ec := Sub(eye, center);
    Quadratic(Scalar(ray, ray), 2.0 * Scalar(ec, ray), Scalar(ec, ec) - radius * radius)
  }

  /** The sphere quadratic vanishes at t exactly when the ray point at t lies on
      the sphere. */
  lemma SphereQuadraticMeaning(eye: Point3D, ray: Point3D, center: Point3D, radius: real, t: real)
    ensures Eval(SphereQuadratic(eye, ray, center, radius), t) == 0.0
        <==> OnSphere(RayAt(eye, ray, t), center, radius)
  {
    var ec := Sub(eye, center);
    var d := Sub(RayAt(eye, ray, t), center);
    assert d == Add(ec, Mul(t, ray));
    calc {
      Scalar(d, d);
      (ec.x + t * ray.x) * (ec.x + t * ray.x) + (ec.y + t * ray.y) * (ec.y + t * ray.y)
        + (ec.z + t * ray.z) * (ec.z + t * ray.z);
      Scalar(ray, ray) * t * t + 2.0 * Scalar(ec, ray) * t + Scalar(ec, ec);
    }
  }

  /** A zero direction gives a = b = 0 and so a zero discriminant. */
  lemma ZeroDirectionNoDiscriminant(eye: Point3D, ray: Point3D, center: Point3D, radius: real)
    ensures SphereQuadratic(eye, ray, center, radius).a == 0.0 ==>
      Discriminant(SphereQuadratic(eye, ray, center, radius)) == 0.0
  {
    var q := SphereQuadratic(eye, ray, center, radius);
    assert q.a == Scalar(ray, ray);
    if q.a == 0.0 {
      ScalarSelf(ray);
      assert ray == Origin;
      ZeroDirectionNoB(eye, ray, center, radius);
      DegenerateDiscriminant(q);
      assert Discriminant(q) == 0.0;
    }
  }

  lemma ZeroDirectionNoB(eye: Point3D, ray: Point3D, center: Point3D, radius: real)
    requires ray == Origin
    ensures SphereQuadratic(eye, ray, center, radius).b == 0.0
  {
  }

  lemma DegenerateDiscriminant(q: Quadratic)
    requires q.a == 0.0 && q.b == 0.0
    ensures Discriminant(q) == 0.0
  {
  }

  /** Sphere branch of Intersection: solve the quadratic, no hit when the
      discriminant is below Eps or both roots are below Eps, otherwise the root t2
      when it exceeds Eps and t1 if not. */
  function SphereIntersection(sqrt: SqrtFn, eye: Point3D, ray: Point3D, center: Point3D, radius: real): Option<real>
  {
    var q := SphereQuadratic(eye, ray, center, radius);
    var d := Discriminant(q);
    if d < Eps then None
    else
      ZeroDirectionNoDiscriminant(eye, ray, center, radius);
      var t1 := (-q.b + sqrt(d)) / (2.0 * q.a);
      var t2 := (-q.b - sqrt(d)) / (2.0 * q.a);
      if MaxReal(t1, t2) < Eps then None
      else Some(if t2 > Eps then t2 else t1)
  }

  /** The factorisation a*s^2 + b*s + c = a (s - t1)(s - t2) for the two roots
      of the quadratic formula, written with a root sd of the discriminant. */
  lemma QuadraticFactor(q: Quadratic, sd: real, t1: real, t2: real, s: real)
    requires q.a != 0.0
    requires sd * sd == Discriminant(q)
    requires t1 == (-q.b + sd) / (2.0 * q.a) && t2 == (-q.b - sd) / (2.0 * q.a)
    ensures Eval(q, s) == q.a * (s - t1) * (s - t2)
  {
    var a, b, c := q.a, q.b, q.c;
    assert 2.0 * a * t1 == -b + sd;
    assert 2.0 * a * t2 == -b - sd;
    calc {
      4.0 * a * a * (s - t1) * (s - t2);
      (2.0 * a * s - 2.0 * a * t1) * (2.0 * a * s - 2.0 * a * t2);
      (2.0 * a * s + b - sd) * (2.0 * a * s + b + sd);
      (2.0 * a * s + b) * (2.0 * a * s + b) - sd * sd;
      (2.0 * a * s + b) * (2.0 * a * s + b) - (b * b - 4.0 * a * c);
      4.0 * a * (a * s * s + b * s + c);
    }
    calc {
      Eval(q, s);
      (4.0 * a * (a * s * s + b * s + c)) / (4.0 * a);
      (4.0 * a * a * (s - t1) * (s - t2)) / (4.0 * a);
      a * (s - t1) * (s - t2);
    }
  }

  /** For a discriminant of at least Eps the two roots of the quadratic formula
      are ordered t2 <= t1, both solve the quadratic, and nothing else does. */
  lemma SphereRoots(sqrt: SqrtFn, eye: Point3D, ray: Point3D, center: Point3D, radius: real)
    requires IsSqrt(sqrt)
    requires Discriminant(SphereQuadratic(eye, ray, center, radius)) >= Eps
    ensures var q := SphereQuadratic(eye, ray, center, radius);
      q.a > 0.0 &&
      var sd := sqrt(Discriminant(q));
      var t1 := (-q.b + sd) / (2.0 * q.a);
      var t2 := (-q.b - sd) / (2.0 * q.a);
      t2 <= t1 && Eval(q, t1) == 0.0 && Eval(q, t2) == 0.0 &&
      forall s :: Eval(q, s) == 0.0 ==> s == t1 || s == t2
  {
    var q := SphereQuadratic(eye, ray, center, radius);
    ZeroDirectionNoDiscriminant(eye, ray, center, radius);
    ScalarSelf(ray);
    assert q.a > 0.0;
    var d := Discriminant(q);
    var sd := sqrt(d);
    assert 0.0 <= sd && sd * sd == d;
    var t1 := (-q.b + sd) / (2.0 * q.a);
    var t2 := (-q.b - sd) / (2.0 * q.a);
    calc {
      t1 - t2;
      (2.0 * sd) / (2.0 * q.a);
    >= 0.0;
    }
    QuadraticFactor(q, sd, t1, t2, t1);
    QuadraticFactor(q, sd, t1, t2, t2);
    forall s | Eval(q, s) == 0.0
      ensures s == t1 || s == t2
    {
      QuadraticFactor(q, sd, t1, t2, s);
      ProductZero(q.a * (s - t1), s - t2);
      if s != t2 {
        ProductZero(q.a, s - t1);
      }
    }
  }

  /** A reported sphere hit lies on the sphere at a parameter of at least Eps, and
      it is the nearest such point beyond Eps along the ray. */
  lemma SphereHitIsNearestAhead(sqrt: SqrtFn, eye: Point3D, ray: Point3D, center: Point3D, radius: real)
    requires IsSqrt(sqrt)
    requires SphereIntersection(sqrt, eye, ray, center, radius).Some?
    ensures var t := SphereIntersection(sqrt, eye, ray, center, radius).value;
      Eps <= t && OnSphere(RayAt(eye, ray, t), center, radius) &&
      forall s :: Eps < s && OnSphere(RayAt(eye, ray, s), center, radius) ==> t <= s
  {
    var q := SphereQuadratic(eye, ray, center, radius);
    var t := SphereIntersection(sqrt, eye, ray, center, radius).value;
    SphereRoots(sqrt, eye, ray, center, radius);
    SphereQuadraticMeaning(eye, ray, center, radius, t);
    forall s | Eps < s && OnSphere(RayAt(eye, ray, s), center, radius)
      ensures t <= s
    {
      SphereQuadraticMeaning(eye, ray, center, radius, s);
    }
  }

  /** When the discriminant reaches Eps and no hit is reported, no point of the
      ray at a parameter of Eps or more lies on the sphere. */
  lemma SphereMissHasNoRootAhead(sqrt: SqrtFn, eye: Point3D, ray: Point3D, center: Point3D, radius: real)
    requires IsSqrt(sqrt)
    requires SphereIntersection(sqrt, eye, ray, center, radius).None?
    ensures Discriminant(SphereQuadratic(eye, ray, center, radius)) < Eps ||
      forall s :: Eps <= s ==> !OnSphere(RayAt(eye, ray, s), center, radius)
  {
    if Discriminant(SphereQuadratic(eye, ray, center, radius)) >= Eps {
      SphereRoots(sqrt, eye, ray, center, radius);
      forall s | Eps <= s
        ensures !OnSphere(RayAt(eye, ray, s), center, radius)
      {
        SphereQuadraticMeaning(eye, ray, center, radius, s);
      }
    }
  }

  /** Whether a point lies in the face's box widened by Eps on every side; the
      bounds are strict and taken with Min/Max of the two corners. */
  predicate PointInPlane(plain: Figure, point: Point3D)
    requires plain.Wall?
  {
    point.x < MaxReal(plain.maxPoint.x, plain.minPoint.x) + Eps &&
    point.x > MinReal(plain.maxPoint.x, plain.minPoint.x) - Eps &&
    point.y < MaxReal(plain.maxPoint.y, plain.minPoint.y) + Eps &&
    point.y > MinReal(plain.maxPoint.y, plain.minPoint.y) - Eps &&
    point.z < MaxReal(plain.maxPoint.z, plain.minPoint.z) + Eps &&
    point.z > MinReal(plain.maxPoint.z, plain.minPoint.z) - Eps
  }

  /** Swapping the two corners does not change the box test. */
  lemma PointInPlaneSymmetric(plain: Figure, point: Point3D)
    requires plain.Wall?
    ensures PointInPlane(plain.(minPoint := plain.maxPoint, maxPoint := plain.minPoint), point)
        == PointInPlane(plain, point)
  {
  }

  predicate Between(v: real, p: real, q: real)
  {
    MinReal(p, q) <= v <= MaxReal(p, q)
  }

  /** Every point of the closed box, the faces of the box included, passes. */
  lemma PointInPlaneAcceptsBox(plain: Figure, point: Point3D)
    requires plain.Wall?
    requires Between(point.x, plain.minPoint.x, plain.maxPoint.x)
    requires Between(point.y, plain.minPoint.y, plain.maxPoint.y)
    requires Between(point.z, plain.minPoint.z, plain.maxPoint.z)
    ensures PointInPlane(plain, point)
  {
  }

  /** A point Eps or more outside the box on some axis fails. */
  lemma PointInPlaneRejectsOutside(plain: Figure, point: Point3D)
    requires plain.Wall?
    requires point.x >= MaxReal(plain.minPoint.x, plain.maxPoint.x) + Eps
          || point.x <= MinReal(plain.minPoint.x, plain.maxPoint.x) - Eps
          || point.y >= MaxReal(plain.minPoint.y, plain.maxPoint.y) + Eps
          || point.y <= MinReal(plain.minPoint.y, plain.maxPoint.y) - Eps
          || point.z >= MaxReal(plain.minPoint.z, plain.maxPoint.z) + Eps
          || point.z <= MinReal(plain.minPoint.z, plain.maxPoint.z) - Eps
    ensures !PointInPlane(plain, point)
  {
  }

  /** The plane of a face: through its max corner, orthogonal to its normal. */
  predicate OnPlane(plain: Figure, p: Point3D)
    requires plain.Wall?
  {
    Scalar(Sub(p, plain.maxPoint), plain.normal) == 0.0
  }

  /** Face branch of Intersection: the plane through the max corner with the
      normalised face normal, clipped by PointInPlane. The source divides by
      scalar2 even when it is zero; in IEEE arithmetic every such case ends as
      "no hit" (an infinite t is either below Eps or gives a point outside the
      box, and a NaN fails every comparison), which is the first branch here. */
  function FaceIntersection(sqrt: SqrtFn, eye: Point3D, ray: Point3D, wall: Figure): Option<real>
    requires wall.Wall?
  {
    var normal := Normalize(sqrt, wall.normal);
    var v := Sub(eye, wall.maxPoint);
    var scalar1 := Scalar(v, normal);
    var scalar2 := Scalar(ray, normal);
    if scalar2 == 0.0 then None
    else
      var t := -scalar1 / scalar2;
      if t < Eps then None
      else if PointInPlane(wall, RayAt(eye, ray, t)) then Some(t)
      else None
  }

  /** A reported face hit is at a parameter of at least Eps, on the face's plane
      and inside its widened box. */
  lemma FaceHitOnPatch(sqrt: SqrtFn, eye: Point3D, ray: Point3D, wall: Figure)
    requires wall.Wall?
    requires FaceIntersection(sqrt, eye, ray, wall).Some?
    ensures var t := FaceIntersection(sqrt, eye, ray, wall).value;
      Eps <= t && PointInPlane(wall, RayAt(eye, ray, t)) && OnPlane(wall, RayAt(eye, ray, t))
  {
    var n := Normalize(sqrt, wall.normal);
    var v := Sub(eye, wall.maxPoint);
    var t := FaceIntersection(sqrt, eye, ray, wall).value;
    var w := Sub(RayAt(eye, ray, t), wall.maxPoint);
    NormalizeForm(sqrt, wall.normal);
    assert Length(sqrt, wall.normal) != 0.0;
    PlaneParameter(Scalar(v, n), Scalar(ray, n), t);
    assert w == Add(v, Mul(t, ray));
    ScalarLinear(v, Mul(t, ray), n);
    ScalarMul(t, ray, n);
    NormalizeScales(sqrt, wall.normal, w);
  }

  /** t = -s1/s2 solves s1 + t*s2 = 0. */
  lemma PlaneParameter(s1: real, s2: real, t: real)
    requires s2 != 0.0 && t == -s1 / s2
    ensures s1 + t * s2 == 0.0
  {
  }

  /** A ray parallel to the face's plane never hits it. */
  lemma FaceParallelMisses(sqrt: SqrtFn, eye: Point3D, ray: Point3D, wall: Figure)
    requires wall.Wall?
    requires Scalar(ray, wall.normal) == 0.0
    ensures FaceIntersection(sqrt, eye, ray, wall).None?
  {
    NormalizeForm(sqrt, wall.normal);
    if Length(sqrt, wall.normal) != 0.0 {
      NormalizeScales(sqrt, wall.normal, ray);
      ProductZero(Scalar(ray, Normalize(sqrt, wall.normal)), Length(sqrt, wall.normal));
    }
  }

  /** Conversely, with a true square root: if the ray is not parallel to the face
      and meets its plane inside the widened box at s >= Eps, the hit is s. */
  lemma FaceHitComplete(sqrt: SqrtFn, eye: Point3D, ray: Point3D, wall: Figure, s: real)
    requires IsSqrt(sqrt)
    requires wall.Wall?
    requires Scalar(ray, wall.normal) != 0.0
    requires Eps <= s && OnPlane(wall, RayAt(eye, ray, s)) && PointInPlane(wall, RayAt(eye, ray, s))
    ensures FaceIntersection(sqrt, eye, ray, wall) == Some(s)
  {
    var nn := wall.normal;
    var n := Normalize(sqrt, nn);
    var v := Sub(eye, wall.maxPoint);
    var len := Length(sqrt, nn);
    assert nn != Origin;
    LengthProperties(sqrt, nn);
    NormalizeScales(sqrt, nn, ray);
    NormalizeScales(sqrt, nn, v);
    var s1, s2 := Scalar(v, n), Scalar(ray, n);
    assert s2 != 0.0;
    assert Sub(RayAt(eye, ray, s), wall.maxPoint) == Add(v, Mul(s, ray));
    ScalarLinear(v, Mul(s, ray), nn);
    ScalarMul(s, ray, nn);
    UniqueParameter(s1, s2, len, s);
  }

  /** From (s1 + s*s2) * len == 0 with len and s2 non-zero, s == -s1/s2. */
  lemma UniqueParameter(s1: real, s2: real, len: real, s: real)
    requires len != 0.0 && s2 != 0.0
    requires s1 * len + s * (s2 * len) == 0.0
    ensures s == -s1 / s2
  {
    calc {
      (s1 + s * s2) * len;
      s1 * len + s * (s2 * len);
      0.0;
    }
    ProductZero(s1 + s * s2, len);
  }

  /** Intersection with any figure: dispatch on the kind tag. */
  function Intersection(sqrt: SqrtFn, eye: Point3D, ray: Point3D, element: Figure): Option<real>
  {
    if TypeOf(element) == FigureType.Sphere then
      SphereIntersection(sqrt, eye, ray, element.center, element.radius)
    else if TypeOf(element) == FigureType.Wall || TypeOf(element) == FigureType.SideCube then
      FaceIntersection(sqrt, eye, ray, element)
    else
      None
  }

  /** Every reported hit lies at a parameter of at least Eps, so a ray leaving a
      surface never meets that surface at t = 0. */
  lemma IntersectionAhead(sqrt: SqrtFn, eye: Point3D, ray: Point3D, element: Figure)
    requires IsSqrt(sqrt)
    requires Intersection(sqrt, eye, ray, element).Some?
    ensures Intersection(sqrt, eye, ray, element).value >= Eps
  {
    if element.Sphere? {
      SphereHitIsNearestAhead(sqrt, eye, ray, element.center, element.radius);
    } else {
      FaceHitOnPatch(sqrt, eye, ray, element);
    }
  }
}
