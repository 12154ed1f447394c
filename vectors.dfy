/** Vector math of the engine: the Point3D value type (componentwise +, - and
    scalar *) and the helpers Scalar, Length, Normalize, Reflect and Refract.

    Math.Sqrt is not given a definition: every function that takes a root
    receives it as the parameter `sqrt`, and lemmas that depend on it being a
    square root require IsSqrt(sqrt). */
module Vectors {
  import opened Numerics

  datatype Point3D = Point3D(x: real, y: real, z: real)

  const Origin := Point3D(0.0, 0.0, 0.0)

  function Add(p: Point3D, q: Point3D): Point3D
  {
    Point3D(p.x + q.x, p.y + q.y, p.z + q.z)
  }

  function Sub(p: Point3D, q: Point3D): Point3D
  {
    Point3D(p.x - q.x, p.y - q.y, p.z - q.z)
  }

  /** `k * p` of the source: scalar times point. */
  function Mul(k: real, p: Point3D): Point3D
  {
    Point3D(k * p.x, k * p.y, k * p.z)
  }

  /** The stand-in for Math.Sqrt. */
  type SqrtFn = real -> real

  /** `sqrt` returns the non-negative square root of every non-negative real. */
  ghost predicate IsSqrt(sqrt: SqrtFn)
  {
    forall v :: 0.0 <= v ==> 0.0 <= sqrt(v) && sqrt(v) * sqrt(v) == v
  }

  /** Squaring is strictly increasing on the non-negative reals. */
  lemma SquareMonotone(a: real, b: real)
    requires 0.0 <= a < b
    ensures a * a < b * b
  {
    calc {
      a * a;
    <= a * b;
    < b * b;
    }
  }

  /** A product is zero only if a factor is. */
  lemma ProductZero(u: real, v: real)
    requires u * v == 0.0
    ensures u == 0.0 || v == 0.0
  {
    if u != 0.0 {
      calc {
        v;
        (u * v) / u;
        0.0;
      }
    }
  }

  /** Only zero squares to zero. */
  lemma SquareZero(a: real)
    ensures 0.0 <= a * a
    ensures a * a == 0.0 ==> a == 0.0
  {
    if a < 0.0 {
      SquareMonotone(0.0, -a);
    } else if a > 0.0 {
      SquareMonotone(0.0, a);
    }
  }

  /** The square root of a square v*v with v >= 0 is v. */
  lemma SqrtOfSquare(sqrt: SqrtFn, v: real)
    requires IsSqrt(sqrt) && 0.0 <= v
    ensures sqrt(v * v) == v
  {
    SquareZero(v);
    var s := sqrt(v * v);
    assert 0.0 <= s && s * s == v * v;
    if s < v {
      SquareMonotone(s, v);
    } else if v < s {
      SquareMonotone(v, s);
    }
  }

  /** The square root of 1 is 1. */
  lemma SqrtOne(sqrt: SqrtFn)
    requires IsSqrt(sqrt)
    ensures sqrt(1.0) == 1.0
  {
    SqrtOfSquare(sqrt, 1.0);
  }

  /** Dot product. */
  function Scalar(v1: Point3D, v2: Point3D): real
  {
    v1.x * v2.x + v1.y * v2.y + v1.z * v2.z
  }

  lemma ScalarSymmetric(v1: Point3D, v2: Point3D)
    ensures Scalar(v1, v2) == Scalar(v2, v1)
  {
  }

  /** A vector's square norm is non-negative and vanishes only on the zero vector. */
  lemma ScalarSelf(v: Point3D)
    ensures 0.0 <= Scalar(v, v)
    ensures Scalar(v, v) == 0.0 <==> v == Origin
  {
    SquareZero(v.x);
    SquareZero(v.y);
    SquareZero(v.z);
  }

  /** Scaling one argument scales the dot product. */
  lemma ScalarMul(k: real, v1: Point3D, v2: Point3D)
    ensures Scalar(Mul(k, v1), v2) == k * Scalar(v1, v2)
    ensures Scalar(v1, Mul(k, v2)) == k * Scalar(v1, v2)
  {
  }

  /** The dot product distributes over addition and subtraction. */
  lemma ScalarLinear(u: Point3D, v: Point3D, w: Point3D)
    ensures Scalar(Add(u, v), w) == Scalar(u, w) + Scalar(v, w)
    ensures Scalar(Sub(u, v), w) == Scalar(u, w) - Scalar(v, w)
  {
  }

  function Length(sqrt: SqrtFn, v: Point3D): real
  {
    sqrt(v.x * v.x + v.y * v.y + v.z * v.z)
  }

  /** With a true square root, the length is non-negative, squares to the square
      norm, and is zero exactly for the zero vector. */
  lemma LengthProperties(sqrt: SqrtFn, v: Point3D)
    requires IsSqrt(sqrt)
    ensures 0.0 <= Length(sqrt, v)
    ensures Length(sqrt, v) * Length(sqrt, v) == Scalar(v, v)
    ensures Length(sqrt, v) == 0.0 <==> v == Origin
  {
    ScalarSelf(v);
    var len := Length(sqrt, v);
    assert len == sqrt(Scalar(v, v));
    assert 0.0 <= len && len * len == Scalar(v, v);
    SquareZero(len);
  }

  /** Normalisation. The source divides by the length unconditionally, so the
      zero vector gives 0/0; here a zero length yields the zero vector. */
  function Normalize(sqrt: SqrtFn, v: Point3D): Point3D
  {
    var len := sqrt(v.x * v.x + v.y * v.y + v.z * v.z);
    if len == 0.0 then Origin else Point3D(v.x / len, v.y / len, v.z / len)
  }

  /** Dividing by a non-zero real and multiplying back is the identity. */
  lemma DivMul(u: real, l: real)
    requires l != 0.0
    ensures (u / l) * l == u
  {
  }

  /** Multiplying a dot product by l multiplies the second vector by l. */
  lemma ScalarTimes(w: Point3D, n: Point3D, l: real)
    ensures Scalar(w, n) * l == w.x * (n.x * l) + w.y * (n.y * l) + w.z * (n.z * l)
  {
  }

  /** Normalize yields the zero vector when the length is zero and v divided by
      its length otherwise. */
  lemma NormalizeForm(sqrt: SqrtFn, v: Point3D)
    ensures Normalize(sqrt, v) == if Length(sqrt, v) == 0.0 then Origin
      else Point3D(v.x / Length(sqrt, v), v.y / Length(sqrt, v), v.z / Length(sqrt, v))
  {
  }

  /** A dot product with Normalize(v), times the length of v, is the dot product
      with v itself. */
  lemma NormalizeScales(sqrt: SqrtFn, v: Point3D, w: Point3D)
    requires Length(sqrt, v) != 0.0
    ensures Scalar(w, Normalize(sqrt, v)) * Length(sqrt, v) == Scalar(w, v)
  {
    var len := Length(sqrt, v);
    var n := Normalize(sqrt, v);
    NormalizeForm(sqrt, v);
    DivMul(v.x, len);
    DivMul(v.y, len);
    DivMul(v.z, len);
    assert n.x * len == v.x && n.y * len == v.y && n.z * len == v.z;
    ScalarTimes(w, n, len);
  }

  /** With a true square root, Normalize maps the zero vector to itself and every
      other vector to a unit vector. */
  lemma NormalizeUnit(sqrt: SqrtFn, v: Point3D)
    requires IsSqrt(sqrt)
    ensures v == Origin ==> Normalize(sqrt, v) == Origin
    ensures v != Origin ==> Scalar(Normalize(sqrt, v), Normalize(sqrt, v)) == 1.0
  {
    LengthProperties(sqrt, v);
    NormalizeForm(sqrt, v);
    var len := Length(sqrt, v);
    if v != Origin {
      var n := Normalize(sqrt, v);
      NormalizeScales(sqrt, v, n);
      NormalizeScales(sqrt, v, v);
      ScalarSymmetric(n, v);
      UnitFromScaling(Scalar(n, n), Scalar(n, v), Scalar(v, v), len);
    }
  }

  /** nn * l == nv, nv * l == vv == l * l and l != 0 give nn == 1. */
  lemma UnitFromScaling(nn: real, nv: real, vv: real, l: real)
    requires l != 0.0 && nn * l == nv && nv * l == vv && vv == l * l
    ensures nn == 1.0
  {
    calc {
      (nn - 1.0) * (l * l);
      (nn * l) * l - l * l;
      nv * l - l * l;
      0.0;
    }
    SquareZero(l);
    ProductZero(nn - 1.0, l * l);
  }

  /** Mirror reflection of `ray` about `normal`: ray - 2 (ray . normal) normal. */
  function Reflect(ray: Point3D, normal: Point3D): Point3D
  {
    Sub(ray, Mul(2.0 * Scalar(ray, normal), normal))
  }

  /** Reflection about a unit normal flips the normal component of the ray. */
  lemma ReflectFlipsNormalComponent(ray: Point3D, normal: Point3D)
    requires Scalar(normal, normal) == 1.0
    ensures Scalar(Reflect(ray, normal), normal) == -Scalar(ray, normal)
  {
    var k := 2.0 * Scalar(ray, normal);
    ScalarLinear(ray, Mul(k, normal), normal);
    ScalarMul(k, normal, normal);
  }

  /** Reflecting twice about the same unit normal gives the original ray back. */
  lemma ReflectInvolutive(ray: Point3D, normal: Point3D)
    requires Scalar(normal, normal) == 1.0
    ensures Reflect(Reflect(ray, normal), normal) == ray
  {
    ReflectFlipsNormalComponent(ray, normal);
    var d := Scalar(ray, normal);
    var r := Reflect(ray, normal);
    assert Scalar(r, normal) == -d;
    assert Reflect(r, normal) == Add(r, Mul(2.0 * d, normal));
  }

  /** Reflection about a unit normal preserves the square norm of the ray. */
  lemma ReflectPreservesLength(ray: Point3D, normal: Point3D)
    requires Scalar(normal, normal) == 1.0
    ensures Scalar(Reflect(ray, normal), Reflect(ray, normal)) == Scalar(ray, ray)
  {
    var d := Scalar(ray, normal);
    var r := Reflect(ray, normal);
    var m := Mul(2.0 * d, normal);
    assert r == Sub(ray, m);
    calc {
      Scalar(r, r);
    == { ScalarLinear(ray, m, r); }
      Scalar(ray, r) - Scalar(m, r);
    == { ScalarMul(2.0 * d, normal, r); }
      Scalar(ray, r) - 2.0 * d * Scalar(normal, r);
    == { ReflectFlipsNormalComponent(ray, normal); ScalarSymmetric(normal, r); }
      Scalar(ray, r) + 2.0 * d * d;
    == { ScalarSymmetric(ray, r); ScalarLinear(ray, m, ray); }
      Scalar(ray, ray) - Scalar(m, ray) + 2.0 * d * d;
    == { ScalarMul(2.0 * d, normal, ray); ScalarSymmetric(normal, ray); }
      Scalar(ray, ray) - 2.0 * d * d + 2.0 * d * d;
    }
  }

  /** Refractive index of the objects. */
  const N1: real := 1.1
  /** Refractive index of the air around them. */
  const N2: real := 1.0

  /** The ratio used by Refract: n1/n2 when the ray enters, n2/n1 otherwise. */
  function IndexRatio(cosIncident: real): (eta: real)
    ensures eta == N1 / N2 || eta == N2 / N1
    ensures eta == N1 / N2 <==> cosIncident > 0.0
    ensures eta > 0.0
  {
    if cosIncident > 0.0 then N1 / N2 else N2 / N1
  }

  /** Refraction as written: the normal is oriented against the ray and
      normalised to get the cosines, and the total-internal-reflection case is
      clamped to zero under the root; the result combines the ray with the
      original, unoriented normal. */
  function Refract(sqrt: SqrtFn, ray: Point3D, normal: Point3D): Point3D
  {
    var sn := Normalize(sqrt, if Scalar(ray, normal) < 0.0 then normal
                              else Point3D(-normal.x, -normal.y, -normal.z));
    var rd := Normalize(sqrt, ray);
    var inC1 := -Scalar(sn, rd);
    var inN := IndexRatio(inC1);
    var inC2 := sqrt(MaxReal(1.0 - inN * inN * (1.0 - inC1 * inC1), 0.0));
    Point3D(ray.x * inN + normal.x * (inN * inC1 - inC2),
            ray.y * inN + normal.y * (inN * inC1 - inC2),
            ray.z * inN + normal.z * (inN * inC1 - inC2))
  }

  /** With a true square root, a unit vector is its own normalisation. */
  lemma NormalizeOfUnit(sqrt: SqrtFn, v: Point3D)
    requires IsSqrt(sqrt)
    requires Scalar(v, v) == 1.0
    ensures Normalize(sqrt, v) == v
  {
    SqrtOne(sqrt);
    assert Length(sqrt, v) == sqrt(Scalar(v, v)) == 1.0;
    NormalizeForm(sqrt, v);
  }

  /** A unit ray that meets a surface head-on (against its unit normal) passes
      through undeviated. */
  lemma RefractHeadOn(sqrt: SqrtFn, normal: Point3D)
    requires IsSqrt(sqrt)
    requires Scalar(normal, normal) == 1.0
    ensures Refract(sqrt, Point3D(-normal.x, -normal.y, -normal.z), normal)
         == Point3D(-normal.x, -normal.y, -normal.z)
  {
    var ray := Point3D(-normal.x, -normal.y, -normal.z);
    assert Scalar(ray, normal) == -1.0;
    assert Scalar(ray, ray) == 1.0;
    NormalizeOfUnit(sqrt, normal);
    NormalizeOfUnit(sqrt, ray);
    var inC1 := -Scalar(normal, ray);
    assert inC1 == 1.0;
    assert IndexRatio(inC1) == 1.1;
    assert MaxReal(1.0 - 1.1 * 1.1 * (1.0 - inC1 * inC1), 0.0) == 1.0;
    SqrtOne(sqrt);
    assert 1.1 * inC1 - 1.0 == 0.1;
  }
}
