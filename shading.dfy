/** The nearest-hit query over the scene and the light intensity at a surface
    point, with its shadow rays. */
module Shading {
  import opened Numerics
  import opened Vectors
  import opened Figures
  import opened Intersect

  /** The nearest figure of a query: its position in the scene and its t. */
  datatype Hit = Hit(index: nat, t: real)

  /** The result of scanning the first n figures: the first figure with the
      smallest t, or None when none of them is hit. */
  function NearestUpTo(sqrt: SqrtFn, scene: seq<Figure>, eye: Point3D, ray: Point3D, n: nat): (r: Option<Hit>)
    requires n <= |scene|
    ensures r.Some? ==>
      r.value.index < n && Intersection(sqrt, eye, ray, scene[r.value.index]) == Some(r.value.t)
    decreases n
  {
    if n == 0 then None
    else
      var best := NearestUpTo(sqrt, scene, eye, ray, n - 1);
      var t := Intersection(sqrt, eye, ray, scene[n - 1]);
      if t.Some? && (best.None? || t.value < best.value.t) then Some(Hit(n - 1, t.value))
      else best
  }

  /** The nearest-hit query over the whole scene. */
  function Nearest(sqrt: SqrtFn, scene: seq<Figure>, eye: Point3D, ray: Point3D): (r: Option<Hit>)
    ensures r.Some? ==> r.value.index < |scene|
  {
    NearestUpTo(sqrt, scene, eye, ray, |scene|)
  }

  /** The scan misses exactly when every figure misses; otherwise its hit is a
      hit of the figure it names, no figure is hit nearer, and every figure
      before it is hit strictly farther (ties go to the earliest figure). */
  lemma {:induction false} NearestUpToIsFirstMinimum(sqrt: SqrtFn, scene: seq<Figure>, eye: Point3D, ray: Point3D, n: nat)
    requires n <= |scene|
    ensures var r := NearestUpTo(sqrt, scene, eye, ray, n);
      (r.None? <==> forall k :: 0 <= k < n ==> Intersection(sqrt, eye, ray, scene[k]).None?) &&
      (r.Some? ==>
        (forall k :: 0 <= k < n && Intersection(sqrt, eye, ray, scene[k]).Some? ==>
           r.value.t <= Intersection(sqrt, eye, ray, scene[k]).value) &&
        (forall k :: 0 <= k < r.value.index && Intersection(sqrt, eye, ray, scene[k]).Some? ==>
           r.value.t < Intersection(sqrt, eye, ray, scene[k]).value))
    decreases n
  {
    if n > 0 {
      NearestUpToIsFirstMinimum(sqrt, scene, eye, ray, n - 1);
    }
  }

  /** NearestUpToIsFirstMinimum for the whole scene. */
  lemma NearestIsFirstMinimum(sqrt: SqrtFn, scene: seq<Figure>, eye: Point3D, ray: Point3D)
    ensures var r := Nearest(sqrt, scene, eye, ray);
      (r.None? <==> forall k :: 0 <= k < |scene| ==> Intersection(sqrt, eye, ray, scene[k]).None?) &&
      (r.Some? ==>
        Intersection(sqrt, eye, ray, scene[r.value.index]) == Some(r.value.t) &&
        (forall k :: 0 <= k < |scene| && Intersection(sqrt, eye, ray, scene[k]).Some? ==>
           r.value.t <= Intersection(sqrt, eye, ray, scene[k]).value) &&
        (forall k :: 0 <= k < r.value.index && Intersection(sqrt, eye, ray, scene[k]).Some? ==>
           r.value.t < Intersection(sqrt, eye, ray, scene[k]).value))
  {
    NearestUpToIsFirstMinimum(sqrt, scene, eye, ray, |scene|);
  }

  /** The source's NearestElem: a scan that keeps the best figure so far and
      replaces it only on a strictly smaller t. */
  method NearestElem(sqrt: SqrtFn, scene: seq<Figure>, eye: Point3D, ray: Point3D) returns (nearest: Option<Hit>)
    ensures nearest == Nearest(sqrt, scene, eye, ray)
  {
    nearest := None;
    for i := 0 to |scene|
      invariant nearest == NearestUpTo(sqrt, scene, eye, ray, i)
    {
      var t := Intersection(sqrt, eye, ray, scene[i]);
      if t.Some? && (nearest.None? || t.value < nearest.value.t) {
        nearest := Some(Hit(i, t.value));
      }
    }
  }

  /** The shadow-ray rule with the null test first: the light is visible when
      the shadow ray hits nothing, hits a room wall, or hits beyond the light. */
  predicate ShadowVisible(scene: seq<Figure>, hit: Option<Hit>)
    requires hit.Some? ==> hit.value.index < |scene|
  {
    hit.None? || TypeOf(scene[hit.value.index]) == FigureType.Wall || hit.value.t > 1.0
  }

  /** What the source's test evaluates to: the kind of the hit figure is read
      before the null test, so a shadow ray that hits nothing throws. */
  datatype Outcome = Returned(visible: bool) | NullReference

  function ShadowVisibleAsWritten(scene: seq<Figure>, hit: Option<Hit>): (r: Outcome)
    requires hit.Some? ==> hit.value.index < |scene|
    ensures r == NullReference <==> hit.None?
    ensures r.Returned? ==> r.visible == ShadowVisible(scene, hit)
  {
    match hit
    case None => NullReference
    case Some(h) => Returned(TypeOf(scene[h.index]) == FigureType.Wall || hit == None || h.t > 1.0)
  }

  /** The defect exhibited: with nothing in the scene the shadow ray of any light
      misses, the source's test throws, while the corrected test lets the light in. */
  lemma ShadowTestThrowsOnMiss(sqrt: SqrtFn, light: Light, point: Point3D)
    ensures var hit := Nearest(sqrt, [], point, Sub(light.position, point));
      ShadowVisibleAsWritten([], hit) == NullReference && ShadowVisible([], hit)
  {
  }

  /** The contribution of one light at `point` with surface normal `normal`:
      intensity * cos(normal, l) when the light is visible and in front of the
      surface, nothing otherwise. The source divides by the two lengths without
      a test; the zero test here is never taken with a true square root
      (ContributionDenominatorPositive). */
  function Contribution(sqrt: SqrtFn, scene: seq<Figure>, light: Light, point: Point3D, normal: Point3D): real
  {
    var l := Sub(light.position, point);
    var hit := Nearest(sqrt, scene, point, l);
    if ShadowVisible(scene, hit) then
      var scalar := Scalar(normal, l);
      if scalar > 0.0 then
        var denom := Length(sqrt, normal) * Length(sqrt, l);
        if denom == 0.0 then 0.0 else (light.intensity * scalar) / denom
      else 0.0
    else 0.0
  }

  /** With a true square root a facing light never meets a zero denominator. */
  lemma ContributionDenominatorPositive(sqrt: SqrtFn, normal: Point3D, l: Point3D)
    requires IsSqrt(sqrt)
    requires Scalar(normal, l) > 0.0
    ensures Length(sqrt, normal) * Length(sqrt, l) > 0.0
  {
    NonOrthogonalNonZero(normal, l);
    LengthProperties(sqrt, normal);
    LengthProperties(sqrt, l);
    PositiveProduct(Length(sqrt, normal), Length(sqrt, l));
  }

  lemma NonOrthogonalNonZero(u: Point3D, v: Point3D)
    requires Scalar(u, v) != 0.0
    ensures u != Origin && v != Origin
  {
    if u == Origin || v == Origin {
      ScalarWithOrigin(v);
      ScalarWithOrigin(u);
    }
  }

  lemma ScalarWithOrigin(v: Point3D)
    ensures Scalar(Origin, v) == 0.0 && Scalar(v, Origin) == 0.0
  {
  }

  lemma PositiveProduct(a: real, b: real)
    requires a >= 0.0 && b >= 0.0 && a != 0.0 && b != 0.0
    ensures a * b > 0.0
  {
  }

  /** A light contributes only when it is visible and the surface faces it; a
      Sphere or SideCube blocker before the light (t <= 1) removes it. */
  lemma ContributionNeedsVisibility(sqrt: SqrtFn, scene: seq<Figure>, light: Light, point: Point3D, normal: Point3D)
    ensures var l := Sub(light.position, point);
      Contribution(sqrt, scene, light, point, normal) != 0.0 ==>
        ShadowVisible(scene, Nearest(sqrt, scene, point, l)) && Scalar(normal, l) > 0.0
  {
  }

  /** Conversely, with a true square root, a visible light of positive intensity
      in front of the surface contributes a positive amount, and a light of
      non-negative intensity never contributes a negative one. */
  lemma ContributionSign(sqrt: SqrtFn, scene: seq<Figure>, light: Light, point: Point3D, normal: Point3D)
    requires IsSqrt(sqrt)
    ensures var l := Sub(light.position, point);
      var c := Contribution(sqrt, scene, light, point, normal);
      (light.intensity >= 0.0 ==> c >= 0.0) &&
      ((light.intensity > 0.0 && ShadowVisible(scene, Nearest(sqrt, scene, point, l)) &&
        Scalar(normal, l) > 0.0) ==> c > 0.0)
  {
    var l := Sub(light.position, point);
    if Scalar(normal, l) > 0.0 {
      ContributionDenominatorPositive(sqrt, normal, l);
      PositiveQuotient(light.intensity, Scalar(normal, l), Length(sqrt, normal) * Length(sqrt, l));
    }
  }

  lemma PositiveQuotient(w: real, s: real, d: real)
    requires s > 0.0 && d > 0.0
    ensures w >= 0.0 ==> (w * s) / d >= 0.0
    ensures w > 0.0 ==> (w * s) / d > 0.0
  {
  }

  /** Sum of the contributions of the first n lights. */
  function IntensityUpTo(sqrt: SqrtFn, scene: seq<Figure>, lights: seq<Light>, point: Point3D, normal: Point3D, n: nat): real
    requires n <= |lights|
    decreases n
  {
    if n == 0 then 0.0
    else
      IntensityUpTo(sqrt, scene, lights, point, normal, n - 1) +
      Contribution(sqrt, scene, lights[n - 1], point, normal)
  }

  /** The total light intensity at a surface point: unclamped, no distance
      attenuation. */
  function Intensity(sqrt: SqrtFn, scene: seq<Figure>, lights: seq<Light>, point: Point3D, normal: Point3D): real
  {
    IntensityUpTo(sqrt, scene, lights, point, normal, |lights|)
  }

  /** With a true square root and lights of non-negative intensity the total is
      non-negative. */
  lemma {:induction false} IntensityUpToNonNegative(sqrt: SqrtFn, scene: seq<Figure>, lights: seq<Light>, point: Point3D, normal: Point3D, n: nat)
    requires IsSqrt(sqrt)
    requires n <= |lights|
    requires forall k :: 0 <= k < |lights| ==> lights[k].intensity >= 0.0
    ensures IntensityUpTo(sqrt, scene, lights, point, normal, n) >= 0.0
    decreases n
  {
    if n > 0 {
      IntensityUpToNonNegative(sqrt, scene, lights, point, normal, n - 1);
      ContributionSign(sqrt, scene, lights[n - 1], point, normal);
    }
  }

  lemma IntensityNonNegative(sqrt: SqrtFn, scene: seq<Figure>, lights: seq<Light>, point: Point3D, normal: Point3D)
    requires IsSqrt(sqrt)
    requires forall k :: 0 <= k < |lights| ==> lights[k].intensity >= 0.0
    ensures Intensity(sqrt, scene, lights, point, normal) >= 0.0
  {
    IntensityUpToNonNegative(sqrt, scene, lights, point, normal, |lights|);
  }

  /** A light whose shadow ray first meets a Sphere or SideCube figure at t <= 1
      is blocked: it contributes nothing. */
  lemma BlockedLightIsDark(sqrt: SqrtFn, scene: seq<Figure>, light: Light, point: Point3D, normal: Point3D)
    requires var hit := Nearest(sqrt, scene, point, Sub(light.position, point));
      hit.Some? && TypeOf(scene[hit.value.index]) != FigureType.Wall && hit.value.t <= 1.0
    ensures Contribution(sqrt, scene, light, point, normal) == 0.0
  {
  }

  /** A room wall never blocks: a light whose shadow ray first meets a Wall is
      visible whatever the t. */
  lemma WallNeverBlocks(sqrt: SqrtFn, scene: seq<Figure>, light: Light, point: Point3D)
    requires var hit := Nearest(sqrt, scene, point, Sub(light.position, point));
      hit.Some? && TypeOf(scene[hit.value.index]) == FigureType.Wall
    ensures ShadowVisible(scene, Nearest(sqrt, scene, point, Sub(light.position, point)))
  {
  }

  /** Contribution with the shadow query already answered. */
  lemma ContributionForm(sqrt: SqrtFn, scene: seq<Figure>, light: Light, point: Point3D, normal: Point3D, hit: Option<Hit>)
    requires hit == Nearest(sqrt, scene, point, Sub(light.position, point))
    ensures var l := Sub(light.position, point);
      var scalar := Scalar(normal, l);
      var denom := Length(sqrt, normal) * Length(sqrt, l);
      Contribution(sqrt, scene, light, point, normal) ==
      if ShadowVisible(scene, hit) && scalar > 0.0 && denom != 0.0 then (light.intensity * scalar) / denom else 0.0
  {
  }

  /** The body of the source's CalcIntensity loop for one light: the shadow
      query, then the cosine term when the light is visible and in front. */
  method LightShare(sqrt: SqrtFn, scene: seq<Figure>, light: Light, point: Point3D, normal: Point3D)
    returns (share: real)
    ensures share == Contribution(sqrt, scene, light, point, normal)
  {
    var l := Sub(light.position, point);
    var hit := NearestElem(sqrt, scene, point, l);
    share := 0.0;
    if hit.None? || TypeOf(scene[hit.value.index]) == FigureType.Wall || hit.value.t > 1.0 {
      var scalar := Scalar(normal, l);
      if scalar > 0.0 {
        var denom := Length(sqrt, normal) * Length(sqrt, l);
        if denom != 0.0 {
          share := (light.intensity * scalar) / denom;
        }
      }
    }
    ContributionForm(sqrt, scene, light, point, normal, hit);
  }

  /** The source's CalcIntensity: accumulates the contributions light by light. */
  method CalcIntensity(sqrt: SqrtFn, scene: seq<Figure>, lights: seq<Light>, point: Point3D, normal: Point3D)
    returns (intensity: real)
    ensures intensity == Intensity(sqrt, scene, lights, point, normal)
  {
    intensity := 0.0;
    for k := 0 to |lights|
      invariant intensity == IntensityUpTo(sqrt, scene, lights, point, normal, k)
    {
      var share := LightShare(sqrt, scene, lights[k], point, normal);
      intensity := intensity + share;
    }
  }
}
