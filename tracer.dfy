/** Recursive ray tracing, the mapping of canvas pixels to the view plane, and
    the image loop. The tracer object's fields (canvas size, eye, lights and
    scene) are written only by its constructor, so here they are parameters. */
module Tracer {
  import opened Numerics
  import opened Vectors
  import opened Figures
  import opened Intersect
  import opened Shading

  /** Depth of the recursion the image loop starts every primary ray with. */
  const MaxDepth: nat := 10

  /** Weight of the surface's own colour when it is blended with the colour
      seen along the reflected or refracted ray. */
  const OwnWeight: real := 0.4
  const SeenWeight: real := 1.0 - OwnWeight

  /** The surface normal used for shading: the unit radius through the point for
      a sphere, the stored (unnormalised) normal for a face. */
  function SurfaceNormal(sqrt: SqrtFn, fig: Figure, p: Point3D): Point3D
  {
    match fig
    case Sphere(_, _, center, _) => Normalize(sqrt, Sub(p, center))
    case Wall(_, _, _, _, _, normal) => normal
  }

  /** One channel scaled by the intensity, truncated and clamped above at 255. */
  function Shade(channel: int, intensity: real): int
  {
    MinInt(Trunc(channel as real * intensity), 255)
  }

  /** The ambient colour scaled by the light intensity. */
  function LocalColor(ambient: Color, intensity: real): Color
  {
    Color(Shade(ambient.r, intensity), Shade(ambient.g, intensity), Shade(ambient.b, intensity))
  }

  /** A channel scaled by a non-negative intensity stays a channel; it is 0 with
      no light, unchanged at intensity 1, and never brighter than the ambient
      channel at intensities up to 1. */
  lemma ShadeRange(channel: int, intensity: real)
    requires IsChannel(channel) && 0.0 <= intensity
    ensures IsChannel(Shade(channel, intensity))
    ensures intensity <= 1.0 ==> Shade(channel, intensity) <= channel
    ensures intensity == 0.0 ==> Shade(channel, intensity) == 0
    ensures intensity == 1.0 ==> Shade(channel, intensity) == channel
  {
    var x := channel as real * intensity;
    assert 0.0 <= x;
    if intensity <= 1.0 {
      assert x <= channel as real;
    }
    if intensity == 1.0 {
      TruncOfInt(channel);
    }
  }

  /** More light never darkens a channel. */
  lemma ShadeMonotone(channel: int, i1: real, i2: real)
    requires 0 <= channel && 0.0 <= i1 <= i2
    ensures Shade(channel, i1) <= Shade(channel, i2)
  {
    var x1 := channel as real * i1;
    var x2 := channel as real * i2;
    assert 0.0 <= x1 <= x2;
    assert Trunc(x1) == x1.Floor && Trunc(x2) == x2.Floor;
  }

  lemma LocalColorRange(ambient: Color, intensity: real)
    requires ValidColor(ambient) && 0.0 <= intensity
    ensures ValidColor(LocalColor(ambient, intensity))
    ensures intensity == 0.0 ==> LocalColor(ambient, intensity) == Black
    ensures intensity == 1.0 ==> LocalColor(ambient, intensity) == ambient
  {
    ShadeRange(ambient.r, intensity);
    ShadeRange(ambient.g, intensity);
    ShadeRange(ambient.b, intensity);
  }

  /** One channel of the blend of the own and the seen colour. */
  function Mix(own: int, seen: int): int
  {
    Trunc(own as real * OwnWeight + seen as real * SeenWeight)
  }

  function Blend(own: Color, seen: Color): Color
  {
    Color(Mix(own.r, seen.r), Mix(own.g, seen.g), Mix(own.b, seen.b))
  }

  /** The blend of two channels lies between them, and blending a channel with
      itself gives it back. */
  lemma MixBetween(own: int, seen: int)
    ensures MinInt(own, seen) <= Mix(own, seen) <= if own <= seen then seen else own
    ensures own == seen ==> Mix(own, seen) == own
  {
    var x := own as real * OwnWeight + seen as real * SeenWeight;
    var lo := MinInt(own, seen);
    var hi := if own <= seen then seen else own;
    assert lo as real <= x <= hi as real;
    if 0.0 <= x {
      assert Trunc(x) == x.Floor;
      TruncOfInt(lo);
    } else {
      assert Trunc(x) == -((-x).Floor);
      TruncOfInt(hi);
    }
    if own == seen {
      assert x == own as real;
      TruncOfInt(own);
    }
  }

  lemma BlendRange(own: Color, seen: Color)
    requires ValidColor(own) && ValidColor(seen)
    ensures ValidColor(Blend(own, seen))
    ensures Blend(own, own) == own
  {
    MixBetween(own.r, seen.r);
    MixBetween(own.g, seen.g);
    MixBetween(own.b, seen.b);
    MixBetween(own.r, own.r);
    MixBetween(own.g, own.g);
    MixBetween(own.b, own.b);
  }

  /** The direction of the secondary ray: the mirror direction for a mirror,
      the refracted direction otherwise, both normalised. */
  function SecondaryRay(sqrt: SqrtFn, material: Material, ray: Point3D, normal: Point3D): Point3D
  {
    if material == Mirror then Normalize(sqrt, Reflect(ray, normal))
    else Normalize(sqrt, Refract(sqrt, ray, normal))
  }

  /** The colour seen along a ray: black when it hits nothing, otherwise the
      colour of its nearest hit. */
  function RayTrace(sqrt: SqrtFn, scene: seq<Figure>, lights: seq<Light>, eye: Point3D, ray: Point3D, iter: nat): Color
    decreases iter, 1
  {
    match Nearest(sqrt, scene, eye, ray)
    case None => Black
    case Some(h) => HitColor(sqrt, scene, lights, eye, ray, h, iter)
  }

  /** The colour of hit h of the ray: the figure's ambient colour scaled by the
      light intensity at the hit point; for a mirror or transparent figure with
      depth left, blended with the colour seen along the secondary ray from
      that point. */
  function HitColor(sqrt: SqrtFn, scene: seq<Figure>, lights: seq<Light>, eye: Point3D, ray: Point3D, h: Hit, iter: nat): Color
    requires h.index < |scene|
    decreases iter, 0
  {
    var fig := scene[h.index];
    var p := RayAt(eye, ray, h.t);
    var normal := SurfaceNormal(sqrt, fig, p);
    var color := LocalColor(fig.ambient, Intensity(sqrt, scene, lights, p, normal));
    if iter == 0 || fig.material == Matte then color
    else Blend(color, RayTrace(sqrt, scene, lights, p, SecondaryRay(sqrt, fig.material, ray, normal), iter - 1))
  }

  /** How many secondary rays a trace follows: one per mirror or transparent
      hit while depth is left, so never more than the depth it starts with. */
  function Bounces(sqrt: SqrtFn, scene: seq<Figure>, eye: Point3D, ray: Point3D, iter: nat): (n: nat)
    ensures n <= iter
    decreases iter
  {
    match Nearest(sqrt, scene, eye, ray)
    case None => 0
    case Some(h) =>
      var fig := scene[h.index];
      if iter == 0 || fig.material == Matte then 0
      else
        var p := RayAt(eye, ray, h.t);
        1 + Bounces(sqrt, scene, p, SecondaryRay(sqrt, fig.material, ray, SurfaceNormal(sqrt, fig, p)), iter - 1)
  }

  /** Once a trace's bounces end, at a matte figure or a miss, before its depth
      runs out, one more level of depth does not change its colour. */
  lemma {:induction false} BouncesBoundDepth(sqrt: SqrtFn, scene: seq<Figure>, lights: seq<Light>, eye: Point3D, ray: Point3D, iter: nat)
    requires Bounces(sqrt, scene, eye, ray, iter) < iter
    ensures RayTrace(sqrt, scene, lights, eye, ray, iter) == RayTrace(sqrt, scene, lights, eye, ray, iter + 1)
    decreases iter
  {
    match Nearest(sqrt, scene, eye, ray)
    case None =>
    case Some(h) =>
      var fig := scene[h.index];
      if fig.material != Matte {
        var p := RayAt(eye, ray, h.t);
        var reRay := SecondaryRay(sqrt, fig.material, ray, SurfaceNormal(sqrt, fig, p));
        BouncesBoundDepth(sqrt, scene, lights, p, reRay, iter - 1);
      }
  }

  /** The colour of a hit before any secondary ray. */
  function LocalColorAt(sqrt: SqrtFn, scene: seq<Figure>, lights: seq<Light>, eye: Point3D, ray: Point3D, h: Hit): Color
    requires h.index < |scene|
  {
    var p := RayAt(eye, ray, h.t);
    LocalColor(scene[h.index].ambient, Intensity(sqrt, scene, lights, p, SurfaceNormal(sqrt, scene[h.index], p)))
  }

  /** Every figure's ambient colour is a colour and no light is negative. */
  predicate WellFormedScene(scene: seq<Figure>, lights: seq<Light>)
  {
    (forall k :: 0 <= k < |scene| ==> ValidColor(scene[k].ambient)) &&
    (forall k :: 0 <= k < |lights| ==> lights[k].intensity >= 0.0)
  }

  /** A ray that hits nothing is black; a ray that hits a matte figure, or any
      figure once the depth is used up, shows the local colour of the hit, so for
      a matte figure the depth does not matter. */
  lemma RayTraceCases(sqrt: SqrtFn, scene: seq<Figure>, lights: seq<Light>, eye: Point3D, ray: Point3D, iter: nat)
    ensures var n := Nearest(sqrt, scene, eye, ray);
      (n.None? ==> RayTrace(sqrt, scene, lights, eye, ray, iter) == Black) &&
      (n.Some? && (iter == 0 || scene[n.value.index].material == Matte) ==>
         RayTrace(sqrt, scene, lights, eye, ray, iter) == LocalColorAt(sqrt, scene, lights, eye, ray, n.value) &&
         RayTrace(sqrt, scene, lights, eye, ray, iter) == RayTrace(sqrt, scene, lights, eye, ray, 0))
  {
  }

  /** With a true square root, the local colour of a hit in a well-formed scene
      is a colour. */
  lemma LocalColorAtValid(sqrt: SqrtFn, scene: seq<Figure>, lights: seq<Light>, eye: Point3D, ray: Point3D, h: Hit)
    requires IsSqrt(sqrt) && WellFormedScene(scene, lights)
    requires h.index < |scene|
    ensures ValidColor(LocalColorAt(sqrt, scene, lights, eye, ray, h))
  {
    var p := RayAt(eye, ray, h.t);
    var normal := SurfaceNormal(sqrt, scene[h.index], p);
    IntensityNonNegative(sqrt, scene, lights, p, normal);
    LocalColorRange(scene[h.index].ambient, Intensity(sqrt, scene, lights, p, normal));
  }

  /** With a true square root, a well-formed scene yields a colour whose three
      channels are in range at every depth: the intensity is never negative, the
      clamp caps it at 255 and a blend stays between its arguments. */
  lemma {:induction false} RayTraceValid(sqrt: SqrtFn, scene: seq<Figure>, lights: seq<Light>, eye: Point3D, ray: Point3D, iter: nat)
    requires IsSqrt(sqrt)
    requires WellFormedScene(scene, lights)
    ensures ValidColor(RayTrace(sqrt, scene, lights, eye, ray, iter))
    decreases iter, 1
  {
    var n := Nearest(sqrt, scene, eye, ray);
    if n.Some? {
      HitColorValid(sqrt, scene, lights, eye, ray, n.value, iter);
    }
  }

  lemma {:induction false} HitColorValid(sqrt: SqrtFn, scene: seq<Figure>, lights: seq<Light>, eye: Point3D, ray: Point3D, h: Hit, iter: nat)
    requires IsSqrt(sqrt)
    requires WellFormedScene(scene, lights)
    requires h.index < |scene|
    ensures ValidColor(HitColor(sqrt, scene, lights, eye, ray, h, iter))
    decreases iter, 0
  {
    var fig := scene[h.index];
    var p := RayAt(eye, ray, h.t);
    var normal := SurfaceNormal(sqrt, fig, p);
    var color := LocalColorAt(sqrt, scene, lights, eye, ray, h);
    LocalColorAtValid(sqrt, scene, lights, eye, ray, h);
    if !(iter == 0 || fig.material == Matte) {
      var reRay := SecondaryRay(sqrt, fig.material, ray, normal);
      RayTraceValid(sqrt, scene, lights, p, reRay, iter - 1);
      BlendRange(color, RayTrace(sqrt, scene, lights, p, reRay, iter - 1));
    }
  }

  /** The view-plane point of pixel (x, y) on a width x height canvas: the
      canvas covers [-4, 4] x [-3, 3] on the plane z = 5, y pointing up. The
      halves width / 2 and height / 2 are integer divisions. */
  function Convert2DTo3D(x: int, y: int, width: int, height: int): Point3D
    requires width > 0 && height > 0
  {
    var x3D := (x - width / 2) as real * (8.0 / width as real);
    var y3D := -((y - height / 2) as real) * (6.0 / height as real);
    Point3D(x3D, y3D, 5.0)
  }

  /** Every pixel of the canvas maps into the view window: x in [-4, 4), y in
      (-3, 3], on the plane z = 5; the centre pixel maps to the axis. */
  lemma Convert2DTo3DRange(x: int, y: int, width: int, height: int)
    requires width > 0 && height > 0
    requires 0 <= x < width && 0 <= y < height
    ensures var p := Convert2DTo3D(x, y, width, height);
      p.z == 5.0 && -4.0 <= p.x < 4.0 && -3.0 < p.y <= 3.0
    ensures x == width / 2 && y == height / 2 ==> Convert2DTo3D(x, y, width, height) == Point3D(0.0, 0.0, 5.0)
  {
    WindowCoordinate(x, width, 8.0);
    WindowCoordinate(y, height, 6.0);
  }

  /** (v - n / 2) * (size / n) lies in [-size / 2, size / 2) for 0 <= v < n. */
  lemma WindowCoordinate(v: int, n: int, size: real)
    requires 0 <= v < n && size > 0.0
    ensures -size / 2.0 <= (v - n / 2) as real * (size / n as real) < size / 2.0
  {
    var d := (v - n / 2) as real;
    var step := size / n as real;
    var half := (n / 2) as real;
    assert 2 * (n / 2) <= n < 2 * (n / 2) + 2;
    assert -half <= d <= n as real - half - 1.0;
    assert step > 0.0;
    calc {
      -size / 2.0;
      == -(n as real / 2.0) * step;
      <= -half * step;
      <= d * step;
    }
    calc {
      d * step;
      <= (n as real - half - 1.0) * step;
      < (n as real / 2.0) * step;
      == size / 2.0;
    }
  }

  /** The colour of pixel (i, j). */
  function Pixel(sqrt: SqrtFn, scene: seq<Figure>, lights: seq<Light>, eye: Point3D, i: int, j: int, width: int, height: int): Color
    requires width > 0 && height > 0
  {
    RayTrace(sqrt, scene, lights, eye, Convert2DTo3D(i, j, width, height), MaxDepth)
  }

  /** The source's GetImage: traces one primary ray per pixel, column by column,
      into a fresh width x height image. The primary ray's direction is the
      view-plane point itself, as in the source. */
  method GetImage(sqrt: SqrtFn, scene: seq<Figure>, lights: seq<Light>, eye: Point3D, width: int, height: int)
    returns (img: array2<Color>)
    requires width > 0 && height > 0
    ensures fresh(img)
    ensures img.Length0 == width && img.Length1 == height
    ensures forall i, j :: 0 <= i < width && 0 <= j < height ==>
      img[i, j] == Pixel(sqrt, scene, lights, eye, i, j, width, height)
  {
    img := new Color[width, height];
    for i := 0 to width
      invariant forall i', j :: 0 <= i' < i && 0 <= j < height ==>
        img[i', j] == Pixel(sqrt, scene, lights, eye, i', j, width, height)
    {
      for j := 0 to height
        invariant forall i', j' :: 0 <= i' < i && 0 <= j' < height ==>
          img[i', j'] == Pixel(sqrt, scene, lights, eye, i', j', width, height)
        invariant forall j' :: 0 <= j' < j ==>
          img[i, j'] == Pixel(sqrt, scene, lights, eye, i, j', width, height)
      {
        var point := Convert2DTo3D(i, j, width, height);
        img[i, j] := RayTrace(sqrt, scene, lights, eye, point, MaxDepth);
      }
    }
  }

  /** With a true square root, every pixel of a well-formed scene is a valid colour. */
  lemma ImageValid(sqrt: SqrtFn, scene: seq<Figure>, lights: seq<Light>, eye: Point3D, width: int, height: int, i: int, j: int)
    requires IsSqrt(sqrt) && WellFormedScene(scene, lights)
    requires width > 0 && height > 0
    ensures ValidColor(Pixel(sqrt, scene, lights, eye, i, j, width, height))
  {
    RayTraceValid(sqrt, scene, lights, eye, Convert2DTo3D(i, j, width, height), MaxDepth);
  }
}
