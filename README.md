# CornishRoom ray tracer — a Dafny model

CornishRoom renders a Cornell box. The scene is six coloured room walls, a sphere and two
axis-aligned cubes, lit by up to two point lights. The engine (`RayTracing`) traces one
primary ray per canvas pixel and finds the nearest figure it hits. It shades the hit point
with Lambert cosine terms and shadow rays, and follows at most ten mirror or refraction
bounces, blending each bounce's colour 0.4 / 0.6 with its own. The form (`CornishRoom`) turns
its widgets into the scene and the lights and starts a render.

The model is split into these modules:

- `Numerics` (numerics.dfy): `Option` for the "+infinity = no hit" sentinel, C#'s
  truncating `(int)` cast, and `Math.Min` / `Math.Max`.
- `Vectors` (vectors.dfy): `Point3D`, `Scalar`, `Length`, `Normalize`, `Reflect` and
  `Refract`. Doubles are `real`. `Math.Sqrt` is a function parameter `sqrt`. Lemmas that
  need a real root require `IsSqrt(sqrt)`: the root is non-negative and squares back.
- `Figures` (figure.dfy): the enums `Material` and `FigureType`, colours, and the immutable
  `Figure` and `Light` values. A face's tag has the type `FaceType`, which excludes `Sphere`.
  So the source's invariant "the tag is Sphere exactly for spheres" holds by construction,
  and that invariant is what makes its casts safe.
- `Intersect` (intersect.dfy): sphere and face intersection, `PointInPlane`
  and the dispatching `Intersection`.
- `Shading` (shading.dfy): the nearest-hit scan (`NearestElem`, a loop proved equal to
  the function `Nearest`) and the light sum (`CalcIntensity`, a loop proved equal to the
  function `Intensity`).
- `Tracer` (tracer.dfy): the recursive `RayTrace` and the colour arithmetic, plus
  `Convert2DTo3D` and `GetImage`. `GetImage` fills a fresh `array2<Color>` column by column.
- `CornishRoomForm` (form1.dfy): the `Controls` value that stands for the widgets, the
  material mappings, the class `CornishRoom` and its `Init*` methods that append to
  its `scene` field, and the render button.

The `RayTracing` object's fields are written only by its constructor, so its canvas size,
eye, lights and scene are parameters of the engine functions.

As in the source, `GetImage` uses the view-plane point itself as the ray direction. It does
not subtract the eye.

The model keeps these behaviours of the code as written:

- The face intersection divides by `Scalar(ray, normal)` with no tolerance test. The model
  reports no hit only when that product is exactly zero.
- The widened box test uses the strict bounds `< max + eps` and `> min - eps`, so a point at
  exactly eps beyond the box fails.

Apart from the divisions by zero listed under "Left out", the shadow test is the one place where
the engine does not follow the code. At
`RayTracing.cs:151` the code reads the hit figure's kind before it tests for a miss. The engine
uses the corrected test, which tests for a miss first (`ShadowVisible`). The test as written is
modelled beside it (`ShadowVisibleAsWritten`). See "Findings".

## Model

| member | source | states |
|---|---|---|
| Numerics.Trunc | CornishRoom/RayTracing.cs:90-91 | the `(int)` cast: the result is within 1 of the input, on the input's side of zero and never farther from zero than it |
| Figures.TypeOf | CornishRoom/Figure.cs:13-53 | the kind tag is `Sphere` exactly for sphere figures; a face carries the tag it was built with |
| Vectors.ScalarSelf | CornishRoom/RayTracing.cs:21 | `Scalar(v, v)` is non-negative and zero only for the zero vector |
| Vectors.ScalarLinear | CornishRoom/RayTracing.cs:21 | the dot product distributes over vector `+` and `-` |
| Vectors.LengthProperties | CornishRoom/RayTracing.cs:234 | with a true root, the length is non-negative, squares to `Scalar(v, v)` and is zero only for the zero vector |
| Vectors.NormalizeUnit | CornishRoom/RayTracing.cs:26-30 | with a true root, every non-zero vector normalises to a unit vector; the zero vector (0/0 in the source) gives the zero vector |
| Vectors.NormalizeScales | CornishRoom/RayTracing.cs:26-30 | a dot product with `Normalize(v)` times the length of `v` is the dot product with `v` |
| Vectors.ReflectFlipsNormalComponent | CornishRoom/RayTracing.cs:211 | about a unit normal, the reflected ray's normal component is the negated incoming one |
| Vectors.ReflectInvolutive | CornishRoom/RayTracing.cs:211 | reflecting twice about a unit normal gives the ray back |
| Vectors.ReflectPreservesLength | CornishRoom/RayTracing.cs:211 | reflection about a unit normal keeps the square norm |
| Vectors.IndexRatio | CornishRoom/RayTracing.cs:218-224 | the index ratio is positive and is n1/n2 = 1.1 exactly when the incident cosine is positive, n2/n1 otherwise |
| Vectors.RefractHeadOn | CornishRoom/RayTracing.cs:216-230 | with a true root, a unit ray that meets a unit normal head-on leaves `Refract` undeviated |
| Intersect.SphereQuadraticMeaning | CornishRoom/RayTracing.cs:169-175 | the coefficients a, b, c vanish at t exactly when `eye + t*ray` is on the sphere |
| Intersect.ZeroDirectionNoDiscriminant | CornishRoom/RayTracing.cs:172-181 | a zero direction (a = 0) gives D = 0 < eps, so the division by 2a is never reached with a = 0 |
| Intersect.SphereRoots | CornishRoom/RayTracing.cs:177-181 | for D >= eps and a true root: a > 0, t2 <= t1, both solve the quadratic and no other t does |
| Intersect.SphereHitIsNearestAhead | CornishRoom/RayTracing.cs:166-186 | a reported sphere hit has t >= eps, lies on the sphere and is the smallest point of the sphere beyond eps on the ray |
| Intersect.SphereMissHasNoRootAhead | CornishRoom/RayTracing.cs:176-184 | no sphere hit means D < eps or no point of the ray at t >= eps lies on the sphere |
| Intersect.PointInPlaneSymmetric | CornishRoom/RayTracing.cs:248-251 | swapping `MinPoint` and `MaxPoint` does not change the box test |
| Intersect.PointInPlaneAcceptsBox | CornishRoom/RayTracing.cs:248-251 | every point of the closed box, its faces included, passes |
| Intersect.PointInPlaneRejectsOutside | CornishRoom/RayTracing.cs:248-251 | a point eps or more beyond the box on some axis fails |
| Intersect.FaceHitOnPatch | CornishRoom/RayTracing.cs:188-203 | a reported face hit has t >= eps, passes `PointInPlane` and lies on the plane through `MaxPoint` with the face normal |
| Intersect.FaceParallelMisses | CornishRoom/RayTracing.cs:192-200 | a ray parallel to the face's plane reports no hit |
| Intersect.FaceHitComplete | CornishRoom/RayTracing.cs:188-203 | conversely, with a true root, a non-parallel ray that meets the plane inside the box at s >= eps reports exactly s |
| Intersect.IntersectionAhead | CornishRoom/RayTracing.cs:164-206 | every hit of any figure is at t >= eps |
| Shading.NearestUpTo | CornishRoom/RayTracing.cs:123-136 | the scan's answer names a figure of the scanned prefix, and its t is that figure's intersection value |
| Shading.NearestUpToIsFirstMinimum | CornishRoom/RayTracing.cs:123-136 | no hit exactly when every scanned figure misses; otherwise t is <= every hit, and every earlier figure's hit is strictly farther, so ties go to the first |
| Shading.NearestIsFirstMinimum | CornishRoom/RayTracing.cs:123-136 | the same for the whole scene, with the hit equal to its figure's intersection |
| Shading.NearestElem | CornishRoom/RayTracing.cs:123-136 | the loop with strict `<` returns exactly `Nearest` |
| Shading.ShadowVisibleAsWritten | CornishRoom/RayTracing.cs:151 | the source's test throws exactly when the shadow ray hits nothing, and otherwise agrees with `ShadowVisible` |
| Shading.ShadowTestThrowsOnMiss | CornishRoom/RayTracing.cs:147-151 | on a shadow ray that meets nothing, the source's test dereferences null while the corrected test lets the light in |
| Shading.ContributionDenominatorPositive | CornishRoom/RayTracing.cs:154-155 | with a true root, a facing light (`Scalar > 0`) never meets a zero `Length(normal) * Length(l)` |
| Shading.ContributionNeedsVisibility | CornishRoom/RayTracing.cs:151-155 | a light adds something only if it is visible and `Scalar(normal, l) > 0` |
| Shading.ContributionSign | CornishRoom/RayTracing.cs:151-155 | with a true root, a light of intensity >= 0 adds >= 0, and a visible facing light of positive intensity adds > 0 |
| Shading.BlockedLightIsDark | CornishRoom/RayTracing.cs:151 | a Sphere or SideCube blocker at t <= 1 removes the light entirely |
| Shading.WallNeverBlocks | CornishRoom/RayTracing.cs:151 | a room wall never shadows a light |
| Shading.IntensityUpToNonNegative | CornishRoom/RayTracing.cs:141-160 | with a true root and non-negative lights every partial sum is >= 0 |
| Shading.IntensityNonNegative | CornishRoom/RayTracing.cs:141-160 | the total intensity is >= 0 when all light intensities are >= 0 |
| Shading.LightShare | CornishRoom/RayTracing.cs:146-157 | one pass of the light loop (shadow query, then the facing cosine term) computes `Contribution` |
| Shading.CalcIntensity | CornishRoom/RayTracing.cs:141-160 | the loop returns `Intensity`, the sum of the lights' contributions |
| Tracer.ShadeRange | CornishRoom/RayTracing.cs:90-91 | a channel scaled by intensity >= 0, truncated and clamped, is in [0, 255]; it is 0 without light, unchanged at 1 and no brighter than the channel up to 1 |
| Tracer.ShadeMonotone | CornishRoom/RayTracing.cs:90-91 | more light never darkens a channel |
| Tracer.LocalColorRange | CornishRoom/RayTracing.cs:90-91 | the local colour of a valid ambient at intensity >= 0 is valid; black at 0, the ambient at 1 |
| Tracer.MixBetween | CornishRoom/RayTracing.cs:111-118 | the 0.4 / 0.6 blend of two channels lies between them and gives a channel back when blended with itself |
| Tracer.BlendRange | CornishRoom/RayTracing.cs:111-118 | the blend of two valid colours is valid, and blending a colour with itself is the identity |
| Tracer.Bounces | CornishRoom/RayTracing.cs:93-108 | the number of secondary rays a trace follows never exceeds its starting depth |
| Tracer.BouncesBoundDepth | CornishRoom/RayTracing.cs:93-108 | when a trace's secondary rays end, at a matte figure or a miss, before the depth is used up, more depth does not change its colour |
| Tracer.RayTraceCases | CornishRoom/RayTracing.cs:63-96 | a miss is black; at depth 0 or on a matte figure the result is the local colour, whatever the depth |
| Tracer.LocalColorAtValid | CornishRoom/RayTracing.cs:84-91 | with a true root, the local colour of any hit in a well-formed scene is valid |
| Tracer.RayTraceValid | CornishRoom/RayTracing.cs:60-119 | with a true root, every traced colour of a well-formed scene has channels in [0, 255] at every depth, so `Color.FromArgb` never throws |
| Tracer.HitColorValid | CornishRoom/RayTracing.cs:69-119 | the same for the colour of one hit, including the blended secondary colour |
| Tracer.Convert2DTo3DRange | CornishRoom/RayTracing.cs:239-244 | every pixel maps to z = 5, x in [-4, 4), y in (-3, 3]; the centre pixel maps onto the axis |
| Tracer.GetImage | CornishRoom/RayTracing.cs:45-55 | a fresh width x height image whose pixel (i, j) is `RayTrace(eye, Convert2DTo3D(i, j), 10)` |
| Tracer.ImageValid | CornishRoom/RayTracing.cs:45-55 | with a true root every pixel of a well-formed scene is a valid colour |
| CornishRoomForm.GetReflectionWall | CornishRoom/Form1.cs:83-89 | a wall is a mirror exactly when checked, and never transparent |
| CornishRoomForm.GetMaterial | CornishRoom/Form1.cs:91-100 | "Mirror" and "Transparent" select their material; every other text, "Matte" included, selects Matte |
| CornishRoomForm.GetMaterialOfName | CornishRoom/Form1.cs:91-100 | every material's name selects that material |
| CornishRoomForm.TruncPointWhole | CornishRoom/Form1.cs:113-117 | a truncated position has whole coordinates, each between zero and the widget value |
| CornishRoomForm.CubeFacesFaces | CornishRoom/Form1.cs:70-80 | each of the six faces is SideCube, of the cube's colour and material, with a unit-axis normal pointing away from the centre at distance r, corners on its plane, flat on exactly one axis for r > 0 and ordered for r >= 0 |
| CornishRoomForm.CubeFacesNormals | CornishRoom/Form1.cs:73-80 | the six face normals are pairwise different |
| CornishRoomForm.CubeFacesShape | CornishRoom/Form1.cs:68-81 | a cube is six such faces, one per axis direction |
| CornishRoomForm.RoomWallsShape | CornishRoom/Form1.cs:52-67 | six Wall-tagged walls with unit-axis normals pointing towards the room's centre, flat on one axis, with ordered corners on their plane; each is a mirror exactly when its box is checked |
| CornishRoomForm.RenderSceneLayout | CornishRoom/Form1.cs:104-108 | a render's scene has 19 figures: walls at 0-5, the sphere at 6, the first cube at 7-12, the second at 13-18, each with its chosen material |
| CornishRoomForm.RenderLightsShape | CornishRoom/Form1.cs:111-117 | light 1 (0.7) is present and first exactly when switched on, light 2 (0.3) last exactly when switched on; at most two lights, whole coordinates, non-negative intensities |
| CornishRoomForm.RenderWellFormed | CornishRoom/Form1.cs:104-117 | every render's figures have valid colours and its lights non-negative intensities |
| CornishRoomForm.RenderPixelsValid | CornishRoom/Form1.cs:102-121 | with a true root every pixel of every render is a valid colour |
| CornishRoomForm.CornishRoom.constructor | CornishRoom/Form1.cs:38 | the scene list starts empty |
| CornishRoomForm.CornishRoom.InitBall | CornishRoom/Form1.cs:39-42 | appends exactly the sphere and keeps the earlier figures |
| CornishRoomForm.CornishRoom.InitWall | CornishRoom/Form1.cs:43-46 | appends exactly one Wall-tagged face and keeps the earlier figures |
| CornishRoomForm.CornishRoom.InitSideCube | CornishRoom/Form1.cs:47-50 | appends exactly one SideCube-tagged face and keeps the earlier figures |
| CornishRoomForm.CornishRoom.InitRoom | CornishRoom/Form1.cs:52-67 | appends exactly the six room walls (`RoomWalls`) after the earlier figures |
| CornishRoomForm.CornishRoom.InitCube | CornishRoom/Form1.cs:68-81 | appends exactly the six cube faces (`CubeFaces`) after the earlier figures |
| CornishRoomForm.CornishRoom.ButtonRenderClick | CornishRoom/Form1.cs:102-121 | the scene is rebuilt from empty as `RenderScene`, and the returned image is `GetImage` of that scene, `RenderLights` and the truncated eye |

## Left out

- Floating point: all arithmetic is exact `real` arithmetic, so rounding, overflow, NaN and
  infinities are not modelled. The `+infinity` "no hit" value is `None`.
- `Math.Sqrt` has no definition. It is the parameter `sqrt`, and the properties that need a
  real square root assume `IsSqrt(sqrt)`.
- Vectors.Normalize: on the zero vector the source computes 0/0 (NaN). The model returns the
  zero vector.
- Intersect.FaceIntersection: when `Scalar(ray, normal)` is zero the source divides by zero.
  The model returns no hit, which is what the IEEE result (an infinite t, or NaN) leads to in
  the code that follows.
- Shading.Contribution: when `Length(normal) * Length(l)` is zero the model adds nothing, where
  the source divides by zero. With a true root this case cannot arise for a facing light
  (`ContributionDenominatorPositive`).
- Shading.CalcIntensity: the model's loop adds `LightShare`'s value for every light, 0.0
  included. The source skips the `+=` for lights that add nothing.
- Vectors.Refract: the optics of refraction are not proved. The function is a literal
  transcription, including the unoriented normal in the result. Only the head-on case is
  proved (`RefractHeadOn`).
- Tracer.RayTrace: `Color.FromArgb`'s range exception is not modelled. A colour is any int
  triple, and `RayTraceValid` shows the channels stay in [0, 255] for well-formed scenes.
- Display: `Bitmap`, `SetPixel` and `canvas.Image` are not modelled. The image is a
  `array2<Color>` that `ButtonRenderClick` returns.
- WinForms:
  - `InitializeComponent` and the constructor's widget defaults are not modelled.
  - `CornishRoom_Load` is not modelled.
  - The check-box, combo-box and up-down widgets are not modelled. Their values are the fields
    of `Controls`, and the up-down values are reals read through the truncating cast.
- The `RayTracing` constructor is not modelled: it only stores its arguments, which are
  parameters here.
- The static scene field is a field of the `CornishRoom` object, so sharing it between form
  instances is not modelled.
- `GetImage` and `ButtonRenderClick` require a positive canvas size, because `new Bitmap`
  rejects any other size.

## Findings

| source | as written | input that shows it | evidently intended | confidence | as-written member | corrected member |
|---|---|---|---|---|---|---|
| CornishRoom/RayTracing.cs:151 | `shape.Type` is read before `shape == null` is tested, so a shadow ray that hits nothing dereferences null | any light whose shadow ray meets no figure, e.g. every light in an empty scene | test for a miss first: a miss means the light is visible | not executed | Shading.ShadowVisibleAsWritten, Shading.ShadowTestThrowsOnMiss | Shading.ShadowVisible (used by Shading.Contribution; see Shading.ContributionNeedsVisibility, Shading.WallNeverBlocks) |
