/** The form that builds the Cornell-box scene and starts a render. The widgets
    become one value of the Controls datatype; the scene list the form appends
    to is the `scene` field of the CornishRoom class. */
module CornishRoomForm {
  import opened Numerics
  import opened Vectors
  import opened Figures
  import opened Shading
  import opened Tracer

  /** The widget state a render reads: the six wall check boxes, the three
      material combo boxes (their selected item's text), the two light check
      boxes and their positions, the eye position and the canvas size. The
      position fields are the numeric up-down values. */
  datatype Controls = Controls(
    backWall: bool, floor: bool, ceiling: bool, leftWall: bool, rightWall: bool, frontWall: bool,
    sphereMaterial: string, cube1Material: string, cube2Material: string,
    light1On: bool, light1: Point3D, light2On: bool, light2: Point3D,
    eye: Point3D, canvasWidth: int, canvasHeight: int)

  // The named System.Drawing colours the scene uses, as RGB triples.
  const Violet := Color(238, 130, 238)
  const White := Color(255, 255, 255)
  const DarkMagenta := Color(139, 0, 139)
  const LightBlue := Color(173, 216, 230)
  const IndianRed := Color(205, 92, 92)
  const LightPink := Color(255, 182, 193)
  const Cornsilk := Color(255, 248, 220)
  const DarkKhaki := Color(189, 183, 107)
  const GreenYellow := Color(173, 255, 47)

  /** The material of a room wall: a mirror when its box is checked, matte otherwise. */
  function GetReflectionWall(checked: bool): (m: Material)
    ensures m != Transparent
    ensures m == Mirror <==> checked
  {
    if checked then Mirror else Matte
  }

  /** The material named by a combo box item; an unknown name means matte. */
  function GetMaterial(name: string): (m: Material)
    ensures m == Mirror <==> name == "Mirror"
    ensures m == Transparent <==> name == "Transparent"
    ensures m == Matte <==> name != "Mirror" && name != "Transparent"
  {
    match name
    case "Mirror" => Mirror
    case "Matte" => Matte
    case "Transparent" => Transparent
    case _ => Matte
  }

  /** The text of a material's combo box item (the enum member's name). */
  function MaterialName(m: Material): string
  {
    match m
    case Matte => "Matte"
    case Mirror => "Mirror"
    case Transparent => "Transparent"
  }

  /** Every material can be chosen by its name. */
  lemma GetMaterialOfName(m: Material)
    ensures GetMaterial(MaterialName(m)) == m
  {
  }

  function RoomWall(p: Point3D, p2: Point3D, normal: Point3D, color: Color, material: Material): Figure
  {
    Figure.Wall(color, material, FigureType.Wall, p, p2, normal)
  }

  function CubeSide(p: Point3D, p2: Point3D, normal: Point3D, color: Color, material: Material): Figure
  {
    Figure.Wall(color, material, FigureType.SideCube, p, p2, normal)
  }

  /** The six walls of the room [-x, x] x [-y, y] x [-z, z]: back, floor,
      ceiling, left, right and front, in that order. */
  function RoomWalls(x: real, y: real, z: real, c: Controls): seq<Figure>
  {
    [ RoomWall(Point3D(-x, -y, z), Point3D(x, y, z), Point3D(0.0, 0.0, -1.0), Violet, GetReflectionWall(c.backWall)),
      RoomWall(Point3D(-x, -y, -z), Point3D(x, -y, z), Point3D(0.0, 1.0, 0.0), White, GetReflectionWall(c.floor)),
      RoomWall(Point3D(-x, y, -z), Point3D(x, y, z), Point3D(0.0, -1.0, 0.0), DarkMagenta, GetReflectionWall(c.ceiling)),
      RoomWall(Point3D(-x, -y, -z), Point3D(-x, y, z), Point3D(1.0, 0.0, 0.0), LightBlue, GetReflectionWall(c.leftWall)),
      RoomWall(Point3D(x, -y, -z), Point3D(x, y, z), Point3D(-1.0, 0.0, 0.0), IndianRed, GetReflectionWall(c.rightWall)),
      RoomWall(Point3D(-x, -y, -z), Point3D(x, y, -z), Point3D(0.0, 0.0, 1.0), LightPink, GetReflectionWall(c.frontWall)) ]
  }

  /** The wall check boxes in the order of RoomWalls. */
  function WallChecks(c: Controls): seq<bool>
  {
    [c.backWall, c.floor, c.ceiling, c.leftWall, c.rightWall, c.frontWall]
  }

  /** The six faces of the cube with the given centre and half side r: the
      z = z2 and z = z1 faces, the x = x1 and x = x2 faces, the y = y1 and
      y = y2 faces, in that order. */
  function CubeFaces(center: Point3D, r: real, color: Color, material: Material): seq<Figure>
  {
    var x1 := center.x - r;
    var x2 := center.x + r;
    var y1 := center.y - r;
    var y2 := center.y + r;
    var z1 := center.z - r;
    var z2 := center.z + r;
    [ CubeSide(Point3D(x1, y1, z2), Point3D(x2, y2, z2), Point3D(0.0, 0.0, 1.0), color, material),
      CubeSide(Point3D(x1, y1, z1), Point3D(x2, y2, z1), Point3D(0.0, 0.0, -1.0), color, material),
      CubeSide(Point3D(x1, y1, z1), Point3D(x1, y2, z2), Point3D(-1.0, 0.0, 0.0), color, material),
      CubeSide(Point3D(x2, y1, z1), Point3D(x2, y2, z2), Point3D(1.0, 0.0, 0.0), color, material),
      CubeSide(Point3D(x1, y1, z1), Point3D(x2, y1, z2), Point3D(0.0, -1.0, 0.0), color, material),
      CubeSide(Point3D(x1, y2, z1), Point3D(x2, y2, z2), Point3D(0.0, 1.0, 0.0), color, material) ]
  }

  /** The sphere of a render. */
  function RenderBall(c: Controls): Figure
  {
    Figure.Sphere(Cornsilk, GetMaterial(c.sphereMaterial), Point3D(10.0, -15.0, 15.0), 10.0)
  }

  /** The scene of a render: the room, the sphere, then the two cubes. */
  function RenderScene(c: Controls): seq<Figure>
  {
    RoomWalls(25.0, 25.0, 50.0, c) + [RenderBall(c)]
      + CubeFaces(Point3D(-15.0, -21.0, 20.0), 4.0, DarkKhaki, GetMaterial(c.cube1Material))
      + CubeFaces(Point3D(10.0, -22.0, 0.0), 3.0, GreenYellow, GetMaterial(c.cube2Material))
  }

  /** A position read from three numeric up-down values through (int) casts. */
  function TruncPoint(p: Point3D): Point3D
  {
    Point3D(Trunc(p.x) as real, Trunc(p.y) as real, Trunc(p.z) as real)
  }

  predicate IsWhole(v: real)
  {
    v == v.Floor as real
  }

  /** Each coordinate of a truncated position is a whole number no farther from
      zero than the value it came from. */
  lemma TruncPointWhole(p: Point3D)
    ensures var q := TruncPoint(p);
      IsWhole(q.x) && IsWhole(q.y) && IsWhole(q.z) &&
      (0.0 <= p.x ==> 0.0 <= q.x <= p.x) && (p.x < 0.0 ==> p.x <= q.x <= 0.0) &&
      (0.0 <= p.y ==> 0.0 <= q.y <= p.y) && (p.y < 0.0 ==> p.y <= q.y <= 0.0) &&
      (0.0 <= p.z ==> 0.0 <= q.z <= p.z) && (p.z < 0.0 ==> p.z <= q.z <= 0.0)
  {
    WholeOfInt(Trunc(p.x));
    WholeOfInt(Trunc(p.y));
    WholeOfInt(Trunc(p.z));
  }

  lemma WholeOfInt(n: int)
    ensures IsWhole(n as real)
  {
    assert (n as real).Floor == n;
  }

  const Light1Intensity: real := 0.7
  const Light2Intensity: real := 0.3

  /** The lights of a render: light 1 when it is switched on, then light 2 when
      it is switched on. */
  function RenderLights(c: Controls): seq<Light>
  {
    (if c.light1On then [Light(TruncPoint(c.light1), Light1Intensity)] else [])
      + (if c.light2On then [Light(TruncPoint(c.light2), Light2Intensity)] else [])
  }

  function RenderEye(c: Controls): Point3D
  {
    TruncPoint(c.eye)
  }

  /** True when the two corners of a face agree on exactly this many axes. */
  function FlatAxes(f: Figure): nat
    requires f.Wall?
  {
    (if f.minPoint.x == f.maxPoint.x then 1 else 0) +
    (if f.minPoint.y == f.maxPoint.y then 1 else 0) +
    (if f.minPoint.z == f.maxPoint.z then 1 else 0)
  }

  /** One of the six unit vectors along the axes. */
  predicate IsUnitAxis(n: Point3D)
  {
    || ((n.x == 1.0 || n.x == -1.0) && n.y == 0.0 && n.z == 0.0)
    || (n.x == 0.0 && (n.y == 1.0 || n.y == -1.0) && n.z == 0.0)
    || (n.x == 0.0 && n.y == 0.0 && (n.z == 1.0 || n.z == -1.0))
  }

  /** A face whose two corners lie on the plane through its normal: the face is
      the axis-aligned rectangle spanned by the corners. */
  predicate CornersOnPlane(f: Figure)
    requires f.Wall?
  {
    Scalar(f.normal, Sub(f.minPoint, f.maxPoint)) == 0.0
  }

  predicate CornersOrdered(f: Figure)
    requires f.Wall?
  {
    f.minPoint.x <= f.maxPoint.x && f.minPoint.y <= f.maxPoint.y && f.minPoint.z <= f.maxPoint.z
  }

  /** A face of the cube with the given centre and half side: a SideCube face of
      the cube's colour and material, with corners on its plane, flat on exactly
      one axis (for r > 0), with ordered corners (for r >= 0), and whose unit
      normal points away from the centre: the face's plane lies at distance r
      from it along the normal. */
  predicate IsCubeFace(f: Figure, center: Point3D, r: real, color: Color, material: Material)
  {
    f.Wall? && f.faceType == FigureType.SideCube &&
    f.ambient == color && f.material == material &&
    IsUnitAxis(f.normal) && CornersOnPlane(f) &&
    Scalar(f.normal, Sub(f.maxPoint, center)) == r &&
    (r > 0.0 ==> FlatAxes(f) == 1) &&
    (r >= 0.0 ==> CornersOrdered(f))
  }

  /** A cube has six faces, one per axis direction. */
  lemma CubeFacesShape(center: Point3D, r: real, color: Color, material: Material)
    ensures var faces := CubeFaces(center, r, color, material);
      |faces| == 6 &&
      (forall k :: 0 <= k < 6 ==> IsCubeFace(faces[k], center, r, color, material)) &&
      (forall k, l :: 0 <= k < l < 6 ==> faces[k].normal != faces[l].normal)
  {
    CubeFacesFaces(center, r, color, material);
    CubeFacesNormals(center, r, color, material);
  }

  lemma CubeFacesFaces(center: Point3D, r: real, color: Color, material: Material)
    ensures var faces := CubeFaces(center, r, color, material);
      |faces| == 6 && forall k :: 0 <= k < 6 ==> IsCubeFace(faces[k], center, r, color, material)
  {
    var faces := CubeFaces(center, r, color, material);
    assert IsCubeFace(faces[0], center, r, color, material);
    assert IsCubeFace(faces[1], center, r, color, material);
    assert IsCubeFace(faces[2], center, r, color, material);
    assert IsCubeFace(faces[3], center, r, color, material);
    assert IsCubeFace(faces[4], center, r, color, material);
    assert IsCubeFace(faces[5], center, r, color, material);
  }

  lemma CubeFacesNormals(center: Point3D, r: real, color: Color, material: Material)
    ensures var faces := CubeFaces(center, r, color, material);
      |faces| == 6 && forall k, l :: 0 <= k < l < 6 ==> faces[k].normal != faces[l].normal
  {
    var faces := CubeFaces(center, r, color, material);
    assert faces[0].normal == Point3D(0.0, 0.0, 1.0) && faces[1].normal == Point3D(0.0, 0.0, -1.0);
    assert faces[2].normal == Point3D(-1.0, 0.0, 0.0) && faces[3].normal == Point3D(1.0, 0.0, 0.0);
    assert faces[4].normal == Point3D(0.0, -1.0, 0.0) && faces[5].normal == Point3D(0.0, 1.0, 0.0);
  }

  /** The room has six Wall-tagged walls, each flat on exactly one axis, with a
      unit normal pointing towards the centre of the room (for positive half
      sizes); a wall is a mirror exactly when its box is checked. */
  lemma RoomWallsShape(x: real, y: real, z: real, c: Controls)
    requires x > 0.0 && y > 0.0 && z > 0.0
    ensures var walls := RoomWalls(x, y, z, c);
      |walls| == 6 &&
      (forall k :: 0 <= k < 6 ==>
        walls[k].Wall? && walls[k].faceType == FigureType.Wall &&
        IsUnitAxis(walls[k].normal) && CornersOnPlane(walls[k]) && CornersOrdered(walls[k]) &&
        FlatAxes(walls[k]) == 1 &&
        Scalar(walls[k].normal, Sub(Origin, walls[k].maxPoint)) > 0.0 &&
        walls[k].material != Transparent &&
        (walls[k].material == Mirror <==> WallChecks(c)[k])) &&
      (forall k, l :: 0 <= k < l < 6 ==> walls[k].normal != walls[l].normal)
  {
  }

  /** A render's scene has 19 figures: the walls at 0-5, the sphere at 6, the
      first cube's faces at 7-12 and the second cube's at 13-18, each with the
      material chosen for it. */
  lemma RenderSceneLayout(c: Controls)
    ensures var s := RenderScene(c);
      |s| == 19 &&
      (forall k :: 0 <= k < 6 ==> TypeOf(s[k]) == FigureType.Wall) &&
      s[6] == Figure.Sphere(Cornsilk, GetMaterial(c.sphereMaterial), Point3D(10.0, -15.0, 15.0), 10.0) &&
      (forall k :: 7 <= k < 19 ==> TypeOf(s[k]) == FigureType.SideCube) &&
      (forall k :: 7 <= k < 13 ==> s[k].material == GetMaterial(c.cube1Material) && s[k].ambient == DarkKhaki) &&
      (forall k :: 13 <= k < 19 ==> s[k].material == GetMaterial(c.cube2Material) && s[k].ambient == GreenYellow)
  {
    var walls := RoomWalls(25.0, 25.0, 50.0, c);
    var cube1 := CubeFaces(Point3D(-15.0, -21.0, 20.0), 4.0, DarkKhaki, GetMaterial(c.cube1Material));
    var cube2 := CubeFaces(Point3D(10.0, -22.0, 0.0), 3.0, GreenYellow, GetMaterial(c.cube2Material));
    var s := RenderScene(c);
    assert s == walls + [RenderBall(c)] + cube1 + cube2;
    forall k | 0 <= k < 6
      ensures s[k] == walls[k]
    {
    }
    forall k | 7 <= k < 13
      ensures s[k] == cube1[k - 7]
    {
    }
    forall k | 13 <= k < 19
      ensures s[k] == cube2[k - 13]
    {
    }
  }

  /** A render has light 1 (0.7) exactly when it is switched on, first, and
      light 2 (0.3) exactly when it is switched on, last; every light sits at
      whole coordinates and shines with a non-negative intensity. */
  lemma RenderLightsShape(c: Controls)
    ensures var ls := RenderLights(c);
      |ls| == (if c.light1On then 1 else 0) + (if c.light2On then 1 else 0) &&
      (c.light1On <==> |ls| > 0 && ls[0] == Light(TruncPoint(c.light1), 0.7)) &&
      (c.light2On <==> |ls| > 0 && ls[|ls| - 1].intensity == 0.3) &&
      (c.light2On ==> ls[|ls| - 1].position == TruncPoint(c.light2)) &&
      (forall k :: 0 <= k < |ls| ==>
        ls[k].intensity >= 0.0 &&
        IsWhole(ls[k].position.x) && IsWhole(ls[k].position.y) && IsWhole(ls[k].position.z))
  {
    TruncPointWhole(c.light1);
    TruncPointWhole(c.light2);
  }

  /** The scene and the lights of every render are well formed. */
  lemma RenderWellFormed(c: Controls)
    ensures WellFormedScene(RenderScene(c), RenderLights(c))
  {
    var s := RenderScene(c);
    RenderSceneLayout(c);
    RenderLightsShape(c);
    forall k | 0 <= k < |s|
      ensures ValidColor(s[k].ambient)
    {
      if k < 6 {
        assert s[k] == RoomWalls(25.0, 25.0, 50.0, c)[k];
      }
    }
  }

  /** With a true square root every pixel of every render is a valid colour:
      Color.FromArgb would never reject a channel. */
  lemma RenderPixelsValid(sqrt: SqrtFn, c: Controls, i: int, j: int)
    requires IsSqrt(sqrt)
    requires c.canvasWidth > 0 && c.canvasHeight > 0
    ensures ValidColor(Pixel(sqrt, RenderScene(c), RenderLights(c), RenderEye(c), i, j, c.canvasWidth, c.canvasHeight))
  {
    RenderWellFormed(c);
    ImageValid(sqrt, RenderScene(c), RenderLights(c), RenderEye(c), c.canvasWidth, c.canvasHeight, i, j);
  }

  /** The form: its scene list, appended to by the Init methods. */
  class CornishRoom {
    var scene: seq<Figure>

    constructor()
      ensures scene == []
    {
      scene := [];
    }

    method InitBall(center: Point3D, r: real, color: Color, material: Material)
      modifies this
      ensures scene == old(scene) + [Figure.Sphere(color, material, center, r)]
    {
      scene := scene + [Figure.Sphere(color, material, center, r)];
    }

    method InitWall(p: Point3D, p2: Point3D, normal: Point3D, color: Color, material: Material)
      modifies this
      ensures scene == old(scene) + [RoomWall(p, p2, normal, color, material)]
    {
      scene := scene + [Figure.Wall(color, material, FigureType.Wall, p, p2, normal)];
    }

    method InitSideCube(p: Point3D, p2: Point3D, normal: Point3D, color: Color, material: Material)
      modifies this
      ensures scene == old(scene) + [CubeSide(p, p2, normal, color, material)]
    {
      scene := scene + [Figure.Wall(color, material, FigureType.SideCube, p, p2, normal)];
    }

    /** Appends the six room walls; the wall materials come from the check boxes. */
    method InitRoom(x: real, y: real, z: real, c: Controls)
      modifies this
      ensures scene == old(scene) + RoomWalls(x, y, z, c)
    {
      InitWall(Point3D(-x, -y, z), Point3D(x, y, z), Point3D(0.0, 0.0, -1.0), Violet, GetReflectionWall(c.backWall));
      InitWall(Point3D(-x, -y, -z), Point3D(x, -y, z), Point3D(0.0, 1.0, 0.0), White, GetReflectionWall(c.floor));
      InitWall(Point3D(-x, y, -z), Point3D(x, y, z), Point3D(0.0, -1.0, 0.0), DarkMagenta, GetReflectionWall(c.ceiling));
      InitWall(Point3D(-x, -y, -z), Point3D(-x, y, z), Point3D(1.0, 0.0, 0.0), LightBlue, GetReflectionWall(c.leftWall));
      InitWall(Point3D(x, -y, -z), Point3D(x, y, z), Point3D(-1.0, 0.0, 0.0), IndianRed, GetReflectionWall(c.rightWall));
      InitWall(Point3D(-x, -y, -z), Point3D(x, y, -z), Point3D(0.0, 0.0, 1.0), LightPink, GetReflectionWall(c.frontWall));
    }

    /** Appends the six faces of a cube. */
    method InitCube(center: Point3D, r: real, color: Color, material: Material)
      modifies this
      ensures scene == old(scene) + CubeFaces(center, r, color, material)
    {
      var x1, x2 := center.x - r, center.x + r;
      var y1, y2 := center.y - r, center.y + r;
      var z1, z2 := center.z - r, center.z + r;
      InitSideCube(Point3D(x1, y1, z2), Point3D(x2, y2, z2), Point3D(0.0, 0.0, 1.0), color, material);
      InitSideCube(Point3D(x1, y1, z1), Point3D(x2, y2, z1), Point3D(0.0, 0.0, -1.0), color, material);
      InitSideCube(Point3D(x1, y1, z1), Point3D(x1, y2, z2), Point3D(-1.0, 0.0, 0.0), color, material);
      InitSideCube(Point3D(x2, y1, z1), Point3D(x2, y2, z2), Point3D(1.0, 0.0, 0.0), color, material);
      InitSideCube(Point3D(x1, y1, z1), Point3D(x2, y1, z2), Point3D(0.0, -1.0, 0.0), color, material);
      InitSideCube(Point3D(x1, y2, z1), Point3D(x2, y2, z2), Point3D(0.0, 1.0, 0.0), color, material);
    }

    /** The Render button: rebuilds the scene from empty, collects the switched-on
        lights, and renders the canvas. */
    method ButtonRenderClick(sqrt: SqrtFn, c: Controls) returns (image: array2<Color>)
      requires c.canvasWidth > 0 && c.canvasHeight > 0
      modifies this
      ensures scene == RenderScene(c)
      ensures fresh(image)
      ensures image.Length0 == c.canvasWidth && image.Length1 == c.canvasHeight
      ensures forall i, j :: 0 <= i < c.canvasWidth && 0 <= j < c.canvasHeight ==>
        image[i, j] == Pixel(sqrt, RenderScene(c), RenderLights(c), RenderEye(c), i, j, c.canvasWidth, c.canvasHeight)
    {
      scene := [];
      InitRoom(25.0, 25.0, 50.0, c);
      InitBall(Point3D(10.0, -15.0, 15.0), 10.0, Cornsilk, GetMaterial(c.sphereMaterial));
      InitCube(Point3D(-15.0, -21.0, 20.0), 4.0, DarkKhaki, GetMaterial(c.cube1Material));
      InitCube(Point3D(10.0, -22.0, 0.0), 3.0, GreenYellow, GetMaterial(c.cube2Material));

      var lights: seq<Light> := [];
      if c.light1On {
        lights := lights + [Light(TruncPoint(c.light1), Light1Intensity)];
      }
      if c.light2On {
        lights := lights + [Light(TruncPoint(c.light2), Light2Intensity)];
      }
      var eye := TruncPoint(c.eye);
      assert scene == RenderScene(c);
      assert lights == RenderLights(c);

      image := GetImage(sqrt, scene, lights, eye, c.canvasWidth, c.canvasHeight);
    }
  }
}
