/** The scene entities: materials, figure kinds, colours, figures and lights.
    All of them are immutable values; the source's constructors copy their
    arguments into fields and nothing changes them afterwards. */
module Figures {
  import opened Vectors

  datatype Material = Matte | Mirror | Transparent

  datatype FigureType = Sphere | Wall | SideCube

  /** The kind tags a planar face may carry: a room wall or a cube side. */
  type FaceType = t: FigureType | t != FigureType.Sphere witness FigureType.Wall

  /** An ARGB colour without the alpha channel. Color.FromArgb rejects channels
      outside [0, 255]; here a colour is any triple and ValidColor says when it is
      in range. */
  datatype Color = Color(r: int, g: int, b: int)

  predicate IsChannel(c: int)
  {
    0 <= c <= 255
  }

  predicate ValidColor(c: Color)
  {
    IsChannel(c.r) && IsChannel(c.g) && IsChannel(c.b)
  }

  const Black := Color(0, 0, 0)

  /** A figure is a sphere or a planar face clipped to the box spanned by its two
      corners. A face's tag is never Sphere, so the source's invariant that the tag
      is Sphere exactly for Sphere objects holds by construction. */
  datatype Figure =
    | Sphere(ambient: Color, material: Material, center: Point3D, radius: real)
    | Wall(ambient: Color, material: Material, faceType: FaceType,
           minPoint: Point3D, maxPoint: Point3D, normal: Point3D)

  /** The `Type` field of a figure. */
  function TypeOf(f: Figure): (t: FigureType)
    ensures t == FigureType.Sphere <==> f.Sphere?
    ensures f.Wall? ==> t == f.faceType
  {
    match f
    case Sphere(_, _, _, _) => FigureType.Sphere
    case Wall(_, _, tag, _, _, _) => tag
  }

  /** A point light: a position and an intensity weight. */
  datatype Light = Light(position: Point3D, intensity: real)
}
