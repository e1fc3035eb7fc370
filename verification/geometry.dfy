/** Coordinates on the globe texture and on the flat map, and the
    bounding-box prefilter that `updateMap` runs before the exact
    point-in-fill test. Coordinates are exact reals: the rounding of the
    browser's floating-point arithmetic is not modelled. */
module Geometry {

  /** Texture coordinate of a ray hit on the stroke sphere. */
  datatype UV = UV(x: real, y: real)

  /** A point in the coordinate space of the map's view box. */
  datatype MapPoint = MapPoint(x: real, y: real)

  /** The box `getBBox` reports for one country outline. */
  datatype Box = Box(x: real, y: real, width: real, height: real)

  /** The fixed view box of the map, `[2000, 1000]`, and its vertical offset. */
  const ViewBoxWidth: real := 2000.0
  const ViewBoxHeight: real := 1000.0
  const OffsetY: real := 0.0

  predicate InViewBox(p: MapPoint) {
    0.0 <= p.x <= ViewBoxWidth && 0.0 <= p.y <= ViewBoxHeight
  }

  /** Scales a texture coordinate into the view box; the texture's `y`
      axis points up while the map's points down. */
  function ToMapPoint(uv: UV): (p: MapPoint)
    ensures 0.0 <= uv.x <= 1.0 && 0.0 <= uv.y <= 1.0 ==> InViewBox(p)
    ensures uv.x == 0.0 ==> p.x == 0.0
    ensures uv.y == 1.0 ==> p.y == 0.0
    ensures uv.y == 0.0 ==> p.y == ViewBoxHeight
  {
    MapPoint(uv.x * ViewBoxWidth, (1.0 + OffsetY - uv.y) * ViewBoxHeight)
  }

  /** Horizontal order is kept and vertical order is reversed. */
  lemma ToMapPointOrder(a: UV, b: UV)
    ensures a.x < b.x ==> ToMapPoint(a).x < ToMapPoint(b).x
    ensures a.y < b.y ==> ToMapPoint(a).y > ToMapPoint(b).y
  {
  }

  /** The prefilter exactly as the loop writes it: four comparisons joined
      by "or". Any box with some positive extent lets every point through;
      a box with non-negative extents rejects a point only when the box is
      a single point and the point is that corner. */
  function Prefilter(b: Box, p: MapPoint): (r: bool)
    ensures b.width > 0.0 || b.height > 0.0 ==> r
    ensures b.width >= 0.0 && b.height >= 0.0 ==>
              (!r <==> b.width == 0.0 && b.height == 0.0 && p.x == b.x && p.y == b.y)
  {
    p.x > b.x || p.x < b.x + b.width || p.y > b.y || p.y < b.y + b.height
  }

  /** For an arbitrary box the prefilter rejects exactly the points of the
      "inverted" rectangle spanned from the far corner back to the origin
      corner, which is empty unless both extents are non-positive. */
  lemma PrefilterRejects(b: Box, p: MapPoint)
    ensures !Prefilter(b, p) <==>
              b.x + b.width <= p.x <= b.x && b.y + b.height <= p.y <= b.y
    ensures !Prefilter(b, p) ==> b.width <= 0.0 && b.height <= 0.0
  {
  }
}
