/** The part of a conrod render primitive that the batching reads. The widget
    toolkit produces these; geometry and colours are floating point and are
    not modelled. */
module Render {
  import opened GlTypes

  /** A clip rectangle after the rounding and `as u32` casts of
      `rect_to_gl_rect`, before it is clamped to the framebuffer. */
  datatype RoundedRect = RoundedRect(left: u32, bottom: u32, width: u32, height: u32)

  /** The primitive kinds `fill` distinguishes. Triangle lists are reduced to
      their number of triangles. A text run is reduced to what the glyph cache
      reports after `cache_queued`: one flag per positioned glyph, true when
      `rect_for` returned a placement for it. */
  datatype PrimitiveKind =
    | Rectangle
    | TrianglesSingleColor(triangles: nat)
    | TrianglesMultiColor(triangles: nat)
    | Text(placed: seq<bool>)
    | Image(imageId: ImageId)
    | Other

  /** A primitive with its clip rectangle. */
  datatype Primitive = Primitive(kind: PrimitiveKind, scizzor: RoundedRect)
}
