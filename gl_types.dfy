/** Values shared by the glow backend model: the scissor rectangle, the vertex
    (reduced to its shader mode), vertex ranges and the prepared commands that
    `Renderer::fill` records, together with the shape predicates the lemmas
    about a frame's command list are stated with. */
module GlTypes {

  /** Rust's `u32`. */
  type u32 = x: int | 0 <= x < 0x1_0000_0000

  /** A scissor rectangle in framebuffer pixels (`GlRect`). */
  datatype GlRect = GlRect(left: u32, bottom: u32, width: u32, height: u32)

  /** Fragment-shader modes: text from the glyph cache, an image texture, or
      untextured geometry. */
  const MODE_TEXT: u32 := 0
  const MODE_IMAGE: u32 := 1
  const MODE_GEOMETRY: u32 := 2

  /** A vertex. Position, texture coordinates and colour are floating point and
      are not modelled; the mode tag is what the batching decides. */
  datatype Vertex = Vertex(mode: u32)

  /** Identifier of an image in the image map. */
  type ImageId = nat

  /** A half-open range `start..end` of vertex indices. */
  datatype Range = Range(start: nat, end: nat)

  /** A command recorded by `fill`: draw a vertex range plainly or with an
      image texture, or change the scissor rectangle. */
  datatype PreparedCommand =
    | Image(imageId: ImageId, range: Range)
    | Plain(range: Range)
    | Scizzor(rect: GlRect)

  /** Number of vertices in a range (negative for an inverted one). */
  function Len(r: Range): int {
    r.end - r.start
  }

  /** The vertex ranges of the `Plain`/`Image` commands, in command order. */
  function DrawRanges(cmds: seq<PreparedCommand>): (rs: seq<Range>)
    ensures |rs| <= |cmds|
  {
    if cmds == [] then []
    else
      var last := cmds[|cmds| - 1];
      DrawRanges(cmds[..|cmds| - 1]) + (if last.Scizzor? then [] else [last.range])
  }

  /** The rectangles of the `Scizzor` commands, in command order. */
  function ScizzorRects(cmds: seq<PreparedCommand>): (gs: seq<GlRect>)
    ensures |gs| <= |cmds|
  {
    if cmds == [] then []
    else
      var last := cmds[|cmds| - 1];
      ScizzorRects(cmds[..|cmds| - 1]) + (if last.Scizzor? then [last.rect] else [])
  }

  /** `rs` tiles `0..n`: the first range starts at 0, each range starts where
      the previous one ends, no range is inverted and the last ends at `n`. */
  predicate Tiles(rs: seq<Range>, n: nat) {
    if rs == [] then n == 0
    else
      var last := rs[|rs| - 1];
      last.end == n && last.start <= n && Tiles(rs[..|rs| - 1], last.start)
  }

  /** Every range holds whole triangles. */
  predicate WholeTriangles(rs: seq<Range>) {
    forall k :: 0 <= k < |rs| ==> Len(rs[k]) % 3 == 0
  }

  /** No two neighbouring commands draw the same image: such runs are merged. */
  predicate DistinctNeighbouringImages(cmds: seq<PreparedCommand>) {
    forall k :: 0 < k < |cmds| ==>
      !(cmds[k - 1].Image? && cmds[k].Image? && cmds[k - 1].imageId == cmds[k].imageId)
  }

  /** Every `Scizzor` command comes right after a draw command, the range that
      was in flight when the clip changed. */
  predicate ScizzorsCloseRanges(cmds: seq<PreparedCommand>) {
    forall k :: 0 <= k < |cmds| && cmds[k].Scizzor? ==> 0 < k && !cmds[k - 1].Scizzor?
  }

  lemma {:induction false} DrawRangesAppend(cmds: seq<PreparedCommand>, c: PreparedCommand)
    ensures DrawRanges(cmds + [c]) == DrawRanges(cmds) + (if c.Scizzor? then [] else [c.range])
  {
    assert (cmds + [c])[..|cmds|] == cmds;
  }

  lemma {:induction false} ScizzorRectsAppend(cmds: seq<PreparedCommand>, c: PreparedCommand)
    ensures ScizzorRects(cmds + [c]) == ScizzorRects(cmds) + (if c.Scizzor? then [c.rect] else [])
  {
    assert (cmds + [c])[..|cmds|] == cmds;
  }

  lemma {:induction false} WholeTrianglesAppend(rs: seq<Range>, r: Range)
    requires WholeTriangles(rs) && Len(r) % 3 == 0
    ensures WholeTriangles(rs + [r])
  {
    assert forall k :: 0 <= k < |rs| ==> (rs + [r])[k] == rs[k];
  }

  lemma {:induction false} DistinctNeighbouringImagesAppend(cmds: seq<PreparedCommand>, c: PreparedCommand)
    requires DistinctNeighbouringImages(cmds)
    requires cmds != [] && cmds[|cmds| - 1].Image? && c.Image? ==> cmds[|cmds| - 1].imageId != c.imageId
    ensures DistinctNeighbouringImages(cmds + [c])
  {
    assert forall k :: 0 <= k < |cmds| ==> (cmds + [c])[k] == cmds[k];
  }

  lemma {:induction false} ScizzorsCloseRangesAppend(cmds: seq<PreparedCommand>, c: PreparedCommand)
    requires ScizzorsCloseRanges(cmds)
    requires c.Scizzor? ==> cmds != [] && !cmds[|cmds| - 1].Scizzor?
    ensures ScizzorsCloseRanges(cmds + [c])
  {
    assert forall k :: 0 <= k < |cmds| ==> (cmds + [c])[k] == cmds[k];
  }

  /** Extending a tiling by the range from its end to `m` tiles `0..m`. */
  lemma {:induction false} TilesExtend(rs: seq<Range>, n: nat, m: nat)
    requires Tiles(rs, n) && n <= m
    ensures Tiles(rs + [Range(n, m)], m)
  {
    assert (rs + [Range(n, m)])[..|rs|] == rs;
  }
}
