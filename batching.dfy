/** The batching state machine of `Renderer::fill` as pure transitions over a
    frame: the command list and vertex buffer built so far, the draw state
    (`Plain` or `Image`, with the start of the open range) and the current
    scissor rectangle. `Run` folds `Step` over a primitive stream; the method
    `GlowRenderer.Renderer.Fill` is proved to compute exactly this. */
module Batching {
  import opened GlTypes
  import Render

  /** `State` inside `fill`: the kind of the open range and where it starts. */
  datatype DrawState = PlainState(start: nat) | ImageState(imageId: ImageId, start: nat)

  datatype Frame = Frame(
    commands: seq<PreparedCommand>,
    vertices: seq<Vertex>,
    state: DrawState,
    scizzor: GlRect)

  function Min(a: u32, b: u32): u32 {
    if a <= b then a else b
  }

  /** The scissor rectangle in force when `fill` starts: the whole framebuffer. */
  function DefaultScizzor(screenW: u32, screenH: u32): GlRect {
    GlRect(0, 0, screenW, screenH)
  }

  /** `rect_to_gl_rect` after rounding: width and height are clamped to the
      framebuffer; `max(_, 0)` on the `u32` left and bottom changes nothing. */
  function RectToGlRect(r: Render.RoundedRect, screenW: u32, screenH: u32): (g: GlRect)
    ensures g.left == r.left && g.bottom == r.bottom
    ensures g.width <= screenW && g.width <= r.width && (g.width == r.width || g.width == screenW)
    ensures g.height <= screenH && g.height <= r.height && (g.height == r.height || g.height == screenH)
  {
    GlRect(r.left, r.bottom, Min(r.width, screenW), Min(r.height, screenH))
  }

  function Initial(screenW: u32, screenH: u32): Frame {
    Frame([], [], PlainState(0), DefaultScizzor(screenW, screenH))
  }

  /** The command that finishes the open range at `end`. */
  function Close(state: DrawState, end: nat): PreparedCommand {
    match state
    case PlainState(start) => Plain(Range(start, end))
    case ImageState(id, start) => Image(id, Range(start, end))
  }

  /** `switch_to_plain_state!`: finish an `Image` range and open a `Plain` one. */
  function SwitchToPlain(f: Frame): Frame {
    match f.state
    case PlainState(_) => f
    case ImageState(_, _) =>
      f.(commands := f.commands + [Close(f.state, |f.vertices|)], state := PlainState(|f.vertices|))
  }

  /** The scissor check made for every primitive before its kind is looked at. */
  function UpdateScizzor(f: Frame, g: GlRect): Frame {
    if g == f.scizzor then f
    else
      f.(commands := f.commands + [Close(f.state, |f.vertices|), Scizzor(g)],
         state := PlainState(|f.vertices|),
         scizzor := g)
  }

  /** Enter the `Image` state for `id` unless already drawing that image. */
  function SwitchToImage(f: Frame, id: ImageId): Frame {
    if f.state.ImageState? && f.state.imageId == id then f
    else
      f.(commands := f.commands + [Close(f.state, |f.vertices|)], state := ImageState(id, |f.vertices|))
  }

  /** `n` copies of `v`. */
  function Repeat<T>(v: T, n: nat): (vs: seq<T>)
    ensures |vs| == n
  {
    seq(n, _ => v)
  }

  lemma {:induction false} RepeatGrow(v: Vertex, a: nat, b: nat)
    ensures Repeat(v, a) + Repeat(v, b) == Repeat(v, a + b)
  {
    assert forall k :: 0 <= k < a + b ==> (Repeat(v, a) + Repeat(v, b))[k] == v;
  }

  /** Number of glyphs the cache placed. */
  function Placed(placed: seq<bool>): (n: nat)
    ensures n <= |placed|
    ensures n == |placed| <==> forall k :: 0 <= k < |placed| ==> placed[k]
  {
    if placed == [] then 0
    else Placed(placed[..|placed| - 1]) + (if placed[|placed| - 1] then 1 else 0)
  }

  /** The vertices one primitive contributes: two triangles for a rectangle,
      three vertices per triangle, a quad per placed glyph, a quad for an image
      that is in the image map and nothing otherwise. */
  function Emitted(kind: Render.PrimitiveKind, imageMap: set<ImageId>): (vs: seq<Vertex>)
    ensures |vs| % 3 == 0
  {
    match kind
    case Rectangle => Repeat(Vertex(MODE_GEOMETRY), 6)
    case TrianglesSingleColor(n) => Repeat(Vertex(MODE_GEOMETRY), 3 * n)
    case TrianglesMultiColor(n) => Repeat(Vertex(MODE_GEOMETRY), 3 * n)
    case Text(placed) => Repeat(Vertex(MODE_TEXT), 6 * Placed(placed))
    case Image(id) => if id in imageMap then Repeat(Vertex(MODE_IMAGE), 6) else []
    case Other => []
  }

  function Push(f: Frame, vs: seq<Vertex>): Frame {
    f.(vertices := f.vertices + vs)
  }

  /** Kinds that `fill` passes over after the scissor check: empty triangle
      lists (`continue` before any state switch) and `Other`. */
  predicate Skipped(kind: Render.PrimitiveKind) {
    kind.Other? || kind == Render.TrianglesSingleColor(0) || kind == Render.TrianglesMultiColor(0)
  }

  /** The draw-state switch a primitive kind makes before pushing vertices:
      images enter their `Image` state, skipped kinds leave the state alone and
      every other kind switches to `Plain`. */
  function SwitchFor(f: Frame, kind: Render.PrimitiveKind): Frame {
    if kind.Image? then SwitchToImage(f, kind.imageId)
    else if Skipped(kind) then f
    else SwitchToPlain(f)
  }

  /** The `match kind` of the batching loop: switch state, then push the
      primitive's vertices. */
  function DrawPrimitive(f: Frame, kind: Render.PrimitiveKind, imageMap: set<ImageId>): Frame {
    Push(SwitchFor(f, kind), Emitted(kind, imageMap))
  }

  /** One iteration of the batching loop. */
  function Step(f: Frame, p: Render.Primitive, screenW: u32, screenH: u32, imageMap: set<ImageId>): Frame {
    DrawPrimitive(UpdateScizzor(f, RectToGlRect(p.scizzor, screenW, screenH)), p.kind, imageMap)
  }

  /** The batching loop over `ps`, starting from frame `f`. */
  function Run(f: Frame, ps: seq<Render.Primitive>, screenW: u32, screenH: u32, imageMap: set<ImageId>): Frame
    decreases |ps|
  {
    if ps == [] then f
    else Step(Run(f, ps[..|ps| - 1], screenW, screenH, imageMap), ps[|ps| - 1], screenW, screenH, imageMap)
  }

  /** The command list `fill` leaves: the loop's commands and the final flush. */
  function FillCommands(ps: seq<Render.Primitive>, screenW: u32, screenH: u32, imageMap: set<ImageId>): seq<PreparedCommand> {
    var f := Run(Initial(screenW, screenH), ps, screenW, screenH, imageMap);
    f.commands + [Close(f.state, |f.vertices|)]
  }

  /** The vertex buffer `fill` leaves. */
  function FillVertices(ps: seq<Render.Primitive>, screenW: u32, screenH: u32, imageMap: set<ImageId>): seq<Vertex> {
    Run(Initial(screenW, screenH), ps, screenW, screenH, imageMap).vertices
  }

  // ---------------------------------------------------------------------
  // Reference definitions the batching is checked against.

  /** The vertices of every primitive, in stream order. */
  function EmittedAll(ps: seq<Render.Primitive>, imageMap: set<ImageId>): seq<Vertex> {
    if ps == [] then []
    else EmittedAll(ps[..|ps| - 1], imageMap) + Emitted(ps[|ps| - 1].kind, imageMap)
  }

  /** The framebuffer clip rectangle of every primitive, in stream order. */
  function Clips(ps: seq<Render.Primitive>, screenW: u32, screenH: u32): (gs: seq<GlRect>)
    ensures |gs| == |ps|
  {
    if ps == [] then []
    else Clips(ps[..|ps| - 1], screenW, screenH) + [RectToGlRect(ps[|ps| - 1].scizzor, screenW, screenH)]
  }

  /** The clip rectangle in force after the clips `gs`, starting from `initial`. */
  function Active(initial: GlRect, gs: seq<GlRect>): GlRect {
    if gs == [] then initial else gs[|gs| - 1]
  }

  /** The clips among `gs` that differ from the one in force just before. */
  function ClipChanges(initial: GlRect, gs: seq<GlRect>): seq<GlRect> {
    if gs == [] then []
    else
      var init := gs[..|gs| - 1];
      ClipChanges(initial, init) + (if gs[|gs| - 1] != Active(initial, init) then [gs[|gs| - 1]] else [])
  }

  // ---------------------------------------------------------------------
  // The frame invariant.

  /** What every frame reached by the loop satisfies: the closed ranges tile
      the vertices up to the start of the open range, that range holds whole
      triangles too, neighbouring image commands differ (and differ from the
      open image range), and every scissor change closed a range first. */
  predicate Inv(f: Frame) {
    && f.state.start <= |f.vertices|
    && Tiles(DrawRanges(f.commands), f.state.start)
    && WholeTriangles(DrawRanges(f.commands))
    && (|f.vertices| - f.state.start) % 3 == 0
    && DistinctNeighbouringImages(f.commands)
    && ScizzorsCloseRanges(f.commands)
    && (f.state.ImageState? && f.commands != [] && f.commands[|f.commands| - 1].Image? ==>
          f.commands[|f.commands| - 1].imageId != f.state.imageId)
  }

  lemma {:induction false} CloseTiles(f: Frame)
    requires Inv(f)
    ensures Tiles(DrawRanges(f.commands + [Close(f.state, |f.vertices|)]), |f.vertices|)
  {
    var c := Close(f.state, |f.vertices|);
    assert c.range == Range(f.state.start, |f.vertices|) && !c.Scizzor?;
    DrawRangesAppend(f.commands, c);
    TilesExtend(DrawRanges(f.commands), f.state.start, |f.vertices|);
  }

  lemma {:induction false} CloseWholeTriangles(f: Frame)
    requires Inv(f)
    ensures WholeTriangles(DrawRanges(f.commands + [Close(f.state, |f.vertices|)]))
  {
    var c := Close(f.state, |f.vertices|);
    assert c.range == Range(f.state.start, |f.vertices|) && !c.Scizzor?;
    DrawRangesAppend(f.commands, c);
    WholeTrianglesAppend(DrawRanges(f.commands), c.range);
  }

  /** Closing the open range of a frame that keeps `Inv` gives a command list
      whose ranges tile the whole buffer in whole triangles. */
  lemma {:induction false} CloseKeepsShape(f: Frame)
    requires Inv(f)
    ensures var cmds := f.commands + [Close(f.state, |f.vertices|)];
      && Tiles(DrawRanges(cmds), |f.vertices|)
      && WholeTriangles(DrawRanges(cmds))
      && DistinctNeighbouringImages(cmds)
      && ScizzorsCloseRanges(cmds)
      && !cmds[|cmds| - 1].Scizzor?
  {
    CloseTiles(f);
    CloseWholeTriangles(f);
    DistinctNeighbouringImagesAppend(f.commands, Close(f.state, |f.vertices|));
    ScizzorsCloseRangesAppend(f.commands, Close(f.state, |f.vertices|));
  }

  lemma {:induction false} SwitchToPlainKeepsInv(f: Frame)
    requires Inv(f)
    ensures Inv(SwitchToPlain(f)) && SwitchToPlain(f).vertices == f.vertices
    ensures SwitchToPlain(f).state.PlainState?
  {
    if f.state.ImageState? {
      CloseKeepsShape(f);
    }
  }

  lemma {:induction false} SwitchToImageKeepsInv(f: Frame, id: ImageId)
    requires Inv(f)
    ensures Inv(SwitchToImage(f, id)) && SwitchToImage(f, id).vertices == f.vertices
  {
    if !(f.state.ImageState? && f.state.imageId == id) {
      CloseKeepsShape(f);
    }
  }

  lemma {:induction false} UpdateScizzorKeepsInv(f: Frame, g: GlRect)
    requires Inv(f)
    ensures Inv(UpdateScizzor(f, g)) && UpdateScizzor(f, g).vertices == f.vertices
  {
    if g != f.scizzor {
      var c := Close(f.state, |f.vertices|);
      var closed := f.commands + [c];
      var f' := UpdateScizzor(f, g);
      assert f'.commands == closed + [Scizzor(g)];
      assert f'.state == PlainState(|f.vertices|) && f'.vertices == f.vertices;
      CloseKeepsShape(f);
      DrawRangesAppend(closed, Scizzor(g));
      assert DrawRanges(f'.commands) == DrawRanges(closed);
      DistinctNeighbouringImagesAppend(closed, Scizzor(g));
      ScizzorsCloseRangesAppend(closed, Scizzor(g));
    }
  }

  lemma {:induction false} PushKeepsInv(f: Frame, vs: seq<Vertex>)
    requires Inv(f) && |vs| % 3 == 0
    ensures Inv(Push(f, vs))
  {
    assert (|f.vertices| - f.state.start + |vs|) % 3 == 0;
    assert Push(f, vs).commands == f.commands && Push(f, vs).state == f.state;
  }

  lemma {:induction false} SwitchForKeepsInv(f: Frame, kind: Render.PrimitiveKind)
    requires Inv(f)
    ensures Inv(SwitchFor(f, kind)) && SwitchFor(f, kind).vertices == f.vertices
  {
    if kind.Image? {
      SwitchToImageKeepsInv(f, kind.imageId);
    } else if !Skipped(kind) {
      SwitchToPlainKeepsInv(f);
    }
  }

  /** Drawing a primitive keeps the frame invariant. */
  lemma {:induction false} DrawPrimitiveKeepsInv(f: Frame, kind: Render.PrimitiveKind, imageMap: set<ImageId>)
    requires Inv(f)
    ensures Inv(DrawPrimitive(f, kind, imageMap))
  {
    SwitchForKeepsInv(f, kind);
    PushKeepsInv(SwitchFor(f, kind), Emitted(kind, imageMap));
  }

  /** Every step of the loop keeps the frame invariant. */
  lemma {:induction false} StepKeepsInv(f: Frame, p: Render.Primitive, screenW: u32, screenH: u32, imageMap: set<ImageId>)
    requires Inv(f)
    ensures Inv(Step(f, p, screenW, screenH, imageMap))
  {
    var g := RectToGlRect(p.scizzor, screenW, screenH);
    UpdateScizzorKeepsInv(f, g);
    DrawPrimitiveKeepsInv(UpdateScizzor(f, g), p.kind, imageMap);
  }

  lemma {:induction false} RunKeepsInv(f: Frame, ps: seq<Render.Primitive>, screenW: u32, screenH: u32, imageMap: set<ImageId>)
    requires Inv(f)
    ensures Inv(Run(f, ps, screenW, screenH, imageMap))
    decreases |ps|
  {
    if ps != [] {
      RunKeepsInv(f, ps[..|ps| - 1], screenW, screenH, imageMap);
      StepKeepsInv(Run(f, ps[..|ps| - 1], screenW, screenH, imageMap), ps[|ps| - 1], screenW, screenH, imageMap);
    }
  }

  // ---------------------------------------------------------------------
  // What the whole loop produces.

  /** Each step appends exactly the primitive's own vertices. */
  lemma {:induction false} StepVertices(f: Frame, p: Render.Primitive, screenW: u32, screenH: u32, imageMap: set<ImageId>)
    ensures Step(f, p, screenW, screenH, imageMap).vertices == f.vertices + Emitted(p.kind, imageMap)
  {
    var f1 := UpdateScizzor(f, RectToGlRect(p.scizzor, screenW, screenH));
    assert f1.vertices == f.vertices;
    assert SwitchFor(f1, p.kind).vertices == f.vertices;
  }

  /** The loop appends the vertices of every primitive, in stream order. */
  lemma {:induction false} RunVertices(f: Frame, ps: seq<Render.Primitive>, screenW: u32, screenH: u32, imageMap: set<ImageId>)
    ensures Run(f, ps, screenW, screenH, imageMap).vertices == f.vertices + EmittedAll(ps, imageMap)
    decreases |ps|
  {
    if ps != [] {
      var init := ps[..|ps| - 1];
      RunVertices(f, init, screenW, screenH, imageMap);
      StepVertices(Run(f, init, screenW, screenH, imageMap), ps[|ps| - 1], screenW, screenH, imageMap);
    }
  }

  /** Drawing a primitive never touches the scissor state or its commands. */
  lemma {:induction false} DrawPrimitiveScizzors(f: Frame, kind: Render.PrimitiveKind, imageMap: set<ImageId>)
    ensures var f' := DrawPrimitive(f, kind, imageMap);
      f'.scizzor == f.scizzor && ScizzorRects(f'.commands) == ScizzorRects(f.commands)
  {
    var f1 := SwitchFor(f, kind);
    assert f1.commands == f.commands || f1.commands == f.commands + [Close(f.state, |f.vertices|)];
    ScizzorRectsAppend(f.commands, Close(f.state, |f.vertices|));
  }

  /** A scissor command is appended if and only if the primitive's clip differs
      from the current one, and the clip in force afterwards is the
      primitive's. */
  lemma {:induction false} StepScizzor(f: Frame, p: Render.Primitive, screenW: u32, screenH: u32, imageMap: set<ImageId>)
    ensures var g := RectToGlRect(p.scizzor, screenW, screenH);
      var f' := Step(f, p, screenW, screenH, imageMap);
      && f'.scizzor == g
      && ScizzorRects(f'.commands) == ScizzorRects(f.commands) + (if g != f.scizzor then [g] else [])
  {
    var g := RectToGlRect(p.scizzor, screenW, screenH);
    var f1 := UpdateScizzor(f, g);
    if g != f.scizzor {
      var c := Close(f.state, |f.vertices|);
      ScizzorRectsAppend(f.commands, c);
      ScizzorRectsAppend(f.commands + [c], Scizzor(g));
      assert f1.commands == f.commands + [c] + [Scizzor(g)];
    }
    DrawPrimitiveScizzors(f1, p.kind, imageMap);
  }

  /** Over a whole stream, the scissor commands are exactly the clip changes
      along the stream, and the clip in force at the end is the last one. */
  lemma {:induction false} RunScizzors(f: Frame, ps: seq<Render.Primitive>, screenW: u32, screenH: u32, imageMap: set<ImageId>)
    ensures var f' := Run(f, ps, screenW, screenH, imageMap);
      && f'.scizzor == Active(f.scizzor, Clips(ps, screenW, screenH))
      && ScizzorRects(f'.commands) == ScizzorRects(f.commands) + ClipChanges(f.scizzor, Clips(ps, screenW, screenH))
    decreases |ps|
  {
    if ps != [] {
      var init := ps[..|ps| - 1];
      RunScizzors(f, init, screenW, screenH, imageMap);
      StepScizzor(Run(f, init, screenW, screenH, imageMap), ps[|ps| - 1], screenW, screenH, imageMap);
      assert Clips(ps, screenW, screenH)[..|ps| - 1] == Clips(init, screenW, screenH);
    }
  }

  /** After `fill` the draw ranges tile the vertex buffer exactly (first from
      0, no gaps, no overlaps, last up to its length), every range holds whole
      triangles, no two neighbouring image commands draw the same image, every
      scissor command follows the range it closed, the list ends with a draw
      command, the vertices are those of the primitives in order and the
      scissor commands are exactly the clip changes from the full framebuffer. */
  lemma {:induction false} FillShape(ps: seq<Render.Primitive>, screenW: u32, screenH: u32, imageMap: set<ImageId>)
    ensures var cmds := FillCommands(ps, screenW, screenH, imageMap);
      var vs := FillVertices(ps, screenW, screenH, imageMap);
      && Tiles(DrawRanges(cmds), |vs|)
      && WholeTriangles(DrawRanges(cmds))
      && DistinctNeighbouringImages(cmds)
      && ScizzorsCloseRanges(cmds)
      && |cmds| > 0 && !cmds[|cmds| - 1].Scizzor?
      && vs == EmittedAll(ps, imageMap)
      && ScizzorRects(cmds) == ClipChanges(DefaultScizzor(screenW, screenH), Clips(ps, screenW, screenH))
  {
    var f0 := Initial(screenW, screenH);
    var f := Run(f0, ps, screenW, screenH, imageMap);
    var c := Close(f.state, |f.vertices|);
    assert FillCommands(ps, screenW, screenH, imageMap) == f.commands + [c];
    assert FillVertices(ps, screenW, screenH, imageMap) == f.vertices;
    RunKeepsInv(f0, ps, screenW, screenH, imageMap);
    CloseKeepsShape(f);
    RunVertices(f0, ps, screenW, screenH, imageMap);
    RunScizzors(f0, ps, screenW, screenH, imageMap);
    ScizzorRectsAppend(f.commands, c);
  }

  // ---------------------------------------------------------------------
  // Single transitions, as the batching promises them.

  /** An image primitive for the image already being drawn, under the same
      clip, extends the open range: no command, same state. */
  lemma {:induction false} SameImageExtends(f: Frame, p: Render.Primitive, screenW: u32, screenH: u32, imageMap: set<ImageId>)
    requires f.state.ImageState? && p.kind == Render.Image(f.state.imageId)
    requires RectToGlRect(p.scizzor, screenW, screenH) == f.scizzor
    ensures var f' := Step(f, p, screenW, screenH, imageMap);
      f'.commands == f.commands && f'.state == f.state && f'.scizzor == f.scizzor
  {
  }

  /** A run of image primitives for the image being drawn, all under the
      current clip, is one range: it adds no command and keeps the state. */
  lemma {:induction false} SameImageRunMerges(f: Frame, ps: seq<Render.Primitive>, screenW: u32, screenH: u32, imageMap: set<ImageId>)
    requires f.state.ImageState?
    requires forall k :: 0 <= k < |ps| ==>
      ps[k].kind == Render.Image(f.state.imageId) && RectToGlRect(ps[k].scizzor, screenW, screenH) == f.scizzor
    ensures var f' := Run(f, ps, screenW, screenH, imageMap);
      f'.commands == f.commands && f'.state == f.state && f'.scizzor == f.scizzor
    decreases |ps|
  {
    if ps != [] {
      var init := ps[..|ps| - 1];
      assert forall k :: 0 <= k < |init| ==> init[k] == ps[k];
      SameImageRunMerges(f, init, screenW, screenH, imageMap);
      SameImageExtends(Run(f, init, screenW, screenH, imageMap), ps[|ps| - 1], screenW, screenH, imageMap);
    }
  }

  /** A stream made only of one image, every primitive under the same clip
      `g`, leaves the loop in that image's state with the range opened at 0:
      after a clip change from the full framebuffer (if `g` is not it), only
      the empty `Plain(0..0)` is recorded. */
  lemma {:induction false} ImageStreamState(ps: seq<Render.Primitive>, id: ImageId, g: GlRect,
                                            screenW: u32, screenH: u32, imageMap: set<ImageId>)
    requires |ps| > 0
    requires forall k :: 0 <= k < |ps| ==>
      ps[k].kind == Render.Image(id) && RectToGlRect(ps[k].scizzor, screenW, screenH) == g
    ensures var f := Run(Initial(screenW, screenH), ps, screenW, screenH, imageMap);
      && f.commands == (if g == DefaultScizzor(screenW, screenH) then [] else [Plain(Range(0, 0)), Scizzor(g)])
                       + [Plain(Range(0, 0))]
      && f.state == ImageState(id, 0)
      && f.scizzor == g
    decreases |ps|
  {
    var f0 := Initial(screenW, screenH);
    var init := ps[..|ps| - 1];
    if init == [] {
      assert Run(f0, init, screenW, screenH, imageMap) == f0;
    } else {
      assert forall k :: 0 <= k < |init| ==> init[k] == ps[k];
      ImageStreamState(init, id, g, screenW, screenH, imageMap);
      SameImageExtends(Run(f0, init, screenW, screenH, imageMap), ps[|ps| - 1], screenW, screenH, imageMap);
    }
  }

  /** `fill` over a stream of one image under one clip records a single
      `Image` command holding every vertex of the stream: the whole run is
      merged into one draw. */
  lemma {:induction false} ImageStreamIsOneCommand(ps: seq<Render.Primitive>, id: ImageId, g: GlRect,
                                                   screenW: u32, screenH: u32, imageMap: set<ImageId>)
    requires |ps| > 0
    requires forall k :: 0 <= k < |ps| ==>
      ps[k].kind == Render.Image(id) && RectToGlRect(ps[k].scizzor, screenW, screenH) == g
    ensures FillCommands(ps, screenW, screenH, imageMap)
      == (if g == DefaultScizzor(screenW, screenH) then [] else [Plain(Range(0, 0)), Scizzor(g)])
         + [Plain(Range(0, 0)), Image(id, Range(0, |EmittedAll(ps, imageMap)|))]
  {
    ImageStreamState(ps, id, g, screenW, screenH, imageMap);
    RunVertices(Initial(screenW, screenH), ps, screenW, screenH, imageMap);
  }

  /** Under an unchanged clip, an image primitive arriving in another state
      closes the open range (plain, or another image) and opens one for its
      image at the current end of the buffer. */
  lemma {:induction false} OtherImageCloses(f: Frame, p: Render.Primitive, id: ImageId, screenW: u32, screenH: u32, imageMap: set<ImageId>)
    requires p.kind == Render.Image(id)
    requires !(f.state.ImageState? && f.state.imageId == id)
    requires RectToGlRect(p.scizzor, screenW, screenH) == f.scizzor
    ensures var f' := Step(f, p, screenW, screenH, imageMap);
      && f'.commands == f.commands + [Close(f.state, |f.vertices|)]
      && f'.state == ImageState(id, |f.vertices|)
      && f'.vertices == f.vertices + (if id in imageMap then Repeat(Vertex(MODE_IMAGE), 6) else [])
  {
  }

  /** An image missing from the image map still switches state (and closes the
      open range when it switches) but adds no vertex. */
  lemma {:induction false} MissingImageAddsNoVertex(f: Frame, p: Render.Primitive, screenW: u32, screenH: u32, imageMap: set<ImageId>)
    requires p.kind.Image? && p.kind.imageId !in imageMap
    ensures var f' := Step(f, p, screenW, screenH, imageMap);
      && f'.vertices == f.vertices
      && f'.state == ImageState(p.kind.imageId, f'.state.start)
  {
  }

  /** A clip change never keeps an image batch: the open range is closed, a
      scissor command follows, and the primitive finds the `Plain` state, so
      an image primitive for the same image closes an empty `Plain` range and
      opens a new image range. */
  lemma {:induction false} ClipChangeBreaksImageBatch(f: Frame, p: Render.Primitive, screenW: u32, screenH: u32, imageMap: set<ImageId>)
    requires f.state.ImageState? && p.kind == Render.Image(f.state.imageId)
    requires RectToGlRect(p.scizzor, screenW, screenH) != f.scizzor
    ensures var g := RectToGlRect(p.scizzor, screenW, screenH);
      var n := |f.vertices|;
      var f' := Step(f, p, screenW, screenH, imageMap);
      && f'.commands == f.commands + [Image(f.state.imageId, Range(f.state.start, n)), Scizzor(g), Plain(Range(n, n))]
      && f'.state == ImageState(f.state.imageId, n)
  {
  }

  /** Under a clip change a step first closes the open range at the end `n`
      of the buffer and records the new scissor. Whatever it records after
      that is the empty `Plain(n..n)` an image primitive closes, and the range
      left open starts at `n`: the primitive's own vertices, which start at
      `n`, are drawn after the scissor command. */
  lemma {:induction false} ClipChangeDrawsAfterScizzor(f: Frame, p: Render.Primitive, screenW: u32, screenH: u32, imageMap: set<ImageId>)
    requires RectToGlRect(p.scizzor, screenW, screenH) != f.scizzor
    ensures var g := RectToGlRect(p.scizzor, screenW, screenH);
      var n := |f.vertices|;
      var prefix := f.commands + [Close(f.state, n), Scizzor(g)];
      var f' := Step(f, p, screenW, screenH, imageMap);
      && |prefix| <= |f'.commands| && f'.commands[..|prefix|] == prefix
      && (forall k :: |prefix| <= k < |f'.commands| ==> f'.commands[k] == Plain(Range(n, n)))
      && f'.state.start == n
      && f'.vertices == f.vertices + Emitted(p.kind, imageMap)
      && f'.scizzor == g
  {
    var g := RectToGlRect(p.scizzor, screenW, screenH);
    var n := |f.vertices|;
    var prefix := f.commands + [Close(f.state, n), Scizzor(g)];
    var f1 := UpdateScizzor(f, g);
    assert f1 == Frame(prefix, f.vertices, PlainState(n), g);
    var f2 := SwitchFor(f1, p.kind);
    assert f2.commands == prefix || f2.commands == prefix + [Plain(Range(n, n))];
    assert f2.commands[..|prefix|] == prefix;
  }

  /** An empty triangle list, and a primitive of another kind, only goes
      through the scissor check: no vertices, no command, no state change. */
  lemma {:induction false} SkippedPrimitive(f: Frame, p: Render.Primitive, screenW: u32, screenH: u32, imageMap: set<ImageId>)
    requires p.kind == Render.TrianglesSingleColor(0) || p.kind == Render.TrianglesMultiColor(0) || p.kind == Render.Other
    ensures Step(f, p, screenW, screenH, imageMap) == UpdateScizzor(f, RectToGlRect(p.scizzor, screenW, screenH))
    ensures RectToGlRect(p.scizzor, screenW, screenH) == f.scizzor ==> Step(f, p, screenW, screenH, imageMap) == f
  {
  }

  /** Geometry and text primitives close an open image range and draw plainly. */
  lemma {:induction false} GeometryAndTextArePlain(f: Frame, p: Render.Primitive, screenW: u32, screenH: u32, imageMap: set<ImageId>)
    requires p.kind.Rectangle? || p.kind.Text? ||
             (p.kind.TrianglesSingleColor? && p.kind.triangles > 0) ||
             (p.kind.TrianglesMultiColor? && p.kind.triangles > 0)
    ensures Step(f, p, screenW, screenH, imageMap).state.PlainState?
  {
  }

  /** A text run contributes six vertices per glyph when every glyph was
      placed, and strictly fewer as soon as one was not. */
  lemma {:induction false} TextVertices(placed: seq<bool>, imageMap: set<ImageId>)
    ensures |Emitted(Render.Text(placed), imageMap)| <= 6 * |placed|
    ensures |Emitted(Render.Text(placed), imageMap)| == 6 * |placed| <==> forall k :: 0 <= k < |placed| ==> placed[k]
  {
  }

  /** The vertex mode of every primitive kind. */
  lemma {:induction false} EmittedModes(kind: Render.PrimitiveKind, imageMap: set<ImageId>)
    ensures kind.Rectangle? || kind.TrianglesSingleColor? || kind.TrianglesMultiColor? ==>
      forall v :: v in Emitted(kind, imageMap) ==> v.mode == MODE_GEOMETRY
    ensures kind.Text? ==> forall v :: v in Emitted(kind, imageMap) ==> v.mode == MODE_TEXT
    ensures kind.Image? ==> forall v :: v in Emitted(kind, imageMap) ==> v.mode == MODE_IMAGE
    ensures kind.Other? ==> Emitted(kind, imageMap) == []
  {
  }

  /** A clip covering at least the framebuffer maps to the default scissor, so
      it emits no scissor command at the start of a frame. */
  lemma {:induction false} FullWindowClip(r: Render.RoundedRect, screenW: u32, screenH: u32)
    requires r.left == 0 && r.bottom == 0 && r.width >= screenW && r.height >= screenH
    ensures RectToGlRect(r, screenW, screenH) == DefaultScizzor(screenW, screenH)
  {
  }
}
