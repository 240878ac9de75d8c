/** The renderer: `fill` translates a primitive stream into the frame's
    vertex buffer and prepared commands, `commands` iterates over them and
    `draw` submits them. GL calls are recorded as a log of `GlCall`s. */
module GlowRenderer {
  import opened GlTypes
  import opened Batching
  import Render
  import CommandIter
  import Attribution

  /** The texture a draw call is bound to. */
  datatype Texture = GlyphTexture | ImageTexture(imageId: ImageId) | NoTexture

  /** The GL calls `draw` makes that depend on the commands: set the scissor
      rectangle, or draw a slice of vertices as triangles with a texture. */
  datatype GlCall =
    | SetScissor(rect: GlRect)
    | DrawTriangles(texture: Texture, vertices: seq<Vertex>)

  const NUM_VERTICES_IN_TRIANGLE: nat := 3

  /** What `draw` submits for one command: slices shorter than a triangle are
      skipped; an image draw binds the image's texture, or none when the image
      is not in the map. */
  function Submit(c: CommandIter.Command, imageMap: set<ImageId>): seq<GlCall> {
    match c
    case Scizzor(rect) => [SetScissor(rect)]
    case Draw(d) =>
      if |d.slice| < NUM_VERTICES_IN_TRIANGLE then []
      else if d.Plain? then [DrawTriangles(GlyphTexture, d.slice)]
      else [DrawTriangles(if d.imageId in imageMap then ImageTexture(d.imageId) else NoTexture, d.slice)]
  }

  function SubmitAll(cs: seq<CommandIter.Command>, imageMap: set<ImageId>): seq<GlCall> {
    if cs == [] then []
    else SubmitAll(cs[..|cs| - 1], imageMap) + Submit(cs[|cs| - 1], imageMap)
  }

  /** The vertex slices of the draw calls, in order. */
  function SubmittedSlices(calls: seq<GlCall>): seq<seq<Vertex>> {
    if calls == [] then []
    else
      var last := calls[|calls| - 1];
      SubmittedSlices(calls[..|calls| - 1]) + (if last.DrawTriangles? then [last.vertices] else [])
  }

  lemma {:induction false} SubmittedSlicesAppend(calls: seq<GlCall>, more: seq<GlCall>)
    ensures SubmittedSlices(calls + more) == SubmittedSlices(calls) + SubmittedSlices(more)
    decreases |more|
  {
    if more == [] {
      assert calls + more == calls;
    } else {
      var init := more[..|more| - 1];
      assert calls + more == (calls + init) + [more[|more| - 1]];
      assert (calls + more)[..|calls + more| - 1] == calls + init;
      SubmittedSlicesAppend(calls, init);
    }
  }

  /** Every draw call `draw` makes holds at least one whole triangle when
      every slice does. */
  lemma {:induction false} SubmittedWhole(cs: seq<CommandIter.Command>, imageMap: set<ImageId>)
    requires forall s :: s in CommandIter.DrawnSlices(cs) ==> |s| % 3 == 0
    ensures forall c :: c in SubmitAll(cs, imageMap) && c.DrawTriangles? ==> |c.vertices| >= 3 && |c.vertices| % 3 == 0
    decreases |cs|
  {
    if cs != [] {
      var init := cs[..|cs| - 1];
      var last := cs[|cs| - 1];
      var ds := CommandIter.DrawnSlices(init);
      assert CommandIter.DrawnSlices(cs) == ds + (if last.Draw? then [last.draw.slice] else []);
      SubmittedWhole(init, imageMap);
      if last.Draw? {
        assert last.draw.slice in CommandIter.DrawnSlices(cs);
      }
    }
  }

  /** When every slice holds whole triangles, the length filter only drops
      empty slices: the submitted vertices are all the drawn vertices. */
  lemma {:induction false} SubmitLosesNothing(cs: seq<CommandIter.Command>, imageMap: set<ImageId>)
    requires forall s :: s in CommandIter.DrawnSlices(cs) ==> |s| % 3 == 0
    ensures CommandIter.Flatten(SubmittedSlices(SubmitAll(cs, imageMap))) == CommandIter.Flatten(CommandIter.DrawnSlices(cs))
    decreases |cs|
  {
    if cs != [] {
      var init := cs[..|cs| - 1];
      var last := cs[|cs| - 1];
      var ds := CommandIter.DrawnSlices(init);
      var tail := if last.Draw? then [last.draw.slice] else [];
      assert CommandIter.DrawnSlices(cs) == ds + tail;
      assert forall s :: s in ds ==> s in ds + tail;
      SubmitLosesNothing(init, imageMap);
      SubmitStep(init, last, imageMap);
    }
  }

  lemma {:induction false} SubmitStep(init: seq<CommandIter.Command>, last: CommandIter.Command, imageMap: set<ImageId>)
    requires last.Draw? ==> |last.draw.slice| % 3 == 0
    requires CommandIter.Flatten(SubmittedSlices(SubmitAll(init, imageMap))) == CommandIter.Flatten(CommandIter.DrawnSlices(init))
    ensures CommandIter.Flatten(SubmittedSlices(SubmitAll(init + [last], imageMap))) ==
      CommandIter.Flatten(CommandIter.DrawnSlices(init + [last]))
  {
    var cs := init + [last];
    assert cs[..|cs| - 1] == init;
    var ds := CommandIter.DrawnSlices(init);
    var done := SubmitAll(init, imageMap);
    var sub := Submit(last, imageMap);
    assert SubmitAll(cs, imageMap) == done + sub;
    SubmittedSlicesAppend(done, sub);
    if last.Draw? {
      assert CommandIter.DrawnSlices(cs) == ds + [last.draw.slice];
      CommandIter.FlattenAppend(ds, last.draw.slice);
      if |last.draw.slice| < 3 {
        assert last.draw.slice == [];
        assert SubmittedSlices(sub) == [];
        assert done + [] == done;
      } else {
        assert SubmittedSlices(sub) == SubmittedSlices([]) + [last.draw.slice];
        CommandIter.FlattenAppend(SubmittedSlices(done), last.draw.slice);
      }
    } else {
      assert CommandIter.DrawnSlices(cs) == ds + [] == ds;
      assert sub == [SetScissor(last.rect)] && sub[..0] == [];
      assert SubmittedSlices(sub) == SubmittedSlices([]) + [] == [];
      assert SubmittedSlices(done) + [] == SubmittedSlices(done);
    }
  }

  /** The renderer's CPU-side buffers. `Valid` holds between calls to `Fill`.
      `SwitchToPlainState`, `PushTriangles`, `PushQuad`, `PushGlyphs`,
      `DrawKind` and `FillPrimitive` are helpers of `Fill` (macros and inline
      code of `fill` in the source); they run while the open range is not yet
      a command, so they neither need nor keep `Valid`. */
  class Renderer {
    /** The prepared commands of the last filled frame. */
    var commands: seq<PreparedCommand>
    /** The vertex buffer of the last filled frame. */
    var vertices: seq<Vertex>

    /** The draw ranges tile the vertex buffer in whole triangles. */
    ghost predicate Valid()
      reads this
    {
      Tiles(DrawRanges(commands), |vertices|) && WholeTriangles(DrawRanges(commands))
    }

    /** `Renderer::new` after the GL objects are created: empty buffers. */
    constructor ()
      ensures commands == [] && vertices == [] && Valid()
    {
      commands := [];
      vertices := [];
    }

    /** `Renderer::commands`: the command iterator over this frame. */
    function Commands(): (cs: seq<CommandIter.Command>)
      reads this
      requires Valid()
      ensures |cs| == |commands|
      ensures CommandIter.Flatten(CommandIter.DrawnSlices(cs)) == vertices
    {
      CommandIter.SlicesRebuild(commands, vertices, |vertices|);
      CommandIter.Commands(commands, vertices)
    }

    /** `switch_to_plain_state!`: close an `Image` range and open a `Plain` one. */
    method SwitchToPlainState(state: DrawState) returns (next: DrawState)
      modifies this
      ensures vertices == old(vertices)
      ensures state.PlainState? ==> commands == old(commands) && next == state
      ensures state.ImageState? ==>
        commands == old(commands) + [Image(state.imageId, Range(state.start, |vertices|))] &&
        next == PlainState(|vertices|)
    {
      match state
      case PlainState(_) =>
        next := state;
      case ImageState(imageId, start) =>
        commands := commands + [Image(imageId, Range(start, |vertices|))];
        next := PlainState(|vertices|);
    }

    /** Push three vertices with mode `mode` for each of `n` triangles. */
    method PushTriangles(n: nat, mode: u32)
      modifies this
      ensures commands == old(commands)
      ensures vertices == old(vertices) + Repeat(Vertex(mode), 3 * n)
    {
      var v := Vertex(mode);
      for t := 0 to n
        invariant commands == old(commands)
        invariant vertices == old(vertices) + Repeat(v, 3 * t)
      {
        RepeatGrow(v, 3 * t, 3);
        vertices := vertices + [v, v, v];
      }
    }

    /** Push a quad (two triangles) of mode `mode`. */
    method PushQuad(mode: u32)
      modifies this
      ensures commands == old(commands)
      ensures vertices == old(vertices) + Repeat(Vertex(mode), 6)
    {
      var v := Vertex(mode);
      // bottom-left triangle
      vertices := vertices + [v, v, v];
      // top-right triangle
      vertices := vertices + [v, v, v];
      assert Repeat(v, 6) == [v, v, v] + [v, v, v];
    }

    /** Push a text quad for every glyph the cache placed. */
    method PushGlyphs(placed: seq<bool>)
      modifies this
      ensures commands == old(commands)
      ensures vertices == old(vertices) + Repeat(Vertex(MODE_TEXT), 6 * Placed(placed))
    {
      var v := Vertex(MODE_TEXT);
      for g := 0 to |placed|
        invariant commands == old(commands)
        invariant vertices == old(vertices) + Repeat(v, 6 * Placed(placed[..g]))
      {
        assert placed[..g + 1][..g] == placed[..g];
        if placed[g] {
          RepeatGrow(v, 6 * Placed(placed[..g]), 6);
          PushQuad(MODE_TEXT);
        }
      }
      assert placed[..|placed|] == placed;
    }

    /** The `match kind` of one loop iteration: switch the draw state and
        push the primitive's vertices. */
    method DrawKind(state: DrawState, kind: Render.PrimitiveKind, imageMap: set<ImageId>, ghost scizzor: GlRect)
      returns (next: DrawState)
      modifies this
      ensures Frame(commands, vertices, next, scizzor) ==
        DrawPrimitive(Frame(old(commands), old(vertices), state, scizzor), kind, imageMap)
    {
      ghost var before := Frame(commands, vertices, state, scizzor);
      next := state;
      match kind {
        case Rectangle =>
          next := SwitchToPlainState(state);
          PushQuad(MODE_GEOMETRY);
        case TrianglesSingleColor(n) =>
          if n != 0 {
            next := SwitchToPlainState(state);
            PushTriangles(n, MODE_GEOMETRY);
          }
        case TrianglesMultiColor(n) =>
          if n != 0 {
            next := SwitchToPlainState(state);
            PushTriangles(n, MODE_GEOMETRY);
          }
        case Text(placed) =>
          next := SwitchToPlainState(state);
          PushGlyphs(placed);
        case Image(newImageId) =>
          match state {
            case ImageState(imageId, start) =>
              if imageId != newImageId {
                commands := commands + [Image(imageId, Range(start, |vertices|))];
                next := ImageState(newImageId, |vertices|);
              }
            case PlainState(start) =>
              commands := commands + [Plain(Range(start, |vertices|))];
              next := ImageState(newImageId, |vertices|);
          }
          assert Frame(commands, vertices, next, scizzor) == SwitchFor(before, kind);
          if newImageId in imageMap {
            PushQuad(MODE_IMAGE);
          }
        case Other =>
      }
    }

    /** One iteration of the batching loop: the scissor check, then the
        primitive's kind. */
    method FillPrimitive(state: DrawState, scizzor: GlRect, primitive: Render.Primitive,
                         screenW: u32, screenH: u32, imageMap: set<ImageId>)
      returns (nextState: DrawState, nextScizzor: GlRect)
      modifies this
      ensures Frame(commands, vertices, nextState, nextScizzor) ==
        Step(Frame(old(commands), old(vertices), state, scizzor), primitive, screenW, screenH, imageMap)
    {
      nextState, nextScizzor := state, scizzor;
      var newScizzor := RectToGlRect(primitive.scizzor, screenW, screenH);
      if newScizzor != nextScizzor {
        // Finish the current command, then record the new scissor.
        commands := commands + [Close(nextState, |vertices|)];
        nextScizzor := newScizzor;
        commands := commands + [Scizzor(newScizzor)];
        nextState := PlainState(|vertices|);
      }
      nextState := DrawKind(nextState, primitive.kind, imageMap, nextScizzor);
    }

    /** `Renderer::fill`: clear both buffers, then walk the primitives once,
        closing a range and emitting a scissor command at every clip change,
        extending one range over a run of the same image, and closing the
        open range at the end. The result is the batching `FillCommands` /
        `FillVertices`, so the ranges tile the buffer in whole triangles, the
        vertices are those of the primitives in order, neighbouring image
        commands differ, and the scissor commands are exactly the clip
        changes. */
    method Fill(screenW: u32, screenH: u32, primitives: seq<Render.Primitive>, imageMap: set<ImageId>)
      modifies this
      ensures commands == FillCommands(primitives, screenW, screenH, imageMap)
      ensures vertices == FillVertices(primitives, screenW, screenH, imageMap)
      ensures Valid()
      ensures vertices == EmittedAll(primitives, imageMap)
      ensures DistinctNeighbouringImages(commands) && ScizzorsCloseRanges(commands)
      ensures ScizzorRects(commands) == ClipChanges(DefaultScizzor(screenW, screenH), Clips(primitives, screenW, screenH))
      ensures Attribution.DrawnAsAsked(commands, Attribution.Tags(primitives, screenW, screenH, imageMap), DefaultScizzor(screenW, screenH))
      ensures Attribution.CutsAt(commands, Attribution.Boundaries(primitives, imageMap))
    {
      commands := [];
      vertices := [];
      var currentState := PlainState(0);
      var currentScizzor := GlRect(0, 0, screenW, screenH);
      var i := 0;
      while i < |primitives|
        invariant 0 <= i <= |primitives|
        invariant Frame(commands, vertices, currentState, currentScizzor) ==
          Run(Initial(screenW, screenH), primitives[..i], screenW, screenH, imageMap)
      {
        assert primitives[..i + 1][..i] == primitives[..i];
        currentState, currentScizzor := FillPrimitive(currentState, currentScizzor, primitives[i], screenW, screenH, imageMap);
        i := i + 1;
      }
      assert primitives[..i] == primitives;
      // Enter the final command.
      commands := commands + [Close(currentState, |vertices|)];
      FillShape(primitives, screenW, screenH, imageMap);
      Attribution.FillDrawsAsAsked(primitives, screenW, screenH, imageMap);
      Attribution.FillCuts(primitives, screenW, screenH, imageMap);
    }

    /** `Renderer::draw`: walk the commands, set the scissor rectangle or
        draw each slice of at least one triangle with its texture. Every
        vertex of the frame is submitted exactly once, in order, each draw
        call holds whole triangles, and nothing but the filter's empty slices
        is skipped. */
    method Draw(imageMap: set<ImageId>) returns (calls: seq<GlCall>)
      requires Valid()
      ensures calls == SubmitAll(Commands(), imageMap)
      ensures CommandIter.Flatten(SubmittedSlices(calls)) == vertices
      ensures forall c :: c in calls && c.DrawTriangles? ==> |c.vertices| >= NUM_VERTICES_IN_TRIANGLE && |c.vertices| % 3 == 0
    {
      var cs := Commands();
      calls := [];
      for i := 0 to |cs|
        invariant calls == SubmitAll(cs[..i], imageMap)
      {
        assert cs[..i + 1][..i] == cs[..i];
        match cs[i] {
          case Scizzor(rect) =>
            calls := calls + [SetScissor(rect)];
          case Draw(draw) =>
            match draw {
              case Plain(slice) =>
                if |slice| >= NUM_VERTICES_IN_TRIANGLE {
                  calls := calls + [DrawTriangles(GlyphTexture, slice)];
                }
              case Image(imageId, slice) =>
                if |slice| >= NUM_VERTICES_IN_TRIANGLE {
                  if imageId in imageMap {
                    calls := calls + [DrawTriangles(ImageTexture(imageId), slice)];
                  } else {
                    calls := calls + [DrawTriangles(NoTexture, slice)];
                  }
                }
            }
        }
      }
      assert cs[..|cs|] == cs;
      CommandIter.SlicesRebuild(commands, vertices, |vertices|);
      CommandIter.SlicesWholeTriangles(commands, vertices);
      SubmitLosesNothing(cs, imageMap);
      SubmittedWhole(cs, imageMap);
    }
  }
}
