# Batching in the conrod glow backend

This project models how the conrod OpenGL (glow) backend turns a frame's
render primitives into GPU work. `Renderer::fill` walks the primitives in
depth order. It appends vertices to one vertex buffer and records a list of
prepared commands:

- `Plain(range)` draws a vertex range with the glyph-cache texture. It is
  used for plain geometry and for text.
- `Image(id, range)` draws a vertex range with the texture of image `id`.
- `Scizzor(rect)` changes the scissor rectangle.

Consecutive primitives that share a draw state are merged into one range. A
clip change always closes the open range and records a scissor command.
`Renderer::commands` turns each prepared command into a `Command` that holds
its slice of the vertex buffer. `Renderer::draw` submits every slice that holds
at least one triangle.

Files:

- `gl_types.dfy`: the scissor rectangle, the vertex, ranges, prepared commands,
  and the shape predicates (`Tiles`, `WholeTriangles`,
  `DistinctNeighbouringImages`, `ScizzorsCloseRanges`).
- `render.dfy`: the part of a render primitive that the batching reads.
- `batching.dfy`: the batching loop as pure transitions.
  - `Step` is one iteration: the scissor check (`UpdateScizzor`), the state
    switch (`SwitchFor`, `SwitchToPlain`, `SwitchToImage`) and the vertex
    push (`Emitted`).
  - `Run` is the loop and `FillCommands`/`FillVertices` are its result.
  - It also holds the frame invariant `Inv` and the lemmas about it.
- `attribution.dfy`: what every vertex is drawn with.
  - `Tags` is a per-vertex reference list: the texture kind and clip asked for by the primitive that emitted each vertex.
  - The batching is proved to draw each vertex with that texture and under that scissor.
  - It also proves that draw ranges start and end only at primitive boundaries.
- `commands.dfy`: the `Commands` iterator.
- `renderer.dfy`: the class `Renderer` with its `commands` and `vertices`
  buffers.
  - `Fill` is the imperative loop, proved equal to `Run`.
  - `Draw` is the submission loop, which returns the list of GL calls it
    makes.
- `scenarios.dfy`: small concrete frames on an 800x600 framebuffer.

## Model

| member | source | states |
|---|---|---|
| GlowRenderer.Renderer.Fill | src/conrod_glow.rs:589-965 | After `fill`, the buffers are exactly the batching result. The draw ranges tile the vertex buffer, each range holds a multiple of 3 vertices, and the vertices are those of the primitives in stream order. No two neighbouring commands draw the same image. The scissor commands are exactly the clip changes, starting from the full framebuffer. Every vertex is drawn by a command with the texture its primitive asked for, under the scissor its primitive asked for. Every draw range starts and ends at a primitive boundary. |
| Batching.FillShape | src/conrod_glow.rs:606-964 | For any primitive stream, the recorded ranges cover 0..len in order, with no gap and no overlap. Every range holds whole triangles. No two neighbouring commands draw the same image (merging a run of one image is `Batching.SameImageRunMerges` and `Batching.ImageStreamIsOneCommand`). Every scissor command follows the range it closed. The list ends with a draw command (the final flush). The vertices are the concatenation of each primitive's vertices. The scissor rectangles are the clip changes. |
| Batching.Initial | src/conrod_glow.rs:606-648 | The frame `fill` starts from: empty buffers, `Plain` from 0, and the full framebuffer as scissor. It has no contract; `Batching.FullWindowClip` shows that a full-window clip maps to its scissor, and `Batching.FillShape` carries the properties of the loop run from it. |
| Batching.Close | src/conrod_glow.rs:958-964 | The command that closes the open range. It has no contract; `Batching.CloseKeepsShape` carries its property. |
| Batching.SwitchToPlain | src/conrod_glow.rs:618-630 | `switch_to_plain_state!` on frames. It has no contract; `GlowRenderer.Renderer.SwitchToPlainState` is proved to compute it, and `Batching.GeometryAndTextArePlain` carries its property. |
| Batching.UpdateScizzor | src/conrod_glow.rs:673-694 | The scissor check. It has no contract; `Batching.StepScizzor`, `Batching.ClipChangeDrawsAfterScizzor` and `Batching.RunScizzors` carry its properties. |
| Batching.SwitchToImage | src/conrod_glow.rs:876-899 | The switch to an image's state. It has no contract; `Batching.SameImageExtends`, `Batching.OtherImageCloses` and `Batching.SameImageRunMerges` carry its properties. |
| Batching.Skipped | src/conrod_glow.rs:726-729 | The kinds `fill` passes over after the scissor check: empty single- and multi-colour triangle lists (the `continue`s at 727-729 and 750-752) and `Other` (954). It has no contract; `Batching.SkippedPrimitive` carries its property. |
| Batching.SwitchFor | src/conrod_glow.rs:696-899 | The per-kind draw-state switch (698, 731, 754, 775, 876-899). It has no contract; `Batching.SwitchForKeepsInv` and `Attribution.SwitchForAsked` carry its properties, and `Batching.GeometryAndTextArePlain`, `Batching.SameImageExtends` and `Batching.OtherImageCloses` give its outcome per kind. |
| Batching.DrawPrimitive | src/conrod_glow.rs:696-955 | The `match kind` of one iteration: the state switch, then the push of the kind's vertices. It has no contract; `Batching.DrawPrimitiveKeepsInv` and `Batching.DrawPrimitiveScizzors` carry its properties, and `GlowRenderer.Renderer.DrawKind` is proved to compute it. |
| Batching.Step | src/conrod_glow.rs:665-955 | One loop iteration. It has no contract; `Batching.StepKeepsInv`, `Batching.StepScizzor` and `Attribution.StepAsked` carry its properties, and `GlowRenderer.Renderer.FillPrimitive` is proved to compute it. |
| Batching.Run | src/conrod_glow.rs:665-956 | The whole loop. It has no contract; `Batching.RunKeepsInv`, `Batching.RunVertices`, `Batching.RunScizzors`, `Attribution.RunAsked` and `Attribution.RunCut` carry its properties. |
| Batching.FillCommands | src/conrod_glow.rs:606-964 | The command list `fill` leaves. It has no contract; `Batching.FillShape`, `Attribution.FillDrawsAsAsked` and `Attribution.FillCuts` carry its properties. |
| Batching.FillVertices | src/conrod_glow.rs:606-955 | The vertex buffer `fill` leaves. It has no contract; `Batching.FillShape` carries its property (it is `EmittedAll` of the stream). |
| Attribution.StepAsked | src/conrod_glow.rs:673-955 | One iteration keeps every vertex attributed. Closed draw commands hold only vertices whose primitive asked for the command's texture and for the scissor last recorded before it. The open range holds only vertices asking for the state's texture and the current scissor. |
| Attribution.RunAsked | src/conrod_glow.rs:665-956 | The loop keeps that attribution for the whole stream, against the reference per-vertex list `Tags` (the texture kind and clamped clip of the primitive that emitted each vertex). |
| Attribution.FillDrawsAsAsked | src/conrod_glow.rs:606-964 | After `fill`, every vertex of a `Plain` command comes from a primitive that asked for the glyph-cache texture, and every vertex of an `Image(id)` command from one that asked for image `id`. Its clip is the scissor last recorded before the command, or the full framebuffer when none was. |
| Attribution.ModesFollowTags | src/conrod_glow.rs:696-954 | A vertex has the image mode exactly when its primitive asked for an image texture. |
| Attribution.FillImageModes | src/conrod_glow.rs:606-964 | After `fill`, every vertex of an `Image` command has mode IMAGE, and no vertex of a `Plain` command has it. |
| Attribution.StepCut | src/conrod_glow.rs:665-955 | One iteration closes ranges only at the buffer's current end, which is a primitive boundary. |
| Attribution.RunCut | src/conrod_glow.rs:665-956 | Over the loop, every closed range and the open range start and end at primitive boundaries. |
| Attribution.FillCuts | src/conrod_glow.rs:606-964 | After `fill`, every draw range starts and ends at a primitive boundary. |
| Attribution.FillKeepsPrimitivesWhole | src/conrod_glow.rs:606-964 | After `fill`, a draw command that holds a primitive's first vertex holds all of that primitive's vertices: no primitive is split between two draw calls. |
| Batching.RunKeepsInv | src/conrod_glow.rs:665-956 | The loop preserves the frame invariant: closed ranges tile up to the open range's start, all ranges hold whole triangles, neighbouring images differ, and scissors close ranges. |
| Batching.StepKeepsInv | src/conrod_glow.rs:673-955 | One iteration (the scissor check, then the kind's state switch and vertex push) preserves the invariant. |
| Batching.CloseKeepsShape | src/conrod_glow.rs:958-964 | The final flush of a frame satisfying the invariant gives a command list whose ranges tile the whole vertex buffer in whole triangles. That list keeps neighbouring images distinct and scissors closing ranges, and it ends with a draw command. |
| Batching.RunVertices | src/conrod_glow.rs:696-955 | The loop appends to the vertex buffer exactly the vertices of the primitives, in stream order. |
| Batching.StepScizzor | src/conrod_glow.rs:673-694 | A step records a scissor command if and only if the primitive's clip differs from the current one. That command holds the new clip, which becomes current. |
| Batching.RunScizzors | src/conrod_glow.rs:643-694 | After the loop, the current scissor is the last primitive's clip (or the initial one), and the scissor commands recorded are exactly the clip changes. |
| Batching.ClipChangeDrawsAfterScizzor | src/conrod_glow.rs:675-693 | Under a clip change, a step first closes the open range at the buffer's end `n` and records the new scissor. The only command it can record after that is the empty `Plain(n..n)` an image primitive closes. The range left open starts at `n`. So the primitive's vertices are drawn after the scissor command, and the new clip is current. |
| Batching.ClipChangeBreaksImageBatch | src/conrod_glow.rs:674-899 | The same image under a new clip is not batched: the image range is closed, the scissor is recorded, and an empty `Plain` range is closed before the image range reopens. |
| Batching.RectToGlRect | src/conrod_glow.rs:650-662 | The clamped scissor keeps left and bottom. Its width is at most the framebuffer width and at most the requested width, and equals one of them; the same holds for height. |
| Batching.FullWindowClip | src/conrod_glow.rs:643-662 | A clip covering the framebuffer maps to the default scissor (the whole framebuffer), so it records no scissor command. |
| Batching.SameImageExtends | src/conrod_glow.rs:878-880 | An image primitive for the image being drawn, under the same clip, adds no command and keeps the state. |
| Batching.SameImageRunMerges | src/conrod_glow.rs:876-899 | A whole run of such primitives adds no command and keeps the state: the run is one range. |
| Batching.OtherImageCloses | src/conrod_glow.rs:878-899 | Under an unchanged clip, an image primitive in the `Plain` state, or in another image's state, closes the open range and opens a range for its image at the end of the buffer. It adds six image vertices exactly when the image is in the map. |
| Batching.ImageStreamState | src/conrod_glow.rs:665-899 | A stream of one image, all under one clip, leaves the loop in that image's state opened at 0. Only the empty `Plain(0..0)` is recorded, after a scissor command when the clip is not the full framebuffer. |
| Batching.ImageStreamIsOneCommand | src/conrod_glow.rs:589-964 | `fill` over such a stream records exactly one `Image` command, and it holds every vertex of the stream (after `Plain(0..0)`, and the scissor when the clip changes). |
| Batching.MissingImageAddsNoVertex | src/conrod_glow.rs:876-903 | An image that is not in the image map still switches the state to that image but adds no vertex. |
| Batching.SkippedPrimitive | src/conrod_glow.rs:726-729 | Empty triangle lists (single or multi colour) and `Other` primitives go through the scissor check only. Under an unchanged clip they leave the frame as it was. |
| Batching.GeometryAndTextArePlain | src/conrod_glow.rs:696-869 | Rectangles, non-empty triangle lists and text end in the `Plain` state. |
| Batching.EmittedModes | src/conrod_glow.rs:696-954 | The vertices of rectangles and triangles have mode GEOMETRY (2), text vertices have TEXT (0) and image vertices have IMAGE (1). `Other` emits nothing. |
| Batching.Emitted | src/conrod_glow.rs:715-949 | Every primitive contributes a multiple of 3 vertices. |
| Batching.TextVertices | src/conrod_glow.rs:833-868 | A text run contributes at most six vertices per glyph. It contributes exactly six per glyph if and only if the glyph cache placed every glyph. |
| Batching.Placed | src/conrod_glow.rs:833-834 | The number of placed glyphs is at most the number of glyphs. It equals that number if and only if every glyph was placed. |
| GlowRenderer.Renderer.SwitchToPlainState | src/conrod_glow.rs:618-630 | In the `Plain` state nothing changes. In an `Image` state the image range is closed at the end of the buffer and `Plain` opens there. |
| GlowRenderer.Renderer.PushTriangles | src/conrod_glow.rs:742-746 | Pushes three vertices of the given mode per triangle and touches no command. |
| GlowRenderer.Renderer.PushGlyphs | src/conrod_glow.rs:833-868 | Pushes one six-vertex text quad per placed glyph. |
| GlowRenderer.Renderer.constructor | src/conrod_glow.rs:565-572 | A new renderer has no commands and no vertices, and its (empty) ranges tile its (empty) buffer. |
| GlowRenderer.Renderer.PushQuad | src/conrod_glow.rs:715-723 | Pushes six vertices (two triangles) of the given mode and touches no command. The same push serves images (src/conrod_glow.rs 941-949) and each glyph. |
| GlowRenderer.Renderer.DrawKind | src/conrod_glow.rs:696-955 | The `match kind` of one iteration on the renderer's buffers computes the batching `DrawPrimitive`: the state switch, then the push of the primitive's vertices. |
| GlowRenderer.Renderer.FillPrimitive | src/conrod_glow.rs:665-955 | One loop iteration on the renderer's buffers computes the batching `Step`. |
| CommandIter.Next | src/conrod_glow.rs:1089-1097 | The `match *command` of `Commands::next` on one prepared command. It has no contract; `CommandIter.CommandsAt` carries its property (same scissor rect, or same kind, image id and `vertices[range]`). |
| CommandIter.Commands | src/conrod_glow.rs:1082-1099 | The iterator yields one item per prepared command. `CommandIter.CommandsAt` and `CommandIter.SlicesAreRanges` carry what each item is. |
| GlowRenderer.Submit | src/conrod_glow.rs:1005-1061 | What `draw` does for one command. It has no contract; `GlowRenderer.SubmitLosesNothing`, `GlowRenderer.SubmittedWhole` and `GlowRenderer.Renderer.Draw` carry its properties. |
| GlowRenderer.SubmitAll | src/conrod_glow.rs:1004-1063 | `draw`'s walk over all commands. It has no contract; `GlowRenderer.Renderer.Draw` is proved to compute it, and `GlowRenderer.SubmitLosesNothing` carries its property. |
| CommandIter.CommandsAt | src/conrod_glow.rs:1082-1099 | The iterator's k-th item is `next` of the k-th prepared command. A `Scizzor` becomes a scissor change to the same rectangle. A `Plain` or `Image(id)` command becomes a draw of the same kind and image whose slice is exactly `vertices[range]`. |
| CommandIter.SlicesAreRanges | src/conrod_glow.rs:1082-1099 | The k-th drawn slice is `vertices[range]` of the k-th draw command: nothing is shifted, dropped or added. |
| CommandIter.SlicesRebuild | src/conrod_glow.rs:1082-1099 | When the ranges tile 0..n, every range is in bounds (slicing cannot panic), and the drawn slices concatenate to the first n vertices. |
| GlowRenderer.Renderer.Commands | src/conrod_glow.rs:575-586 | The iterator over a filled frame yields one item per command, and its slices concatenate to the whole vertex buffer. |
| GlowRenderer.Renderer.Draw | src/conrod_glow.rs:1004-1063 | The calls `draw` makes are the submission of each command in order. Every vertex of the frame is submitted exactly once, in order. Each draw call holds at least `NUM_VERTICES_IN_TRIANGLE` (3) vertices, and a multiple of 3. |
| GlowRenderer.SubmitLosesNothing | src/conrod_glow.rs:1025-1060 | When every slice holds whole triangles, the `< 3` filter drops only empty slices: the submitted vertices are all the drawn vertices. |
| GlowRenderer.SubmittedWhole | src/conrod_glow.rs:1025-1060 | When every slice holds whole triangles, every draw call has at least 3 vertices and a multiple of 3. |
| Scenarios.OneRectangle | src/conrod_glow.rs:697-724 | One full-window rectangle gives one `Plain(0..6)` command of six geometry vertices, and no scissor command. |
| Scenarios.RectangleImageRectangle | src/conrod_glow.rs:876-899 | Rectangle, image, rectangle gives `Plain(0..6)`, `Image(7, 6..12)`, `Plain(12..18)`. |
| Scenarios.MissingImageLeavesEmptyCommand | src/conrod_glow.rs:876-903 | Rectangle, missing image 99, rectangle gives `Plain(0..6)`, `Image(99, 6..6)`, `Plain(6..12)` over twelve geometry vertices. |
| Scenarios.MissingImageDrawsTwice | src/conrod_glow.rs:1025-1060 | For the frame `fill` leaves from that stream, `draw` skips the empty image range and makes two draw calls of six vertices with the glyph-cache texture. |
| Scenarios.MissingImageFrameItems | src/conrod_glow.rs:1082-1099 | The iterator over that command list yields a plain slice of six vertices, an empty image slice and another plain slice of six. |
| Scenarios.MissingImageFrameDraws | src/conrod_glow.rs:1004-1063 | `draw` of the command list `Plain(0..6)`, `Image(99, 6..6)`, `Plain(6..12)` over twelve vertices makes two glyph-texture draw calls of six vertices. |
| Scenarios.ClipChangeSplitsImage | src/conrod_glow.rs:674-899 | The same image under two clips gives `Plain(0..0)`, `Image(7, 0..6)`, `Scizzor`, `Plain(6..6)`, `Image(7, 6..12)`. |
| Scenarios.FirstClipChange | src/conrod_glow.rs:643-694 | A first clip smaller than the framebuffer gives `Plain(0..0)`, `Scizzor(0,0,400,300)`, `Plain(0..6)`. |

## Left out

- GL calls are not modelled: binding textures, buffer uploads, `glDrawArrays`, enabling the scissor test, and `verify!`'s panic on a GL error. `draw` is modelled as the list of scissor and draw calls it issues, with the texture each draw binds.
- Floating point is not modelled: vertex positions from `vx`/`vy`, colours, `gamma_srgb_to_linear`, texture coordinates from the source rectangle, and the text quad geometry. A vertex is reduced to its shader mode.
- The rounding and `as u32` casts in `rect_to_gl_rect` are not modelled. A primitive carries its clip already rounded to `u32`, and only the `min` clamp against the framebuffer is modelled. The `max(_, 0)` on `u32` values changes nothing.
- The glyph cache is an oracle. Queueing glyphs, `cache_queued` and the texture uploads are not modelled. A text primitive is reduced to one flag per positioned glyph, saying whether `rect_for` placed it. The glyph texture is left out as well.
- `fill` panics at the `unwrap()` of `cache_queued` (src/conrod_glow.rs:813) when the queued glyphs do not fit the glyph cache. The model's text case never fails; it covers only the runs where caching succeeds.
- The framebuffer size and the DPI factor come from `Display`. The size is a parameter of `Fill`; the DPI factor only affects floating-point values, so it is left out.
- `Renderer::new`, the shader program and the GL objects are not part of this model. The constructor only starts with empty buffers.
- The primitive walker is a finite sequence of primitives.
- The image map is a set of image ids. Image sizes are used only for texture coordinates.
- Empty ranges are not dropped when they are recorded.
  - An image missing from the map still switches to that image's state and adds no vertices. The range is still closed into an `Image(id, s..s)` command by the next state switch, clip change or the final flush.
  - An empty `Plain(s..s)` is recorded whenever a `Plain` range is closed before any vertex was pushed into it: by an image primitive, by a clip change or by the final flush (an empty frame gives `[Plain(0..0)]`), whatever opened it (the start of the frame, a clip change, or a text run with no placed glyph).
  - `draw` skips these ranges because they hold fewer than 3 vertices (`Scenarios.MissingImageDrawsTwice`, `Scenarios.MissingImageFrameDraws`).
