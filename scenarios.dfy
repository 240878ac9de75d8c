/** Concrete frames: what `fill` records for a few small primitive streams on
    an 800x600 framebuffer, and what `draw` then submits. */
module Scenarios {
  import opened GlTypes
  import opened Batching
  import Render
  import CommandIter
  import GlowRenderer

  const W: u32 := 800
  const H: u32 := 600

  /** The whole window as a clip rectangle. */
  const Window := Render.RoundedRect(0, 0, 800, 600)

  function Geometry(n: nat): seq<Vertex> { Repeat(Vertex(MODE_GEOMETRY), n) }

  /** One full-window rectangle: a single `Plain` command of six geometry
      vertices, and no scissor command. */
  lemma OneRectangle()
    ensures var ps := [Render.Primitive(Render.Rectangle, Window)];
      && FillCommands(ps, W, H, {}) == [Plain(Range(0, 6))]
      && FillVertices(ps, W, H, {}) == Geometry(6)
  {
    var r := Render.Primitive(Render.Rectangle, Window);
    var f0 := Initial(W, H);
    assert RectToGlRect(Window, W, H) == f0.scizzor;
    RunOne(f0, r, {});
    var f1 := Step(f0, r, W, H, {});
    assert f1 == Frame([], Geometry(6), PlainState(0), DefaultScizzor(W, H));
  }

  lemma RunOne(f0: Frame, a: Render.Primitive, imageMap: set<ImageId>)
    ensures Run(f0, [a], W, H, imageMap) == Step(f0, a, W, H, imageMap)
  {
    assert [a][..0] == [];
  }

  lemma RunTwo(f0: Frame, a: Render.Primitive, b: Render.Primitive, imageMap: set<ImageId>)
    ensures Run(f0, [a, b], W, H, imageMap) == Step(Step(f0, a, W, H, imageMap), b, W, H, imageMap)
  {
    assert [a, b][..1] == [a];
    RunOne(f0, a, imageMap);
  }

  lemma RunThree(f0: Frame, a: Render.Primitive, b: Render.Primitive, c: Render.Primitive, imageMap: set<ImageId>)
    ensures Run(f0, [a, b, c], W, H, imageMap) ==
      Step(Step(Step(f0, a, W, H, imageMap), b, W, H, imageMap), c, W, H, imageMap)
  {
    assert [a, b, c][..2] == [a, b];
    RunTwo(f0, a, b, imageMap);
  }

  /** Rectangle, image 7 (in the map), rectangle: `Plain`, `Image(7)`, `Plain`. */
  lemma RectangleImageRectangle()
    ensures var ps := [Render.Primitive(Render.Rectangle, Window),
                       Render.Primitive(Render.Image(7), Window),
                       Render.Primitive(Render.Rectangle, Window)];
      FillCommands(ps, W, H, {7}) == [Plain(Range(0, 6)), Image(7, Range(6, 12)), Plain(Range(12, 18))]
  {
    var r := Render.Primitive(Render.Rectangle, Window);
    var im := Render.Primitive(Render.Image(7), Window);
    var f0 := Initial(W, H);
    assert RectToGlRect(Window, W, H) == f0.scizzor;
    RunThree(f0, r, im, r, {7});
    var f1 := Step(f0, r, W, H, {7});
    assert f1 == Frame([], Geometry(6), PlainState(0), DefaultScizzor(W, H));
    var f2 := Step(f1, im, W, H, {7});
    assert f2.commands == [Plain(Range(0, 6))] && |f2.vertices| == 12 && f2.state == ImageState(7, 6);
    assert f2.scizzor == f0.scizzor;
    var f3 := Step(f2, r, W, H, {7});
    assert f3.commands == [Plain(Range(0, 6)), Image(7, Range(6, 12))] && |f3.vertices| == 18 && f3.state == PlainState(12);
  }

  /** Rectangle, image 99 (not in the map), rectangle: the image adds no
      vertex, yet an `Image(99)` command with an empty range is recorded
      between the two `Plain` ones. */
  lemma MissingImageLeavesEmptyCommand()
    ensures var ps := [Render.Primitive(Render.Rectangle, Window),
                       Render.Primitive(Render.Image(99), Window),
                       Render.Primitive(Render.Rectangle, Window)];
      && FillCommands(ps, W, H, {}) == [Plain(Range(0, 6)), Image(99, Range(6, 6)), Plain(Range(6, 12))]
      && FillVertices(ps, W, H, {}) == Geometry(12)
  {
    var r := Render.Primitive(Render.Rectangle, Window);
    var im := Render.Primitive(Render.Image(99), Window);
    var f0 := Initial(W, H);
    assert RectToGlRect(Window, W, H) == f0.scizzor;
    RunThree(f0, r, im, r, {});
    var f1 := Step(f0, r, W, H, {});
    assert f1 == Frame([], Geometry(6), PlainState(0), DefaultScizzor(W, H));
    var f2 := Step(f1, im, W, H, {});
    assert f2 == Frame([Plain(Range(0, 6))], Geometry(6), ImageState(99, 6), DefaultScizzor(W, H));
    var f3 := Step(f2, r, W, H, {});
    RepeatGrow(Vertex(MODE_GEOMETRY), 6, 6);
    assert f3 == Frame([Plain(Range(0, 6)), Image(99, Range(6, 6))], Geometry(12), PlainState(6), DefaultScizzor(W, H));
  }

  /** What `draw` submits for the frame `fill` leaves from that stream: the
      empty image range is skipped, and two draw calls of six vertices are
      made, both with the glyph-cache texture. */
  lemma MissingImageDrawsTwice()
    ensures var ps := [Render.Primitive(Render.Rectangle, Window),
                       Render.Primitive(Render.Image(99), Window),
                       Render.Primitive(Render.Rectangle, Window)];
      var cmds := FillCommands(ps, W, H, {});
      var vs := FillVertices(ps, W, H, {});
      && CommandIter.InBounds(cmds, |vs|)
      && GlowRenderer.SubmitAll(CommandIter.Commands(cmds, vs), {}) ==
           [GlowRenderer.DrawTriangles(GlowRenderer.GlyphTexture, Geometry(6)),
            GlowRenderer.DrawTriangles(GlowRenderer.GlyphTexture, Geometry(6))]
  {
    MissingImageLeavesEmptyCommand();
    MissingImageFrameDraws();
  }

  /** `draw` of the frame `Plain(0..6)`, `Image(99, 6..6)`, `Plain(6..12)`. */
  lemma MissingImageFrameDraws()
    ensures var cmds := [Plain(Range(0, 6)), Image(99, Range(6, 6)), Plain(Range(6, 12))];
      var vs := Geometry(12);
      && CommandIter.InBounds(cmds, |vs|)
      && GlowRenderer.SubmitAll(CommandIter.Commands(cmds, vs), {}) ==
           [GlowRenderer.DrawTriangles(GlowRenderer.GlyphTexture, Geometry(6)),
            GlowRenderer.DrawTriangles(GlowRenderer.GlyphTexture, Geometry(6))]
  {
    MissingImageFrameItems();
    var p := CommandIter.Command.Draw(CommandIter.Draw.Plain(Geometry(6)));
    var e := CommandIter.Command.Draw(CommandIter.Draw.Image(99, []));
    var cs := [p, e, p];
    assert cs[..2] == [p, e] && cs[..2][..1] == [p] && cs[..2][..1][..0] == [];
    var d := GlowRenderer.DrawTriangles(GlowRenderer.GlyphTexture, Geometry(6));
    assert GlowRenderer.SubmitAll([p], {}) == [d];
    assert GlowRenderer.SubmitAll([p, e], {}) == [d];
  }

  /** The iterator over that frame: a plain slice of six vertices, an empty
      image slice and another plain slice of six. */
  lemma MissingImageFrameItems()
    ensures var cmds := [Plain(Range(0, 6)), Image(99, Range(6, 6)), Plain(Range(6, 12))];
      var vs := Geometry(12);
      && CommandIter.InBounds(cmds, |vs|)
      && CommandIter.Commands(cmds, vs) ==
           [CommandIter.Command.Draw(CommandIter.Draw.Plain(Geometry(6))),
            CommandIter.Command.Draw(CommandIter.Draw.Image(99, [])),
            CommandIter.Command.Draw(CommandIter.Draw.Plain(Geometry(6)))]
  {
    var cmds := [Plain(Range(0, 6)), Image(99, Range(6, 6)), Plain(Range(6, 12))];
    var vs := Geometry(12);
    GeometrySlice(12, 0, 6);
    GeometrySlice(12, 6, 12);
    assert vs[6..6] == [];
    assert cmds[..2] == [Plain(Range(0, 6)), Image(99, Range(6, 6))];
    assert cmds[..2][..1] == [Plain(Range(0, 6))] && cmds[..2][..1][..0] == [];
    var p := CommandIter.Command.Draw(CommandIter.Draw.Plain(Geometry(6)));
    var e := CommandIter.Command.Draw(CommandIter.Draw.Image(99, []));
    assert CommandIter.Commands(cmds[..2][..1], vs) == [p];
    assert CommandIter.Commands(cmds[..2], vs) == [p, e];
  }

  lemma GeometrySlice(n: nat, i: nat, j: nat)
    requires i <= j <= n
    ensures Geometry(n)[i..j] == Geometry(j - i)
  {
  }

  /** The same image under two different clips is not batched: the clip change
      closes the image range, records the scissor, and the second image
      primitive closes an empty `Plain` range before reopening the image. */
  lemma ClipChangeSplitsImage()
    ensures var clip := Render.RoundedRect(10, 10, 100, 100);
      var ps := [Render.Primitive(Render.Image(7), Window), Render.Primitive(Render.Image(7), clip)];
      FillCommands(ps, W, H, {7}) ==
        [Plain(Range(0, 0)), Image(7, Range(0, 6)), Scizzor(GlRect(10, 10, 100, 100)), Plain(Range(6, 6)), Image(7, Range(6, 12))]
  {
    var clip := Render.RoundedRect(10, 10, 100, 100);
    var a := Render.Primitive(Render.Image(7), Window);
    var b := Render.Primitive(Render.Image(7), clip);
    var f0 := Initial(W, H);
    assert RectToGlRect(Window, W, H) == f0.scizzor;
    assert RectToGlRect(clip, W, H) == GlRect(10, 10, 100, 100);
    RunTwo(f0, a, b, {7});
    var f1 := Step(f0, a, W, H, {7});
    assert f1.commands == [Plain(Range(0, 0))] && |f1.vertices| == 6 && f1.state == ImageState(7, 0);
    var f2 := Step(f1, b, W, H, {7});
    assert f2.commands == [Plain(Range(0, 0)), Image(7, Range(0, 6)), Scizzor(GlRect(10, 10, 100, 100)), Plain(Range(6, 6))];
    assert |f2.vertices| == 12 && f2.state == ImageState(7, 6);
  }

  /** A first clip that differs from the full framebuffer produces exactly one
      scissor command, after the (empty) range it closes and before any
      geometry drawn under it. */
  lemma FirstClipChange()
    ensures var clip := Render.RoundedRect(0, 0, 400, 300);
      var ps := [Render.Primitive(Render.Rectangle, clip)];
      FillCommands(ps, W, H, {}) == [Plain(Range(0, 0)), Scizzor(GlRect(0, 0, 400, 300)), Plain(Range(0, 6))]
  {
    var clip := Render.RoundedRect(0, 0, 400, 300);
    var r := Render.Primitive(Render.Rectangle, clip);
    assert RectToGlRect(clip, W, H) == GlRect(0, 0, 400, 300);
    RunOne(Initial(W, H), r, {});
  }
}
