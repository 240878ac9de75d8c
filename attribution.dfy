/** Which texture and which scissor every vertex is drawn with. Each primitive
    asks for a brush (the glyph-cache texture, or the texture of its image)
    and a clip; `Tags` lists, vertex by vertex, what the primitive that
    emitted the vertex asked for. The batching is proved to draw every vertex
    inside a command of that brush, under the scissor rectangle last recorded
    before that command (or the full framebuffer when there is none). */
module Attribution {
  import opened GlTypes
  import opened Batching
  import Render

  /** The texture a draw is made with: the glyph cache's, or an image's. */
  datatype Brush = PlainBrush | ImageBrush(imageId: ImageId)

  /** What a vertex is to be drawn with. */
  datatype Tag = Tag(brush: Brush, clip: GlRect)

  function KindBrush(kind: Render.PrimitiveKind): Brush {
    if kind.Image? then ImageBrush(kind.imageId) else PlainBrush
  }

  function CommandBrush(c: PreparedCommand): Brush {
    if c.Image? then ImageBrush(c.imageId) else PlainBrush
  }

  function StateBrush(s: DrawState): Brush {
    match s
    case PlainState(_) => PlainBrush
    case ImageState(id, _) => ImageBrush(id)
  }

  /** Vertex by vertex, the brush and the clip its primitive asks for. */
  function Tags(ps: seq<Render.Primitive>, screenW: u32, screenH: u32, imageMap: set<ImageId>): (ts: seq<Tag>)
    ensures |ts| == |EmittedAll(ps, imageMap)|
  {
    if ps == [] then []
    else
      var last := ps[|ps| - 1];
      Tags(ps[..|ps| - 1], screenW, screenH, imageMap) +
        Repeat(Tag(KindBrush(last.kind), RectToGlRect(last.scizzor, screenW, screenH)), |Emitted(last.kind, imageMap)|)
  }

  /** The scissor rectangle in force after the commands `cmds`. */
  function ClipAfter(initial: GlRect, cmds: seq<PreparedCommand>): GlRect {
    if cmds == [] then initial
    else if cmds[|cmds| - 1].Scizzor? then cmds[|cmds| - 1].rect
    else ClipAfter(initial, cmds[..|cmds| - 1])
  }

  /** Every vertex of draw command `c` asks for `c`'s brush and for `clip`. */
  predicate RangeAsAsked(c: PreparedCommand, clip: GlRect, tags: seq<Tag>) {
    && !c.Scizzor?
    && c.range.end <= |tags|
    && forall j :: c.range.start <= j < c.range.end ==> tags[j] == Tag(CommandBrush(c), clip)
  }

  /** Every draw command of `cmds` draws vertices that ask for its brush and
      for the scissor in force when it is reached. */
  predicate DrawnAsAsked(cmds: seq<PreparedCommand>, tags: seq<Tag>, initial: GlRect) {
    forall k :: 0 <= k < |cmds| && !cmds[k].Scizzor? ==> RangeAsAsked(cmds[k], ClipAfter(initial, cmds[..k]), tags)
  }

  /** The vertices of the open range ask for the state's brush and the
      current scissor. */
  predicate OpenAsAsked(f: Frame, tags: seq<Tag>) {
    && |f.vertices| <= |tags|
    && forall j :: f.state.start <= j < |f.vertices| ==> tags[j] == Tag(StateBrush(f.state), f.scizzor)
  }

  /** The invariant of the batching loop about brushes and clips. */
  predicate Asked(f: Frame, tags: seq<Tag>, initial: GlRect) {
    && |tags| == |f.vertices|
    && f.scizzor == ClipAfter(initial, f.commands)
    && DrawnAsAsked(f.commands, tags, initial)
    && OpenAsAsked(f, tags)
  }

  lemma {:induction false} ClipAfterAppend(initial: GlRect, cmds: seq<PreparedCommand>, c: PreparedCommand)
    ensures ClipAfter(initial, cmds + [c]) == if c.Scizzor? then c.rect else ClipAfter(initial, cmds)
  {
    assert (cmds + [c])[..|cmds|] == cmds;
  }

  lemma {:induction false} DrawnAsAskedAppend(cmds: seq<PreparedCommand>, tags: seq<Tag>, initial: GlRect, c: PreparedCommand)
    requires DrawnAsAsked(cmds, tags, initial)
    requires !c.Scizzor? ==> RangeAsAsked(c, ClipAfter(initial, cmds), tags)
    ensures DrawnAsAsked(cmds + [c], tags, initial)
  {
    var cmds' := cmds + [c];
    forall k | 0 <= k < |cmds'| && !cmds'[k].Scizzor?
      ensures RangeAsAsked(cmds'[k], ClipAfter(initial, cmds'[..k]), tags)
    {
      if k < |cmds| {
        assert cmds'[k] == cmds[k] && cmds'[..k] == cmds[..k];
      } else {
        assert cmds'[..k] == cmds;
      }
    }
  }

  lemma {:induction false} DrawnAsAskedGrow(cmds: seq<PreparedCommand>, tags: seq<Tag>, more: seq<Tag>, initial: GlRect)
    requires DrawnAsAsked(cmds, tags, initial)
    ensures DrawnAsAsked(cmds, tags + more, initial)
  {
    forall k | 0 <= k < |cmds| && !cmds[k].Scizzor?
      ensures RangeAsAsked(cmds[k], ClipAfter(initial, cmds[..k]), tags + more)
    {
      var c := cmds[k];
      var clip := ClipAfter(initial, cmds[..k]);
      assert RangeAsAsked(c, clip, tags);
      forall j | c.range.start <= j < c.range.end
        ensures (tags + more)[j] == Tag(CommandBrush(c), clip)
      {
        assert tags[j] == Tag(CommandBrush(c), clip);
      }
      assert RangeAsAsked(c, clip, tags + more);
    }
  }

  /** Closing the open range records a command drawn as asked. */
  lemma {:induction false} CloseAsked(f: Frame, tags: seq<Tag>, initial: GlRect)
    requires Asked(f, tags, initial)
    ensures DrawnAsAsked(f.commands + [Close(f.state, |f.vertices|)], tags, initial)
  {
    var c := Close(f.state, |f.vertices|);
    assert CommandBrush(c) == StateBrush(f.state) && c.range == Range(f.state.start, |f.vertices|);
    DrawnAsAskedAppend(f.commands, tags, initial, c);
  }

  lemma {:induction false} UpdateScizzorAsked(f: Frame, g: GlRect, tags: seq<Tag>, initial: GlRect)
    requires Asked(f, tags, initial)
    ensures Asked(UpdateScizzor(f, g), tags, initial) && UpdateScizzor(f, g).scizzor == g
    ensures UpdateScizzor(f, g).vertices == f.vertices
  {
    if g != f.scizzor {
      var c := Close(f.state, |f.vertices|);
      CloseAsked(f, tags, initial);
      DrawnAsAskedAppend(f.commands + [c], tags, initial, Scizzor(g));
      ClipAfterAppend(initial, f.commands + [c], Scizzor(g));
      assert UpdateScizzor(f, g).commands == f.commands + [c] + [Scizzor(g)];
    }
  }

  lemma {:induction false} SwitchForAsked(f: Frame, kind: Render.PrimitiveKind, tags: seq<Tag>, initial: GlRect)
    requires Asked(f, tags, initial)
    ensures var f' := SwitchFor(f, kind);
      && Asked(f', tags, initial)
      && f'.scizzor == f.scizzor && f'.vertices == f.vertices
      && (!Skipped(kind) ==> StateBrush(f'.state) == KindBrush(kind))
  {
    var f' := SwitchFor(f, kind);
    var c := Close(f.state, |f.vertices|);
    if f'.commands != f.commands {
      assert f'.commands == f.commands + [c] && f'.state.start == |f.vertices|;
      CloseAsked(f, tags, initial);
      ClipAfterAppend(initial, f.commands, c);
    }
  }

  lemma {:induction false} PushAsked(f: Frame, vs: seq<Vertex>, t: Tag, tags: seq<Tag>, initial: GlRect)
    requires Asked(f, tags, initial)
    requires vs != [] ==> t == Tag(StateBrush(f.state), f.scizzor)
    ensures Asked(Push(f, vs), tags + Repeat(t, |vs|), initial)
  {
    DrawnAsAskedGrow(f.commands, tags, Repeat(t, |vs|), initial);
  }

  /** One loop iteration keeps every vertex attributed to what its primitive
      asked for. */
  lemma {:induction false} StepAsked(f: Frame, p: Render.Primitive, screenW: u32, screenH: u32, imageMap: set<ImageId>,
                                     tags: seq<Tag>, initial: GlRect)
    requires Asked(f, tags, initial)
    ensures var g := RectToGlRect(p.scizzor, screenW, screenH);
      Asked(Step(f, p, screenW, screenH, imageMap),
            tags + Repeat(Tag(KindBrush(p.kind), g), |Emitted(p.kind, imageMap)|), initial)
  {
    var g := RectToGlRect(p.scizzor, screenW, screenH);
    UpdateScizzorAsked(f, g, tags, initial);
    var f1 := UpdateScizzor(f, g);
    SwitchForAsked(f1, p.kind, tags, initial);
    var vs := Emitted(p.kind, imageMap);
    assert Skipped(p.kind) ==> vs == [];
    PushAsked(SwitchFor(f1, p.kind), vs, Tag(KindBrush(p.kind), g), tags, initial);
  }

  lemma {:induction false} RunAsked(ps: seq<Render.Primitive>, screenW: u32, screenH: u32, imageMap: set<ImageId>)
    ensures Asked(Run(Initial(screenW, screenH), ps, screenW, screenH, imageMap),
                  Tags(ps, screenW, screenH, imageMap), DefaultScizzor(screenW, screenH))
    decreases |ps|
  {
    if ps != [] {
      var init := ps[..|ps| - 1];
      RunAsked(init, screenW, screenH, imageMap);
      StepAsked(Run(Initial(screenW, screenH), init, screenW, screenH, imageMap), ps[|ps| - 1],
                screenW, screenH, imageMap, Tags(init, screenW, screenH, imageMap), DefaultScizzor(screenW, screenH));
    }
  }

  /** After `fill`, every vertex of every draw command was emitted by a
      primitive that asked for that command's texture (the glyph cache for
      `Plain`, image `id` for `Image(id)`) and for the scissor rectangle last
      recorded before the command, or the full framebuffer when none was. */
  lemma {:induction false} FillDrawsAsAsked(ps: seq<Render.Primitive>, screenW: u32, screenH: u32, imageMap: set<ImageId>)
    ensures DrawnAsAsked(FillCommands(ps, screenW, screenH, imageMap), Tags(ps, screenW, screenH, imageMap),
                         DefaultScizzor(screenW, screenH))
  {
    var f := Run(Initial(screenW, screenH), ps, screenW, screenH, imageMap);
    RunAsked(ps, screenW, screenH, imageMap);
    CloseAsked(f, Tags(ps, screenW, screenH, imageMap), DefaultScizzor(screenW, screenH));
  }

  /** A vertex has the image mode exactly when its primitive asked for an
      image texture. */
  lemma {:induction false} ModesFollowTags(ps: seq<Render.Primitive>, screenW: u32, screenH: u32, imageMap: set<ImageId>)
    ensures var vs := EmittedAll(ps, imageMap);
      var ts := Tags(ps, screenW, screenH, imageMap);
      forall j :: 0 <= j < |vs| ==> (vs[j].mode == MODE_IMAGE <==> ts[j].brush.ImageBrush?)
    decreases |ps|
  {
    if ps != [] {
      var init := ps[..|ps| - 1];
      var last := ps[|ps| - 1];
      ModesFollowTags(init, screenW, screenH, imageMap);
      EmittedModes(last.kind, imageMap);
      var vs0 := EmittedAll(init, imageMap);
      var e := Emitted(last.kind, imageMap);
      var t := Tag(KindBrush(last.kind), RectToGlRect(last.scizzor, screenW, screenH));
      assert EmittedAll(ps, imageMap) == vs0 + e;
      assert forall j :: |vs0| <= j < |vs0| + |e| ==> (vs0 + e)[j] == e[j - |vs0|] && e[j - |vs0|] in e;
      assert forall j :: |vs0| <= j < |vs0| + |e| ==> (Tags(init, screenW, screenH, imageMap) + Repeat(t, |e|))[j] == t;
    }
  }

  /** After `fill`, every vertex of an `Image` command has the image mode and
      no vertex of a `Plain` command has it. */
  lemma {:induction false} FillImageModes(ps: seq<Render.Primitive>, screenW: u32, screenH: u32, imageMap: set<ImageId>)
    ensures var cmds := FillCommands(ps, screenW, screenH, imageMap);
      var vs := FillVertices(ps, screenW, screenH, imageMap);
      forall k, j :: 0 <= k < |cmds| && !cmds[k].Scizzor? && cmds[k].range.start <= j < cmds[k].range.end ==>
        j < |vs| && (vs[j].mode == MODE_IMAGE <==> cmds[k].Image?)
  {
    var cmds := FillCommands(ps, screenW, screenH, imageMap);
    var vs := FillVertices(ps, screenW, screenH, imageMap);
    var ts := Tags(ps, screenW, screenH, imageMap);
    RunVertices(Initial(screenW, screenH), ps, screenW, screenH, imageMap);
    assert vs == EmittedAll(ps, imageMap);
    FillDrawsAsAsked(ps, screenW, screenH, imageMap);
    ModesFollowTags(ps, screenW, screenH, imageMap);
    forall k, j | 0 <= k < |cmds| && !cmds[k].Scizzor? && cmds[k].range.start <= j < cmds[k].range.end
      ensures j < |vs| && (vs[j].mode == MODE_IMAGE <==> cmds[k].Image?)
    {
      assert RangeAsAsked(cmds[k], ClipAfter(DefaultScizzor(screenW, screenH), cmds[..k]), ts);
      assert ts[j].brush == CommandBrush(cmds[k]);
    }
  }

  // ---------------------------------------------------------------------
  // No primitive is split between two draw commands.

  /** The vertex counts at which one primitive's vertices end and the next
      one's begin: 0 and the length of the buffer after each primitive. */
  function Boundaries(ps: seq<Render.Primitive>, imageMap: set<ImageId>): set<nat> {
    if ps == [] then {0}
    else Boundaries(ps[..|ps| - 1], imageMap) + {|EmittedAll(ps, imageMap)|}
  }

  /** Every draw range of `cmds` starts and ends at one of `bs`. */
  predicate CutsAt(cmds: seq<PreparedCommand>, bs: set<nat>) {
    forall k :: 0 <= k < |cmds| && !cmds[k].Scizzor? ==> cmds[k].range.start in bs && cmds[k].range.end in bs
  }

  predicate Cut(f: Frame, bs: set<nat>) {
    CutsAt(f.commands, bs) && f.state.start in bs && |f.vertices| in bs
  }

  lemma {:induction false} CutsAtAppend(cmds: seq<PreparedCommand>, c: PreparedCommand, bs: set<nat>)
    requires CutsAt(cmds, bs)
    requires !c.Scizzor? ==> c.range.start in bs && c.range.end in bs
    ensures CutsAt(cmds + [c], bs)
  {
    assert forall k :: 0 <= k < |cmds| ==> (cmds + [c])[k] == cmds[k];
  }

  lemma {:induction false} StepCut(f: Frame, p: Render.Primitive, screenW: u32, screenH: u32, imageMap: set<ImageId>, bs: set<nat>)
    requires Cut(f, bs)
    ensures var f' := Step(f, p, screenW, screenH, imageMap);
      Cut(f', bs + {|f'.vertices|})
  {
    var g := RectToGlRect(p.scizzor, screenW, screenH);
    var n := |f.vertices|;
    var c := Close(f.state, n);
    var f1 := UpdateScizzor(f, g);
    if g != f.scizzor {
      CutsAtAppend(f.commands, c, bs);
      CutsAtAppend(f.commands + [c], Scizzor(g), bs);
      assert f1.commands == f.commands + [c] + [Scizzor(g)];
    }
    assert Cut(f1, bs);
    var f2 := SwitchFor(f1, p.kind);
    if f2.commands != f1.commands {
      assert f2.commands == f1.commands + [Close(f1.state, n)] && f2.state.start == n;
      CutsAtAppend(f1.commands, Close(f1.state, n), bs);
    }
    assert Cut(f2, bs);
    var f' := Step(f, p, screenW, screenH, imageMap);
    var bs' := bs + {|f'.vertices|};
    assert f'.commands == f2.commands && f'.state == f2.state;
    assert forall k :: 0 <= k < |f2.commands| && !f2.commands[k].Scizzor? ==>
      f2.commands[k].range.start in bs' && f2.commands[k].range.end in bs';
  }

  lemma {:induction false} RunCut(ps: seq<Render.Primitive>, screenW: u32, screenH: u32, imageMap: set<ImageId>)
    ensures Cut(Run(Initial(screenW, screenH), ps, screenW, screenH, imageMap), Boundaries(ps, imageMap))
    decreases |ps|
  {
    if ps != [] {
      var init := ps[..|ps| - 1];
      RunCut(init, screenW, screenH, imageMap);
      var f := Run(Initial(screenW, screenH), init, screenW, screenH, imageMap);
      StepCut(f, ps[|ps| - 1], screenW, screenH, imageMap, Boundaries(init, imageMap));
      RunVertices(Initial(screenW, screenH), ps, screenW, screenH, imageMap);
      assert |Run(Initial(screenW, screenH), ps, screenW, screenH, imageMap).vertices| == |EmittedAll(ps, imageMap)|;
    }
  }

  /** A prefix of the stream emits no more vertices than the whole stream. */
  lemma {:induction false} EmittedAllPrefix(ps: seq<Render.Primitive>, m: nat, imageMap: set<ImageId>)
    requires m <= |ps|
    ensures |EmittedAll(ps[..m], imageMap)| <= |EmittedAll(ps, imageMap)|
    decreases |ps|
  {
    if m < |ps| {
      var init := ps[..|ps| - 1];
      assert init[..m] == ps[..m];
      EmittedAllPrefix(init, m, imageMap);
    } else {
      assert ps[..m] == ps;
    }
  }

  lemma {:induction false} BoundariesBelow(ps: seq<Render.Primitive>, imageMap: set<ImageId>, b: nat)
    requires b in Boundaries(ps, imageMap)
    ensures b <= |EmittedAll(ps, imageMap)|
    decreases |ps|
  {
    if ps != [] && b != |EmittedAll(ps, imageMap)| {
      var init := ps[..|ps| - 1];
      BoundariesBelow(init, imageMap, b);
      EmittedAllPrefix(ps, |ps| - 1, imageMap);
    }
  }

  /** No boundary lies strictly inside the vertices of primitive `i`. */
  lemma {:induction false} BoundariesBetween(ps: seq<Render.Primitive>, imageMap: set<ImageId>, i: nat, b: nat)
    requires i < |ps| && b in Boundaries(ps, imageMap)
    requires |EmittedAll(ps[..i], imageMap)| < b
    ensures |EmittedAll(ps[..i + 1], imageMap)| <= b
    decreases |ps|
  {
    var init := ps[..|ps| - 1];
    if b == |EmittedAll(ps, imageMap)| {
      EmittedAllPrefix(ps, i + 1, imageMap);
    } else if i < |init| {
      assert init[..i] == ps[..i] && init[..i + 1] == ps[..i + 1];
      BoundariesBetween(init, imageMap, i, b);
    } else {
      assert ps[..i] == init;
      BoundariesBelow(init, imageMap, b);
    }
  }

  /** After `fill`, every draw range starts and ends at a primitive boundary. */
  lemma {:induction false} FillCuts(ps: seq<Render.Primitive>, screenW: u32, screenH: u32, imageMap: set<ImageId>)
    ensures CutsAt(FillCommands(ps, screenW, screenH, imageMap), Boundaries(ps, imageMap))
  {
    var f := Run(Initial(screenW, screenH), ps, screenW, screenH, imageMap);
    RunCut(ps, screenW, screenH, imageMap);
    CutsAtAppend(f.commands, Close(f.state, |f.vertices|), Boundaries(ps, imageMap));
  }

  /** After `fill`, a draw command that holds the first vertex of a primitive
      holds all of that primitive's vertices: a primitive is never split
      between two draw calls. */
  lemma {:induction false} FillKeepsPrimitivesWhole(ps: seq<Render.Primitive>, screenW: u32, screenH: u32, imageMap: set<ImageId>,
                                                    i: nat, k: nat)
    requires i < |ps|
    requires var cmds := FillCommands(ps, screenW, screenH, imageMap);
      k < |cmds| && !cmds[k].Scizzor? && cmds[k].range.start <= |EmittedAll(ps[..i], imageMap)| < cmds[k].range.end
    ensures var cmds := FillCommands(ps, screenW, screenH, imageMap);
      |EmittedAll(ps[..i + 1], imageMap)| <= cmds[k].range.end
  {
    var cmds := FillCommands(ps, screenW, screenH, imageMap);
    FillCuts(ps, screenW, screenH, imageMap);
    assert cmds[k].range.end in Boundaries(ps, imageMap);
    BoundariesBetween(ps, imageMap, i, cmds[k].range.end);
  }
}
