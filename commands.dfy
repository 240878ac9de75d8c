/** The `Commands` iterator: each prepared command becomes a `Command`, a
    scissor change or a draw carrying its slice of the vertex buffer. */
module CommandIter {
  import opened GlTypes

  /** `Draw`: a slice of vertices drawn with an image texture or plainly. */
  datatype Draw =
    | Image(imageId: ImageId, slice: seq<Vertex>)
    | Plain(slice: seq<Vertex>)

  /** `Command`: draw to the target, or update the scissor rectangle. */
  datatype Command =
    | Draw(draw: Draw)
    | Scizzor(rect: GlRect)

  /** Every draw range of `cmds` can be sliced out of a buffer of `n` vertices
      (slicing outside it would panic). */
  predicate InBounds(cmds: seq<PreparedCommand>, n: nat) {
    forall k :: 0 <= k < |cmds| && !cmds[k].Scizzor? ==> cmds[k].range.start <= cmds[k].range.end <= n
  }

  /** `Commands::next` on one prepared command. */
  function Next(c: PreparedCommand, vertices: seq<Vertex>): Command
    requires !c.Scizzor? ==> c.range.start <= c.range.end <= |vertices|
  {
    match c
    case Scizzor(rect) => Command.Scizzor(rect)
    case Plain(range) => Command.Draw(Draw.Plain(vertices[range.start..range.end]))
    case Image(id, range) => Command.Draw(Draw.Image(id, vertices[range.start..range.end]))
  }

  /** Everything the iterator yields, in order. */
  function Commands(cmds: seq<PreparedCommand>, vertices: seq<Vertex>): (r: seq<Command>)
    requires InBounds(cmds, |vertices|)
    ensures |r| == |cmds|
  {
    if cmds == [] then []
    else
      assert InBounds(cmds[..|cmds| - 1], |vertices|) by {
        assert forall k :: 0 <= k < |cmds| - 1 ==> cmds[..|cmds| - 1][k] == cmds[k];
      }
      Commands(cmds[..|cmds| - 1], vertices) + [Next(cmds[|cmds| - 1], vertices)]
  }

  /** The vertex slices of the draw commands, in order. */
  function DrawnSlices(cs: seq<Command>): seq<seq<Vertex>> {
    if cs == [] then []
    else
      var last := cs[|cs| - 1];
      DrawnSlices(cs[..|cs| - 1]) + (if last.Draw? then [last.draw.slice] else [])
  }

  /** Concatenation of a sequence of slices. */
  function Flatten(ss: seq<seq<Vertex>>): seq<Vertex> {
    if ss == [] then [] else Flatten(ss[..|ss| - 1]) + ss[|ss| - 1]
  }

  lemma {:induction false} FlattenAppend(ss: seq<seq<Vertex>>, s: seq<Vertex>)
    ensures Flatten(ss + [s]) == Flatten(ss) + s
  {
    assert (ss + [s])[..|ss|] == ss;
  }

  /** The iterator yields the commands in order: the `k`-th item is `next` of
      the `k`-th prepared command, a scissor change to the same rectangle for
      a `Scizzor`, and otherwise a draw of the same kind (and image) whose
      slice is exactly `vertices[range]`. */
  lemma {:induction false} CommandsAt(cmds: seq<PreparedCommand>, vertices: seq<Vertex>, k: nat)
    requires InBounds(cmds, |vertices|) && k < |cmds|
    ensures Commands(cmds, vertices)[k] == Next(cmds[k], vertices)
    ensures var c := cmds[k];
      var r := Commands(cmds, vertices)[k];
      && (r.Scizzor? <==> c.Scizzor?)
      && (c.Scizzor? ==> r.rect == c.rect)
      && (!c.Scizzor? ==>
            && r.draw.slice == vertices[c.range.start..c.range.end]
            && (r.draw.Image? <==> c.Image?)
            && (c.Image? ==> r.draw.imageId == c.imageId))
    decreases |cmds|
  {
    var init := cmds[..|cmds| - 1];
    assert InBounds(init, |vertices|) by {
      assert forall j :: 0 <= j < |init| ==> init[j] == cmds[j];
    }
    if k < |init| {
      CommandsAt(init, vertices, k);
    }
  }

  /** Command ranges that tile the vertex buffer are in bounds. */
  lemma {:induction false} TilesInBounds(cmds: seq<PreparedCommand>, n: nat, m: nat)
    requires Tiles(DrawRanges(cmds), n) && n <= m
    ensures InBounds(cmds, m)
    decreases |cmds|
  {
    if cmds != [] {
      var init := cmds[..|cmds| - 1];
      var last := cmds[|cmds| - 1];
      assert cmds == init + [last];
      DrawRangesAppend(init, last);
      if last.Scizzor? {
        assert DrawRanges(cmds) == DrawRanges(init) + [];
        assert DrawRanges(init) + [] == DrawRanges(init);
        TilesInBounds(init, n, m);
      } else {
        var rs := DrawRanges(init);
        assert DrawRanges(cmds) == rs + [last.range];
        assert (rs + [last.range])[..|rs|] == rs;
        TilesInBounds(init, last.range.start, m);
      }
      assert forall k :: 0 <= k < |init| ==> init[k] == cmds[k];
    }
  }

  /** The slices the iterator yields, concatenated, give back the vertex
      buffer up to `n` when the ranges tile `0..n`. */
  lemma {:induction false} SlicesRebuild(cmds: seq<PreparedCommand>, vertices: seq<Vertex>, n: nat)
    requires Tiles(DrawRanges(cmds), n) && n <= |vertices|
    ensures InBounds(cmds, |vertices|)
    ensures Flatten(DrawnSlices(Commands(cmds, vertices))) == vertices[..n]
    decreases |cmds|
  {
    TilesInBounds(cmds, n, |vertices|);
    if cmds != [] {
      var init := cmds[..|cmds| - 1];
      var last := cmds[|cmds| - 1];
      assert cmds == init + [last];
      DrawRangesAppend(init, last);
      var rs := DrawRanges(init);
      var start := if last.Scizzor? then n else last.range.start;
      assert Tiles(rs, start) by {
        if last.Scizzor? {
          assert DrawRanges(cmds) == rs + [] == rs;
        } else {
          assert (rs + [last.range])[..|rs|] == rs;
        }
      }
      SlicesRebuild(init, vertices, start);
      RebuildStep(init, last, vertices, n, start);
    }
  }

  /** One command more: its slice, if any, is the piece from `start` to `n`. */
  lemma {:induction false} RebuildStep(init: seq<PreparedCommand>, last: PreparedCommand, vertices: seq<Vertex>, n: nat, start: nat)
    requires InBounds(init + [last], |vertices|) && InBounds(init, |vertices|)
    requires start == (if last.Scizzor? then n else last.range.start)
    requires !last.Scizzor? ==> last.range.end == n
    requires start <= n <= |vertices|
    requires Flatten(DrawnSlices(Commands(init, vertices))) == vertices[..start]
    ensures Flatten(DrawnSlices(Commands(init + [last], vertices))) == vertices[..n]
  {
    var cmds := init + [last];
    assert cmds[..|cmds| - 1] == init;
    var csInit := Commands(init, vertices);
    var cs := Commands(cmds, vertices);
    assert cs == csInit + [Next(last, vertices)];
    assert cs[..|cs| - 1] == csInit;
    if last.Scizzor? {
      assert DrawnSlices(cs) == DrawnSlices(csInit) + [] == DrawnSlices(csInit);
    } else {
      assert Next(last, vertices).draw.slice == vertices[start..n];
      assert DrawnSlices(cs) == DrawnSlices(csInit) + [vertices[start..n]];
      FlattenAppend(DrawnSlices(csInit), vertices[start..n]);
      assert vertices[..start] + vertices[start..n] == vertices[..n];
    }
  }

  /** The `k`-th slice the iterator yields is `vertices[range]` of the `k`-th
      draw command: nothing is shifted, dropped or added. */
  lemma {:induction false} SlicesAreRanges(cmds: seq<PreparedCommand>, vertices: seq<Vertex>)
    requires InBounds(cmds, |vertices|)
    ensures var ss := DrawnSlices(Commands(cmds, vertices));
      var rs := DrawRanges(cmds);
      && |ss| == |rs|
      && forall k :: 0 <= k < |ss| ==> rs[k].start <= rs[k].end <= |vertices| && ss[k] == vertices[rs[k].start..rs[k].end]
    decreases |cmds|
  {
    if cmds != [] {
      var init := cmds[..|cmds| - 1];
      var last := cmds[|cmds| - 1];
      assert cmds == init + [last];
      assert InBounds(init, |vertices|) by {
        assert forall j :: 0 <= j < |init| ==> init[j] == cmds[j];
      }
      SlicesAreRanges(init, vertices);
      DrawRangesAppend(init, last);
      var cs := Commands(cmds, vertices);
      var csInit := Commands(init, vertices);
      assert cs == csInit + [Next(last, vertices)];
      assert cs[..|cs| - 1] == csInit;
      if last.Scizzor? {
        assert DrawnSlices(cs) == DrawnSlices(csInit) + [] == DrawnSlices(csInit);
        assert DrawRanges(cmds) == DrawRanges(init) + [] == DrawRanges(init);
      } else {
        assert DrawnSlices(cs) == DrawnSlices(csInit) + [vertices[last.range.start..last.range.end]];
      }
    }
  }

  /** Slices of whole-triangle ranges hold whole triangles. */
  lemma {:induction false} SlicesWholeTriangles(cmds: seq<PreparedCommand>, vertices: seq<Vertex>)
    requires InBounds(cmds, |vertices|) && WholeTriangles(DrawRanges(cmds))
    ensures forall s :: s in DrawnSlices(Commands(cmds, vertices)) ==> |s| % 3 == 0
  {
    SlicesAreRanges(cmds, vertices);
  }
}
