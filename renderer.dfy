/** The quad renderer (jmge/src/renderer.rs).

    Quads are queued with `add_quad`; `render` writes six vertices per
    queued quad into a mapped vertex buffer, then walks the queue issuing one
    draw call per run of consecutive quads on the same raw texture (found by
    `count_similar`), and empties the queue. The vertex buffer and the draw
    calls are results here; the shader, the projection matrix and the GL
    objects are not modelled. `f32` values are reals that are only copied. */
module Renderers {

  import opened Wrappers
  import opened Colors
  import opened Batching
  import opened Vertices

  /** The `Renderable` component. */
  datatype Renderable = Renderable(
    texture: Texture,
    x: i32, y: i32,
    color: Color,
    visible: bool,
    xScale: real, yScale: real,
    xOrigin: i32, yOrigin: i32,
    angle: real)

  /** `Renderable::new`: the texture at (x, y), visible, white, unscaled,
      with its origin at its corner and not rotated. */
  function NewRenderable(tex: Texture, x: i32, y: i32): (r: Renderable)
    ensures r.texture == tex && r.x == x && r.y == y && r.visible
    ensures R8(r.color) == G8(r.color) == B8(r.color) == A8(r.color) == 255
    ensures r.xScale == 1.0 && r.yScale == 1.0 && r.xOrigin == 0 && r.yOrigin == 0 && r.angle == 0.0
  {
    White();
    Renderable(tex, x, y, Rgb(1.0, 1.0, 1.0), true, 1.0, 1.0, 0, 0, 0.0)
  }

  datatype Quad = Quad(
    x: real, y: real,
    w: real, h: real,
    col: u32,
    sx: real, sy: real,
    angle: real,
    ox: real, oy: real,
    tex: Texture)

  /** `Quad::new`: the whole texture at the origin, opaque white, unscaled,
      not rotated. */
  function NewQuad(tex: Texture): (q: Quad)
    ensures (q.w, q.h) == (Size(tex).0 as real, Size(tex).1 as real) && q.tex == tex
    ensures q.x == 0.0 && q.y == 0.0 && q.sx == 1.0 && q.sy == 1.0
    ensures q.angle == 0.0 && q.ox == 0.0 && q.oy == 0.0
    ensures A8(q.col) == R8(q.col) == G8(q.col) == B8(q.col) == 255
  {
    var (w, h) := Size(tex);
    White();
    Quad(0.0, 0.0, w as real, h as real, 0xFFFF_FFFF, 1.0, 1.0, 0.0, 0.0, 0.0, tex)
  }

  // The `with_*` builders. Each sets its own fields and nothing else: putting
  // the old values of those fields back gives the quad it started from.

  function WithPos(q: Quad, x: real, y: real): (r: Quad)
    ensures r.x == x && r.y == y && r.(x := q.x, y := q.y) == q
  {
    q.(x := x, y := y)
  }

  function WithSize(q: Quad, w: real, h: real): (r: Quad)
    ensures r.w == w && r.h == h && r.(w := q.w, h := q.h) == q
  {
    q.(w := w, h := h)
  }

  /** `with_color`: the colour's packed value (`as_u32`). */
  function WithColor(q: Quad, col: Color): (r: Quad)
    ensures r.col == col && r.(col := q.col) == q
  {
    q.(col := col)
  }

  function WithScale(q: Quad, sx: real, sy: real): (r: Quad)
    ensures r.sx == sx && r.sy == sy && r.(sx := q.sx, sy := q.sy) == q
  {
    q.(sx := sx, sy := sy)
  }

  function WithAngle(q: Quad, angle: real): (r: Quad)
    ensures r.angle == angle && r.(angle := q.angle) == q
  {
    q.(angle := angle)
  }

  function WithOrigin(q: Quad, ox: real, oy: real): (r: Quad)
    ensures r.ox == ox && r.oy == oy && r.(ox := q.ox, oy := q.oy) == q
  {
    q.(ox := ox, oy := oy)
  }

  /** Builders that set different fields commute, and a builder applied
      twice keeps only the second value. */
  lemma BuildersCommute(q: Quad, x: real, y: real, w: real, h: real, col: Color, a: real, a': real)
    ensures WithSize(WithPos(q, x, y), w, h) == WithPos(WithSize(q, w, h), x, y)
    ensures WithColor(WithAngle(q, a), col) == WithAngle(WithColor(q, col), a)
    ensures WithAngle(WithAngle(q, a), a') == WithAngle(q, a')
  {
  }

  /** The quad's `write_vertex`: the position is the translation and the
      origin enters negated. */
  function QuadPlacement(q: Quad): Placement
  {
    Placement(q.col, q.x, q.y, q.sx, q.sy, q.angle, -q.ox, -q.oy)
  }

  /** The quad's `write_vertices`: its w×h rectangle with the texture's
      coordinates. */
  function QuadVertices(q: Quad): (r: seq<Vertex>)
    ensures |r| == 6
    ensures forall i | 0 <= i < 6 ::
              && r[i].col == q.col && r[i].tx == q.x && r[i].ty == q.y
              && r[i].sx == q.sx && r[i].sy == q.sy && r[i].angle == q.angle
              && r[i].ox == -q.ox && r[i].oy == -q.oy
              && (r[i].x == 0.0 || r[i].x == q.w) && (r[i].y == 0.0 || r[i].y == q.h)
  {
    Rect(QuadPlacement(q), q.w, q.h, Uv(q.tex))
  }

  /** The textures of a sequence of quads, in order. */
  function QuadTextures(quads: seq<Quad>): (r: seq<Texture>)
    ensures |r| == |quads|
  {
    if quads == [] then []
    else QuadTextures(quads[..|quads| - 1]) + [quads[|quads| - 1].tex]
  }

  lemma {:induction false} QuadTexturesAt(quads: seq<Quad>, i: int)
    requires 0 <= i < |quads|
    ensures QuadTextures(quads)[i] == quads[i].tex
    decreases |quads|
  {
    if i < |quads| - 1 {
      QuadTexturesAt(quads[..|quads| - 1], i);
    }
  }

  /** What `count_similar` finds about quads, restated on their textures. */
  lemma RunTextures(quads: seq<Quad>, start: nat, count: nat)
    requires start + count <= |quads|
    requires forall j | start <= j < start + count :: IsSame(quads[start].tex, quads[j].tex)
    requires start + count < |quads| ==> !IsSame(quads[start].tex, quads[start + count].tex)
    ensures forall j | start <= j < start + count :: IsSame(QuadTextures(quads)[start], QuadTextures(quads)[j])
    ensures start + count < |quads| ==> !IsSame(QuadTextures(quads)[start], QuadTextures(quads)[start + count])
  {
    forall j | start <= j < start + count
      ensures IsSame(QuadTextures(quads)[start], QuadTextures(quads)[j])
    {
      QuadTexturesAt(quads, start);
      QuadTexturesAt(quads, j);
    }
    if start + count < |quads| {
      QuadTexturesAt(quads, start);
      QuadTexturesAt(quads, start + count);
    }
  }

  class Renderer {
    /** The queue of quads waiting for the next `render`. */
    var quads: seq<Quad>

    /** `Renderer::new`, without its shader and vertex buffer. */
    constructor ()
      ensures quads == []
    {
      quads := [];
    }

    /** `add_quad`: the quad joins the end of the queue. */
    method AddQuad(q: Quad)
      modifies this
      ensures quads == old(quads) + [q]
    {
      quads := quads + [q];
    }

    /** `write_vb`: a buffer mapped for six vertices per queued quad, quad i
        written at vertices 6i..6i+6. */
    method WriteVb() returns (vb: array<Vertex>)
      ensures fresh(vb) && vb.Length == 6 * |quads|
      ensures forall i | 0 <= i < |quads| :: vb[6 * i..6 * i + 6] == QuadVertices(quads[i])
    {
      vb := new Vertex[6 * |quads|](_ => Vertex(0.0, 0.0, 0, 0.0, 0.0, 0.0, 0.0, 0.0, 0.0, 0.0, 0.0, 0.0));
      var pos := 0;
      var i := 0;
      while i < |quads|
        invariant 0 <= i <= |quads| && pos == 6 * i
        invariant forall j | 0 <= j < i :: vb[6 * j..6 * j + 6] == QuadVertices(quads[j])
        modifies vb
      {
        var q := quads[i];
        ghost var before := vb[..];
        WriteRect(vb, pos, QuadPlacement(q), q.w, q.h, Uv(q.tex));
        forall j | 0 <= j < i
          ensures vb[6 * j..6 * j + 6] == QuadVertices(quads[j])
        {
          assert vb[6 * j..6 * j + 6] == before[6 * j..6 * j + 6];
        }
        pos := pos + 6;
        i := i + 1;
      }
    }

    /** `count_similar(start)`: the length of the run of quads from `start`
        on that are on the same raw texture as quad `start`; the run ends at
        the end of the queue or at a quad that is not. */
    method CountSimilar(start: nat) returns (count: nat)
      requires start < |quads|
      ensures 1 <= count <= |quads| - start
      ensures forall j | start <= j < start + count :: IsSame(quads[start].tex, quads[j].tex)
      ensures start + count < |quads| ==> !IsSame(quads[start].tex, quads[start + count].tex)
    {
      count := 1;
      var len := |quads|;
      var orig := quads[start].tex;
      var c := start + 1;
      while c < len
        invariant start + 1 <= c <= len && count == c - start
        invariant forall j | start <= j < c :: IsSame(orig, quads[j].tex)
      {
        if !IsSame(orig, quads[c].tex) {
          break;
        }
        count := count + 1;
        c := c + 1;
      }
    }

    /** The drawing loop of `render`: from the first queued quad on, one
        draw call for the run `count_similar` finds, then on past it. */
    method DrawRuns() returns (calls: seq<DrawCall>)
      ensures DrawsFor(QuadTextures(quads), calls)
    {
      ghost var t := QuadTextures(quads);
      ghost var runs: seq<Run> := [];
      calls := [];
      var pos := 0;
      var len := |quads|;
      while pos < len
        invariant pos <= len && len == |quads|
        invariant RunsUpTo(t, runs, pos) && CallsMatch(t, runs, calls)
        invariant runs != [] && pos < len ==> !IsSame(t[runs[|runs| - 1].first], t[pos])
        decreases len - pos
      {
        var count := CountSimilar(pos);
        RunTextures(quads, pos, count);
        RunsAppend(t, runs, pos, count);
        QuadTexturesAt(quads, pos);
        calls := calls + [DrawCall(quads[pos].tex, 6 * pos, 6 * count)];
        runs := runs + [Run(pos, count)];
        pos := pos + count;
      }
    }

    /** `render`: writes the vertex buffer, issues one draw call per maximal
        run of quads on the same raw texture, in queue order, and empties the
        queue. */
    method Render() returns (vb: array<Vertex>, calls: seq<DrawCall>)
      modifies this
      ensures fresh(vb) && vb.Length == 6 * |old(quads)|
      ensures forall i | 0 <= i < |old(quads)| :: vb[6 * i..6 * i + 6] == QuadVertices(old(quads)[i])
      ensures DrawsFor(QuadTextures(old(quads)), calls)
      ensures quads == []
    {
      vb := WriteVb();
      calls := DrawRuns();
      quads := [];
    }
  }
}
