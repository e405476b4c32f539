/** The vertices the sprite batch and the renderer upload (the `Vertex`
    record of jmge/src/renderer.rs and the `write_vertex`/`write_vertices`
    pairs of jmge/src/sprite.rs and jmge/src/renderer.rs).

    A textured quad is uploaded as two triangles, six vertices. Each vertex
    carries its corner, in the quad's own unscaled coordinates, and its
    texture coordinates; the rest (tint, translation, scale, rotation and
    origin offset) is the same for all six and is applied by the vertex
    shader. `f32` values are modelled as reals. */
module Vertices {

  import opened Wrappers
  import opened Batching

  datatype Vertex = Vertex(
    x: real, y: real,
    col: u32,
    u: real, v: real,
    tx: real, ty: real,
    sx: real, sy: real,
    angle: real,
    ox: real, oy: real)

  /** What the six vertices of one quad share. */
  datatype Placement = Placement(
    col: u32,
    tx: real, ty: real,
    sx: real, sy: real,
    angle: real,
    ox: real, oy: real)

  /** `write_vertex`: a corner at (x, y) with texture coordinates (u, v). */
  function Corner(p: Placement, x: real, y: real, u: real, v: real): Vertex
  {
    Vertex(x, y, p.col, u, v, p.tx, p.ty, p.sx, p.sy, p.angle, p.ox, p.oy)
  }

  /** The placement a vertex carries. */
  function PlacementOf(v: Vertex): Placement
  {
    Placement(v.col, v.tx, v.ty, v.sx, v.sy, v.angle, v.ox, v.oy)
  }

  /** `write_vertices`: the w×h rectangle as the triangles (0,0) (w,0) (0,h)
      and (w,0) (w,h) (0,h), each corner with the matching corner of the
      texture rectangle. */
  function Rect(p: Placement, w: real, h: real, uv: UV): seq<Vertex>
  {
    [ Corner(p, 0.0, 0.0, uv.u1, uv.v1),
      Corner(p, w, 0.0, uv.u2, uv.v1),
      Corner(p, 0.0, h, uv.u1, uv.v2),
      Corner(p, w, 0.0, uv.u2, uv.v1),
      Corner(p, w, h, uv.u2, uv.v2),
      Corner(p, 0.0, h, uv.u1, uv.v2) ]
  }

  /** The six vertices cover the rectangle's four corners, the two
      triangles share the diagonal from (w,0) to (0,h), every vertex carries
      the quad's placement, and the texture rectangle is mapped onto the quad
      corner for corner (the left edge gets u1, the right u2, the top v1,
      the bottom v2). */
  lemma RectShape(p: Placement, w: real, h: real, uv: UV)
    requires w != 0.0 && h != 0.0
    ensures var r := Rect(p, w, h, uv);
            && |r| == 6
            && r[1] == r[3] && r[2] == r[5]
            && (set i | 0 <= i < 6 :: (r[i].x, r[i].y)) == {(0.0, 0.0), (w, 0.0), (0.0, h), (w, h)}
            && (forall i | 0 <= i < 6 :: PlacementOf(r[i]) == p)
            && (forall i | 0 <= i < 6 :: r[i].x == 0.0 || r[i].x == w)
            && (forall i | 0 <= i < 6 :: r[i].y == 0.0 || r[i].y == h)
            && (forall i | 0 <= i < 6 :: r[i].u == (if r[i].x == 0.0 then uv.u1 else uv.u2))
            && (forall i | 0 <= i < 6 :: r[i].v == (if r[i].y == 0.0 then uv.v1 else uv.v2))
  {
    var r := Rect(p, w, h, uv);
    var corners := set i | 0 <= i < 6 :: (r[i].x, r[i].y);
    assert (r[0].x, r[0].y) == (0.0, 0.0) && (r[1].x, r[1].y) == (w, 0.0);
    assert (r[2].x, r[2].y) == (0.0, h) && (r[4].x, r[4].y) == (w, h);
    assert corners == {(0.0, 0.0), (w, 0.0), (0.0, h), (w, h)};
  }

  /** Writes the six vertices of a quad at vertex `at` of a mapped buffer,
      leaving the rest of the buffer as it was. */
  method WriteRect(a: array<Vertex>, at: nat, p: Placement, w: real, h: real, uv: UV)
    requires at + 6 <= a.Length
    modifies a
    ensures a[at..at + 6] == Rect(p, w, h, uv)
    ensures forall i | 0 <= i < a.Length && !(at <= i < at + 6) :: a[i] == old(a[i])
  {
    a[at] := Corner(p, 0.0, 0.0, uv.u1, uv.v1);
    a[at + 1] := Corner(p, w, 0.0, uv.u2, uv.v1);
    a[at + 2] := Corner(p, 0.0, h, uv.u1, uv.v2);
    a[at + 3] := Corner(p, w, 0.0, uv.u2, uv.v1);
    a[at + 4] := Corner(p, w, h, uv.u2, uv.v2);
    a[at + 5] := Corner(p, 0.0, h, uv.u1, uv.v2);
  }
}
