/** Sprites and the sprite batch (jmge/src/sprite.rs).

    A sprite is a textured rectangle with a position, tint, scale, rotation
    and origin. The batch keeps weak references to the sprites added to it;
    drawing drops the ones whose owner has let go, writes six vertices per
    visible sprite into a mapped vertex buffer and issues one draw call per
    run of consecutive visible sprites on the same raw texture. The vertex
    buffer and the draw calls are results here; the GL objects behind them
    are not modelled. */
module Sprites {

  import opened Wrappers
  import opened Colors
  import opened Batching
  import opened Vertices

  datatype SpriteMetrics = SpriteMetrics(
    x: i32, y: i32,
    w: u32, h: u32,
    col: Color,
    sx: real, sy: real,
    angle: real,
    ox: i32, oy: i32)

  /** `SpriteMetrics::new`: at the origin, empty, white, unscaled and not
      rotated. */
  function NewMetrics(): (m: SpriteMetrics)
    ensures m.x == 0 && m.y == 0 && m.w == 0 && m.h == 0
    ensures m.col == 0xFFFF_FFFF && R8(m.col) == G8(m.col) == B8(m.col) == A8(m.col) == 255
    ensures m.sx == 1.0 && m.sy == 1.0 && m.angle == 0.0 && m.ox == 0 && m.oy == 0
  {
    White();
    SpriteMetrics(0, 0, 0, 0, Rgba(1.0, 1.0, 1.0, 1.0), 1.0, 1.0, 0.0, 0, 0)
  }

  /** The per-sprite part of the sprite's `write_vertex`: the position is the
      translation and the origin enters negated. */
  function MetricsPlacement(m: SpriteMetrics): Placement
  {
    Placement(m.col, m.x as real, m.y as real, m.sx, m.sy, m.angle, (-(m.ox as int)) as real, (-(m.oy as int)) as real)
  }

  /** `SpriteMetrics::write_vertices` with the texture coordinates `uv`. */
  function MetricsVertices(m: SpriteMetrics, uv: UV): (r: seq<Vertex>)
    ensures |r| == 6
    ensures forall i | 0 <= i < 6 ::
              && r[i].col == m.col && r[i].tx == m.x as real && r[i].ty == m.y as real
              && r[i].sx == m.sx && r[i].sy == m.sy && r[i].angle == m.angle
              && r[i].ox == -(m.ox as real) && r[i].oy == -(m.oy as real)
              && (r[i].x == 0.0 || r[i].x == m.w as real) && (r[i].y == 0.0 || r[i].y == m.h as real)
              && (r[i].u == uv.u1 || r[i].u == uv.u2) && (r[i].v == uv.v1 || r[i].v == uv.v2)
  {
    Rect(MetricsPlacement(m), m.w as real, m.h as real, uv)
  }

  class Sprite {
    var metrics: SpriteMetrics
    var tex: Texture
    var visible: bool

    /** `Sprite::new`: default metrics sized to the texture, visible. */
    constructor (tex: Texture)
      ensures metrics == NewMetrics().(w := tex.w, h := tex.h)
      ensures this.tex == tex && visible
    {
      metrics := NewMetrics().(w := tex.w, h := tex.h);
      this.tex := tex;
      visible := true;
    }

    method SetPos(x: i32, y: i32)
      modifies this
      ensures metrics == old(metrics).(x := x, y := y)
      ensures tex == old(tex) && visible == old(visible)
    {
      metrics := metrics.(x := x, y := y);
    }

    method SetColor(col: Color)
      modifies this
      ensures metrics == old(metrics).(col := col)
      ensures tex == old(tex) && visible == old(visible)
    {
      metrics := metrics.(col := col);
    }

    method SetScale(sx: real, sy: real)
      modifies this
      ensures metrics == old(metrics).(sx := sx, sy := sy)
      ensures tex == old(tex) && visible == old(visible)
    {
      metrics := metrics.(sx := sx, sy := sy);
    }

    method SetAngle(angle: real)
      modifies this
      ensures metrics == old(metrics).(angle := angle)
      ensures tex == old(tex) && visible == old(visible)
    {
      metrics := metrics.(angle := angle);
    }

    method SetOrigin(ox: i32, oy: i32)
      modifies this
      ensures metrics == old(metrics).(ox := ox, oy := oy)
      ensures tex == old(tex) && visible == old(visible)
    {
      metrics := metrics.(ox := ox, oy := oy);
    }

    /** `set_texture`: the sprite takes the new texture's size. */
    method SetTexture(tex: Texture)
      modifies this
      ensures metrics == old(metrics).(w := tex.w, h := tex.h)
      ensures this.tex == tex && visible == old(visible)
      ensures Size() == Batching.Size(tex)
    {
      var (w, h) := Batching.Size(tex);
      metrics := metrics.(w := w, h := h);
      this.tex := tex;
    }

    method SetVisible(vis: bool)
      modifies this
      ensures visible == vis
      ensures metrics == old(metrics) && tex == old(tex)
    {
      visible := vis;
    }

    method Show()
      modifies this
      ensures visible
      ensures metrics == old(metrics) && tex == old(tex)
    {
      SetVisible(true);
    }

    method Hide()
      modifies this
      ensures !visible
      ensures metrics == old(metrics) && tex == old(tex)
    {
      SetVisible(false);
    }

    function Pos(): (i32, i32) reads this { (metrics.x, metrics.y) }
    function Size(): (u32, u32) reads this { (metrics.w, metrics.h) }
    function Color(): Color reads this { metrics.col }
    function Scale(): (real, real) reads this { (metrics.sx, metrics.sy) }
    function Angle(): real reads this { metrics.angle }
    function Origin(): (i32, i32) reads this { (metrics.ox, metrics.oy) }
    function Texture(): Texture reads this { tex }
    function Visible(): bool reads this { visible }
  }

  /** What `draw` reads of a sprite through its weak reference: its
      metrics, its texture and whether it is visible. */
  datatype SpriteView = SpriteView(metrics: SpriteMetrics, tex: Texture, visible: bool)

  function ViewOf(sp: Sprite): SpriteView
    reads sp
  {
    SpriteView(sp.metrics, sp.tex, sp.visible)
  }

  /** The views of a sequence of sprites, in order. */
  function Views(sprites: seq<Sprite>): (r: seq<SpriteView>)
    reads sprites
    ensures |r| == |sprites| && forall i | 0 <= i < |sprites| :: r[i] == ViewOf(sprites[i])
  {
    seq(|sprites|, i requires 0 <= i < |sprites| reads sprites => ViewOf(sprites[i]))
  }

  /** The six vertices `draw` writes for a sprite. */
  function SpriteVertices(sp: SpriteView): seq<Vertex>
  {
    MetricsVertices(sp.metrics, Uv(sp.tex))
  }

  /** The sprites still held by their owners, in order (`retain` with
      `strong_count() > 0`). */
  function Live(sprites: seq<Sprite>, alive: set<Sprite>): seq<Sprite>
  {
    if sprites == [] then []
    else if sprites[|sprites| - 1] in alive then Live(sprites[..|sprites| - 1], alive) + [sprites[|sprites| - 1]]
    else Live(sprites[..|sprites| - 1], alive)
  }

  /** `retain` keeps exactly the sprites still alive, and no more of them
      than there were. */
  lemma {:induction false} LiveMembers(sprites: seq<Sprite>, alive: set<Sprite>)
    ensures |Live(sprites, alive)| <= |sprites|
    ensures forall i | 0 <= i < |Live(sprites, alive)| ::
              Live(sprites, alive)[i] in sprites && Live(sprites, alive)[i] in alive
    ensures forall i | 0 <= i < |sprites| && sprites[i] in alive :: sprites[i] in Live(sprites, alive)
  {
    if sprites != [] {
      var init := sprites[..|sprites| - 1];
      LiveMembers(init, alive);
      forall i | 0 <= i < |sprites| && sprites[i] in alive
        ensures sprites[i] in Live(sprites, alive)
      {
        if i < |sprites| - 1 {
          assert sprites[i] == init[i];
        }
      }
    }
  }

  /** `retain` keeps order: filtering a concatenation filters each part
      and concatenates the results. With `LiveOne` this determines `Live`
      on every sequence. */
  lemma {:induction false} LiveAppend(a: seq<Sprite>, b: seq<Sprite>, alive: set<Sprite>)
    ensures Live(a + b, alive) == Live(a, alive) + Live(b, alive)
    decreases |b|
  {
    if b == [] {
      assert a + b == a;
    } else {
      var init, last := b[..|b| - 1], b[|b| - 1];
      var ab := a + b;
      assert ab[..|ab| - 1] == a + init && ab[|ab| - 1] == last;
      LiveAppend(a, init, alive);
    }
  }

  /** A single sprite is kept exactly when it is alive. */
  lemma LiveOne(sp: Sprite, alive: set<Sprite>)
    ensures Live([sp], alive) == if sp in alive then [sp] else []
  {
    assert [sp][..0] == [];
  }

  /** The visible sprites among the first n, in order. */
  function Shown(sprites: seq<SpriteView>, n: nat): seq<SpriteView>
    requires n <= |sprites|
  {
    if n == 0 then []
    else if sprites[n - 1].visible then Shown(sprites, n - 1) + [sprites[n - 1]]
    else Shown(sprites, n - 1)
  }

  /** The textures of a sequence of sprites. */
  function Textures(sprites: seq<SpriteView>): (r: seq<Texture>)
    ensures |r| == |sprites|
  {
    if sprites == [] then []
    else Textures(sprites[..|sprites| - 1]) + [sprites[|sprites| - 1].tex]
  }

  lemma TexturesSnoc(sprites: seq<SpriteView>, sp: SpriteView)
    ensures Textures(sprites + [sp]) == Textures(sprites) + [sp.tex]
  {
    assert (sprites + [sp])[..|sprites|] == sprites;
  }

  /** A pending `DrawBatch`: a texture and a range of sprites. */
  datatype DrawBatch = DrawBatch(tex: Texture, first: nat, count: nat)

  /** The state of the batching loop after the visible sprites with
      textures t: the closed batches are the runs of t up to `start`, each
      with the texture of its first sprite; the open batch, from `start` to
      the end, is on the same raw texture as `lastTex`, its first texture,
      and not on that of the last closed batch. */
  ghost predicate BatchState(t: seq<Texture>, runs: seq<Run>, batches: seq<DrawBatch>, start: nat, lastTex: Option<Texture>)
  {
    match lastTex
    case None => t == [] && runs == [] && batches == [] && start == 0
    case Some(tex) =>
      && start < |t| && tex == t[start]
      && RunsUpTo(t, runs, start)
      && (forall j | start <= j < |t| :: IsSame(t[start], t[j]))
      && (runs != [] ==> !IsSame(t[runs[|runs| - 1].first], t[start]))
      && BatchesMatch(t, runs, batches)
  }

  /** Batch k is run k of t: its first texture, where it starts and its
      length. */
  ghost predicate BatchesMatch(t: seq<Texture>, runs: seq<Run>, batches: seq<DrawBatch>)
  {
    && |batches| == |runs|
    && forall k | 0 <= k < |runs| ::
         runs[k].first < |t| && batches[k] == DrawBatch(t[runs[k].first], runs[k].first, runs[k].count)
  }

  /** The first visible sprite opens the first batch. */
  lemma BatchFirst(x: Texture)
    ensures BatchState([x], [], [], 0, Some(x))
  {
  }

  /** A sprite on the same raw texture joins the open batch. */
  lemma BatchSame(t: seq<Texture>, runs: seq<Run>, batches: seq<DrawBatch>, start: nat, tex: Texture, x: Texture)
    requires BatchState(t, runs, batches, start, Some(tex)) && IsSame(tex, x)
    ensures BatchState(t + [x], runs, batches, start, Some(tex))
  {
    RunsPrefix(t, t + [x], runs, start);
  }

  /** The open batch, closed, extends the runs by one. */
  lemma CloseRun(t: seq<Texture>, runs: seq<Run>, start: nat, x: Texture)
    requires RunsUpTo(t, runs, start) && start < |t|
    requires forall j | start <= j < |t| :: IsSame(t[start], t[j])
    requires runs != [] ==> !IsSame(t[runs[|runs| - 1].first], t[start])
    ensures RunsUpTo(t + [x], runs + [Run(start, |t| - start)], |t|)
  {
    var t' := t + [x];
    assert t == t'[..|t|];
    RunsPrefix(t, t', runs, start);
    OpenRunGrows(t, x, start);
    if runs != [] {
      var last := runs[|runs| - 1].first;
      assert last < start by { RunsShape(t, runs, start); }
      assert t'[last] == t[last] && t'[start] == t[start];
    }
    RunsAppend(t', runs, start, |t| - start);
  }

  /** The open run keeps its textures when one more is appended. */
  lemma OpenRunGrows(t: seq<Texture>, x: Texture, start: nat)
    requires start < |t|
    requires forall j | start <= j < |t| :: IsSame(t[start], t[j])
    ensures forall i | start <= i < |t| :: IsSame((t + [x])[start], (t + [x])[i])
  {
    var t' := t + [x];
    forall i | start <= i < |t| ensures IsSame(t'[start], t'[i]) {
      assert t'[i] == t[i] && t'[start] == t[start];
    }
  }

  /** The batches still match the runs after one more of each, and after
      the textures grow at the end. */
  lemma BatchesSnoc(t: seq<Texture>, t': seq<Texture>, runs: seq<Run>, batches: seq<DrawBatch>, r: Run, b: DrawBatch)
    requires BatchesMatch(t, runs, batches) && t <= t'
    requires r.first < |t| && b == DrawBatch(t[r.first], r.first, r.count)
    ensures BatchesMatch(t', runs + [r], batches + [b])
  {
    var runs', batches' := runs + [r], batches + [b];
    forall k | 0 <= k < |runs'|
      ensures runs'[k].first < |t'| && batches'[k] == DrawBatch(t'[runs'[k].first], runs'[k].first, runs'[k].count)
    {
      if k < |runs| {
        assert runs'[k] == runs[k] && batches'[k] == batches[k];
      }
      assert t'[runs'[k].first] == t[runs'[k].first];
    }
  }

  /** A sprite on another raw texture closes the open batch and opens a new
      one. */
  lemma BatchNew(t: seq<Texture>, runs: seq<Run>, batches: seq<DrawBatch>, start: nat, tex: Texture, x: Texture)
    requires BatchState(t, runs, batches, start, Some(tex)) && !IsSame(tex, x)
    ensures BatchState(t + [x], runs + [Run(start, |t| - start)],
                       batches + [DrawBatch(tex, start, |t| - start)], |t|, Some(x))
  {
    var t' := t + [x];
    var r, b := Run(start, |t| - start), DrawBatch(tex, start, |t| - start);
    CloseRun(t, runs, start, x);
    BatchesSnoc(t, t', runs, batches, r, b);
    assert t'[start] == tex && t'[|t|] == x;
    assert (runs + [r])[|runs|] == r;
    IsSameEquivalence(x, x, x);
  }

  /** The draw calls for the batches: vertex ranges, six per sprite. */
  function BatchCalls(batches: seq<DrawBatch>): (r: seq<DrawCall>)
    ensures |r| == |batches|
    ensures forall k | 0 <= k < |batches| ::
              r[k] == DrawCall(batches[k].tex, 6 * batches[k].first, 6 * batches[k].count)
  {
    if batches == [] then []
    else
      var b := batches[|batches| - 1];
      BatchCalls(batches[..|batches| - 1]) + [DrawCall(b.tex, 6 * b.first, 6 * b.count)]
  }

  /** After the last sprite the open batch is closed: the batches are then
      the maximal runs of all the textures. */
  lemma BatchFinish(t: seq<Texture>, runs: seq<Run>, batches: seq<DrawBatch>, start: nat, tex: Texture)
    requires BatchState(t, runs, batches, start, Some(tex))
    ensures IsRuns(t, runs + [Run(start, |t| - start)])
    ensures CallsMatch(t, runs + [Run(start, |t| - start)], BatchCalls(batches + [DrawBatch(tex, start, |t| - start)]))
  {
    RunsAppend(t, runs, start, |t| - start);
    FinishCalls(t, runs, batches, start, tex);
  }

  /** Closing the open batch adds the call for the last run. */
  lemma FinishCalls(t: seq<Texture>, runs: seq<Run>, batches: seq<DrawBatch>, start: nat, tex: Texture)
    requires start < |t| && tex == t[start] && BatchesMatch(t, runs, batches)
    ensures CallsMatch(t, runs + [Run(start, |t| - start)], BatchCalls(batches + [DrawBatch(tex, start, |t| - start)]))
  {
    BatchesSnoc(t, t, runs, batches, Run(start, |t| - start), DrawBatch(tex, start, |t| - start));
    MatchedCalls(t, runs + [Run(start, |t| - start)], batches + [DrawBatch(tex, start, |t| - start)]);
  }

  /** Batches that match the runs give the calls that match them. */
  lemma MatchedCalls(t: seq<Texture>, runs: seq<Run>, batches: seq<DrawBatch>)
    requires BatchesMatch(t, runs, batches)
    ensures CallsMatch(t, runs, BatchCalls(batches))
  {
  }

  /** The first n sprites' vertices are in place: six per sprite. */
  ghost predicate VerticesWritten(vb: seq<Vertex>, shown: seq<SpriteView>, n: nat)
  {
    && n <= |shown| && 6 * n <= |vb|
    && forall p | 0 <= p < n :: vb[6 * p..6 * p + 6] == SpriteVertices(shown[p])
  }

  /** Writing the vertices of sprite n keeps those of the sprites before. */
  lemma WrittenStep(vb: seq<Vertex>, vb': seq<Vertex>, shown: seq<SpriteView>, sp: SpriteView, n: nat)
    requires VerticesWritten(vb, shown, n) && n == |shown|
    requires |vb'| == |vb| && 6 * n + 6 <= |vb|
    requires vb'[6 * n..6 * n + 6] == SpriteVertices(sp)
    requires forall i | 0 <= i < |vb| && !(6 * n <= i < 6 * n + 6) :: vb'[i] == vb[i]
    ensures VerticesWritten(vb', shown + [sp], n + 1)
  {
    var s := shown + [sp];
    forall p | 0 <= p < n + 1
      ensures vb'[6 * p..6 * p + 6] == SpriteVertices(s[p])
    {
      if p < n {
        assert vb'[6 * p..6 * p + 6] == vb[6 * p..6 * p + 6];
        assert s[p] == shown[p];
      }
    }
  }

  /** The batching state of `draw`'s loop: the texture of the open batch
      (none before the first visible sprite), the closed batches, and the
      index at which the open batch starts. */
  datatype Batcher = Batcher(lastTex: Option<Texture>, batches: seq<DrawBatch>, start: nat)

  /** The batching step for the visible sprite at index pos, on texture x:
      the first one opens a batch; one on a texture that is not the same as
      the open batch's closes that batch and opens a new one; any other
      joins the open batch. */
  function BatchStep(b: Batcher, x: Texture, pos: nat): (r: Batcher)
    requires b.start <= pos
    ensures r.start <= pos && r.lastTex.Some?
  {
    match b.lastTex
    case None => Batcher(Some(x), b.batches, b.start)
    case Some(tex) =>
      if !IsSame(tex, x) then Batcher(Some(x), b.batches + [DrawBatch(tex, b.start, pos - b.start)], pos)
      else b
  }

  /** The batching state after the visible sprites with textures t. */
  ghost function BatchOf(t: seq<Texture>): (r: Batcher)
    ensures r.start <= |t| && (r.lastTex.None? <==> t == [])
  {
    if t == [] then Batcher(None, [], 0)
    else BatchStep(BatchOf(t[..|t| - 1]), t[|t| - 1], |t| - 1)
  }

  /** The loop's batching state is always the one `BatchState` describes:
      the closed batches are the maximal runs so far, and the open batch is
      on one raw texture. */
  lemma {:induction false} BatchOfState(t: seq<Texture>) returns (runs: seq<Run>)
    ensures BatchState(t, runs, BatchOf(t).batches, BatchOf(t).start, BatchOf(t).lastTex)
    decreases |t|
  {
    if t == [] {
      runs := [];
    } else {
      var init, x := t[..|t| - 1], t[|t| - 1];
      assert t == init + [x];
      var runs0 := BatchOfState(init);
      var b := BatchOf(init);
      assert BatchOf(t) == BatchStep(b, x, |init|);
      match b.lastTex {
        case None =>
          BatchFirst(x);
          runs := runs0;
        case Some(tex) =>
          if IsSame(tex, x) {
            BatchSame(init, runs0, b.batches, b.start, tex, x);
            runs := runs0;
          } else {
            BatchNew(init, runs0, b.batches, b.start, tex, x);
            runs := runs0 + [Run(b.start, |init| - b.start)];
          }
      }
    }
  }

  /** The batching step of `draw` for the next visible sprite, on texture
      x, at index pos of the visible sprites. */
  method NextBatch(batches: seq<DrawBatch>, start: nat, pos: nat, lastTex: Option<Texture>, x: Texture)
    returns (lastTex': Option<Texture>, batches': seq<DrawBatch>, start': nat)
    requires start <= pos
    ensures Batcher(lastTex', batches', start') == BatchStep(Batcher(lastTex, batches, start), x, pos)
  {
    match lastTex {
      case Some(tex) =>
        if !IsSame(tex, x) {
          batches' := batches + [DrawBatch(tex, start, pos - start)];
          lastTex' := Some(x);
          start' := pos;
        } else {
          lastTex', batches', start' := lastTex, batches, start;
        }
      case None =>
        lastTex', batches', start' := Some(x), batches, start;
    }
  }

  /** The batches once the open one, if any, is closed after the n-th
      visible sprite. */
  function CloseBatches(b: Batcher, n: nat): seq<DrawBatch>
    requires b.start <= n
  {
    match b.lastTex
    case None => b.batches
    case Some(tex) => b.batches + [DrawBatch(tex, b.start, n - b.start)]
  }

  /** The batches that `draw` issues for visible sprites with textures t. */
  ghost function BatchesFor(t: seq<Texture>): seq<DrawBatch>
  {
    CloseBatches(BatchOf(t), |t|)
  }

  /** The batches `draw` issues are the maximal runs of all the visible
      sprites' textures: one draw call per run. */
  lemma BatchesDraw(t: seq<Texture>)
    ensures DrawsFor(t, BatchCalls(BatchesFor(t)))
  {
    var runs := BatchOfState(t);
    var b := BatchOf(t);
    match b.lastTex {
      case Some(tex) =>
        BatchFinish(t, runs, b.batches, b.start, tex);
      case None =>
        assert CallsMatch(t, [], []);
    }
  }

  /** The end of the batching loop of `draw`: the open batch, if any,
      becomes the last one. */
  method FinalBatch(ghost t: seq<Texture>, batches: seq<DrawBatch>, start: nat, pos: nat, lastTex: Option<Texture>)
    returns (batches': seq<DrawBatch>)
    requires Batcher(lastTex, batches, start) == BatchOf(t) && pos == |t|
    ensures batches' == BatchesFor(t)
  {
    match lastTex {
      case Some(tex) =>
        batches' := batches + [DrawBatch(tex, start, pos - start)];
      case None =>
        batches' := batches;
    }
  }

  /** `write_vertices` of one sprite into slots 6n..6n+6 of the mapped
      buffer, after the vertices of the n sprites before it. */
  method WriteSprite(vb: array<Vertex>, n: nat, sp: SpriteView, ghost shown: seq<SpriteView>)
    requires VerticesWritten(vb[..], shown, n) && n == |shown| && 6 * n + 6 <= vb.Length
    modifies vb
    ensures VerticesWritten(vb[..], shown + [sp], n + 1)
  {
    ghost var before := vb[..];
    WriteRect(vb, 6 * n, MetricsPlacement(sp.metrics), sp.metrics.w as real, sp.metrics.h as real, Uv(sp.tex));
    WrittenStep(before, vb[..], shown, sp, n);
  }

  /** What the loop of `draw` knows of the sprites after the first i live
      ones: which of them are visible, their textures, and how they are
      batched. */
  ghost predicate Progress(views: seq<SpriteView>, i: nat, shown: seq<SpriteView>, t: seq<Texture>, pos: nat, b: Batcher)
  {
    && i <= |views|
    && shown == Shown(views, i) && t == Textures(shown) && pos == |shown| <= i
    && b == BatchOf(t) && b.start <= pos
  }

  /** Sprite i, if visible, joins the shown ones and the batching. */
  lemma ProgressStep(views: seq<SpriteView>, i: nat, shown: seq<SpriteView>, t: seq<Texture>, pos: nat, b: Batcher)
    requires i < |views| && Progress(views, i, shown, t, pos, b)
    ensures views[i].visible ==>
              Progress(views, i + 1, shown + [views[i]], t + [views[i].tex], pos + 1, BatchStep(b, views[i].tex, pos))
    ensures !views[i].visible ==> Progress(views, i + 1, shown, t, pos, b)
  {
    var sp := views[i];
    if sp.visible {
      TexturesSnoc(shown, sp);
      assert (t + [sp.tex])[..|t|] == t;
    }
  }

  /** One turn of the loop of `draw`: a visible sprite is batched and its
      vertices written; a hidden one is skipped. */
  method DrawStep(views: seq<SpriteView>, i: nat, vb: array<Vertex>, ghost shown: seq<SpriteView>, ghost t: seq<Texture>,
                  pos: nat, batches: seq<DrawBatch>, start: nat, lastTex: Option<Texture>)
    returns (ghost shown': seq<SpriteView>, ghost t': seq<Texture>, pos': nat,
             batches': seq<DrawBatch>, start': nat, lastTex': Option<Texture>)
    requires i < |views| && Progress(views, i, shown, t, pos, Batcher(lastTex, batches, start))
    requires vb.Length == 6 * |views| && VerticesWritten(vb[..], shown, pos)
    modifies vb
    ensures Progress(views, i + 1, shown', t', pos', Batcher(lastTex', batches', start'))
    ensures VerticesWritten(vb[..], shown', pos')
  {
    ProgressStep(views, i, shown, t, pos, Batcher(lastTex, batches, start));
    var sp := views[i];
    if sp.visible {
      lastTex', batches', start' := NextBatch(batches, start, pos, lastTex, sp.tex);
      WriteSprite(vb, pos, sp, shown);
      shown', t', pos' := shown + [sp], t + [sp.tex], pos + 1;
    } else {
      shown', t', pos', batches', start', lastTex' := shown, t, pos, batches, start, lastTex;
    }
  }

  /** The loop of `draw` over the live sprites: writes the vertices of the
      visible ones into a buffer mapped for all of them and collects the
      batches. */
  method DrawViews(views: seq<SpriteView>) returns (vb: array<Vertex>, batches: seq<DrawBatch>)
    ensures fresh(vb) && vb.Length == 6 * |views|
    ensures var shown := Shown(views, |views|);
            VerticesWritten(vb[..], shown, |shown|) && batches == BatchesFor(Textures(shown))
  {
    var lastTex: Option<Texture> := None;
    batches := [];
    var pos: nat := 0;
    var start: nat := 0;
    ghost var shown: seq<SpriteView> := [];
    ghost var t: seq<Texture> := [];

    vb := new Vertex[6 * |views|](_ => Vertex(0.0, 0.0, 0, 0.0, 0.0, 0.0, 0.0, 0.0, 0.0, 0.0, 0.0, 0.0));

    var i := 0;
    while i < |views|
      invariant i <= |views|
      invariant Progress(views, i, shown, t, pos, Batcher(lastTex, batches, start))
      invariant VerticesWritten(vb[..], shown, pos)
      modifies vb
    {
      shown, t, pos, batches, start, lastTex := DrawStep(views, i, vb, shown, t, pos, batches, start, lastTex);
      i := i + 1;
    }

    batches := FinalBatch(t, batches, start, pos, lastTex);
  }

  class SpriteBatch {
    /** The weak references, as the sprites they point to. */
    var sprites: seq<Sprite>

    constructor ()
      ensures sprites == []
    {
      sprites := [];
    }

    /** `add`: the sprite joins the end of the batch. */
    method Add(sp: Sprite) returns (r: Sprite)
      modifies this
      ensures sprites == old(sprites) + [sp] && r == sp
    {
      sprites := sprites + [sp];
      r := sp;
    }

    /** `draw`: the batch keeps only the sprites in `alive` (those whose
        owner still holds them); the vertices of the visible ones are
        written in order, six per sprite, into a buffer sized for all the
        live sprites; and the draw calls are one per maximal run of visible
        sprites on the same raw texture. */
    method Draw(alive: set<Sprite>) returns (vb: array<Vertex>, calls: seq<DrawCall>)
      modifies this
      ensures sprites == Live(old(sprites), alive)
      ensures fresh(vb) && vb.Length == 6 * |sprites|
      ensures var shown := Shown(Views(sprites), |sprites|);
              VerticesWritten(vb[..], shown, |shown|) && DrawsFor(Textures(shown), calls)
    {
      sprites := Live(sprites, alive);
      ghost var views := Views(sprites);
      var batches;
      vb, batches := DrawViews(Views(sprites));
      assert Views(sprites) == views;
      calls := BatchCalls(batches);
      BatchesDraw(Textures(Shown(views, |views|)));
    }
  }
}
