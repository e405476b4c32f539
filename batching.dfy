/** Textures as the renderers see them, and the grouping of consecutive
    draws that share a texture (jmge/src/texture.rs, `Texture::is_same`;
    the batching loops of jmge/src/sprite.rs and jmge/src/renderer.rs).

    A texture is either a raw GL texture or an entry of an atlas that lives
    inside one; two textures are "the same" for drawing when they sit on the
    same raw texture. The GL objects themselves are not modelled: a texture
    is the id of its raw texture, its size and its texture coordinates. */
module Batching {

  import opened Wrappers

  /** Texture coordinates (u1, v1, u2, v2) of a texture's rectangle. */
  datatype UV = UV(u1: real, v1: real, u2: real, v2: real)

  /** `Texture`: a raw GL texture (its id and size), or an entry of an atlas
      (the id of the atlas's raw texture, the entry's size and where it sits
      in the atlas). */
  datatype Texture =
    | Raw(id: nat, w: u32, h: u32)
    | AtlasEntry(rawId: nat, w: u32, h: u32, uv: UV)

  /** `Texture::base_raw_id`. */
  function BaseRawId(t: Texture): nat
  {
    match t
    case Raw(id, _, _) => id
    case AtlasEntry(rawId, _, _, _) => rawId
  }

  /** `Texture::is_same`: both textures use the same raw texture. */
  predicate IsSame(a: Texture, b: Texture)
  {
    BaseRawId(a) == BaseRawId(b)
  }

  /** `Texture::size`. */
  function Size(t: Texture): (u32, u32)
  {
    (t.w, t.h)
  }

  /** `Texture::uv`: a raw texture is used whole. */
  function Uv(t: Texture): UV
  {
    match t
    case Raw(_, _, _) => UV(0.0, 0.0, 1.0, 1.0)
    case AtlasEntry(_, _, _, uv) => uv
  }

  /** Sameness is an equivalence: an atlas entry is the same as its atlas's
      raw texture and as every other entry of that atlas. */
  lemma IsSameEquivalence(a: Texture, b: Texture, c: Texture)
    ensures IsSame(a, a)
    ensures IsSame(a, b) ==> IsSame(b, a)
    ensures IsSame(a, b) && IsSame(b, c) ==> IsSame(a, c)
    ensures a.AtlasEntry? && b.Raw? ==> (IsSame(a, b) <==> a.rawId == b.id)
  {
  }

  /** A run of `count` consecutive items starting at index `first`. */
  datatype Run = Run(first: nat, count: nat)

  /** Every texture of run r of t is the same as the run's first one. */
  ghost predicate SameRun(t: seq<Texture>, r: Run)
  {
    forall i | r.first <= i < r.first + r.count :: i < |t| && IsSame(t[r.first], t[i])
  }

  /** Run k + 1 starts where run k ends, on a texture that is not the same
      as run k's first one. */
  ghost predicate Follows(t: seq<Texture>, runs: seq<Run>, k: int)
    requires 0 <= k < |runs| - 1
  {
    && runs[k + 1].first == runs[k].first + runs[k].count
    && runs[k + 1].first < |t|
    && !IsSame(t[runs[k].first], t[runs[k + 1].first])
  }

  /** `runs` splits the first n textures of t into consecutive non-empty
      runs, in order, each made of textures that are the same as its first
      one, and each next run starting with a texture that is not. Stated
      run by run from the last one; `RunsShape` gives it index by index. */
  ghost predicate RunsUpTo(t: seq<Texture>, runs: seq<Run>, n: nat)
    decreases |runs|
  {
    if runs == [] then n == 0
    else
      var init, r := runs[..|runs| - 1], runs[|runs| - 1];
      && r.count >= 1 && r.first + r.count == n && n <= |t|
      && SameRun(t, r)
      && RunsUpTo(t, init, r.first)
      && (init != [] ==> init[|init| - 1].first < r.first && !IsSame(t[init[|init| - 1].first], t[r.first]))
  }

  /** `runs` is the grouping of all of t into maximal runs of the same
      texture: what one draw call per run needs. */
  ghost predicate IsRuns(t: seq<Texture>, runs: seq<Run>)
  {
    RunsUpTo(t, runs, |t|)
  }

  /** A grouping, index by index: the runs start at 0 and end at n, each
      is non-empty and made of one raw texture, and each starts where the
      one before ends, on a texture that is not the same. */
  lemma {:induction false} RunsShape(t: seq<Texture>, runs: seq<Run>, n: nat)
    requires RunsUpTo(t, runs, n)
    ensures n <= |t| && (runs == [] <==> n == 0)
    ensures runs != [] ==> runs[0].first == 0 && runs[|runs| - 1].first + runs[|runs| - 1].count == n
    ensures forall k | 0 <= k < |runs| :: runs[k].count >= 1 && runs[k].first + runs[k].count <= n && SameRun(t, runs[k])
    ensures forall k | 0 <= k < |runs| - 1 :: Follows(t, runs, k)
    decreases |runs|
  {
    if runs != [] {
      var init, r := runs[..|runs| - 1], runs[|runs| - 1];
      RunsShape(t, init, r.first);
      forall k | 0 <= k < |runs|
        ensures runs[k].count >= 1 && runs[k].first + runs[k].count <= n && SameRun(t, runs[k])
      {
        if k < |init| {
          assert runs[k] == init[k];
        }
      }
      forall k | 0 <= k < |runs| - 1
        ensures Follows(t, runs, k)
      {
        assert runs[k] == init[k];
        if k < |init| - 1 {
          assert Follows(t, init, k);
          assert runs[k + 1] == init[k + 1];
        }
      }
      if init != [] {
        assert runs[0] == init[0];
      }
    }
  }

  /** Run k of a grouping, on its own. */
  lemma RunAt(t: seq<Texture>, runs: seq<Run>, n: nat, k: int)
    requires RunsUpTo(t, runs, n) && 0 <= k < |runs|
    ensures runs[k].count >= 1 && runs[k].first + runs[k].count <= n && SameRun(t, runs[k])
    ensures k == 0 ==> runs[k].first == 0
  {
    RunsShape(t, runs, n);
  }

  /** Runs k and k + 1 of a grouping, on their own. */
  lemma RunNext(t: seq<Texture>, runs: seq<Run>, n: nat, k: int)
    requires RunsUpTo(t, runs, n) && 0 <= k < |runs| - 1
    ensures Follows(t, runs, k)
  {
    RunsShape(t, runs, n);
  }

  /** The grouping into maximal runs is unique: any two loops that produce
      one produce the same runs. */
  lemma RunsUnique(t: seq<Texture>, r1: seq<Run>, r2: seq<Run>)
    requires IsRuns(t, r1) && IsRuns(t, r2)
    ensures r1 == r2
  {
    var m := if |r1| <= |r2| then |r1| else |r2|;
    RunsAgree(t, r1, r2, m);
    if m > 0 {
      RunLast(t, r1, m - 1);
      RunLast(t, r2, m - 1);
      assert r1[m - 1] == r2[m - 1];
    } else {
      assert r1 == [] || r2 == [];
    }
    assert |r1| == |r2|;
  }

  /** Only the last run reaches the end of the sequence. */
  lemma RunLast(t: seq<Texture>, runs: seq<Run>, k: int)
    requires IsRuns(t, runs) && 0 <= k < |runs|
    ensures runs[k].first + runs[k].count == |t| <==> k == |runs| - 1
  {
    if k < |runs| - 1 {
      RunNext(t, runs, |t|, k);
      RunAt(t, runs, |t|, k + 1);
    }
  }

  /** A run ends at the end of the sequence or just before a texture that
      is not the same as its first one. */
  lemma RunEnd(t: seq<Texture>, runs: seq<Run>, k: int)
    requires IsRuns(t, runs) && 0 <= k < |runs|
    ensures var e := runs[k].first + runs[k].count;
            e == |t| || (e < |t| && !IsSame(t[runs[k].first], t[e]))
  {
    if k < |runs| - 1 {
      RunNext(t, runs, |t|, k);
    }
  }

  /** The first m runs of two maximal groupings agree. */
  lemma {:induction false} RunsAgree(t: seq<Texture>, r1: seq<Run>, r2: seq<Run>, m: nat)
    requires IsRuns(t, r1) && IsRuns(t, r2) && m <= |r1| && m <= |r2|
    ensures forall k | 0 <= k < m :: r1[k] == r2[k]
    decreases m
  {
    if m > 0 {
      RunsAgree(t, r1, r2, m - 1);
      var k := m - 1;
      RunAt(t, r1, |t|, k);
      RunAt(t, r2, |t|, k);
      if k > 0 {
        assert r1[k - 1] == r2[k - 1];
        RunNext(t, r1, |t|, k - 1);
        RunNext(t, r2, |t|, k - 1);
      }
      RunEnd(t, r1, k);
      RunEnd(t, r2, k);
    }
  }

  /** A grouping of the first n textures extended with the run of the next
      `count` textures, all the same as texture n and not the same as the
      first texture of the last run so far. */
  lemma RunsAppend(t: seq<Texture>, runs: seq<Run>, n: nat, count: nat)
    requires RunsUpTo(t, runs, n) && count >= 1 && n + count <= |t|
    requires forall i | n <= i < n + count :: IsSame(t[n], t[i])
    requires runs != [] ==> !IsSame(t[runs[|runs| - 1].first], t[n])
    ensures RunsUpTo(t, runs + [Run(n, count)], n + count)
  {
    assert (runs + [Run(n, count)])[..|runs|] == runs;
  }

  /** A grouping of the first n textures stays one for a longer sequence
      that begins with them. */
  lemma {:induction false} RunsPrefix(t: seq<Texture>, u: seq<Texture>, runs: seq<Run>, n: nat)
    requires RunsUpTo(t, runs, n) && |t| <= |u| && t == u[..|t|]
    ensures RunsUpTo(u, runs, n)
    decreases |runs|
  {
    if runs != [] {
      var init, r := runs[..|runs| - 1], runs[|runs| - 1];
      RunsPrefix(t, u, init, r.first);
      forall i | r.first <= i < r.first + r.count
        ensures i < |u| && IsSame(u[r.first], u[i])
      {
        assert u[i] == t[i] && u[r.first] == t[r.first];
      }
      if init != [] {
        assert u[init[|init| - 1].first] == t[init[|init| - 1].first];
      }
    }
  }

  /** Every index below n lies in some run. */
  lemma {:induction false} RunsCover(t: seq<Texture>, runs: seq<Run>, n: nat, i: int)
    requires RunsUpTo(t, runs, n) && 0 <= i < n
    ensures exists k | 0 <= k < |runs| :: runs[k].first <= i < runs[k].first + runs[k].count
    decreases |runs|
  {
    var init, r := runs[..|runs| - 1], runs[|runs| - 1];
    if i < r.first {
      RunsCover(t, init, r.first, i);
      var k :| 0 <= k < |init| && init[k].first <= i < init[k].first + init[k].count;
      assert runs[k] == init[k];
    }
  }

  /** No index lies in two runs. */
  lemma RunsDisjoint(t: seq<Texture>, runs: seq<Run>, n: nat, i: int, k: int, k': int)
    requires RunsUpTo(t, runs, n) && 0 <= k < |runs| && 0 <= k' < |runs|
    requires runs[k].first <= i < runs[k].first + runs[k].count
    requires runs[k'].first <= i < runs[k'].first + runs[k'].count
    ensures k == k'
  {
    if k < k' {
      RunsAscend(t, runs, n, k, k');
    } else if k' < k {
      RunsAscend(t, runs, n, k', k);
    }
  }

  /** A later run starts at or after the end of an earlier one. */
  lemma {:induction false} RunsAscend(t: seq<Texture>, runs: seq<Run>, n: nat, k: int, k': int)
    requires RunsUpTo(t, runs, n) && 0 <= k < k' < |runs|
    ensures runs[k].first + runs[k].count <= runs[k'].first
    decreases k' - k
  {
    RunNext(t, runs, n, k' - 1);
    if k' > k + 1 {
      RunsAscend(t, runs, n, k, k' - 1);
    }
  }

  /** One `draw_triangles` call: the texture enabled, the first vertex and
      the number of vertices (six per quad). */
  datatype DrawCall = DrawCall(tex: Texture, first: nat, count: nat)

  /** The calls draw the runs in order, each with the texture of its first
      quad and the vertex range of its quads. */
  ghost predicate CallsMatch(t: seq<Texture>, runs: seq<Run>, calls: seq<DrawCall>)
  {
    && |calls| == |runs|
    && forall k | 0 <= k < |runs| ::
         runs[k].first < |t| && calls[k] == DrawCall(t[runs[k].first], 6 * runs[k].first, 6 * runs[k].count)
  }

  /** The draw calls for quads with textures t: one per maximal run. */
  ghost predicate DrawsFor(t: seq<Texture>, calls: seq<DrawCall>)
  {
    exists runs :: IsRuns(t, runs) && CallsMatch(t, runs, calls)
  }

  /** There is only one way to draw a sequence of quads in batches. */
  lemma DrawsUnique(t: seq<Texture>, c1: seq<DrawCall>, c2: seq<DrawCall>)
    requires DrawsFor(t, c1) && DrawsFor(t, c2)
    ensures c1 == c2
  {
    var r1: seq<Run> :| IsRuns(t, r1) && CallsMatch(t, r1, c1);
    var r2: seq<Run> :| IsRuns(t, r2) && CallsMatch(t, r2, c2);
    RunsUnique(t, r1, r2);
  }

  /** Every quad is drawn by exactly one call, whose texture is the same
      raw texture as the quad's. */
  lemma DrawnOnce(t: seq<Texture>, calls: seq<DrawCall>, i: int)
    requires DrawsFor(t, calls) && 0 <= i < |t|
    ensures exists k | 0 <= k < |calls| ::
              calls[k].first <= 6 * i < calls[k].first + calls[k].count && IsSame(calls[k].tex, t[i])
    ensures forall k, k' | 0 <= k < |calls| && 0 <= k' < |calls|
              && calls[k].first <= 6 * i < calls[k].first + calls[k].count
              && calls[k'].first <= 6 * i < calls[k'].first + calls[k'].count :: k == k'
  {
    var runs: seq<Run> :| IsRuns(t, runs) && CallsMatch(t, runs, calls);
    RunsCover(t, runs, |t|, i);
    var k :| 0 <= k < |runs| && runs[k].first <= i < runs[k].first + runs[k].count;
    RunAt(t, runs, |t|, k);
    assert calls[k].first <= 6 * i < calls[k].first + calls[k].count && IsSame(calls[k].tex, t[i]);
    forall k1, k2 | 0 <= k1 < |calls| && 0 <= k2 < |calls|
      && calls[k1].first <= 6 * i < calls[k1].first + calls[k1].count
      && calls[k2].first <= 6 * i < calls[k2].first + calls[k2].count
      ensures k1 == k2
    {
      RunsDisjoint(t, runs, |t|, i, k1, k2);
    }
  }
}
