/** Tile maps (jmge/src/tilemap.rs): the constructor's validation and the
    accessors. A map is w×h tiles of tw×th pixels cut from a tileset
    texture; drawing it is not modelled. */
module TileMaps {

  import opened Wrappers
  import opened Batching

  datatype TileMap = TileMap(w: u32, h: u32, tw: u32, th: u32, tex: Texture)

  /** What the constructor guarantees of every map: non-empty, with
      non-empty tiles that divide the tileset evenly. */
  ghost predicate ValidTileMap(m: TileMap)
  {
    m.w > 0 && m.h > 0 && m.tw > 0 && m.th > 0 && m.tex.w % m.tw == 0 && m.tex.h % m.th == 0
  }

  /** `TileMap::new`: checks, in order, the map size, the tile size and
      that the tileset splits into whole tiles, panicking at the first that
      fails. The tile size is checked before it is used as a divisor. */
  function NewTileMap(w: u32, h: u32, tw: u32, th: u32, tex: Texture): (r: Outcome<TileMap>)
    ensures w == 0 || h == 0 ==> r == Panic("invalid map dimensions")
    ensures w > 0 && h > 0 && (tw == 0 || th == 0) ==> r == Panic("invalid tile size")
    ensures w > 0 && h > 0 && tw > 0 && th > 0 && (tex.w % tw != 0 || tex.h % th != 0) ==>
              r == Panic("tileset texture size not even divisible by tile size")
    ensures r.Done? <==> w > 0 && h > 0 && tw > 0 && th > 0 && tex.w % tw == 0 && tex.h % th == 0
    ensures r.Done? ==> ValidTileMap(r.value) && r.value.tex == tex
  {
    if w == 0 || h == 0 then Panic("invalid map dimensions")
    else if tw == 0 || th == 0 then Panic("invalid tile size")
    else
      var (tsw, tsh) := Size(tex);
      if tsw % tw != 0 || tsh % th != 0 then Panic("tileset texture size not even divisible by tile size")
      else Done(TileMap(w, h, tw, th, tex))
  }

  /** `size()`: the map's size in tiles. */
  function MapSize(m: TileMap): (u32, u32)
  {
    (m.w, m.h)
  }

  /** `tile_size()`: the size of one tile in pixels. */
  function TileSize(m: TileMap): (u32, u32)
  {
    (m.tw, m.th)
  }

  /** `texture()`. */
  function MapTexture(m: TileMap): Texture
  {
    m.tex
  }

  /** A map built by the constructor reports the sizes it was given. */
  lemma NewTileMapSizes(w: u32, h: u32, tw: u32, th: u32, tex: Texture)
    requires NewTileMap(w, h, tw, th, tex).Done?
    ensures MapSize(NewTileMap(w, h, tw, th, tex).value) == (w, h)
    ensures TileSize(NewTileMap(w, h, tw, th, tex).value) == (tw, th)
    ensures MapTexture(NewTileMap(w, h, tw, th, tex).value) == tex
  {
  }

  /** The tileset of a valid map is a grid of whole tiles: its width and
      height are whole multiples of the tile's, at least one tile across
      when it is not empty. */
  lemma TilesetGrid(m: TileMap)
    requires ValidTileMap(m)
    ensures (m.tex.w / m.tw) * m.tw == m.tex.w && (m.tex.h / m.th) * m.th == m.tex.h
    ensures m.tex.w > 0 ==> m.tex.w / m.tw >= 1
  {
  }
}
