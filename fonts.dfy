/** Building a bitmap font from a canvas (`Font::from_canvas`,
    jmge/src/font.rs).

    The canvas is read as a 16×16 grid of equal cells; cell c (counted row
    by row) becomes the glyph of character code c, for the 255 codes
    0..254. */
module Fonts {

  import opened Wrappers
  import opened Colors
  import opened Glyphs
  import opened Canvases
  import Arith

  const LoadFontMessage := "Font::from_canvas(): the canvas size isn't evenly divisible by 16"

  /** The number of glyphs `from_canvas` builds (codes 0..254). */
  const GlyphCount := 255

  /** The character map `from_canvas` builds: every code below n maps to
      itself. */
  function GridMap(n: nat): map<int, int>
  {
    if n == 0 then map[] else GridMap(n - 1)[n - 1 := n - 1]
  }

  /** The map built by inserting c ↦ c for c = 0, …, n-1 holds exactly the
      codes below n, each mapped to itself. */
  lemma {:induction false} GridMapIdentity(n: nat, c: int)
    ensures c in GridMap(n) <==> 0 <= c < n
    ensures c in GridMap(n) ==> GridMap(n)[c] == c
    decreases n
  {
    if n > 0 {
      GridMapIdentity(n - 1, c);
    }
  }

  /** Cell c of the 16×16 grid of a w×h canvas lies inside the canvas. */
  lemma CellInside(w: nat, h: nat, c: int)
    requires w % 16 == 0 && h % 16 == 0 && 0 <= c < 256
    ensures 0 <= (c % 16) * (w / 16) && 0 <= (c / 16) * (h / 16)
    ensures (c % 16) * (w / 16) + w / 16 <= w
    ensures (c / 16) * (h / 16) + h / 16 <= h
    ensures ((c / 16) * (h / 16) + h / 16) * w <= w * h
  {
    var cw, ch := w / 16, h / 16;
    Arith.MulNonneg(c % 16, cw);
    Arith.MulNonneg(c / 16, ch);
    Arith.MulSucc(c % 16, cw);
    Arith.MulMono(c % 16 + 1, 16, cw);
    Arith.MulSucc(c / 16, ch);
    Arith.MulMono(c / 16 + 1, 16, ch);
    Arith.MulMono((c / 16) * ch + ch, h, w);
    Arith.MulComm(h, w);
  }

  /** Glyph c of the font built from the pixels d of a w×h canvas: the
      (w/16)×(h/16) cell at column c%16, row c/16 of the grid. */
  function CellGlyph(d: seq<Color>, w: u32, h: u32, c: int): Glyph
    requires |d| == w * h && w % 16 == 0 && h % 16 == 0 && 0 <= c < 256
  {
    CellInside(w, h, c);
    Glyph(w / 16, h / 16, SubRows(d, w, (c % 16) * (w / 16), (c / 16) * (h / 16), w / 16, h / 16))
  }

  /** The first n glyphs, in code order. */
  function CellGlyphs(d: seq<Color>, w: u32, h: u32, n: nat): (r: seq<Glyph>)
    requires |d| == w * h && w % 16 == 0 && h % 16 == 0 && n <= 256
    ensures |r| == n
  {
    if n == 0 then [] else CellGlyphs(d, w, h, n - 1) + [CellGlyph(d, w, h, n - 1)]
  }

  /** The font `from_canvas` builds from a w×h canvas with pixels d. */
  function GridFont(d: seq<Color>, w: u32, h: u32): Font
    requires |d| == w * h && w % 16 == 0 && h % 16 == 0
  {
    Font(GridMap(GlyphCount), CellGlyphs(d, w, h, GlyphCount), h / 16)
  }

  /** Glyph i of the glyph vector is the grid cell of code i. */
  lemma {:induction false} CellGlyphsIndex(d: seq<Color>, w: u32, h: u32, n: nat, i: int)
    requires |d| == w * h && w % 16 == 0 && h % 16 == 0 && n <= 256 && 0 <= i < n
    ensures CellGlyphs(d, w, h, n)[i] == CellGlyph(d, w, h, i)
    decreases n
  {
    if i < n - 1 {
      CellGlyphsIndex(d, w, h, n - 1, i);
    }
  }

  /** Every cell glyph holds exactly its (w/16)×(h/16) pixels. */
  lemma CellGlyphValid(d: seq<Color>, w: u32, h: u32, c: int)
    requires |d| == w * h && w % 16 == 0 && h % 16 == 0 && 0 <= c < 256
    ensures ValidGlyph(CellGlyph(d, w, h, c))
  {
    var cw, ch := w / 16, h / 16;
    CellInside(w, h, c);
    SubRowsLength(d, w, (c % 16) * cw, (c / 16) * ch, cw, ch);
    Arith.MulComm(ch, cw);
  }

  /** The font built from a canvas is well formed: its character map points
      into its 255 glyphs, each of which has the cell's size. */
  lemma GridFontValid(d: seq<Color>, w: u32, h: u32)
    requires |d| == w * h && w % 16 == 0 && h % 16 == 0
    ensures ValidFont(GridFont(d, w, h)) && |GridFont(d, w, h).glyphs| == GlyphCount
  {
    var f := GridFont(d, w, h);
    forall c | c in f.charMap
      ensures 0 <= f.charMap[c] < |f.glyphs|
    {
      GridMapIdentity(GlyphCount, c);
    }
    forall i | 0 <= i < |f.glyphs|
      ensures ValidGlyph(f.glyphs[i])
    {
      CellGlyphsIndex(d, w, h, GlyphCount, i);
      CellGlyphValid(d, w, h, i);
    }
  }

  /** Looking up a character in a font built from a canvas: codes 0..254
      have the glyph of their cell, every other character has none; so a
      character is (w/16) wide exactly when its code is below 255. */
  lemma GridFontGlyph(d: seq<Color>, w: u32, h: u32, ch: char)
    requires |d| == w * h && w % 16 == 0 && h % 16 == 0
    ensures ValidFont(GridFont(d, w, h))
    ensures GetGlyph(GridFont(d, w, h), ch).Some? <==> (ch as int) < GlyphCount
    ensures (ch as int) < GlyphCount ==> GetGlyph(GridFont(d, w, h), ch).value == CellGlyph(d, w, h, ch as int)
    ensures CharWidth(GridFont(d, w, h), ch) == if (ch as int) < GlyphCount then w / 16 else 0
  {
    GridFontValid(d, w, h);
    GridMapIdentity(GlyphCount, ch as int);
    if (ch as int) < GlyphCount {
      CellGlyphsIndex(d, w, h, GlyphCount, ch as int);
    }
  }

  /** Pixel (i, j) of glyph c is the canvas pixel at column cx + i, row
      cy + j, where (cx, cy) = ((c%16)·(w/16), (c/16)·(h/16)) is the top-left
      corner of the cell. */
  lemma CellGlyphPixel(d: seq<Color>, w: u32, h: u32, c: int, i: nat, j: nat)
    requires |d| == w * h && w % 16 == 0 && h % 16 == 0 && 0 <= c < 256
    requires i < w / 16 && j < h / 16
    ensures var cx, cy := (c % 16) * (w / 16), (c / 16) * (h / 16);
            var g := CellGlyph(d, w, h, c);
            && cx + i < w && cy + j < h
            && 0 <= j * g.w + i < |g.data| && 0 <= (cy + j) * w + cx + i < |d|
            && g.data[j * g.w + i] == d[(cy + j) * w + cx + i]
  {
    var cw, ch := w / 16, h / 16;
    var cx, cy := (c % 16) * cw, (c / 16) * ch;
    CellInside(w, h, c);
    var g := CellGlyph(d, w, h, c);
    assert g.w == cw && g.data == SubRows(d, w, cx, cy, cw, ch);
    SubRowsLength(d, w, cx, cy, cw, ch);
    WindowIndices(w, cx, cy, cw, ch, i, j);
    SubRowsPixel(d, w, cx, cy, cw, ch, i, j);
    assert g.data[j * cw + i] == d[(cy + j) * w + cx + i];
  }

  /** A string drawn with a font built from a canvas is (w/16) pixels wide
      per character, when every character has a glyph. */
  lemma GridFontStrWidth(d: seq<Color>, w: u32, h: u32, s: string)
    requires |d| == w * h && w % 16 == 0 && h % 16 == 0
    requires forall k | 0 <= k < |s| :: (s[k] as int) < GlyphCount
    ensures ValidFont(GridFont(d, w, h))
    ensures StrWidth(GridFont(d, w, h), s) == |s| * (w / 16)
  {
    var f := GridFont(d, w, h);
    GridFontValid(d, w, h);
    forall k | 0 <= k < |s|
      ensures CharWidth(f, s[k]) == w / 16
    {
      GridFontGlyph(d, w, h, s[k]);
    }
    StrWidthUniform(f, s, w / 16);
  }

  /** `Font::from_canvas`: a LoadFont error exactly when a canvas dimension
      is not a multiple of 16; a panic inside `Canvas::sub` exactly when a
      dimension is 0 (the cells are then empty); otherwise always the grid
      font, built by one loop over the character map and one over the glyphs. */
  method FromCanvas(cnv: Canvas) returns (r: Outcome<Result<Font, FontError>>)
    requires cnv.Valid()
    ensures r == Done(Err(LoadFont(LoadFontMessage))) <==> cnv.w % 16 != 0 || cnv.h % 16 != 0
    ensures r.Panic? <==> cnv.w % 16 == 0 && cnv.h % 16 == 0 && (cnv.w == 0 || cnv.h == 0)
    ensures r.Panic? ==> r.msg == "Canvas.sub(): invalid width or height"
    ensures r.Done? && r.value.Ok? ==>
              cnv.w % 16 == 0 && cnv.h % 16 == 0 && r.value.value == GridFont(cnv.data[..], cnv.w, cnv.h)
    ensures cnv.w % 16 == 0 && cnv.h % 16 == 0 && cnv.w > 0 && cnv.h > 0 ==>
              r == Done(Ok(GridFont(cnv.data[..], cnv.w, cnv.h)))
  {
    var (w, h) := cnv.Size();
    if w % 16 != 0 || h % 16 != 0 {
      return Done(Err(LoadFont(LoadFontMessage)));
    }
    var cw, ch := w / 16, h / 16;
    var d := cnv.data[..];

    var charMap: map<int, int> := map[];
    var c := 0;
    while c < GlyphCount
      invariant 0 <= c <= GlyphCount
      invariant charMap == GridMap(c)
    {
      charMap := charMap[c := c];
      c := c + 1;
    }

    var glyphs: seq<Glyph> := [];
    c := 0;
    while c < GlyphCount
      invariant 0 <= c <= GlyphCount
      invariant glyphs == CellGlyphs(d, w, h, c)
      invariant c > 0 ==> cw > 0 && ch > 0
    {
      CellInside(w, h, c);
      var cy := (c / 16) * ch;
      var cx := (c % 16) * cw;
      var sub := cnv.Sub(cx, cy, cw, ch);
      match sub
      case Panic(msg) =>
        return Panic(msg);
      case Done(s) =>
        glyphs := glyphs + [Glyph(cw, ch, s.data[..])];
      c := c + 1;
    }

    return Done(Ok(Font(charMap, glyphs, ch)));
  }
}
