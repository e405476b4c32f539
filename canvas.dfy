/** The software pixel buffer (jmge/src/canvas.rs).

    A `Canvas` is a w×h buffer of packed colours stored row by row: pixel
    (x, y) lives at index y*w + x. The dimensions never change after
    construction and the buffer is only written in place, so `w`, `h` and the
    array reference are constants and the pixel operations modify `data`.

    Every pixel operation is proved against a specification function on the
    buffer's contents. Coordinates arrive as `i32`; where the source compares
    them with `self.w as i32`, the model uses the same reinterpretation
    (`AsI32`), so a canvas wider than 2^31 pixels behaves as it does in the
    source (nothing is inside it). */
module Canvases {

  import opened Wrappers
  import opened Colors
  import opened Glyphs
  import Arith

  // ---------------------------------------------------------------------
  // Specification functions on row-major buffers

  /** The first `rows` rows of the width-wide window at column x, row y of a
      buffer whose rows are `stride` pixels long, concatenated. */
  function SubRows(d: seq<Color>, stride: nat, x: nat, y: nat, width: nat, rows: nat): seq<Color>
    requires x + width <= stride && (y + rows) * stride <= |d|
  {
    if rows == 0 then []
    else
      var start := (y + (rows - 1)) * stride + x;
      Arith.MulSucc(y + (rows - 1), stride);
      SubRows(d, stride, x, y, width, rows - 1) + d[start .. start + width]
  }

  /** The window holds rows·width pixels. */
  lemma {:induction false} SubRowsLength(d: seq<Color>, stride: nat, x: nat, y: nat, width: nat, rows: nat)
    requires x + width <= stride && (y + rows) * stride <= |d|
    ensures |SubRows(d, stride, x, y, width, rows)| == rows * width
    decreases rows
  {
    if rows > 0 {
      Arith.MulSucc(y + (rows - 1), stride);
      SubRowsLength(d, stride, x, y, width, rows - 1);
      Arith.MulSucc(rows - 1, width);
    }
  }

  /** The window grows by one row: the `width` pixels that start at sp. */
  lemma SubRowsStep(d: seq<Color>, stride: nat, x: nat, y: nat, width: nat, rows: nat, sp: int)
    requires x + width <= stride && (y + rows + 1) * stride <= |d| && sp == (y + rows) * stride + x
    ensures (y + rows) * stride <= |d| && 0 <= sp && sp + width <= |d|
    ensures SubRows(d, stride, x, y, width, rows + 1) == SubRows(d, stride, x, y, width, rows) + d[sp .. sp + width]
  {
    assert (y + rows + 1) * stride == (y + rows) * stride + stride;
  }

  /** Offsets of the next row of the `sub` copy loop. */
  lemma CopyWindowStep(src: seq<Color>, stride: nat, x: nat, y: nat, width: nat, height: nat,
                       row: nat, sp: int, dp: int)
    requires x + width <= stride && (y + height) * stride <= |src|
    requires row < height && sp == (y + row) * stride + x && dp == row * width
    ensures 0 <= sp && sp + width <= |src| && 0 <= dp && dp + width <= width * height
    ensures sp + stride == (y + (row + 1)) * stride + x && dp + width == (row + 1) * width
    ensures (y + row + 1) * stride <= |src|
  {
    Arith.NextRow(row, width, height, dp);
    Arith.NextRow(y + row, stride, y + height, sp - x);
  }

  /** After the row copy of the `sub` loop the window holds one more row. */
  lemma CopyWindowRow(before: seq<Color>, after: seq<Color>, src: seq<Color>, stride: nat, x: nat, y: nat,
                      width: nat, row: nat, sp: int, dp: int)
    requires x + width <= stride && (y + row + 1) * stride <= |src| && sp == (y + row) * stride + x
    requires 0 <= dp && dp + width <= |before| == |after| && 0 <= sp && sp + width <= |src|
    requires before[..dp] == SubRows(src, stride, x, y, width, row)
    requires forall k | 0 <= k < |after| :: after[k] == if dp <= k < dp + width then src[sp + k - dp] else before[k]
    ensures after[..dp + width] == SubRows(src, stride, x, y, width, row + 1)
  {
    SubRowsStep(src, stride, x, y, width, row, sp);
    assert after[..dp + width] == before[..dp] + src[sp .. sp + width];
  }

  /** Pixel (i, j) of a width×rows window lies inside the window, and the
      buffer pixel it copies lies inside the buffer. */
  lemma WindowIndices(stride: nat, x: nat, y: nat, width: nat, rows: nat, i: nat, j: nat)
    requires x + width <= stride && i < width && j < rows
    ensures 0 <= j * width + i < rows * width
    ensures 0 <= (y + j) * stride + x + i && (y + j) * stride + x + i + 1 <= (y + rows) * stride
  {
    Arith.IndexInside(j, i, width, rows);
    Arith.RowFits(y + j, x + i, 1, stride, y + rows, (y + j) * stride + x + i);
  }

  /** Pixel (i, j) of the window is pixel (x+i, y+j) of the buffer. */
  lemma {:induction false} SubRowsPixel(d: seq<Color>, stride: nat, x: nat, y: nat, width: nat, rows: nat, i: nat, j: nat)
    requires x + width <= stride && (y + rows) * stride <= |d|
    requires i < width && j < rows
    requires |SubRows(d, stride, x, y, width, rows)| == rows * width
    ensures j * width + i < rows * width && (y + j) * stride + x + i < |d|
    ensures SubRows(d, stride, x, y, width, rows)[j * width + i] == d[(y + j) * stride + x + i]
    decreases rows
  {
    WindowIndices(stride, x, y, width, rows, i, j);
    var start := (y + (rows - 1)) * stride + x;
    SubRowsStep(d, stride, x, y, width, rows - 1, start);
    var prev := SubRows(d, stride, x, y, width, rows - 1);
    var row := d[start .. start + width];
    SubRowsLength(d, stride, x, y, width, rows - 1);
    var k := j * width + i;
    if j < rows - 1 {
      SubRowsPixel(d, stride, x, y, width, rows - 1, i, j);
      assert (prev + row)[k] == prev[k];
    } else {
      assert k == |prev| + i;
      assert (prev + row)[k] == row[i];
    }
  }

  /** The raw copy of `blit`: the source pixel replaces the destination
      pixel. */
  function Copy(s: Color, d: Color): Color
  {
    s
  }

  /** How `blit` paints a source pixel over a destination pixel: blended in
      alpha mode, copied otherwise. The blit specification below is stated
      for any such painter. */
  function Painter(alpha: bool): (Color, Color) -> Color
  {
    if alpha then Blend else Copy
  }

  /** The buffer `cur` with its n pixels from dp on painted with the n source
      pixels from sp on: one row of a blit. */
  function PaintSpan(cur: seq<Color>, src: seq<Color>, sp: int, dp: int, n: nat, paint: (Color, Color) -> Color): (r: seq<Color>)
    requires 0 <= sp && sp + n <= |src| && 0 <= dp && dp + n <= |cur|
    ensures |r| == |cur|
  {
    seq(|cur|, k requires 0 <= k < |cur| =>
      if dp <= k < dp + n then paint(src[sp + k - dp], cur[k]) else cur[k])
  }

  /** A span of n + 1 pixels is the span of n with one more pixel painted. */
  lemma PaintSpanStep(cur: seq<Color>, src: seq<Color>, sp: int, dp: int, n: nat, paint: (Color, Color) -> Color)
    requires 0 <= sp && sp + n < |src| && 0 <= dp && dp + n < |cur|
    ensures PaintSpan(cur, src, sp, dp, n + 1, paint)
            == PaintSpan(cur, src, sp, dp, n, paint)[dp + n := paint(src[sp + n], cur[dp + n])]
  {
  }

  /** The arguments of a blit: destination corner, source corner and size,
      all as signed integers. */
  datatype BlitArgs = BlitArgs(dx: int, dy: int, sx: int, sy: int, w: int, h: int)

  /** Offset (i, j) of the requested rectangle lands inside both canvases,
      whose dimensions are compared as `i32` like the source does. */
  predicate Covered(b: BlitArgs, dw: u32, dh: u32, sw: u32, sh: u32, i: int, j: int)
  {
    && 0 <= i < b.w && 0 <= j < b.h
    && 0 <= b.dx + i < AsI32(dw) && 0 <= b.dy + j < AsI32(dh)
    && 0 <= b.sx + i < AsI32(sw) && 0 <= b.sy + j < AsI32(sh)
  }

  function BlitPixel(d: seq<Color>, s: seq<Color>, dw: u32, dh: u32, sw: u32, sh: u32,
                     b: BlitArgs, paint: (Color, Color) -> Color, k: int): Color
    requires |d| == dw * dh && |s| == sw * sh && 0 <= k < |d|
  {
    var X, Y := k % dw, k / dw;
    var i, j := X - b.dx, Y - b.dy;
    if Covered(b, dw, dh, sw, sh, i, j) then
      Arith.IndexInside(b.sy + j, b.sx + i, sw, sh);
      paint(s[(b.sy + j) * sw + b.sx + i], d[k])
    else d[k]
  }

  /** The destination after a blit: every destination pixel (dx+i, dy+j)
      whose offset is covered by both canvases is painted with source pixel
      (sx+i, sy+j); every other pixel keeps its value. */
  function BlitSpec(d: seq<Color>, s: seq<Color>, dw: u32, dh: u32, sw: u32, sh: u32,
                    b: BlitArgs, paint: (Color, Color) -> Color): (r: seq<Color>)
    requires |d| == dw * dh && |s| == sw * sh
    ensures |r| == |d|
  {
    seq(|d|, k requires 0 <= k < |d| => BlitPixel(d, s, dw, dh, sw, sh, b, paint, k))
  }

  /** First covered column offset: max(0, -dx, -sx). */
  function ClipLo(d: int, s: int): int
  {
    Max(0, Max(-d, -s))
  }

  /** One past the last covered column offset: min(w, dw-dx, sw-sx). */
  function ClipHi(n: int, d: int, dn: int, s: int, sn: int): int
  {
    Min(n, Min(dn - d, sn - s))
  }

  /** A blit whose covered offsets are empty in one direction changes
      nothing. */
  lemma BlitEmpty(d: seq<Color>, s: seq<Color>, dw: u32, dh: u32, sw: u32, sh: u32,
                  b: BlitArgs, paint: (Color, Color) -> Color)
    requires |d| == dw * dh && |s| == sw * sh
    requires || ClipHi(b.w, b.dx, AsI32(dw), b.sx, AsI32(sw)) <= ClipLo(b.dx, b.sx)
             || ClipHi(b.h, b.dy, AsI32(dh), b.sy, AsI32(sh)) <= ClipLo(b.dy, b.sy)
    ensures BlitSpec(d, s, dw, dh, sw, sh, b, paint) == d
  {
    var r := BlitSpec(d, s, dw, dh, sw, sh, b, paint);
    forall k | 0 <= k < |d| ensures r[k] == d[k] {
      var X, Y := k % dw, k / dw;
      assert !Covered(b, dw, dh, sw, sh, X - b.dx, Y - b.dy);
    }
  }

  /** Clipping is exact: the rectangle the clipping code arrives at, which
      starts lo = ClipLo columns (rows) into the requested one and spans up to
      hi = ClipHi, paints the same pixels with the same source pixels as the
      requested rectangle does. */
  lemma ClipExact(d: seq<Color>, s: seq<Color>, dw: u32, dh: u32, sw: u32, sh: u32,
                  b0: BlitArgs, b: BlitArgs, paint: (Color, Color) -> Color)
    requires |d| == dw * dh && |s| == sw * sh
    requires b.dx == b0.dx + ClipLo(b0.dx, b0.sx) && b.sx == b0.sx + ClipLo(b0.dx, b0.sx)
    requires b.w == ClipHi(b0.w, b0.dx, AsI32(dw), b0.sx, AsI32(sw)) - ClipLo(b0.dx, b0.sx)
    requires b.dy == b0.dy + ClipLo(b0.dy, b0.sy) && b.sy == b0.sy + ClipLo(b0.dy, b0.sy)
    requires b.h == ClipHi(b0.h, b0.dy, AsI32(dh), b0.sy, AsI32(sh)) - ClipLo(b0.dy, b0.sy)
    ensures BlitSpec(d, s, dw, dh, sw, sh, b, paint) == BlitSpec(d, s, dw, dh, sw, sh, b0, paint)
  {
    var r, r0 := BlitSpec(d, s, dw, dh, sw, sh, b, paint), BlitSpec(d, s, dw, dh, sw, sh, b0, paint);
    forall k | 0 <= k < |d| ensures r[k] == r0[k] {
      var X, Y := k % dw, k / dw;
      assert Covered(b, dw, dh, sw, sh, X - b.dx, Y - b.dy)
        <==> Covered(b0, dw, dh, sw, sh, X - b0.dx, Y - b0.dy);
    }
  }

  /** The in-bounds conditions under which the clipped rectangle b has its
      next row painted: b.h rows are done, the next one starts at sp in the
      source and at dp in the destination. */
  ghost predicate RowReady(dw: u32, dh: u32, sw: u32, sh: u32, b: BlitArgs, sp: int, dp: int)
  {
    && 0 < b.w && 0 <= b.h
    && 0 <= b.dx && b.dx + b.w <= AsI32(dw) && 0 <= b.sx && b.sx + b.w <= AsI32(sw)
    && 0 <= b.dy && b.dy + b.h < AsI32(dh) && 0 <= b.sy && b.sy + b.h < AsI32(sh)
    && sp == (b.sy + b.h) * sw + b.sx && dp == (b.dy + b.h) * dw + b.dx
  }

  /** The next row of a ready rectangle lies inside both buffers. */
  lemma RowInside(dw: u32, dh: u32, sw: u32, sh: u32, b: BlitArgs, sp: int, dp: int)
    requires RowReady(dw, dh, sw, sh, b, sp, dp)
    ensures 0 <= sp && sp + b.w <= sw * sh && 0 <= dp && dp + b.w <= dw * dh
  {
    Arith.RowFits(b.sy + b.h, b.sx, b.w, sw, sh, sp);
    Arith.RowFits(b.dy + b.h, b.dx, b.w, dw, dh, dp);
  }

  /** One pixel of `BlitRowStep`. */
  lemma BlitRowPixel(d: seq<Color>, s: seq<Color>, dw: u32, dh: u32, sw: u32, sh: u32,
                     b: BlitArgs, paint: (Color, Color) -> Color, sp: int, dp: int, k: int)
    requires |d| == dw * dh && |s| == sw * sh && 0 <= k < |d|
    requires RowReady(dw, dh, sw, sh, b, sp, dp)
    ensures 0 <= sp && sp + b.w <= |s|
    ensures BlitPixel(d, s, dw, dh, sw, sh, b.(h := b.h + 1), paint, k)
            == if dp <= k < dp + b.w then paint(s[sp + k - dp], BlitPixel(d, s, dw, dh, sw, sh, b, paint, k))
               else BlitPixel(d, s, dw, dh, sw, sh, b, paint, k)
  {
    RowInside(dw, dh, sw, sh, b, sp, dp);
    var X, Y := k % dw, k / dw;
    Arith.RowSpan(k, dw, b.dy + b.h, b.dx, b.w);
    if dp <= k < dp + b.w {
      Arith.Decompose(k, dw);
      assert Y == b.dy + b.h;
      assert X - b.dx == k - dp;
      assert (b.sy + (Y - b.dy)) * sw == (b.sy + b.h) * sw;
    }
  }

  /** Painting one more row of a ready rectangle is a `PaintSpan` over that
      row. */
  lemma BlitRowStep(d: seq<Color>, s: seq<Color>, dw: u32, dh: u32, sw: u32, sh: u32,
                    b: BlitArgs, paint: (Color, Color) -> Color, sp: int, dp: int)
    requires |d| == dw * dh && |s| == sw * sh
    requires RowReady(dw, dh, sw, sh, b, sp, dp)
    ensures 0 <= sp && sp + b.w <= |s| && 0 <= dp && dp + b.w <= |d|
    ensures BlitSpec(d, s, dw, dh, sw, sh, b.(h := b.h + 1), paint)
            == PaintSpan(BlitSpec(d, s, dw, dh, sw, sh, b, paint), s, sp, dp, b.w, paint)
  {
    RowInside(dw, dh, sw, sh, b, sp, dp);
    var cur := BlitSpec(d, s, dw, dh, sw, sh, b, paint);
    var lhs := BlitSpec(d, s, dw, dh, sw, sh, b.(h := b.h + 1), paint);
    var rhs := PaintSpan(cur, s, sp, dp, b.w, paint);
    forall k | 0 <= k < |d| ensures lhs[k] == rhs[k] {
      BlitRowPixel(d, s, dw, dh, sw, sh, b, paint, sp, dp, k);
    }
  }

  /** The clipping steps of `blit` along one axis, for a span of n pixels
      at d in a destination of dn pixels and at s in a source of sn pixels:
      the early returns, the span cut to each far edge, then moved past each
      near edge. It is visible exactly when some offset is covered by both,
      and then it is the covered range [ClipLo, ClipHi), which lies inside
      both. */
  method ClipAxis(d0: int, s0: int, n0: int, dn: int, sn: int) returns (visible: bool, d: int, s: int, n: int)
    ensures visible <==> ClipLo(d0, s0) < ClipHi(n0, d0, dn, s0, sn)
    ensures visible ==> && d == d0 + ClipLo(d0, s0) && s == s0 + ClipLo(d0, s0)
                        && n == ClipHi(n0, d0, dn, s0, sn) - ClipLo(d0, s0)
    ensures visible ==> 0 < n && 0 <= d && d + n <= dn && 0 <= s && s + n <= sn
  {
    d, s, n := d0, s0, n0;
    if d >= dn || d + n <= 0 { return false, d, s, n; }
    if s >= sn || s + n <= 0 { return false, d, s, n; }

    if d + n > dn { n := dn - d; }
    if s + n > sn { n := sn - s; }

    if d < 0 {
      n := n + d;
      s := s - d;
      d := 0;
    }
    if s < 0 {
      n := n + s;
      d := d - s;
      s := 0;
    }
    visible := n > 0;
  }

  /** The clipping of `blit`: nothing is drawn for a zero width or height,
      and otherwise the two axes are clipped independently (the source
      interleaves their steps, but no step of one axis reads a variable of
      the other). */
  method ClipBlit(b0: BlitArgs, dw: int, dh: int, sw: int, sh: int) returns (visible: bool, b: BlitArgs)
    ensures visible <==> && ClipLo(b0.dx, b0.sx) < ClipHi(b0.w, b0.dx, dw, b0.sx, sw)
                         && ClipLo(b0.dy, b0.sy) < ClipHi(b0.h, b0.dy, dh, b0.sy, sh)
    ensures visible ==>
              var lx, ly := ClipLo(b0.dx, b0.sx), ClipLo(b0.dy, b0.sy);
              b == BlitArgs(b0.dx + lx, b0.dy + ly, b0.sx + lx, b0.sy + ly,
                            ClipHi(b0.w, b0.dx, dw, b0.sx, sw) - lx, ClipHi(b0.h, b0.dy, dh, b0.sy, sh) - ly)
    ensures visible ==> && 0 < b.w && 0 < b.h
                        && 0 <= b.dx && b.dx + b.w <= dw && 0 <= b.dy && b.dy + b.h <= dh
                        && 0 <= b.sx && b.sx + b.w <= sw && 0 <= b.sy && b.sy + b.h <= sh
  {
    b := b0;
    if b0.w == 0 || b0.h == 0 {
      return false, b;
    }
    var vx, dx, sx, w := ClipAxis(b0.dx, b0.sx, b0.w, dw, sw);
    var vy, dy, sy, h := ClipAxis(b0.dy, b0.sy, b0.h, dh, sh);
    if !vx || !vy {
      return false, b;
    }
    return true, BlitArgs(dx, dy, sx, sy, w, h);
  }

  // ---------------------------------------------------------------------
  // Glyph drawing

  /** Pixel (cx, cy) of glyph g. */
  function GlyphAt(g: Glyph, cx: int, cy: int): Color
    requires ValidGlyph(g) && 0 <= cx < g.w && 0 <= cy < g.h
  {
    Arith.IndexInside(cy, cx, g.w, g.h);
    g.data[cy * g.w + cx]
  }

  /** Glyph pixel i of the row-major data is pixel (i % w, i / w). */
  lemma GlyphAtIndex(g: Glyph, i: int)
    requires ValidGlyph(g) && 0 <= i < |g.data|
    ensures g.w > 0 && 0 <= i / g.w < g.h && GlyphAt(g, i % g.w, i / g.w) == g.data[i]
  {
    if g.w == 0 { Arith.MulNonneg(g.w, g.h); }
    Arith.RowBelow(i, g.w, g.h);
    Arith.Decompose(i, g.w);
  }

  /** Glyph pixel (cx, cy) comes before pixel n in row-major order, i.e.
      cy·gw + cx < n, written without the product. */
  predicate Before(cx: int, cy: int, n: int, gw: int)
    requires gw > 0
  {
    cy < n / gw || (cy == n / gw && cx < n % gw)
  }

  /** Pixel n is the one pixel that is before n+1 but not before n. */
  lemma BeforeStep(cx: int, cy: int, n: int, gw: int)
    requires gw > 0 && 0 <= cx < gw && 0 <= n
    ensures Before(cx, cy, n + 1, gw) <==> Before(cx, cy, n, gw) || (cx == n % gw && cy == n / gw)
  {
    Arith.Decompose(n, gw);
    if n % gw + 1 < gw {
      Arith.DivModUnique(n + 1, gw, n / gw, n % gw + 1);
    } else {
      Arith.DivModUnique(n + 1, gw, n / gw + 1, 0);
    }
  }

  /** Canvas pixel (X, Y) is painted by the first n pixels of glyph g drawn
      at (x, y): it lies under one of them, that glyph pixel is nonzero, and
      the canvas pixel is inside the canvas (`contains`). */
  predicate GlyphCovers(X: int, Y: int, cw: u32, ch: u32, g: Glyph, x: int, y: int, n: int)
    requires ValidGlyph(g)
  {
    && 0 <= X - x < g.w && 0 <= Y - y < g.h && Before(X - x, Y - y, n, g.w)
    && GlyphAt(g, X - x, Y - y) != 0 && 0 <= X < AsI32(cw) && 0 <= Y < AsI32(ch)
  }

  /** Drawing glyph pixel i adds exactly canvas pixel (x + i%w, y + i/w) to
      the painted set, when it is inside the canvas and the glyph pixel is
      nonzero. */
  lemma GlyphCoversStep(X: int, Y: int, cw: u32, ch: u32, g: Glyph, x: int, y: int, i: int)
    requires ValidGlyph(g) && 0 <= i < |g.data|
    ensures g.w > 0
    ensures GlyphCovers(X, Y, cw, ch, g, x, y, i + 1)
            <==> || GlyphCovers(X, Y, cw, ch, g, x, y, i)
                 || (&& X == x + i % g.w && Y == y + i / g.w
                     && 0 <= X < AsI32(cw) && 0 <= Y < AsI32(ch) && g.data[i] != 0)
    ensures X == x + i % g.w && Y == y + i / g.w ==> !GlyphCovers(X, Y, cw, ch, g, x, y, i)
  {
    GlyphAtIndex(g, i);
    if 0 <= X - x < g.w {
      BeforeStep(X - x, Y - y, i, g.w);
    }
  }

  /** The canvas after the first n iterations of the `draw_char` loop:
      glyph pixel i, at (i % w, i / w) of the glyph, blends `col` over the
      canvas pixel under it when it is nonzero and that pixel is inside the
      canvas (`set_pixel` of `blend` of `get_pixel`). */
  function GlyphPaint(d: seq<Color>, cw: u32, ch: u32, g: Glyph, x: int, y: int, col: Color, paint: (Color, Color) -> Color, n: int): (r: seq<Color>)
    requires |d| == cw * ch && ValidGlyph(g) && 0 <= n <= |g.data|
    ensures |r| == |d|
    decreases n
  {
    if n == 0 then d
    else
      var r := GlyphPaint(d, cw, ch, g, x, y, col, paint, n - 1);
      var i := n - 1;
      GlyphAtIndex(g, i);
      var X, Y := x + i % g.w, y + i / g.w;
      if g.data[i] != 0 && 0 <= X < AsI32(cw) && 0 <= Y < AsI32(ch) then
        Arith.IndexInside(Y, X, cw, ch);
        r[Y * cw + X := paint(col, r[Y * cw + X])]
      else r
  }

  /** The closed form of the `draw_char` loop: after n glyph pixels, a canvas
      pixel has `col` blended over its original value exactly when one of
      those glyph pixels covers it, and keeps its value otherwise. Each
      canvas pixel is blended at most once, because distinct glyph pixels lie
      over distinct canvas pixels. */
  lemma {:induction false} GlyphPaintCovers(d: seq<Color>, cw: u32, ch: u32, g: Glyph, x: int, y: int, col: Color, paint: (Color, Color) -> Color,
                                            n: int, k: int)
    requires |d| == cw * ch && ValidGlyph(g) && 0 <= n <= |g.data| && 0 <= k < |d|
    ensures cw > 0
    ensures GlyphPaint(d, cw, ch, g, x, y, col, paint, n)[k]
            == if GlyphCovers(k % cw, k / cw, cw, ch, g, x, y, n) then paint(col, d[k]) else d[k]
    decreases n
  {
    Arith.PosFactor(cw, ch);
    var X, Y := k % cw, k / cw;
    if n > 0 {
      var i := n - 1;
      GlyphPaintCovers(d, cw, ch, g, x, y, col, paint, i, k);
      GlyphCoversStep(X, Y, cw, ch, g, x, y, i);
      var PX, PY := x + i % g.w, y + i / g.w;
      if g.data[i] != 0 && 0 <= PX < AsI32(cw) && 0 <= PY < AsI32(ch) {
        Arith.RowCol(PY, PX, cw);
        SameCell(k, PY * cw + PX, cw);
      }
    }
  }

  /** Once every glyph pixel has been drawn, a canvas pixel is painted
      exactly when it lies under a nonzero pixel of the glyph and inside the
      canvas. */
  lemma GlyphCoversAll(X: int, Y: int, cw: u32, ch: u32, g: Glyph, x: int, y: int)
    requires ValidGlyph(g)
    ensures GlyphCovers(X, Y, cw, ch, g, x, y, |g.data|)
            <==> && 0 <= X - x < g.w && 0 <= Y - y < g.h && GlyphAt(g, X - x, Y - y) != 0
                 && 0 <= X < AsI32(cw) && 0 <= Y < AsI32(ch)
  {
    if g.w > 0 {
      Arith.DivModUnique(|g.data|, g.w, g.h, 0);
    }
  }

  /** What `draw_char` does to the canvas: nothing for an unmapped character,
      otherwise the whole glyph painted in `col` at (x, y). */
  function DrawCharSpec(d: seq<Color>, cw: u32, ch: u32, f: Font, x: int, y: int, col: Color, paint: (Color, Color) -> Color, c: char): (r: seq<Color>)
    requires |d| == cw * ch && ValidFont(f)
    ensures |r| == |d|
  {
    match GetGlyph(f, c)
    case None => d
    case Some(g) => GlyphPaint(d, cw, ch, g, x, y, col, paint, |g.data|)
  }

  /** What `draw_text` does: each character drawn in turn, the pen moving
      right by the width of the character just drawn. */
  function DrawTextSpec(d: seq<Color>, cw: u32, ch: u32, f: Font, x: int, y: int, col: Color, paint: (Color, Color) -> Color, t: string): (r: seq<Color>)
    requires |d| == cw * ch && ValidFont(f)
    ensures |r| == |d|
    decreases |t|
  {
    if t == [] then d
    else DrawTextSpec(DrawCharSpec(d, cw, ch, f, x, y, col, paint, t[0]), cw, ch, f, x + CharWidth(f, t[0]), y, col, paint, t[1..])
  }

  /** Drawing s + t draws s, then t with the pen moved right by the width
      of s. */
  lemma {:induction false} DrawTextAppend(d: seq<Color>, cw: u32, ch: u32, f: Font, x: int, y: int, col: Color, paint: (Color, Color) -> Color, s: string, t: string)
    requires |d| == cw * ch && ValidFont(f)
    ensures DrawTextSpec(d, cw, ch, f, x, y, col, paint, s + t)
            == DrawTextSpec(DrawTextSpec(d, cw, ch, f, x, y, col, paint, s), cw, ch, f, x + StrWidth(f, s), y, col, paint, t)
    decreases |s|
  {
    if s == [] {
      assert s + t == t;
    } else {
      assert (s + t)[0] == s[0];
      assert (s + t)[1..] == s[1..] + t;
      DrawTextAppend(DrawCharSpec(d, cw, ch, f, x, y, col, paint, s[0]), cw, ch, f, x + CharWidth(f, s[0]), y, col, paint, s[1..], t);
    }
  }

  /** Drawing the first i + 1 characters of t draws the first i, then
      character i at the pen position they leave. */
  lemma DrawTextStep(d: seq<Color>, cw: u32, ch: u32, f: Font, x: int, y: int, col: Color, paint: (Color, Color) -> Color, t: string, i: int)
    requires |d| == cw * ch && ValidFont(f) && 0 <= i < |t|
    ensures DrawTextSpec(d, cw, ch, f, x, y, col, paint, t[..i + 1])
            == DrawCharSpec(DrawTextSpec(d, cw, ch, f, x, y, col, paint, t[..i]), cw, ch, f, x + StrWidth(f, t[..i]), y, col, paint, t[i])
  {
    assert t[..i + 1] == t[..i] + [t[i]];
    DrawTextAppend(d, cw, ch, f, x, y, col, paint, t[..i], [t[i]]);
    var e := DrawTextSpec(d, cw, ch, f, x, y, col, paint, t[..i]);
    assert [t[i]][1..] == [];
    assert DrawTextSpec(e, cw, ch, f, x + StrWidth(f, t[..i]), y, col, paint, [t[i]])
        == DrawCharSpec(e, cw, ch, f, x + StrWidth(f, t[..i]), y, col, paint, t[i]);
  }

  /** Two indices of a cw-wide buffer are equal exactly when their rows and
      columns are. */
  lemma SameCell(k: int, T: int, cw: int)
    requires cw > 0
    ensures k == T <==> (k % cw == T % cw && k / cw == T / cw)
  {
    Arith.Decompose(k, cw);
    Arith.Decompose(T, cw);
  }

  // ---------------------------------------------------------------------
  // The canvas

  // ---------------------------------------------------------------------
  // `clear` as written

  /** Whether `clear`, as written, writes buffer index k: row 0 by its
      first loop (`for x in 0..w`), then rows 1..h by copying row 0 into
      each. */
  predicate ClearWritesAsWritten(w: nat, h: nat, k: int)
  {
    (0 <= k < w) || (w <= k < h * w)
  }

  /** As written, `clear` stays inside a w×h buffer exactly when the canvas
      has a row or no columns: on a canvas with columns and no rows it writes
      w pixels of a buffer that has none. */
  lemma ClearInBoundsIff(w: nat, h: nat)
    ensures (forall k | ClearWritesAsWritten(w, h, k) :: 0 <= k < w * h) <==> (h > 0 || w == 0)
  {
    if h > 0 {
      Arith.MulMono(1, h, w);
    } else if w > 0 {
      assert ClearWritesAsWritten(w, h, 0);
    }
  }

  /** The input that shows it: `Canvas::from_raw(5, 0, vec![])` is accepted
      (5·0 is the length of the empty vector), and clearing that canvas
      writes index 0 of an empty buffer. */
  lemma ClearEmptyRowsExample()
    ensures var empty: seq<Color> := []; 5 * 0 == |empty|
    ensures ClearWritesAsWritten(5, 0, 0) && !(0 < 5 * 0)
  {
  }

  class Canvas {
    const w: u32
    const h: u32
    const data: array<Color>

    ghost predicate Valid()
    {
      data.Length == w * h
    }

    /** The struct literal `Canvas { w, h, data }`. */
    constructor Wrap(w: u32, h: u32, data: array<Color>)
      requires data.Length == w * h
      ensures this.w == w && this.h == h && this.data == data && Valid()
    {
      this.w := w;
      this.h := h;
      this.data := data;
    }

    /** `Canvas::new`: a width×height canvas filled with `col`. */
    static method New(width: u32, height: u32, col: Color) returns (r: Outcome<Canvas>)
      ensures r.Panic? <==> width == 0 || height == 0
      ensures r.Panic? ==> r.msg == "Canvas::new(): width and height can't be zero"
      ensures r.Done? ==>
                && fresh(r.value) && fresh(r.value.data) && r.value.Valid()
                && r.value.w == width && r.value.h == height
                && forall k | 0 <= k < r.value.data.Length :: r.value.data[k] == col
    {
      if width == 0 || height == 0 {
        return Panic("Canvas::new(): width and height can't be zero");
      }
      var a := new Color[width * height];
      var c := new Canvas.Wrap(width, height, a);
      c.Clear(col);
      return Done(c);
    }

    /** `Canvas::from_raw`: wraps `pixels` as a w×h canvas. */
    static method FromRaw(w: u32, h: u32, pixels: seq<Color>) returns (r: Outcome<Canvas>)
      ensures r.Panic? <==> w * h != |pixels|
      ensures r.Panic? ==> r.msg == "Canvas::from_raw(): invalid dimensions"
      ensures r.Done? ==>
                && fresh(r.value) && fresh(r.value.data) && r.value.Valid()
                && r.value.w == w && r.value.h == h && r.value.data[..] == pixels
    {
      if w * h != |pixels| {
        return Panic("Canvas::from_raw(): invalid dimensions");
      }
      var a := new Color[|pixels|](k requires 0 <= k < |pixels| => pixels[k]);
      var c := new Canvas.Wrap(w, h, a);
      return Done(c);
    }

    /** `Canvas::clear`: fills row 0 with `col`, then copies row 0 into each
        following row. Unlike the source, the first row is only filled when
        the canvas has one (see `ClearWritesAsWritten`); every pixel then
        holds `col`. */
    method Clear(col: Color)
      requires Valid()
      modifies data
      ensures forall k | 0 <= k < data.Length :: data[k] == col
    {
      if h == 0 {
        return;
      }
      Arith.NextRow(0, w, h, 0);
      var x := 0;
      while x < w
        invariant 0 <= x <= w
        invariant forall k | 0 <= k < x :: data[k] == col
      {
        data[x] := col;
        x := x + 1;
      }
      var row, dp := 1, w;
      while row < h
        invariant 1 <= row <= h && dp == row * w && w <= dp
        invariant forall k | 0 <= k < dp :: data[k] == col
      {
        Arith.NextRow(row, w, h, dp);
        CopyFirstRow(dp, col);
        row, dp := row + 1, dp + w;
      }
    }

    /** One step of the second loop of `clear`: row 0 is copied to the row
        starting at dp, behind rows that already hold `col`. */
    method CopyFirstRow(dp: int, ghost col: Color)
      requires w <= dp && dp + w <= data.Length
      requires forall k | 0 <= k < dp :: data[k] == col
      modifies data
      ensures forall k | 0 <= k < dp + w :: data[k] == col
    {
      forall k | dp <= k < dp + w {
        data[k] := data[k - dp];
      }
    }

    /** `size()`: the dimensions, which describe the whole buffer. */
    function Size(): (r: (u32, u32))
      requires Valid()
      ensures r.0 * r.1 == data.Length
    {
      (w, h)
    }

    /** `contains(x, y)`: (x, y) is a pixel of the canvas. */
    predicate Contains(x: int, y: int)
      ensures Contains(x, y) ==> 0 <= x < w && 0 <= y < h
      ensures w < 0x8000_0000 && h < 0x8000_0000 ==> (Contains(x, y) <==> 0 <= x < w && 0 <= y < h)
    {
      x >= 0 && x < AsI32(w) && y >= 0 && y < AsI32(h)
    }

    /** Index of pixel (x, y), inside the buffer. */
    function Index(x: int, y: int): (k: nat)
      requires 0 <= x < w && 0 <= y < h
      ensures k == y * w + x && k < w * h
    {
      Arith.IndexInside(y, x, w, h);
      y * w + x
    }

    /** `get_pixel(x, y)`: the pixel, or colour 0 outside the canvas. */
    function GetPixel(x: int, y: int): (c: Color)
      requires Valid()
      reads data
      ensures Contains(x, y) ==> c == data[Index(x, y)]
      ensures !Contains(x, y) ==> c == 0
    {
      if Contains(x, y) then data[Index(x, y)] else 0
    }

    /** `set_pixel(x, y, col)`: writes pixel (x, y) if it is inside the
        canvas, and does nothing otherwise. */
    method SetPixel(x: int, y: int, col: Color)
      requires Valid()
      modifies data
      ensures Contains(x, y) ==> data[..] == old(data[..])[Index(x, y) := col] && GetPixel(x, y) == col
      ensures !Contains(x, y) ==> data[..] == old(data[..])
    {
      if Contains(x, y) {
        data[Index(x, y)] := col;
      }
    }

    /** `sub(x, y, width, height)`: a new canvas holding a copy of the
        width×height window at (x, y), copied row by row. */
    method Sub(x: u32, y: u32, width: u32, height: u32) returns (r: Outcome<Canvas>)
      requires Valid()
      ensures r.Panic? <==> width == 0 || height == 0 || x + width > w || y + height > h
      ensures r.Panic? ==> r.msg == (if width == 0 || height == 0 then "Canvas.sub(): invalid width or height"
                                     else "Canvas.sub(): invalid region")
      ensures r.Done? ==>
                && x + width <= w && (y + height) * w <= data.Length
                && fresh(r.value) && fresh(r.value.data) && r.value.Valid()
                && r.value.w == width && r.value.h == height
                && r.value.data[..] == SubRows(data[..], w, x, y, width, height)
    {
      if width == 0 || height == 0 {
        return Panic("Canvas.sub(): invalid width or height");
      }
      if x + width > w || y + height > h {
        return Panic("Canvas.sub(): invalid region");
      }
      Arith.MulMono(y + height, h, w);
      var a := CopyWindow(data[..], w, x, y, width, height);
      var c := new Canvas.Wrap(width, height, a);
      return Done(c);
    }

    /** The row loop of `sub`: copies the width×height window at (x, y) of a
        buffer with rows of `stride` pixels into a new buffer, one row at a
        time. */
    static method CopyWindow(src: seq<Color>, stride: nat, x: nat, y: nat, width: nat, height: nat)
      returns (a: array<Color>)
      requires x + width <= stride && (y + height) * stride <= |src|
      ensures fresh(a) && a.Length == width * height && a[..] == SubRows(src, stride, x, y, width, height)
    {
      a := new Color[width * height];
      var sp := y * stride + x;
      var dp := 0;
      var row := 0;
      while row < height
        invariant 0 <= row <= height
        invariant sp == (y + row) * stride + x && dp == row * width
        invariant a[..dp] == SubRows(src, stride, x, y, width, row)
      {
        CopyWindowStep(src, stride, x, y, width, height, row, sp, dp);
        ghost var before := a[..];
        forall k | dp <= k < dp + width {
          a[k] := src[sp + k - dp];
        }
        CopyWindowRow(before, a[..], src, stride, x, y, width, row, sp, dp);
        sp, dp, row := sp + stride, dp + width, row + 1;
      }
      Arith.MulComm(height, width);
      assert a[..] == a[..dp];
    }

    /** The inner loop of the alpha blit: paints n source pixels from
        `o.data[sp..]` over `data[dp..]`, one pixel at a time (`blit` paints
        with `Color::blend`). */
    method PaintRow(o: Canvas, sp: int, dp: int, n: nat, paint: (Color, Color) -> Color)
      requires o.data != data
      requires 0 <= sp && sp + n <= o.data.Length && 0 <= dp && dp + n <= data.Length
      modifies data
      ensures data[..] == PaintSpan(old(data[..]), o.data[..], sp, dp, n, paint)
    {
      ghost var cur := data[..];
      var x := 0;
      while x < n
        invariant 0 <= x <= n
        invariant data[..] == PaintSpan(cur, o.data[..], sp, dp, x, paint)
      {
        PaintSpanStep(cur, o.data[..], sp, dp, x, paint);
        data[dp + x] := paint(o.data[sp + x], data[dp + x]);
        x := x + 1;
      }
    }

    /** `copy_nonoverlapping` of n source pixels from `o.data[sp..]` to
        `data[dp..]`. */
    method CopyRow(o: Canvas, sp: int, dp: int, n: nat)
      requires o.data != data
      requires 0 <= sp && sp + n <= o.data.Length && 0 <= dp && dp + n <= data.Length
      modifies data
      ensures data[..] == PaintSpan(old(data[..]), o.data[..], sp, dp, n, Copy)
    {
      forall k | dp <= k < dp + n {
        data[k] := o.data[sp + k - dp];
      }
    }

    /** `blit(dx, dy, o, sx, sy, w, h, alpha)`: paints the width×height
        rectangle of `o` at (sx, sy) onto this canvas at (dx, dy), after
        clipping it against both canvases step by step as the source does.
        The result is exactly `BlitSpec`: only pixels whose offset lands
        inside both canvases change, every read and write is in bounds, and
        the clipping neither loses nor shifts a pixel. */
    method Blit(dx0: i32, dy0: i32, o: Canvas, sx0: i32, sy0: i32, width: u32, height: u32, alpha: bool)
      requires Valid() && o.Valid() && o.data != data
      modifies data
      ensures data[..] == BlitSpec(old(data[..]), o.data[..], w, h, o.w, o.h,
                                   BlitArgs(dx0, dy0, sx0, sy0, AsI32(width), AsI32(height)), Painter(alpha))
    {
      ghost var d0, s := data[..], o.data[..];
      var b0 := BlitArgs(dx0, dy0, sx0, sy0, AsI32(width), AsI32(height));
      var visible, b := ClipBlit(b0, AsI32(w), AsI32(h), AsI32(o.w), AsI32(o.h));
      if !visible {
        BlitEmpty(d0, s, w, h, o.w, o.h, b0, Painter(alpha));
        return;
      }
      ClipExact(d0, s, w, h, o.w, o.h, b0, b, Painter(alpha));
      if alpha {
        PaintRows(o, b, Blend);
      } else {
        CopyRows(o, b);
      }
    }

    /** One row of the alpha loop of `blit`: row `row` of the clipped
        rectangle, read from `sp` on in the source and painted from `dp` on
        here. */
    method PaintRowAt(o: Canvas, b: BlitArgs, paint: (Color, Color) -> Color, row: int, sp: int, dp: int, ghost d0: seq<Color>)
      requires Valid() && o.Valid() && o.data != data && |d0| == w * h
      requires 0 <= row < b.h && RowReady(w, h, o.w, o.h, b.(h := row), sp, dp)
      requires data[..] == BlitSpec(d0, o.data[..], w, h, o.w, o.h, b.(h := row), paint)
      modifies data
      ensures data[..] == BlitSpec(d0, o.data[..], w, h, o.w, o.h, b.(h := row + 1), paint)
    {
      BlitRowStep(d0, o.data[..], w, h, o.w, o.h, b.(h := row), paint, sp, dp);
      PaintRow(o, sp, dp, b.w, paint);
      assert b.(h := row).(h := row + 1) == b.(h := row + 1);
    }

    /** One row of the raw-copy loop of `blit`. */
    method CopyRowAt(o: Canvas, b: BlitArgs, row: int, sp: int, dp: int, ghost d0: seq<Color>)
      requires Valid() && o.Valid() && o.data != data && |d0| == w * h
      requires 0 <= row < b.h && RowReady(w, h, o.w, o.h, b.(h := row), sp, dp)
      requires data[..] == BlitSpec(d0, o.data[..], w, h, o.w, o.h, b.(h := row), Copy)
      modifies data
      ensures data[..] == BlitSpec(d0, o.data[..], w, h, o.w, o.h, b.(h := row + 1), Copy)
    {
      BlitRowStep(d0, o.data[..], w, h, o.w, o.h, b.(h := row), Copy, sp, dp);
      CopyRow(o, sp, dp, b.w);
      assert b.(h := row).(h := row + 1) == b.(h := row + 1);
    }

    /** The alpha loop of `blit`, once the rectangle b has been clipped to
        both canvases: row by row, the source offset advancing by the
        source width and the destination offset by the destination width,
        each row painted pixel by pixel (with `Color::blend`). */
    method PaintRows(o: Canvas, b: BlitArgs, paint: (Color, Color) -> Color)
      requires Valid() && o.Valid() && o.data != data
      requires 0 < b.w && 0 < b.h
      requires 0 <= b.dx && b.dx + b.w <= AsI32(w) && 0 <= b.dy && b.dy + b.h <= AsI32(h)
      requires 0 <= b.sx && b.sx + b.w <= AsI32(o.w) && 0 <= b.sy && b.sy + b.h <= AsI32(o.h)
      modifies data
      ensures data[..] == BlitSpec(old(data[..]), o.data[..], w, h, o.w, o.h, b, paint)
    {
      ghost var d0, s := data[..], o.data[..];
      var dw, sw := AsI32(w), AsI32(o.w);
      var sp := b.sy * sw + b.sx;
      var dp := b.dy * dw + b.dx;
      var row := 0;
      assert data[..] == BlitSpec(d0, s, w, h, o.w, o.h, b.(h := 0), paint);
      while row < b.h
        invariant 0 <= row <= b.h
        invariant sp == (b.sy + row) * o.w + b.sx && dp == (b.dy + row) * w + b.dx
        invariant data[..] == BlitSpec(d0, s, w, h, o.w, o.h, b.(h := row), paint)
      {
        PaintRowAt(o, b, paint, row, sp, dp, d0);
        Arith.MulSucc(b.sy + row, o.w);
        Arith.MulSucc(b.dy + row, w);
        sp := sp + sw;
        dp := dp + dw;
        row := row + 1;
      }
      assert b.(h := row) == b;
    }

    /** The raw-copy loop of `blit`: the same rows, each copied with
        `copy_nonoverlapping`. */
    method CopyRows(o: Canvas, b: BlitArgs)
      requires Valid() && o.Valid() && o.data != data
      requires 0 < b.w && 0 < b.h
      requires 0 <= b.dx && b.dx + b.w <= AsI32(w) && 0 <= b.dy && b.dy + b.h <= AsI32(h)
      requires 0 <= b.sx && b.sx + b.w <= AsI32(o.w) && 0 <= b.sy && b.sy + b.h <= AsI32(o.h)
      modifies data
      ensures data[..] == BlitSpec(old(data[..]), o.data[..], w, h, o.w, o.h, b, Copy)
    {
      ghost var d0, s := data[..], o.data[..];
      var dw, sw := AsI32(w), AsI32(o.w);
      var sp := b.sy * sw + b.sx;
      var dp := b.dy * dw + b.dx;
      var row := 0;
      assert data[..] == BlitSpec(d0, s, w, h, o.w, o.h, b.(h := 0), Copy);
      while row < b.h
        invariant 0 <= row <= b.h
        invariant sp == (b.sy + row) * o.w + b.sx && dp == (b.dy + row) * w + b.dx
        invariant data[..] == BlitSpec(d0, s, w, h, o.w, o.h, b.(h := row), Copy)
      {
        CopyRowAt(o, b, row, sp, dp, d0);
        Arith.MulSucc(b.sy + row, o.w);
        Arith.MulSucc(b.dy + row, w);
        sp := sp + sw;
        dp := dp + dw;
        row := row + 1;
      }
      assert b.(h := row) == b;
    }

    /** `draw_char`: paints the glyph of `c` at (x, y), blending `col` over
        every canvas pixel under a nonzero glyph pixel, and returns the
        glyph's width (0 and no change for an unmapped character). */
    method DrawChar(font: Font, x: int, y: int, col: Color, c: char) returns (adv: int)
      requires Valid() && ValidFont(font)
      modifies data
      ensures adv == CharWidth(font, c)
      ensures data[..] == DrawCharSpec(old(data[..]), w, h, font, x, y, col, Blend, c)
    {
      var found := GetGlyph(font, c);
      if found.None? {
        return 0;
      }
      var g := found.value;
      ghost var d0 := data[..];
      assert GlyphPaint(d0, w, h, g, x, y, col, Blend, 0) == d0;
      var i := 0;
      while i < |g.data|
        invariant 0 <= i <= |g.data|
        invariant data[..] == GlyphPaint(d0, w, h, g, x, y, col, Blend, i)
      {
        DrawGlyphPixel(g, x, y, col, Blend, i, d0);
        i := i + 1;
      }
      return g.w;
    }

    /** One iteration of the `draw_char` loop: glyph pixel i, at
        (i % gw, i / gw) of the glyph, paints `col` over the canvas pixel
        under it when it is nonzero (`set_pixel` ignores pixels outside the
        canvas). `draw_char` paints with `Color::blend`. */
    method DrawGlyphPixel(g: Glyph, x: int, y: int, col: Color, paint: (Color, Color) -> Color, i: int, ghost d0: seq<Color>)
      requires Valid() && ValidGlyph(g) && 0 <= i < |g.data| && |d0| == w * h
      requires data[..] == GlyphPaint(d0, w, h, g, x, y, col, paint, i)
      modifies data
      ensures data[..] == GlyphPaint(d0, w, h, g, x, y, col, paint, i + 1)
    {
      GlyphAtIndex(g, i);
      ghost var r := data[..];
      var cx, cy := i % g.w, i / g.w;
      if g.data[i] != 0 {
        var under := GetPixel(x + cx, y + cy);
        SetPixel(x + cx, y + cy, paint(col, under));
        if Contains(x + cx, y + cy) {
          ghost var T := Index(x + cx, y + cy);
          assert data[..] == r[T := paint(col, r[T])];
        } else {
          assert data[..] == r;
        }
      } else {
        assert data[..] == r;
      }
      assert GlyphPaint(d0, w, h, g, x, y, col, paint, i) == r;
    }

    /** `draw_text`: draws the characters of `text` left to right from
        (x0, y), moving right by each width `draw_char` returns; the pen ends
        `str_width(text)` to the right of where it started. */
    method DrawText(font: Font, x0: int, y: int, col: Color, text: string)
      requires Valid() && ValidFont(font)
      modifies data
      ensures data[..] == DrawTextSpec(old(data[..]), w, h, font, x0, y, col, Blend, text)
    {
      ghost var d0 := data[..];
      var x: int := x0;
      var i := 0;
      while i < |text|
        invariant 0 <= i <= |text|
        invariant x == x0 + StrWidth(font, text[..i])
        invariant data[..] == DrawTextSpec(d0, w, h, font, x0, y, col, Blend, text[..i])
      {
        StrWidthStep(font, text, i);
        DrawTextStep(d0, w, h, font, x0, y, col, Blend, text, i);
        var adv := DrawChar(font, x, y, col, text[i]);
        x := x + adv;
        i := i + 1;
      }
      assert text[..i] == text;
    }
  }
}
