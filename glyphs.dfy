/** Glyphs and bitmap fonts (jmge/src/font.rs): the values and the pure queries.

    A `Font` maps character codes to indices into its glyph vector; a glyph is
    a w×h block of packed colours in row-major order. Building a font from a
    canvas is in module Fonts, because it slices the canvas with
    `Canvas::sub`. */
module Glyphs {

  import opened Wrappers
  import opened Colors
  import Arith

  /** `Glyph` with its accessors `width()`, `height()` and `data()` as fields. */
  datatype Glyph = Glyph(w: u32, h: u32, data: seq<Color>)

  datatype Font = Font(charMap: map<int, int>, glyphs: seq<Glyph>, height: u32)

  /** `Error::LoadFont`, the only error the modelled font code returns. */
  datatype FontError = LoadFont(msg: string)

  /** A glyph's data holds exactly its w×h pixels. */
  ghost predicate ValidGlyph(g: Glyph)
  {
    |g.data| == g.w * g.h
  }

  /** What every font the engine can build satisfies: the character map
      points into the glyph vector (so `get_glyph` never indexes out of
      bounds) and every glyph is well formed. */
  ghost predicate ValidFont(f: Font)
  {
    && (forall c | c in f.charMap :: 0 <= f.charMap[c] < |f.glyphs|)
    && (forall i | 0 <= i < |f.glyphs| :: ValidGlyph(f.glyphs[i]))
  }

  /** `Font::get_glyph`: the glyph the character map assigns to `ch`. */
  function GetGlyph(f: Font, ch: char): (r: Option<Glyph>)
    requires ValidFont(f)
    ensures r.None? <==> (ch as int) !in f.charMap
    ensures r.Some? ==> r.value in f.glyphs && ValidGlyph(r.value)
  {
    var code := ch as int;
    if code in f.charMap then Some(f.glyphs[f.charMap[code]]) else None
  }

  /** `Font::char_width`: the glyph's width, or 0 for an unmapped character. */
  function CharWidth(f: Font, ch: char): (r: u32)
    requires ValidFont(f)
    ensures (ch as int) !in f.charMap ==> r == 0
    ensures (ch as int) in f.charMap ==> r == f.glyphs[f.charMap[ch as int]].w
  {
    match GetGlyph(f, ch)
    case Some(g) => g.w
    case None => 0
  }

  /** `Font::str_width`: the sum of the character widths, so a string is
      at least as wide as each of its characters. */
  function StrWidth(f: Font, s: string): (r: nat)
    requires ValidFont(f)
    ensures forall i | 0 <= i < |s| :: CharWidth(f, s[i]) <= r
  {
    if s == [] then 0 else CharWidth(f, s[0]) + StrWidth(f, s[1..])
  }

  /** A string has width 0 exactly when every character in it does (an
      unmapped character, or a zero-width glyph). */
  lemma {:induction false} StrWidthZero(f: Font, s: string)
    requires ValidFont(f)
    ensures StrWidth(f, s) == 0 <==> forall i | 0 <= i < |s| :: CharWidth(f, s[i]) == 0
    decreases |s|
  {
    if s != [] {
      var rest := s[1..];
      StrWidthZero(f, rest);
      if forall i | 0 <= i < |s| :: CharWidth(f, s[i]) == 0 {
        forall i | 0 <= i < |rest| ensures CharWidth(f, rest[i]) == 0 {
          assert rest[i] == s[i + 1];
        }
      }
    }
  }

  /** The width of a concatenation is the sum of the widths. */
  lemma {:induction false} StrWidthAppend(f: Font, s: string, t: string)
    requires ValidFont(f)
    ensures StrWidth(f, s + t) == StrWidth(f, s) + StrWidth(f, t)
    decreases |s|
  {
    if s == [] {
      assert s + t == t;
    } else {
      assert (s + t)[0] == s[0];
      assert (s + t)[1..] == s[1..] + t;
      StrWidthAppend(f, s[1..], t);
    }
  }

  /** The width of a prefix grows by the width of the next character. */
  lemma StrWidthStep(f: Font, s: string, i: int)
    requires ValidFont(f) && 0 <= i < |s|
    ensures StrWidth(f, s[..i + 1]) == StrWidth(f, s[..i]) + CharWidth(f, s[i])
  {
    StrWidthAppend(f, s[..i], [s[i]]);
    assert s[..i + 1] == s[..i] + [s[i]];
    assert [s[i]][1..] == [];
  }

  /** In a font whose characters all have width cw, a string of n characters
      is n·cw wide. */
  lemma {:induction false} StrWidthUniform(f: Font, s: string, cw: nat)
    requires ValidFont(f)
    requires forall i | 0 <= i < |s| :: CharWidth(f, s[i]) == cw
    ensures StrWidth(f, s) == |s| * cw
    decreases |s|
  {
    if s != [] {
      var rest := s[1..];
      forall i | 0 <= i < |rest| ensures CharWidth(f, rest[i]) == cw {
        assert rest[i] == s[i + 1];
      }
      StrWidthUniform(f, rest, cw);
      assert StrWidth(f, s) == CharWidth(f, s[0]) + StrWidth(f, rest);
      Arith.MulSucc(|rest|, cw);
    }
  }
}
