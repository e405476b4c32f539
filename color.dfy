/** Packed RGBA colours (jmge/src/color.rs).

    A `Color` is a `u32` holding red in bits 0..7, green in 8..15, blue in
    16..23 and alpha in 24..31. The packing and the channel getters are
    defined by the values they compute; `Rgba8Shifts` and the getters'
    contracts prove that the shifts, ORs and masks the source writes compute
    exactly those values (module Bits gives the bitwise operators their meaning).
    Floats are modelled as reals: `f32` rounding is not. */
module Colors {

  import opened Wrappers
  import opened Bits

  type Color = u32

  /** `shift(v, c)`: `(v as u32) << c`, the byte moved up to start at bit
      c, with nothing below bit c. */
  function Shift(v: u8, c: nat): (r: nat)
    ensures r % Pow2(c) == 0 && r / Pow2(c) == v
  {
    Arith.DivModUnique(Shl(v, c), Pow2(c), v, 0);
    Shl(v, c)
  }

  lemma Pow2Constants()
    ensures Pow2(8) == 0x100 && Pow2(16) == 0x1_0000 && Pow2(24) == 0x100_0000
  {
  }

  /** `Color::rgba8`: the channels laid out as the bytes of a u32, red
      lowest; each channel getter gets its channel back. */
  function Rgba8(r: u8, g: u8, b: u8, a: u8): (c: Color)
    ensures R8(c) == r && G8(c) == g && B8(c) == b && A8(c) == a
  {
    var c := a * 0x100_0000 + b * 0x1_0000 + g * 0x100 + r;
    Arith.DivModUnique(c, 0x100, a * 0x1_0000 + b * 0x100 + g, r);
    Arith.DivModUnique(c, 0x1_0000, a * 0x100 + b, g * 0x100 + r);
    Arith.DivModUnique(c / 0x100, 0x100, a * 0x100 + b, g);
    Arith.DivModUnique(c, 0x100_0000, a, b * 0x1_0000 + g * 0x100 + r);
    Arith.DivModUnique(c / 0x1_0000, 0x100, a, b);
    Arith.DivModUnique(c / 0x100_0000, 0x100, 0, a);
    c
  }

  /** The expression `rgba8` evaluates,
      `shift(a, 24) | shift(b, 16) | shift(g, 8) | r`, is the packed value:
      the three ORs combine fields that do not overlap, so they add. */
  lemma Rgba8Shifts(r: u8, g: u8, b: u8, a: u8)
    ensures Or(Or(Or(Shift(a, 24), Shift(b, 16)), Shift(g, 8)), r) == Rgba8(r, g, b, a)
  {
    var ab, abg := a * 0x100 + b, a * 0x1_0000 + b * 0x100 + g;
    OrHigh(a, b);
    var hi := Or(Shift(a, 24), Shift(b, 16));
    assert hi == ab * 0x1_0000;
    OrMid(ab, g);
    var mid := Or(hi, Shift(g, 8));
    assert mid == abg * 0x100;
    OrLow(abg, r);
  }

  /** `shift(a, 24) | shift(b, 16)`: the two top bytes. */
  lemma OrHigh(a: u8, b: u8)
    ensures Or(Shift(a, 24), Shift(b, 16)) == (a * 0x100 + b) * 0x1_0000
  {
    Pow2Constants();
    OrDisjoint(a, b * 0x1_0000, 24);
  }

  /** Two top bytes, then `| shift(g, 8)`. */
  lemma OrMid(ab: nat, g: u8)
    ensures Or(ab * 0x1_0000, Shift(g, 8)) == (ab * 0x100 + g) * 0x100
  {
    Pow2Constants();
    OrDisjoint(ab, g * 0x100, 16);
  }

  /** Three top bytes, then `| r`. */
  lemma OrLow(abg: nat, r: u8)
    ensures Or(abg * 0x100, r) == abg * 0x100 + r
  {
    Pow2Constants();
    OrDisjoint(abg, r, 8);
  }

  /** `f2u`: a float channel clamped to [0, 1] and scaled to a byte, the
      fraction dropped by the `as u8` cast. */
  function F2U(v: real): (b: u8)
    ensures v >= 1.0 ==> b == 255
    ensures v <= 0.0 ==> b == 0
    ensures 0.0 < v < 1.0 ==> b as real <= v * 255.0 < b as real + 1.0
  {
    if v >= 1.0 then 255
    else if v <= 0.0 then 0
    else (v * 255.0).Floor
  }

  /** `Color::rgba` and `Color::rgb`: float channels in [0, 1], each
      stored as the byte `f2u` makes of it; `rgb` is opaque. */
  function Rgba(r: real, g: real, b: real, a: real): (c: Color)
    ensures R8(c) == F2U(r) && G8(c) == F2U(g) && B8(c) == F2U(b) && A8(c) == F2U(a)
  {
    Rgba8(F2U(r), F2U(g), F2U(b), F2U(a))
  }

  function Rgb(r: real, g: real, b: real): (c: Color)
    ensures R8(c) == F2U(r) && G8(c) == F2U(g) && B8(c) == F2U(b) && A8(c) == 255
  {
    Rgba(r, g, b, 1.0)
  }

  /** White, the default tint of sprites and renderables: `rgb(1, 1, 1)`
      and `rgba(1, 1, 1, 1)` are both 0xFFFFFFFF, the colour quads default to. */
  lemma White()
    ensures Rgba(1.0, 1.0, 1.0, 1.0) == Rgb(1.0, 1.0, 1.0) == Rgb8(255, 255, 255) == 0xFFFF_FFFF
  {
  }

  /** `a`, `b`, `g`, `r`: a channel as a float in [0, 1], 0 for byte 0
      and 1 for byte 255, scaling back to the byte. The quotient is exact;
      the source's `f32` division rounds. */
  function Channel(x: u8): (v: real)
    ensures 0.0 <= v <= 1.0 && v * 255.0 == x as real
  {
    x as real / 255.0
  }

  /** Reading a channel as a float and converting it back gives the byte
      back, so `rgba(c.r(), c.g(), c.b(), c.a())` is c. */
  lemma ChannelRoundTrip(x: u8)
    ensures 0.0 <= Channel(x) <= 1.0
    ensures F2U(Channel(x)) == x
  {
    if 0 < x < 255 {
      assert Channel(x) * 255.0 == x as real;
    }
  }

  lemma FloatRoundTrip(c: Color)
    ensures Rgba(Channel(R8(c)), Channel(G8(c)), Channel(B8(c)), Channel(A8(c))) == c
  {
    ChannelRoundTrip(R8(c));
    ChannelRoundTrip(G8(c));
    ChannelRoundTrip(B8(c));
    ChannelRoundTrip(A8(c));
    PackUnpack(c);
  }

  /** `Color::rgb8`: an opaque colour. */
  function Rgb8(r: u8, g: u8, b: u8): (c: Color)
    ensures A8(c) == 255 && R8(c) == r && G8(c) == g && B8(c) == b
  {
    Rgba8(r, g, b, 255)
  }

  /** `a8`, `b8`, `g8`, `r8`: the byte of each channel, which is what the
      source's `(c >> n) & 0xFF` extracts. */
  function A8(c: Color): (r: u8)
    ensures r == And(Shr(c, 24), 0xFF)
  {
    Pow2Constants();
    ByteMask(c, 24);
    (c / 0x100_0000) % 0x100
  }

  function B8(c: Color): (r: u8)
    ensures r == And(Shr(c, 16), 0xFF)
  {
    Pow2Constants();
    ByteMask(c, 16);
    (c / 0x1_0000) % 0x100
  }

  function G8(c: Color): (r: u8)
    ensures r == And(Shr(c, 8), 0xFF)
  {
    Pow2Constants();
    ByteMask(c, 8);
    (c / 0x100) % 0x100
  }

  function R8(c: Color): (r: u8)
    ensures r == And(c, 0xFF)
  {
    Pow2Constants();
    AndLowMask(c, 8);
    c % 0x100
  }

  /** `(c >> n) & 0xFF` is the byte of c at bit n. */
  lemma ByteMask(c: Color, n: nat)
    ensures And(Shr(c, n), 0xFF) == (c / Pow2(n)) % 0x100
  {
    Pow2Constants();
    AndLowMask(Shr(c, n), 8);
  }

  /** Every u32 is the packing of its own channels. */
  lemma PackUnpack(c: Color)
    ensures Rgba8(R8(c), G8(c), B8(c), A8(c)) == c
  {
    var r, g, b, a := c % 0x100, (c / 0x100) % 0x100, (c / 0x1_0000) % 0x100, c / 0x100_0000;
    Arith.DivModUnique(c / 0x100, 0x100, c / 0x1_0000, g);
    Arith.DivModUnique(c / 0x1_0000, 0x100, c / 0x100_0000, b);
    assert a < 0x100;
    assert (c / 0x100_0000) % 0x100 == a;
    assert c == (c / 0x100) * 0x100 + r;
    assert c / 0x100 == (c / 0x1_0000) * 0x100 + g;
    assert c / 0x1_0000 == a * 0x100 + b;
  }

  /** One blended channel, `s*sa/255 + d*(255-sa)/255`, in integer division;
      it never exceeds 255, so the `as u8` that follows in `blend` keeps it. */
  function Mix(s: u8, d: u8, sa: u8): u8
  {
    MixBound(s, d, sa);
    (s * sa) / 255 + (d * (255 - sa)) / 255
  }

  lemma MixBound(s: u8, d: u8, sa: u8)
    ensures 0 <= (s * sa) / 255 <= sa
    ensures 0 <= (d * (255 - sa)) / 255 <= 255 - sa
  {
    Arith.MulMono(s, 255, sa);
    Arith.MulNonneg(s, sa);
    Arith.DivModUnique(255 * sa, 255, sa, 0);
    Arith.MulMono(d, 255, 255 - sa);
    Arith.MulNonneg(d, 255 - sa);
    Arith.DivModUnique(255 * (255 - sa), 255, 255 - sa, 0);
    DivMono(s * sa, 255 * sa, 255);
    DivMono(d * (255 - sa), 255 * (255 - sa), 255);
  }

  lemma DivMono(x: int, y: int, d: int)
    requires 0 <= x <= y && d > 0
    ensures x / d <= y / d
  {
    Arith.Decompose(x, d);
    Arith.Decompose(y, d);
    if x / d > y / d {
      Arith.MulMono(y / d + 1, x / d, d);
    }
  }

  /** `Color::blend`: `self` painted over `o` with integer alpha blending.
      An opaque colour covers, a transparent one leaves the destination,
      and otherwise each colour channel is the alpha-weighted mix and the
      alphas add, saturating at 255. */
  function Blend(s: Color, o: Color): (c: Color)
    ensures A8(s) == 255 ==> c == s
    ensures A8(s) == 0 ==> c == o
    ensures 0 < A8(s) < 255 ==>
              && R8(c) == Mix(R8(s), R8(o), A8(s))
              && G8(c) == Mix(G8(s), G8(o), A8(s))
              && B8(c) == Mix(B8(s), B8(o), A8(s))
              && A8(c) == Min(A8(s) + A8(o), 255)
  {
    var sa := A8(s);
    if sa == 255 then s
    else if sa == 0 then o
    else
      var a := if sa + A8(o) > 255 then 255 else sa + A8(o);
      Rgba8(Mix(R8(s), R8(o), sa), Mix(G8(s), G8(o), sa), Mix(B8(s), B8(o), sa), a)
  }

  /** A blended channel never exceeds the brighter of its two inputs
      (so in particular it never exceeds 255 and the `as u8` cast in `blend`
      cannot truncate it). */
  lemma {:induction false} MixAtMostMax(s: u8, d: u8, sa: u8)
    ensures Mix(s, d, sa) <= Max(s, d)
  {
    var m := Max(s, d);
    var x, y := s * sa, d * (255 - sa);
    Arith.MulNonneg(s, sa);
    Arith.MulNonneg(d, 255 - sa);
    Arith.Decompose(x, 255);
    Arith.Decompose(y, 255);
    assert x / 255 * 255 + y / 255 * 255 <= x + y;
    Arith.MulMono(s, m, sa);
    Arith.MulMono(d, m, 255 - sa);
    assert x + y <= m * 255;
    assert (x / 255 + y / 255) * 255 <= m * 255;
  }

  /** Blending never lowers the destination's alpha: an opaque source
      gives alpha 255, and otherwise the alpha is the saturated sum. */
  lemma BlendAlphaMonotone(s: Color, o: Color)
    ensures A8(Blend(s, o)) >= A8(o)
  {
  }
}
