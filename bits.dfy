/** Bitwise operations on naturals, defined bit by bit.

    The engine packs colours with `<<` and `|`, extracts channels with `>>` and
    `& 0xFF`, and keeps mouse buttons in a `u8` bitmask updated with `|=` and
    `&=`. These definitions give those operators their meaning on
    mathematical integers, and the lemmas below are what the colour and input
    models rely on. */
module Bits {

  import Arith

  function Pow2(n: nat): (r: nat)
    ensures r >= 1
  {
    if n == 0 then 1 else 2 * Pow2(n - 1)
  }

  /** Bit i of x (bit 0 is the least significant). */
  predicate Bit(x: nat, i: nat)
    decreases i
  {
    if i == 0 then x % 2 == 1 else Bit(x / 2, i - 1)
  }

  /** `x | y` */
  function Or(x: nat, y: nat): nat
    decreases x + y
  {
    if x == 0 then y
    else if y == 0 then x
    else 2 * Or(x / 2, y / 2) + (if x % 2 == 1 || y % 2 == 1 then 1 else 0)
  }

  /** `x & y` */
  function And(x: nat, y: nat): nat
    decreases x + y
  {
    if x == 0 || y == 0 then 0
    else 2 * And(x / 2, y / 2) + (if x % 2 == 1 && y % 2 == 1 then 1 else 0)
  }

  /** `x << n`, for shifts that do not overflow the target width. */
  function Shl(x: nat, n: nat): nat
  {
    Arith.MulNonneg(x, Pow2(n));
    x * Pow2(n)
  }

  /** `x >> n` */
  function Shr(x: nat, n: nat): nat
  {
    Arith.DivNonneg(x, Pow2(n));
    x / Pow2(n)
  }

  lemma {:induction false} NoBitOfZero(i: nat)
    ensures !Bit(0, i)
  {
    if i > 0 { NoBitOfZero(i - 1); }
  }

  lemma {:induction false} BitOr(x: nat, y: nat, i: nat)
    ensures Bit(Or(x, y), i) <==> Bit(x, i) || Bit(y, i)
    decreases i
  {
    NoBitOfZero(i);
    if x != 0 && y != 0 && i > 0 {
      var r := Or(x, y);
      assert r / 2 == Or(x / 2, y / 2);
      BitOr(x / 2, y / 2, i - 1);
    }
  }

  lemma {:induction false} BitAnd(x: nat, y: nat, i: nat)
    ensures Bit(And(x, y), i) <==> Bit(x, i) && Bit(y, i)
    decreases i
  {
    NoBitOfZero(i);
    if x != 0 && y != 0 && i > 0 {
      var r := And(x, y);
      assert r / 2 == And(x / 2, y / 2);
      BitAnd(x / 2, y / 2, i - 1);
    }
  }

  /** The only bit of 2^b is bit b. */
  lemma {:induction false} BitPow2(b: nat, i: nat)
    ensures Bit(Pow2(b), i) <==> i == b
    decreases b
  {
    if b == 0 {
      if i > 0 { NoBitOfZero(i - 1); }
    } else if i > 0 {
      BitPow2(b - 1, i - 1);
    }
  }

  /** 2^n - 1 has exactly the bits below n. */
  lemma {:induction false} BitLowMask(n: nat, i: nat)
    ensures Bit(Pow2(n) - 1, i) <==> i < n
    decreases n
  {
    if n == 0 {
      NoBitOfZero(i);
    } else if i > 0 {
      assert (Pow2(n) - 1) / 2 == Pow2(n - 1) - 1;
      BitLowMask(n - 1, i - 1);
    }
  }

  /** 2^n - 1 - 2^b, the mask that clears bit b of an n-bit value. */
  lemma {:induction false} BitClearMask(n: nat, b: nat, i: nat)
    requires b < n && Pow2(b) < Pow2(n)
    ensures Bit(Pow2(n) - 1 - Pow2(b), i) <==> i < n && i != b
    decreases b
  {
    var m := Pow2(n) - 1 - Pow2(b);
    if b == 0 {
      assert m == 2 * (Pow2(n - 1) - 1);
      if i > 0 {
        assert m / 2 == Pow2(n - 1) - 1;
        BitLowMask(n - 1, i - 1);
      }
    } else {
      assert m == 2 * (Pow2(n - 1) - 1 - Pow2(b - 1)) + 1;
      if i > 0 {
        assert m / 2 == Pow2(n - 1) - 1 - Pow2(b - 1);
        BitClearMask(n - 1, b - 1, i - 1);
      }
    }
  }

  /** Two naturals with the same bits are equal. */
  lemma {:induction false} BitsDetermine(x: nat, y: nat)
    requires forall i: nat :: Bit(x, i) <==> Bit(y, i)
    ensures x == y
    decreases x + y
  {
    if x == 0 && y == 0 {
    } else if x == 0 || y == 0 {
      var z := if x == 0 then y else x;
      var k := HighBit(z);
      NoBitOfZero(k);
      assert Bit(x, k) != Bit(y, k);
    } else {
      assert Bit(x, 0) <==> Bit(y, 0);
      forall i: nat ensures Bit(x / 2, i) <==> Bit(y / 2, i) {
        assert Bit(x, i + 1) <==> Bit(y, i + 1);
      }
      BitsDetermine(x / 2, y / 2);
    }
  }

  /** Every positive natural has a set bit. */
  lemma {:induction false} HighBit(z: nat) returns (k: nat)
    requires z > 0
    ensures Bit(z, k)
    decreases z
  {
    if z % 2 == 1 {
      k := 0;
    } else {
      var j := HighBit(z / 2);
      k := j + 1;
    }
  }

  /** A value below 2^n has no bit at or above n. */
  lemma {:induction false} NoHighBits(x: nat, n: nat, i: nat)
    requires x < Pow2(n) && i >= n
    ensures !Bit(x, i)
    decreases n
  {
    if n == 0 {
      assert x == 0;
      NoBitOfZero(i);
    } else {
      NoHighBits(x / 2, n - 1, i - 1);
    }
  }

  /** A value whose bits all lie below n is below 2^n. */
  lemma {:induction false} BelowFromBits(x: nat, n: nat)
    requires forall i: nat :: i >= n ==> !Bit(x, i)
    ensures x < Pow2(n)
    decreases n
  {
    if n == 0 {
      if x > 0 {
        var k := HighBit(x);
        assert false;
      }
    } else {
      forall i: nat | i >= n - 1 ensures !Bit(x / 2, i) {
        assert !Bit(x, i + 1);
      }
      BelowFromBits(x / 2, n - 1);
    }
  }

  /** OR of two n-bit values is an n-bit value. */
  lemma OrBelow(x: nat, y: nat, n: nat)
    requires x < Pow2(n) && y < Pow2(n)
    ensures Or(x, y) < Pow2(n)
  {
    forall i: nat | i >= n ensures !Bit(Or(x, y), i) {
      BitOr(x, y, i);
      NoHighBits(x, n, i);
      NoHighBits(y, n, i);
    }
    BelowFromBits(Or(x, y), n);
  }

  /** AND with an n-bit value is an n-bit value. */
  lemma AndBelow(x: nat, y: nat, n: nat)
    requires y < Pow2(n)
    ensures And(x, y) < Pow2(n)
  {
    forall i: nat | i >= n ensures !Bit(And(x, y), i) {
      BitAnd(x, y, i);
      NoHighBits(y, n, i);
    }
    BelowFromBits(And(x, y), n);
  }

  /** `(a << n) | b` is `a * 2^n + b` when b fits below bit n. */
  lemma {:induction false} OrDisjoint(a: nat, b: nat, n: nat)
    requires b < Pow2(n)
    ensures Or(a * Pow2(n), b) == a * Pow2(n) + b
    decreases n
  {
    if n == 0 {
      assert b == 0;
    } else if a == 0 || b == 0 {
    } else {
      var hi := a * Pow2(n);
      assert hi == 2 * (a * Pow2(n - 1));
      assert hi / 2 == a * Pow2(n - 1) && hi % 2 == 0;
      OrDisjoint(a, b / 2, n - 1);
    }
  }

  /** `x & (2^n - 1)` keeps the low n bits: it is `x % 2^n`. */
  lemma {:induction false} AndLowMask(x: nat, n: nat)
    ensures And(x, Pow2(n) - 1) == x % Pow2(n)
    decreases n
  {
    if n == 0 {
    } else if x == 0 {
    } else {
      var m := Pow2(n) - 1;
      assert m / 2 == Pow2(n - 1) - 1 && m % 2 == 1;
      AndLowMask(x / 2, n - 1);
      var p := Pow2(n - 1);
      assert Pow2(n) == 2 * p;
      DivModHalf(x, p);
    }
  }

  /** x % 2p == 2 * ((x / 2) % p) + x % 2 */
  lemma DivModHalf(x: nat, p: nat)
    requires p >= 1
    ensures x % (2 * p) == 2 * ((x / 2) % p) + x % 2
  {
    var q := (x / 2) / p;
    var r := (x / 2) % p;
    assert x / 2 == q * p + r;
    assert x == q * (2 * p) + (2 * r + x % 2);
    Arith.DivModUnique(x, 2 * p, q, 2 * r + x % 2);
  }

  lemma {:induction false} Pow2Below(b: nat, n: nat)
    requires b < n
    ensures Pow2(b) < Pow2(n)
    decreases n
  {
    if b < n - 1 { Pow2Below(b, n - 1); }
  }
}
