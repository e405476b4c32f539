/** Index arithmetic over row-major pixel buffers.

    A canvas of width w stores pixel (x, y) at index y*w + x; these lemmas
    are the facts about that layout that the solver does not find alone
    (they involve products and division by a variable). */
module Arith {

  lemma MulNonneg(a: int, b: int)
    requires a >= 0 && b >= 0
    ensures a * b >= 0
  {
  }

  lemma MulMono(a: int, b: int, c: int)
    requires a <= b && c >= 0
    ensures a * c <= b * c
  {
    MulNonneg(b - a, c);
    assert b * c - a * c == (b - a) * c;
  }

  /** Division with remainder is unique. */
  lemma DivModUnique(x: int, d: int, q: int, s: int)
    requires d > 0 && 0 <= s < d && x == q * d + s
    ensures x / d == q && x % d == s
  {
    var q', s' := x / d, x % d;
    assert x == q' * d + s';
    if q' > q {
      MulMono(q + 1, q', d);
    } else if q' < q {
      MulMono(q' + 1, q, d);
    }
  }

  /** Row and column of index y*w + x. */
  lemma RowCol(y: int, x: int, w: int)
    requires w > 0 && 0 <= x < w
    ensures (y * w + x) / w == y && (y * w + x) % w == x
  {
    DivModUnique(y * w + x, w, y, x);
  }

  /** Every index decomposes into its row and column. */
  lemma Decompose(k: int, w: int)
    requires w > 0
    ensures k == (k / w) * w + k % w && 0 <= k % w < w
  {
  }

  /** Pixel (x, y) of a w×h buffer lies inside it. */
  lemma IndexInside(y: int, x: int, w: int, h: int)
    requires 0 <= y < h && 0 <= x < w
    ensures 0 <= y * w + x < w * h
  {
    MulNonneg(y, w);
    MulMono(y + 1, h, w);
    assert (y + 1) * w == y * w + w;
    assert h * w == w * h;
  }

  /** The row of an index inside a w×h buffer is below h. */
  lemma RowBelow(k: int, w: int, h: int)
    requires w > 0 && 0 <= k < w * h
    ensures 0 <= k / w < h
  {
    Decompose(k, w);
    if k / w >= h {
      MulMono(h, k / w, w);
    }
  }

  /** An index lies in the span of n pixels that starts at column x0 of
      row y exactly when its row is y and its column is in [x0, x0+n). */
  lemma RowSpan(k: int, w: int, y: int, x0: int, n: int)
    requires w > 0 && 0 <= x0 && 0 <= n && x0 + n <= w
    ensures (k / w == y && x0 <= k % w < x0 + n) <==> (y * w + x0 <= k < y * w + x0 + n)
  {
    Decompose(k, w);
    if y * w + x0 <= k < y * w + x0 + n {
      RowCol(y, k - y * w, w);
    }
  }

  /** A span of n pixels starting at column c of row r fits in a w×h
      buffer when the row and the columns do. */
  lemma RowFits(r: int, c: int, n: int, w: int, h: int, p: int)
    requires 0 <= r < h && 0 <= c && 0 < n && c + n <= w && p == r * w + c
    ensures 0 <= p && p + n <= w * h
  {
    IndexInside(r, c + n - 1, w, h);
  }

  /** Row r of a w×h buffer starts at p = r·w, and the next row starts w
      later, still inside the buffer. */
  lemma NextRow(r: int, w: int, h: int, p: int)
    requires 0 <= r < h && 0 <= w && p == r * w
    ensures 0 <= p && p + w == (r + 1) * w && p + w <= w * h
  {
    MulNonneg(r, w);
    MulMono(r + 1, h, w);
  }

  /** A positive product of naturals has positive factors. */
  lemma PosFactor(a: int, b: int)
    requires a >= 0 && b >= 0 && a * b > 0
    ensures a > 0 && b > 0
  {
  }

  /** One more row of b pixels. */
  lemma MulSucc(a: int, b: int)
    ensures (a + 1) * b == a * b + b
  {
  }

  lemma MulComm(a: int, b: int)
    ensures a * b == b * a
  {
  }

  lemma DivNonneg(x: int, d: int)
    requires x >= 0 && d > 0
    ensures x / d >= 0
  {
  }
}
