/** Products in index arithmetic: cells of n elements laid end to end. */
module Strides {

  lemma Positive(a: int, b: int)
    requires a > 0 && b > 0
    ensures a * b > 0
  {
  }

  lemma DivMod(i: int, n: int)
    requires n > 0
    ensures i == (i / n) * n + i % n && 0 <= i % n < n
  {
  }

  /** The quotient stays below the bound. */
  lemma Below(q: int, bound: int, n: int, i: int)
    requires n > 0 && 0 <= i < bound * n && q == i / n
    ensures 0 <= q < bound
  {
    DivMod(i, n);
    if q >= bound {
      Times(bound, q, n);
    } else if q < 0 {
      Times(q + 1, 0, n);
      Spread(q, 1, n);
    }
  }

  lemma Times(a: int, b: int, n: int)
    requires a <= b && n >= 0
    ensures a * n <= b * n
  {
  }

  lemma Spread(a: int, b: int, n: int)
    ensures (a + b) * n == a * n + b * n
  {
  }

  /** Something of size s at r within cell k of n cells of size n lies within all of them. */
  lemma Within(k: int, count: int, n: int, r: int, s: int)
    requires 0 <= k < count && n >= 0 && 0 <= r && r + s <= n
    ensures 0 <= k * n && k * n + r + s <= count * n
  {
    Times(0, k, n);
    Times(k + 1, count, n);
    Spread(k, 1, n);
  }

  /** In different cells things lie apart, in the order of the cells. */
  lemma CellsOrdered(k: int, l: int, n: int, r: int, t: int, s: int)
    requires n >= 0 && 0 <= r && r + s <= n && 0 <= t && t + s <= n
    ensures k < l ==> k * n + r + s <= l * n + t
    ensures l < k ==> l * n + t + s <= k * n + r
  {
    if k < l {
      Times(k + 1, l, n);
      Spread(k, 1, n);
    } else if l < k {
      Times(l + 1, k, n);
      Spread(l, 1, n);
    }
  }

  lemma Split(q: int, n: int, r: int)
    requires n > 0 && 0 <= r < n
    ensures (q * n + r) / n == q && (q * n + r) % n == r
  {
    var i := q * n + r;
    DivMod(i, n);
    var d := i / n - q;
    assert d * n == r - i % n by {
      Spread(i / n, -q, n);
      assert (-q) * n == -(q * n);
    }
    if d >= 1 {
      Times(1, d, n);
    } else if d <= -1 {
      Times(d, -1, n);
    }
  }

  lemma LastEnds(channels: int, planeStride: int, width: int, elemSize: int)
    requires planeStride < width * elemSize
    ensures (channels - 1) * planeStride + (width - 1) * elemSize + elemSize > channels * planeStride
  {
    Spread(channels, -1, planeStride);
    Spread(width, -1, elemSize);
  }

  lemma StrideIsWhole(rowStride: int, elemSize: int)
    requires rowStride > 0 && rowStride % 64 == 0 && (elemSize == 2 || elemSize == 4)
    ensures (rowStride / elemSize) * elemSize == rowStride
  {
    var k := rowStride / 64;
    assert rowStride == 64 * k;
    if elemSize == 2 {
      assert rowStride / 2 == 32 * k;
    } else {
      assert rowStride / 4 == 16 * k;
    }
  }
}
