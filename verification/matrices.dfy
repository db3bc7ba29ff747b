/** Matrices in flat row-major storage, as the slices of the program hold them. */
module Matrices {

  import opened Strides

  function Area(rows: nat, cols: nat): nat {
    rows * cols
  }

  lemma RowInside(r: nat, rows: nat, cols: nat)
    requires r < rows
    ensures Area(r, cols) + cols <= Area(rows, cols)
  {
    Within(r, rows, cols, 0, cols);
  }

  lemma AreaAdds(a: nat, b: nat, cols: nat)
    ensures Area(a + b, cols) == Area(a, cols) + Area(b, cols)
  {
  }

  lemma NextRow(r: nat, cols: nat)
    ensures Area(r + 1, cols) == Area(r, cols) + cols
  {
  }

  function Repeat<T>(x: T, n: nat): (s: seq<T>)
    ensures |s| == n && forall i :: 0 <= i < n ==> s[i] == x
  {
    seq(n, _ => x)
  }

  /** Row r of a matrix of the given size. */
  function Row<T>(s: seq<T>, rows: nat, cols: nat, r: nat): (row: seq<T>)
    requires |s| == Area(rows, cols) && r < rows
    ensures |row| == cols
  {
    RowInside(r, rows, cols);
    s[Area(r, cols)..Area(r, cols) + cols]
  }

  /** Rows lie in storage in their order. */
  lemma RowsApart(r: nat, q: nat, cols: nat)
    requires r < q
    ensures Area(r, cols) + cols <= Area(q, cols)
  {
    RowInside(r, q, cols);
  }

  method CopyInto<T>(out: array<T>, off: nat, src: seq<T>)
    requires off + |src| <= out.Length
    modifies out
    ensures out[..] == old(out[..off]) + src + old(out[off + |src|..])
  {
    for k := 0 to |src|
      invariant forall j :: 0 <= j < out.Length ==> out[j] == if off <= j < off + k then src[j - off] else old(out[j])
    {
      out[off + k] := src[k];
    }
  }

  /** A slice after a piece of storage was replaced. */
  lemma SliceAfter<T>(before: seq<T>, after: seq<T>, off: nat, src: seq<T>, a: nat, b: nat)
    requires off + |src| <= |before| && a <= b <= |before|
    requires after == before[..off] + src + before[off + |src|..]
    ensures |after| == |before|
    ensures b <= off || off + |src| <= a ==> after[a..b] == before[a..b]
    ensures a <= off && off + |src| <= b ==> after[a..b] == before[a..off] + src + before[off + |src|..b]
  {
    assert forall i :: 0 <= i < |before| ==> after[i] == if off <= i < off + |src| then src[i - off] else before[i];
    if b <= off || off + |src| <= a {
      assert after[a..b] == before[a..b];
    }
    if a <= off && off + |src| <= b {
      assert after[a..b] == before[a..off] + src + before[off + |src|..b];
    }
  }

  /** Replacing the beginning of one row. */
  lemma RowAfterCopy<T>(before: seq<T>, after: seq<T>, rows: nat, cols: nat, r: nat, src: seq<T>, q: nat)
    requires r < rows && q < rows && |before| == Area(rows, cols) && |src| <= cols
    requires Area(r, cols) + |src| <= |before|
    requires after == before[..Area(r, cols)] + src + before[Area(r, cols) + |src|..]
    ensures |after| == |before|
    ensures Row(after, rows, cols, q) ==
      if q == r then src + Row(before, rows, cols, q)[|src|..] else Row(before, rows, cols, q)
  {
    hide Area;
    RowInside(r, rows, cols);
    RowInside(q, rows, cols);
    SliceAfter(before, after, Area(r, cols), src, Area(q, cols), Area(q, cols) + cols);
    if q < r {
      RowsApart(q, r, cols);
    } else if r < q {
      RowsApart(r, q, cols);
    }
  }

  lemma RowIs<T>(src: seq<T>, n: nat, width: nat, b: nat, row: seq<T>)
    requires b < n && |src| == Area(n, width) && Area(b, width) + width <= |src|
    requires row == src[Area(b, width)..Area(b, width) + width]
    ensures Row(src, n, width, b) == row
  {
  }

  /** Replacing the end of one row. */
  lemma RowAfterTail<T>(before: seq<T>, after: seq<T>, rows: nat, cols: nat, r: nat, at: nat, src: seq<T>, q: nat)
    requires r < rows && q < rows && |before| == Area(rows, cols) && at + |src| == cols
    requires Area(r, cols) + at + |src| <= |before|
    requires after == before[..Area(r, cols) + at] + src + before[Area(r, cols) + at + |src|..]
    ensures |after| == |before|
    ensures Row(after, rows, cols, q) ==
      if q == r then Row(before, rows, cols, q)[..at] + src else Row(before, rows, cols, q)
  {
    hide Area;
    RowInside(r, rows, cols);
    RowInside(q, rows, cols);
    SliceAfter(before, after, Area(r, cols) + at, src, Area(q, cols), Area(q, cols) + cols);
    if q < r {
      RowsApart(q, r, cols);
    } else if r < q {
      RowsApart(r, q, cols);
    }
  }

  /** Where entry (r, c) is. */
  function Cell(r: nat, c: nat, cols: nat): nat {
    Area(r, cols) + c
  }

  /** Row-major, in plain arithmetic. */
  lemma RowMajor<T>(s: seq<T>, rows: nat, cols: nat, r: nat, c: nat)
    requires |s| == rows * cols && r < rows && c < cols
    ensures Area(rows, cols) == rows * cols && Cell(r, c, cols) == r * cols + c
    ensures 0 <= r * cols + c < |s| && Row(s, rows, cols, r)[c] == s[r * cols + c]
  {
    RowInside(r, rows, cols);
  }

  lemma CellInside(r: nat, c: nat, rows: nat, cols: nat)
    requires r < rows && c < cols
    ensures Cell(r, c, cols) < Area(rows, cols)
  {
    RowInside(r, rows, cols);
  }

  lemma CellsDiffer(r: nat, c: nat, q: nat, d: nat, cols: nat)
    requires c < cols && d < cols && Cell(r, c, cols) == Cell(q, d, cols)
    ensures r == q && c == d
  {
    if r < q {
      RowsApart(r, q, cols);
    } else if q < r {
      RowsApart(q, r, cols);
    }
  }

  lemma AreaCommutes(a: nat, b: nat)
    ensures Area(a, b) == Area(b, a)
  {
  }
}
