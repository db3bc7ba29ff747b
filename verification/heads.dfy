/** KV heads shared by several query heads: how weights and cached state are expanded
    (decode/dispatch.go, anedraftimpl/ane_draft_darwin.go), and the transposes around the
    matrix programs (adapter_apple_private_darwin.go, linear_dynamic_mil.go). */
module Heads {

  import opened Matrices
  import opened Options
  import opened Strides

  // ---- which KV head a query head uses ---------------------------------------------------

  /** In the weights. */
  function WeightHead(h: nat, heads: nat, kvHeads: nat): (k: nat)
    requires h < heads && kvHeads > 0
    ensures k < kvHeads
  {
    ScaledBelow(h, heads, kvHeads);
    h * kvHeads / heads
  }

  /** In the state of a direct block, which needs whole groups. */
  function StateHead(h: nat, heads: nat, kvHeads: nat): (k: nat)
    requires h < heads && kvHeads > 0 && heads % kvHeads == 0
    ensures k < kvHeads
  {
    Groups(heads, kvHeads);
    QuotientBelow(h, kvHeads, heads / kvHeads);
    h / (heads / kvHeads)
  }

  /** With whole groups each KV head serves one group of consecutive heads. */
  lemma ServesGroup(h: nat, heads: nat, kvHeads: nat)
    requires h < heads && kvHeads > 0 && heads % kvHeads == 0
    ensures var n, k := heads / kvHeads, StateHead(h, heads, kvHeads);
      n > 0 && k * n <= h < (k + 1) * n
  {
    Groups(heads, kvHeads);
    DivMod(h, heads / kvHeads);
    Spread(h / (heads / kvHeads), 1, heads / kvHeads);
  }

  /** Five heads over two KV heads, as the weights are expanded: three of the first, two of the second. */
  lemma FiveHeadsOverTwo()
    ensures WeightHead(0, 5, 2) == WeightHead(1, 5, 2) == WeightHead(2, 5, 2) == 0
    ensures WeightHead(3, 5, 2) == WeightHead(4, 5, 2) == 1
  {
  }

  lemma ScaledBelow(h: nat, heads: nat, kvHeads: nat)
    requires h < heads && kvHeads > 0
    ensures 0 <= h * kvHeads / heads < kvHeads
  {
    Times(0, h, kvHeads);
    Times(h + 1, heads, kvHeads);
    Spread(h, 1, kvHeads);
    AreaCommutes(heads, kvHeads);
    Below(h * kvHeads / heads, kvHeads, heads, h * kvHeads);
  }

  lemma Groups(heads: nat, kvHeads: nat)
    requires heads > 0 && kvHeads > 0 && heads % kvHeads == 0
    ensures heads / kvHeads > 0 && kvHeads * (heads / kvHeads) == heads
  {
    DivMod(heads, kvHeads);
    AreaCommutes(kvHeads, heads / kvHeads);
    if heads / kvHeads <= 0 {
      Times(heads / kvHeads, 0, kvHeads);
    }
  }

  lemma QuotientBelow(h: nat, count: nat, n: nat)
    requires n > 0 && h < count * n
    ensures 0 <= h / n < count
  {
    Below(h / n, count, n, h);
  }

  /** With whole groups both maps are the same. */
  lemma SameHeadMap(h: nat, heads: nat, kvHeads: nat)
    requires h < heads && kvHeads > 0 && heads % kvHeads == 0
    ensures WeightHead(h, heads, kvHeads) == StateHead(h, heads, kvHeads)
  {
    var n := heads / kvHeads;
    Groups(heads, kvHeads);
    DivMod(h, n);
    var k, r := h / n, h % n;
    // h * kvHeads == k * heads + r * kvHeads
    Spread(k * n, r, kvHeads);
    assert k * n * kvHeads == k * heads by {
      AreaCommutes(n, kvHeads);
      Regroup(k, n, kvHeads);
    }
    Times(0, r, kvHeads);
    Times(r + 1, n, kvHeads);
    Spread(r, 1, kvHeads);
    AreaCommutes(n, kvHeads);
    Split(k, heads, r * kvHeads);
  }

  lemma Regroup(a: nat, b: nat, c: nat)
    ensures a * b * c == a * (b * c)
  {
  }

  // ---- expanding the weights -------------------------------------------------------------

  /** Row d of head h of the expanded projection is row d of the KV head it uses. */
  method ExpandGQAProjectionRows<T>(zero: T, src: seq<T>, inDim: int, heads: int, kvHeads: int, headDim: int)
    returns (r: Option<seq<T>>)
    ensures r.Some? <==>
      inDim > 0 && heads > 0 && kvHeads > 0 && headDim > 0
      && (kvHeads == heads || |src| == Area(Area(kvHeads, headDim), inDim))
    ensures r.Some? && kvHeads == heads ==> r.value == src
    ensures r.Some? && kvHeads != heads ==> |r.value| == Area(Area(heads, headDim), inDim)
    ensures r.Some? && kvHeads != heads ==>
      forall h, d :: 0 <= h < heads && 0 <= d < headDim ==> Expanded(r.value, src, inDim, heads, kvHeads, headDim, h, d)
  {
    hide Area, Row;
    if kvHeads <= 0 || heads <= 0 || headDim <= 0 || inDim <= 0 {
      return None;
    }
    if kvHeads == heads {
      return Some(src);
    }
    if |src| != Area(Area(kvHeads, headDim), inDim) {
      return None;
    }
    var rows := Area(heads, headDim);
    var out := new T[Area(rows, inDim)](_ => zero);
    for h := 0 to heads
      invariant forall g, d :: 0 <= g < h && 0 <= d < headDim ==>
        Expanded(out[..], src, inDim, heads, kvHeads, headDim, g, d)
    {
      var kvHead := WeightHead(h, heads, kvHeads);
      for d := 0 to headDim
        invariant forall g, e :: 0 <= g < heads && 0 <= e < headDim && (g < h || (g == h && e < d)) ==>
          Expanded(out[..], src, inDim, heads, kvHeads, headDim, g, e)
      {
        ghost var before := out[..];
        CellInside(kvHead, d, kvHeads, headDim);
        CellInside(h, d, heads, headDim);
        var srcRow, dstRow := Cell(kvHead, d, headDim), Cell(h, d, headDim);
        RowInside(srcRow, Area(kvHeads, headDim), inDim);
        RowInside(dstRow, rows, inDim);
        var row := src[Area(srcRow, inDim)..Area(srcRow, inDim) + inDim];
        CopyInto(out, Area(dstRow, inDim), row);
        assert out[..] == before[..Area(dstRow, inDim)] + row + before[Area(dstRow, inDim) + |row|..];
        forall g, e | 0 <= g < heads && 0 <= e < headDim && (g < h || (g == h && e <= d))
          ensures Expanded(out[..], src, inDim, heads, kvHeads, headDim, g, e)
        {
          CellInside(g, e, heads, headDim);
          RowAfterCopy(before, out[..], rows, inDim, dstRow, row, Cell(g, e, headDim));
          if Cell(g, e, headDim) == dstRow {
            CellsDiffer(g, e, h, d, headDim);
            RowIs(src, Area(kvHeads, headDim), inDim, srcRow, row);
          } else {
            assert Expanded(before, src, inDim, heads, kvHeads, headDim, g, e);
          }
        }
      }
    }
    r := Some(out[..]);
  }

  ghost predicate Expanded<T>(out: seq<T>, src: seq<T>, inDim: nat, heads: nat, kvHeads: nat, headDim: nat, h: nat,
      d: nat)
    requires h < heads && d < headDim && kvHeads > 0
    requires |out| == Area(Area(heads, headDim), inDim) && |src| == Area(Area(kvHeads, headDim), inDim)
  {
    var k := WeightHead(h, heads, kvHeads);
    CellInside(h, d, heads, headDim);
    CellInside(k, d, kvHeads, headDim);
    Row(out, Area(heads, headDim), inDim, Cell(h, d, headDim))
    == Row(src, Area(kvHeads, headDim), inDim, Cell(k, d, headDim))
  }

  /** In plain indices: column c of row d of head h comes from row d of KV head h * kvHeads / heads. */
  lemma ExpandedAt<T>(out: seq<T>, src: seq<T>, inDim: nat, heads: nat, kvHeads: nat, headDim: nat, h: nat, d: nat,
      c: nat)
    requires h < heads && d < headDim && kvHeads > 0 && c < inDim
    requires |out| == Area(Area(heads, headDim), inDim) && |src| == Area(Area(kvHeads, headDim), inDim)
    requires Expanded(out, src, inDim, heads, kvHeads, headDim, h, d)
    ensures var to, from := (h * headDim + d) * inDim + c, (h * kvHeads / heads * headDim + d) * inDim + c;
      0 <= to < |out| && 0 <= from < |src| && out[to] == src[from]
  {
    var k := WeightHead(h, heads, kvHeads);
    CellInside(h, d, heads, headDim);
    CellInside(k, d, kvHeads, headDim);
    RowMajor(out, Area(heads, headDim), inDim, Cell(h, d, headDim), c);
    RowMajor(src, Area(kvHeads, headDim), inDim, Cell(k, d, headDim), c);
  }

  // ---- expanding the cached state ----------------------------------------------------------

  /** Head h of the state: zeros, then what the cache of its KV head holds, up to the right
      end. */
  ghost predicate RightAligned<T>(dst: seq<T>, src: seq<T>, zero: T, kvHeads: nat, heads: nat, width: nat,
      maxWidth: nat, h: nat)
    requires h < heads && kvHeads > 0 && heads % kvHeads == 0 && width <= maxWidth
    requires |src| == Area(kvHeads, width) && |dst| == Area(heads, maxWidth)
  {
    Row(dst, heads, maxWidth, h)
    == Repeat(zero, maxWidth - width) + Row(src, kvHeads, width, StateHead(h, heads, kvHeads))
  }

  /** The state is right aligned and expanded head by head when the heads come in whole
      groups, and nothing but zeros when they do not. */
  method ExpandRightAlign<T>(zero: T, src: seq<T>, kvHeads: nat, heads: nat, seqLen: nat, maxSeqLen: nat, headDim: nat)
    returns (dst: array<T>)
    requires seqLen <= maxSeqLen && |src| == Area(kvHeads, Area(seqLen, headDim))
    ensures fresh(dst) && dst.Length == Area(heads, Area(maxSeqLen, headDim))
    ensures Area(seqLen, headDim) <= Area(maxSeqLen, headDim)
    ensures kvHeads > 0 && heads % kvHeads == 0 ==> forall h :: 0 <= h < heads ==>
      RightAligned(dst[..], src, zero, kvHeads, heads, Area(seqLen, headDim), Area(maxSeqLen, headDim), h)
    ensures kvHeads == 0 || heads % kvHeads != 0 ==> forall i :: 0 <= i < dst.Length ==> dst[i] == zero
  {
    hide Area, Row;
    var width, maxWidth := Area(seqLen, headDim), Area(maxSeqLen, headDim);
    WidthOrder(seqLen, maxSeqLen, headDim);
    dst := new T[Area(heads, maxWidth)](_ => zero);
    ghost var blank := dst[..];
    if kvHeads == 0 || (heads != kvHeads && heads % kvHeads != 0) {
      SelfDivides(kvHeads);
      return;
    }
    SelfDivides(kvHeads);
    if seqLen <= 0 || heads <= 0 || headDim <= 0 || maxSeqLen <= 0 {
      forall h | 0 <= h < heads
        ensures RightAligned(dst[..], src, zero, kvHeads, heads, width, maxWidth, h)
      {
        EmptyWidth(seqLen, maxSeqLen, headDim);
        BlankRow(blank, zero, heads, maxWidth, h);
        assert Row(src, kvHeads, width, StateHead(h, heads, kvHeads)) == [];
      }
      return;
    }
    var repeats := heads / kvHeads;
    Groups(heads, kvHeads);
    var dstOff := maxWidth - width;
    forall h | 0 <= h < heads
      ensures Row(dst[..], heads, maxWidth, h)[..dstOff] == Repeat(zero, dstOff)
    {
      BlankRow(blank, zero, heads, maxWidth, h);
    }
    var r := 0;
    AreaIs(0, repeats, 0);
    for h := 0 to kvHeads
      invariant r == Area(h, repeats) <= heads
      invariant forall q :: 0 <= q < heads ==> Row(dst[..], heads, maxWidth, q)[..dstOff] == Repeat(zero, dstOff)
      invariant forall q :: 0 <= q < r ==> RightAligned(dst[..], src, zero, kvHeads, heads, width, maxWidth, q)
    {
      RowInside(h, kvHeads, width);
      var srcHead := src[Area(h, width)..Area(h, width) + width];
      RowIs(src, kvHeads, width, h, srcHead);
      RowInside(h, kvHeads, repeats);
      AreaIs(kvHeads, repeats, heads);
      for rep := 0 to repeats
        invariant r == Area(h, repeats) + rep <= heads
        invariant forall q :: 0 <= q < heads ==> Row(dst[..], heads, maxWidth, q)[..dstOff] == Repeat(zero, dstOff)
        invariant forall q :: 0 <= q < r ==> RightAligned(dst[..], src, zero, kvHeads, heads, width, maxWidth, q)
      {
        ghost var before := dst[..];
        RowInside(r, heads, maxWidth);
        CopyInto(dst, Area(r, maxWidth) + dstOff, srcHead);
        assert dst[..]
          == before[..Area(r, maxWidth) + dstOff] + srcHead + before[Area(r, maxWidth) + dstOff + |srcHead|..];
        HeadOf(h, rep, heads, kvHeads, r);
        forall q | 0 <= q < heads
          ensures Row(dst[..], heads, maxWidth, q)[..dstOff] == Repeat(zero, dstOff)
          ensures q <= r ==> RightAligned(dst[..], src, zero, kvHeads, heads, width, maxWidth, q)
        {
          RowAfterTail(before, dst[..], heads, maxWidth, r, dstOff, srcHead, q);
          if q < r {
            assert RightAligned(before, src, zero, kvHeads, heads, width, maxWidth, q);
          }
        }
        r := r + 1;
      }
      NextRow(h, repeats);
    }
    AreaIs(kvHeads, repeats, heads);
  }

  lemma WidthOrder(a: nat, b: nat, n: nat)
    requires a <= b
    ensures Area(a, n) <= Area(b, n)
  {
    Times(a, b, n);
  }

  lemma EmptyWidth(a: nat, b: nat, n: nat)
    requires a <= b && (a == 0 || b == 0 || n == 0)
    ensures Area(a, n) == 0
  {
  }

  lemma SelfDivides(k: nat)
    ensures k > 0 ==> k % k == 0
  {
    if k > 0 {
      Split(1, k, 0);
    }
  }

  lemma AreaIs(a: nat, b: nat, c: nat)
    requires a * b == c
    ensures Area(a, b) == c
  {
  }

  lemma HeadOf(h: nat, rep: nat, heads: nat, kvHeads: nat, r: nat)
    requires h < kvHeads && heads > 0 && heads % kvHeads == 0 && rep < heads / kvHeads
      && r == Area(h, heads / kvHeads) + rep
    ensures r < heads && StateHead(r, heads, kvHeads) == h
  {
    Groups(heads, kvHeads);
    Within(h, kvHeads, heads / kvHeads, rep, 1);
    Split(h, heads / kvHeads, rep);
  }

  lemma BlankRow<T>(s: seq<T>, zero: T, rows: nat, cols: nat, r: nat)
    requires |s| == Area(rows, cols) && r < rows && forall i :: 0 <= i < |s| ==> s[i] == zero
    ensures Row(s, rows, cols, r) == Repeat(zero, cols)
    ensures forall n :: 0 <= n <= cols ==> Row(s, rows, cols, r)[..n] == Repeat(zero, n)
  {
    RowInside(r, rows, cols);
  }

  /** The cache tensor of one layer: for every KV head the flat rows of its positions. */
  ghost predicate CacheShape<T>(cache: seq<seq<T>>, seqLen: nat, headDim: nat) {
    forall h :: 0 <= h < |cache| ==> |cache[h]| == Area(seqLen, headDim)
  }

  function Flatten<T>(rows: seq<seq<T>>, cols: nat): (f: seq<T>)
    requires forall h :: 0 <= h < |rows| ==> |rows[h]| == cols
    ensures |f| == Area(|rows|, cols)
  {
    if rows == [] then [] else
      NextRow(|rows| - 1, cols);
      Flatten(rows[..|rows| - 1], cols) + rows[|rows| - 1]
  }

  lemma {:induction false} RowOfFlatten<T>(rows: seq<seq<T>>, cols: nat, r: nat)
    requires r < |rows| && forall h :: 0 <= h < |rows| ==> |rows[h]| == cols
    ensures Row(Flatten(rows, cols), |rows|, cols, r) == rows[r]
    decreases |rows|
  {
    hide Area;
    var n := |rows| - 1;
    NextRow(n, cols);
    if r < n {
      RowOfFlatten(rows[..n], cols, r);
      RowInside(r, n, cols);
    }
  }

  /** The state of one tensor of a layer. Of a cache longer than the state only the last
      maxSeqLen positions are taken; with whole groups of heads, every head of the state
      then holds the last positions of its KV head, at the right end. */
  method DirectBlockState<T>(zero: T, cache: seq<seq<T>>, heads: nat, seqLen: nat, maxSeqLen: nat, headDim: nat)
    returns (dst: array<T>, ghost kept: nat)
    requires CacheShape(cache, seqLen, headDim)
    ensures kept == if seqLen < maxSeqLen then seqLen else maxSeqLen
    ensures dst.Length == Area(heads, Area(maxSeqLen, headDim))
    ensures Area(kept, headDim) <= Area(maxSeqLen, headDim) && Area(kept, headDim) <= Area(seqLen, headDim)
    ensures |cache| > 0 && heads % |cache| == 0 ==> forall h :: 0 <= h < heads ==>
      Row(dst[..], heads, Area(maxSeqLen, headDim), h)
        == Repeat(zero, Area(maxSeqLen, headDim) - Area(kept, headDim))
          + cache[StateHead(h, heads, |cache|)][Area(seqLen, headDim) - Area(kept, headDim)..]
    ensures |cache| == 0 || heads % |cache| != 0 ==> forall i :: 0 <= i < dst.Length ==> dst[i] == zero
  {
    hide Area, Row, Flatten;
    var sliced, n := cache, seqLen;
    WidthOrder(if seqLen < maxSeqLen then seqLen else maxSeqLen, seqLen, headDim);
    if seqLen > maxSeqLen {
      var cut := Area(seqLen, headDim) - Area(maxSeqLen, headDim);
      sliced := seq(|cache|, h requires 0 <= h < |cache| => cache[h][cut..]);
      n := maxSeqLen;
    }
    kept := n;
    var width := Area(n, headDim);
    assert forall h :: 0 <= h < |cache| ==>
      |sliced[h]| == width && sliced[h] == cache[h][Area(seqLen, headDim) - width..];
    dst := ExpandRightAlign(zero, Flatten(sliced, width), |cache|, heads, n, maxSeqLen, headDim);
    if |cache| > 0 && heads % |cache| == 0 {
      forall h | 0 <= h < heads
        ensures Row(dst[..], heads, Area(maxSeqLen, headDim), h)
          == Repeat(zero, Area(maxSeqLen, headDim) - width)
            + cache[StateHead(h, heads, |cache|)][Area(seqLen, headDim) - width..]
      {
        assert RightAligned(dst[..], Flatten(sliced, width), zero, |cache|, heads, width, Area(maxSeqLen, headDim), h);
        RowOfFlatten(sliced, width, StateHead(h, heads, |cache|));
      }
    }
  }

  // ---- transposes --------------------------------------------------------------------------

  ghost predicate Transposed<T>(out: seq<T>, m: seq<T>, rows: nat, cols: nat) {
    |m| == Area(rows, cols) && |out| == Area(cols, rows)
    && forall r, c :: 0 <= r < rows && 0 <= c < cols ==> SameCell(out, m, rows, cols, r, c)
  }

  ghost predicate SameCell<T>(out: seq<T>, m: seq<T>, rows: nat, cols: nat, r: nat, c: nat)
    requires |m| == Area(rows, cols) && |out| == Area(cols, rows) && r < rows && c < cols
  {
    CellInside(r, c, rows, cols);
    CellInside(c, r, cols, rows);
    out[Cell(c, r, rows)] == m[Cell(r, c, cols)]
  }

  method TransposeRowMajor<T>(zero: T, m: seq<T>, rows: nat, cols: nat) returns (out: array<T>)
    requires |m| == Area(rows, cols)
    ensures fresh(out) && Transposed(out[..], m, rows, cols)
  {
    hide Area, Cell;
    AreaCommutes(rows, cols);
    out := new T[|m|](_ => zero);
    for r := 0 to rows
      invariant forall q, d :: 0 <= q < r && 0 <= d < cols ==> SameCell(out[..], m, rows, cols, q, d)
    {
      for c := 0 to cols
        invariant forall q, d :: 0 <= q < rows && 0 <= d < cols && (q < r || (q == r && d < c)) ==>
          SameCell(out[..], m, rows, cols, q, d)
      {
        ghost var before := out[..];
        CellInside(r, c, rows, cols);
        CellInside(c, r, cols, rows);
        out[Cell(c, r, rows)] := m[Cell(r, c, cols)];
        forall q, d | 0 <= q < rows && 0 <= d < cols && (q < r || (q == r && d <= c))
          ensures SameCell(out[..], m, rows, cols, q, d)
        {
          CellInside(d, q, cols, rows);
          if q != r || d != c {
            assert SameCell(before, m, rows, cols, q, d);
            if Cell(d, q, rows) == Cell(c, r, rows) {
              CellsDiffer(d, q, c, r, rows);
            }
          }
        }
      }
    }
  }

  /** In plain indices. */
  lemma TransposedAt<T>(out: seq<T>, m: seq<T>, rows: nat, cols: nat, r: nat, c: nat)
    requires Transposed(out, m, rows, cols) && r < rows && c < cols
    ensures |out| == |m| == rows * cols && 0 <= r * cols + c < |m| && 0 <= c * rows + r < |out|
    ensures out[c * rows + r] == m[r * cols + c]
  {
    assert SameCell(out, m, rows, cols, r, c);
    AreaCommutes(rows, cols);
    RowMajor(m, rows, cols, r, c);
    RowMajor(out, cols, rows, c, r);
  }

  /** What goes to the ANE layout and back is what it was. */
  lemma TransposeTwice<T>(m: seq<T>, t: seq<T>, back: seq<T>, rows: nat, cols: nat)
    requires Transposed(t, m, rows, cols) && Transposed(back, t, cols, rows)
    ensures back == m
  {
    hide Area, Cell;
    forall i | 0 <= i < |m|
      ensures back[i] == m[i]
    {
      var r, c := AsCell(i, rows, cols);
      assert SameCell(t, m, rows, cols, r, c) && SameCell(back, t, cols, rows, c, r);
    }
  }

  /** A single row is its own transpose. */
  lemma RowTransposed<T>(m: seq<T>, cols: nat)
    requires |m| == Area(1, cols)
    ensures Transposed(m, m, 1, cols)
  {
    AreaCommutes(1, cols);
    forall r, c | 0 <= r < 1 && 0 <= c < cols
      ensures SameCell(m, m, 1, cols, r, c)
    {
    }
  }

  lemma TransposedBack<T>(out: seq<T>, m: seq<T>, rows: nat, cols: nat)
    requires Transposed(out, m, rows, cols)
    ensures Transposed(m, out, cols, rows)
  {
    hide Area, Cell;
    AreaCommutes(rows, cols);
    forall c, r | 0 <= c < cols && 0 <= r < rows
      ensures SameCell(m, out, cols, rows, c, r)
    {
      assert SameCell(out, m, rows, cols, r, c);
    }
  }

  /** Host rows [batch, inDim] in the memory order of a tensor [1, inDim, 1, batch]. */
  method LinearInputHostToANE<T>(zero: T, x: seq<T>, batch: int, inDim: int) returns (r: Option<seq<T>>)
    ensures r.Some? <==> batch > 0 && inDim > 0 && |x| == batch * inDim
    ensures r.Some? ==> Transposed(r.value, x, batch, inDim)
  {
    if batch <= 0 || inDim <= 0 || |x| != batch * inDim {
      return None;
    }
    if batch == 1 {
      RowTransposed(x, inDim);
      return Some(x);
    }
    var out := TransposeRowMajor(zero, x, batch, inDim);
    r := Some(out[..]);
  }

  /** The memory order of a tensor [1, outDim, 1, batch] as host rows [batch, outDim]. */
  method LinearOutputANEToHost<T>(zero: T, y: seq<T>, batch: int, outDim: int) returns (r: Option<seq<T>>)
    ensures r.Some? <==> batch > 0 && outDim > 0 && |y| == batch * outDim
    ensures r.Some? ==> Transposed(y, r.value, batch, outDim) && Transposed(r.value, y, outDim, batch)
  {
    if batch <= 0 || outDim <= 0 || |y| != batch * outDim {
      return None;
    }
    AreaCommutes(batch, outDim);
    assert |y| == Area(batch, outDim);
    hide Area, Cell;
    if batch == 1 {
      RowTransposed(y, outDim);
      TransposedBack(y, y, 1, outDim);
      return Some(y);
    }
    var out := new T[|y|](_ => zero);
    for b: nat := 0 to batch
      invariant forall q, d :: 0 <= q < b && 0 <= d < outDim ==> SameCell(y, out[..], batch, outDim, q, d)
    {
      for o: nat := 0 to outDim
        invariant forall q, d :: 0 <= q < batch && 0 <= d < outDim && (q < b || (q == b && d < o)) ==>
          SameCell(y, out[..], batch, outDim, q, d)
      {
        ghost var before := out[..];
        CellInside(b, o, batch, outDim);
        CellInside(o, b, outDim, batch);
        out[Cell(b, o, outDim)] := y[Cell(o, b, batch)];
        forall q, d | 0 <= q < batch && 0 <= d < outDim && (q < b || (q == b && d <= o))
          ensures SameCell(y, out[..], batch, outDim, q, d)
        {
          CellInside(q, d, batch, outDim);
          if q != b || d != o {
            assert SameCell(y, before, batch, outDim, q, d);
            if Cell(q, d, outDim) == Cell(b, o, outDim) {
              CellsDiffer(q, d, b, o, outDim);
            }
          }
        }
      }
    }
    TransposedBack(y, out[..], batch, outDim);
    r := Some(out[..]);
  }

  /** An activation that is laid out for the ANE and read back is the same, for every size
      that the two functions accept; no other size gets that far. */
  method LayoutRoundTrip<T>(zero: T, x: seq<T>, batch: int, dim: int) returns (back: Option<seq<T>>)
    ensures back == if batch > 0 && dim > 0 && |x| == batch * dim then Some(x) else None
  {
    var ane := LinearInputHostToANE(zero, x, batch, dim);
    if ane == None {
      return None;
    }
    back := LinearOutputANEToHost(zero, ane.value, batch, dim);
    TransposeTwice(x, ane.value, back.value, batch, dim);
  }

  lemma AsCell(i: nat, rows: nat, cols: nat) returns (r: nat, c: nat)
    requires i < Area(rows, cols)
    ensures r < rows && c < cols && i == Cell(r, c, cols)
  {
    NotEmpty(rows, cols);
    DivMod(i, cols);
    Below(i / cols, rows, cols, i);
    r, c := i / cols, i % cols;
  }

  lemma NotEmpty(rows: nat, cols: nat)
    requires Area(rows, cols) > 0
    ensures cols > 0
  {
  }
}
