/** The packed dynamic linear layer (linear_dynamic_mil.go): activations and weights in one
    zero-padded tensor, one matrix product over its slices, the padding cut off again. */
module PackedLinear {

  import opened Matrices
  import opened Options
  import opened Strides

  /** The numbers: `down` and `up` are the casts to and from the width of the product. */
  datatype Ops<!T(!new)> = Ops(zero: T, add: (T, T) -> T, mul: (T, T) -> T, down: T -> T, up: T -> T) {
    /** All that padding needs: zero stays zero, and a product of zeros adds nothing. No
        other law, not even associativity. */
    ghost predicate PadsWell() {
      down(zero) == zero && forall s :: add(s, mul(zero, zero)) == s
    }

    /** Sum of the first n products, from the left. */
    function Dot(x: seq<T>, w: seq<T>, n: nat): T
      requires n <= |x| && n <= |w|
    {
      if n == 0 then zero else add(Dot(x, w, n - 1), mul(down(x[n - 1]), down(w[n - 1])))
    }

    /** One product more is added at the end. */
    lemma DotOneMore(x: seq<T>, w: seq<T>, a: T, c: T)
      requires |x| == |w|
      ensures Dot([], [], 0) == zero
      ensures Dot(x + [a], w + [c], |x| + 1) == add(Dot(x, w, |x|), mul(down(a), down(c)))
    {
      DotOfPrefixes(x + [a], w + [c], x, w, |x|);
    }

    /** Rows that end in zeros multiply like their beginnings. */
    lemma {:induction false} DotOfPadded(x: seq<T>, w: seq<T>, n: nat, px: seq<T>, pw: seq<T>, m: nat)
      requires PadsWell() && n <= m && n == |x| == |w| && m == |px| == |pw|
      requires Extends(px, x, zero) && Extends(pw, w, zero)
      ensures Dot(px, pw, m) == Dot(x, w, n)
      decreases m
    {
      if m > n {
        DotOfPrefix(px, pw, m - 1);
        DotOfPadded(x, w, n, px[..m - 1], pw[..m - 1], m - 1);
      } else {
        assert px == x && pw == w;
      }
    }

    lemma {:induction false} DotOfPrefix(x: seq<T>, w: seq<T>, n: nat)
      requires n <= |x| && n <= |w|
      ensures Dot(x, w, n) == Dot(x[..n], w[..n], n)
    {
      DotOfPrefixes(x, w, x[..n], w[..n], n);
    }

    lemma {:induction false} DotOfPrefixes(x: seq<T>, w: seq<T>, a: seq<T>, b: seq<T>, n: nat)
      requires n <= |x| && n <= |w| && n <= |a| && n <= |b| && x[..n] == a[..n] && w[..n] == b[..n]
      ensures Dot(x, w, n) == Dot(a, b, n)
    {
      if n > 0 {
        assert x[..n][n - 1] == a[..n][n - 1] && w[..n][n - 1] == b[..n][n - 1];
        assert x[..n - 1] == x[..n][..n - 1] == a[..n][..n - 1] == a[..n - 1];
        assert w[..n - 1] == w[..n][..n - 1] == b[..n][..n - 1] == b[..n - 1];
        DotOfPrefixes(x, w, a, b, n - 1);
      }
    }
  }

  /** Row r of p is row r of s with zeros behind it. */
  ghost predicate Extends<T>(row: seq<T>, s: seq<T>, zero: T) {
    |s| <= |row| && forall i :: 0 <= i < |row| ==> row[i] == if i < |s| then s[i] else zero
  }

  /** x rows, then w rows, then rows of zeros, each filled up with zeros. */
  ghost predicate Packed<T>(p: seq<T>, x: seq<T>, w: seq<T>, batch: nat, inDim: nat, outDim: nat, pIn: nat, pOut: nat,
      zero: T)
  {
    |x| == Area(batch, inDim) && |w| == Area(outDim, inDim) && |p| == Area(batch + pOut, pIn)
    && (forall b :: 0 <= b < batch ==> Extends(Row(p, batch + pOut, pIn, b), Row(x, batch, inDim, b), zero))
    && (forall o :: 0 <= o < pOut ==> Extends(Row(p, batch + pOut, pIn, batch + o), WRow(w, outDim, inDim, o), zero))
  }

  /** In plain indices: x with zeros to the right, and below it w with zeros to the right and below. */
  lemma PackedAt<T>(p: seq<T>, x: seq<T>, w: seq<T>, batch: nat, inDim: nat, outDim: nat, pIn: nat, pOut: nat,
      zero: T, r: nat, c: nat)
    requires Packed(p, x, w, batch, inDim, outDim, pIn, pOut, zero) && inDim <= pIn && r < batch + pOut && c < pIn
    ensures 0 <= r * pIn + c < |p|
    ensures r < batch && c < inDim ==> 0 <= r * inDim + c < |x| && p[r * pIn + c] == x[r * inDim + c]
    ensures batch <= r < batch + outDim && c < inDim ==>
      0 <= (r - batch) * inDim + c < |w| && p[r * pIn + c] == w[(r - batch) * inDim + c]
    ensures c >= inDim || r >= batch + outDim ==> p[r * pIn + c] == zero
  {
    hide Row, Area;
    PackedSizes(p, x, w, batch, inDim, outDim, pIn, pOut, zero);
    RowMajor(p, batch + pOut, pIn, r, c);
    if r < batch {
      assert Extends(Row(p, batch + pOut, pIn, r), Row(x, batch, inDim, r), zero);
      if c < inDim {
        RowMajor(x, batch, inDim, r, c);
      }
    } else {
      assert Extends(Row(p, batch + pOut, pIn, batch + (r - batch)), WRow(w, outDim, inDim, r - batch), zero);
      if r < batch + outDim && c < inDim {
        RowMajor(w, outDim, inDim, r - batch, c);
      }
    }
  }

  lemma PackedSizes<T>(p: seq<T>, x: seq<T>, w: seq<T>, batch: nat, inDim: nat, outDim: nat, pIn: nat, pOut: nat,
      zero: T)
    requires Packed(p, x, w, batch, inDim, outDim, pIn, pOut, zero)
    ensures |x| == batch * inDim && |w| == outDim * inDim && |p| == (batch + pOut) * pIn
  {
  }

  /** Weight rows beyond the last are empty. */
  function WRow<T>(w: seq<T>, outDim: nat, inDim: nat, o: nat): seq<T>
    requires |w| == Area(outDim, inDim)
  {
    if o < outDim then Row(w, outDim, inDim, o) else []
  }

  // ---- packing -----------------------------------------------------------------------------

  /** Packs into the first `size` entries of a buffer, which may be longer. */
  method PackInto<T>(out: array<T>, size: nat, x: seq<T>, w: seq<T>, batch: int, inDim: int, outDim: int,
      pIn: int, pOut: int, zero: T)
    returns (ok: bool)
    requires size <= out.Length
    modifies out
    ensures ok <==> PackFits(size, |x|, |w|, batch, inDim, outDim, pIn, pOut)
    ensures ok <==>
      batch > 0 && inDim > 0 && outDim > 0 && pIn >= inDim && pOut >= outDim
      && |x| == batch * inDim && |w| == outDim * inDim && size == batch * pIn + pOut * pIn
    ensures !ok ==> out[..] == old(out[..])
    ensures ok ==> Packed(out[..size], x, w, batch, inDim, outDim, pIn, pOut, zero)
    ensures out[size..] == old(out[size..])
  {
    hide Area, Row, Extends, PackFits;
    FitsMeans(size, |x|, |w|, batch, inDim, outDim, pIn, pOut);
    ok := batch > 0 && inDim > 0 && outDim > 0 && pIn >= inDim && pOut >= outDim
      && |x| == Area(batch, inDim) && |w| == Area(outDim, inDim) && size == Area(batch, pIn) + Area(pOut, pIn);
    if !ok {
      return;
    }
    AreaAdds(batch, pOut, pIn);
    if pIn == inDim && pOut == outDim {
      CopyInto(out, 0, x);
      CopyInto(out, |x|, w);
      assert out[..size] == x + w;
      PackedPlain(x, w, batch, inDim, outDim, zero);
      return;
    }
    var rows := batch + pOut;
    Clear(out, rows, pIn, zero);
    CopyRows(out, rows, pIn, 0, x, batch, inDim, zero);
    CopyRows(out, rows, pIn, batch, w, outDim, inDim, zero);
  }

  predicate PackFits(outLen: nat, xLen: nat, wLen: nat, batch: int, inDim: int, outDim: int, pIn: int, pOut: int) {
    batch > 0 && inDim > 0 && outDim > 0 && pIn >= inDim && pOut >= outDim
    && xLen == Area(batch, inDim) && wLen == Area(outDim, inDim) && outLen == Area(batch, pIn) + Area(pOut, pIn)
  }

  lemma FitsMeans(outLen: nat, xLen: nat, wLen: nat, batch: int, inDim: int, outDim: int, pIn: int, pOut: int)
    ensures PackFits(outLen, xLen, wLen, batch, inDim, outDim, pIn, pOut) <==>
      batch > 0 && inDim > 0 && outDim > 0 && pIn >= inDim && pOut >= outDim
      && xLen == batch * inDim && wLen == outDim * inDim && outLen == batch * pIn + pOut * pIn
    ensures PackFits(outLen, xLen, wLen, batch, inDim, outDim, pIn, pOut) <==>
      batch > 0 && inDim > 0 && outDim > 0 && pIn >= inDim && pOut >= outDim
      && xLen == Area(batch, inDim) && wLen == Area(outDim, inDim) && outLen == Area(batch, pIn) + Area(pOut, pIn)
  {
  }

  method Clear<T>(out: array<T>, rows: nat, cols: nat, zero: T)
    requires Area(rows, cols) <= out.Length
    modifies out
    ensures forall r :: 0 <= r < rows ==> Extends(Row(out[..Area(rows, cols)], rows, cols, r), [], zero)
    ensures out[Area(rows, cols)..] == old(out[Area(rows, cols)..])
  {
    var size := Area(rows, cols);
    for k := 0 to size
      invariant forall j :: 0 <= j < out.Length ==> out[j] == if j < k then zero else old(out[j])
    {
      out[k] := zero;
    }
    hide Area;
    forall r | 0 <= r < rows
      ensures Extends(Row(out[..size], rows, cols, r), [], zero)
    {
      RowInside(r, rows, cols);
      var row := Row(out[..size], rows, cols, r);
      assert forall i :: 0 <= i < cols ==> row[i] == out[..size][Area(r, cols) + i];
    }
  }

  /** Copies n short rows to the beginnings of cleared rows first, first + 1, ... */
  method CopyRows<T>(out: array<T>, rows: nat, cols: nat, first: nat, src: seq<T>, n: nat, width: nat, zero: T)
    requires Area(rows, cols) <= out.Length && |src| == Area(n, width) && width <= cols && first + n <= rows
    requires forall r :: first <= r < rows ==> Extends(Row(out[..Area(rows, cols)], rows, cols, r), [], zero)
    modifies out
    ensures out[Area(rows, cols)..] == old(out[Area(rows, cols)..])
    ensures var now, was := out[..Area(rows, cols)], old(out[..Area(rows, cols)]);
      && (forall r :: 0 <= r < first ==> Row(now, rows, cols, r) == Row(was, rows, cols, r))
      && (forall r :: 0 <= r < n ==> Extends(Row(now, rows, cols, first + r), Row(src, n, width, r), zero))
      && (forall r :: first + n <= r < rows ==> Extends(Row(now, rows, cols, r), [], zero))
  {
    hide Area, Row, Extends;
    var size := Area(rows, cols);
    for b := 0 to n
      invariant out[size..] == old(out[size..])
      invariant forall r :: 0 <= r < first ==> Row(out[..size], rows, cols, r) == Row(old(out[..size]), rows, cols, r)
      invariant forall r :: 0 <= r < b ==> Extends(Row(out[..size], rows, cols, first + r), Row(src, n, width, r), zero)
      invariant forall r :: first + b <= r < rows ==> Extends(Row(out[..size], rows, cols, r), [], zero)
    {
      ghost var before := out[..size];
      RowInside(b, n, width);
      RowInside(first + b, rows, cols);
      var row := src[Area(b, width)..Area(b, width) + width];
      ghost var at := Area(first + b, cols);
      ghost var all := out[..];
      assert out[..size] == all[..size] && out[size..] == all[size..];
      CopyInto(out, Area(first + b, cols), row);
      InPrefix(all, out[..], size, at, row);
      assert out[..size] == out[..][..size] && out[size..] == out[..][size..];
      forall q | 0 <= q < rows
        ensures q != first + b ==> Row(out[..size], rows, cols, q) == Row(before, rows, cols, q)
        ensures q == first + b ==> Extends(Row(out[..size], rows, cols, q), Row(src, n, width, b), zero)
      {
        RowAfterCopy(before, out[..size], rows, cols, first + b, row, q);
        if q == first + b {
          RowIs(src, n, width, b, row);
          ExtendsAfter(Row(before, rows, cols, q), row, zero);
        }
      }
    }
  }

  /** A piece that was replaced within the first entries. */
  lemma InPrefix<T>(before: seq<T>, after: seq<T>, size: nat, at: nat, row: seq<T>)
    requires at + |row| <= size <= |before| && after == before[..at] + row + before[at + |row|..]
    ensures |after| == |before| && after[size..] == before[size..]
    ensures after[..size] == before[..size][..at] + row + before[..size][at + |row|..]
  {
  }

  lemma ExtendsAfter<T>(blank: seq<T>, row: seq<T>, zero: T)
    requires Extends(blank, [], zero) && |row| <= |blank|
    ensures Extends(row + blank[|row|..], row, zero)
  {
  }

  /** Without padding the copies one after the other are the packed tensor. */
  lemma PackedPlain<T>(x: seq<T>, w: seq<T>, batch: nat, inDim: nat, outDim: nat, zero: T)
    requires |x| == Area(batch, inDim) && |w| == Area(outDim, inDim)
    ensures Packed(x + w, x, w, batch, inDim, outDim, inDim, outDim, zero)
  {
    hide Area;
    AreaAdds(batch, outDim, inDim);
    forall b | 0 <= b < batch
      ensures Row(x + w, batch + outDim, inDim, b) == Row(x, batch, inDim, b)
    {
      RowInside(b, batch, inDim);
    }
    forall o | 0 <= o < outDim
      ensures Row(x + w, batch + outDim, inDim, batch + o) == Row(w, outDim, inDim, o)
    {
      AreaAdds(batch, o, inDim);
      RowInside(o, outDim, inDim);
    }
  }

  // ---- the compiled program ----------------------------------------------------------------

  /** What the program says: cut the packed tensor into batch x rows and outDim w rows,
      multiply the first by the transpose of the second. */
  ghost function Program<T(!new)>(ops: Ops<T>, p: seq<T>, batch: nat, inDim: nat, outDim: nat, b: nat, o: nat): T
    requires |p| == Area(batch + outDim, inDim) && b < batch && o < outDim
  {
    ops.up(ops.Dot(Row(p, batch + outDim, inDim, b), Row(p, batch + outDim, inDim, batch + o), inDim))
  }

  /** y = x * transpose(w). */
  ghost function Product<T(!new)>(ops: Ops<T>, x: seq<T>, w: seq<T>, batch: nat, inDim: nat, outDim: nat, b: nat,
      o: nat): T
    requires |x| == Area(batch, inDim) && |w| == Area(outDim, inDim) && b < batch && o < outDim
  {
    ops.up(ops.Dot(Row(x, batch, inDim, b), Row(w, outDim, inDim, o), inDim))
  }

  /** Padding does not change the entries that are kept. */
  lemma ProgramOnPacked<T(!new)>(ops: Ops<T>, p: seq<T>, x: seq<T>, w: seq<T>,
      batch: nat, inDim: nat, outDim: nat, pIn: nat, pOut: nat, b: nat, o: nat)
    requires ops.PadsWell() && inDim <= pIn && outDim <= pOut && b < batch && o < outDim
    requires Packed(p, x, w, batch, inDim, outDim, pIn, pOut, ops.zero)
    ensures Program(ops, p, batch, pIn, pOut, b, o) == Product(ops, x, w, batch, inDim, outDim, b, o)
  {
    hide Area, Row;
    assert Extends(Row(p, batch + pOut, pIn, batch + o), WRow(w, outDim, inDim, o), ops.zero);
    ops.DotOfPadded(Row(x, batch, inDim, b), Row(w, outDim, inDim, o), inDim,
      Row(p, batch + pOut, pIn, b), Row(p, batch + pOut, pIn, batch + o), pIn);
  }

  /** Two by two: rows 1 2 and 3 4 times rows 5 6 and 7 8, the result marked by a cast that multiplies
      by 100. */
  lemma TwoByTwo()
    ensures var ops := Ops(0, (a: int, b) => a + b, (a, b) => a * b, a => a, a => 100 * a);
      var x, w := [1, 2, 3, 4], [5, 6, 7, 8];
      Product(ops, x, w, 2, 2, 2, 0, 0) == 1700 && Product(ops, x, w, 2, 2, 2, 0, 1) == 2300
      && Product(ops, x, w, 2, 2, 2, 1, 0) == 3900 && Product(ops, x, w, 2, 2, 2, 1, 1) == 5300
  {
    var ops := Ops(0, (a: int, b) => a + b, (a, b) => a * b, a => a, a => 100 * a);
    var x, w := [1, 2, 3, 4], [5, 6, 7, 8];
    assert Row(x, 2, 2, 0) == [1, 2] && Row(x, 2, 2, 1) == [3, 4];
    assert Row(w, 2, 2, 0) == [5, 6] && Row(w, 2, 2, 1) == [7, 8];
    forall a, b, c, d
      ensures ops.Dot([a, b], [c, d], 2) == a * c + b * d
    {
      ops.DotOneMore([], [], a, c);
      ops.DotOneMore([a], [c], b, d);
      assert [] + [a] == [a] && [] + [c] == [c] && [a] + [b] == [a, b] && [c] + [d] == [c, d];
    }
  }

  // ---- unpacking ---------------------------------------------------------------------------

  /** Keeps the first outDim columns. */
  method UnpackInto<T>(dst: array<T>, y: seq<T>, batch: int, outDim: int, pOut: int) returns (ok: bool)
    modifies dst
    ensures ok <==>
      batch > 0 && outDim > 0 && pOut >= outDim && |y| == Area(batch, pOut) && dst.Length == Area(batch, outDim)
    ensures !ok ==> dst[..] == old(dst[..])
    ensures ok ==> forall b :: 0 <= b < batch ==> Row(dst[..], batch, outDim, b) == Row(y, batch, pOut, b)[..outDim]
  {
    hide Area, Row;
    ok := batch > 0 && outDim > 0 && pOut >= outDim && |y| == Area(batch, pOut) && dst.Length == Area(batch, outDim);
    if !ok {
      return;
    }
    if pOut == outDim {
      CopyInto(dst, 0, y);
      assert dst[..] == y;
      return;
    }
    for b := 0 to batch
      invariant forall r :: 0 <= r < b ==> Row(dst[..], batch, outDim, r) == Row(y, batch, pOut, r)[..outDim]
    {
      ghost var before := dst[..];
      RowInside(b, batch, outDim);
      RowInside(b, batch, pOut);
      var row := y[Area(b, pOut)..Area(b, pOut) + outDim];
      CopyInto(dst, Area(b, outDim), row);
      assert dst[..] == before[..Area(b, outDim)] + row + before[Area(b, outDim) + |row|..];
      forall q | 0 <= q <= b
        ensures Row(dst[..], batch, outDim, q) == Row(y, batch, pOut, q)[..outDim]
      {
        RowAfterCopy(before, dst[..], batch, outDim, b, row, q);
        if q == b {
          RowIs(y, batch, pOut, b, y[Area(b, pOut)..Area(b, pOut) + pOut]);
        }
      }
    }
  }

  // ---- dimensions and the model ------------------------------------------------------------

  /** The next multiple, if there is anything to align. */
  function AlignDimUp(v: int, multiple: int): (r: int)
    ensures v <= 0 || multiple <= 0 ==> r == v
    ensures v > 0 && multiple > 0 ==> r % multiple == 0 && v <= r < v + multiple
  {
    if multiple <= 0 || v <= 0 then v
    else
      var r := v % multiple;
      if r == 0 then v else
        NextMultiple(v, multiple);
        v + multiple - r
  }

  lemma NextMultiple(v: int, m: int)
    requires m > 0
    ensures (v + m - v % m) % m == 0
  {
    DivMod(v, m);
    Spread(v / m, 1, m);
    Split(v / m + 1, m, 0);
  }

  /** `dynamicLinearModel`: one compiled program, and the packed input that it is run on
      again and again, for every layer that has the same padded dimensions. */
  class DynamicLinearModel<T(!new)> {
    const ops: Ops<T>
    const batch: int
    const paddedIn: int
    const paddedOut: int
    const packedIn: array<T>

    constructor (ops: Ops<T>, batch: int, inDim: int, outDim: int, packedIn: array<T>)
      ensures this.ops == ops && this.batch == batch && this.packedIn == packedIn
      ensures paddedIn == AlignDimUp(inDim, 16) && paddedOut == AlignDimUp(outDim, 16)
    {
      this.ops, this.batch, this.packedIn := ops, batch, packedIn;
      paddedIn, paddedOut := AlignDimUp(inDim, 16), AlignDimUp(outDim, 16);
    }

    /** The entries of the packed input that the program reads. */
    function PackedSize(): int {
      batch * paddedIn + paddedOut * paddedIn
    }

    /** What a call needs: a packed input that is long enough, and sizes that fit. */
    predicate Accepts(xLen: nat, wLen: nat, inDim: int, outDim: int, dstLen: nat) {
      batch >= 0 && outDim >= 0 && dstLen == Area(batch, outDim) && 0 <= PackedSize() <= packedIn.Length
      && PackFits(PackedSize(), xLen, wLen, batch, inDim, outDim, paddedIn, paddedOut)
    }

    /** y = x * transpose(w), whatever the packed input held before, for all dimensions the
        model was built for and smaller ones. The packed input may be longer than needed; what
        lies beyond is left alone. `run` is the compiled program. */
    method EvalInto(x: seq<T>, w: seq<T>, inDim: int, outDim: int, dst: array<T>, run: seq<T> -> Option<seq<T>>)
      returns (ok: bool)
      requires ops.PadsWell() && dst != packedIn
      requires Runs(run)
      modifies packedIn, dst
      ensures ok ==> Accepts(|x|, |w|, inDim, outDim, dst.Length)
      ensures Accepts(|x|, |w|, inDim, outDim, dst.Length) && (forall p :: run(p).Some?) ==> ok
      ensures ok ==> forall b, o :: 0 <= b < batch && 0 <= o < outDim ==>
        Row(dst[..], batch, outDim, b)[o] == Product(ops, x, w, batch, inDim, outDim, b, o)
      ensures !ok ==> dst[..] == old(dst[..])
      ensures 0 <= PackedSize() <= packedIn.Length ==> packedIn[PackedSize()..] == old(packedIn[PackedSize()..])
    {
      hide Area, Row, Product, Program;
      var size := PackedSize();
      if batch < 0 || outDim < 0 || dst.Length != Area(batch, outDim) || size < 0 || packedIn.Length < size {
        return false;
      }
      ok := PackInto(packedIn, size, x, w, batch, inDim, outDim, paddedIn, paddedOut, ops.zero);
      if !ok {
        return;
      }
      var packed := packedIn[..size];
      var y := run(packed);
      if y.None? {
        return false;
      }
      ok := UnpackInto(dst, y.value, batch, outDim, paddedOut);
      if ok {
        forall b, o | 0 <= b < batch && 0 <= o < outDim
          ensures Row(dst[..], batch, outDim, b)[o] == Product(ops, x, w, batch, inDim, outDim, b, o)
        {
          ProgramOnPacked(ops, packed, x, w, batch, inDim, outDim, paddedIn, paddedOut, b, o);
        }
      }
    }

    /** The compiled program does what it says, if it does anything. */
    ghost predicate Runs(run: seq<T> -> Option<seq<T>>) {
      batch > 0 && paddedOut >= 0 && paddedIn >= 0 ==>
        forall p :: |p| == Area(batch + paddedOut, paddedIn) && run(p).Some? ==>
          |run(p).value| == Area(batch, paddedOut)
          && forall b, o :: 0 <= b < batch && 0 <= o < paddedOut ==>
            Row(run(p).value, batch, paddedOut, b)[o] == Program(ops, p, batch, paddedIn, paddedOut, b, o)
    }
  }
}
