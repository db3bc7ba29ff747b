/** Surfaces with row and plane strides (surface_layout_io_darwin.go,
    compiled_layout_darwin.go, surface_eval_plan_darwin.go) seen as flat arrays of elements. */
module Surfaces {

  import opened Float16
  import Matrices
  import opened Options
  import opened Strides

  datatype Layout = Layout(channels: int, width: int, height: int, elemSize: int, rowStride: int, planeStride: int) {

    predicate Valid() {
      channels > 0 && width > 0 && height > 0 && (elemSize == 2 || elemSize == 4)
      && rowStride > 0 && rowStride % 64 == 0 && planeStride >= height * rowStride
    }

    function LogicalCount(): int { channels * height * width }
    function AllocSize(): int { channels * planeStride }

    /** What `Valid` does not ask for: a row fits its stride, or, if there is only one row to
        a plane, the plane. */
    predicate RowsFit() {
      width * elemSize <= if height == 1 then planeStride else rowStride
    }

    predicate HasRange(offset: int, n: int) {
      0 <= offset && offset + n <= channels * height * width
    }

    predicate HasAll(n: int) {
      n == channels * height * width
    }

    // Logical indices run over rows, then channels, then columns.
    function RowSize(): int { channels * width }

    function ByteOffset(i: int): int
      requires Valid()
    {
      Positive(channels, width);
      var h, rem := i / RowSize(), i % RowSize();
      var c, w := rem / width, rem % width;
      At(c, h, w)
    }

    function At(c: int, h: int, w: int): int {
      c * planeStride + h * rowStride + w * elemSize
    }

    /** Row, channel and column of a logical index. */
    lemma Coordinates(i: int) returns (c: int, h: int, w: int)
      requires Valid() && 0 <= i < LogicalCount()
      ensures 0 <= c < channels && 0 <= h < height && 0 <= w < width
      ensures i == Index(c, h, w) && ByteOffset(i) == At(c, h, w)
    {
      Positive(channels, width);
      var rem := i % RowSize();
      h, c, w := i / RowSize(), rem / width, rem % width;
      DivMod(i, RowSize());
      DivMod(rem, width);
      assert LogicalCount() == height * RowSize();
      Below(h, height, RowSize(), i);
      Below(c, channels, width, rem);
    }

    function Index(c: int, h: int, w: int): int {
      h * RowSize() + (c * width + w)
    }

    lemma OffsetOfIndex(c: int, h: int, w: int)
      requires Valid() && 0 <= c < channels && 0 <= h < height && 0 <= w < width
      ensures 0 <= Index(c, h, w) < LogicalCount() && ByteOffset(Index(c, h, w)) == At(c, h, w)
    {
      Positive(channels, width);
      Within(c, channels, width, w, 1);
      Within(h, height, RowSize(), c * width + w, 1);
      Split(h, RowSize(), c * width + w);
      Split(c, width, w);
      assert LogicalCount() == height * RowSize();
    }

    /** Rows first, then channels, then columns; a plane to a channel and a stride to a row. */
    lemma ElementAt(c: int, h: int, w: int)
      requires Valid() && 0 <= c < channels && 0 <= h < height && 0 <= w < width
      ensures 0 <= h * (channels * width) + (c * width + w) < channels * height * width
      ensures ByteOffset(h * (channels * width) + (c * width + w)) == c * planeStride + h * rowStride + w * elemSize
    {
      OffsetOfIndex(c, h, w);
    }

    /** What `Valid` asks for and how large things are, in plain terms. */
    lemma Sizes()
      ensures Valid() <==>
        channels > 0 && width > 0 && height > 0 && (elemSize == 2 || elemSize == 4)
        && rowStride > 0 && rowStride % 64 == 0 && planeStride >= height * rowStride
      ensures LogicalCount() == channels * height * width && AllocSize() == channels * planeStride
    {
    }

    lemma OffsetFromBase(i: int)
      requires Valid() && 0 <= i < LogicalCount()
      ensures 0 <= ByteOffset(i)
    {
      var c, h, w := Coordinates(i);
      Times(0, height, rowStride);
      Times(0, c, planeStride);
      Times(0, h, rowStride);
      Times(0, w, elemSize);
    }

    /** If rows overlap, two elements start at the same place. */
    lemma Collide() returns (i: int, j: int)
      requires Valid() && !RowsFit() && height > 1
      ensures 0 <= i < LogicalCount() && 0 <= j < LogicalCount() && i != j && ByteOffset(i) == ByteOffset(j)
    {
      var w := rowStride / elemSize;
      StrideIsWhole(rowStride, elemSize);
      Below(w, width, elemSize, rowStride);
      OffsetOfIndex(0, 0, w);
      OffsetOfIndex(0, 1, 0);
      Positive(channels, width);
      i, j := Index(0, 0, w), Index(0, 1, 0);
      assert i == w && j == RowSize();
      assert width <= RowSize() by {
        Within(0, channels, width, 0, width);
      }
    }

    /** A single row that is too long ends beyond the allocation. */
    lemma Overrun() returns (i: int)
      requires Valid() && !RowsFit() && height == 1
      ensures 0 <= i < LogicalCount() && ByteOffset(i) + elemSize > AllocSize()
    {
      OffsetOfIndex(channels - 1, 0, width - 1);
      i := Index(channels - 1, 0, width - 1);
      LastEnds(channels, planeStride, width, elemSize);
    }

    // ---- elements lie in the allocation, apart from one another ----------------------------

    /** Within a plane. */
    lemma InPlane(h: int, w: int)
      requires Valid() && RowsFit() && 0 <= h < height && 0 <= w < width
      ensures 0 <= h * rowStride + w * elemSize
      ensures h * rowStride + w * elemSize + elemSize <= planeStride
    {
      Within(w, width, elemSize, 0, elemSize);
      if height > 1 {
        Within(h, height, rowStride, w * elemSize, elemSize);
      }
    }

    lemma InBounds(i: int)
      requires Valid() && RowsFit() && 0 <= i < LogicalCount()
      ensures 0 <= ByteOffset(i) && ByteOffset(i) + elemSize <= AllocSize()
    {
      var c, h, w := Coordinates(i);
      InPlane(h, w);
      Within(c, channels, planeStride, h * rowStride + w * elemSize, elemSize);
    }

    predicate Apart(i: int, j: int)
      requires Valid()
    {
      ByteOffset(i) + elemSize <= ByteOffset(j) || ByteOffset(j) + elemSize <= ByteOffset(i)
    }

    lemma Disjoint(i: int, j: int)
      requires Valid() && RowsFit() && 0 <= i < LogicalCount() && 0 <= j < LogicalCount() && i != j
      ensures Apart(i, j)
    {
      var c, h, w := Coordinates(i);
      var d, g, v := Coordinates(j);
      InPlane(h, w);
      InPlane(g, v);
      if c != d {
        CellsOrdered(c, d, planeStride, h * rowStride + w * elemSize, g * rowStride + v * elemSize, elemSize);
      } else if h != g {
        Within(w, width, elemSize, 0, elemSize);
        Within(v, width, elemSize, 0, elemSize);
        CellsOrdered(h, g, rowStride, w * elemSize, v * elemSize, elemSize);
      } else {
        CellsOrdered(w, v, elemSize, 0, 0, elemSize);
      }
    }

    /** All elements lie in the allocation and apart from one another exactly when the rows
        fit. A layout that `Valid` lets through without that has two elements at one place
        or one beyond the end. */
    lemma SoundIffRowsFit()
      requires Valid()
      ensures RowsFit() <==>
        (forall i :: 0 <= i < LogicalCount() ==> 0 <= ByteOffset(i) && ByteOffset(i) + elemSize <= AllocSize())
        && (forall i, j :: 0 <= i < LogicalCount() && 0 <= j < LogicalCount() && i != j ==> Apart(i, j))
    {
      if RowsFit() {
        forall i | 0 <= i < LogicalCount()
          ensures 0 <= ByteOffset(i) && ByteOffset(i) + elemSize <= AllocSize()
        {
          InBounds(i);
        }
        forall i, j | 0 <= i < LogicalCount() && 0 <= j < LogicalCount() && i != j
          ensures Apart(i, j)
        {
          Disjoint(i, j);
        }
      } else if height == 1 {
        var i := Overrun();
      } else {
        var i, j := Collide();
        assert !Apart(i, j);
      }
    }
  }

  // ---- elements ----------------------------------------------------------------------------

  /** The bytes of an element that holds a float32. */
  function Encoded(elemSize: int, v: Word32): (e: seq<Byte>)
    requires elemSize == 2 || elemSize == 4
    ensures |e| == elemSize
  {
    if elemSize == 2 then [Float32ToFP16(v) % 0x100, Float32ToFP16(v) / 0x100]
    else [v % 0x100, v / 0x100 % 0x100, v / 0x1_0000 % 0x100, v / 0x100_0000]
  }

  /** v is what an element reads as: its float32, or the value of its binary16. */
  ghost predicate ReadsAs(e: seq<Byte>, v: Word32)
    requires |e| == 2 || |e| == 4
  {
    if |e| == 2 then Decodes(Half(e), v) else Le32(e, 0) == v
  }

  function Half(e: seq<Byte>): Word16
    requires |e| == 2
  {
    e[0] + 0x100 * (e[1] as int)
  }

  /** Little-endian: the whole word, or the binary16 that the encoder gives. */
  lemma LittleEndian(v: Word32)
    ensures var e := Encoded(4, v);
      v == e[0] + 0x100 * (e[1] as int) + 0x1_0000 * (e[2] as int) + 0x100_0000 * (e[3] as int)
    ensures var e := Encoded(2, v);
      Float32ToFP16(v) == e[0] + 0x100 * (e[1] as int)
  {
    hide Float32ToFP16;
    FourBytes(v);
  }

  lemma SomeBytes()
    ensures Encoded(4, 0x0102_0304) == [4, 3, 2, 1] && Encoded(2, 0x3f80_0000) == [0, 0x3c]
  {
    hide Float32ToFP16;
    PlainNumbers();
  }

  lemma FourBytes(v: Word32)
    ensures Le32(Encoded(4, v), 0) == v
  {
    Halves(v);
    var e := Encoded(4, v);
    assert e[2] == v / 0x1_0000 % 0x100 && e[3] == v / 0x100_0000;
    assert v / 0x1_0000 == v / 0x1_0000 % 0x100 + 0x100 * (v / 0x100_0000);
  }

  lemma ElementReads(e: seq<Byte>, v: Word32)
    requires (|e| == 2 || |e| == 4) && ReadsAs(e, v)
    ensures |e| == 4 ==>
      v == e[0] + 0x100 * (e[1] as int) + 0x1_0000 * (e[2] as int) + 0x100_0000 * (e[3] as int)
    ensures |e| == 2 ==> Decodes(e[0] + 0x100 * (e[1] as int), v)
  {
    hide Decodes;
  }

  /** A 4-byte element reads as what was written, a 2-byte element as the value of the
      binary16 it was truncated to. */
  lemma ReadsBack(elemSize: int, written: Word32, read: Word32)
    requires (elemSize == 2 || elemSize == 4) && ReadsAs(Encoded(elemSize, written), read)
    ensures elemSize == 4 ==> read == written
    ensures elemSize == 2 ==> Decodes(Float32ToFP16(written), read)
  {
    if elemSize == 4 {
      FourBytes(written);
    }
  }

  // ---- flat view ---------------------------------------------------------------------------

  /** Elements placed by a layout; without one they are 4 bytes each, one after the other. */
  datatype Shape = Linear(count: nat) | Strided(layout: Layout) {
    predicate Valid() {
      Strided? ==> layout.Valid()
    }

    /** Every element has a place of its own in the allocation. */
    predicate Sound() {
      Valid() && (Strided? ==> layout.RowsFit())
    }

    function Count(): int {
      if Linear? then count else layout.LogicalCount()
    }

    function ElemSize(): (e: nat)
      requires Valid()
      ensures e == 2 || e == 4
    {
      if Linear? then 4 else layout.elemSize
    }

    function Offset(i: int): (off: nat)
      requires Valid() && 0 <= i < Count()
    {
      if Linear? then 4 * i else
        layout.OffsetFromBase(i);
        layout.ByteOffset(i)
    }

    function Bytes(): (n: nat)
      requires Valid()
    {
      if Linear? then 4 * count else
        Positive(layout.height, layout.rowStride);
        Positive(layout.channels, layout.planeStride);
        layout.AllocSize()
    }

    /** Element i lies within the first n bytes. */
    predicate Within(i: int, n: int)
      requires Valid() && 0 <= i < Count()
    {
      Offset(i) + ElemSize() <= n
    }

    /** Elements offset .. offset + n - 1 lie within the first m bytes. */
    predicate AllWithin(offset: nat, n: nat, m: int)
      requires Valid() && offset + n <= Count()
    {
      forall i :: offset <= i < offset + n ==> Within(i, m)
    }

    lemma Wider(offset: nat, n: nat, m: int, l: int)
      requires Valid() && offset + n <= Count() && AllWithin(offset, n, m) && m <= l
      ensures AllWithin(offset, n, l)
    {
      hide Offset, Count, ElemSize;
      forall i | offset <= i < offset + n
        ensures Within(i, l)
      {
        assert Within(i, m);
      }
    }

    lemma NotAll(offset: nat, n: nat, m: int, i: nat)
      requires Valid() && offset + n <= Count() && offset <= i < offset + n && !Within(i, m)
      ensures !AllWithin(offset, n, m)
    {
    }

    lemma LastOf(offset: nat, n: nat, m: int)
      requires Valid() && 0 < n && offset + n <= Count() && AllWithin(offset, n, m)
      ensures Within(offset + n - 1, m)
    {
    }

    lemma NoneYet(bytes: seq<Byte>, offset: nat)
      requires Valid() && offset <= Count()
      ensures forall m: int :: AllWithin(offset, 0, m)
      ensures Splat(bytes, offset, []) == bytes
    {
      assert AllWithin(offset, 0, |bytes|);
    }

    /** One element more after those written so far. */
    lemma OneMore(bytes: seq<Byte>, offset: nat, data: seq<Word32>, m: int)
      requires Valid() && data != [] && offset + |data| <= Count() && m <= |bytes|
      requires AllWithin(offset, |data| - 1, m) && Within(offset + |data| - 1, m)
      ensures AllWithin(offset, |data|, m) && AllWithin(offset, |data|, |bytes|)
      ensures AllWithin(offset, |data| - 1, |bytes|) && Within(offset + |data| - 1, |bytes|)
      ensures Splat(bytes, offset, data)
        == Put(Splat(bytes, offset, data[..|data| - 1]), offset + |data| - 1, data[|data| - 1])
    {
      Wider(offset, |data|, m, |bytes|);
    }

    lemma Inside(i: int)
      requires Sound() && 0 <= i < Count()
      ensures Within(i, Bytes())
    {
      if Strided? {
        layout.InBounds(i);
      }
    }

    lemma OwnPlace(i: int, j: int)
      requires Sound() && 0 <= i < Count() && 0 <= j < Count() && i != j
      ensures Offset(i) + ElemSize() <= Offset(j) || Offset(j) + ElemSize() <= Offset(i)
    {
      if Strided? {
        layout.Disjoint(i, j);
      }
    }

    function Element(bytes: seq<Byte>, i: int): (e: seq<Byte>)
      requires Valid() && 0 <= i < Count() && Within(i, |bytes|)
      ensures |e| == ElemSize()
    {
      bytes[Offset(i)..Offset(i) + ElemSize()]
    }

    /** The surface as a flat array of elements. */
    function Flat(bytes: seq<Byte>): (f: seq<seq<Byte>>)
      requires Sound() && |bytes| >= Bytes()
      ensures |f| == Size()
      ensures forall i :: 0 <= i < |f| ==> Within(i, |bytes|) && f[i] == Element(bytes, i)
    {
      assert forall i :: 0 <= i < Size() ==> Within(i, |bytes|) by {
        forall i | 0 <= i < Size()
          ensures Within(i, |bytes|)
        {
          Inside(i);
        }
      }
      seq(Size(), i requires 0 <= i < Size() => Element(bytes, i))
    }

    lemma Extent()
      requires Valid()
      ensures Linear? ==> Count() == Size() == count && Bytes() == 4 * count
      ensures Strided? ==>
        Count() == Size() == layout.channels * layout.height * layout.width
        && Bytes() == layout.channels * layout.planeStride
    {
    }

    /** Where the flat view of a strided layout has the element at channel c, row h, column w. */
    lemma FlatAt(bytes: seq<Byte>, c: int, h: int, w: int)
      requires Sound() && |bytes| >= Bytes() && Strided?
      requires 0 <= c < layout.channels && 0 <= h < layout.height && 0 <= w < layout.width
      ensures var i := h * (layout.channels * layout.width) + (c * layout.width + w);
        var at := c * layout.planeStride + h * layout.rowStride + w * layout.elemSize;
        0 <= i < |Flat(bytes)| && 0 <= at && at + layout.elemSize <= |bytes|
        && Flat(bytes)[i] == bytes[at..at + layout.elemSize]
    {
      layout.ElementAt(c, h, w);
      var i := h * (layout.channels * layout.width) + (c * layout.width + w);
      assert i < Size() && Offset(i) == layout.ByteOffset(i);
      Inside(i);
    }

    function Size(): (n: nat)
      requires Valid()
      ensures n == Count()
    {
      if Linear? then count else
        Positive(layout.channels, layout.height);
        Positive(layout.channels * layout.height, layout.width);
        layout.LogicalCount()
    }

    /** The memory after element i was set to v, and after a range was, one by one. */
    function Put(bytes: seq<Byte>, i: int, v: Word32): (r: seq<Byte>)
      requires Valid() && 0 <= i < Count() && Within(i, |bytes|)
      ensures |r| == |bytes|
    {
      bytes[..Offset(i)] + Encoded(ElemSize(), v) + bytes[Offset(i) + ElemSize()..]
    }

    function Splat(bytes: seq<Byte>, offset: nat, data: seq<Word32>): (r: seq<Byte>)
      requires Valid() && offset + |data| <= Count() && AllWithin(offset, |data|, |bytes|)
      ensures |r| == |bytes|
      decreases |data|
    {
      if data == [] then bytes
      else
        var n := |data| - 1;
        assert Within(offset + n, |bytes|);
        Put(Splat(bytes, offset, data[..n]), offset + n, data[n])
    }
  }

  /** Writing one element changes that element of the flat array and no other. */
  lemma PutElement(shape: Shape, bytes: seq<Byte>, i: int, v: Word32)
    requires shape.Sound() && |bytes| >= shape.Bytes() && 0 <= i < shape.Count() && shape.Within(i, |bytes|)
    ensures shape.Flat(shape.Put(bytes, i, v)) == shape.Flat(bytes)[i := Encoded(shape.ElemSize(), v)]
  {
    hide Shape.Offset, Shape.Bytes, Shape.Count, Shape.ElemSize, Layout.Valid, Layout.RowsFit, Encoded;
    var after := shape.Put(bytes, i, v);
    forall j | 0 <= j < shape.Count()
      ensures shape.Within(j, |bytes|)
      ensures shape.Element(after, j) == if j == i then Encoded(shape.ElemSize(), v) else shape.Element(bytes, j)
    {
      shape.Inside(j);
      if j != i {
        shape.OwnPlace(i, j);
      }
      Matrices.SliceAfter(bytes, after, shape.Offset(i), Encoded(shape.ElemSize(), v),
        shape.Offset(j), shape.Offset(j) + shape.ElemSize());
    }
  }

  lemma SoundIsValid(shape: Shape)
    ensures shape.Sound() ==> shape.Valid()
  {
  }

  /** With a place for every element, writing a range replaces exactly that range of the flat
      array. */
  lemma {:induction false} SplatIsWritten(shape: Shape, bytes: seq<Byte>, offset: nat, data: seq<Word32>)
    requires shape.Sound() && |bytes| >= shape.Bytes() && offset + |data| <= shape.Count()
    ensures shape.AllWithin(offset, |data|, shape.Bytes()) && shape.AllWithin(offset, |data|, |bytes|)
    ensures shape.Flat(shape.Splat(bytes, offset, data)) == Written(shape.Flat(bytes), shape.ElemSize(), offset, data)
    decreases |data|
  {
    hide Shape.Offset, Shape.Bytes, Shape.Count, Shape.ElemSize, Shape.Valid, Shape.Sound, Encoded, Shape.Put;
    hide Shape.Flat, Shape.Splat, Written, Shape.Within, Shape.AllWithin;
    SoundIsValid(shape);
    RangeWithin(shape, bytes, offset, |data|);
    if data == [] {
      shape.NoneYet(bytes, offset);
      NothingWritten(shape.Flat(bytes), shape.ElemSize(), offset);
    } else {
      var n := |data| - 1;
      RangeWithin(shape, bytes, offset, n);
      SplatIsWritten(shape, bytes, offset, data[..n]);
      SplatOneMore(shape, bytes, offset, data);
    }
  }

  lemma SplatOneMore(shape: Shape, bytes: seq<Byte>, offset: nat, data: seq<Word32>)
    requires shape.Sound() && |bytes| >= shape.Bytes() && data != [] && offset + |data| <= shape.Count()
    requires shape.AllWithin(offset, |data|, |bytes|) && shape.AllWithin(offset, |data| - 1, |bytes|)
    requires var before := data[..|data| - 1];
      shape.Flat(shape.Splat(bytes, offset, before)) == Written(shape.Flat(bytes), shape.ElemSize(), offset, before)
    ensures shape.Flat(shape.Splat(bytes, offset, data)) == Written(shape.Flat(bytes), shape.ElemSize(), offset, data)
  {
    hide Shape.Offset, Shape.Bytes, Shape.Count, Shape.ElemSize, Shape.Valid, Shape.Sound, Encoded, Shape.Put;
    hide Shape.Flat, Shape.Splat, Written, Shape.Within, Shape.AllWithin;
    SoundIsValid(shape);
    var n := |data| - 1;
    shape.LastOf(offset, |data|, |bytes|);
    shape.OneMore(bytes, offset, data, |bytes|);
    PutElement(shape, shape.Splat(bytes, offset, data[..n]), offset + n, data[n]);
    WrittenMore(shape.Flat(bytes), shape.ElemSize(), offset, data);
  }

  lemma RangeWithin(shape: Shape, bytes: seq<Byte>, offset: nat, n: nat)
    requires shape.Sound() && |bytes| >= shape.Bytes() && offset + n <= shape.Count()
    ensures shape.AllWithin(offset, n, shape.Bytes()) && shape.AllWithin(offset, n, |bytes|)
  {
    hide Shape.Offset, Shape.Bytes, Shape.Count, Shape.ElemSize, Layout.Valid, Layout.RowsFit;
    forall i | offset <= i < offset + n
      ensures shape.Within(i, shape.Bytes())
    {
      shape.Inside(i);
    }
    shape.Wider(offset, n, shape.Bytes(), |bytes|);
  }

  lemma NothingWritten(f: seq<seq<Byte>>, elemSize: int, offset: nat)
    requires (elemSize == 2 || elemSize == 4) && offset <= |f|
    ensures Written(f, elemSize, offset, []) == f
  {
  }

  lemma WrittenMore(f: seq<seq<Byte>>, elemSize: int, offset: nat, data: seq<Word32>)
    requires (elemSize == 2 || elemSize == 4) && data != [] && offset + |data| <= |f|
    ensures var n := |data| - 1;
      Written(f, elemSize, offset, data)
      == Written(f, elemSize, offset, data[..n])[offset + n := Encoded(elemSize, data[n])]
  {
    hide Encoded;
  }

  /** The two things a full write is for: no element lies outside the allocation, and
      afterwards every element holds what was written to it, whatever that is. */
  ghost predicate FullWritesHold(shape: Shape, bytes: seq<Byte>)
    requires shape.Valid() && |bytes| >= shape.Bytes()
  {
    shape.AllWithin(0, shape.Size(), shape.Bytes())
    && forall data: seq<Word32> :: |data| == shape.Size() ==> Holds(shape, bytes, data)
  }

  ghost predicate Holds(shape: Shape, bytes: seq<Byte>, data: seq<Word32>)
    requires shape.Valid() && |bytes| >= shape.Bytes() && |data| == shape.Size()
    requires shape.AllWithin(0, shape.Size(), shape.Bytes())
  {
    shape.AllWithin(0, |data|, |bytes|)
    && forall i :: 0 <= i < |data| ==>
      shape.Element(shape.Splat(bytes, 0, data), i) == Encoded(shape.ElemSize(), data[i])
  }

  /** Rows of 80 bytes at a stride of 64. */
  lemma RowsOverlap()
    ensures var layout := Layout(1, 40, 2, 2, 64, 128);
      layout.Valid() && !layout.RowsFit() && layout.ByteOffset(32) == layout.ByteOffset(40) == 64
  {
  }

  /** Of the layouts that `Valid` lets through, exactly those whose rows fit keep what is
      written to them. */
  lemma WritesHoldIffRowsFit(layout: Layout, bytes: seq<Byte>)
    requires layout.Valid() && |bytes| >= layout.AllocSize()
    ensures FullWritesHold(Strided(layout), bytes) <==> layout.RowsFit()
  {
    var shape := Strided(layout);
    if layout.RowsFit() {
      FitHolds(shape, bytes);
    } else if layout.height == 1 {
      var i := layout.Overrun();
      assert !shape.Within(i, shape.Bytes());
    } else if shape.AllWithin(0, shape.Size(), shape.Bytes()) {
      var i, j := layout.Collide();
      Clash(shape, bytes, i, j);
    }
  }

  lemma FitHolds(shape: Shape, bytes: seq<Byte>)
    requires shape.Sound() && |bytes| >= shape.Bytes()
    ensures FullWritesHold(shape, bytes)
  {
    SoundIsValid(shape);
    hide Shape.Offset, Shape.Bytes, Shape.Count, Shape.ElemSize, Shape.Sound, Shape.Valid, Encoded, Shape.Splat;
    forall data: seq<Word32> | |data| == shape.Size()
      ensures shape.AllWithin(0, shape.Size(), shape.Bytes()) && Holds(shape, bytes, data)
    {
      SplatIsWritten(shape, bytes, 0, data);
    }
    SplatIsWritten(shape, bytes, 0, Repeat(0, shape.Size()));
  }

  function Repeat(v: Word32, n: nat): (s: seq<Word32>)
    ensures |s| == n && forall i :: 0 <= i < n ==> s[i] == v
  {
    seq(n, _ => v)
  }

  /** 1.0, which no element size confuses with 0. */
  const ONE: Word32 := 0x3f80_0000

  lemma OneIsNotZero(elemSize: int)
    requires elemSize == 2 || elemSize == 4
    ensures Encoded(elemSize, ONE) != Encoded(elemSize, 0)
  {
  }

  lemma Clash(shape: Shape, bytes: seq<Byte>, i: int, j: int)
    requires shape.Valid() && |bytes| >= shape.Bytes() && shape.AllWithin(0, shape.Size(), shape.Bytes())
    requires 0 <= i < shape.Count() && 0 <= j < shape.Count() && i != j && shape.Offset(i) == shape.Offset(j)
    ensures !FullWritesHold(shape, bytes)
  {
    hide Shape.Offset, Shape.Bytes, Shape.Count, Shape.ElemSize, Shape.Valid, Encoded, Shape.Splat;
    var data := Repeat(0, shape.Size())[i := ONE];
    OneIsNotZero(shape.ElemSize());
    shape.Wider(0, |data|, shape.Bytes(), |bytes|);
    assert shape.Within(i, |bytes|) && shape.Within(j, |bytes|);
    assert shape.Element(shape.Splat(bytes, 0, data), i) == shape.Element(shape.Splat(bytes, 0, data), j);
    assert !Holds(shape, bytes, data);
  }

  lemma ZeroElement(shape: Shape, bytes: seq<Byte>, i: int)
    requires shape.Valid() && 0 <= i < shape.Count() && shape.Within(i, |bytes|) && shape.Within(i, shape.Bytes())
    requires |bytes| >= shape.Bytes() && forall k :: 0 <= k < shape.Bytes() ==> bytes[k] == 0
    ensures shape.Element(bytes, i) == Encoded(shape.ElemSize(), 0)
  {
    hide Shape.Offset, Shape.Bytes, Shape.Count;
  }

  /** The flat array after writing data at offset. */
  function Written(f: seq<seq<Byte>>, elemSize: int, offset: nat, data: seq<Word32>): (r: seq<seq<Byte>>)
    requires (elemSize == 2 || elemSize == 4) && offset + |data| <= |f|
    ensures |r| == |f|
    ensures forall i :: 0 <= i < |f| ==>
      r[i] == if offset <= i < offset + |data| then Encoded(elemSize, data[i - offset]) else f[i]
  {
    seq(|f|, i requires 0 <= i < |f| =>
      if offset <= i < offset + |data| then Encoded(elemSize, data[i - offset]) else f[i])
  }

  /** Reading back a range just written gives the data, exactly in 4-byte elements. */
  lemma ReadAfterWrite(elemSize: int, f: seq<seq<Byte>>, offset: nat, data: seq<Word32>, read: seq<Word32>)
    requires (elemSize == 2 || elemSize == 4) && offset + |data| <= |f| && |read| == |data|
    requires forall i :: 0 <= i < |data| ==> ReadsAs(Written(f, elemSize, offset, data)[offset + i], read[i])
    ensures elemSize == 4 ==> read == data
    ensures elemSize == 2 ==> forall i :: 0 <= i < |data| ==> Decodes(Float32ToFP16(data[i]), read[i])
  {
    forall i | 0 <= i < |data|
      ensures elemSize == 4 ==> read[i] == data[i]
      ensures elemSize == 2 ==> Decodes(Float32ToFP16(data[i]), read[i])
    {
      ReadsBack(elemSize, data[i], read[i]);
    }
  }

  /** An error, success, or an access outside the slice of the allocation, which panics. */
  datatype Outcome = Rejected | Done | Faulted

  /** `IOSurfaceFloat32`: memory, its shape, and the two lock flags. */
  class Surface {
    const memory: array<Byte>
    const shape: Shape
    var open: bool
    var readLocked: bool
    var writeLocked: bool

    constructor (memory: array<Byte>, shape: Shape)
      ensures this.memory == memory && this.shape == shape && open && !readLocked && !writeLocked
    {
      this.memory, this.shape := memory, shape;
      open, readLocked, writeLocked := true, false, false;
    }

    /** The checks on a range: a valid layout, the count, and the size of the memory. */
    predicate Accepts(offset: int, n: nat)
    {
      shape.Valid() && 0 <= offset && offset + n <= shape.Count()
      && (if shape.Linear? then 4 * (offset + n) else shape.Bytes()) <= memory.Length
    }

    /** What can be reached of the memory: the allocation of the layout. */
    function Reach(): int
      requires shape.Valid()
    {
      if shape.Linear? then memory.Length else shape.Bytes()
    }

    predicate Reaches(offset: int, n: nat)
      requires Accepts(offset, n)
    {
      shape.AllWithin(offset, n, Reach())
    }

    /** A proper layout whose rows fit, and memory for all its planes. */
    predicate HasRoom() {
      shape.Strided?
      && var l := shape.layout;
        l.channels > 0 && l.width > 0 && l.height > 0 && (l.elemSize == 2 || l.elemSize == 4)
        && l.rowStride > 0 && l.rowStride % 64 == 0 && l.planeStride >= l.height * l.rowStride
        && l.width * l.elemSize <= l.rowStride && l.channels * l.planeStride <= memory.Length
    }

    /** Memory for the whole allocation, and a range within the count. */
    predicate Room(offset: int, n: nat) {
      0 <= offset
      && (shape.Linear? ==> offset + n <= shape.count && 4 * (offset + n) <= memory.Length)
      && (shape.Strided? ==>
        offset + n <= shape.layout.channels * shape.layout.height * shape.layout.width
        && shape.layout.channels * shape.layout.planeStride <= memory.Length)
    }

    lemma RoomForAll(offset: int, n: nat)
      requires HasRoom() && 0 <= offset
      requires offset + n <= shape.layout.channels * shape.layout.height * shape.layout.width
      ensures Accepts(offset, n) && Reaches(offset, n) && offset + n <= shape.Count()
    {
      SoundReaches(offset, n);
    }

    lemma SoundReaches(offset: int, n: nat)
      requires Accepts(offset, n) && shape.Sound()
      ensures Reaches(offset, n)
    {
      forall i | offset <= i < offset + n
        ensures shape.Within(i, Reach())
      {
        shape.Inside(i);
      }
    }

    lemma ReachIsMemory(offset: int, n: nat)
      requires Accepts(offset, n)
      ensures shape.Valid() && 0 <= offset && offset + n <= shape.Count() && Reach() <= memory.Length
    {
    }

    method PutAt(i: int, v: Word32)
      requires shape.Valid() && 0 <= i < shape.Count() && shape.Within(i, memory.Length)
      modifies memory
      ensures memory[..] == shape.Put(old(memory[..]), i, v)
    {
      hide Shape.Offset, Shape.Bytes, Shape.Count, Float32ToFP16;
      var off := shape.Offset(i);
      if shape.ElemSize() == 2 {
        var bits := Float32ToFP16(v);
        memory[off], memory[off + 1] := bits % 0x100, bits / 0x100;
      } else {
        memory[off], memory[off + 1] := v % 0x100, v / 0x100 % 0x100;
        memory[off + 2], memory[off + 3] := v / 0x1_0000 % 0x100, v / 0x100_0000;
      }
    }

    /** The loop over the data; it stops at the first element beyond the first m bytes. */
    method StoreEach(offset: nat, data: seq<Word32>, m: int) returns (all: bool)
      requires shape.Valid() && offset + |data| <= shape.Count() && m <= memory.Length
      modifies memory
      ensures all <==> shape.AllWithin(offset, |data|, m)
      ensures all ==> shape.AllWithin(offset, |data|, memory.Length)
      ensures all ==> memory[..] == shape.Splat(old(memory[..]), offset, data)
    {
      hide Shape.Offset, Shape.Bytes, Shape.Count, Shape.ElemSize, Shape.Valid;
      hide Shape.Put, Shape.Splat, Shape.Within, Shape.AllWithin;
      shape.NoneYet(memory[..], offset);
      for i := 0 to |data|
        invariant shape.AllWithin(offset, i, m) && shape.AllWithin(offset, i, memory.Length)
        invariant memory[..] == shape.Splat(old(memory[..]), offset, data[..i])
      {
        if !shape.Within(offset + i, m) {
          shape.NotAll(offset, |data|, m, offset + i);
          return false;
        }
        shape.OneMore(old(memory[..]), offset, data[..i + 1], m);
        assert data[..i + 1][..i] == data[..i];
        PutAt(offset + i, data[i]);
      }
      assert data[..|data|] == data;
      all := true;
    }

    /** Writes a range of elements under any layout. */
    method Store(offset: int, data: seq<Word32>) returns (o: Outcome)
      modifies memory
      ensures o.Rejected? <==> !Accepts(offset, |data|)
      ensures o.Rejected? ==> memory[..] == old(memory[..])
      ensures Accepts(offset, |data|) ==> (o.Done? <==> Reaches(offset, |data|))
      ensures o.Done? ==> shape.AllWithin(offset, |data|, memory.Length)
      ensures o.Done? ==> memory[..] == shape.Splat(old(memory[..]), offset, data)
    {
      if !Accepts(offset, |data|) {
        return Rejected;
      }
      ReachIsMemory(offset, |data|);
      var all := StoreEach(offset, data, Reach());
      o := if all then Done else Faulted;
    }

    /** Writes data at an element offset. With a place for every element exactly that range of
        the flat array changes; otherwise later elements overwrite earlier ones. */
    method WriteAt(offset: int, data: seq<Word32>) returns (o: Outcome)
      modifies memory
      ensures o.Rejected? <==> offset < 0 || (data != [] && !(open && Accepts(offset, |data|)))
      ensures o.Rejected? || data == [] ==> memory[..] == old(memory[..])
      ensures !o.Rejected? && data != [] ==> (o.Done? <==> Reaches(offset, |data|))
      ensures data == [] ==> !o.Faulted?
      ensures o.Done? && data != [] ==>
        shape.AllWithin(offset, |data|, memory.Length) && memory[..] == shape.Splat(old(memory[..]), offset, data)
      ensures o.Done? && data != [] && shape.Sound() && shape.Bytes() <= memory.Length ==>
        shape.Flat(memory[..]) == Written(old(shape.Flat(memory[..])), shape.ElemSize(), offset, data)
      ensures open && HasRoom() && shape.layout.HasRange(offset, |data|) ==> o.Done?
      ensures o.Done? && data != [] ==> open && Room(offset, |data|)
    {
      if HasRoom() && shape.layout.HasRange(offset, |data|) {
        RoomForAll(offset, |data|);
      }
      if offset < 0 {
        return Rejected;
      }
      if |data| == 0 {
        return Done;
      }
      if !open || offset + |data| > shape.Count() {
        return Rejected;
      }
      o := Store(offset, data);
      if o.Done? && shape.Sound() && shape.Bytes() <= memory.Length {
        SplatIsWritten(shape, old(memory[..]), offset, data);
      }
    }

    method Write(data: seq<Word32>) returns (o: Outcome)
      modifies memory
      ensures o.Rejected? <==> !(open && |data| == shape.Count() && Accepts(0, |data|))
      ensures o.Rejected? ==> memory[..] == old(memory[..])
      ensures !o.Rejected? ==> (o.Done? <==> Reaches(0, |data|))
      ensures o.Done? ==>
        shape.AllWithin(0, |data|, memory.Length) && memory[..] == shape.Splat(old(memory[..]), 0, data)
      ensures o.Done? && shape.Sound() ==>
        shape.Flat(memory[..]) == seq(|data|, i requires 0 <= i < |data| => Encoded(shape.ElemSize(), data[i]))
      ensures open && HasRoom() && shape.layout.HasAll(|data|) ==> o.Done?
      ensures o.Done? ==> open && Room(0, |data|)
    {
      if HasRoom() && shape.layout.HasAll(|data|) {
        RoomForAll(0, |data|);
      }
      if !open || |data| != shape.Count() {
        return Rejected;
      }
      o := Store(0, data);
      if o.Done? && shape.Sound() {
        SplatIsWritten(shape, old(memory[..]), 0, data);
      }
    }

    /** The loop over the elements; it stops at the first one beyond the first m bytes. */
    method LoadEach(offset: nat, n: nat, m: int) returns (all: bool, r: seq<Word32>)
      requires shape.Valid() && offset + n <= shape.Count() && m <= memory.Length
      ensures all <==> shape.AllWithin(offset, n, m)
      ensures all ==> Loaded(offset, n, r)
    {
      hide Shape.Offset, Shape.Bytes, Shape.Count, Shape.ElemSize, Shape.Valid, Yields;
      r := [];
      for i := 0 to n
        invariant shape.AllWithin(offset, i, m) && Loaded(offset, i, r)
      {
        if !shape.Within(offset + i, m) {
          return false, [];
        }
        var v := GetAt(offset + i);
        r := r + [v];
      }
      all := true;
    }

    /** Reads n elements under any layout. */
    method Load(offset: int, n: nat) returns (o: Outcome, r: seq<Word32>)
      ensures o.Rejected? <==> !Accepts(offset, n)
      ensures Accepts(offset, n) ==> (o.Done? <==> Reaches(offset, n))
      ensures o.Done? ==> Loaded(offset, n, r)
    {
      if !Accepts(offset, n) {
        return Rejected, [];
      }
      ReachIsMemory(offset, n);
      var all;
      all, r := LoadEach(offset, n, Reach());
      o := if all then Done else Faulted;
    }

    /** r is what the elements of a range read as. */
    ghost predicate Loaded(offset: int, n: nat, r: seq<Word32>)
      requires shape.Valid() && 0 <= offset && offset + n <= shape.Count()
      reads memory
    {
      |r| == n && forall i :: 0 <= i < n ==> Yields(memory[..], offset + i, r[i])
    }

    ghost predicate Yields(bytes: seq<Byte>, i: int, v: Word32)
      requires shape.Valid() && 0 <= i < shape.Count()
    {
      shape.Within(i, |bytes|) && ReadsAs(shape.Element(bytes, i), v)
    }

    /** What was read for channel c, row h and column w: the little-endian word at its place, or the value
        of the binary16. */
    lemma ReadMeans(offset: int, n: nat, r: seq<Word32>, c: int, h: int, w: int)
      requires shape.Sound() && shape.Strided? && memory.Length >= shape.Bytes()
      requires 0 <= offset && offset + n <= shape.Count() && Loaded(offset, n, r)
      requires var l := shape.layout; 0 <= c < l.channels && 0 <= h < l.height && 0 <= w < l.width
      requires var l := shape.layout; offset <= h * (l.channels * l.width) + (c * l.width + w) < offset + n
      ensures var l := shape.layout;
        var v := r[h * (l.channels * l.width) + (c * l.width + w) - offset];
        var at := c * l.planeStride + h * l.rowStride + w * l.elemSize;
        0 <= at && at + l.elemSize <= memory.Length
        && (l.elemSize == 4 ==>
          v == memory[at] + 0x100 * (memory[at + 1] as int) + 0x1_0000 * (memory[at + 2] as int)
            + 0x100_0000 * (memory[at + 3] as int))
        && (l.elemSize == 2 ==> Decodes(memory[at] + 0x100 * (memory[at + 1] as int), v))
    {
      hide Decodes, Shape.Offset, Shape.Bytes, Shape.Count, Layout.RowsFit;
      var l := shape.layout;
      var i := h * (l.channels * l.width) + (c * l.width + w);
      shape.FlatAt(memory[..], c, h, w);
      assert Yields(memory[..], offset + (i - offset), r[i - offset]);
      var at := c * l.planeStride + h * l.rowStride + w * l.elemSize;
      ElementReads(shape.Element(memory[..], i), r[i - offset]);
      assert shape.Element(memory[..], i) == memory[..][at..at + l.elemSize];
    }

    method ReadAt(offset: int, n: int) returns (o: Outcome, r: seq<Word32>)
      ensures o.Rejected? <==>
        (offset < 0 || n < 0 || !open || offset + n > shape.Count()
         || !(Accepts(offset, n) || (n == 0 && shape.Linear?)))
      ensures !o.Rejected? && n > 0 ==> (o.Done? <==> Reaches(offset, n))
      ensures n == 0 ==> !o.Faulted?
      ensures o.Done? ==> if n == 0 then r == [] else Loaded(offset, n, r)
      ensures open && HasRoom() && n >= 0 && shape.layout.HasRange(offset, n) ==> o.Done?
      ensures o.Done? && n > 0 ==> open && Room(offset, n)
    {
      if HasRoom() && n >= 0 && shape.layout.HasRange(offset, n) {
        RoomForAll(offset, n);
      }
      if offset < 0 || n < 0 || !open || offset + n > shape.Count() {
        return Rejected, [];
      }
      if shape.Linear? && n == 0 {
        return Done, [];
      }
      o, r := Load(offset, n);
    }

    method Read() returns (o: Outcome, r: seq<Word32>)
      ensures o.Rejected? <==> !(open && shape.Valid() && Accepts(0, shape.Size()))
      ensures !o.Rejected? ==> (o.Done? <==> Reaches(0, shape.Size()))
      ensures o.Done? ==> Loaded(0, shape.Size(), r)
    {
      if !open || !shape.Valid() {
        return Rejected, [];
      }
      o, r := Load(0, shape.Size());
    }

    method GetAt(i: int) returns (v: Word32)
      requires shape.Valid() && 0 <= i < shape.Count() && shape.Within(i, memory.Length)
      ensures Yields(memory[..], i, v)
    {
      var off := shape.Offset(i);
      var e := memory[off..off + shape.ElemSize()];
      assert e == shape.Element(memory[..], i);
      if shape.ElemSize() == 2 {
        v := Fp16ToFloat32(Half(e));
      } else {
        v := Le32(e, 0);
      }
    }

    /** Zeroing a strided surface clears the whole allocation, padding included; every element
        that lies in it then holds zero. */
    method ZeroFill() returns (ok: bool)
      requires shape.Strided?
      modifies memory
      ensures ok <==> open && shape.Valid() && shape.Bytes() <= memory.Length
      ensures !ok ==> memory[..] == old(memory[..])
      ensures ok ==> forall k :: 0 <= k < memory.Length ==> memory[k] == if k < shape.Bytes() then 0 else old(memory[k])
      ensures ok ==> forall i :: 0 <= i < shape.Count() && shape.Within(i, shape.Bytes()) ==>
        shape.Within(i, memory.Length) && shape.Element(memory[..], i) == Encoded(shape.ElemSize(), 0)
    {
      hide Shape.Bytes, Shape.Count, Shape.ElemSize, Shape.Valid, Shape.Offset, Encoded;
      if !open || !shape.Valid() || memory.Length < shape.Bytes() {
        return false;
      }
      for k := 0 to shape.Bytes()
        invariant forall j :: 0 <= j < memory.Length ==> memory[j] == if j < k then 0 else old(memory[j])
      {
        memory[k] := 0;
      }
      forall i | 0 <= i < shape.Count() && shape.Within(i, shape.Bytes())
        ensures shape.Within(i, memory.Length) && shape.Element(memory[..], i) == Encoded(shape.ElemSize(), 0)
      {
        ZeroElement(shape, memory[..], i);
      }
      ok := true;
    }

    method LockWritable() returns (ok: bool)
      modifies this`writeLocked
      ensures ok <==> open && !readLocked && !old(writeLocked)
      ensures writeLocked == (old(writeLocked) || ok)
    {
      ok := open && !readLocked && !writeLocked;
      if ok {
        writeLocked := true;
      }
    }

    method UnlockWritable()
      modifies this`writeLocked
      ensures writeLocked == (old(writeLocked) && !open)
    {
      if open && writeLocked {
        writeLocked := false;
      }
    }
  }

  /** Gathers the elements of an output surface and lays them end to end, as float32s, at
      the base of its memory: there a linear reader then finds what the strided surface
      held. It fails without a trace if it cannot have the lock or the memory is short. */
  method CompactOutput(surf: Surface) returns (o: Outcome)
    modifies surf`writeLocked, surf.memory
    ensures surf.writeLocked == old(surf.writeLocked)
    ensures o.Faulted? <==>
      surf.open && surf.shape.Valid() && surf.Accepts(0, surf.shape.Size()) && !surf.Reaches(0, surf.shape.Size())
    ensures o.Done? <==>
      surf.open && surf.shape.Valid() && surf.Accepts(0, surf.shape.Size()) && surf.Reaches(0, surf.shape.Size())
      && !surf.readLocked && !surf.writeLocked && 4 * surf.shape.Size() <= surf.memory.Length
    ensures !o.Done? ==> surf.memory[..] == old(surf.memory[..])
    ensures o.Done? ==> forall i :: 0 <= i < surf.shape.Size() ==>
      surf.Yields(old(surf.memory[..]), i, LinearAt(surf.memory[..], i))
  {
    hide Shape.Offset, Shape.Bytes, Shape.Count, Shape.ElemSize, Shape.Valid, Surface.Yields;
    ghost var before := surf.memory[..];
    var data;
    o, data := surf.Read();
    if !o.Done? {
      return;
    }
    var ok := surf.LockWritable();
    if !ok {
      return Rejected;
    }
    var n := |data|;
    if surf.memory.Length < n * 4 {
      surf.UnlockWritable();
      return Rejected;
    }
    assert forall i :: 0 <= i < n ==> surf.Yields(before, 0 + i, data[i]);
    LayEndToEnd(surf.memory, data);
    surf.UnlockWritable();
    forall i | 0 <= i < n
      ensures surf.Yields(before, i, LinearAt(surf.memory[..], i))
    {
      assert surf.Yields(before, 0 + i, data[i]);
    }
  }

  method LayEndToEnd(memory: array<Byte>, data: seq<Word32>)
    requires 4 * |data| <= memory.Length
    modifies memory
    ensures forall i :: 0 <= i < |data| ==> LinearAt(memory[..], i) == data[i]
  {
    var dst := new Surface(memory, Linear(|data|));
    var o := dst.Write(data);
    dst.SoundReaches(0, |data|);
    forall i | 0 <= i < |data|
      ensures LinearAt(memory[..], i) == data[i]
    {
      assert dst.shape.Flat(memory[..])[i] == Encoded(4, data[i]);
      FourBytes(data[i]);
    }
  }

  /** Element i of memory read as an array of float32s. */
  function LinearAt(bytes: seq<Byte>, i: nat): Word32
    requires 4 * i + 4 <= |bytes|
  {
    var e := bytes[4 * i..4 * i + 4];
    Halves4(e);
    Le32(e, 0)
  }

  lemma LinearBytes(bytes: seq<Byte>, i: nat)
    requires 4 * i + 4 <= |bytes|
    ensures LinearAt(bytes, i) == bytes[4 * i] + 0x100 * (bytes[4 * i + 1] as int)
      + 0x1_0000 * (bytes[4 * i + 2] as int) + 0x100_0000 * (bytes[4 * i + 3] as int)
  {
  }

  lemma Halves4(e: seq<Byte>)
    requires |e| == 4
    ensures Le32(e, 0) < 0x1_0000_0000
  {
  }
}
