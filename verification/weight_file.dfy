/** The Espresso weight file (espresso_gen_transformer.go, espresso_gen_ffn.go): a table of
    slot sizes and ids, padding, and the payloads of the slots one after the other. */
module WeightFile {

  import Matrices
  import opened Options
  import opened Strides

  type Byte = b: nat | b < 0x100

  datatype Slot = Slot(size: nat, data: seq<Byte>)
  // ---- slots -----------------------------------------------------------------------------

  /** The bytes of a slot as the file holds them: cut or filled with zeros to its size. */
  function Stored(s: Slot): (b: seq<Byte>)
    ensures |b| == s.size
    ensures forall i :: 0 <= i < s.size ==> b[i] == if i < |s.data| then s.data[i] else 0
  {
    if |s.data| >= s.size then s.data[..s.size] else s.data + seq(s.size - |s.data|, _ => 0)
  }

  function Payload(slots: seq<Slot>): (p: seq<Byte>)
    ensures |p| == Start(slots, |slots|)
  {
    if slots == [] then [] else
      assert slots[..|slots|] == slots;
      StartOfPrefix(slots, |slots| - 1);
      Payload(slots[..|slots| - 1]) + Stored(slots[|slots| - 1])
  }

  /** Where slot i starts in the payload: the sum of the sizes before it. */
  function Start(slots: seq<Slot>, i: nat): nat
    requires i <= |slots|
  {
    if i == 0 then 0 else Start(slots, i - 1) + slots[i - 1].size
  }

  lemma {:induction false} StartOfPrefix(slots: seq<Slot>, n: nat)
    requires n <= |slots|
    ensures forall i :: 0 <= i <= n ==> Start(slots[..n], i) == Start(slots, i)
  {
    var i := 0;
    while i < n
      invariant 0 <= i <= n && forall j :: 0 <= j <= i ==> Start(slots[..n], j) == Start(slots, j)
    {
      i := i + 1;
    }
  }

  lemma {:induction false} StartGrows(slots: seq<Slot>, i: nat, j: nat)
    requires i <= j <= |slots|
    ensures Start(slots, i) <= Start(slots, j)
    decreases j
  {
    if i < j {
      StartGrows(slots, i, j - 1);
    }
  }

  /** Cutting the payload by the sizes gives every slot's bytes back. */
  lemma {:induction false} CutPayload(slots: seq<Slot>, i: nat)
    requires i < |slots|
    ensures Start(slots, i) + slots[i].size <= |Payload(slots)|
    ensures Payload(slots)[Start(slots, i)..Start(slots, i) + slots[i].size] == Stored(slots[i])
    decreases |slots|
  {
    hide Stored;
    var n := |slots| - 1;
    StartOfPrefix(slots, n);
    StartGrows(slots, i + 1, |slots|);
    var head, last := Payload(slots[..n]), Stored(slots[n]);
    assert Payload(slots) == head + last;
    if i < n {
      CutPayload(slots[..n], i);
      var from, to := Start(slots, i), Start(slots, i) + slots[i].size;
      assert (head + last)[from..to] == head[from..to];
    } else {
      assert (head + last)[|head|..|head| + |last|] == last;
    }
  }

  // ---- the header ------------------------------------------------------------------------

  /** A 64-bit word in little-endian order. */
  function Le64(v: nat): (w: seq<Byte>)
    ensures |w| == 8
  {
    LeBytes(v, 8)
  }

  function LeBytes(v: nat, n: nat): (w: seq<Byte>)
    ensures |w| == n
    decreases n
  {
    if n == 0 then [] else [v % 0x100] + LeBytes(v / 0x100, n - 1)
  }

  function Value(w: seq<Byte>): nat {
    if w == [] then 0 else w[0] + 0x100 * Value(w[1..])
  }

  function Pow256(n: nat): (p: nat)
    ensures p > 0
  {
    if n == 0 then 1 else 0x100 * Pow256(n - 1)
  }

  /** A word that fits its bytes is read back as it was. */
  lemma {:induction false} ReadsBack(v: nat, n: nat)
    requires v < Pow256(n)
    ensures Value(LeBytes(v, n)) == v
    decreases n
  {
    if n > 0 {
      ReadsBack(v / 0x100, n - 1);
      assert LeBytes(v, n)[1..] == LeBytes(v / 0x100, n - 1);
    }
  }

  /** Ids run through the slots in a cycle, one ahead of the position. */
  function BlobID(pos: nat, count: nat): (id: nat)
    ensures count > 0 ==> id < count
  {
    if count == 0 then 0 else (pos + 1) % count
  }

  /** Starting anywhere and following the ids one comes past every slot, once. */
  function Follow(pos: nat, count: nat, steps: nat): nat {
    if steps == 0 then pos else BlobID(Follow(pos, count, steps - 1), count)
  }

  lemma {:induction false} FollowIs(pos: nat, count: nat, steps: nat)
    requires pos < count
    ensures Follow(pos, count, steps) == Residue(pos + steps, count)
    decreases steps
  {
    hide Residue;
    if steps == 0 {
      SmallResidue(pos, count);
    } else {
      FollowIs(pos, count, steps - 1);
      NextResidue(pos + steps - 1, count);
    }
  }

  function Residue(a: nat, n: nat): (r: nat)
    requires n > 0
  {
    a % n
  }

  lemma SmallResidue(a: nat, n: nat)
    requires a < n
    ensures Residue(a, n) == a
  {
    Split(0, n, a);
  }

  lemma NextResidue(a: nat, n: nat)
    requires n > 0
    ensures BlobID(Residue(a, n), n) == Residue(a + 1, n)
  {
    DivMod(a, n);
    var q, r := a / n, a % n;
    if r + 1 < n {
      Split(q, n, r + 1);
      Split(0, n, r + 1);
    } else {
      Spread(q, 1, n);
      Split(q + 1, n, 0);
      Split(1, n, 0);
    }
  }

  lemma OneCycle(pos: nat, target: nat, count: nat)
    requires pos < count && target < count
    ensures exists steps :: 0 <= steps < count && Follow(pos, count, steps) == target
    ensures forall a, b :: 0 <= a < b < count ==> Follow(pos, count, a) != Follow(pos, count, b)
    ensures Follow(pos, count, count) == pos
  {
    var steps := if target >= pos then target - pos else target + count - pos;
    FollowIs(pos, count, steps);
    if target >= pos {
      Split(0, count, target);
    } else {
      Split(1, count, target);
    }
    forall a, b | 0 <= a < b < count
      ensures Follow(pos, count, a) != Follow(pos, count, b)
    {
      FollowIs(pos, count, a);
      FollowIs(pos, count, b);
      DivMod(pos + a, count);
      DivMod(pos + b, count);
      SameResidue(pos + a, pos + b, count);
    }
    FollowIs(pos, count, count);
    Split(1, count, pos);
  }

  lemma SameResidue(x: nat, y: nat, n: nat)
    requires x < y < x + n
    ensures x % n != y % n
  {
    DivMod(x, n);
    DivMod(y, n);
    var d := y / n - x / n;
    assert d * n == (y / n) * n - (x / n) * n by {
      Spread(y / n, -(x / n), n);
      assert (-(x / n)) * n == -((x / n) * n);
    }
    if d >= 1 {
      Times(1, d, n);
    } else {
      Times(d, 0, n);
    }
  }

  function AlignUp(v: nat, alignment: nat): (r: nat)
    requires alignment > 0
    ensures r >= v && r < v + alignment && r % alignment == 0
  {
    var r := v % alignment;
    if r == 0 then v else
      DivMod(v, alignment);
      Spread(v / alignment, 1, alignment);
      Split(v / alignment + 1, alignment, 0);
      v + alignment - r
  }

  const MIN_PAYLOAD_OFFSET := 0x100

  function PayloadOffset(count: nat): (off: nat)
    ensures off % 64 == 0 && off >= 16 + 16 * count && off >= MIN_PAYLOAD_OFFSET
  {
    var headerLen := 16 + count * 16;
    AlignUp(if headerLen < MIN_PAYLOAD_OFFSET then MIN_PAYLOAD_OFFSET else headerLen, 64)
  }

  function Table(slots: seq<Slot>, n: nat): (t: seq<Byte>)
    requires n <= |slots|
    ensures |t| == 16 * n
  {
    if n == 0 then [] else Table(slots, n - 1) + (Le64(slots[n - 1].size) + Le64(BlobID(n - 1, |slots|)))
  }

  lemma {:induction false} TableAt(slots: seq<Slot>, n: nat, i: nat)
    requires i < n <= |slots|
    ensures Table(slots, n)[16 * i..16 * i + 8] == Le64(slots[i].size)
    ensures Table(slots, n)[16 * i + 8..16 * i + 16] == Le64(BlobID(i, |slots|))
    decreases n
  {
    hide LeBytes;
    if i < n - 1 {
      TableAt(slots, n - 1, i);
      assert Table(slots, n)[16 * i..16 * i + 8] == Table(slots, n - 1)[16 * i..16 * i + 8];
      assert Table(slots, n)[16 * i + 8..16 * i + 16] == Table(slots, n - 1)[16 * i + 8..16 * i + 16];
    }
  }

  function Header(slots: seq<Slot>): (h: seq<Byte>)
    ensures |h| == PayloadOffset(|slots|)
  {
    var h := Le64(|slots|) + Le64(0) + Table(slots, |slots|);
    h + Matrices.Repeat<Byte>(0, PayloadOffset(|slots|) - |h|)
  }

  /** `espressoWeightBuilder`. */
  class Builder {
    var slots: seq<Slot>

    constructor ()
      ensures slots == []
    {
      slots := [];
    }

    method AddSlot(size: nat, data: seq<Byte>) returns (pos: nat)
      modifies this
      ensures slots == old(slots) + [Slot(size, data)] && pos == |old(slots)|
    {
      slots := slots + [Slot(size, data)];
      pos := |slots| - 1;
    }

    /** A descriptor slot and behind it the weights, to which its id points. */
    method AddWeightOnly(weight: seq<Byte>) returns (descPos: nat)
      modifies this
      ensures old(slots) <= slots && Describes(slots, descPos, Slot(|weight|, weight))
      ensures slots == old(slots) + [Slot(0, []), Slot(|weight|, weight)] && descPos == |old(slots)|
    {
      descPos := AddSlot(0, []);
      var data := AddSlot(|weight|, weight);
      NextIsData(slots, descPos);
    }

    /** Bias descriptor and bias, weight descriptor and weights. */
    method AddLinear(weight: seq<Byte>, outDim: nat) returns (weightDescPos: nat, biasDescPos: nat)
      modifies this
      ensures old(slots) <= slots
      ensures Describes(slots, weightDescPos, Slot(|weight|, weight))
      ensures Describes(slots, biasDescPos, Slot(outDim * 16, Matrices.Repeat<Byte>(0, outDim * 16)))
      ensures slots[biasDescPos] == Slot(56, Matrices.Repeat<Byte>(0, 56)) && slots[weightDescPos].size == 0
      ensures slots == old(slots) + [Slot(56, seq(56, _ => 0)), Slot(outDim * 16, seq(outDim * 16, _ => 0)),
        Slot(0, []), Slot(|weight|, weight)]
      ensures biasDescPos == |old(slots)| && weightDescPos == |old(slots)| + 2
    {
      biasDescPos := AddSlot(56, Matrices.Repeat<Byte>(0, 56));
      var bias := AddSlot(outDim * 16, Matrices.Repeat<Byte>(0, outDim * 16));
      weightDescPos := AddSlot(0, []);
      var data := AddSlot(|weight|, weight);
      NextIsData(slots, biasDescPos);
      NextIsData(slots, weightDescPos);
      assert Matrices.Repeat<Byte>(0, 56) == seq(56, _ => 0);
      assert Matrices.Repeat<Byte>(0, outDim * 16) == seq(outDim * 16, _ => 0);
    }

    /** Count, reserved word, one size and id to a slot, and zeros up to the payload. */
    method WriteHeader() returns (buf: seq<Byte>)
      requires slots != []
      ensures buf == Header(slots)
    {
      hide LeBytes, BlobID, PayloadOffset;
      var n := |slots|;
      buf := Le64(n) + Le64(0);
      for pos := 0 to n
        invariant buf == Le64(n) + Le64(0) + Table(slots, pos)
      {
        buf := buf + Le64(slots[pos].size);
        buf := buf + Le64(BlobID(pos, n));
        Regroup(Le64(n) + Le64(0), Table(slots, pos), Le64(slots[pos].size), Le64(BlobID(pos, n)));
      }
      var payloadOffset := PayloadOffset(n);
      if |buf| < payloadOffset {
        buf := buf + Matrices.Repeat<Byte>(0, payloadOffset - |buf|);
      }
    }

    method Build() returns (r: Option<seq<Byte>>)
      ensures r.None? <==> slots == []
      ensures r.Some? ==> r.value == Header(slots) + Payload(slots)
    {
      hide Header, Stored;
      if |slots| == 0 {
        return None;
      }
      var buf := WriteHeader();
      for pos := 0 to |slots|
        invariant buf == Header(slots) + Payload(slots[..pos])
      {
        assert slots[..pos + 1][..pos] == slots[..pos];
        var payload := SlotBytes(slots[pos]);
        if slots[pos].size != 0 {
          buf := buf + payload;
        }
      }
      assert slots[..|slots|] == slots;
      r := Some(buf);
    }
  }

  lemma Regroup(a: seq<Byte>, b: seq<Byte>, c: seq<Byte>, d: seq<Byte>)
    ensures a + b + c + d == a + (b + (c + d))
  {
  }

  method SlotBytes(s: Slot) returns (payload: seq<Byte>)
    ensures payload == Stored(s)
  {
    payload := s.data;
    if |payload| > s.size {
      payload := payload[..s.size];
    }
    if |payload| < s.size {
      payload := payload + Matrices.Repeat<Byte>(0, s.size - |payload|);
    }
  }

  /** The id of the descriptor at pos is the position of the slot it describes. That stays
      so whatever is added later. */
  predicate Describes(slots: seq<Slot>, pos: nat, s: Slot) {
    pos + 1 < |slots| && BlobID(pos, |slots|) < |slots| && slots[BlobID(pos, |slots|)] == s
  }

  lemma NextIsData(slots: seq<Slot>, pos: nat)
    requires pos + 1 < |slots|
    ensures BlobID(pos, |slots|) == pos + 1
  {
    Split(0, |slots|, pos + 1);
  }

  lemma DescribesStays(slots: seq<Slot>, pos: nat, s: Slot, more: seq<Slot>)
    requires Describes(slots, pos, s) && slots <= more
    ensures Describes(more, pos, s)
  {
    NextIsData(slots, pos);
    NextIsData(more, pos);
  }

  lemma SliceOfMiddle(a: seq<Byte>, b: seq<Byte>, c: seq<Byte>, i: nat, n: nat)
    requires i + n <= |b|
    ensures (a + b + c)[|a| + i..|a| + i + n] == b[i..i + n]
  {
  }

  lemma SliceOfTail(a: seq<Byte>, b: seq<Byte>, i: nat, n: nat)
    requires i + n <= |b|
    ensures (a + b)[|a| + i..|a| + i + n] == b[i..i + n]
  {
  }

  lemma HeaderReadsBack(slots: seq<Slot>, rest: seq<Byte>, i: nat)
    requires i < |slots| < Pow256(8) && slots[i].size < Pow256(8)
    ensures var file := Header(slots) + rest;
      Value(file[..8]) == |slots| && Value(file[16 + 16 * i..24 + 16 * i]) == slots[i].size
      && Value(file[24 + 16 * i..32 + 16 * i]) == BlobID(i, |slots|)
  {
    hide LeBytes, Value, Pow256, Table, BlobID, PayloadOffset;
    var n := |slots|;
    var t := Table(slots, n);
    TableAt(slots, n, i);
    var front, back := Le64(n) + Le64(0), Matrices.Repeat<Byte>(0, PayloadOffset(n) - 16 - 16 * n) + rest;
    var file := Header(slots) + rest;
    assert file == front + t + back;
    SliceOfMiddle(front, t, back, 16 * i, 8);
    SliceOfMiddle(front, t, back, 16 * i + 8, 8);
    assert file[..8] == Le64(n);
    ReadsBack(n, 8);
    ReadsBack(slots[i].size, 8);
    ReadsBack(BlobID(i, n), 8);
  }

  /** The count and the sizes are 64-bit words. */
  predicate Words(slots: seq<Slot>) {
    |slots| < Pow256(8) && forall j :: 0 <= j < |slots| ==> slots[j].size < Pow256(8)
  }

  /** Reading the file: the count, then sizes and ids from the table, then each slot cut out
      of the payload. All of it is what was put in, as long as the sizes are 64-bit words. */
  lemma FileReadsBack(slots: seq<Slot>, file: seq<Byte>, i: nat)
    requires i < |slots| && Words(slots) && file == Header(slots) + Payload(slots)
    ensures var off := PayloadOffset(|slots|) + Start(slots, i);
      |file| >= 16 + 16 * |slots| && Value(file[..8]) == |slots|
      && Value(file[16 + 16 * i..24 + 16 * i]) == slots[i].size
      && Value(file[24 + 16 * i..32 + 16 * i]) == BlobID(i, |slots|)
      && off + slots[i].size <= |file| && file[off..off + slots[i].size] == Stored(slots[i])
  {
    hide Value, Pow256, BlobID, PayloadOffset, Payload, Start, Header, Stored;
    HeaderReadsBack(slots, Payload(slots), i);
    CutPayload(slots, i);
    SliceOfTail(Header(slots), Payload(slots), Start(slots, i), slots[i].size);
  }

  /** Two slot lists with the same file have the same sizes and the same stored bytes. */
  lemma FileDeterminesSlots(a: seq<Slot>, b: seq<Slot>, i: nat)
    requires a != [] && b != [] && Words(a) && Words(b) && i < |a|
    requires Header(a) + Payload(a) == Header(b) + Payload(b)
    ensures |a| == |b| && a[i].size == b[i].size && Stored(a[i]) == Stored(b[i])
  {
    hide Header, Payload, Words, Value, PayloadOffset, Stored, Start, BlobID;
    var file := Header(a) + Payload(a);
    SameCount(a, b, file);
    SameStart(a, b, file, i);
    FileReadsBack(a, file, i);
    FileReadsBack(b, file, i);
  }

  lemma SameCount(a: seq<Slot>, b: seq<Slot>, file: seq<Byte>)
    requires a != [] && b != [] && Words(a) && Words(b) && file == Header(a) + Payload(a) == Header(b) + Payload(b)
    ensures |a| == |b|
  {
    hide Header, Payload, Words, Value, PayloadOffset, Stored, Start, BlobID;
    FileReadsBack(a, file, 0);
    FileReadsBack(b, file, 0);
  }

  lemma {:induction false} SameStart(a: seq<Slot>, b: seq<Slot>, file: seq<Byte>, i: nat)
    requires i <= |a| == |b| && Words(a) && Words(b) && file == Header(a) + Payload(a) == Header(b) + Payload(b)
    ensures Start(a, i) == Start(b, i)
    decreases i
  {
    hide Header, Payload, Words, Value, PayloadOffset, Stored, BlobID;
    if i > 0 {
      SameStart(a, b, file, i - 1);
      FileReadsBack(a, file, i - 1);
      FileReadsBack(b, file, i - 1);
    }
  }

  /** A file of one slot with the bytes 1, 2, 3, asked for with 4: the beginning of its header, where
      the payload starts, and the payload. */
  lemma OneSlotFile()
    ensures var slots := [Slot(4, [1, 2, 3])];
      Header(slots)[..32] == [1, 0, 0, 0, 0, 0, 0, 0] + [0, 0, 0, 0, 0, 0, 0, 0]
        + [4, 0, 0, 0, 0, 0, 0, 0] + [0, 0, 0, 0, 0, 0, 0, 0]
      && |Header(slots)| == 256 && Payload(slots) == [1, 2, 3, 0]
    ensures Le64(0x0102) == [2, 1, 0, 0, 0, 0, 0, 0]
    ensures BlobID(0, 4) == 1 && BlobID(2, 4) == 3 && BlobID(3, 4) == 0
    ensures PayloadOffset(15) == 256 && PayloadOffset(16) == 320
  {
    var slots := [Slot(4, [1, 2, 3])];
    Word8(1);
    Word8(0);
    Word8(4);
    Word8(0x0102);
    assert BlobID(0, 1) == 0;
    assert Table(slots, 1) == Table(slots, 0) + (Le64(4) + Le64(0));
    assert slots[..0] == [] && Payload([]) == [];
    assert Payload(slots) == Payload(slots[..0]) + Stored(slots[0]);
  }

  lemma Word8(v: nat)
    requires v < 0x1_0000
    ensures Le64(v) == [v % 0x100, v / 0x100, 0, 0, 0, 0, 0, 0]
  {
    assert LeBytes(0, 6) == [0] + LeBytes(0, 5) && LeBytes(0, 4) == [0] + LeBytes(0, 3);
    assert LeBytes(0, 2) == [0] + LeBytes(0, 1) && LeBytes(0, 1) == [0] + LeBytes(0, 0);
    assert LeBytes(0, 3) == [0] + LeBytes(0, 2) && LeBytes(0, 5) == [0] + LeBytes(0, 4);
    assert LeBytes(v / 0x100, 7) == [v / 0x100] + LeBytes(0, 6);
    assert LeBytes(v, 8) == [v % 0x100] + LeBytes(v / 0x100, 7);
  }
}
