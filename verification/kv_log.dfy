/** The per-layer K/V surfaces of the draft model (draft_kv_state_darwin.go) as a log of
    rows that truncates on rewind, and the decode position and attention mask that follow
    it (draft_model_darwin.go). */
module KVLog {

  import opened Matrices
  import opened Strides

  type F = int             // a float32 value; 0 is zero
  const NEG_INF: F := -10000

  // ---- surfaces cut into rows --------------------------------------------------------

  function WriteAt(s: seq<F>, off: nat, data: seq<F>): (r: seq<F>)
    requires off + |data| <= |s|
    ensures |r| == |s|
  {
    s[..off] + data + s[off + |data|..]
  }

  function Zeros(n: nat): (z: seq<F>)
    ensures |z| == n
  {
    Repeat(0, n)
  }

  /** Where rows q and p .. p + c - 1 lie relative to one another. */
  lemma RowOrder(r: nat, p: nat, c: nat, q: nat)
    ensures Area(p + c, r) == Area(p, r) + Area(c, r)
    ensures q < p ==> Area(q, r) + r <= Area(p, r)
    ensures p <= q < p + c ==> Area(q - p, r) == Area(q, r) - Area(p, r) && Area(q, r) + r <= Area(p + c, r)
    ensures p + c <= q ==> Area(p + c, r) <= Area(q, r)
  {
    hide Area;
    AreaAdds(p, c, r);
    if q < p {
      RowsApart(q, p, r);
    } else if q < p + c {
      AreaAdds(p, q - p, r);
      RowsApart(q, p + c, r);
    } else {
      AreaAdds(p + c, q - p - c, r);
    }
  }

  lemma SliceOfWrite(s: seq<F>, off: nat, data: seq<F>, a: nat, n: nat)
    requires off + |data| <= |s| && a + n <= |s|
    ensures a + n <= off || off + |data| <= a ==> WriteAt(s, off, data)[a..a + n] == s[a..a + n]
    ensures off <= a && a + n <= off + |data| ==> WriteAt(s, off, data)[a..a + n] == data[a - off..a - off + n]
  {
    var w := WriteAt(s, off, data);
    assert forall i :: 0 <= i < |s| ==> w[i] == if off <= i < off + |data| then data[i - off] else s[i];
    if a + n <= off || off + |data| <= a {
      assert w[a..a + n] == s[a..a + n];
    }
    if off <= a && a + n <= off + |data| {
      assert w[a..a + n] == data[a - off..a - off + n];
    }
  }

  /** Writing c whole rows at row p replaces those rows and no other. */
  lemma WriteRows(s: seq<F>, r: nat, m: nat, p: nat, c: nat, data: seq<F>, q: nat)
    requires |s| == Area(m, r) && p + c <= m && q < m && |data| == Area(c, r)
    ensures Area(p, r) + |data| <= |s|
    ensures Row(WriteAt(s, Area(p, r), data), m, r, q) ==
      if p <= q < p + c then Row(data, c, r, q - p) else Row(s, m, r, q)
  {
    hide Area, WriteAt;
    RowOrder(r, p, c, q);
    RowOrder(r, p, c, m);
    RowOrder(r, m, 0, q);
    SliceOfWrite(s, Area(p, r), data, Area(q, r), r);
  }

  lemma ZeroRow(r: nat, m: nat, q: nat)
    requires q < m
    ensures Row(Zeros(Area(m, r)), m, r, q) == Zeros(r)
  {
    hide Area;
    RowInside(q, m, r);
  }

  lemma OnlyRow(row: seq<F>)
    ensures Area(1, |row|) == |row| && Row(row, 1, |row|, 0) == row
  {
  }

  /** Position p after going back n, which stops at 0. */
  function RewoundTo(p: nat, n: int): (r: nat)
    ensures r <= p
  {
    if n <= 0 then p else if n >= p then 0 else p - n
  }

  datatype Entry = Entry(k: seq<F>, v: seq<F>)

  /** `DraftKVSurfaceState`. */
  class KVState {
    const numLayers: nat
    const rowSize: nat
    const maxSeqLen: nat
    var position: nat
    var k: seq<seq<F>>
    var v: seq<seq<F>>

    ghost predicate Shaped(k: seq<seq<F>>, v: seq<seq<F>>) {
      |k| == |v| == numLayers && forall l :: 0 <= l < numLayers ==> |k[l]| == |v[l]| == Area(maxSeqLen, rowSize)
    }

    ghost predicate Valid()
      reads this
    {
      position <= maxSeqLen && Shaped(k, v)
    }

    /** What layer l of the given surfaces holds at position p. */
    ghost function Cell(k: seq<seq<F>>, v: seq<seq<F>>, l: nat, p: nat): Entry
      requires Shaped(k, v) && l < numLayers && p < maxSeqLen
    {
      Entry(Row(k[l], maxSeqLen, rowSize, p), Row(v[l], maxSeqLen, rowSize, p))
    }

    ghost function Blank(): Entry {
      Entry(Zeros(rowSize), Zeros(rowSize))
    }

    /** Entry by entry: where the row of a position lies in a surface, and that a blank one is zero. */
    lemma CellAt(k: seq<seq<F>>, v: seq<seq<F>>, l: nat, p: nat, c: nat)
      requires Shaped(k, v) && l < numLayers && p < maxSeqLen && c < rowSize
      ensures 0 <= p * rowSize + c < |k[l]| == |v[l]| == maxSeqLen * rowSize
      ensures var cell := Cell(k, v, l, p);
        |cell.k| == |cell.v| == rowSize && cell.k[c] == k[l][p * rowSize + c] && cell.v[c] == v[l][p * rowSize + c]
      ensures Blank().k[c] == Blank().v[c] == 0 && |Blank().k| == |Blank().v| == rowSize
    {
      RowMajor(k[l], maxSeqLen, rowSize, p, c);
      RowMajor(v[l], maxSeqLen, rowSize, p, c);
    }

    /** The log of a layer: its first n rows. */
    ghost function LogOf(k: seq<seq<F>>, v: seq<seq<F>>, l: nat, n: nat): (log: seq<Entry>)
      requires Shaped(k, v) && l < numLayers && n <= maxSeqLen
      ensures |log| == n && forall p :: 0 <= p < n ==> log[p] == Cell(k, v, l, p)
    {
      seq(n, p requires 0 <= p < n => Cell(k, v, l, p))
    }

    ghost function Log(l: nat): (log: seq<Entry>)
      requires Valid() && l < numLayers
      reads this
    {
      LogOf(k, v, l, position)
    }

    /** All rows from p on are zero, in every layer. */
    ghost predicate BlankFrom(p: nat)
      requires Valid()
      reads this
    {
      forall l, q :: 0 <= l < numLayers && p <= q < maxSeqLen ==> Cell(k, v, l, q) == Blank()
    }

    constructor (numLayers: nat, numHeads: nat, headDim: nat, maxSeqLen: nat)
      requires numLayers > 0 && numHeads > 0 && headDim > 0 && maxSeqLen > 0
      ensures Valid() && position == 0 && BlankFrom(0)
      ensures this.numLayers == numLayers && this.rowSize == numHeads * headDim && this.maxSeqLen == maxSeqLen
    {
      this.numLayers, this.rowSize, this.maxSeqLen, position := numLayers, numHeads * headDim, maxSeqLen, 0;
      k := seq(numLayers, _ => Zeros(maxSeqLen * (numHeads * headDim)));
      v := seq(numLayers, _ => Zeros(maxSeqLen * (numHeads * headDim)));
      new;
      forall q | 0 <= q < maxSeqLen
        ensures Row(Zeros(Area(maxSeqLen, rowSize)), maxSeqLen, rowSize, q) == Zeros(rowSize)
      {
        ZeroRow(rowSize, maxSeqLen, q);
      }
    }

    /** Writes one row at the current position of one layer and nothing else. */
    method WriteLayerKV(layer: int, kRow: seq<F>, vRow: seq<F>) returns (ok: bool)
      requires Valid()
      modifies this`k, this`v
      ensures Valid()
      ensures ok <==> 0 <= layer < numLayers && position < maxSeqLen && |kRow| == |vRow| == rowSize
      ensures !ok ==> unchanged(this)
      ensures ok ==> forall l, q :: 0 <= l < numLayers && 0 <= q < maxSeqLen ==>
        Cell(k, v, l, q) == if l == layer && q == position then Entry(kRow, vRow) else Cell(old(k), old(v), l, q)
      ensures ok ==> 0 <= position * rowSize && position * rowSize + rowSize <= |k[layer]| == |v[layer]|
      ensures ok ==> k[layer][position * rowSize..position * rowSize + rowSize] == kRow
      ensures ok ==> v[layer][position * rowSize..position * rowSize + rowSize] == vRow
    {
      ok := 0 <= layer < numLayers && position < maxSeqLen && |kRow| == |vRow| == rowSize;
      if ok {
        OnlyRow(kRow);
        OnlyRow(vRow);
        WriteCells(layer, position, 1, kRow, vRow);
        assert Cell(k, v, layer, position) == Entry(kRow, vRow);
        RowInside(position, maxSeqLen, rowSize);
      }
    }

    /** Writes c whole rows of one layer, from row p on. */
    method WriteCells(layer: nat, p: nat, c: nat, kRows: seq<F>, vRows: seq<F>)
      requires Valid() && layer < numLayers && p + c <= maxSeqLen && |kRows| == |vRows| == Area(c, rowSize)
      modifies this`k, this`v
      ensures Valid()
      ensures forall l, q :: 0 <= l < numLayers && 0 <= q < maxSeqLen ==>
        Cell(k, v, l, q) == if l == layer && p <= q < p + c
          then Entry(Row(kRows, c, rowSize, q - p), Row(vRows, c, rowSize, q - p)) else Cell(old(k), old(v), l, q)
    {
      hide Area, Row, WriteAt;
      ghost var k0, v0 := k[layer], v[layer];
      RowOrder(rowSize, p, c, maxSeqLen);
      k := k[layer := WriteAt(k[layer], Area(p, rowSize), kRows)];
      v := v[layer := WriteAt(v[layer], Area(p, rowSize), vRows)];
      forall q | 0 <= q < maxSeqLen
        ensures Cell(k, v, layer, q) == if p <= q < p + c
          then Entry(Row(kRows, c, rowSize, q - p), Row(vRows, c, rowSize, q - p))
          else Cell(old(k), old(v), layer, q)
      {
        WriteRows(k0, rowSize, maxSeqLen, p, c, kRows, q);
        WriteRows(v0, rowSize, maxSeqLen, p, c, vRows, q);
      }
    }

    method Advance() returns (ok: bool)
      requires Valid()
      modifies this`position
      ensures Valid()
      ensures ok <==> old(position) < maxSeqLen
      ensures position == if ok then old(position) + 1 else old(position)
    {
      ok := position + 1 <= maxSeqLen;
      if ok {
        position := position + 1;
      }
    }

    /** Zeroes rows lo .. hi - 1 of every layer. */
    method ClearRows(lo: nat, hi: nat)
      requires Valid() && lo <= hi <= maxSeqLen
      modifies this`k, this`v
      ensures Valid()
      ensures forall l, q :: 0 <= l < numLayers && 0 <= q < maxSeqLen ==>
        Cell(k, v, l, q) == if lo <= q < hi then Blank() else Cell(old(k), old(v), l, q)
    {
      var c := hi - lo;
      var zero := Zeros(Area(c, rowSize));
      hide Area, Row;
      for i := 0 to numLayers
        invariant Valid()
        invariant forall l, q :: 0 <= l < numLayers && 0 <= q < maxSeqLen ==>
          Cell(k, v, l, q) == if l < i && lo <= q < hi then Blank() else Cell(old(k), old(v), l, q)
      {
        WriteCells(i, lo, c, zero, zero);
        forall q | 0 <= q < c
          ensures Row(zero, c, rowSize, q) == Zeros(rowSize)
        {
          ZeroRow(rowSize, c, q);
        }
      }
    }

    method Reset()
      requires Valid()
      modifies this
      ensures Valid() && position == 0
      ensures forall l, q :: 0 <= l < numLayers && 0 <= q < maxSeqLen ==>
        Cell(k, v, l, q) == if q < old(position) then Blank() else Cell(old(k), old(v), l, q)
    {
      ClearRows(0, position);
      position := 0;
    }

    /** Moves the position back and zeroes exactly the rows between the new and the old. */
    method Rewind(n: int)
      requires Valid()
      modifies this
      ensures Valid()
      ensures position == RewoundTo(old(position), n)
      ensures n <= 0 ==> position == old(position)
      ensures 0 < n < old(position) ==> position == old(position) - n
      ensures n >= old(position) && n > 0 ==> position == 0
      ensures forall l, q :: 0 <= l < numLayers && 0 <= q < maxSeqLen ==>
        Cell(k, v, l, q) == if position <= q < old(position) then Blank() else Cell(old(k), old(v), l, q)
    {
      if n <= 0 {
        return;
      }
      if n >= position {
        Reset();
        return;
      }
      var newPos := position - n;
      ClearRows(newPos, position);
      position := newPos;
    }

    // ---- the log discipline ------------------------------------------------------------

    /** Write one row and advance: the log of the layer grows by that row, the logs of the
        others by their blank row, and everything beyond stays blank. */
    method Append(layer: nat, kRow: seq<F>, vRow: seq<F>) returns (ok: bool)
      requires Valid() && BlankFrom(position) && layer < numLayers && |kRow| == |vRow| == rowSize
      modifies this
      ensures Valid() && BlankFrom(position)
      ensures ok <==> old(position) < maxSeqLen
      ensures position == if ok then old(position) + 1 else old(position)
      ensures !ok ==> unchanged(this)
      ensures ok ==> forall l :: 0 <= l < numLayers ==>
        Log(l) == old(Log(l)) + [if l == layer then Entry(kRow, vRow) else Blank()]
    {
      ok := WriteLayerKV(layer, kRow, vRow);
      if ok {
        ok := Advance();
      }
    }

    /** Rewinding truncates every log. What lies beyond is blank again exactly when no row
        had been written at the old position without advancing. */
    method Truncate(n: nat)
      requires Valid() && BlankFrom(position + 1) && n > 0
      modifies this
      ensures Valid()
      ensures position == RewoundTo(old(position), n)
      ensures forall l :: 0 <= l < numLayers ==> Log(l) == old(Log(l))[..position]
      ensures BlankFrom(position) <==> old(BlankFrom(position))
    {
      ghost var was, k0, v0 := position, k, v;
      Rewind(n);
      if l, q :| 0 <= l < numLayers && was <= q < maxSeqLen && Cell(k0, v0, l, q) != Blank() {
        assert Cell(k, v, l, q) != Blank();
      }
    }
  }

  /** A row written and not advanced survives the rewind: it is left behind the log. */
  method DirtyRowSurvives() returns (s: KVState)
    ensures s.Valid() && s.position == 0 && !s.BlankFrom(0)
  {
    s := new KVState(1, 1, 1, 4);
    var ok := s.Append(0, [5], [6]);
    ok := s.WriteLayerKV(0, [7], [8]);
    s.Rewind(1);
    assert s.Cell(s.k, s.v, 0, 1).k[0] == 7 && s.Blank().k[0] == 0;
  }

  // ---- decode position and attention mask ------------------------------------------------

  /** What a mask over rows 0 .. maxSeq - 1 and the slot of the current token says about t. */
  function MaskAt(pos: nat, maxSeq: nat, t: nat): F {
    if t < pos || t == maxSeq then 0 else NEG_INF
  }

  datatype Command = Token(k: seq<F>, v: seq<F>) | Back(n: int) | Restart

  /** What one command does to a log kept as a plain list: a token that went through is
      appended, a rewind cuts the end off, a restart empties it. */
  function Apply(log: seq<Entry>, command: Command, done: bool): seq<Entry> {
    match command
    case Token(k, v) => if done then log + [Entry(k, v)] else log
    case Back(n) => log[..RewoundTo(|log|, n)]
    case Restart => []
  }

  function LogAfter(log: seq<Entry>, commands: seq<Command>, done: seq<bool>): seq<Entry>
    requires |commands| == |done|
    decreases |commands|
  {
    if commands == [] then log
    else
      var n := |commands| - 1;
      Apply(LogAfter(log, commands[..n], done[..n]), commands[n], done[n])
  }

  /** The part of `ANEDraftModel` that a KV runtime uses. */
  class DecodeModel {
    const statefulMIL: bool
    const boundByPlan: bool
    const ropeAttnDim: int
    const ropeHeadDim: int
    var decodePos: int
    var kvState: KVState?
    var maskTmp: array<F>
    var maskSurface: seq<F>

    ghost predicate Valid()
      reads this, kvState
    {
      decodePos >= 0 && (kvState != null ==> kvState.Valid())
    }

    ghost predicate Lockstep()
      reads this, kvState
    {
      kvState != null && kvState.position == decodePos
    }

    constructor (statefulMIL: bool, boundByPlan: bool, attnDim: int, headDim: int, maskSurface: seq<F>)
      ensures Valid() && decodePos == 0 && kvState == null && fresh(maskTmp)
      ensures this.statefulMIL == statefulMIL && this.boundByPlan == boundByPlan && this.maskSurface == maskSurface
      ensures ropeAttnDim == attnDim && ropeHeadDim == headDim
    {
      this.statefulMIL, this.boundByPlan := statefulMIL, boundByPlan;
      this.ropeAttnDim, this.ropeHeadDim, this.maskSurface := attnDim, headDim, maskSurface;
      decodePos, kvState, maskTmp := 0, null, new F[0];
    }

    /** A new KV state starts at position 0, the decode position stays where it is: the two
        agree afterwards exactly when nothing had been decoded yet. */
    method ConfigureKVState(numLayers: nat, numHeads: nat, headDim: nat, maxSeqLen: nat) returns (ok: bool)
      requires Valid()
      modifies this`kvState
      ensures Valid()
      ensures ok <==> !boundByPlan && numLayers > 0 && numHeads > 0 && headDim > 0 && maxSeqLen > 0
      ensures !ok ==> kvState == old(kvState)
      ensures ok ==> kvState != null && fresh(kvState) && kvState.maxSeqLen == maxSeqLen && kvState.BlankFrom(0)
      ensures ok ==> kvState.position == 0 && (Lockstep() <==> decodePos == 0)
      ensures ok ==> kvState.numLayers == numLayers && kvState.rowSize == numHeads * headDim
    {
      ok := !boundByPlan && numLayers > 0 && numHeads > 0 && headDim > 0 && maxSeqLen > 0;
      if ok {
        kvState := new KVState(numLayers, numHeads, headDim, maxSeqLen);
      }
    }

    method AdvanceDecodePosition() returns (ok: bool)
      requires Valid()
      modifies this`decodePos, kvState
      ensures Valid()
      ensures ok <==> kvState == null || old(kvState.position) < kvState.maxSeqLen
      ensures decodePos == if ok then old(decodePos) + 1 else old(decodePos)
      ensures kvState != null ==> kvState.k == old(kvState.k) && kvState.v == old(kvState.v)
      ensures Lockstep() <==> old(Lockstep())
    {
      ok := true;
      if kvState != null {
        ok := kvState.Advance();
        if !ok {
          return;
        }
      }
      decodePos := decodePos + 1;
    }

    /** Both positions go back by n, stopping at 0. So they agree afterwards exactly when
        they agreed before or n takes both to 0. */
    method RewindDecodePosition(n: int) returns (ok: bool)
      requires Valid()
      modifies this`decodePos, kvState
      ensures Valid()
      ensures ok <==> n <= 0 || !statefulMIL
      ensures decodePos == RewoundTo(old(decodePos), if ok then n else 0)
      ensures decodePos ==
        if !ok || n <= 0 then old(decodePos) else if n >= old(decodePos) then 0 else old(decodePos) - n
      ensures kvState != null ==>
        kvState.position == RewoundTo(old(kvState.position), if ok then n else 0)
      ensures kvState != null ==>
        forall l :: 0 <= l < kvState.numLayers ==> kvState.Log(l) == old(kvState.Log(l))[..kvState.position]
      ensures kvState != null && old(kvState.BlankFrom(kvState.position)) ==> kvState.BlankFrom(kvState.position)
      ensures Lockstep() <==>
        old(Lockstep()) || (ok && kvState != null && n > 0 && n >= old(decodePos) && n >= old(kvState.position))
    {
      ok := n <= 0 || !statefulMIL;
      if n <= 0 || !ok {
        return;
      }
      if kvState != null {
        kvState.Rewind(n);
      }
      decodePos := if n >= decodePos then 0 else decodePos - n;
    }

    /** Reset puts any two positions back in step. */
    method Reset()
      requires Valid()
      modifies this`decodePos, kvState
      ensures Valid() && decodePos == 0
      ensures kvState != null ==> Lockstep()
      ensures kvState != null && old(kvState.BlankFrom(kvState.position)) ==> kvState.BlankFrom(0)
    {
      decodePos := 0;
      if kvState != null {
        kvState.Reset();
      }
    }

    /** The surface of the mask has room for every head's row positions and the current slot. */
    ghost predicate MaskFits()
      reads this, kvState
    {
      kvState != null && kvState.maxSeqLen > 0
      && ropeHeadDim > 0 && ropeAttnDim > 0 && ropeAttnDim % ropeHeadDim == 0
      && |maskSurface| == Area(ropeAttnDim / ropeHeadDim, kvState.maxSeqLen + 1)
    }

    /** The mask opens, for every head, the rows below the decode position and the slot of
        the current token. In lockstep those rows are exactly the rows of the log. */
    method WriteMask() returns (ok: bool)
      requires Valid()
      modifies this`maskTmp, this`maskSurface, maskTmp
      ensures Valid() && decodePos == old(decodePos)
      ensures maskTmp == old(maskTmp) || fresh(maskTmp)
      ensures ok ==> kvState != null && ropeHeadDim > 0 && ropeAttnDim % ropeHeadDim == 0
      ensures !ok ==> maskSurface == old(maskSurface)
      ensures |maskSurface| == |old(maskSurface)|
      ensures ok ==> Opens(decodePos)
      ensures ok && Lockstep() ==> Opens(kvState.position)
      ensures ok <==> old(MaskFits())
      // entry by entry, each head's row of the mask after the other
      ensures ok ==> |maskSurface| == (ropeAttnDim / ropeHeadDim) * (kvState.maxSeqLen + 1)
      ensures ok ==> forall i :: 0 <= i < |maskSurface| ==>
        var u := i % (kvState.maxSeqLen + 1);
        maskSurface[i] == if u < decodePos || u == kvState.maxSeqLen then 0 else -10000
    {
      if kvState == null || ropeAttnDim <= 0 || ropeHeadDim <= 0 || ropeAttnDim % ropeHeadDim != 0 {
        return false;
      }
      var numHeads: nat := ropeAttnDim / ropeHeadDim;
      var maxSeq := kvState.maxSeqLen;
      if maxSeq <= 0 {
        return false;
      }
      var perHead := maxSeq + 1;
      var total := Area(numHeads, perHead);
      if maskTmp.Length != total {
        maskTmp := new F[total];
      }
      for i := 0 to total
        invariant maskTmp.Length == total
        invariant (maskTmp == old(maskTmp) || fresh(maskTmp)) && maskSurface == old(maskSurface)
        invariant forall j :: 0 <= j < i ==> maskTmp[j] == NEG_INF
      {
        maskTmp[i] := NEG_INF;
      }
      var pos := if decodePos < 0 then 0 else decodePos;
      if pos > maxSeq {
        pos := maxSeq;
      }
      hide Area;
      for h := 0 to numHeads
        invariant maskTmp.Length == total == Area(numHeads, perHead)
        invariant (maskTmp == old(maskTmp) || fresh(maskTmp)) && maskSurface == old(maskSurface)
        invariant forall j :: Area(h, perHead) <= j < total ==> maskTmp[j] == NEG_INF
        invariant Area(h, perHead) <= total
        invariant Filled(maskTmp[..], h, maxSeq, pos)
      {
        RowsApart(h, numHeads, perHead);
        NextRow(h, perHead);
        if h + 1 < numHeads {
          RowsApart(h + 1, numHeads, perHead);
        }
        OpenHead(h, numHeads, maxSeq, pos);
      }
      ok := |maskSurface| == total;
      if ok {
        maskSurface := maskTmp[..];
        EachEntry(maskSurface, numHeads, maxSeq, pos);
      }
    }

    lemma EachEntry(s: seq<F>, heads: nat, maxSeq: nat, pos: nat)
      requires |s| == heads * (maxSeq + 1) && Filled(s, heads, maxSeq, pos)
      ensures forall i :: 0 <= i < |s| ==>
        var u := i % (maxSeq + 1);
        s[i] == if u < pos || u == maxSeq then 0 else -10000
    {
      var n := maxSeq + 1;
      forall i | 0 <= i < |s|
        ensures s[i] == if i % n < pos || i % n == maxSeq then 0 else -10000
      {
        DivMod(i, n);
        Below(i / n, heads, n, i);
        assert Marked(s, i / n, i % n, maxSeq, pos);
      }
    }

    /** One token on the KV plan: the mask opens the rows of the log, the row that the
        network returns is written at the position, and the position advances. A run of
        these keeps the lockstep, grows the log by the row and leaves nothing behind it. */
    method DecodeToken(kRow: seq<F>, vRow: seq<F>) returns (ok: bool)
      requires Valid() && Lockstep() && kvState.numLayers > 0 && kvState.BlankFrom(kvState.position)
      modifies this`decodePos, this`maskTmp, this`maskSurface, maskTmp, kvState
      ensures Valid() && Lockstep() && kvState.BlankFrom(kvState.position)
      ensures maskTmp == old(maskTmp) || fresh(maskTmp)
      ensures decodePos == if ok then old(decodePos) + 1 else old(decodePos)
      ensures kvState.Log(0) == if ok then old(kvState.Log(0)) + [Entry(kRow, vRow)] else old(kvState.Log(0))
      ensures ok ==> ropeHeadDim > 0 && Opens(old(decodePos))
      ensures ok <==> old(MaskFits()) && old(decodePos) < kvState.maxSeqLen && |kRow| == |vRow| == kvState.rowSize
      ensures MaskFits() <==> old(MaskFits())
    {
      ok := WriteMask();
      if ok {
        ok := kvState.WriteLayerKV(0, kRow, vRow);
      }
      if ok {
        ok := AdvanceDecodePosition();
        assert kvState.Log(0) == old(kvState.Log(0)) + [Entry(kRow, vRow)];
      }
    }

    method Execute(command: Command) returns (ok: bool)
      requires Valid() && Lockstep() && !statefulMIL && kvState.numLayers > 0 && kvState.BlankFrom(kvState.position)
      modifies this`decodePos, this`maskTmp, this`maskSurface, maskTmp, kvState
      ensures Valid() && Lockstep() && kvState.BlankFrom(kvState.position)
      ensures maskTmp == old(maskTmp) || fresh(maskTmp)
      ensures kvState.Log(0) == Apply(old(kvState.Log(0)), command, ok)
      ensures !command.Token? ==> ok
    {
      hide KVState.BlankFrom, KVState.LogOf, KVState.Shaped, Opens;
      match command {
        case Token(kRow, vRow) => ok := DecodeToken(kRow, vRow);
        case Back(n) =>
          ok := RewindDecodePosition(n);
        case Restart =>
          ok := true;
          Reset();
      }
    }

    /** Any run of tokens, rewinds and resets: decode position, KV position and log agree at
        the end, the log is the one that truncating list operations give, and nothing is
        left beyond it. `done` says which commands succeeded. */
    method Run(commands: seq<Command>) returns (done: seq<bool>)
      requires Valid() && Lockstep() && !statefulMIL && kvState.numLayers > 0 && kvState.BlankFrom(kvState.position)
      modifies this`decodePos, this`maskTmp, this`maskSurface, maskTmp, kvState
      ensures Valid() && Lockstep() && kvState.BlankFrom(kvState.position)
      ensures |done| == |commands|
      ensures kvState.Log(0) == LogAfter(old(kvState.Log(0)), commands, done)
      ensures forall i :: 0 <= i < |commands| && !commands[i].Token? ==> done[i]
    {
      hide Apply;
      done := [];
      for i := 0 to |commands|
        invariant Valid() && Lockstep() && kvState.BlankFrom(kvState.position)
        invariant |done| == i && (maskTmp == old(maskTmp) || fresh(maskTmp))
        invariant kvState.Log(0) == LogAfter(old(kvState.Log(0)), commands[..i], done)
        invariant forall j :: 0 <= j < i && !commands[j].Token? ==> done[j]
      {
        ghost var before := done;
        var ok := Execute(commands[i]);
        done := done + [ok];
        assert done[..i] == before && commands[..i + 1][..i] == commands[..i];
      }
      assert commands[..|commands|] == commands;
    }

    /** Opens the rows of one head in the scratch mask. */
    method OpenHead(h: nat, numHeads: nat, maxSeq: nat, pos: nat)
      requires h < numHeads && pos <= maxSeq && Area(h, maxSeq + 1) + maxSeq + 1 <= maskTmp.Length
      requires Filled(maskTmp[..], h, maxSeq, pos)
      requires forall j :: Area(h, maxSeq + 1) <= j < maskTmp.Length ==> maskTmp[j] == NEG_INF
      modifies maskTmp
      ensures Filled(maskTmp[..], h + 1, maxSeq, pos)
      ensures forall j :: Area(h, maxSeq + 1) + maxSeq + 1 <= j < maskTmp.Length ==> maskTmp[j] == NEG_INF
    {
      hide Area;
      var base := Area(h, maxSeq + 1);
      ghost var before := maskTmp[..];
      var t := 0;
      while t < pos && t < maxSeq
        invariant 0 <= t <= pos
        invariant forall j :: 0 <= j < maskTmp.Length ==>
          maskTmp[j] == if base <= j < base + t then 0 else before[j]
      {
        maskTmp[base + t] := 0;
        t := t + 1;
      }
      maskTmp[base + maxSeq] := 0;
      ghost var s := maskTmp[..];
      forall g, u | 0 <= g <= h && 0 <= u <= maxSeq
        ensures Marked(s, g, u, maxSeq, pos)
      {
        if g < h {
          RowsApart(g, h, maxSeq + 1);
          assert Marked(before, g, u, maxSeq, pos);
        }
      }
    }

    /** The first n heads of a mask are right. */
    ghost predicate Filled(s: seq<F>, n: nat, maxSeq: nat, pos: nat) {
      forall g, u :: 0 <= g < n && 0 <= u <= maxSeq ==> Marked(s, g, u, maxSeq, pos)
    }

    /** Entry u of head g says what `MaskAt` says. */
    ghost predicate Marked(s: seq<F>, g: nat, u: nat, maxSeq: nat, pos: nat) {
      Area(g, maxSeq + 1) + u < |s| && s[Area(g, maxSeq + 1) + u] == MaskAt(pos, maxSeq, u)
    }

    ghost predicate Opens(pos: nat)
      requires kvState != null && ropeHeadDim > 0
      reads this, kvState
    {
      Filled(maskSurface, if ropeAttnDim < 0 then 0 else ropeAttnDim / ropeHeadDim, kvState.maxSeqLen,
        if pos > kvState.maxSeqLen then kvState.maxSeqLen else pos)
    }
  }

  /** A K/V state that is configured after the first token begins at 0, and the model does not. */
  method ConfiguredInMidRun() returns (m: DecodeModel)
    ensures m.Valid() && m.kvState != null && m.kvState.position == 0 && m.decodePos == 1 && !m.Lockstep()
  {
    m := new DecodeModel(true, false, 1, 1, []);
    var ok := m.AdvanceDecodePosition();
    ok := m.ConfigureKVState(1, 1, 1, 4);
  }

  /** The masks of the first two tokens, for one head and room for four rows. */
  method FirstMasks() returns (first: seq<F>, second: seq<F>)
    ensures first == [-10000, -10000, -10000, -10000, 0]
    ensures second == [0, -10000, -10000, -10000, 0]
  {
    var m := new DecodeModel(false, false, 1, 1, [0, 0, 0, 0, 0]);
    var ok := m.ConfigureKVState(1, 1, 1, 4);
    ok := m.WriteMask();
    first := m.maskSurface;
    assert ok && |first| == 5 && forall i :: 0 <= i < 5 ==> i % 5 == i;
    ok := m.DecodeToken([7], [8]);
    ok := m.WriteMask();
    second := m.maskSurface;
  }
}
