/** The draft model as the drafter sees it (module Drafting) and the K/V surfaces it is made of
    (module KVLog) are the same object: every operation takes matching states to matching
    states. So the surfaces hold what a replay of the drafter's history would write. */
module DraftSurfaces {

  import opened Drafting
  import opened Options
  import K = KVLog

  datatype Op = Feed(token: int) | Back(n: nat) | Restart

  /** The rows that the network returns have the size of the surfaces' rows. */
  ghost predicate RowsOfSize(net: Net, size: nat) {
    forall rows: seq<Row>, token: int :: |net.kvRow(rows, token).k| == |net.kvRow(rows, token).v| == size
  }

  ghost predicate Matches(d: DraftModel, m: K.DecodeModel)
    reads d, m, m.kvState
  {
    !d.stateful && !m.statefulMIL
    && m.Valid() && m.Lockstep() && m.MaskFits()
    && m.kvState.numLayers > 0 && m.kvState.BlankFrom(m.kvState.position)
    && RowsOfSize(d.net, m.kvState.rowSize)
    && d.maxSeqLen == m.kvState.maxSeqLen
    && d.decodePos == m.decodePos && d.rows == m.kvState.Log(0)
  }

  /** One token on both: they succeed together, and what the model computes it computes from
      the rows that the mask opens. */
  method FeedBoth(d: DraftModel, m: K.DecodeModel, token: int) returns (ok: bool)
    requires Matches(d, m) && d.written == None
    modifies d, m`decodePos, m`maskTmp, m`maskSurface, m.maskTmp, m.kvState
    ensures Matches(d, m) && m.kvState == old(m.kvState) && d.written == None
    ensures m.maskTmp == old(m.maskTmp) || fresh(m.maskTmp)
    ensures ok <==> |old(d.rows)| < d.maxSeqLen
    ensures ok ==> m.Opens(|old(d.rows)|)
    ensures d.rows == if ok then old(d.rows) + [d.net.kvRow(old(d.rows), token)] else old(d.rows)
    ensures d.decodePos == if ok then old(d.decodePos) + 1 else old(d.decodePos)
  {
    hide K.KVState.BlankFrom, K.KVState.Shaped, K.KVState.LogOf;
    var row := d.net.kvRow(d.rows, token);
    var logits := d.EvalToken(token);
    ok := m.DecodeToken(row.k, row.v);
    if ok {
      d.AdvanceDecodePosition();
    }
  }

  method BackBoth(d: DraftModel, m: K.DecodeModel, n: nat)
    requires Matches(d, m) && n > 0
    modifies d, m`decodePos, m.kvState
    ensures Matches(d, m) && m.kvState == old(m.kvState) && d.written == old(d.written)
    ensures d.rows == old(d.rows)[..K.RewoundTo(|old(d.rows)|, n)]
    ensures d.decodePos == |d.rows|
  {
    hide K.KVState.BlankFrom, K.KVState.Shaped, K.KVState.LogOf;
    var moved := d.RewindDecodePosition(n);
    var also := m.RewindDecodePosition(n);
    assert m.Valid() && m.Lockstep();
    assert m.MaskFits();
    assert m.kvState.BlankFrom(m.kvState.position);
    assert d.rows == m.kvState.Log(0);
  }

  method ResetBoth(d: DraftModel, m: K.DecodeModel)
    requires Matches(d, m) && d.written == None
    modifies d, m`decodePos, m.kvState
    ensures Matches(d, m) && m.kvState == old(m.kvState) && d.written == None
    ensures d.rows == [] && d.decodePos == 0
  {
    hide K.KVState.BlankFrom, K.KVState.Shaped;
    d.Reset();
    m.Reset();
    assert m.kvState.position == 0 && m.kvState.BlankFrom(0) && m.kvState.Log(0) == [];
    assert m.MaskFits();
  }

  /** What one operation does to the tokens that have been fed. */
  function Tokens(h: seq<int>, op: Op, done: bool): seq<int> {
    match op
    case Feed(token) => if done then h + [token] else h
    case Back(n) => h[..K.RewoundTo(|h|, n)]
    case Restart => []
  }

  function TokensAfter(h: seq<int>, ops: seq<Op>, done: seq<bool>): seq<int>
    requires |ops| == |done|
    decreases |ops|
  {
    if ops == [] then h
    else
      var n := |ops| - 1;
      Tokens(TokensAfter(h, ops[..n], done[..n]), ops[n], done[n])
  }

  method ObeyBoth(d: DraftModel, m: K.DecodeModel, op: Op, ghost h: seq<int>) returns (done: bool)
    requires Matches(d, m) && d.At(h)
    modifies d, m`decodePos, m`maskTmp, m`maskSurface, m.maskTmp, m.kvState
    ensures Matches(d, m) && m.kvState == old(m.kvState) && d.At(Tokens(h, op, done))
    ensures m.maskTmp == old(m.maskTmp) || fresh(m.maskTmp)
    ensures done <==> op.Feed? ==> |h| < d.maxSeqLen
  {
    hide RowsOfSize, K.KVState.BlankFrom, K.KVState.LogOf, K.DecodeModel.MaskFits;
    done := true;
    match op {
      case Feed(token) =>
        done := FeedBoth(d, m, token);
        assert (h + [token])[..|h|] == h;
      case Back(n) =>
        if n > 0 {
          d.net.RowsPrefix(h, K.RewoundTo(|h|, n));
          BackBoth(d, m, n);
        } else {
          assert h[..|h|] == h;
        }
      case Restart => ResetBoth(d, m);
    }
  }

  /** Any run of tokens, rewinds and resets: the surfaces hold the rows that feeding the
      remaining tokens from reset would have written, and nothing behind them. */
  method Run(d: DraftModel, m: K.DecodeModel, ops: seq<Op>, ghost h: seq<int>) returns (done: seq<bool>)
    requires Matches(d, m) && d.At(h)
    modifies d, m`decodePos, m`maskTmp, m`maskSurface, m.maskTmp, m.kvState
    ensures Matches(d, m) && |done| == |ops|
    ensures d.At(TokensAfter(h, ops, done))
    ensures m.kvState.Log(0) == d.net.Rows(TokensAfter(h, ops, done))
  {
    hide Tokens, DraftModel.At;
    done := [];
    for i := 0 to |ops|
      invariant Matches(d, m) && m.kvState == old(m.kvState) && |done| == i
      invariant m.maskTmp == old(m.maskTmp) || fresh(m.maskTmp)
      invariant d.At(TokensAfter(h, ops[..i], done))
    {
      ghost var before := done;
      var ok := ObeyBoth(d, m, ops[i], TokensAfter(h, ops[..i], done));
      done := done + [ok];
      assert done[..i] == before && ops[..i + 1][..i] == ops[..i];
    }
    assert ops[..|ops|] == ops;
    RowsAt(d, TokensAfter(h, ops, done));
  }

  lemma RowsAt(d: DraftModel, h: seq<int>)
    requires d.At(h) && !d.stateful
    ensures d.rows == d.net.Rows(h)
  {
  }
}
