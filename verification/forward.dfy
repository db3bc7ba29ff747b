/** The layer loop of the decode plane (decode/dispatch.go): direct blocks over spans, the
    fused and plain ANE paths of a layer, the GPU fallback, and what they leave behind in the
    caches, in the blocks' own state and in the slot pools.

    Hidden states, norms and cached rows are opaque values. A stage, block or GPU operation
    either fails, as the environment says, or computes what the `Net` says. */
module Forwarding {

  import opened Options
  import opened Spans

  type H = int      // a hidden state
  type N = int      // a normalized hidden state
  type Row = int    // what a layer caches of one token

  /** The model: attention of a layer sees the rows in its cache, and adds one that may depend
      on its position. */
  datatype Net = Net(
    add: (H, H) -> H, inNorm: (nat, H) -> N, postNorm: (nat, H) -> N,
    attn: (nat, seq<Row>, N) -> H, kv: (nat, nat, N) -> Row, zeroRow: Row, mlp: (nat, N) -> H, head: H -> H)
  {
    /** One transformer layer. */
    function Layer(i: nat, rows: seq<Row>, x: H): H {
      var h := add(x, attn(i, rows, inNorm(i, x)));
      add(h, mlp(i, postNorm(i, h)))
    }

    function RowOf(i: nat, pos: nat, x: H): Row {
      kv(i, pos, inNorm(i, x))
    }

    /** Layers from, from + 1, ... one after the other, each on the rows it sees. */
    ghost function Compose(from: nat, seen: seq<seq<Row>>, x: H): H
      decreases |seen|
    {
      if seen == [] then x
      else
        var n := |seen| - 1;
        Layer(from + n, seen[n], Compose(from, seen[..n], x))
    }

    lemma {:induction false} ComposeSplits(from: nat, a: seq<seq<Row>>, b: seq<seq<Row>>, x: H)
      ensures Compose(from, a + b, x) == Compose(from + |a|, b, Compose(from, a, x))
      decreases |b|
    {
      if b == [] {
        assert a + b == a;
      } else {
        var n := |b| - 1;
        assert (a + b)[..|a| + n] == a + b[..n];
        ComposeSplits(from, a, b[..n], x);
      }
    }

    /** Layer by layer, in the operations of the model: each hidden state comes from the one before
        and from the rows that the layer sees, and each row from the hidden state it is made of. */
    ghost predicate Chain(from: nat, seen: seq<seq<Row>>, hs: seq<H>, w: seq<Row>) {
      |hs| == |seen| + 1 && |w| == |seen|
      && forall j :: 0 <= j < |seen| ==> Linked(from + j, seen[j], hs[j], hs[j + 1], w[j])
    }

    ghost predicate Linked(i: nat, rows: seq<Row>, x: H, y: H, row: Row) {
      var n := inNorm(i, x);
      var h := add(x, attn(i, rows, n));
      y == add(h, mlp(i, postNorm(i, h))) && row == kv(i, |rows|, n)
    }

    lemma ChainPrefix(from: nat, seen: seq<seq<Row>>, hs: seq<H>, w: seq<Row>, n: nat)
      requires Chain(from, seen, hs, w) && n <= |seen|
      ensures Chain(from, seen[..n], hs[..n + 1], w[..n])
    {
      hide Linked;
      forall j | 0 <= j < n
        ensures Linked(from + j, seen[..n][j], hs[..n + 1][j], hs[..n + 1][j + 1], w[..n][j])
      {
        assert Linked(from + j, seen[j], hs[j], hs[j + 1], w[j]);
      }
    }

    lemma LinkIsLayer(i: nat, rows: seq<Row>, x: H, y: H, row: Row)
      requires Linked(i, rows, x, y, row)
      ensures y == Layer(i, rows, x) && row == RowOf(i, |rows|, x)
    {
    }

    /** That is what the composition of the layers is, and there is only one such chain. */
    lemma {:induction false} ChainComposes(from: nat, seen: seq<seq<Row>>, hs: seq<H>, w: seq<Row>)
      requires Chain(from, seen, hs, w)
      ensures Compose(from, seen, hs[0]) == hs[|seen|] && Written(from, seen, hs[0]) == w
      decreases |seen|
    {
      hide Layer, RowOf, Linked;
      if seen != [] {
        var n := |seen| - 1;
        LinkIsLayer(from + n, seen[n], hs[n], hs[n + 1], w[n]);
        ChainPrefix(from, seen, hs, w, n);
        ChainComposes(from, seen[..n], hs[..n + 1], w[..n]);
        WrittenPrefix(from, seen, n, hs[0]);
        assert hs[..n + 1][0] == hs[0] && hs[..n + 1][n] == hs[n];
        assert Written(from, seen, hs[0])[..n] == w[..n] && Written(from, seen, hs[0])[n] == w[n];
      }
    }

    /** The rows that those layers add. */
    ghost function Written(from: nat, seen: seq<seq<Row>>, x: H): (w: seq<Row>)
      ensures |w| == |seen|
    {
      seq(|seen|, j requires 0 <= j < |seen| => RowOf(from + j, |seen[j]|, Compose(from, seen[..j], x)))
    }

    lemma WrittenSplits(from: nat, a: seq<seq<Row>>, b: seq<seq<Row>>, x: H)
      ensures Written(from, a + b, x) == Written(from, a, x) + Written(from + |a|, b, Compose(from, a, x))
    {
      hide Compose, RowOf;
      forall j | 0 <= j < |a + b|
        ensures Written(from, a + b, x)[j]
          == (Written(from, a, x) + Written(from + |a|, b, Compose(from, a, x)))[j]
      {
        if j < |a| {
          assert (a + b)[..j] == a[..j];
        } else {
          assert (a + b)[..j] == a + b[..j - |a|];
          ComposeSplits(from, a, b[..j - |a|], x);
        }
      }
    }

    lemma NextRow(from: nat, seen: seq<seq<Row>>, k: nat, x: H)
      requires k < |seen|
      ensures Compose(from, seen[..k + 1], x) == Layer(from + k, seen[k], Compose(from, seen[..k], x))
      ensures Written(from, seen, x)[..k + 1]
        == Written(from, seen, x)[..k] + [RowOf(from + k, |seen[k]|, Compose(from, seen[..k], x))]
    {
      assert seen[..k + 1][..k] == seen[..k];
    }

    lemma OneMore(from: nat, seen: seq<seq<Row>>, rows: seq<Row>, x: H)
      ensures Compose(from, seen + [rows], x) == Layer(from + |seen|, rows, Compose(from, seen, x))
      ensures Written(from, seen + [rows], x)
        == Written(from, seen, x) + [RowOf(from + |seen|, |rows|, Compose(from, seen, x))]
    {
      hide Layer, RowOf, Written, Compose;
      var all := seen + [rows];
      assert all[..|seen|] == seen && all[..|seen| + 1] == all;
      WrittenPrefix(from, all, |seen|, x);
      NextRow(from, all, |seen|, x);
    }

    lemma WrittenPrefix(from: nat, seen: seq<seq<Row>>, k: nat, x: H)
      requires k <= |seen|
      ensures Written(from, seen, x)[..k] == Written(from, seen[..k], x)
    {
      hide Compose, RowOf;
      forall j | 0 <= j < k
        ensures Written(from, seen, x)[j] == Written(from, seen[..k], x)[j]
      {
        assert seen[..k][..j] == seen[..j];
      }
    }

    /** What those layers see the next time. */
    ghost function Grown(from: nat, seen: seq<seq<Row>>, x: H): (g: seq<seq<Row>>)
      ensures |g| == |seen|
    {
      Extended(seen, Written(from, seen, x))
    }
  }

  function Extended(seen: seq<seq<Row>>, w: seq<Row>): (g: seq<seq<Row>>)
    requires |w| == |seen|
    ensures |g| == |seen| && forall j :: 0 <= j < |g| ==> g[j] == seen[j] + [w[j]]
  {
    seq(|seen|, j requires 0 <= j < |seen| => seen[j] + [w[j]])
  }

  /** Outcome of a path that may decline. */
  datatype Try = Declined | Failed | Done

  /** The compiled prepare graph: absent, failing, or followed by a dispatch. */
  datatype Prepare = Absent | Broken | Prepared(dispatched: bool)

  /** How the operations of one layer turn out, and how many leases its output views hold: none
      if outputs are copied. */
  datatype LayerEnv = LayerEnv(
    inNormOk: bool, attnOk: bool, residualOk: bool, postNormOk: bool, gpuMlpOk: bool, outAddOk: bool,
    stageOk: bool, prepare: Prepare, fromInputs: Try, fromResidual: Try, denseOk: bool, moeOk: bool,
    metalNorm: Try, metalAdd: Try, lends: nat)
  {
    /** Everything outside the ANE stages works. */
    predicate GpuWorks() {
      inNormOk && attnOk && residualOk && postNormOk && gpuMlpOk && outAddOk && !metalNorm.Failed? && !metalAdd.Failed?
    }

    /** An ANE failure that comes after both the residual and the post norm were computed.
        Only the dispatch of an explicitly normalized input fails that late. */
    predicate FailsLate(moe: bool) {
      residualOk && postNormOk &&
      if moe then !moeOk
      else stageOk && prepare != Prepared(true) && fromInputs.Declined? && fromResidual.Declined? && !denseOk
    }

    /** The ANE computes the layer's output. */
    predicate Serves(moe: bool) {
      if moe then (residualOk && postNormOk && moeOk)
      else (stageOk && (prepare == Prepared(true) || fromInputs.Done? || (fromInputs.Declined? && ServesResidual())))
    }

    lemma LateOnly(moe: bool)
      requires FailsLate(moe)
      ensures residualOk && postNormOk
      ensures if moe then !moeOk else stageOk && !denseOk && fromInputs.Declined? && fromResidual.Declined?
    {
    }

    lemma ServedBy(moe: bool)
      requires Serves(moe)
      ensures if moe then moeOk
        else stageOk && (prepare == Prepared(true) || fromInputs.Done? || fromResidual.Done? || denseOk)
    {
    }

    predicate ServesResidual() {
      residualOk && (fromResidual.Done? || (fromResidual.Declined? && postNormOk && denseOk))
    }
  }

  datatype Consumer = Plain | ResidualAdd | ResidualNorm | Other

  /** How one attempt at a direct block turns out. `cacheOk` tells which layers' caches take
      the zero row. */
  datatype BlockEnv = BlockEnv(
    buildOk: bool, acquireOk: bool, stepper: bool, resetter: bool, resetOk: bool, stateOk: bool, restoreOk: bool,
    inputsOk: bool, evalOk: bool, viewOk: bool, zeroRowsOk: bool, cacheOk: nat -> bool, advanceOk: bool,
    maxSeqLen: nat, lends: nat)
  {
    /** Nothing fails once the block has its zero rows. */
    ghost predicate NotLate() {
      zeroRowsOk ==> advanceOk && forall l :: cacheOk(l)
    }

    /** Nothing fails at all, apart from bringing the block to another position. */
    ghost predicate Works() {
      buildOk && acquireOk && stepper && resetter && inputsOk && evalOk && viewOk && zeroRowsOk && NotLate()
    }
  }

  /** What the ANE paths of a layer came to: given up for good, an error to fall back from,
      or a result; with the residual, post norm and MLP output as far as they were set. */
  datatype Work = Work(gaveUp: bool, err: bool, stage: bool, h: Option<H>, postNorm: Option<N>, mlpOut: Option<H>)
  {
    /** Everything that is set is right for residual res, and a success has what it takes. */
    predicate Sound(net: Net, i: nat, res: H) {
      (h.Some? ==> h.value == res) && (postNorm.Some? ==> h.Some? && postNorm.value == net.postNorm(i, res))
      && (mlpOut.Some? ==> mlpOut.value == net.mlp(i, net.postNorm(i, res)))
      && (!gaveUp && !err ==> h.Some? && mlpOut.Some?)
    }
  }

  type Caches = seq<Option<seq<Row>>>     // the rows in every layer's cache, None for a nil cache

  function CacheAt(c: Caches, l: nat): Option<seq<Row>> {
    if l < |c| then c[l] else None
  }

  function RowsAt(c: Caches, l: nat): seq<Row> {
    var o := CacheAt(c, l);
    if o.None? then [] else o.value
  }

  /** Layer l's cache takes one more row. */
  function Bump(c: Caches, l: nat, row: Row): (r: Caches)
    ensures |r| == |c|
  {
    if l < |c| && c[l].Some? then c[l := Some(c[l].value + [row])] else c
  }

  /** The caches of layers a .. b - 1 each take one more row. */
  ghost predicate Bumped(before: Caches, after: Caches, a: nat, b: nat, row: Row) {
    |before| == |after|
    && forall l :: 0 <= l < |before| ==>
      after[l] == if a <= l < b && before[l].Some? then Some(before[l].value + [row]) else before[l]
  }

  /** All caches of layers a .. b - 1 stand at p. */
  predicate InStep(c: Caches, a: nat, b: nat, p: nat) {
    forall l :: a <= l < b && CacheAt(c, l).Some? ==> |CacheAt(c, l).value| == p
  }

  /** The position the caches of layers a .. b - 1 ask for: that of the first one there is. */
  function Want(c: Caches, a: nat, b: nat): nat
    decreases b - a
  {
    if a >= b then 0 else if CacheAt(c, a).Some? then |CacheAt(c, a).value| else Want(c, a + 1, b)
  }

  /** The first of the layers a .. b - 1 whose cache refuses a row. */
  function Refusing(c: Caches, a: nat, b: nat, env: BlockEnv): (l: nat)
    requires a <= b
    ensures a <= l <= b
    decreases b - a
  {
    if a == b || (CacheAt(c, a).Some? && !env.cacheOk(a)) then a else Refusing(c, a + 1, b, env)
  }

  /** Whether a block at `position` can be brought in step with the caches. */
  predicate CanSync(position: nat, c: Caches, a: nat, b: nat, env: BlockEnv) {
    var want := Want(c, a, b);
    env.stepper && env.resetter && InStep(c, a, b, want)
    && (position == want || (if want == 0 then env.resetOk else CanRestore(want, c, a, b, env)))
  }

  predicate CanRestore(want: nat, c: Caches, a: nat, b: nat, env: BlockEnv) {
    want <= env.maxSeqLen && env.stateOk && env.restoreOk && forall l :: a <= l < b ==> CacheAt(c, l).Some?
  }

  lemma {:induction false} NeverRefuses(c: Caches, a: nat, b: nat, env: BlockEnv)
    requires a <= b && forall l :: env.cacheOk(l)
    ensures Refusing(c, a, b, env) == b
    decreases b - a
  {
    if a < b {
      NeverRefuses(c, a + 1, b, env);
    }
  }

  /** The rows that a block at `position` holds for layers a .. b - 1 once it is in step: its
      own, if it was at that position, otherwise those in the caches. */
  function Synced(position: nat, state: seq<seq<Row>>, c: Caches, a: nat, b: nat): seq<seq<Row>>
    requires a <= b
  {
    if position == Want(c, a, b) then state
    else if Want(c, a, b) == 0 then seq(b - a, _ => [])
    else RowsFrom(c, a, b - a)
  }

  function RowsFrom(c: Caches, a: nat, n: nat): (r: seq<seq<Row>>)
    ensures |r| == n && forall j :: 0 <= j < n ==> r[j] == RowsAt(c, a + j)
  {
    seq(n, j requires 0 <= j < n => RowsAt(c, a + j))
  }

  /** These are the rows in the caches from layer a on, all of which there are. */
  predicate AreRowsOf(state: seq<seq<Row>>, c: Caches, a: nat) {
    state != [] ==> a + |state| <= |c| && forall l :: a <= l < a + |state| ==> c[l] == Some(state[l - a])
  }

  lemma RowsOfCaches(c: Caches, a: nat, b: nat)
    requires a <= b && forall l :: a <= l < b ==> CacheAt(c, l).Some?
    ensures AreRowsOf(RowsFrom(c, a, b - a), c, a)
  {
    if a < b {
      assert CacheAt(c, b - 1).Some?;
      forall l | a <= l < b
        ensures c[l] == Some(RowsFrom(c, a, b - a)[l - a])
      {
        assert CacheAt(c, l).Some?;
      }
    }
  }

  lemma FullInStep(c: Caches, a: nat, b: nat, p: nat)
    requires a <= b && InStep(c, a, b, p) && forall l :: a <= l < b ==> CacheAt(c, l).Some?
    ensures var r := RowsFrom(c, a, b - a);
      forall j :: 0 <= j < |r| ==> |r[j]| == p
  {
    var r := RowsFrom(c, a, b - a);
    forall j | 0 <= j < |r|
      ensures |r[j]| == p
    {
      assert CacheAt(c, a + j).Some?;
    }
  }

  lemma StillInStep(before: Caches, after: Caches, a: nat, b: nat, p: nat, row: Row)
    requires Bumped(before, after, a, b, row) && InStep(before, a, b, p)
    ensures InStep(after, a, b, p + 1)
  {
    forall l | a <= l < b && CacheAt(after, l).Some?
      ensures |CacheAt(after, l).value| == p + 1
    {
      assert CacheAt(before, l).Some?;
    }
  }

  lemma NotBumped(c: Caches, a: nat, row: Row)
    ensures Bumped(c, c, a, a, row)
  {
  }

  // ---- what a pass has done ----------------------------------------------------------------

  /** A layer that has run: the rows it saw, the row it made, whether in a block, and the leases
      its views hold. */
  datatype Step = Step(rows: seq<Row>, row: Row, block: bool, lends: nat)

  /** The caches before the pass, the layers that have run, and for each cache the rows that
      failed blocks have left in it. */
  datatype Trail = Trail(before: Caches, steps: seq<Step>, extra: seq<nat>)

  /** The blocks as a pass finds them: their states, and those given up before. */
  datatype Found = Found(views: map<nat, BlockState>, given: set<nat>)

  /** Where a pass starts from: whether all it meets is fair, what the tokens so far have written,
      the blocks that hold their part of it, and the blocks as they are. */
  datatype Past = Past(fair: bool, hist: seq<seq<Row>>, live: set<nat>, found: Found)

  function RowsOf(steps: seq<Step>): (r: seq<seq<Row>>)
    ensures |r| == |steps| && forall l :: 0 <= l < |r| ==> r[l] == steps[l].rows
  {
    seq(|steps|, l requires 0 <= l < |steps| => steps[l].rows)
  }

  function WrittenBy(steps: seq<Step>): (w: seq<Row>)
    ensures |w| == |steps| && forall l :: 0 <= l < |w| ==> w[l] == steps[l].row
  {
    seq(|steps|, l requires 0 <= l < |steps| => steps[l].row)
  }

  function Lent(steps: seq<Step>): nat {
    if steps == [] then 0 else Lent(steps[..|steps| - 1]) + steps[|steps| - 1].lends
  }

  // ---- direct blocks ---------------------------------------------------------------------

  datatype BlockState = BlockState(position: nat, rows: seq<seq<Row>>)

  /** A slot of a direct block with the block's own state: the rows of every layer in it. The
      state counts as advanced together with the position; a block that fails between the two
      is given up. */
  class DirectSlot {
    var position: nat
    var state: seq<seq<Row>>

    predicate Valid(k: nat)
      reads this
    {
      |state| == k && forall j :: 0 <= j < k ==> |state[j]| == position
    }

    function View(): BlockState
      reads this
    {
      BlockState(position, state)
    }

    constructor (k: nat)
      ensures Valid(k) && position == 0
    {
      position := 0;
      state := seq(k, _ => []);
    }

    /** Brings the block to the position of the caches of layers a .. b - 1. When it reports
        success, block and caches are in step. */
    method Sync(a: nat, b: nat, c: Caches, env: BlockEnv) returns (ready: bool, ok: bool)
      requires a < b && Valid(b - a)
      modifies this
      ensures Valid(b - a)
      ensures ready && ok <==> CanSync(old(position), c, a, b, env)
      ensures ready && ok ==> position == Want(c, a, b) && InStep(c, a, b, position)
      ensures ready && ok ==> state == Synced(old(position), old(state), c, a, b)
      ensures !(ready && ok) ==> View() == old(View())
      // by the caches themselves
      ensures ready && ok ==> forall l :: a <= l < b && l < |c| && c[l].Some? ==> |c[l].value| == position
      ensures ready && ok && position == old(position) ==> state == old(state)
      ensures ready && ok && position != old(position) && position == 0 ==> env.resetOk
      ensures ready && ok && position != old(position) && position > 0 ==>
        position <= env.maxSeqLen && env.stateOk && env.restoreOk
      ensures ready && ok && position != old(position) && position > 0 ==> AreRowsOf(state, c, a)
      ensures (env.stepper && env.resetter && env.resetOk && env.stateOk && env.restoreOk && b <= |c| && c[a].Some?
          && (forall l :: a <= l < b ==> c[l].Some? && |c[l].value| == |c[a].value| <= env.maxSeqLen)) ==>
        ready && ok
    {
      forall l | a <= l < b && l < |c|
        ensures CacheAt(c, l) == c[l]
      {
      }
      var wantPos := 0;
      var l := a;
      while l < b && CacheAt(c, l).None?
        invariant a <= l <= b && Want(c, a, b) == Want(c, l, b)
      {
        l := l + 1;
      }
      if l < b {
        wantPos := |CacheAt(c, l).value|;
      }
      if !env.stepper || !env.resetter {
        return false, false;
      }
      l := a;
      while l < b
        invariant a <= l <= b && InStep(c, a, l, wantPos)
      {
        if CacheAt(c, l).Some? && |CacheAt(c, l).value| != wantPos {
          return false, false;
        }
        l := l + 1;
      }
      if position == wantPos {
        return true, true;
      }
      if wantPos == 0 {
        if env.resetOk {
          position, state := 0, seq(b - a, _ => []);
        }
        return true, env.resetOk;
      }
      if wantPos > env.maxSeqLen {
        return false, true;
      }
      l := a;
      while l < b
        invariant a <= l <= b && forall k :: a <= k < l ==> CacheAt(c, k).Some?
      {
        if CacheAt(c, l).None? {
          return false, false;
        }
        l := l + 1;
      }
      if !env.stateOk {
        return false, false;
      }
      if env.restoreOk {
        FullInStep(c, a, b, wantPos);
        position, state := wantPos, RowsFrom(c, a, b - a);
        RowsOfCaches(c, a, b);
      }
      return true, env.restoreOk;
    }
  }

  /** Advancing the caches of layers a .. b - 1 with zero rows stops at the first that
      refuses. */
  method AdvanceDirectBlockCaches(c: array<Option<seq<Row>>>, zero: Row, a: nat, b: nat, env: BlockEnv)
    returns (ok: bool)
    requires a <= b
    modifies c
    ensures Bumped(old(c[..]), c[..], a, Refusing(old(c[..]), a, b, env), zero)
    ensures ok <==> Refusing(old(c[..]), a, b, env) == b
    ensures ok <==> forall l :: a <= l < b && l < c.Length && old(c[l]).Some? ==> env.cacheOk(l)
    ensures ok ==> forall l :: a <= l < b && l < c.Length && old(c[l]).Some? ==>
      c[l] == Some(old(c[l]).value + [zero])
    ensures forall l :: 0 <= l < c.Length && !(a <= l < b) ==> c[l] == old(c[l])
  {
    var l := a;
    while l < b
      invariant a <= l <= b && Bumped(old(c[..]), c[..], a, l, zero)
      invariant forall k :: a <= k < l && k < c.Length && old(c[k]).Some? ==> env.cacheOk(k)
      invariant forall k :: 0 <= k < c.Length && !(a <= k < l) ==> c[k] == old(c[k])
      invariant Refusing(old(c[..]), a, b, env) == Refusing(old(c[..]), l, b, env)
    {
      if l < c.Length && c[l].Some? {
        if !env.cacheOk(l) {
          return false;
        }
        c[l] := Some(c[l].value + [zero]);
      }
      l := l + 1;
    }
    ok := true;
  }

  // ---- the plane -------------------------------------------------------------------------

  /** A layer's output, the next layer's norm of it, and the leases its views hold. */
  datatype LayerOut = LayerOut(out: H, next: Option<N>, views: nat)

  class Plane {
    const net: Net
    const numLayers: nat
    const moe: seq<bool>
    const gpuFallback: bool
    const directBlock: bool
    const consumer: Consumer
    const spans: map<nat, Span>
    var disabled: bool
    var directFallbacks: set<nat>
    var held: nat                 // leases held by output views that have not been released

    ghost predicate Wired() {
      |moe| == numLayers && forall s :: s in spans ==> Consecutive(spans[s], s, numLayers)
    }

    constructor (net: Net, moe: seq<bool>, gpuFallback: bool, directBlock: bool, consumer: Consumer,
        spans: map<nat, Span>)
      requires forall s :: s in spans ==> Consecutive(spans[s], s, |moe|)
      ensures Wired() && !disabled && directFallbacks == {} && held == 0
      ensures this.net == net && numLayers == |moe| && this.moe == moe && this.gpuFallback == gpuFallback
      ensures this.directBlock == directBlock && this.consumer == consumer && this.spans == spans
    {
      this.net, this.numLayers, this.moe, this.gpuFallback := net, |moe|, moe, gpuFallback;
      this.directBlock, this.consumer, this.spans := directBlock, consumer, spans;
      disabled, directFallbacks, held := false, {}, 0;
    }

    /** Leases that views give back. */
    method ReleaseOutputViews(views: nat)
      requires views <= held
      modifies this`held
      ensures held == old(held) - views
    {
      held := held - views;
    }

    /** The layers of the block at s. */
    function Size(s: nat): nat
      requires s in spans
    {
      |spans[s].layers|
    }

    /** The block at i is tried, and all goes well up to the point where positions move on. */
    predicate Evaluates(i: nat, given: set<nat>, position: nat, c: Caches, env: BlockEnv) {
      directBlock && i in spans && i !in given && env.buildOk && env.acquireOk
      && CanSync(position, c, i, i + Size(i), env)
      && env.inputsOk && env.evalOk && env.viewOk && env.zeroRowsOk
    }

    /** How far the caches of the block at i were advanced. */
    function Touched(i: nat, given: set<nat>, position: nat, c: Caches, env: BlockEnv): nat {
      if Evaluates(i, given, position, c, env) then Refusing(c, i, i + Size(i), env) else i
    }

    /** The attempt succeeds. */
    predicate GoesThrough(i: nat, given: set<nat>, position: nat, c: Caches, env: BlockEnv) {
      Evaluates(i, given, position, c, env) && env.advanceOk && Refusing(c, i, i + Size(i), env) == i + Size(i)
    }

    /** All layers of the block at i have a cache, and these are equally long. */
    predicate SameLength(c: Caches, i: nat, max: nat)
      requires i in spans
    {
      i + Size(i) <= |c| && i < |c| && c[i].Some?
      && forall l :: i <= l < i + Size(i) ==> c[l].Some? && |c[l].value| == |c[i].value| <= max
    }

    /** An attempt that succeeds has had none of its steps fail. */
    lemma NoStepFailed(i: nat, given: set<nat>, position: nat, c: Caches, env: BlockEnv)
      requires GoesThrough(i, given, position, c, env)
      ensures directBlock && i in spans && i !in given && env.buildOk && env.acquireOk && env.stepper && env.resetter
        && env.inputsOk && env.evalOk && env.viewOk && env.zeroRowsOk && env.advanceOk
      ensures forall l :: i <= l < i + Size(i) && l < |c| && c[l].Some? ==> env.cacheOk(l)
    {
      hide Want, InStep;
      NoneRefused(c, i, i + Size(i), env);
    }

    lemma {:induction false} NoneRefused(c: Caches, a: nat, b: nat, env: BlockEnv)
      requires a <= b && Refusing(c, a, b, env) == b
      ensures forall l :: a <= l < b && l < |c| && c[l].Some? ==> env.cacheOk(l)
      decreases b - a
    {
      if a < b {
        NoneRefused(c, a + 1, b, env);
      }
    }

    /** If none of them fails, and the caches are in step, it succeeds. */
    lemma NothingInTheWay(i: nat, given: set<nat>, position: nat, c: Caches, env: BlockEnv)
      requires Wired() && directBlock && i in spans && i !in given && SameLength(c, i, env.maxSeqLen)
      requires env.buildOk && env.acquireOk && env.stepper && env.resetter && env.resetOk
      requires env.stateOk && env.restoreOk && env.inputsOk && env.evalOk && env.viewOk && env.zeroRowsOk
      requires env.advanceOk && forall l :: env.cacheOk(l)
      ensures GoesThrough(i, given, position, c, env)
    {
      hide Refusing;
      var end := i + Size(i);
      NeverRefuses(c, i, end, env);
      assert CacheAt(c, i) == c[i] && Want(c, i, end) == |c[i].value|;
      forall l | i <= l < end
        ensures CacheAt(c, l) == c[l]
      {
      }
    }

    /** Tries the direct block that starts at layer i. It either does the work of all its
        layers, on the rows it holds itself, takes the block one position further and every
        cache by a zero row, and lends its view; or it leaves the hidden state to the other
        paths and is never tried again. Caches that it had advanced by then keep the row. */
    method DirectBlockOutput(i: nat, x: H, c: array<Option<seq<Row>>>, slot: DirectSlot, env: BlockEnv)
      returns (r: Option<H>, last: nat, views: nat)
      requires Wired() && i < numLayers && (i in spans ==> slot.Valid(Size(i)))
      modifies this`directFallbacks, this`held, c, slot
      ensures Bumped(old(c[..]), c[..], i, old(Touched(i, directFallbacks, slot.position, c[..], env)), net.zeroRow)
      ensures r.Some? <==> old(GoesThrough(i, directFallbacks, slot.position, c[..], env))
      ensures r.Some? ==> directFallbacks == old(directFallbacks) && last + 1 == i + Size(i)
      ensures r.Some? ==>
        slot.position == Want(old(c[..]), i, i + Size(i)) + 1
        && InStep(old(c[..]), i, i + Size(i), slot.position - 1) && InStep(c[..], i, i + Size(i), slot.position)
      ensures r.Some? ==>
        var rows := Synced(old(slot.position), old(slot.state), old(c[..]), i, i + Size(i));
        |rows| == Size(i) && (forall j :: 0 <= j < |rows| ==> |rows[j]| == slot.position - 1)
        && r.value == net.Compose(i, rows, x) && slot.state == net.Grown(i, rows, x)
      ensures i in spans ==> slot.Valid(Size(i))
      ensures !directBlock || i !in spans || i in old(directFallbacks) ==> slot.View() == old(slot.View())
      ensures r.None? ==>
        directFallbacks == if directBlock && i in spans then old(directFallbacks) + {i} else old(directFallbacks)
      ensures views == (if r.Some? then env.lends else 0) && held == old(held) + views
      // by the caches themselves
      ensures r.Some? ==> i in spans && forall l :: i <= l < i + Size(i) && l < c.Length && old(c[l]).Some? ==>
        c[l] == Some(old(c[l]).value + [net.zeroRow]) && |old(c[l]).value| + 1 == slot.position
      ensures forall l :: 0 <= l < c.Length && (l < i || i !in spans || l >= i + Size(i)) ==> c[l] == old(c[l])
      ensures !(env.inputsOk && env.evalOk && env.viewOk && env.zeroRowsOk) ==> r.None? && c[..] == old(c[..])
    {
      hide Refusing, Want, InStep, CanSync, Bumped, Net.Compose, Net.Written, Synced;
      r, last, views := None, i, 0;
      NotBumped(c[..], i, net.zeroRow);
      if !directBlock || i !in spans || i in directFallbacks {
        return;
      }
      var span := spans[i];
      var end := i + |span.layers|;
      if !env.buildOk || !env.acquireOk {
        directFallbacks := directFallbacks + {i};
        return;
      }
      var ready, ok := slot.Sync(i, end, c[..], env);
      if !ready || !ok || !env.inputsOk || !env.evalOk {
        directFallbacks := directFallbacks + {i};
        return;
      }
      var out, rows := RunBlock(span, x, slot);
      if !env.viewOk {
        directFallbacks := directFallbacks + {i};
        return;
      }
      held := held + env.lends;
      if !env.zeroRowsOk {
        ReleaseOutputViews(env.lends);
        directFallbacks := directFallbacks + {i};
        return;
      }
      ok := AdvanceDirectBlockCaches(c, net.zeroRow, i, end, env);
      if !ok || !env.advanceOk {
        ReleaseOutputViews(env.lends);
        directFallbacks := directFallbacks + {i};
        return;
      }
      StillInStep(old(c[..]), c[..], i, end, slot.position, net.zeroRow);
      slot.position, slot.state := slot.position + 1, Extended(slot.state, rows);
      r, views := Some(out), env.lends;
      last := span.layers[|span.layers| - 1];
    }

    /** What the compiled block computes: its layers in order, each on its own rows. */
    method RunBlock(span: Span, x: H, slot: DirectSlot) returns (out: H, rows: seq<Row>)
      requires Consecutive(span, span.startLayer, numLayers) && slot.Valid(|span.layers|)
      ensures out == net.Compose(span.startLayer, slot.state, x)
      ensures rows == net.Written(span.startLayer, slot.state, x)
    {
      hide Net.Layer, Net.RowOf, Net.Written;
      out, rows := x, [];
      for k := 0 to |span.layers|
        invariant out == net.Compose(span.startLayer, slot.state[..k], x)
        invariant |rows| == k && rows == net.Written(span.startLayer, slot.state, x)[..k]
      {
        net.NextRow(span.startLayer, slot.state, k, x);
        rows := rows + [net.RowOf(span.layers[k], slot.position, out)];
        out := net.Layer(span.layers[k], slot.state[k], out);
      }
      assert slot.state[..|span.layers|] == slot.state;
    }

    /** One layer. Whatever the ANE paths do, the result is the layer's, a norm handed on is
        the next layer's input norm of it, and the layer's cache takes its row. Nothing that
        goes wrong on the ANE fails the layer, and it disables the plane only when it goes
        wrong late. Views are lent only by a layer that succeeds. */
    method LayerForward(i: nat, x: H, prepared: Option<N>, c: array<Option<seq<Row>>>, env: LayerEnv)
      returns (r: Option<LayerOut>)
      requires Wired() && i < numLayers
      requires prepared.Some? ==> prepared.value == net.inNorm(i, x)
      modifies this`disabled, this`held, c
      ensures r.Some? ==> r.value.out == net.Layer(i, RowsAt(old(c[..]), i), x)
      ensures r.Some? && r.value.next.Some? ==> i + 1 < numLayers && consumer.ResidualNorm?
      ensures r.Some? && r.value.next.Some? ==> r.value.next.value == net.inNorm(i + 1, r.value.out)
      ensures r.Some? ==> c[..] == Bump(old(c[..]), i, net.RowOf(i, |RowsAt(old(c[..]), i)|, x))
      ensures r.Some? ==> r.value.views == if old(OnANE()) && env.Serves(moe[i]) then env.lends else 0
      ensures held == old(held) + if r.Some? then r.value.views else 0
      ensures env.GpuWorks() ==> r.Some?
      ensures disabled <==>
        old(disabled) || (!gpuFallback && (prepared.Some? || env.inNormOk) && env.attnOk && env.FailsLate(moe[i]))
      // in the operations of the model
      ensures r.Some? ==>
        var rows := if i < c.Length && old(c[i]).Some? then old(c[i]).value else [];
        var n := net.inNorm(i, x);
        var h := net.add(x, net.attn(i, rows, n));
        r.value.out == net.add(h, net.mlp(i, net.postNorm(i, h)))
        && (i < c.Length && old(c[i]).Some? ==> c[i] == Some(rows + [net.kv(i, |rows|, n)]))
      ensures forall l :: 0 <= l < c.Length && (l != i || old(c[l]).None?) ==> c[l] == old(c[l])
      ensures disabled && !old(disabled) ==>
        env.residualOk && env.postNormOk
        && (if moe[i] then !env.moeOk
            else env.stageOk && !env.denseOk && env.fromInputs.Declined? && env.fromResidual.Declined?)
      ensures r.Some? && r.value.views > 0 ==>
        !old(disabled) && !gpuFallback
        && if moe[i] then env.moeOk
           else
             env.stageOk
             && (env.prepare == Prepared(true) || env.fromInputs.Done? || env.fromResidual.Done? || env.denseOk)
    {
      hide LayerEnv.FailsLate, LayerEnv.Serves;
      if env.FailsLate(moe[i]) {
        env.LateOnly(moe[i]);
      }
      if env.Serves(moe[i]) {
        env.ServedBy(moe[i]);
      }
      assert RowsAt(c[..], i) == if i < c.Length && c[i].Some? then c[i].value else [];
      var normalized: N;
      if prepared.None? {
        if !env.inNormOk {
          return None;
        }
        normalized := net.inNorm(i, x);
      } else {
        normalized := prepared.value;
      }
      if !env.attnOk {
        return None;
      }
      var rows := RowsAt(c[..], i);
      var attnOut := net.attn(i, rows, normalized);
      if i < c.Length && c[i].Some? {
        c[i] := Some(c[i].value + [net.kv(i, |rows|, normalized)]);
      }
      r := FinishLayer(i, x, attnOut, env);
    }

    /** The ANE paths are in use. */
    predicate OnANE()
      reads this`disabled
    {
      !disabled && !gpuFallback
    }

    /** The rest of a layer after its attention. */
    method FinishLayer(i: nat, x: H, attnOut: H, env: LayerEnv) returns (r: Option<LayerOut>)
      requires Wired() && i < numLayers && env.attnOk
      modifies this`disabled, this`held
      ensures r.Some? ==>
        var h := net.add(x, attnOut);
        r.value.out == net.add(h, net.mlp(i, net.postNorm(i, h)))
      ensures r.Some? && r.value.next.Some? ==> i + 1 < numLayers && consumer.ResidualNorm?
      ensures r.Some? && r.value.next.Some? ==> r.value.next.value == net.inNorm(i + 1, r.value.out)
      ensures r.Some? ==> r.value.views == if old(OnANE()) && env.Serves(moe[i]) then env.lends else 0
      ensures held == old(held) + if r.Some? then r.value.views else 0
      ensures env.GpuWorks() ==> r.Some?
      ensures disabled <==> old(disabled) || (!gpuFallback && env.FailsLate(moe[i]))
    {
      hide DensePaths, MoePath, LayerEnv.FailsLate, Work.Sound, LayerEnv.Serves;
      if disabled || gpuFallback {
        if !env.residualOk || !env.postNormOk || !env.gpuMlpOk || !env.outAddOk {
          return None;
        }
        var h := net.add(x, attnOut);
        return Some(LayerOut(net.add(h, net.mlp(i, net.postNorm(i, h))), None, 0));
      }
      var work := if moe[i] then MoePath(i, x, attnOut, env) else DensePaths(i, x, attnOut, env);
      if work.gaveUp {
        return None;
      }
      if work.err {
        r := FallBack(i, x, attnOut, work, env);
      } else {
        // the dispatch has returned its views
        held := held + env.lends;
        r := PostFFN(i, net.add(x, attnOut), work, env);
      }
    }

    /** The ANE paths of a dense layer: compiled prepare, fused add and norm, fused norm,
        plain. */
    function DensePaths(i: nat, x: H, attnOut: H, env: LayerEnv): (w: Work)
      requires env.attnOk
      ensures w.Sound(net, i, net.add(x, attnOut))
      ensures env.residualOk && env.postNormOk ==> !w.gaveUp
      ensures w.gaveUp ==> !w.err
      ensures w.err && w.h.Some? && w.postNorm.Some? <==> env.FailsLate(false)
      ensures !w.gaveUp && !w.err <==> env.Serves(false)
    {
      var h := net.add(x, attnOut);
      var mlpOut := net.mlp(i, net.postNorm(i, h));
      if !env.stageOk then Work(false, true, false, None, None, None)
      else if env.prepare == Prepared(true) then Work(false, false, true, Some(h), None, Some(mlpOut))
      else match env.fromInputs
        // a failure here takes back the residual of the compiled path
        case Failed => Work(false, true, true, None, None, None)
        case Done => Work(false, false, true, Some(h), None, Some(mlpOut))
        case Declined =>
          if !env.residualOk then Work(true, false, true, None, None, None)
          else match env.fromResidual
            case Failed => Work(false, true, true, Some(h), None, None)
            case Done => Work(false, false, true, Some(h), None, Some(mlpOut))
            case Declined =>
              if !env.postNormOk then Work(true, false, true, Some(h), None, None)
              else if !env.denseOk then Work(false, true, true, Some(h), Some(net.postNorm(i, h)), None)
              else Work(false, false, true, Some(h), Some(net.postNorm(i, h)), Some(mlpOut))
    }

    function MoePath(i: nat, x: H, attnOut: H, env: LayerEnv): (w: Work)
      requires env.attnOk
      ensures w.Sound(net, i, net.add(x, attnOut))
      ensures !w.gaveUp <==> env.residualOk && env.postNormOk
      ensures w.gaveUp ==> !w.err
      ensures w.err && w.h.Some? && w.postNorm.Some? <==> env.FailsLate(true)
      ensures !w.gaveUp && !w.err <==> env.Serves(true)
    {
      var h := net.add(x, attnOut);
      if !env.residualOk || !env.postNormOk then Work(true, false, false, None, None, None)
      else if !env.moeOk then Work(false, true, false, Some(h), Some(net.postNorm(i, h)), None)
      else Work(false, false, false, Some(h), Some(net.postNorm(i, h)), Some(net.mlp(i, net.postNorm(i, h))))
    }

    /** After an ANE error: complete the layer on the GPU. The variable that holds the error
        is reused for the residual and the norm, so what reaches `Disable` is an error only
        if neither had to be computed here. */
    method FallBack(i: nat, x: H, attnOut: H, work: Work, env: LayerEnv) returns (r: Option<LayerOut>)
      requires work.err && work.Sound(net, i, net.add(x, attnOut))
      modifies this`disabled
      ensures r.Some? ==>
        var h := net.add(x, attnOut);
        r.value == LayerOut(net.add(h, net.mlp(i, net.postNorm(i, h))), None, 0)
      ensures env.GpuWorks() ==> r.Some?
      ensures disabled <==> old(disabled) || (work.h.Some? && work.postNorm.Some?)
    {
      var err, h, postNorm := true, work.h, work.postNorm;
      if h.None? {
        if !env.residualOk {
          return None;
        }
        h := Some(net.add(x, attnOut));
        err := false;
      }
      if postNorm.None? {
        if !env.postNormOk {
          return None;
        }
        postNorm := Some(net.postNorm(i, h.value));
        err := false;
      }
      Disable(err);
      if !env.gpuMlpOk || !env.outAddOk {
        return None;
      }
      return Some(LayerOut(net.add(h.value, net.mlp(i, postNorm.value)), None, 0));
    }

    /** After an ANE success: the next layer's norm and the residual add, fused or plain. A
        failure gives the views back. */
    method PostFFN(i: nat, ghost res: H, work: Work, env: LayerEnv) returns (r: Option<LayerOut>)
      requires !work.gaveUp && !work.err && work.Sound(net, i, res) && env.lends <= held
      modifies this`held
      ensures r.Some? ==> r.value.out == net.add(res, net.mlp(i, net.postNorm(i, res)))
      ensures r.Some? && r.value.next.Some? ==> i + 1 < numLayers && consumer.ResidualNorm?
      ensures r.Some? && r.value.next.Some? ==> r.value.next.value == net.inNorm(i + 1, r.value.out)
      ensures r.Some? ==> r.value.views == env.lends
      ensures held == old(held) - if r.None? then env.lends else 0
      ensures env.GpuWorks() ==> r.Some?
    {
      var out := net.add(work.h.value, work.mlpOut.value);
      var next: Option<N> := None;
      if work.stage && consumer == ResidualNorm && i + 1 < numLayers {
        match env.metalNorm {
          case Failed =>
            ReleaseOutputViews(env.lends);
            return None;
          case Done => next := Some(net.inNorm(i + 1, out));
          case Declined =>
        }
      }
      if work.stage && consumer == ResidualAdd {
        match env.metalAdd {
          case Failed =>
            ReleaseOutputViews(env.lends);
            return None;
          case Done => return Some(LayerOut(out, next, env.lends));
          case Declined =>
        }
      }
      if !env.outAddOk {
        ReleaseOutputViews(env.lends);
        return None;
      }
      return Some(LayerOut(out, next, env.lends));
    }

    method Disable(err: bool)
      modifies this`disabled
      ensures disabled == (old(disabled) || err)
    {
      if err {
        disabled := true;
      }
    }

    // ---- the loop over the layers ----------------------------------------------------------

    ghost function Zeros(n: nat): (z: seq<Row>)
      ensures |z| == n
    {
      seq(n, _ => net.zeroRow)
    }

    /** What a layer that has run adds to its cache. */
    function RowLeft(step: Step): Row {
      if step.block then net.zeroRow else step.row
    }

    ghost function CacheAfter(before: Option<seq<Row>>, extra: nat, left: seq<Row>): Option<seq<Row>> {
      if before.None? then None else Some(before.value + Zeros(extra) + left)
    }

    /** Every cache stands where it was, plus its extra zero rows, plus what its layer left. */
    ghost predicate Moved(t: Trail, now: Caches) {
      |t.before| == |now| && |t.extra| == |t.before|
      && forall l :: 0 <= l < |t.before| ==>
        now[l] == CacheAfter(t.before[l], t.extra[l], if l < |t.steps| then [RowLeft(t.steps[l])] else [])
    }

    /** A layer that ran by itself saw the rows that its cache had, plus the extra ones; one in a
        block saw as many of its own. */
    ghost predicate Seen(t: Trail)
      requires |t.extra| == |t.before|
    {
      forall l :: 0 <= l < |t.steps| ==> SeenAt(t, l)
    }

    ghost predicate SeenAt(t: Trail, l: nat)
      requires |t.extra| == |t.before| && l < |t.steps|
    {
      var step := t.steps[l];
      if l >= |t.before| || t.before[l].None? then (!step.block ==> step.rows == [])
      else if step.block then |step.rows| == |t.before[l].value| + t.extra[l]
      else step.rows == t.before[l].value + Zeros(t.extra[l])
    }

    /** Rows too many come from blocks that were given up in this pass after they had begun
        to advance the caches. */
    ghost predicate Blamed(extra: seq<nat>, given: set<nat>, blockEnv: nat -> BlockEnv) {
      forall l :: 0 <= l < |extra| && extra[l] > 0 ==> Culprit(l, given, blockEnv)
    }

    ghost predicate Culprit(l: nat, given: set<nat>, blockEnv: nat -> BlockEnv) {
      exists s :: s in given && Blames(s, l, blockEnv(s))
    }

    ghost predicate Blames(s: nat, l: nat, env: BlockEnv) {
      s in spans && s <= l < s + Size(s) && env.zeroRowsOk
      && (!env.advanceOk || exists k :: s <= k < s + Size(s) && !env.cacheOk(k))
    }

    /** The layers of a trail one after the other, as they ran. */
    ghost predicate Consistent(t: Trail, now: Caches, x: H, h: H) {
      Moved(t, now) && Seen(t)
      && h == net.Compose(0, RowsOf(t.steps), x) && WrittenBy(t.steps) == net.Written(0, RowsOf(t.steps), x)
    }

    lemma StartTrail(c: Caches, x: H)
      ensures var t := Trail(c, [], seq(|c|, _ => 0));
        Consistent(t, c, x, x) && forall blockEnv :: Blamed(t.extra, {}, blockEnv)
    {
      var t := Trail(c, [], seq(|c|, _ => 0));
      assert RowsOf([]) == [] && WrittenBy([]) == [];
      forall l | 0 <= l < |c|
        ensures c[l] == CacheAfter(c[l], 0, [])
      {
        if c[l].Some? {
          assert c[l].value + Zeros(0) + [] == c[l].value;
        }
      }
    }

    // ---- a layer by itself -------------------------------------------------------------------

    /** What layer i of a trail sees, running by itself. */
    lemma OwnRows(t: Trail, now: Caches, i: nat)
      requires Moved(t, now) && i >= |t.steps|
      ensures RowsAt(now, i) ==
        if i < |t.before| && t.before[i].Some? then t.before[i].value + Zeros(t.extra[i]) else []
    {
      if i < |t.before| && t.before[i].Some? {
        assert t.before[i].value + Zeros(t.extra[i]) + [] == t.before[i].value + Zeros(t.extra[i]);
      }
    }

    lemma LayerIsStep(t: Trail, now: Caches, x: H, h: H, views: nat)
      requires Consistent(t, now, x, h)
      ensures var i := |t.steps|;
        var step := Step(RowsAt(now, i), net.RowOf(i, |RowsAt(now, i)|, h), false, views);
        Consistent(t.(steps := t.steps + [step]), Bump(now, i, step.row), x, net.Layer(i, step.rows, h))
    {
      hide Net.Layer, Net.RowOf, Net.Compose, Net.Written, Moved, Seen, Bump, RowsAt;
      var i := |t.steps|;
      var step := Step(RowsAt(now, i), net.RowOf(i, |RowsAt(now, i)|, h), false, views);
      var t' := t.(steps := t.steps + [step]);
      assert RowsOf(t'.steps) == RowsOf(t.steps) + [step.rows];
      assert WrittenBy(t'.steps) == WrittenBy(t.steps) + [step.row];
      net.OneMore(0, RowsOf(t.steps), step.rows, x);
      SeenByLayer(t, now, step);
      MovedByLayer(t, now, step);
    }

    lemma SeenByLayer(t: Trail, now: Caches, step: Step)
      requires Moved(t, now) && Seen(t) && !step.block && step.rows == RowsAt(now, |t.steps|)
      ensures Seen(t.(steps := t.steps + [step]))
    {
      var t' := t.(steps := t.steps + [step]);
      OwnRows(t, now, |t.steps|);
      assert SeenAt(t', |t.steps|);
      SeenBefore(t, [step]);
    }

    /** The steps so far saw what they saw, whatever follows. */
    lemma SeenBefore(t: Trail, b: seq<Step>)
      requires |t.extra| == |t.before| && Seen(t)
      ensures forall l :: 0 <= l < |t.steps| ==> SeenAt(t.(steps := t.steps + b), l)
    {
      var t' := t.(steps := t.steps + b);
      forall l | 0 <= l < |t.steps|
        ensures SeenAt(t', l)
      {
        assert SeenAt(t, l) && t'.steps[l] == t.steps[l];
      }
    }

    lemma MovedByLayer(t: Trail, now: Caches, step: Step)
      requires Moved(t, now) && !step.block
      ensures Moved(t.(steps := t.steps + [step]), Bump(now, |t.steps|, step.row))
    {
      var i := |t.steps|;
      if i < |now| && now[i].Some? {
        assert t.before[i].value + Zeros(t.extra[i]) + [] + [step.row]
          == t.before[i].value + Zeros(t.extra[i]) + [step.row];
      }
    }

    // ---- a block -------------------------------------------------------------------------------

    /** The steps of a block: each layer on the block's rows, its lease counted once. */
    ghost function BlockSteps(rows: seq<seq<Row>>, w: seq<Row>, lends: nat): (b: seq<Step>)
      requires |w| == |rows|
      ensures |b| == |rows|
      ensures forall j :: 0 <= j < |b| ==> b[j] == Step(rows[j], w[j], true, if j == 0 then lends else 0)
    {
      seq(|rows|, j requires 0 <= j < |rows| => Step(rows[j], w[j], true, if j == 0 then lends else 0))
    }

    lemma BlockIsSteps(t: Trail, now: Caches, after: Caches, x: H, h: H, rows: seq<seq<Row>>, lends: nat, p: nat)
      requires var i := |t.steps|;
        Consistent(t, now, x, h) && Bumped(now, after, i, i + |rows|, net.zeroRow) && InStep(now, i, i + |rows|, p)
      requires forall j :: 0 <= j < |rows| ==> |rows[j]| == p
      ensures var i := |t.steps|;
        var t' := t.(steps := t.steps + BlockSteps(rows, net.Written(i, rows, h), lends));
        Consistent(t', after, x, net.Compose(i, rows, h))
    {
      hide Net.Compose, Net.Written, Moved, Seen, Bumped, InStep, BlockSteps, RowsOf, WrittenBy;
      var i := |t.steps|;
      var w := net.Written(i, rows, h);
      var b := BlockSteps(rows, w, lends);
      var t' := t.(steps := t.steps + b);
      assert RowsOf(t'.steps) == RowsOf(t.steps) + rows;
      assert WrittenBy(t'.steps) == WrittenBy(t.steps) + w;
      net.ComposeSplits(0, RowsOf(t.steps), rows, x);
      net.WrittenSplits(0, RowsOf(t.steps), rows, x);
      SeenByBlock(t, now, b, p);
      MovedByBlock(t, now, after, b);
    }

    lemma SeenByBlock(t: Trail, now: Caches, b: seq<Step>, p: nat)
      requires Moved(t, now) && Seen(t) && InStep(now, |t.steps|, |t.steps| + |b|, p)
      requires forall j :: 0 <= j < |b| ==> b[j].block && |b[j].rows| == p
      ensures Seen(t.(steps := t.steps + b))
    {
      var t' := t.(steps := t.steps + b);
      SeenBefore(t, b);
      forall l | |t.steps| <= l < |t'.steps|
        ensures SeenAt(t', l)
      {
        if l < |now| {
          OwnRows(t, now, l);
          assert CacheAt(now, l).Some? ==> |CacheAt(now, l).value| == p;
        }
      }
    }

    lemma MovedByBlock(t: Trail, now: Caches, after: Caches, b: seq<Step>)
      requires Moved(t, now) && Bumped(now, after, |t.steps|, |t.steps| + |b|, net.zeroRow)
      requires forall j :: 0 <= j < |b| ==> b[j].block
      ensures Moved(t.(steps := t.steps + b), after)
    {
      var t' := t.(steps := t.steps + b);
      forall l | 0 <= l < |after|
        ensures after[l] == CacheAfter(t.before[l], t.extra[l], if l < |t'.steps| then [RowLeft(t'.steps[l])] else [])
      {
        if |t.steps| <= l < |t'.steps| && now[l].Some? {
          assert t.before[l].value + Zeros(t.extra[l]) + [] + [net.zeroRow]
              == t.before[l].value + Zeros(t.extra[l]) + [net.zeroRow];
        }
      }
    }

    ghost function MoreExtra(extra: seq<nat>, a: nat, b: nat): (e: seq<nat>)
      ensures |e| == |extra|
    {
      seq(|extra|, l requires 0 <= l < |extra| => extra[l] + if a <= l < b then 1 else 0)
    }

    /** A failed attempt leaves rows in caches of layers that have not run. */
    lemma FailureIsExtra(t: Trail, now: Caches, after: Caches, x: H, h: H, b: nat)
      requires Consistent(t, now, x, h) && Bumped(now, after, |t.steps|, b, net.zeroRow)
      ensures Consistent(t.(extra := MoreExtra(t.extra, |t.steps|, b)), after, x, h)
    {
      hide Net.Compose, Net.Written;
      var i := |t.steps|;
      var t' := t.(extra := MoreExtra(t.extra, i, b));
      forall l | 0 <= l < |after|
        ensures after[l] == CacheAfter(t.before[l], t'.extra[l], if l < i then [RowLeft(t.steps[l])] else [])
      {
        if i <= l < b && now[l].Some? {
          assert Zeros(t.extra[l]) + [net.zeroRow] == Zeros(t.extra[l] + 1);
          assert t.before[l].value + Zeros(t.extra[l]) + [] + [net.zeroRow]
            == t.before[l].value + Zeros(t.extra[l] + 1) + [];
        }
      }
      forall l | 0 <= l < i
        ensures SeenAt(t', l)
      {
        assert SeenAt(t, l);
      }
    }

    lemma {:induction false} RefusesAtEnd(c: Caches, a: nat, b: nat, env: BlockEnv)
      requires a <= b
      ensures Refusing(c, a, b, env) < b ==> !env.cacheOk(Refusing(c, a, b, env))
      decreases b - a
    {
      if a < b {
        RefusesAtEnd(c, a + 1, b, env);
      }
    }

    lemma BlamedBy(extra: seq<nat>, given: set<nat>, more: set<nat>, blockEnv: nat -> BlockEnv)
      requires Blamed(extra, given, blockEnv) && given <= more
      ensures Blamed(extra, more, blockEnv)
    {
      hide Blames;
      forall l | 0 <= l < |extra| && extra[l] > 0
        ensures Culprit(l, more, blockEnv)
      {
        assert Culprit(l, given, blockEnv);
      }
    }

    lemma BlamedMore(extra: seq<nat>, given: set<nat>, blockEnv: nat -> BlockEnv, c: Caches, i: nat, b: nat)
      requires Blamed(extra, given, blockEnv) && i in spans && |c| == |extra|
      requires b == Refusing(c, i, i + Size(i), blockEnv(i)) && blockEnv(i).zeroRowsOk
      requires b < i + Size(i) || !blockEnv(i).advanceOk
      ensures Blamed(MoreExtra(extra, i, b), given + {i}, blockEnv)
    {
      var more := MoreExtra(extra, i, b);
      RefusesAtEnd(c, i, i + Size(i), blockEnv(i));
      BlamedBy(extra, given, given + {i}, blockEnv);
      forall l | 0 <= l < |more| && more[l] > 0
        ensures Culprit(l, given + {i}, blockEnv)
      {
        if i <= l < b {
          assert i in given + {i} && Blames(i, l, blockEnv(i));
        } else {
          assert extra[l] > 0;
        }
      }
    }

    // ---- decoding on what the tokens so far have left ------------------------------------------

    /** Layer l is part of one of the blocks. */
    ghost predicate Covered(live: set<nat>, l: nat) {
      exists s :: s in live && InBlock(s, l)
    }

    predicate InBlock(s: nat, l: nat) {
      s in spans && s <= l < s + Size(s)
    }

    /** No layer is in two blocks. */
    ghost predicate Apart() {
      forall s, u :: s in spans && u in spans && s < u ==> s + Size(s) <= u
    }

    /** hist is what the tokens so far have really written. The blocks that are live hold their
        part of it themselves, and their caches only its length; every other cache holds it. */
    ghost predicate InTouch(hist: seq<seq<Row>>, live: set<nat>, c: Caches, views: map<nat, BlockState>) {
      |hist| == |c| == numLayers
      && (forall l :: 0 <= l < numLayers ==> c[l].Some? && |c[l].value| == |hist[l]|)
      && (forall l :: 0 <= l < numLayers && !Covered(live, l) ==> c[l].value == hist[l])
      && (forall s :: s in live ==> s in spans && s in views && Keeps(views[s], hist, s))
    }

    ghost predicate Keeps(view: BlockState, hist: seq<seq<Row>>, s: nat)
      requires s in spans
    {
      s < s + Size(s) <= |hist| && view.rows == hist[s..s + Size(s)] && view.position == |hist[s]|
    }

    /** What is asked of the blocks for a pass to keep it so: a live block works on the slot that
        holds its rows; another one does not fail late, and is not taken for being in step with
        rows it has never seen. */
    ghost predicate Fair(hist: seq<seq<Row>>, live: set<nat>, views: map<nat, BlockState>, given: set<nat>,
        hook: bool, blockEnv: nat -> BlockEnv)
    {
      live !! given && (hook || !directBlock ==> live == {})
      && (directBlock && !hook ==>
            forall s :: s in spans && s !in given ==> FairBlock(hist, s in live, views, s, blockEnv(s)))
    }

    ghost predicate FairBlock(hist: seq<seq<Row>>, isLive: bool, views: map<nat, BlockState>, s: nat, env: BlockEnv)
      requires s in spans
    {
      if isLive then env.Works()
      else s in views && s < |hist| && env.NotLate() && (views[s].position != |hist[s]| || |hist[s]| == 0)
    }

    /** The blocks that are live after a pass: all that have not been given up. */
    function LiveAfter(given: set<nat>, hook: bool): set<nat> {
      if hook || !directBlock then {} else set s | s in spans && s !in given
    }

    /** In the middle of a fair pass: the layers that have run saw what was really written. */
    ghost predicate OnTrack(hist: seq<seq<Row>>, live: set<nat>, t: Trail, given: set<nat>, hook: bool,
        views: map<nat, BlockState>, views0: map<nat, BlockState>)
    {
      var i := |t.steps|;
      i <= |hist| && RowsOf(t.steps) == hist[..i]
      && (forall l :: 0 <= l < |t.extra| ==> t.extra[l] == 0)
      && live !! given
      && (forall s :: s in live && s in spans ==> !(s < i < s + Size(s)))
      && views.Keys == views0.Keys
      && (forall s :: s in views && s >= i && s !in given ==> views[s] == views0[s])
      && (forall s :: s in LiveAfter(given, hook) && s < i ==> s in views && Stepped(views[s], hist, t.steps, s))
      && (forall l :: 0 <= l < i ==>
            if t.steps[l].block then Covered(Before(LiveAfter(given, hook), i), l) else !Covered(live, l))
    }

    function Before(live: set<nat>, i: nat): set<nat> {
      set s | s in live && s < i
    }

    /** A block after its part of the pass. */
    ghost predicate Stepped(view: BlockState, hist: seq<seq<Row>>, steps: seq<Step>, s: nat)
      requires s in spans
    {
      s < s + Size(s) <= |steps| <= |hist| && |view.rows| == Size(s) && view.position == |hist[s]| + 1
      && forall j :: 0 <= j < Size(s) ==> view.rows[j] == hist[s + j] + [steps[s + j].row]
    }

    lemma TrackStart(hist: seq<seq<Row>>, live: set<nat>, t: Trail, given: set<nat>, hook: bool,
        views: map<nat, BlockState>)
      requires t.steps == [] && (forall l :: 0 <= l < |t.extra| ==> t.extra[l] == 0) && live !! given
      ensures OnTrack(hist, live, t, given, hook, views, views)
    {
      assert hist[..0] == [] == RowsOf(t.steps);
    }

    lemma CoveredStays(live: set<nat>, i: nat, j: nat, l: nat)
      requires Covered(Before(live, i), l) && i <= j
      ensures Covered(Before(live, j), l)
    {
      var s :| s in Before(live, i) && InBlock(s, l);
      assert s in Before(live, j);
    }

    /** A cache that is still to be reached holds what it held before the pass. */
    lemma Untouched(hist: seq<seq<Row>>, live: set<nat>, t: Trail, given: set<nat>, hook: bool,
        views: map<nat, BlockState>, views0: map<nat, BlockState>, now: Caches, l: nat)
      requires OnTrack(hist, live, t, given, hook, views, views0) && InTouch(hist, live, t.before, views0)
        && Moved(t, now)
      requires |t.steps| <= l < numLayers
      ensures now[l] == t.before[l]
    {
      assert t.extra[l] == 0;
      assert t.before[l].value + Zeros(0) + [] == t.before[l].value;
    }

    /** A layer that is not in a live block finds its real rows. */
    lemma TrackLayer(hist: seq<seq<Row>>, live: set<nat>, t: Trail, given: set<nat>, hook: bool,
        views: map<nat, BlockState>, views0: map<nat, BlockState>, now: Caches, step: Step)
      requires OnTrack(hist, live, t, given, hook, views, views0) && InTouch(hist, live, t.before, views0)
        && Moved(t, now)
      requires |t.steps| < numLayers && |t.steps| !in LiveAfter(given, hook) && (hook || !directBlock ==> live == {})
      requires step.rows == RowsAt(now, |t.steps|) && !step.block
      ensures OnTrack(hist, live, t.(steps := t.steps + [step]), given, hook, views, views0)
    {
      var i := |t.steps|;
      var t' := t.(steps := t.steps + [step]);
      forall s | s in live
        ensures !InBlock(s, i)
      {
      }
      Untouched(hist, live, t, given, hook, views, views0, now, i);
      assert RowsOf(t'.steps) == RowsOf(t.steps) + [step.rows] == hist[..i + 1];
      forall l | 0 <= l < i && t'.steps[l].block
        ensures Covered(Before(LiveAfter(given, hook), i + 1), l)
      {
        CoveredStays(LiveAfter(given, hook), i, i + 1, l);
      }
    }

    /** A block that is given up before it has touched the caches. */
    lemma TrackFailure(hist: seq<seq<Row>>, live: set<nat>, t: Trail, given: set<nat>, hook: bool,
        views: map<nat, BlockState>, views0: map<nat, BlockState>, view: BlockState)
      requires OnTrack(hist, live, t, given, hook, views, views0) && |t.steps| !in live && |t.steps| in views
      ensures OnTrack(hist, live, t.(extra := MoreExtra(t.extra, |t.steps|, |t.steps|)), given + {|t.steps|}, hook,
        views[|t.steps| := view], views0)
    {
      var i := |t.steps|;
      assert Before(LiveAfter(given + {i}, hook), i) == Before(LiveAfter(given, hook), i);
    }

    /** A block that goes through on the real rows. */
    lemma TrackBlock(hist: seq<seq<Row>>, live: set<nat>, t: Trail, given: set<nat>, hook: bool,
        views: map<nat, BlockState>, views0: map<nat, BlockState>, b: seq<Step>, view: BlockState)
      requires Wired() && Apart() && !hook && directBlock && |t.steps| in spans && |t.steps| !in given
      requires |hist| == numLayers && |t.steps| in views
      requires OnTrack(hist, live, t, given, hook, views, views0)
      requires var i := |t.steps|;
        |b| == Size(i) && RowsOf(b) == hist[i..i + |b|] && (forall j :: 0 <= j < |b| ==> b[j].block)
        && view == BlockState(|hist[i]| + 1, Extended(hist[i..i + |b|], WrittenBy(b)))
      ensures OnTrack(hist, live, t.(steps := t.steps + b), given, hook, views[|t.steps| := view], views0)
    {
      var i := |t.steps|;
      var t', k := t.(steps := t.steps + b), |b|;
      assert RowsOf(t'.steps) == RowsOf(t.steps) + RowsOf(b) == hist[..i + k];
      TrackStepped(hist, t.steps, given, hook, views, b, view);
      TrackCovered(live, t, given, hook, b);
      hide Stepped, Covered;
    }

    lemma TrackStepped(hist: seq<seq<Row>>, steps: seq<Step>, given: set<nat>, hook: bool, views: map<nat, BlockState>,
        b: seq<Step>, view: BlockState)
      requires Wired() && Apart() && |steps| in spans && |hist| == numLayers
      requires forall s :: s in LiveAfter(given, hook) && s < |steps| ==>
        s in views && Stepped(views[s], hist, steps, s)
      requires var i := |steps|;
        |b| == Size(i) && RowsOf(b) == hist[i..i + |b|]
        && view == BlockState(|hist[i]| + 1, Extended(hist[i..i + |b|], WrittenBy(b)))
      ensures forall s :: s in LiveAfter(given, hook) && s < |steps| + |b| ==>
        s in views[|steps| := view] && Stepped(views[|steps| := view][s], hist, steps + b, s)
    {
      var i := |steps|;
      assert Stepped(view, hist, steps + b, i);
      forall s | s in LiveAfter(given, hook) && s < i + |b|
        ensures s in views[i := view] && Stepped(views[i := view][s], hist, steps + b, s)
      {
        if s < i {
          assert Stepped(views[s], hist, steps, s);
        }
      }
    }

    lemma TrackCovered(live: set<nat>, t: Trail, given: set<nat>, hook: bool, b: seq<Step>)
      requires !hook && directBlock && |t.steps| in spans && |t.steps| !in given && |b| == Size(|t.steps|) > 0
      requires forall j :: 0 <= j < |b| ==> b[j].block
      requires forall l :: 0 <= l < |t.steps| ==>
        if t.steps[l].block then Covered(Before(LiveAfter(given, hook), |t.steps|), l) else !Covered(live, l)
      ensures var after := t.steps + b;
        forall l :: 0 <= l < |after| ==>
          if after[l].block then Covered(Before(LiveAfter(given, hook), |after|), l) else !Covered(live, l)
    {
      var i, after := |t.steps|, t.steps + b;
      forall l | 0 <= l < |after|
        ensures if after[l].block then Covered(Before(LiveAfter(given, hook), |after|), l) else !Covered(live, l)
      {
        if l < i {
          if t.steps[l].block {
            CoveredStays(LiveAfter(given, hook), i, |after|, l);
          }
        } else {
          assert i in Before(LiveAfter(given, hook), |after|) && InBlock(i, l);
        }
      }
    }

    lemma BlockUntouched(hist: seq<seq<Row>>, live: set<nat>, t: Trail, given: set<nat>, hook: bool,
        views: map<nat, BlockState>, views0: map<nat, BlockState>, now: Caches)
      requires OnTrack(hist, live, t, given, hook, views, views0) && InTouch(hist, live, t.before, views0)
        && Moved(t, now)
      requires Wired() && |t.steps| in spans
      ensures |now| == |t.before| == |hist| == numLayers && |t.steps| + Size(|t.steps|) <= numLayers
      ensures forall l :: |t.steps| <= l < |t.steps| + Size(|t.steps|) ==> now[l] == t.before[l]
    {
      hide OnTrack, Covered, Keeps;
      forall l | |t.steps| <= l < |t.steps| + Size(|t.steps|)
        ensures now[l] == t.before[l]
      {
        Untouched(hist, live, t, given, hook, views, views0, now, l);
      }
    }

    lemma FairBlockAhead(hist: seq<seq<Row>>, live: set<nat>, t: Trail, given0: set<nat>, given: set<nat>, hook: bool,
        views: map<nat, BlockState>, views0: map<nat, BlockState>, blockEnv: nat -> BlockEnv)
      requires OnTrack(hist, live, t, given, hook, views, views0) && Fair(hist, live, views0, given0, hook, blockEnv)
      requires !hook && directBlock && |t.steps| in spans && |t.steps| in views
      requires given0 <= given && |t.steps| !in given
      ensures |t.steps| in views0 && views[|t.steps|] == views0[|t.steps|]
      ensures FairBlock(hist, |t.steps| in live, views0, |t.steps|, blockEnv(|t.steps|))
    {
      hide FairBlock, Covered, Stepped;
    }

    /** What a fair pass makes of a block that is tried. */
    lemma FairAttempt(hist: seq<seq<Row>>, live: set<nat>, t: Trail, given0: set<nat>, given: set<nat>, hook: bool,
        views: map<nat, BlockState>, views0: map<nat, BlockState>, now: Caches, blockEnv: nat -> BlockEnv)
      requires Wired() && Apart() && !hook && directBlock && |t.steps| in spans && |t.steps| in views
      requires given0 <= given && |t.steps| !in given
      requires OnTrack(hist, live, t, given, hook, views, views0) && InTouch(hist, live, t.before, views0)
      requires Fair(hist, live, views0, given0, hook, blockEnv) && Moved(t, now)
      requires |views[|t.steps|].rows| == Size(|t.steps|)
      requires forall j :: 0 <= j < Size(|t.steps|) ==> |views[|t.steps|].rows[j]| == views[|t.steps|].position
      ensures var i, v, env := |t.steps|, views[|t.steps|], blockEnv(|t.steps|);
        && (i in live ==> GoesThrough(i, given, v.position, now, env))
        && (!GoesThrough(i, given, v.position, now, env) ==> Touched(i, given, v.position, now, env) == i)
        && (GoesThrough(i, given, v.position, now, env) ==>
              Synced(v.position, v.rows, now, i, i + Size(i)) == hist[i..i + Size(i)])
    {
      hide OnTrack, Moved, Fair, Covered, Refusing, Want, InStep, Synced, InTouch, CanSync, Wired, Apart;
      var i: nat := |t.steps|;
      var v, env, end := views[i], blockEnv(i), i + Size(i);
      BlockUntouched(hist, live, t, given, hook, views, views0, now);
      FairBlockAhead(hist, live, t, given0, given, hook, views, views0, blockEnv);
      NeverRefusesIf(now, i, end, env);
      if i in live {
        LiveRows(hist, live, t.before, views0, now, i, v, env);
      } else {
        FreshRows(hist, live, t.before, views0, now, i, v, env);
      }
    }

    /** A live block is in step with its caches, and works on the rows that it holds. */
    lemma LiveRows(hist: seq<seq<Row>>, live: set<nat>, before: Caches, views0: map<nat, BlockState>, now: Caches,
        i: nat, v: BlockState, env: BlockEnv)
      requires Wired() && i in live && InTouch(hist, live, before, views0) && |now| == |before| && v == views0[i]
      requires forall l :: i <= l < i + Size(i) ==> now[l] == before[l]
      requires forall j :: 0 <= j < |v.rows| ==> |v.rows[j]| == v.position
      requires env.Works()
      ensures CanSync(v.position, now, i, i + Size(i), env)
      ensures Synced(v.position, v.rows, now, i, i + Size(i)) == hist[i..i + Size(i)]
    {
      assert Keeps(v, hist, i);
      forall l | i <= l < i + Size(i)
        ensures |hist[l]| == v.position && |now[l].value| == |hist[l]|
      {
        assert v.rows[l - i] == hist[l];
      }
    }

    lemma NeverRefusesIf(c: Caches, a: nat, b: nat, env: BlockEnv)
      requires a <= b
      ensures (forall l :: env.cacheOk(l)) ==> Refusing(c, a, b, env) == b
    {
      if forall l :: env.cacheOk(l) {
        NeverRefuses(c, a, b, env);
      }
    }

    lemma NotCovered(live: set<nat>, i: nat, l: nat)
      requires Apart() && i !in live && InBlock(i, l)
      ensures !Covered(live, l)
    {
      forall s | s in live
        ensures !InBlock(s, l)
      {
        assert s < i || s > i;
      }
    }

    /** A block that is not live finds the real rows in its caches, and there is nothing else
        that it could hold. */
    lemma FreshRows(hist: seq<seq<Row>>, live: set<nat>, before: Caches, views0: map<nat, BlockState>, now: Caches,
        i: nat, v: BlockState, env: BlockEnv)
      requires Wired() && Apart() && i in spans && i !in live && InTouch(hist, live, before, views0)
        && |now| == |before|
      requires forall l :: i <= l < i + Size(i) ==> now[l] == before[l]
      requires |v.rows| == Size(i) && forall j :: 0 <= j < Size(i) ==> |v.rows[j]| == v.position
      requires v.position != |hist[i]| || |hist[i]| == 0
      ensures CanSync(v.position, now, i, i + Size(i), env) ==>
        Synced(v.position, v.rows, now, i, i + Size(i)) == hist[i..i + Size(i)]
    {
      hide Covered, Keeps;
      if CanSync(v.position, now, i, i + Size(i), env) {
        var r := Synced(v.position, v.rows, now, i, i + Size(i));
        assert Want(now, i, i + Size(i)) == |hist[i]|;
        forall j | 0 <= j < Size(i)
          ensures r[j] == hist[i + j]
        {
          NotCovered(live, i, i + j);
          assert CacheAt(now, i + j).Some? && |CacheAt(now, i + j).value| == |hist[i]|;
        }
      }
    }

    /** At the end of a fair pass. */
    lemma TrackEnd(hist: seq<seq<Row>>, live: set<nat>, t: Trail, given: set<nat>, hook: bool,
        views: map<nat, BlockState>, views0: map<nat, BlockState>, after: Caches, x: H)
      requires OnTrack(hist, live, t, given, hook, views, views0) && InTouch(hist, live, t.before, views0)
      requires Wired() && Moved(t, after) && |t.steps| == numLayers
      requires WrittenBy(t.steps) == net.Written(0, RowsOf(t.steps), x)
      ensures RowsOf(t.steps) == hist
      ensures InTouch(net.Grown(0, hist, x), LiveAfter(given, hook), after, views)
    {
      hide Net.Written, Moved, OnTrack, InTouch, Keeps, Covered, Stepped;
      var next := net.Grown(0, hist, x);
      TrackRows(hist, live, t, given, hook, views, views0);
      TrackCaches(hist, live, t, given, hook, views, views0, after, next);
      TrackViews(hist, live, t, given, hook, views, views0, next);
      IsInTouch(next, LiveAfter(given, hook), after, views);
    }

    lemma IsInTouch(hist: seq<seq<Row>>, live: set<nat>, c: Caches, views: map<nat, BlockState>)
      requires |hist| == |c| == numLayers
      requires forall l :: 0 <= l < numLayers ==> c[l].Some? && |c[l].value| == |hist[l]|
      requires forall l :: 0 <= l < numLayers && !Covered(live, l) ==> c[l].value == hist[l]
      requires forall s :: s in live ==> s in spans && s in views && Keeps(views[s], hist, s)
      ensures InTouch(hist, live, c, views)
    {
    }

    lemma TrackRows(hist: seq<seq<Row>>, live: set<nat>, t: Trail, given: set<nat>, hook: bool,
        views: map<nat, BlockState>, views0: map<nat, BlockState>)
      requires OnTrack(hist, live, t, given, hook, views, views0) && InTouch(hist, live, t.before, views0)
      requires |t.steps| == numLayers
      ensures RowsOf(t.steps) == hist && |hist| == numLayers == |t.before|
    {
      assert hist[..numLayers] == hist;
    }

    lemma TrackCaches(hist: seq<seq<Row>>, live: set<nat>, t: Trail, given: set<nat>, hook: bool,
        views: map<nat, BlockState>, views0: map<nat, BlockState>, after: Caches, next: seq<seq<Row>>)
      requires OnTrack(hist, live, t, given, hook, views, views0) && InTouch(hist, live, t.before, views0)
      requires Moved(t, after) && |t.steps| == numLayers && |hist| == numLayers
      requires next == Extended(hist, WrittenBy(t.steps))
      ensures |after| == numLayers
      ensures forall l :: 0 <= l < numLayers ==> after[l].Some? && |after[l].value| == |next[l]|
      ensures forall l :: 0 <= l < numLayers && !Covered(LiveAfter(given, hook), l) ==> after[l].value == next[l]
    {
      forall l | 0 <= l < numLayers
        ensures after[l].Some? && |after[l].value| == |next[l]|
        ensures !Covered(LiveAfter(given, hook), l) ==> after[l].value == next[l]
      {
        assert t.extra[l] == 0;
        assert t.before[l].value + Zeros(0) == t.before[l].value;
        if t.steps[l].block {
          var s :| s in Before(LiveAfter(given, hook), numLayers) && InBlock(s, l);
        }
      }
    }

    lemma TrackViews(hist: seq<seq<Row>>, live: set<nat>, t: Trail, given: set<nat>, hook: bool,
        views: map<nat, BlockState>, views0: map<nat, BlockState>, next: seq<seq<Row>>)
      requires OnTrack(hist, live, t, given, hook, views, views0) && Wired()
      requires |t.steps| == numLayers == |hist| && next == Extended(hist, WrittenBy(t.steps))
      ensures forall s :: s in LiveAfter(given, hook) ==> s in spans && s in views && Keeps(views[s], next, s)
    {
      forall s | s in LiveAfter(given, hook)
        ensures s in views && Keeps(views[s], next, s)
      {
        assert Stepped(views[s], hist, t.steps, s);
        assert views[s].rows == next[s..s + Size(s)];
      }
    }

    // ---- what becomes of every block -----------------------------------------------------------

    /** The block at s is tried in the pass. */
    ghost predicate Tries(found: Found, hook: bool, s: nat) {
      !hook && directBlock && s in spans && s !in found.given
    }

    /** It does its part of the pass, from the state and the caches that the pass found. */
    ghost predicate Through(found: Found, before: Caches, hook: bool, s: nat, env: BlockEnv) {
      !hook && s in found.views && GoesThrough(s, found.given, found.views[s].position, before, env)
    }

    /** Its layers ran in it, on the rows that it was brought to, and it has taken theirs. */
    ghost predicate RanInBlock(v: BlockState, t: Trail, view: BlockState, s: nat)
      requires s in spans
    {
      var end := s + Size(s);
      var rows := Synced(v.position, v.rows, t.before, s, end);
      end <= |t.steps| && |rows| == Size(s) == |view.rows| && view.position == Want(t.before, s, end) + 1
      && forall j :: 0 <= j < |rows| ==> BlockStep(t.steps[s + j], rows[j], view.rows[j])
    }

    ghost predicate BlockStep(step: Step, before: seq<Row>, after: seq<Row>) {
      step.block && step.rows == before && after == before + [step.row]
    }

    /** Its layers, as far as they have run, ran by themselves. */
    ghost predicate RanAlone(t: Trail, s: nat)
      requires s in spans
    {
      forall l :: s <= l < s + Size(s) && l < |t.steps| ==> !t.steps[l].block
    }

    /** The caches of its layers have a row too many up to `end`, and only there. */
    ghost predicate SurplusTo(extra: seq<nat>, s: nat, end: nat)
      requires s in spans
    {
      forall l :: s <= l < s + Size(s) && l < |extra| ==> extra[l] == if l < end then 1 else 0
    }

    /** It has been given up, at the place where it failed; or it was never tried. */
    ghost predicate LeftOut(found: Found, t: Trail, given: set<nat>, hook: bool, views: map<nat, BlockState>, s: nat,
        env: BlockEnv)
      requires s in spans && s in found.views && s in views
    {
      if Tries(found, hook, s) then
        s in given && SurplusTo(t.extra, s, Touched(s, found.given, found.views[s].position, t.before, env))
      else Ahead(found, t, given, views, s)
    }

    /** Nothing has happened to it yet. */
    ghost predicate Ahead(found: Found, t: Trail, given: set<nat>, views: map<nat, BlockState>, s: nat)
      requires s in spans && s in found.views && s in views
    {
      (s in given <==> s in found.given) && views[s] == found.views[s] && SurplusTo(t.extra, s, s)
    }

    /** What has become of the block at s, whose first layer has run. */
    ghost predicate Outcome(found: Found, t: Trail, given: set<nat>, hook: bool, views: map<nat, BlockState>, s: nat,
        env: BlockEnv)
      requires s in spans && s in found.views && s in views
    {
      if Through(found, t.before, hook, s, env) then
        s !in given && SurplusTo(t.extra, s, s) && RanInBlock(found.views[s], t, views[s], s)
      else RanAlone(t, s) && LeftOut(found, t, given, hook, views, s, env)
    }

    ghost predicate SoFar(found: Found, t: Trail, given: set<nat>, hook: bool, views: map<nat, BlockState>, s: nat,
        env: BlockEnv)
      requires s in spans && s in found.views && s in views
    {
      if s < |t.steps| then Outcome(found, t, given, hook, views, s, env)
      else if s in given && s !in found.given then
        s == |t.steps| && !Through(found, t.before, hook, s, env) && LeftOut(found, t, given, hook, views, s, env)
      else Ahead(found, t, given, views, s)
    }

    /** The whole account: every block, and no layer in a block that is in none. */
    ghost predicate Recounted(found: Found, t: Trail, given: set<nat>, hook: bool, views: map<nat, BlockState>,
        blockEnv: nat -> BlockEnv)
    {
      found.views.Keys == views.Keys == spans.Keys
      && (forall s :: s in spans ==> SoFar(found, t, given, hook, views, s, blockEnv(s)))
      && forall l :: 0 <= l < |t.steps| && t.steps[l].block ==> Covered(spans.Keys, l)
    }

    /** Caches that agree on the layers of a block are the same to it. */
    predicate SameAt(c: Caches, d: Caches, a: nat, b: nat) {
      forall l :: a <= l < b ==> CacheAt(c, l) == CacheAt(d, l)
    }

    lemma {:induction false} SameWant(c: Caches, d: Caches, a: nat, b: nat, env: BlockEnv)
      requires a <= b && SameAt(c, d, a, b)
      ensures Want(c, a, b) == Want(d, a, b) && Refusing(c, a, b, env) == Refusing(d, a, b, env)
      decreases b - a
    {
      if a < b {
        assert CacheAt(c, a) == CacheAt(d, a);
        SameWant(c, d, a + 1, b, env);
      }
    }

    lemma SameAttempt(i: nat, given: set<nat>, more: set<nat>, v: BlockState, c: Caches, d: Caches, env: BlockEnv)
      requires i in spans && SameAt(c, d, i, i + Size(i)) && (i in given <==> i in more)
      ensures GoesThrough(i, given, v.position, c, env) == GoesThrough(i, more, v.position, d, env)
      ensures Touched(i, given, v.position, c, env) == Touched(i, more, v.position, d, env)
      ensures Want(c, i, i + Size(i)) == Want(d, i, i + Size(i))
      ensures Synced(v.position, v.rows, c, i, i + Size(i)) == Synced(v.position, v.rows, d, i, i + Size(i))
    {
      var end := i + Size(i);
      SameWant(c, d, i, end, env);
      assert forall l :: i <= l < end ==> CacheAt(c, l) == CacheAt(d, l);
      assert RowsFrom(c, i, end - i) == RowsFrom(d, i, end - i);
      hide Want, Refusing;
    }

    /** The caches of a block that is ahead are as the pass found them. */
    lemma AheadCaches(found: Found, t: Trail, now: Caches, given: set<nat>, views: map<nat, BlockState>, i: nat)
      requires i in spans && i in found.views && i in views && i >= |t.steps|
      requires Ahead(found, t, given, views, i) && Moved(t, now)
      ensures SameAt(now, t.before, i, i + Size(i))
    {
      forall l | i <= l < i + Size(i)
        ensures CacheAt(now, l) == CacheAt(t.before, l)
      {
        if l < |now| && t.before[l].Some? {
          assert t.before[l].value + Zeros(0) + [] == t.before[l].value;
        }
      }
    }

    lemma RecountStart(found: Found, t: Trail, hook: bool, blockEnv: nat -> BlockEnv)
      requires found.views.Keys == spans.Keys && t.steps == [] && forall l :: 0 <= l < |t.extra| ==> t.extra[l] == 0
      ensures Recounted(found, t, found.given, hook, found.views, blockEnv)
    {
    }

    /** What has become of a block is not changed by what comes after it. */
    lemma OutcomeStays(found: Found, t: Trail, t': Trail, given: set<nat>, given': set<nat>, hook: bool,
        views: map<nat, BlockState>, views': map<nat, BlockState>, s: nat, env: BlockEnv)
      requires s in spans && s in found.views && s in views && s in views' && s < |t.steps| <= |t'.steps|
      requires Outcome(found, t, given, hook, views, s, env)
      requires t'.before == t.before && t.steps <= t'.steps && |t'.extra| == |t.extra|
      requires forall l :: |t.steps| <= l < |t'.steps| && l < s + Size(s) ==> !t'.steps[l].block
      requires forall l :: s <= l < s + Size(s) && l < |t.extra| ==> t'.extra[l] == t.extra[l]
      requires views'[s] == views[s] && (s in given' <==> s in given)
      ensures Outcome(found, t', given', hook, views', s, env)
    {
      hide Synced, Want, GoesThrough, Touched;
      forall l | 0 <= l < |t.steps|
        ensures t'.steps[l] == t.steps[l]
      {
      }
      if Through(found, t.before, hook, s, env) {
        RanStays(found.views[s], t, t', views'[s], s);
        assert SurplusTo(t'.extra, s, s);
      } else {
        assert RanAlone(t', s);
        assert LeftOut(found, t', given', hook, views', s, env);
      }
    }

    lemma RanStays(v: BlockState, t: Trail, t': Trail, view: BlockState, s: nat)
      requires s in spans && RanInBlock(v, t, view, s) && t'.before == t.before && t.steps <= t'.steps
      ensures RanInBlock(v, t', view, s)
    {
      hide Want;
      var rows := Synced(v.position, v.rows, t.before, s, s + Size(s));
      assert s + |rows| <= |t.steps| <= |t'.steps|;
      forall j | 0 <= j < |rows|
        ensures BlockStep(t'.steps[s + j], rows[j], view.rows[j])
      {
        var k := s + j;
        assert BlockStep(t.steps[k], rows[j], view.rows[j]) && t'.steps[k] == t.steps[k];
      }
    }

    lemma AheadStays(found: Found, t: Trail, t': Trail, given: set<nat>, given': set<nat>, views: map<nat, BlockState>,
        views': map<nat, BlockState>, s: nat)
      requires s in spans && s in found.views && s in views && s in views'
      requires Ahead(found, t, given, views, s) && |t'.extra| == |t.extra|
      requires forall l :: s <= l < s + Size(s) && l < |t.extra| ==> t'.extra[l] == t.extra[l]
      requires views'[s] == views[s] && (s in given' <==> s in given)
      ensures Ahead(found, t', given', views', s)
    {
    }

    /** A layer that runs by itself, after the block that starts there has been seen to. */
    lemma RecountLayer(found: Found, t: Trail, given: set<nat>, hook: bool, views: map<nat, BlockState>,
        blockEnv: nat -> BlockEnv, step: Step)
      requires Recounted(found, t, given, hook, views, blockEnv) && !step.block && |t.steps| !in LiveAfter(given, hook)
      ensures Recounted(found, t.(steps := t.steps + [step]), given, hook, views, blockEnv)
    {
      hide Synced, Want, Refusing, CanSync, RanInBlock, SurplusTo, Covered;
      var t' := t.(steps := t.steps + [step]);
      forall s | s in spans
        ensures SoFar(found, t', given, hook, views, s, blockEnv(s))
      {
        assert SoFar(found, t, given, hook, views, s, blockEnv(s));
        if s < |t.steps| {
          OutcomeStays(found, t, t', given, given, hook, views, views, s, blockEnv(s));
        }
      }
    }

    /** A block that is given up, or was given up before. */
    lemma RecountFailure(found: Found, t: Trail, now: Caches, given: set<nat>, views: map<nat, BlockState>,
        blockEnv: nat -> BlockEnv, touched: nat, view: BlockState)
      requires Apart() && |t.steps| in spans && Moved(t, now)
      requires Recounted(found, t, given, false, views, blockEnv)
      requires var i, v, env := |t.steps|, views[|t.steps|], blockEnv(|t.steps|);
        !GoesThrough(i, given, v.position, now, env) && touched == Touched(i, given, v.position, now, env)
      requires !directBlock || |t.steps| in given ==> view == views[|t.steps|]
      ensures Recounted(found, t.(extra := MoreExtra(t.extra, |t.steps|, touched)),
        if directBlock then given + {|t.steps|} else given, false, views[|t.steps| := view], blockEnv)
    {
      hide Synced, Want, Refusing, CanSync, RanInBlock, Covered, Moved;
      var i: nat := |t.steps|;
      var t', env := t.(extra := MoreExtra(t.extra, i, touched)), blockEnv(i);
      var given' := if directBlock then given + {i} else given;
      assert SoFar(found, t, given, false, views, i, env);
      if directBlock && i !in given {
        AheadCaches(found, t, now, given, views, i);
        SameAttempt(i, given, found.given, views[i], now, t.before, env);
      } else {
        assert touched == i && t'.extra == t.extra;
      }
      forall s | s in spans
        ensures SoFar(found, t', given', false, views[i := view], s, blockEnv(s))
      {
        assert SoFar(found, t, given, false, views, s, blockEnv(s));
        if s < i {
          OutcomeStays(found, t, t', given, given', false, views, views[i := view], s, blockEnv(s));
        } else if s > i {
          AheadStays(found, t, t', given, given', views, views[i := view], s);
        }
      }
    }

    /** When all layers have run, every block has its outcome. */
    lemma WholePass(found: Found, t: Trail, given: set<nat>, hook: bool, views: map<nat, BlockState>,
        blockEnv: nat -> BlockEnv, s: nat)
      requires Wired() && Recounted(found, t, given, hook, views, blockEnv) && |t.steps| == numLayers && s in spans
      ensures s in found.views && s in views && Outcome(found, t, given, hook, views, s, blockEnv(s))
    {
      hide Outcome;
      assert SoFar(found, t, given, hook, views, s, blockEnv(s));
    }

    /** A block that goes through. */
    lemma RecountSuccess(found: Found, t: Trail, now: Caches, given: set<nat>, views: map<nat, BlockState>,
        blockEnv: nat -> BlockEnv, v: BlockState, rows: seq<seq<Row>>, w: seq<Row>, lends: nat, view: BlockState)
      requires Wired() && Apart() && |t.steps| in spans && Moved(t, now)
      requires Recounted(found, t, given, false, views, blockEnv)
      requires var i := |t.steps|;
        i in views && v == views[i] && GoesThrough(i, given, v.position, now, blockEnv(i))
        && |w| == Size(i) == |rows| && rows == Synced(v.position, v.rows, now, i, i + Size(i))
        && view == BlockState(Want(now, i, i + Size(i)) + 1, Extended(rows, w))
      ensures Recounted(found, t.(steps := t.steps + BlockSteps(rows, w, lends)), given, false,
        views[|t.steps| := view], blockEnv)
    {
      hide Synced, Want, Refusing, CanSync, Covered, Moved, BlockSteps, RanInBlock, SurplusTo, RanAlone;
      var i: nat := |t.steps|;
      var t' := t.(steps := t.steps + BlockSteps(rows, w, lends));
      SuccessOutcome(found, t, now, given, views, blockEnv(i), v, rows, w, lends, view);
      forall s | s in spans
        ensures SoFar(found, t', given, false, views[i := view], s, blockEnv(s))
      {
        assert SoFar(found, t, given, false, views, s, blockEnv(s));
        if s < i {
          OutcomeStays(found, t, t', given, given, false, views, views[i := view], s, blockEnv(s));
        } else if s > i {
          AheadStays(found, t, t', given, given, views, views[i := view], s);
        }
      }
      BlockCovers(t, i, BlockSteps(rows, w, lends));
    }

    lemma SuccessOutcome(found: Found, t: Trail, now: Caches, given: set<nat>, views: map<nat, BlockState>,
        env: BlockEnv, v: BlockState, rows: seq<seq<Row>>, w: seq<Row>, lends: nat, view: BlockState)
      requires var i := |t.steps|;
        i in spans && i in found.views && i in views && v == views[i]
        && SoFar(found, t, given, false, views, i, env) && Moved(t, now)
        && GoesThrough(i, given, v.position, now, env)
        && |w| == Size(i) == |rows| && rows == Synced(v.position, v.rows, now, i, i + Size(i))
        && view == BlockState(Want(now, i, i + Size(i)) + 1, Extended(rows, w))
      ensures Outcome(found, t.(steps := t.steps + BlockSteps(rows, w, lends)), given, false,
        views[|t.steps| := view], |t.steps|, env)
    {
      hide Synced, Want, Refusing, CanSync, Moved;
      var i: nat := |t.steps|;
      AheadCaches(found, t, now, given, views, i);
      SameAttempt(i, given, found.given, v, now, t.before, env);
      assert RanInBlock(v, t.(steps := t.steps + BlockSteps(rows, w, lends)), view, i);
    }

    lemma BlockCovers(t: Trail, s: nat, b: seq<Step>)
      requires s in spans && s == |t.steps| && |b| == Size(s)
      requires forall l :: 0 <= l < |t.steps| && t.steps[l].block ==> Covered(spans.Keys, l)
      ensures forall l :: 0 <= l < |t.steps + b| && (t.steps + b)[l].block ==> Covered(spans.Keys, l)
    {
      forall l | 0 <= l < |t.steps + b| && (t.steps + b)[l].block
        ensures Covered(spans.Keys, l)
      {
        if l >= s {
          assert InBlock(s, l);
        }
      }
    }

    // ---- one pass --------------------------------------------------------------------------------

    /** Every block has a slot of its own, with room for its layers. */
    ghost predicate Pooled(slots: map<nat, DirectSlot>)
      reads slots.Values
    {
      slots.Keys == spans.Keys
      && (forall s :: s in slots ==> slots[s].Valid(Size(s)))
      && forall s, u :: s in slots && u in slots && s != u ==> slots[s] != slots[u]
    }

    static ghost function ViewsOf(slots: map<nat, DirectSlot>): (v: map<nat, BlockState>)
      reads slots.Values
      ensures v.Keys == slots.Keys
    {
      map s | s in slots :: slots[s].View()
    }

    lemma LentMore(steps: seq<Step>, b: seq<Step>, lends: nat)
      requires b != [] && b[0].lends == lends && forall j :: 0 < j < |b| ==> b[j].lends == 0
      ensures Lent(steps + b) == Lent(steps) + lends
      decreases |b|
    {
      var n := |b| - 1;
      assert (steps + b)[..|steps + b| - 1] == steps + b[..n];
      if n == 0 {
        assert steps + b[..0] == steps;
      } else {
        LentMore(steps, b[..n], lends);
      }
    }

    /** A fair pass so far, if the pass is fair at all. */
    ghost predicate FairSoFar(past: Past, t: Trail, given: set<nat>, hook: bool, views: map<nat, BlockState>,
        blockEnv: nat -> BlockEnv)
    {
      past.found.given <= given
      && (past.fair ==>
            Apart() && InTouch(past.hist, past.live, t.before, past.found.views)
            && Fair(past.hist, past.live, past.found.views, past.found.given, hook, blockEnv)
            && OnTrack(past.hist, past.live, t, given, hook, views, past.found.views))
    }

    /** Every block is accounted for, if no layer is in two. */
    ghost predicate Followed(found: Found, t: Trail, given: set<nat>, hook: bool, views: map<nat, BlockState>,
        blockEnv: nat -> BlockEnv)
    {
      Apart() ==> Recounted(found, t, given, hook, views, blockEnv)
    }

    ghost predicate HasSize(view: BlockState, k: nat) {
      |view.rows| == k && forall j :: 0 <= j < k ==> |view.rows[j]| == view.position
    }

    /** What follows for a fair pass from the attempt at the block that is next. */
    lemma AttemptIfFair(past: Past, t: Trail, given: set<nat>, views: map<nat, BlockState>, now: Caches,
        blockEnv: nat -> BlockEnv)
      requires var i := |t.steps|;
        Wired() && i in spans && i in views && Moved(t, now) && HasSize(views[i], Size(i))
      requires FairSoFar(past, t, given, false, views, blockEnv)
      ensures var i, v, env := |t.steps|, views[|t.steps|], blockEnv(|t.steps|);
        && (past.fair && !GoesThrough(i, given, v.position, now, env) ==>
              Touched(i, given, v.position, now, env) == i && i !in past.live)
        && (past.fair && GoesThrough(i, given, v.position, now, env) ==>
              |past.hist| == numLayers
              && Synced(v.position, v.rows, now, i, i + Size(i)) == past.hist[i..i + Size(i)])
    {
      if past.fair && directBlock && |t.steps| !in given {
        FairAttempt(past.hist, past.live, t, past.found.given, given, false, views, past.found.views, now, blockEnv);
      }
    }

    lemma AfterSuccess(past: Past, t: Trail, given: set<nat>, views: map<nat, BlockState>, blockEnv: nat -> BlockEnv,
        before: Caches, after: Caches, x: H, h: H, rows: seq<seq<Row>>, lends: nat, p: nat)
      requires var i := |t.steps|;
        Wired() && i in spans && i in views && i !in given && directBlock && |rows| == Size(i)
        && Consistent(t, before, x, h) && Bumped(before, after, i, i + |rows|, net.zeroRow)
        && InStep(before, i, i + |rows|, p) && (forall j :: 0 <= j < |rows| ==> |rows[j]| == p)
      requires FairSoFar(past, t, given, false, views, blockEnv)
      requires past.fair ==>
        |past.hist| == numLayers && rows == past.hist[|t.steps|..|t.steps| + Size(|t.steps|)]
      ensures var i := |t.steps|;
        var t' := t.(steps := t.steps + BlockSteps(rows, net.Written(i, rows, h), lends));
        Consistent(t', after, x, net.Compose(i, rows, h)) && Lent(t'.steps) == Lent(t.steps) + lends
        && FairSoFar(past, t', given, false, views[i := BlockState(p + 1, net.Grown(i, rows, h))], blockEnv)
    {
      hide Consistent, InTouch, Fair, OnTrack, Net.Compose, Net.Written, Bumped, InStep, Covered, Apart;
      var i := |t.steps|;
      var b := BlockSteps(rows, net.Written(i, rows, h), lends);
      BlockIsSteps(t, before, after, x, h, rows, lends, p);
      LentMore(t.steps, b, lends);
      BlockStepsAre(rows, net.Written(i, rows, h), lends);
      hide BlockSteps, RowsOf, WrittenBy, Lent;
      if past.fair {
        TrackBlock(past.hist, past.live, t, given, false, views, past.found.views, b,
          BlockState(p + 1, net.Grown(i, rows, h)));
      }
    }

    lemma BlockStepsAre(rows: seq<seq<Row>>, w: seq<Row>, lends: nat)
      requires |w| == |rows|
      ensures var b := BlockSteps(rows, w, lends);
        RowsOf(b) == rows && WrittenBy(b) == w && |b| == |rows| && forall j :: 0 <= j < |b| ==> b[j].block
    {
    }

    /** Where a failed attempt has left the caches: advanced up to one that refused, or all of
        them, if the block had been evaluated. */
    ghost predicate GaveUp(i: nat, given: set<nat>, before: Caches, touched: nat, evaluated: bool, env: BlockEnv)
      requires i in spans
    {
      if evaluated then
        directBlock && i !in given && env.zeroRowsOk && touched == Refusing(before, i, i + Size(i), env)
        && (touched < i + Size(i) || !env.advanceOk)
      else touched == i
    }

    lemma WhereItGaveUp(i: nat, given: set<nat>, position: nat, c: Caches, env: BlockEnv)
      requires i in spans && !GoesThrough(i, given, position, c, env)
      ensures GaveUp(i, given, c, Touched(i, given, position, c, env), Evaluates(i, given, position, c, env), env)
    {
    }

    lemma WhereItWent(i: nat, given: set<nat>, position: nat, c: Caches, env: BlockEnv)
      requires i in spans && GoesThrough(i, given, position, c, env)
      ensures directBlock && i !in given && Touched(i, given, position, c, env) == i + Size(i)
    {
    }

    lemma AfterFailure(past: Past, t: Trail, given: set<nat>, views: map<nat, BlockState>, blockEnv: nat -> BlockEnv,
        before: Caches, after: Caches, x: H, h: H, touched: nat, evaluated: bool, view: BlockState)
      requires var i := |t.steps|;
        Wired() && i in spans && i in views && Consistent(t, before, x, h)
        && Bumped(before, after, i, touched, net.zeroRow) && Blamed(t.extra, given - past.found.given, blockEnv)
        && GaveUp(i, given, before, touched, evaluated, blockEnv(i))
      requires FairSoFar(past, t, given, false, views, blockEnv)
      requires past.fair ==> touched == |t.steps| && |t.steps| !in past.live
      requires !directBlock ==> view == views[|t.steps|]
      ensures var i := |t.steps|;
        var t', given' := t.(extra := MoreExtra(t.extra, i, touched)), if directBlock then given + {i} else given;
        Consistent(t', after, x, h) && Blamed(t'.extra, given' - past.found.given, blockEnv)
        && FairSoFar(past, t', given', false, views[i := view], blockEnv)
    {
      hide Consistent, InTouch, Fair, OnTrack, Bumped, Refusing, Blamed;
      var i := |t.steps|;
      var t' := t.(extra := MoreExtra(t.extra, i, touched));
      var given' := if directBlock then given + {i} else given;
      FailureIsExtra(t, before, after, x, h, touched);
      TrailSize(t, before, x, h);
      if evaluated {
        BlamedMore(t.extra, given - past.found.given, blockEnv, before, i, touched);
        BlamedBy(t'.extra, given - past.found.given + {i}, given' - past.found.given, blockEnv);
      } else {
        assert t'.extra == t.extra;
        BlamedBy(t'.extra, given - past.found.given, given' - past.found.given, blockEnv);
      }
      if past.fair {
        if directBlock {
          TrackFailure(past.hist, past.live, t, given, false, views, past.found.views, view);
        } else {
          assert t'.extra == t.extra && views[i := view] == views;
        }
      }
    }

    lemma TrailSize(t: Trail, now: Caches, x: H, h: H)
      requires Consistent(t, now, x, h)
      ensures |t.extra| == |t.before| == |now|
    {
    }

    /** What an attempt at block i comes to, given what the caches, the block and the set of
        given-up blocks were before. */
    ghost predicate Attempted(i: nat, h: H, before: Caches, v: BlockState, given: set<nat>, env: BlockEnv,
        after: Caches, view: BlockState, given': set<nat>, out: Option<H>)
      requires i in spans
    {
      var rows, p := Synced(v.position, v.rows, before, i, i + Size(i)), Want(before, i, i + Size(i));
      Bumped(before, after, i, Touched(i, given, v.position, before, env), net.zeroRow)
      && (out.Some? <==> GoesThrough(i, given, v.position, before, env))
      && (!directBlock || i in given ==> view == v)
      && given' == (if out.None? && directBlock then given + {i} else given)
      && (out.Some? ==>
            |rows| == Size(i) && (forall j :: 0 <= j < |rows| ==> |rows[j]| == p) && InStep(before, i, i + |rows|, p)
            && out.value == net.Compose(i, rows, h) && view == BlockState(p + 1, net.Grown(i, rows, h)))
    }

    /** The attempt at a block, seen in the pool of all slots. */
    method TrySlot(i: nat, h: H, c: array<Option<seq<Row>>>, slots: map<nat, DirectSlot>, env: BlockEnv)
      returns (out: Option<H>, last: nat, views: nat, ghost view: BlockState)
      requires Wired() && Pooled(slots) && i in spans && i < numLayers
      modifies this`directFallbacks, this`held, c, slots.Values
      ensures Pooled(slots) && ViewsOf(slots) == old(ViewsOf(slots))[i := view]
      ensures Attempted(i, h, old(c[..]), old(slots[i].View()), old(directFallbacks), env,
        c[..], view, directFallbacks, out)
      ensures views == (if out.Some? then env.lends else 0) && held == old(held) + views
      ensures out.Some? ==> last + 1 == i + Size(i)
    {
      hide Bumped, Net.Compose, Net.Written, Net.Grown, Synced, InStep, CanSync, Want, Refusing;
      ghost var before := ViewsOf(slots);
      out, last, views := DirectBlockOutput(i, h, c, slots[i], env);
      view := slots[i].View();
      assert ViewsOf(slots) == before[i := view];
    }

    /** The trail after an attempt: the steps of the block, or the rows too many that it has left. */
    ghost function NextTrail(t: Trail, h: H, v: BlockState, given: set<nat>, before: Caches, env: BlockEnv,
        out: Option<H>): Trail
      requires |t.steps| in spans
    {
      var i: nat := |t.steps|;
      var rows := Synced(v.position, v.rows, before, i, i + Size(i));
      if out.Some? then t.(steps := t.steps + BlockSteps(rows, net.Written(i, rows, h), env.lends))
      else t.(extra := MoreExtra(t.extra, i, Touched(i, given, v.position, before, env)))
    }

    /** The account after it. */
    lemma RecountAttempt(found: Found, t: Trail, given: set<nat>, views: map<nat, BlockState>,
        blockEnv: nat -> BlockEnv, before: Caches, after: Caches, h: H, v: BlockState, view: BlockState,
        given': set<nat>, out: Option<H>)
      requires Wired() && Moved(t, before) && |t.steps| in spans && |t.steps| in views && views[|t.steps|] == v
      requires Attempted(|t.steps|, h, before, v, given, blockEnv(|t.steps|), after, view, given', out)
      requires Followed(found, t, given, false, views, blockEnv)
      ensures Followed(found, NextTrail(t, h, v, given, before, blockEnv(|t.steps|), out), given', false,
        views[|t.steps| := view], blockEnv)
    {
      hide Recounted, Moved, Bumped, Net.Compose, Net.Written, Synced, InStep, Want, Evaluates, Touched, GoesThrough;
      hide Apart, BlockSteps, MoreExtra;
      var i: nat, env := |t.steps|, blockEnv(|t.steps|);
      if Apart() {
        if out.Some? {
          var rows := Synced(v.position, v.rows, before, i, i + Size(i));
          RecountSuccess(found, t, before, given, views, blockEnv, v, rows, net.Written(i, rows, h), env.lends, view);
        } else {
          RecountFailure(found, t, before, given, views, blockEnv, Touched(i, given, v.position, before, env), view);
        }
      }
    }

    /** What has come of the pass then. */
    lemma Concluded(past: Past, t: Trail, given: set<nat>, views: map<nat, BlockState>, blockEnv: nat -> BlockEnv,
        before: Caches, after: Caches, x: H, h: H, view: BlockState, given': set<nat>, out: Option<H>)
      returns (t': Trail)
      requires var i := |t.steps|;
        Wired() && i in spans && i in views && HasSize(views[i], Size(i))
        && Consistent(t, before, x, h) && Blamed(t.extra, given - past.found.given, blockEnv)
        && Attempted(i, h, before, views[i], given, blockEnv(i), after, view, given', out)
      requires FairSoFar(past, t, given, false, views, blockEnv)
      ensures var i := |t.steps|;
        t' == NextTrail(t, h, views[i], given, before, blockEnv(i), out)
        && t'.before == t.before && Blamed(t'.extra, given' - past.found.given, blockEnv)
        && FairSoFar(past, t', given', false, views[i := view], blockEnv)
        && Lent(t'.steps) == Lent(t.steps) + (if out.Some? then blockEnv(i).lends else 0)
        && (if out.Some? then |t'.steps| == i + Size(i) && Consistent(t', after, x, out.value)
            else t'.steps == t.steps && Consistent(t', after, x, h) && i !in LiveAfter(given', false))
    {
      hide Consistent, FairSoFar, Bumped, Blamed, Net.Compose, Net.Written, Synced, InStep, Want;
      hide Evaluates, Touched, GoesThrough, GaveUp, HasSize, BlockSteps, Lent, MoreExtra;
      var i := |t.steps|;
      var env, v := blockEnv(i), views[i];
      t' := NextTrail(t, h, v, given, before, env, out);
      TrailMoved(t, before, x, h);
      AttemptIfFair(past, t, given, views, before, blockEnv);
      if out.Some? {
        var rows := Synced(v.position, v.rows, before, i, i + Size(i));
        WhereItWent(i, given, v.position, before, env);
        AfterSuccess(past, t, given, views, blockEnv, before, after, x, h, rows, env.lends,
          Want(before, i, i + Size(i)));
      } else {
        var touched := Touched(i, given, v.position, before, env);
        WhereItGaveUp(i, given, v.position, before, env);
        AfterFailure(past, t, given, views, blockEnv, before, after, x, h, touched,
          Evaluates(i, given, v.position, before, env), view);
      }
    }

    /** The attempt at a block within a pass. */
    method TryBlock(i: nat, ghost x: H, h: H, c: array<Option<seq<Row>>>, slots: map<nat, DirectSlot>,
        blockEnv: nat -> BlockEnv, ghost t: Trail, ghost past: Past)
      returns (out: Option<H>, last: nat, views: nat, ghost t': Trail)
      requires Wired() && Pooled(slots) && i == |t.steps| < numLayers
      requires Consistent(t, c[..], x, h) && Blamed(t.extra, directFallbacks - past.found.given, blockEnv)
      requires FairSoFar(past, t, directFallbacks, false, ViewsOf(slots), blockEnv)
      requires Followed(past.found, t, directFallbacks, false, ViewsOf(slots), blockEnv)
      modifies this`directFallbacks, this`held, c, slots.Values
      ensures Pooled(slots) && t'.before == t.before
      ensures Blamed(t'.extra, directFallbacks - past.found.given, blockEnv)
      ensures views == Lent(t'.steps) - Lent(t.steps) && held == old(held) + views
      ensures FairSoFar(past, t', directFallbacks, false, ViewsOf(slots), blockEnv)
      ensures Followed(past.found, t', directFallbacks, false, ViewsOf(slots), blockEnv)
      ensures out.None? ==>
        t'.steps == t.steps && Consistent(t', c[..], x, h) && i !in LiveAfter(directFallbacks, false)
      ensures out.Some? ==>
        i <= last < numLayers && |t'.steps| == last + 1 && Consistent(t', c[..], x, out.value)
    {
      if i !in spans {
        return None, i, 0, t;
      }
      SlotSize(slots, i);
      hide Consistent, FairSoFar, Followed, NextTrail, Blamed, HasSize, Lent, Attempted, Pooled;
      ghost var before, was, given := c[..], ViewsOf(slots), directFallbacks;
      ghost var view;
      out, last, views, view := TrySlot(i, h, c, slots, blockEnv(i));
      t' := Concluded(past, t, given, was, blockEnv, before, c[..], x, h, view, directFallbacks, out);
      TrailMoved(t, before, x, h);
      RecountAttempt(past.found, t, given, was, blockEnv, before, c[..], h, was[i], view, directFallbacks, out);
    }

    lemma PooledKeys(slots: map<nat, DirectSlot>)
      requires Pooled(slots)
      ensures slots.Keys == spans.Keys
    {
    }

    lemma SlotSize(slots: map<nat, DirectSlot>, i: nat)
      requires Pooled(slots) && i in spans
      ensures HasSize(ViewsOf(slots)[i], Size(i))
    {
    }

    lemma TrailMoved(t: Trail, now: Caches, x: H, h: H)
      requires Consistent(t, now, x, h)
      ensures Moved(t, now)
    {
    }

    lemma LayerIfFair(past: Past, t: Trail, given: set<nat>, hook: bool, views: map<nat, BlockState>, now: Caches,
        blockEnv: nat -> BlockEnv, x: H, h: H, step: Step)
      requires FairSoFar(past, t, given, hook, views, blockEnv) && Consistent(t, now, x, h)
      requires |t.steps| < numLayers && |t.steps| !in LiveAfter(given, hook)
      requires step.rows == RowsAt(now, |t.steps|) && !step.block
      ensures FairSoFar(past, t.(steps := t.steps + [step]), given, hook, views, blockEnv)
      ensures Lent(t.steps + [step]) == Lent(t.steps) + step.lends
    {
      LentMore(t.steps, [step], step.lends);
      if past.fair {
        TrackLayer(past.hist, past.live, t, given, hook, views, past.found.views, now, step);
      }
    }

    /** A pass that is fair to blocks that have kept the rows of the tokens so far. */
    ghost predicate IsFair(hist: seq<seq<Row>>, live: set<nat>, c: Caches, views: map<nat, BlockState>, given: set<nat>,
        hook: bool, blockEnv: nat -> BlockEnv)
    {
      Apart() && InTouch(hist, live, c, views) && Fair(hist, live, views, given, hook, blockEnv)
    }

    lemma StartPass(past: Past, c: Caches, hook: bool, blockEnv: nat -> BlockEnv, x: H)
      requires past.fair ==> IsFair(past.hist, past.live, c, past.found.views, past.found.given, hook, blockEnv)
      ensures var t := Trail(c, [], seq(|c|, _ => 0));
        Underway(past, t, c, past.found.given, hook, past.found.views, blockEnv, x, x, []) && Lent(t.steps) == 0
    {
      assert past.found.given - past.found.given == {};
      var t := Trail(c, [], seq(|c|, _ => 0));
      StartTrail(c, x);
      if past.fair {
        TrackStart(past.hist, past.live, t, past.found.given, hook, past.found.views);
      }
    }

    /** What one pass comes to: all layers ran once, in order, each on top of the one before. */
    ghost predicate Passed(x: H, before: Caches, after: Caches, out: H, t: Trail) {
      t.before == before && |t.steps| == numLayers
      && Consistent(t, after, x, net.Compose(0, RowsOf(t.steps), x))
      && out == net.head(net.Compose(0, RowsOf(t.steps), x))
    }

    /** Layer by layer, in plain terms: what it saw, its row, and what its cache holds now. */
    lemma PassedAt(x: H, before: Caches, after: Caches, out: H, t: Trail, l: nat)
      requires Passed(x, before, after, out, t) && l < numLayers
      ensures |t.steps| == numLayers && |after| == |before| == |t.extra|
      ensures var step := t.steps[l];
        var h := net.Compose(0, RowsOf(t.steps)[..l], x);
        step.row == net.kv(l, |step.rows|, net.inNorm(l, h))
        && (l < |before| && before[l].Some? ==>
          after[l] == Some(before[l].value + seq(t.extra[l], _ => net.zeroRow)
            + [if step.block then net.zeroRow else step.row])
          && |step.rows| == |before[l].value| + t.extra[l]
          && (!step.block ==> step.rows == before[l].value + seq(t.extra[l], _ => net.zeroRow)))
        && (l < |before| && before[l].None? ==> after[l].None?)
        && (l >= |before| || before[l].None? ==> (!step.block ==> step.rows == []))
      ensures out == net.head(net.Compose(0, RowsOf(t.steps), x))
    {
      hide Net.Compose;
      assert SeenAt(t, l);
      assert WrittenBy(t.steps)[l] == net.Written(0, RowsOf(t.steps), x)[l];
    }

    /** A pass over what the tokens so far have written; this token's rows are added to it. */
    ghost predicate Decodes(hist: seq<seq<Row>>, x: H, out: H, live: set<nat>, after: Caches,
        views: map<nat, BlockState>)
    {
      out == net.head(net.Compose(0, hist, x)) && InTouch(net.Grown(0, hist, x), live, after, views)
    }

    lemma EndPass(past: Past, t: Trail, given: set<nat>, hook: bool, views: map<nat, BlockState>,
        blockEnv: nat -> BlockEnv, after: Caches, x: H, h: H, hooked: seq<H>)
      requires Wired() && |t.steps| == numLayers
      requires Underway(past, t, after, given, hook, views, blockEnv, x, h, hooked)
      ensures Passed(x, t.before, after, net.head(h), t) && Blamed(t.extra, given - past.found.given, blockEnv)
      ensures hook ==> given == past.found.given && Watched(x, RowsOf(t.steps), hooked)
      ensures past.fair ==> Decodes(past.hist, x, net.head(h), LiveAfter(given, hook), after, views)
    {
      if past.fair {
        TrackEnd(past.hist, past.live, t, given, hook, views, past.found.views, after, x);
      }
    }

    /** A hook is shown the output of every layer in turn. */
    ghost predicate Watched(x: H, seen: seq<seq<Row>>, hooked: seq<H>) {
      |hooked| == |seen|
      && forall l :: 0 <= l < |hooked| ==> hooked[l] == net.Compose(0, seen[..l + 1], x)
    }

    lemma WatchedMore(x: H, t: Trail, step: Step, hooked: seq<H>, now: Caches, h: H)
      requires Watched(x, RowsOf(t.steps), hooked) && Consistent(t.(steps := t.steps + [step]), now, x, h)
      ensures Watched(x, RowsOf(t.steps + [step]), hooked + [h])
    {
      hide Net.Compose, Net.Written, Moved, Seen;
      var seen, all := RowsOf(t.steps), RowsOf(t.steps + [step]);
      assert all[..|seen| + 1] == all;
      forall l | 0 <= l < |hooked|
        ensures hooked[l] == net.Compose(0, all[..l + 1], x)
      {
        assert all[..l + 1] == seen[..l + 1];
      }
    }

    /** The decode plane takes the pass, and not the model it wraps. */
    predicate Runs(usable: bool)
      reads this`disabled
    {
      usable && !(disabled && !gpuFallback)
    }

    /** The loop over the layers, before layer |t.steps|. */
    ghost predicate Underway(past: Past, t: Trail, now: Caches, given: set<nat>, hook: bool,
        views: map<nat, BlockState>, blockEnv: nat -> BlockEnv, x: H, h: H, hooked: seq<H>)
    {
      Consistent(t, now, x, h) && FairSoFar(past, t, given, hook, views, blockEnv)
      && Blamed(t.extra, given - past.found.given, blockEnv)
      && (hook ==> given == past.found.given && Watched(x, RowsOf(t.steps), hooked))
    }

    /** Layer i of a pass, by itself. */
    method RunLayer(i: nat, ghost x: H, h: H, prepared: Option<N>, c: array<Option<seq<Row>>>, env: LayerEnv,
        hook: bool, hooked: seq<H>, ghost t: Trail, ghost past: Past, ghost views: map<nat, BlockState>,
        ghost blockEnv: nat -> BlockEnv)
      returns (res: Option<LayerOut>, hooked': seq<H>, ghost t': Trail)
      requires Wired() && i == |t.steps| < numLayers && i !in LiveAfter(directFallbacks, hook)
      requires Underway(past, t, c[..], directFallbacks, hook, views, blockEnv, x, h, hooked)
      requires Followed(past.found, t, directFallbacks, hook, views, blockEnv)
      requires prepared.Some? ==> prepared.value == net.inNorm(i, h)
      modifies this`disabled, this`held, c
      ensures t'.before == t.before && held - old(held) == Lent(t'.steps) - Lent(t.steps)
      ensures res.None? ==> t' == t
      ensures res.Some? ==> |t'.steps| == i + 1 && res.value.views == Lent(t'.steps) - Lent(t.steps)
      ensures res.Some? ==>
        Underway(past, t', c[..], directFallbacks, hook, views, blockEnv, x, res.value.out, hooked')
      ensures res.Some? ==> Followed(past.found, t', directFallbacks, hook, views, blockEnv)
      ensures res.Some? && res.value.next.Some? ==>
        i + 1 < numLayers && res.value.next.value == net.inNorm(i + 1, res.value.out)
      ensures env.GpuWorks() ==> res.Some?
      ensures !env.FailsLate(moe[i]) ==> disabled == old(disabled)
    {
      hide Consistent, FairSoFar, Recounted, Blamed, Watched, Net.Layer, Net.RowOf;
      hide LayerEnv.FailsLate, LayerEnv.GpuWorks;
      ghost var before := c[..];
      t', hooked' := t, hooked;
      res := LayerForward(i, h, prepared, c, env);
      if res.Some? {
        ghost var step := Step(RowsAt(before, i), net.RowOf(i, |RowsAt(before, i)|, h), false, res.value.views);
        t' := t.(steps := t.steps + [step]);
        LayerIsStep(t, before, x, h, step.lends);
        LayerIfFair(past, t, directFallbacks, hook, views, before, blockEnv, x, h, step);
        if Apart() {
          RecountLayer(past.found, t, directFallbacks, hook, views, blockEnv, step);
        }
        if hook {
          WatchedMore(x, t, step, hooked, c[..], res.value.out);
          hooked' := hooked + [res.value.out];
        }
      }
    }

    /** The block at layer i of a pass, or nothing. */
    method RunSpan(i: nat, ghost x: H, h: H, c: array<Option<seq<Row>>>, slots: map<nat, DirectSlot>,
        blockEnv: nat -> BlockEnv, hooked: seq<H>, ghost t: Trail, ghost past: Past)
      returns (out: Option<H>, last: nat, views: nat, ghost t': Trail)
      requires Wired() && Pooled(slots) && i == |t.steps| < numLayers
      requires Underway(past, t, c[..], directFallbacks, false, ViewsOf(slots), blockEnv, x, h, hooked)
      requires Followed(past.found, t, directFallbacks, false, ViewsOf(slots), blockEnv)
      modifies this`directFallbacks, this`held, c, slots.Values
      ensures Pooled(slots) && t'.before == t.before
      ensures views == Lent(t'.steps) - Lent(t.steps) && held == old(held) + views
      ensures if out.Some? then i <= last < numLayers && |t'.steps| == last + 1
              else t'.steps == t.steps && i !in LiveAfter(directFallbacks, false)
      ensures Followed(past.found, t', directFallbacks, false, ViewsOf(slots), blockEnv)
      ensures Underway(past, t', c[..], directFallbacks, false, ViewsOf(slots), blockEnv, x,
        if out.Some? then out.value else h, hooked)
    {
      hide Consistent, FairSoFar, Followed, Blamed, Watched;
      out, last, views, t' := TryBlock(i, x, h, c, slots, blockEnv, t, past);
    }

    /** Everything outside the ANE works, and nothing on it goes wrong late. */
    ghost predicate AllWorks(layerEnv: nat -> LayerEnv) {
      forall i :: layerEnv(i).GpuWorks()
    }

    ghost predicate NoneLate(layerEnv: nat -> LayerEnv)
      requires Wired()
    {
      forall i :: 0 <= i < numLayers ==> !layerEnv(i).FailsLate(moe[i])
    }

    lemma LayerOf(layerEnv: nat -> LayerEnv, i: nat)
      requires Wired() && i < numLayers
      ensures AllWorks(layerEnv) ==> layerEnv(i).GpuWorks()
      ensures NoneLate(layerEnv) ==> !layerEnv(i).FailsLate(moe[i])
    {
    }

    lemma NothingLent(t: Trail)
      requires t.steps == []
      ensures Lent(t.steps) == 0
    {
    }

    /** The loop. It stops at the first layer that fails. */
    method RunLayers(x: H, c: array<Option<seq<Row>>>, hook: bool, slots: map<nat, DirectSlot>,
        blockEnv: nat -> BlockEnv, layerEnv: nat -> LayerEnv, ghost past: Past, ghost t0: Trail)
      returns (r: Option<H>, hooked: seq<H>, releases: nat, ghost t: Trail)
      requires Wired() && Pooled(slots) && t0.steps == []
      requires Underway(past, t0, c[..], directFallbacks, hook, ViewsOf(slots), blockEnv, x, x, [])
      requires Followed(past.found, t0, directFallbacks, hook, ViewsOf(slots), blockEnv)
      modifies this`disabled, this`directFallbacks, this`held, c, slots.Values
      ensures Pooled(slots) && t.before == t0.before
      ensures releases == Lent(t.steps) && held == old(held) + releases
      ensures r.Some? ==>
        |t.steps| == numLayers
        && Underway(past, t, c[..], directFallbacks, hook, ViewsOf(slots), blockEnv, x, r.value, hooked)
      ensures r.Some? ==> Followed(past.found, t, directFallbacks, hook, ViewsOf(slots), blockEnv)
      ensures AllWorks(layerEnv) ==> r.Some?
      ensures NoneLate(layerEnv) ==> disabled == old(disabled)
    {
      hide Underway, Followed, Pooled, LiveAfter, ViewsOf, Lent, AllWorks, NoneLate;
      hide LayerEnv.FailsLate, LayerEnv.GpuWorks;
      NothingLent(t0);
      hooked, releases, t := [], 0, t0;
      var h, prepared: Option<N>, i := x, None, 0;
      while i < numLayers
        invariant i <= numLayers && |t.steps| == i && t.before == t0.before && Pooled(slots)
        invariant Underway(past, t, c[..], directFallbacks, hook, ViewsOf(slots), blockEnv, x, h, hooked)
        invariant Followed(past.found, t, directFallbacks, hook, ViewsOf(slots), blockEnv)
        invariant prepared.Some? ==> i < numLayers && prepared.value == net.inNorm(i, h)
        invariant releases == Lent(t.steps) && held == old(held) + releases
        invariant NoneLate(layerEnv) ==> disabled == old(disabled)
      {
        if !hook {
          var out, last, views;
          out, last, views, t := RunSpan(i, x, h, c, slots, blockEnv, hooked, t, past);
          if out.Some? {
            releases := releases + views;
            h, prepared, i := out.value, None, last + 1;
            continue;
          }
        }
        HookSkips(directFallbacks, hook, i);
        LayerOf(layerEnv, i);
        var res;
        res, hooked, t := RunLayer(i, x, h, prepared, c, layerEnv(i), hook, hooked, t, past, ViewsOf(slots), blockEnv);
        if res.None? {
          return None, hooked, releases, t;
        }
        releases := releases + res.value.views;
        h, prepared, i := res.value.out, res.value.next, i + 1;
      }
      r := Some(h);
    }

    /** A pass that the plane takes. */
    method RunPass(x: H, c: array<Option<seq<Row>>>, hook: bool, slots: map<nat, DirectSlot>,
        blockEnv: nat -> BlockEnv, layerEnv: nat -> LayerEnv, headOk: bool,
        ghost hist: seq<seq<Row>>, ghost live: set<nat>)
      returns (r: Option<H>, hooked: seq<H>, ghost t: Trail)
      requires Wired() && Pooled(slots)
      modifies this`disabled, this`directFallbacks, this`held, c, slots.Values
      ensures Pooled(slots) && held == old(held) + Lent(t.steps)
      ensures r.Some? ==>
        Passed(x, old(c[..]), c[..], r.value, t) && Blamed(t.extra, directFallbacks - old(directFallbacks), blockEnv)
        && (hook ==> directFallbacks == old(directFallbacks) && Watched(x, RowsOf(t.steps), hooked))
      ensures headOk && AllWorks(layerEnv) ==> r.Some?
      ensures NoneLate(layerEnv) ==> disabled == old(disabled)
      ensures r.Some? ==>
        (old(IsFair(hist, live, c[..], ViewsOf(slots), directFallbacks, hook, blockEnv)) ==>
           Decodes(hist, x, r.value, LiveAfter(directFallbacks, hook), c[..], ViewsOf(slots)))
      ensures r.Some? && Apart() ==>
        Recounted(old(Found(ViewsOf(slots), directFallbacks)), t, directFallbacks, hook, ViewsOf(slots), blockEnv)
    {
      hide Underway, Watched, Blamed, IsFair, Pooled, Passed, Decodes, Wired, Lent, AllWorks, NoneLate, Recounted;
      hide RowsOf, LiveAfter, ViewsOf;
      ghost var fair := IsFair(hist, live, c[..], ViewsOf(slots), directFallbacks, hook, blockEnv);
      ghost var past := Past(fair, hist, live, Found(ViewsOf(slots), directFallbacks));
      PooledKeys(slots);
      StartPass(past, c[..], hook, blockEnv, x);
      RecountStart(past.found, Trail(c[..], [], seq(c.Length, _ => 0)), hook, blockEnv);
      // the deferred release has its argument from here
      var deferred := 0;
      var releases, h;
      h, hooked, releases, t := RunLayers(x, c, hook, slots, blockEnv, layerEnv, past,
        Trail(c[..], [], seq(c.Length, _ => 0)));
      ReleaseOutputViews(deferred);
      if h.None? || !headOk {
        return None, hooked, t;
      }
      EndPass(past, t, directFallbacks, hook, ViewsOf(slots), blockEnv, c[..], x, h.value, hooked);
      r := Some(net.head(h.value));
    }

    /** One token through the plane. All layers run once, in order, each on top of the one
        before, whichever mix of blocks, ANE paths and GPU fallbacks runs them: a layer by
        itself on the rows of its cache, one in a block on the block's own. Every cache ends
        one row further. The one way to more is a block that fails after it has begun to
        advance the caches: the trail counts the rows it leaves. Every block is accounted for:
        whether it went through, on which rows, and how far it got if not. No lease of a view comes
        back: the list of views was empty when their release was deferred. And if the blocks
        in use have kept the rows of the tokens so far, and the pass is fair to them, it is
        the pass over what those tokens have really written. */
    method Forward(x: H, c: array<Option<seq<Row>>>, hook: bool, slots: map<nat, DirectSlot>,
        blockEnv: nat -> BlockEnv, layerEnv: nat -> LayerEnv, usable: bool, base: Option<H>, headOk: bool,
        ghost hist: seq<seq<Row>>, ghost live: set<nat>)
      returns (r: Option<H>, hooked: seq<H>, ghost t: Trail)
      requires Wired() && Pooled(slots)
      modifies this`disabled, this`directFallbacks, this`held, c, slots.Values
      ensures Pooled(slots)
      ensures !old(Runs(usable)) ==> r == base && c[..] == old(c[..]) && t.steps == []
      ensures held == old(held) + Lent(t.steps)
      ensures old(Runs(usable)) && r.Some? ==>
        Passed(x, old(c[..]), c[..], r.value, t) && Blamed(t.extra, directFallbacks - old(directFallbacks), blockEnv)
        && (hook ==> directFallbacks == old(directFallbacks) && Watched(x, RowsOf(t.steps), hooked))
      ensures old(Runs(usable)) && headOk && AllWorks(layerEnv) ==> r.Some?
      ensures NoneLate(layerEnv) ==> disabled == old(disabled)
      ensures old(Runs(usable)) && r.Some? ==>
        (old(IsFair(hist, live, c[..], ViewsOf(slots), directFallbacks, hook, blockEnv)) ==>
           Decodes(hist, x, r.value, LiveAfter(directFallbacks, hook), c[..], ViewsOf(slots)))
      ensures old(Runs(usable)) && r.Some? && Apart() ==>
        Recounted(old(Found(ViewsOf(slots), directFallbacks)), t, directFallbacks, hook, ViewsOf(slots), blockEnv)
    {
      hide Passed, Blamed, Watched, IsFair, Decodes, Pooled, ViewsOf, LiveAfter, RowsOf, Wired, AllWorks, NoneLate;
      hide Recounted;
      hooked, t := [], Trail(c[..], [], seq(c.Length, _ => 0));
      if usable && !(disabled && !gpuFallback) {
        r, hooked, t := RunPass(x, c, hook, slots, blockEnv, layerEnv, headOk, hist, live);
      } else {
        r := base;
      }
    }

    lemma HookSkips(given: set<nat>, hook: bool, i: nat)
      ensures hook ==> i !in LiveAfter(given, hook)
    {
    }

    lemma NoCulprit(l: nat, given: set<nat>, blockEnv: nat -> BlockEnv)
      requires forall s :: s in given ==> blockEnv(s).NotLate()
      ensures !Culprit(l, given, blockEnv)
    {
    }

    /** Without a late failure a layer that runs by itself sees exactly what its cache held, and
        every cache ends one row further. */
    lemma CleanPass(x: H, before: Caches, after: Caches, out: H, t: Trail, given: set<nat>, blockEnv: nat -> BlockEnv)
      requires Passed(x, before, after, out, t) && Blamed(t.extra, given, blockEnv)
      requires forall s :: s in given ==> blockEnv(s).NotLate()
      ensures forall l :: 0 <= l < |before| && before[l].Some? && l < numLayers ==>
        (if t.steps[l].block then |t.steps[l].rows| == |before[l].value| else t.steps[l].rows == before[l].value)
        && after[l] == Some(before[l].value + [RowLeft(t.steps[l])])
    {
      hide Net.Compose, Net.Written;
      forall l | 0 <= l < |before| && before[l].Some? && l < numLayers
        ensures if t.steps[l].block then |t.steps[l].rows| == |before[l].value| else t.steps[l].rows == before[l].value
        ensures after[l] == Some(before[l].value + [RowLeft(t.steps[l])])
      {
        NoCulprit(l, given, blockEnv);
        assert t.extra[l] == 0;
        assert SeenAt(t, l);
        assert before[l].value + Zeros(0) == before[l].value;
      }
    }
  }

  /** A model whose attention adds up the rows it sees, each of which holds its token, and whose head
      multiplies by 100. */
  function Adder(): Net {
    Net((x, y) => x + y, (i, x) => x, (i, x) => x, (i, rows, n) => Total(rows), (i, pos, n) => n, 0, (i, n) => 0,
      x => 100 * x)
  }

  /** A model whose attention counts them. */
  function Counter(): Net {
    Net((x, y) => x + y, (i, x) => x, (i, x) => x, (i, rows, n) => |rows|, (i, pos, n) => n, 0, (i, n) => 0,
      x => 100 * x)
  }

  function Total(rows: seq<Row>): int {
    if rows == [] then 0 else Total(rows[..|rows| - 1]) + rows[|rows| - 1]
  }

  /** One token through its only layer. */
  method AdderToken(p: Plane, c: array<Option<seq<Row>>>, x: H) returns (logits: H)
    requires p.net == Adder() && p.moe == [false] && p.Wired() && c.Length == 1 && c[0].Some?
    requires !p.disabled && !p.gpuFallback
    modifies p`disabled, p`held, c
    ensures logits == 100 * (x + Total(old(c[0]).value)) && c[0] == Some(old(c[0]).value + [x])
    ensures !p.disabled
  {
    var env := LayerEnv(true, true, true, true, true, true, true, Prepared(true), Done, Done, true, true, Declined,
      Declined, 0);
    assert env.GpuWorks() && !env.FailsLate(false);
    hide Net.Layer, Net.RowOf, RowsAt, Bump, Total;
    var out := p.LayerForward(0, x, None, c, env);
    logits := p.net.head(out.value.out);
  }

  /** Three tokens: 10, then 20 on top of 10, then 1 on top of both. */
  method ThreeTokens() returns (logits: seq<H>)
    ensures logits == [1000, 3000, 3100]
  {
    hide Adder, Total;
    var p := new Plane(Adder(), [false], false, false, Plain, map[]);
    var c := new Option<seq<Row>>[1](_ => Some([]));
    var first := AdderToken(p, c, 10);
    assert [] + [10] == [10];
    var second := AdderToken(p, c, 20);
    assert [10] + [20] == [10, 20];
    var third := AdderToken(p, c, 1);
    SmallTotals(10, 20);
    logits := [first, second, third];
  }

  lemma SmallTotals(a: Row, b: Row)
    ensures Total([]) == 0 && Total([a]) == a && Total([a, b]) == a + b
  {
    assert [a][..0] == [] && [a, b][..1] == [a];
  }

  /** A fused path that fails leaves the plane enabled: the next token runs into it again. */
  method FusedFailureIsNotRemembered(net: Net, x: H) returns (p: Plane)
    ensures !p.disabled
  {
    p := new Plane(net, [false], false, false, Plain, map[]);
    var c := new Option<seq<Row>>[1](_ => Some([]));
    var env := LayerEnv(true, true, true, true, true, true, true, Absent, Failed, Declined, true, true, Declined,
      Declined, 0);
    var r := p.LayerForward(0, x, None, c, env);
    assert env.GpuWorks() && !env.FailsLate(false);
    assert r.value.out == net.Layer(0, [], x);
  }

  /** A block that evaluates, takes its caches along and then cannot advance itself leaves a
      zero row too many in each: the layers run again and attend to it. */
  method LateBlockFailureShows(net: Net, x: H, row: Row) returns (c: array<Option<seq<Row>>>, r: Option<H>)
    ensures c.Length == 1 && c[0].Some? && |c[0].value| == 3
    ensures r == Some(net.head(net.Layer(0, [row, net.zeroRow], x)))
  {
    var span := Span(0, 0, [0]);
    var p := new Plane(net, [false], false, true, Plain, map[0 := span]);
    c := new Option<seq<Row>>[1](_ => Some([row]));
    var slot := new DirectSlot(1);
    var block := BlockEnv(true, true, true, true, true, true, true, true, true, true, true, l => true, false, 8, 0);
    var layer := LayerEnv(true, true, true, true, true, true, true, Absent, Done, Declined, true, true, Declined,
      Declined, 0);
    ghost var before := c[..];
    NeverRefuses(before, 0, 1, block);
    assert p.Evaluates(0, {}, 0, before, block);
    var out, last, views := p.DirectBlockOutput(0, x, c, slot, block);
    assert out.None? && Bumped(before, c[..], 0, 1, net.zeroRow);
    assert c[..][0] == Some(before[0].value + [net.zeroRow]) && [row] + [net.zeroRow] == [row, net.zeroRow];
    var res := p.LayerForward(0, x, None, c, layer);
    r := Some(net.head(res.value.out));
  }

  /** In numbers: 10 on top of a cached 5, with a model that counts the rows it sees. Without the
      failure the sum would be 11. */
  method LateBlockFailureCounts() returns (right: Option<H>, r: Option<H>)
    ensures right == Some(1100) && r == Some(1200)
  {
    var net := Counter();
    var c;
    c, r := LateBlockFailureShows(net, 10, 5);
    right := Some(net.head(net.Layer(0, [5], 10)));
  }

  /** A span of consecutive layers from s on, within n. */
  ghost predicate Consecutive(span: Span, s: nat, n: nat) {
    span.startLayer == s && span.layers != [] && s + |span.layers| <= n
    && forall k :: 0 <= k < |span.layers| ==> span.layers[k] == s + k
  }
}
