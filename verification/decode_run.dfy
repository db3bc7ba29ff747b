/** Decoding token after token on the decode plane (decode/dispatch.go, decode/pool.go): when
    it is decoding over what the tokens so far have really written, and how the slot pool of a
    direct block decides that. */
module DecodeRuns {

  import opened Forwarding
  import opened Options
  import opened Spans
  import opened Strides
  import L = LeasePool

  lemma RunsApart(n: nat, offsets: map<nat, nat>, a: Span, b: Span)
    requires MaximalRun(n, offsets, a) && MaximalRun(n, offsets, b) && a.startLayer < b.startLayer
    ensures a.startLayer + |a.layers| <= b.startLayer
  {
    var before: nat := b.startLayer - 1;
    assert !Joined(offsets, before);
  }

  /** Spans as they are built and selected have consecutive layers, and no layer is in two. */
  lemma BuiltSpansFit(p: Plane, offsets: map<nat, nat>, all: map<nat, Span>, request: Request)
    requires |p.moe| == p.numLayers && AllRuns(p.numLayers, offsets, all) && Selection(all, request, p.spans)
    ensures p.Wired() && p.Apart()
  {
    hide Wanted;
    forall s | s in p.spans
      ensures Consecutive(p.spans[s], s, p.numLayers)
    {
      assert MaximalRun(p.numLayers, offsets, all[s]);
    }
    forall s, u | s in p.spans && u in p.spans && s < u
      ensures s + p.Size(s) <= u
    {
      hide MaximalRun;
      RunsApart(p.numLayers, offsets, all[s], all[u]);
    }
  }

  /** What the layers have written after some tokens, each over the history before it, and the
      logits those tokens give. */
  ghost function History(net: Net, hist: seq<seq<Row>>, xs: seq<H>): seq<seq<Row>>
    decreases |xs|
  {
    if xs == [] then hist
    else
      var n := |xs| - 1;
      net.Grown(0, History(net, hist, xs[..n]), xs[n])
  }

  ghost function Outputs(net: Net, hist: seq<seq<Row>>, xs: seq<H>): seq<H>
    decreases |xs|
  {
    if xs == [] then []
    else
      var n := |xs| - 1;
      Outputs(net, hist, xs[..n]) + [net.head(net.Compose(0, History(net, hist, xs[..n]), xs[n]))]
  }

  /** One token: its embedding, the slot that each block's pool hands out, and how things turn
      out. */
  datatype Turn = Turn(x: H, pick: map<nat, nat>, hook: bool, blockEnv: nat -> BlockEnv, layerEnv: nat -> LayerEnv,
    usable: bool, headOk: bool)

  function Tokens(turns: seq<Turn>): (xs: seq<H>)
    ensures |xs| == |turns| && forall i :: 0 <= i < |xs| ==> xs[i] == turns[i].x
  {
    seq(|turns|, i requires 0 <= i < |turns| => turns[i].x)
  }

  /** The slots of each block's pool. */
  type Pools = map<nat, seq<DirectSlot>>

  function AllSlots(pools: Pools): set<DirectSlot> {
    set s, a | s in pools && 0 <= a < |pools[s]| :: pools[s][a]
  }

  ghost predicate OwnSlots(pools: Pools) {
    forall s, a, u, b ::
      s in pools && 0 <= a < |pools[s]| && u in pools && 0 <= b < |pools[u]| && pools[s][a] == pools[u][b] ==>
        s == u && a == b
  }

  ghost predicate Sized(p: Plane, pools: Pools)
    requires p.Wired()
    reads AllSlots(pools)
  {
    pools.Keys == p.spans.Keys
    && forall s, a :: s in pools && 0 <= a < |pools[s]| ==> pools[s][a].Valid(p.Size(s))
  }

  predicate Picks(pick: map<nat, nat>, pools: Pools) {
    pick.Keys == pools.Keys && forall s :: s in pools ==> pick[s] < |pools[s]|
  }

  function Picked(pick: map<nat, nat>, pools: Pools): (slots: map<nat, DirectSlot>)
    requires Picks(pick, pools)
    ensures slots.Keys == pools.Keys && slots.Values <= AllSlots(pools)
  {
    map s | s in pools :: pools[s][pick[s]]
  }

  lemma PickedPooled(p: Plane, pick: map<nat, nat>, pools: Pools)
    requires p.Wired() && OwnSlots(pools) && Sized(p, pools) && Picks(pick, pools)
    ensures p.Pooled(Picked(pick, pools))
  {
  }

  /** A moment between two tokens: the caches, the blocks that hold rows, the slots that were handed
      out last, the states of all slots, and what has been given up. */
  datatype Moment = Moment(c: Caches, live: set<nat>, last: map<nat, nat>, slots: map<nat, seq<BlockState>>,
    given: set<nat>, disabled: bool)
  {
    /** The position of slot a of the block at s. */
    function PositionOf(s: nat, a: nat): nat {
      if s in slots && a < |slots[s]| then slots[s][a].position else 0
    }

    /** The blocks as a pass finds them in the slots they are handed. */
    function Find(pick: map<nat, nat>): Found {
      Found(Handed(pick), given)
    }

    function Handed(pick: map<nat, nat>): map<nat, BlockState> {
      map s | s in slots && s in pick && pick[s] < |slots[s]| :: slots[s][pick[s]]
    }
  }

  ghost function States(slots: seq<DirectSlot>): (r: seq<BlockState>)
    reads slots
    ensures |r| == |slots| && forall a :: 0 <= a < |r| ==> r[a] == slots[a].View()
  {
    if slots == [] then [] else States(slots[..|slots| - 1]) + [slots[|slots| - 1].View()]
  }

  ghost function Snapshot(p: Plane, c: Caches, live: set<nat>, last: map<nat, nat>, pools: Pools): Moment
    reads p`directFallbacks, p`disabled, AllSlots(pools)
  {
    Moment(c, live, last, map s | s in pools :: States(pools[s]), p.directFallbacks, p.disabled)
  }

  lemma HandedViews(p: Plane, c: Caches, live: set<nat>, last: map<nat, nat>, pools: Pools, pick: map<nat, nat>)
    requires Picks(pick, pools)
    ensures Snapshot(p, c, live, last, pools).Handed(pick) == Plane.ViewsOf(Picked(pick, pools))
  {
    hide States;
    var m, views := Snapshot(p, c, live, last, pools), Plane.ViewsOf(Picked(pick, pools));
    assert m.Handed(pick).Keys == views.Keys;
    forall s | s in views
      ensures m.Handed(pick)[s] == views[s]
    {
      assert m.slots[s] == States(pools[s]);
    }
  }

  /** The plane has taken a token, from one moment to the next: what the pass did, what has become of
      every block in the slot it was handed, and that no other slot has changed. */
  ghost predicate Took(p: Plane, m: Moment, turn: Turn, t: Trail, next: Moment, out: H)
    requires p.Wired()
  {
    p.Passed(turn.x, m.c, next.c, out, t)
    && p.Recounted(m.Find(turn.pick), t, next.given, turn.hook, next.Handed(turn.pick), turn.blockEnv)
    && (p.NoneLate(turn.layerEnv) ==> next.disabled == m.disabled)
    && next.last == turn.pick && next.live == p.LiveAfter(next.given, turn.hook)
    && OthersStay(m.slots, turn.pick, next.slots)
  }

  ghost predicate OthersStay(slots: map<nat, seq<BlockState>>, pick: map<nat, nat>, next: map<nat, seq<BlockState>>) {
    slots.Keys == next.Keys
    && forall s :: s in slots ==>
      |next[s]| == |slots[s]| && s in pick
      && forall a :: 0 <= a < |slots[s]| && a != pick[s] ==> next[s][a] == slots[s][a]
  }

  /** What a caller can check before a token: blocks that hold rows are all used, work, and are
      handed the slot that holds them; any other block does not fail late, and is not at the
      length of the caches by chance. */
  ghost predicate Steady(p: Plane, m: Moment, turn: Turn) {
    turn.usable && !(m.disabled && !p.gpuFallback) && (turn.hook ==> m.live == {})
    && (!turn.hook && p.directBlock ==> forall s :: s in p.spans && s !in m.given ==> SteadyBlock(m, turn, s))
  }

  ghost predicate SteadyBlock(m: Moment, turn: Turn, s: nat) {
    s in turn.pick
    && if s in m.live then s in m.last && turn.pick[s] == m.last[s] && turn.blockEnv(s).Works()
       else turn.blockEnv(s).NotLate() && (m.PositionOf(s, turn.pick[s]) != |RowsAt(m.c, s)| || |RowsAt(m.c, s)| == 0)
  }

  /** Every token so far was steady. */
  ghost predicate AllSteady(p: Plane, moments: seq<Moment>, turns: seq<Turn>, n: nat)
    requires n <= |moments| && n <= |turns|
  {
    forall i :: 0 <= i < n ==> Steady(p, moments[i], turns[i])
  }

  /** The blocks that are live hold their rows in the slots they were handed last. */
  ghost predicate Kept(p: Plane, hist: seq<seq<Row>>, c: Caches, live: set<nat>, last: map<nat, nat>, pools: Pools)
    reads p`directFallbacks, AllSlots(pools)
  {
    live !! p.directFallbacks && (!p.directBlock ==> live == {})
    && (forall s :: s in live ==> s in pools && s in last && last[s] < |pools[s]|)
    && p.InTouch(hist, live, c, map s | s in live && s in pools :: pools[s][last[s]].View())
  }

  lemma SteadyIsFair(p: Plane, hist: seq<seq<Row>>, c: Caches, live: set<nat>, last: map<nat, nat>, pools: Pools,
      turn: Turn)
    requires p.Wired() && p.Apart() && Picks(turn.pick, pools) && pools.Keys == p.spans.Keys
    requires Kept(p, hist, c, live, last, pools) && Steady(p, Snapshot(p, c, live, last, pools), turn)
    ensures p.Runs(turn.usable) && FairTurn(p, hist, live, c, pools, turn)
  {
    hide Snapshot, States, Moment.Handed, SteadyBlock, Plane.FairBlock, Plane.InTouch, Plane.ViewsOf, Picked;
    hide Plane.Apart, Plane.Wired;
    var m := Snapshot(p, c, live, last, pools);
    SnapshotParts(p, c, live, last, pools);
    HandedViews(p, c, live, last, pools, turn.pick);
    var views := Plane.ViewsOf(Picked(turn.pick, pools));
    SteadyInTouch(p, hist, c, live, last, pools, turn);
    if !turn.hook && p.directBlock {
      forall s | s in p.spans && s !in p.directFallbacks
        ensures p.FairBlock(hist, s in live, views, s, turn.blockEnv(s))
      {
        HandedPosition(m, turn.pick, s);
        InTouchAt(p, hist, live, c, views, s);
        SteadyBlockIsFair(p, hist, m, views, turn, s);
      }
    }
  }

  lemma InTouchAt(p: Plane, hist: seq<seq<Row>>, live: set<nat>, c: Caches, views: map<nat, BlockState>, s: nat)
    requires p.Wired() && s in p.spans && p.InTouch(hist, live, c, views)
    ensures |hist| == |c| == p.numLayers && s < |c| && c[s].Some? && |c[s].value| == |hist[s]|
  {
  }

  /** The slots that are handed out hold what the live blocks hold. */
  lemma SteadyInTouch(p: Plane, hist: seq<seq<Row>>, c: Caches, live: set<nat>, last: map<nat, nat>, pools: Pools,
      turn: Turn)
    requires p.Wired() && Picks(turn.pick, pools) && pools.Keys == p.spans.Keys
    requires Kept(p, hist, c, live, last, pools) && Steady(p, Snapshot(p, c, live, last, pools), turn)
    ensures p.InTouch(hist, live, c, Plane.ViewsOf(Picked(turn.pick, pools)))
  {
    hide Plane.Covered, Plane.Keeps, Snapshot, States, SteadyBlock;
    SnapshotParts(p, c, live, last, pools);
    var held := map s | s in live && s in pools :: pools[s][last[s]].View();
    var views := Plane.ViewsOf(Picked(turn.pick, pools));
    forall s | s in live
      ensures s in held && s in views && views[s] == held[s]
    {
      assert SteadyBlock(Snapshot(p, c, live, last, pools), turn, s);
      SameSlot(Snapshot(p, c, live, last, pools), turn, s);
    }
    SameViews(p, hist, live, c, held, views);
  }

  lemma SameSlot(m: Moment, turn: Turn, s: nat)
    requires SteadyBlock(m, turn, s) && s in m.live
    ensures s in m.last && s in turn.pick && turn.pick[s] == m.last[s]
  {
  }

  lemma SteadyBlockIsFair(p: Plane, hist: seq<seq<Row>>, m: Moment, views: map<nat, BlockState>, turn: Turn, s: nat)
    requires p.Wired() && s in p.spans && SteadyBlock(m, turn, s)
    requires |hist| == |m.c| == p.numLayers && m.c[s].Some? && |m.c[s].value| == |hist[s]|
    requires s in views && s in turn.pick && views[s].position == m.PositionOf(s, turn.pick[s])
    ensures p.FairBlock(hist, s in m.live, views, s, turn.blockEnv(s))
  {
    hide Moment.PositionOf, BlockEnv.Works, BlockEnv.NotLate;
  }

  lemma HandedPosition(m: Moment, pick: map<nat, nat>, s: nat)
    requires s in m.Handed(pick)
    ensures s in pick && m.Handed(pick)[s].position == m.PositionOf(s, pick[s])
  {
  }

  lemma SizedKeys(p: Plane, pools: Pools)
    requires p.Wired() && Sized(p, pools)
    ensures pools.Keys == p.spans.Keys
  {
  }

  lemma NotPicked(pick: map<nat, nat>, pools: Pools)
    requires OwnSlots(pools) && Picks(pick, pools)
    ensures forall s, a :: s in pools && 0 <= a < |pools[s]| && a != pick[s] ==>
      pools[s][a] !in Picked(pick, pools).Values
  {
  }

  /** The plane on the slots that were handed out. */
  method PassOver(p: Plane, c: array<Option<seq<Row>>>, pools: Pools, turn: Turn, ghost hist: seq<seq<Row>>,
      ghost live: set<nat>)
    returns (r: Option<H>, ghost t: Trail)
    requires p.Wired() && OwnSlots(pools) && Sized(p, pools) && Picks(turn.pick, pools)
    modifies p`disabled, p`directFallbacks, p`held, c, AllSlots(pools)
    ensures Sized(p, pools)
    ensures p.NoneLate(turn.layerEnv) ==> p.disabled == old(p.disabled)
    ensures r.Some? && old(p.Runs(turn.usable) && FairTurn(p, hist, live, c[..], pools, turn)) ==>
      p.Decodes(hist, turn.x, r.value, p.LiveAfter(p.directFallbacks, turn.hook), c[..],
        Plane.ViewsOf(Picked(turn.pick, pools)))
    ensures r.Some? ==> p.Passed(turn.x, old(c[..]), c[..], r.value, t)
    ensures r.Some? && p.Apart() ==>
      p.Recounted(old(Found(Plane.ViewsOf(Picked(turn.pick, pools)), p.directFallbacks)), t, p.directFallbacks,
        turn.hook, Plane.ViewsOf(Picked(turn.pick, pools)), turn.blockEnv)
    ensures forall s, a :: s in pools && 0 <= a < |pools[s]| && a != turn.pick[s] ==>
      pools[s][a].View() == old(pools[s][a].View())
  {
    hide Plane.IsFair, Plane.Passed, Plane.Blamed, Plane.Watched, Plane.Decodes, Plane.NoneLate, Plane.AllWorks;
    hide Plane.Pooled, Picked, OwnSlots, AllSlots, Plane.Recounted, Plane.Apart, Plane.ViewsOf;
    PickedPooled(p, turn.pick, pools);
    NotPicked(turn.pick, pools);
    var hooked;
    r, hooked, t := p.Forward(turn.x, c, turn.hook, Picked(turn.pick, pools), turn.blockEnv, turn.layerEnv,
      turn.usable, None, turn.headOk, hist, live);
    StillSized(p, turn.pick, pools);
  }

  ghost predicate FairTurn(p: Plane, hist: seq<seq<Row>>, live: set<nat>, c: Caches, pools: Pools, turn: Turn)
    requires Picks(turn.pick, pools)
    reads p`directFallbacks, AllSlots(pools)
  {
    p.IsFair(hist, live, c, Plane.ViewsOf(Picked(turn.pick, pools)), p.directFallbacks, turn.hook, turn.blockEnv)
  }

  /** One token. If it is steady, its logits are those over the real history. */
  method DecodeToken(p: Plane, c: array<Option<seq<Row>>>, pools: Pools, turn: Turn,
      ghost hist: seq<seq<Row>>, ghost live: set<nat>, ghost last: map<nat, nat>)
    returns (r: Option<H>, ghost t: Trail)
    requires p.Wired() && p.Apart() && OwnSlots(pools) && Sized(p, pools) && Picks(turn.pick, pools)
    modifies p`disabled, p`directFallbacks, p`held, c, AllSlots(pools)
    ensures Sized(p, pools)
    ensures p.NoneLate(turn.layerEnv) ==> p.disabled == old(p.disabled)
    ensures r.Some? ==>
      Took(p, old(Snapshot(p, c[..], live, last, pools)), turn, t,
        Snapshot(p, c[..], p.LiveAfter(p.directFallbacks, turn.hook), turn.pick, pools), r.value)
    ensures r.Some? && old(Kept(p, hist, c[..], live, last, pools)
        && Steady(p, Snapshot(p, c[..], live, last, pools), turn)) ==>
      r.value == p.net.head(p.net.Compose(0, hist, turn.x))
      && Kept(p, p.net.Grown(0, hist, turn.x), c[..], p.LiveAfter(p.directFallbacks, turn.hook), turn.pick, pools)
  {
    hide Steady, Kept, FairTurn, OwnSlots, Sized, Picked, Plane.InTouch, Plane.NoneLate, Net.Compose, Net.Grown;
    hide Plane.Recounted, Plane.Passed, Plane.Apart, Snapshot, AllSlots, Moment.Handed, Plane.LiveAfter, States;
    SizedKeys(p, pools);
    ghost var m := Snapshot(p, c[..], live, last, pools);
    ghost var steady := Kept(p, hist, c[..], live, last, pools) && Steady(p, m, turn);
    if steady {
      SteadyIsFair(p, hist, c[..], live, last, pools, turn);
    }
    SnapshotParts(p, c[..], live, last, pools);
    HandedViews(p, c[..], live, last, pools, turn.pick);
    r, t := PassOver(p, c, pools, turn, hist, live);
    ghost var live', last' := p.LiveAfter(p.directFallbacks, turn.hook), turn.pick;
    ghost var next := Snapshot(p, c[..], live', last', pools);
    SnapshotParts(p, c[..], live', last', pools);
    HandedViews(p, c[..], live', last', pools, turn.pick);
    assert OthersStay(m.slots, turn.pick, next.slots);
    if steady && r.Some? {
      KeptAfter(p, p.net.Grown(0, hist, turn.x), c[..], turn, pools);
    }
  }

  /** Slots that are handed out stay in shape, and so do the others, which have not changed. */
  lemma StillSized(p: Plane, pick: map<nat, nat>, pools: Pools)
    requires p.Wired() && Picks(pick, pools) && pools.Keys == p.spans.Keys && p.Pooled(Picked(pick, pools))
    requires forall s, a :: s in pools && 0 <= a < |pools[s]| && a != pick[s] ==> pools[s][a].Valid(p.Size(s))
    ensures Sized(p, pools)
  {
    forall s, a | s in pools && 0 <= a < |pools[s]|
      ensures pools[s][a].Valid(p.Size(s))
    {
      if a == pick[s] {
        assert Picked(pick, pools)[s].Valid(p.Size(s));
      }
    }
  }

  lemma KeptAfter(p: Plane, hist: seq<seq<Row>>, c: Caches, turn: Turn, pools: Pools)
    requires p.Wired() && Picks(turn.pick, pools) && pools.Keys == p.spans.Keys
    requires p.InTouch(hist, p.LiveAfter(p.directFallbacks, turn.hook), c, Plane.ViewsOf(Picked(turn.pick, pools)))
    ensures Kept(p, hist, c, p.LiveAfter(p.directFallbacks, turn.hook), turn.pick, pools)
  {
    hide Plane.Keeps, Plane.Covered;
    var live, views := p.LiveAfter(p.directFallbacks, turn.hook), Plane.ViewsOf(Picked(turn.pick, pools));
    SameViews(p, hist, live, c, views, map s | s in live && s in pools :: pools[s][turn.pick[s]].View());
  }

  lemma SameViews(p: Plane, hist: seq<seq<Row>>, live: set<nat>, c: Caches, views: map<nat, BlockState>,
      more: map<nat, BlockState>)
    requires p.InTouch(hist, live, c, views) && forall s :: s in live && s in views ==> s in more && more[s] == views[s]
    ensures p.InTouch(hist, live, c, more)
  {
    hide Plane.Covered;
  }

  /** The caches hold the history, and no block holds any of it. */
  lemma StartsKept(p: Plane, hist: seq<seq<Row>>, c: Caches, pools: Pools)
    requires |hist| == |c| == p.numLayers && forall l :: 0 <= l < |c| ==> c[l] == Some(hist[l])
    ensures Kept(p, hist, c, {}, map[], pools)
  {
  }

  /** The moments of a run follow each other, token by token. */
  ghost predicate Follow(p: Plane, moments: seq<Moment>, turns: seq<Turn>, trails: seq<Trail>, outs: seq<H>)
    requires p.Wired()
  {
    |moments| == |outs| + 1 && |trails| == |outs| <= |turns|
    && forall i :: 0 <= i < |outs| ==> Took(p, moments[i], turns[i], trails[i], moments[i + 1], outs[i])
  }

  /** The logits so far are those over the real history, up to the first token that was not steady. */
  ghost predicate RightSoFar(p: Plane, moments: seq<Moment>, turns: seq<Turn>, outs: seq<H>, hist: seq<seq<Row>>)
    requires |outs| <= |moments| && |outs| <= |turns|
  {
    forall n :: 0 <= n <= |outs| && AllSteady(p, moments, turns, n) ==>
      outs[..n] == Outputs(p.net, hist, Tokens(turns)[..n])
  }

  /** A run of tokens, up to the first that fails, and the moments between them. As long as every
      token is steady, the logits are those of decoding over the real history. */
  method Decode(p: Plane, c: array<Option<seq<Row>>>, pools: Pools, turns: seq<Turn>, ghost hist: seq<seq<Row>>)
    returns (outs: seq<H>, ghost moments: seq<Moment>, ghost trails: seq<Trail>)
    requires p.Wired() && p.Apart() && OwnSlots(pools) && Sized(p, pools)
    requires forall i :: 0 <= i < |turns| ==> Picks(turns[i].pick, pools)
    requires |hist| == c.Length == p.numLayers && forall l :: 0 <= l < c.Length ==> c[l] == Some(hist[l])
    modifies p`disabled, p`directFallbacks, p`held, c, AllSlots(pools)
    ensures |outs| <= |turns| && Follow(p, moments, turns, trails, outs)
    ensures moments[0] == old(Snapshot(p, c[..], {}, map[], pools))
    ensures |outs| == |turns| ==>
      var end := moments[|outs|];
      end == Snapshot(p, c[..], end.live, end.last, pools)
    ensures RightSoFar(p, moments, turns, outs, hist)
    ensures old(Undisturbed(p, pools, turns)) ==> AllSteady(p, moments, turns, |outs|)
  {
    hide Kept, Steady, OwnSlots, Sized, Plane.NoneLate, Net.Compose, Net.Grown, Snapshot, RightSoFar, Follow, Calm;
    hide Plane.LiveAfter, AllSlots, States, Quiet, AllSteady, Took;
    ghost var live: set<nat>, last: map<nat, nat>, calm := {}, map[], Undisturbed(p, pools, turns);
    outs, moments, trails := [], [Snapshot(p, c[..], live, last, pools)], [];
    StartsKept(p, hist, c[..], pools);
    FirstMoment(p, moments[0], turns, hist);
    assert Tokens(turns)[..0] == [];
    if calm {
      CalmStart(p, c[..], pools, turns);
    }
    for i := 0 to |turns|
      invariant |outs| == i && |moments| == i + 1 && Sized(p, pools) && Follow(p, moments, turns, trails, outs)
      invariant moments[0] == old(Snapshot(p, c[..], {}, map[], pools))
      invariant moments[i] == Snapshot(p, c[..], live, last, pools)
      invariant AllSteady(p, moments, turns, i) ==> Kept(p, History(p.net, hist, Tokens(turns)[..i]), c[..], live,
        last, pools)
      invariant RightSoFar(p, moments, turns, outs, hist)
      invariant calm ==> AllSteady(p, moments, turns, i)
      invariant calm && i < |turns| ==> Calm(p, c[..], live, last, pools, turns, i)
    {
      ghost var before := History(p.net, hist, Tokens(turns)[..i]);
      SizedKeys(p, pools);
      if calm {
        CalmIsSteady(p, c[..], live, last, pools, turns, i);
      }
      FewerSteady(p, moments, turns, i);
      var r;
      ghost var t;
      r, t := DecodeToken(p, c, pools, turns[i], before, live, last);
      if r.None? {
        return;
      }
      SizedKeys(p, pools);
      live, last := p.LiveAfter(p.directFallbacks, turns[i].hook), turns[i].pick;
      assert Tokens(turns)[..i + 1][..i] == Tokens(turns)[..i];
      ghost var next := Snapshot(p, c[..], live, last, pools);
      NextFollows(p, moments, turns, trails, outs, next, t, r.value);
      RightOnceMore(p, moments, turns, outs, hist, next, r.value);
      SteadyBefore(p, moments, next, turns, i + 1);
      outs, moments, trails := outs + [r.value], moments + [next], trails + [t];
      if calm && i + 1 < |turns| {
        CalmNext(p, c[..], pools, turns, i);
      }
    }
    SnapshotParts(p, c[..], live, last, pools);
  }

  lemma FirstMoment(p: Plane, m: Moment, turns: seq<Turn>, hist: seq<seq<Row>>)
    requires p.Wired()
    ensures Follow(p, [m], turns, [], []) && RightSoFar(p, [m], turns, [], hist) && AllSteady(p, [m], turns, 0)
  {
    assert Tokens(turns)[..0] == [];
  }

  lemma SnapshotParts(p: Plane, c: Caches, live: set<nat>, last: map<nat, nat>, pools: Pools)
    ensures var m := Snapshot(p, c, live, last, pools);
      m.c == c && m.live == live && m.last == last && m.given == p.directFallbacks && m.disabled == p.disabled
      && m.slots.Keys == pools.Keys && forall s :: s in pools ==> m.slots[s] == States(pools[s])
  {
  }

  lemma NextOutput(net: Net, hist: seq<seq<Row>>, xs: seq<H>, outs: seq<H>)
    requires |outs| < |xs| && outs == Outputs(net, hist, xs[..|outs|])
    ensures outs + [net.head(net.Compose(0, History(net, hist, xs[..|outs|]), xs[|outs|]))]
      == Outputs(net, hist, xs[..|outs| + 1])
  {
    hide Net.Compose, History;
    assert xs[..|outs| + 1][..|outs|] == xs[..|outs|];
  }

  lemma SteadyBefore(p: Plane, moments: seq<Moment>, next: Moment, turns: seq<Turn>, n: nat)
    requires n <= |moments| && n <= |turns|
    ensures AllSteady(p, moments + [next], turns, n) == AllSteady(p, moments, turns, n)
  {
    hide Steady;
    assert forall k :: 0 <= k < n ==> (moments + [next])[k] == moments[k];
  }

  lemma RightOnceMore(p: Plane, moments: seq<Moment>, turns: seq<Turn>, outs: seq<H>, hist: seq<seq<Row>>,
      next: Moment, out: H)
    requires |moments| == |outs| + 1 <= |turns| && RightSoFar(p, moments, turns, outs, hist)
    requires AllSteady(p, moments, turns, |outs| + 1) ==>
      out == p.net.head(p.net.Compose(0, History(p.net, hist, Tokens(turns)[..|outs|]), turns[|outs|].x))
    ensures RightSoFar(p, moments + [next], turns, outs + [out], hist)
  {
    hide Steady, Net.Compose, History, Outputs, AllSteady;
    forall n | 0 <= n <= |outs| + 1 && AllSteady(p, moments + [next], turns, n)
      ensures (outs + [out])[..n] == Outputs(p.net, hist, Tokens(turns)[..n])
    {
      SteadyBefore(p, moments, next, turns, n);
      if n <= |outs| {
        assert (outs + [out])[..n] == outs[..n];
      } else {
        FewerSteady(p, moments, turns, |outs|);
        assert outs[..|outs|] == outs && (outs + [out])[..n] == outs + [out];
        NextOutput(p.net, hist, Tokens(turns), outs);
      }
    }
  }

  lemma FewerSteady(p: Plane, moments: seq<Moment>, turns: seq<Turn>, n: nat)
    requires n < |moments| && n < |turns|
    ensures AllSteady(p, moments, turns, n + 1) <==> AllSteady(p, moments, turns, n) && Steady(p, moments[n], turns[n])
  {
    hide Steady;
  }

  lemma NextFollows(p: Plane, moments: seq<Moment>, turns: seq<Turn>, trails: seq<Trail>, outs: seq<H>,
      next: Moment, t: Trail, out: H)
    requires p.Wired() && Follow(p, moments, turns, trails, outs) && |outs| < |turns|
    requires Took(p, moments[|outs|], turns[|outs|], t, next, out)
    ensures Follow(p, moments + [next], turns, trails + [t], outs + [out])
  {
    hide Took;
  }

  // ---- which slot a block is handed ------------------------------------------------------------

  /** A run on fresh slots in which nothing fails late, no hook is set and every block is handed
      the same slot throughout. */
  ghost predicate Undisturbed(p: Plane, pools: Pools, turns: seq<Turn>)
    requires p.Wired() && forall i :: 0 <= i < |turns| ==> Picks(turns[i].pick, pools)
    reads p`disabled, AllSlots(pools)
  {
    !p.disabled && (forall s, a :: s in pools && 0 <= a < |pools[s]| ==> pools[s][a].position == 0)
    && forall i :: 0 <= i < |turns| ==> Quiet(p, turns[i]) && turns[i].pick == turns[0].pick
  }

  ghost predicate Quiet(p: Plane, turn: Turn)
    requires p.Wired()
  {
    !turn.hook && turn.usable && p.NoneLate(turn.layerEnv) && forall s :: turn.blockEnv(s).Works()
  }

  /** Before token i of such a run. */
  ghost predicate Calm(p: Plane, c: Caches, live: set<nat>, last: map<nat, nat>, pools: Pools, turns: seq<Turn>, i: nat)
    requires p.Wired() && (forall j :: 0 <= j < |turns| ==> Picks(turns[j].pick, pools)) && i < |turns|
    reads p`disabled, p`directFallbacks, AllSlots(pools)
  {
    !p.disabled && Quiet(p, turns[i]) && pools.Keys == p.spans.Keys
    && (if i == 0 then live == {} && (forall s, a :: s in pools && 0 <= a < |pools[s]| ==> pools[s][a].position == 0)
        else live == p.LiveAfter(p.directFallbacks, false) && last == turns[i].pick)
  }

  lemma CalmStart(p: Plane, c: Caches, pools: Pools, turns: seq<Turn>)
    requires p.Wired() && Sized(p, pools) && forall i :: 0 <= i < |turns| ==> Picks(turns[i].pick, pools)
    requires Undisturbed(p, pools, turns)
    ensures turns != [] ==> Calm(p, c, {}, map[], pools, turns, 0)
  {
  }

  lemma CalmIsSteady(p: Plane, c: Caches, live: set<nat>, last: map<nat, nat>, pools: Pools, turns: seq<Turn>, i: nat)
    requires p.Wired() && (forall j :: 0 <= j < |turns| ==> Picks(turns[j].pick, pools)) && i < |turns|
    requires Calm(p, c, live, last, pools, turns, i)
    ensures Steady(p, Snapshot(p, c, live, last, pools), turns[i])
    ensures !p.disabled && p.NoneLate(turns[i].layerEnv)
  {
  }

  lemma CalmNext(p: Plane, c: Caches, pools: Pools, turns: seq<Turn>, i: nat)
    requires p.Wired() && (forall j :: 0 <= j < |turns| ==> Picks(turns[j].pick, pools)) && i + 1 < |turns|
    requires !p.disabled && pools.Keys == p.spans.Keys
    requires Quiet(p, turns[i]) && Quiet(p, turns[i + 1]) && turns[i].pick == turns[i + 1].pick
    ensures Calm(p, c, p.LiveAfter(p.directFallbacks, turns[i].hook), turns[i].pick, pools, turns, i + 1)
  {
  }

  /** One acquisition when the first section finds the pool as the second will. */
  function Acquire(pool: L.Pool): (L.Pool, L.Outcome) {
    var r := L.ScanOrGrow(pool, true);
    if r.1.Stalled? then L.ScanOrSteal(r.0) else r
  }

  /** The pool of a block after n tokens, and the slot that the next one is handed: `lends` says
      whether views hold their leases, which no pass gives back, or give them back at once. */
  function PoolAfter(depth: nat, lends: bool, n: nat): L.Pool {
    if n == 0 then L.Pool(depth, 0, [L.Slot(false, 0)])
    else
      var r := Acquire(PoolAfter(depth, lends, n - 1));
      if lends || !r.1.Leased? || r.1.slot >= |r.0.slots| then r.0 else L.Release(r.0, r.1.slot, r.1.lease)
  }

  /** Lease of slot j after n tokens that each kept their lease. */
  function LeaseOf(depth: nat, n: nat, j: nat): int
    requires depth > 0
  {
    n - n % depth + j + 1 - if j >= n % depth then depth else 0
  }

  ghost predicate Rotating(pool: L.Pool, depth: nat, n: nat)
    requires depth > 0
  {
    pool.depth == depth && pool.leaseSeq == n
    && (if n == 0 then pool.slots == [L.Slot(false, 0)]
        else if n < depth then |pool.slots| == n && forall j :: 0 <= j < n ==> pool.slots[j] == L.Slot(true, j + 1)
        else |pool.slots| == depth && forall j :: 0 <= j < depth ==>
               pool.slots[j].inUse && pool.slots[j].lease == LeaseOf(depth, n, j))
  }

  /** When views keep their leases, a block's slots are handed out in turn. */
  lemma {:induction false} LentSlotsRotate(depth: nat, n: nat)
    requires depth > 0
    ensures Rotating(PoolAfter(depth, true, n), depth, n)
    ensures var r := Acquire(PoolAfter(depth, true, n)).1;
      r.Leased? && r.slot == n % depth
  {
    if n > 0 {
      LentSlotsRotate(depth, n - 1);
      RotateOnce(PoolAfter(depth, true, n - 1), depth, n - 1);
    }
    RotateOnce(PoolAfter(depth, true, n), depth, n);
  }

  lemma NextMod(n: nat, d: nat)
    requires d > 0
    ensures (n + 1) % d == if n % d + 1 == d then 0 else n % d + 1
    ensures n % d < d && (n < d ==> n % d == n)
  {
    DivMod(n, d);
    if n % d + 1 == d {
      Spread(n / d, 1, d);
      Split(n / d + 1, d, 0);
    } else {
      Split(n / d, d, n % d + 1);
    }
    if n < d {
      Split(0, d, n);
    }
  }

  lemma RotateOnce(pool: L.Pool, depth: nat, n: nat)
    requires depth > 0 && Rotating(pool, depth, n)
    ensures var r := Acquire(pool);
      r.1.Leased? && r.1.slot == n % depth && Rotating(r.0, depth, n + 1)
  {
    NextMod(n, depth);
    if n > 0 {
      L.FirstFreeNone(pool.slots);
      if n >= depth {
        OldestInTurn(pool, depth, n);
      }
    }
  }

  lemma OldestInTurn(pool: L.Pool, depth: nat, n: nat)
    requires 0 < depth <= n && Rotating(pool, depth, n)
    ensures L.Oldest(pool.slots) == n % depth
  {
    var k := n % depth;
    assert pool.slots[k].lease == n + 1 - depth;
    assert forall j :: 0 <= j < depth && j != k ==> pool.slots[j].lease > n + 1 - depth;
  }

  /** When outputs are copied, every token is handed the first slot. */
  lemma {:induction false} CopiedSlotsStay(depth: nat, n: nat)
    requires depth > 0
    ensures var pool := PoolAfter(depth, false, n);
      pool.depth == depth && pool.slots == [L.Slot(false, n)] && pool.leaseSeq == n
      && Acquire(pool).1 == L.Leased(0, n + 1)
  {
    if n > 0 {
      CopiedSlotsStay(depth, n - 1);
    }
  }

  /** The slot of token n. */
  function SlotOf(depth: nat, lends: bool, n: nat): Option<nat> {
    var o := Acquire(PoolAfter(depth, lends, n)).1;
    if o.Leased? then Some(o.slot) else None
  }

  /** So a block is handed the same slot for every token exactly if outputs are copied or its
      pool has a single slot. */
  lemma SameSlotIff(depth: nat, lends: bool)
    requires depth > 0
    ensures (forall n: nat :: SlotOf(depth, lends, n) == Some(0)) <==> !lends || depth == 1
    ensures SlotOf(depth, lends, 0) == Some(0)
  {
    hide Acquire, PoolAfter;
    if lends {
      LentSlotsRotate(depth, 0);
      LentSlotsRotate(depth, 1);
      assert SlotOf(depth, lends, 1) == Some(1 % depth);
    } else {
      CopiedSlotsStay(depth, 0);
    }
    if !lends || depth == 1 {
      forall n: nat
        ensures SlotOf(depth, lends, n) == Some(0)
      {
        if lends {
          LentSlotsRotate(depth, n);
        } else {
          CopiedSlotsStay(depth, n);
        }
      }
    }
  }

  // ---- a block that is handed its slots in turn ------------------------------------------------

  /** The block at s is in use, works, and can be restored from caches of n rows. */
  ghost predicate Restorable(turn: Turn, s: nat, n: nat) {
    var env := turn.blockEnv(s);
    !turn.hook && env.Works() && env.stateOk && env.restoreOk && n <= env.maxSeqLen
  }

  /** The caches of the block at s hold what they held at first and, after n tokens, n zero rows. */
  ghost predicate ZerosAfter(p: Plane, first: Caches, c: Caches, s: nat, n: nat)
    requires s in p.spans
  {
    forall l :: s <= l < s + p.Size(s) ==>
      CacheAt(first, l).Some? && CacheAt(c, l) == Some(CacheAt(first, l).value + p.Zeros(n))
  }

  /** The rows that its layers see then. */
  ghost predicate SawZeros(p: Plane, first: Caches, t: Trail, s: nat, n: nat)
    requires s in p.spans
  {
    forall l :: s <= l < s + p.Size(s) ==>
      l < |t.steps| && t.steps[l].block && t.steps[l].rows == RowsAt(first, l) + p.Zeros(n)
  }

  /** A block in a slot that is behind its caches, or has nothing to see, is restored from them. */
  lemma RestoredFromCaches(p: Plane, first: Caches, c: Caches, s: nat, n: nat, m: nat, v: BlockState, env: BlockEnv)
    requires p.Wired() && s in p.spans && p.directBlock && env.Works() && env.stateOk && env.restoreOk
    requires ZerosAfter(p, first, c, s, n) && InStep(first, s, s + p.Size(s), m) && m + n <= env.maxSeqLen
    requires v.position < m + n || v.position == 0
    requires p.HasSize(v, p.Size(s))
    ensures forall given :: s !in given ==> p.GoesThrough(s, given, v.position, c, env)
    ensures Want(c, s, s + p.Size(s)) == m + n
    ensures var rows := Synced(v.position, v.rows, c, s, s + p.Size(s));
      |rows| == p.Size(s)
      && forall j :: 0 <= j < |rows| ==> rows[j] == RowsAt(first, s + j) + p.Zeros(n) && |rows[j]| == m + n
  {
    hide Refusing;
    var end := s + p.Size(s);
    NeverRefuses(c, s, end, env);
    forall l | s <= l < end
      ensures CacheAt(c, l).Some? && |CacheAt(c, l).value| == m + n
    {
      assert CacheAt(first, l).Some?;
    }
    assert Want(c, s, end) == m + n;
    var rows := Synced(v.position, v.rows, c, s, end);
    forall j | 0 <= j < p.Size(s)
      ensures |rows| == p.Size(s) && rows[j] == RowsAt(first, s + j) + p.Zeros(n) && |rows[j]| == m + n
    {
      assert CacheAt(first, s + j).Some?;
      assert CacheAt(c, s + j) == Some(CacheAt(first, s + j).value + p.Zeros(n));
      if m + n == 0 {
        assert RowsAt(first, s + j) + p.Zeros(n) == [];
      }
    }
  }

  /** What a pass makes of it: one more zero row in the caches. */
  lemma SeesZeros(p: Plane, first: Caches, found: Found, t: Trail, after: Caches, given: set<nat>,
      views: map<nat, BlockState>, s: nat, n: nat, m: nat, env: BlockEnv, x: H, out: H)
    requires p.Wired() && s in p.spans && s in found.views && s in views && p.directBlock && s !in found.given
    requires env.Works() && env.stateOk && env.restoreOk && m + n <= env.maxSeqLen
    requires ZerosAfter(p, first, t.before, s, n) && InStep(first, s, s + p.Size(s), m)
    requires var v := found.views[s];
      (v.position < m + n || v.position == 0) && p.HasSize(v, p.Size(s))
    requires p.Passed(x, t.before, after, out, t) && p.Outcome(found, t, given, false, views, s, env)
    ensures SawZeros(p, first, t, s, n) && ZerosAfter(p, first, after, s, n + 1)
    ensures s !in given && views[s].position == m + n + 1 && p.HasSize(views[s], p.Size(s))
  {
    hide Synced, Want, Plane.GoesThrough, Net.Compose, Net.Written, InStep, Plane.Seen, BlockEnv.Works;
    RestoredFromCaches(p, first, t.before, s, n, m, found.views[s], env);
    var rows := Synced(found.views[s].position, found.views[s].rows, t.before, s, s + p.Size(s));
    forall l | s <= l < s + p.Size(s)
      ensures l < |t.steps| && t.steps[l].block && t.steps[l].rows == RowsAt(first, l) + p.Zeros(n)
      ensures CacheAt(after, l) == Some(CacheAt(first, l).value + p.Zeros(n + 1))
    {
      assert t.steps[s + (l - s)].rows == rows[l - s];
      assert CacheAt(t.before, l).Some? && t.extra[l] == 0;
      OneMoreZero(p, CacheAt(first, l).value, n);
    }
  }

  lemma OneMoreZero(p: Plane, rows: seq<Row>, n: nat)
    ensures rows + p.Zeros(n) + p.Zeros(0) + [p.net.zeroRow] == rows + p.Zeros(n + 1)
  {
  }

  /** The slots of a block before token n: none is ahead of the caches, and only the one that was
      handed out last can be level with them, once there is anything in them. */
  ghost predicate Behind(slots: seq<BlockState>, n: nat, m: nat) {
    forall a :: 0 <= a < |slots| ==>
      slots[a].position == 0 || slots[a].position < m + n
      || (slots[a].position == m + n && n > 0 && a == (n - 1) % |slots|)
  }

  lemma BehindNow(slots: seq<BlockState>, n: nat, m: nat, a: nat)
    requires |slots| > 1 && a == n % |slots| && Behind(slots, n, m)
    ensures a < |slots| && (slots[a].position == 0 || slots[a].position < m + n)
  {
    NextMod(n, |slots|);
    if n > 0 {
      NextMod(n - 1, |slots|);
    }
  }

  lemma BehindNext(slots: seq<BlockState>, next: seq<BlockState>, n: nat, m: nat)
    requires |next| == |slots| > 1 && Behind(slots, n, m) && 0 <= n % |next| < |next|
    requires forall a :: 0 <= a < |next| && a != n % |next| ==> next[a] == slots[a]
    requires next[n % |next|].position == m + n + 1
    ensures Behind(next, n + 1, m)
  {
  }

  /** Before token n of a run from `first` in which the block at s is handed its slots in turn. */
  ghost predicate InTurn(p: Plane, first: Caches, now: Moment, s: nat, n: nat, m: nat)
    requires s in p.spans
  {
    s in now.slots && |now.slots[s]| > 1 && Behind(now.slots[s], n, m) && s !in now.given
    && (forall a :: 0 <= a < |now.slots[s]| ==> p.HasSize(now.slots[s][a], p.Size(s)))
    && ZerosAfter(p, first, now.c, s, n) && InStep(first, s, s + p.Size(s), m)
  }

  /** The token takes the run on, and the block sees zeros for all that the run has written. */
  lemma TokenInTurn(p: Plane, first: Caches, now: Moment, turn: Turn, t: Trail, next: Moment, out: H, s: nat, n: nat,
      m: nat)
    requires p.Wired() && p.directBlock && s in p.spans && InTurn(p, first, now, s, n, m)
    requires Took(p, now, turn, t, next, out) && Restorable(turn, s, m + n)
    requires s in turn.pick && turn.pick[s] == n % |now.slots[s]|
    ensures SawZeros(p, first, t, s, n) && InTurn(p, first, next, s, n + 1, m)
  {
    hide Plane.Passed, Plane.Recounted, SawZeros, ZerosAfter, InStep, Plane.NoneLate, BlockEnv.Works, Plane.Outcome;
    hide Behind;
    BehindNow(now.slots[s], n, m, turn.pick[s]);
    PassedAll(p, turn.x, t, now.c, next.c, out);
    p.WholePass(now.Find(turn.pick), t, next.given, false, next.Handed(turn.pick), turn.blockEnv, s);
    SeesZeros(p, first, now.Find(turn.pick), t, next.c, next.given, next.Handed(turn.pick), s, n, m, turn.blockEnv(s),
      turn.x, out);
    BehindNext(now.slots[s], next.slots[s], n, m);
  }

  lemma PassedAll(p: Plane, x: H, t: Trail, before: Caches, after: Caches, out: H)
    requires p.Passed(x, before, after, out, t)
    ensures t.before == before && |t.steps| == p.numLayers
  {
  }

  /** The block at s has more than one slot, all unused, and caches of m rows. */
  ghost predicate Fresh(p: Plane, first: Moment, s: nat, m: nat)
    requires s in p.spans
  {
    s in first.slots && |first.slots[s]| > 1 && s !in first.given
    && (forall a :: 0 <= a < |first.slots[s]| ==>
          first.slots[s][a].position == 0 && p.HasSize(first.slots[s][a], p.Size(s)))
    && forall l :: s <= l < s + p.Size(s) ==> CacheAt(first.c, l).Some? && |CacheAt(first.c, l).value| == m
  }

  /** Every token is handed the slot of s that a pool hands out whose leases views keep. */
  ghost predicate TakesTurns(turns: seq<Turn>, depth: nat, s: nat, m: nat) {
    forall i :: 0 <= i < |turns| ==>
      Restorable(turns[i], s, m + i) && s in turns[i].pick && SlotOf(depth, true, i) == Some(turns[i].pick[s])
  }

  lemma FreshInTurn(p: Plane, first: Moment, s: nat, m: nat)
    requires s in p.spans && Fresh(p, first, s, m)
    ensures InTurn(p, first.c, first, s, 0, m)
  {
    forall l | s <= l < s + p.Size(s)
      ensures CacheAt(first.c, l) == Some(CacheAt(first.c, l).value + p.Zeros(0))
    {
      assert CacheAt(first.c, l).value + p.Zeros(0) == CacheAt(first.c, l).value;
    }
  }

  /** The other half of `Decode`. While views keep their leases and a block has more than one slot, its
      layers never see a row that the run has written: for each they see a zero row, and zero rows
      are what their caches come to hold. */
  lemma RunInTurn(p: Plane, moments: seq<Moment>, turns: seq<Turn>, trails: seq<Trail>, outs: seq<H>, s: nat, m: nat)
    requires p.Wired() && p.directBlock && s in p.spans && Follow(p, moments, turns, trails, outs)
    requires Fresh(p, moments[0], s, m) && TakesTurns(turns, |moments[0].slots[s]|, s, m)
    ensures forall i :: 0 <= i < |outs| ==> SawZeros(p, moments[0].c, trails[i], s, i)
    ensures ZerosAfter(p, moments[0].c, moments[|outs|].c, s, |outs|)
  {
    FreshInTurn(p, moments[0], s, m);
    RunsInTurn(p, moments, turns, trails, outs, s, m, |outs|);
  }

  lemma {:induction false} RunsInTurn(p: Plane, moments: seq<Moment>, turns: seq<Turn>, trails: seq<Trail>,
      outs: seq<H>, s: nat, m: nat, k: nat)
    requires p.Wired() && p.directBlock && s in p.spans && Follow(p, moments, turns, trails, outs) && k <= |outs|
    requires InTurn(p, moments[0].c, moments[0], s, 0, m)
    requires TakesTurns(turns, |moments[0].slots[s]|, s, m)
    ensures forall i :: 0 <= i < k ==> SawZeros(p, moments[0].c, trails[i], s, i)
    ensures InTurn(p, moments[0].c, moments[k], s, k, m) && |moments[k].slots[s]| == |moments[0].slots[s]|
    decreases k
  {
    hide SawZeros, Plane.Passed, Plane.Recounted, ZerosAfter, InStep, Behind, Restorable, SlotOf;
    if k > 0 {
      var n := k - 1;
      RunsInTurn(p, moments, turns, trails, outs, s, m, n);
      assert Took(p, moments[n], turns[n], trails[n], moments[n + 1], outs[n]);
      SlotIs(|moments[0].slots[s]|, n);
      TokenInTurn(p, moments[0].c, moments[n], turns[n], trails[n], moments[k], outs[n], s, n, m);
    }
  }

  lemma SlotIs(depth: nat, n: nat)
    requires depth > 0
    ensures SlotOf(depth, true, n) == Some(n % depth)
  {
    hide Acquire, PoolAfter;
    LentSlotsRotate(depth, n);
  }

  lemma TwoTokens(net: Net, x: H, y: H)
    ensures Outputs(net, [[]], [x, y])
      == [net.head(net.Layer(0, [], x)), net.head(net.Layer(0, [net.RowOf(0, 0, x)], y))]
  {
    hide Net.Layer, Net.RowOf;
    var hist: seq<seq<Row>> := [[]];
    var row := net.RowOf(0, 0, x);
    assert [x, y][..1] == [x] && [x][..0] == [] && hist[..0] == [];
    assert net.Written(0, hist, x) == [row] && hist[0] + [row] == [row];
    assert net.Grown(0, hist, x) == [[row]];
    assert History(net, hist, [x]) == [[row]] && [[row]][..0] == [];
    assert net.Compose(0, hist, x) == net.Layer(0, [], x);
    assert net.Compose(0, [[row]], y) == net.Layer(0, [row], y);
    assert Outputs(net, hist, [x]) == [net.head(net.Layer(0, [], x))];
  }

  /** A token on a plane whose only layer is a block. */
  method BlockToken(p: Plane, c: array<Option<seq<Row>>>, slot: DirectSlot, x: H, env: BlockEnv)
    returns (logits: H)
    requires p.numLayers == 1 && p.directBlock && p.spans == map[0 := Span(0, 0, [0])] && p.Wired()
    requires p.directFallbacks == {} && slot.Valid(1) && c.Length == 1 && env.Works()
    requires CanSync(slot.position, c[..], 0, 1, env)
    modifies p`directFallbacks, p`held, c, slot
    ensures p.directFallbacks == {} && slot.Valid(1) && slot.position == old(Want(c[..], 0, 1)) + 1
    ensures var rows := old(Synced(slot.position, slot.state, c[..], 0, 1));
      |rows| == 1 && logits == p.net.head(p.net.Layer(0, rows[0], x))
    ensures c[0] == if old(c[0]).None? then None else Some(old(c[0]).value + [p.net.zeroRow])
  {
    hide Net.Layer, Net.RowOf, Refusing, Want, Synced, CanSync, InStep;
    ghost var before := c[..];
    NeverRefuses(before, 0, 1, env);
    var out, last, views := p.DirectBlockOutput(0, x, c, slot, env);
    logits := p.net.head(out.value);
    assert Bumped(before, c[..], 0, 1, p.net.zeroRow) && c[..][0] == c[0];
    ghost var rows := old(Synced(slot.position, slot.state, c[..], 0, 1));
    assert rows[..0] == [] && rows[..1] == rows;
  }

  /** What another slot does to the second token of a run: the block is restored from its
      caches, and those hold the zero row that the first token left there. The logits are not
      those over the row that it wrote, for any model that tells the two apart. */
  method RestoredFromZeros(net: Net, x: H, y: H) returns (first: H, second: H)
    ensures first == net.head(net.Layer(0, [], x))
    ensures second == net.head(net.Layer(0, [net.zeroRow], y))
    ensures Outputs(net, [[]], [x, y])
      == [net.head(net.Layer(0, [], x)), net.head(net.Layer(0, [net.RowOf(0, 0, x)], y))]
  {
    hide Net.Layer, Net.RowOf, Outputs;
    var p := new Plane(net, [false], false, true, Plain, map[0 := Span(0, 0, [0])]);
    var c := new Option<seq<Row>>[1](_ => Some([]));
    var a := new DirectSlot(1);
    var b := new DirectSlot(1);
    var env := BlockEnv(true, true, true, true, true, true, true, true, true, true, true, l => true, true, 8, 1);
    first := BlockToken(p, c, a, x, env);
    assert [] + [net.zeroRow] == [net.zeroRow];
    second := BlockToken(p, c, b, y, env);
    TwoTokens(net, x, y);
  }

  /** In numbers, with a model that gives a hundred times the sum of the tokens it has seen: after 10
      and 20 the sum is 30, but a block that is restored from its caches for the second token has
      forgotten the 10. */
  method RestoredFromZerosCounts() returns (first: H, second: H)
    ensures first == 1000 && second == 2000
    ensures Outputs(Adder(), [[]], [10, 20]) == [1000, 3000]
  {
    hide Outputs;
    first, second := RestoredFromZeros(Adder(), 10, 20);
    assert [Adder().zeroRow][..0] == [] && Total([0]) == 0;
    assert [Adder().RowOf(0, 0, 10)][..0] == [] && Total([10]) == 10;
  }
}
