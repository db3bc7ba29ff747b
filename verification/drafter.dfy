/** The speculative drafter and its three ways of rewinding
    (anedraftimpl/ane_draft_darwin.go, draft_model_darwin.go).

    Surface contents, KV rows, caches and logits are opaque values; what the compiled
    model and the reference model compute on them is an arbitrary `Net`. */
module Drafting {

  import opened Options
  import K = KVLog

  type MilState = nat      // contents of the stateful MIL surfaces
  type Row = K.Entry       // one K/V row
  type Cache = nat         // the reference model's cache
  type Logits = nat

  datatype Backend = ReferenceModel | Stateful | Positional

  datatype Net = Net(
    mil0: MilState, milStep: (MilState, int) -> MilState, milOut: (MilState, int) -> Logits,
    kvRow: (seq<Row>, int) -> Row, kvOut: (seq<Row>, int) -> Logits,
    cache0: Cache, cacheStep: (Cache, int) -> Cache, cacheOut: (Cache, int) -> Logits, cacheTrim: (Cache, nat) -> Cache,
    pick: Logits -> int)
  {
    /** Replay of a token history from reset, for each kind of state. */
    ghost function Mil(h: seq<int>): MilState {
      if h == [] then mil0 else milStep(Mil(h[..|h| - 1]), h[|h| - 1])
    }

    ghost function Rows(h: seq<int>): (r: seq<Row>)
      ensures |r| == |h|
    {
      if h == [] then [] else Rows(h[..|h| - 1]) + [kvRow(Rows(h[..|h| - 1]), h[|h| - 1])]
    }

    ghost function CacheOf(h: seq<int>): Cache {
      if h == [] then cache0 else cacheStep(CacheOf(h[..|h| - 1]), h[|h| - 1])
    }

    /** The logits a backend gives after a history. */
    ghost function Out(b: Backend, h: seq<int>): Logits
      requires h != []
    {
      var p, t := h[..|h| - 1], h[|h| - 1];
      match b
      case ReferenceModel => cacheOut(CacheOf(p), t)
      case Stateful => milOut(Mil(p), t)
      case Positional => kvOut(Rows(p), t)
    }

    /** One token more, for each kind of state: it is stepped from the state before it, which is
        also what its logits come from. */
    lemma ReplayOneMore(h: seq<int>, token: int)
      ensures Mil([]) == mil0 && Mil(h + [token]) == milStep(Mil(h), token)
      ensures Rows([]) == [] && Rows(h + [token]) == Rows(h) + [kvRow(Rows(h), token)]
      ensures CacheOf([]) == cache0 && CacheOf(h + [token]) == cacheStep(CacheOf(h), token)
      ensures Out(Stateful, h + [token]) == milOut(Mil(h), token)
      ensures Out(Positional, h + [token]) == kvOut(Rows(h), token)
      ensures Out(ReferenceModel, h + [token]) == cacheOut(CacheOf(h), token)
    {
      assert (h + [token])[..|h|] == h;
    }

    /** The tokens are what the backend picks greedily after `base`, one after the other. */
    ghost predicate Greedy(b: Backend, base: seq<int>, out: seq<int>) {
      base != [] && forall i :: 0 <= i < |out| ==> out[i] == pick(Out(b, base + out[..i]))
    }

    lemma GreedyStart(b: Backend, base: seq<int>)
      requires base != []
      ensures Greedy(b, base, []) && base + [] == base
    {
    }

    lemma GreedyStep(b: Backend, base: seq<int>, out: seq<int>, token: int)
      requires Greedy(b, base, out) && token == pick(Out(b, base + out))
      ensures Greedy(b, base, out + [token]) && base + out + [token] == base + (out + [token])
    {
      hide Out;
      assert out == (out + [token])[..|out|];
      assert forall j :: 0 <= j < |out| ==> out[..j] == (out + [token])[..j];
    }

    /** What a trimmable KV cache promises: cutting back equals never having gone on. */
    ghost predicate TrimsWell() {
      forall h: seq<int>, k: nat :: k <= |h| ==> cacheTrim(CacheOf(h), k) == CacheOf(h[..k])
    }

    /** Cutting rows off a KV log is the log of the shorter history. */
    lemma {:induction false} RowsPrefix(h: seq<int>, k: nat)
      requires k <= |h|
      ensures Rows(h)[..k] == Rows(h[..k])
      decreases |h|
    {
      if k < |h| {
        RowsPrefix(h[..|h| - 1], k);
        assert h[..|h| - 1][..k] == h[..k];
      } else {
        assert h[..k] == h;
      }
    }
  }

  datatype Snapshot = Snapshot(decodePos: nat, mil: MilState)

  /** `ANEDraftModel`, either stateful MIL (opaque state, no position rewind) or a
      position-indexed KV runtime (no snapshots). */
  class DraftModel {
    const net: Net
    const stateful: bool
    const maxSeqLen: nat
    var decodePos: nat
    var mil: MilState
    var rows: seq<Row>            // K/V rows below the KV position
    var written: Option<Row>      // row written at the KV position, not yet advanced

    ghost predicate At(h: seq<int>)
      reads this
    {
      decodePos == |h| && written == None
      && if stateful then mil == net.Mil(h) else rows == net.Rows(h) && |h| <= maxSeqLen
    }

    constructor (net: Net, stateful: bool, maxSeqLen: nat)
      ensures this.net == net && this.stateful == stateful && this.maxSeqLen == maxSeqLen && At([])
    {
      this.net, this.stateful, this.maxSeqLen := net, stateful, maxSeqLen;
      decodePos, mil, rows, written := 0, net.mil0, [], None;
    }

    method Reset()
      modifies this
      ensures written == old(written) && (written == None ==> At([]))
    {
      mil := net.mil0;
      decodePos := 0;
      rows := [];
    }

    method EvalToken(token: int) returns (logits: Option<Logits>)
      modifies this`mil, this`written
      ensures logits.Some? <==> stateful || |rows| < maxSeqLen
      ensures logits.None? ==> unchanged(this)
      ensures logits.Some? && stateful ==>
        logits.value == net.milOut(old(mil), token) && mil == net.milStep(old(mil), token) && written == old(written)
      ensures logits.Some? && !stateful ==>
        logits.value == net.kvOut(rows, token) && mil == old(mil) && written == Some(net.kvRow(rows, token))
    {
      if stateful {
        logits := Some(net.milOut(mil, token));
        mil := net.milStep(mil, token);
      } else if |rows| < maxSeqLen {
        logits := Some(net.kvOut(rows, token));
        written := Some(net.kvRow(rows, token));
      } else {
        logits := None;
      }
    }

    method AdvanceDecodePosition()
      requires !stateful ==> written.Some? && |rows| < maxSeqLen
      modifies this`decodePos, this`rows, this`written
      ensures decodePos == old(decodePos) + 1
      ensures if stateful then rows == old(rows) && written == old(written)
              else rows == old(rows) + [old(written).value] && written == None
    {
      if !stateful {
        rows := rows + [written.value];
        written := None;
      }
      decodePos := decodePos + 1;
    }

    method SnapshotDecodeState() returns (snap: Option<Snapshot>)
      ensures snap == if stateful then Some(Snapshot(decodePos, mil)) else None
    {
      snap := if stateful then Some(Snapshot(decodePos, mil)) else None;
    }

    method RestoreDecodeState(snap: Snapshot) returns (ok: bool)
      modifies this`decodePos, this`mil
      ensures ok <==> stateful
      ensures if ok then decodePos == snap.decodePos && mil == snap.mil else unchanged(this)
    {
      ok := stateful;
      if ok {
        decodePos, mil := snap.decodePos, snap.mil;
      }
    }

    /** KV runtimes move back and drop the rows; stateful ones cannot. */
    method RewindDecodePosition(n: nat) returns (ok: bool)
      requires n > 0
      modifies this`decodePos, this`rows
      ensures ok <==> !stateful
      ensures !ok ==> unchanged(this)
      ensures ok ==> decodePos == if n >= old(decodePos) then 0 else old(decodePos) - n
      ensures ok ==> rows == if n >= |old(rows)| then [] else old(rows)[..|old(rows)| - n]
    {
      if stateful {
        return false;
      }
      rows := if n >= |rows| then [] else rows[..|rows| - n];
      decodePos := if n >= decodePos then 0 else decodePos - n;
      ok := true;
    }
  }

  /** `aneDraftReferenceRunner`. */
  class Reference {
    const net: Net
    const trims: bool
    var cache: Cache
    var history: seq<int>

    ghost predicate At(h: seq<int>)
      reads this
    {
      history == h && cache == net.CacheOf(h)
    }

    constructor (net: Net, trims: bool)
      ensures this.net == net && this.trims == trims && At([])
    {
      this.net, this.trims := net, trims;
      cache, history := net.cache0, [];
    }

    method Reset()
      modifies this
      ensures At([])
    {
      cache, history := net.cache0, [];
    }

    method Step(token: int) returns (logits: Logits)
      modifies this
      ensures logits == net.cacheOut(old(cache), token)
      ensures cache == net.cacheStep(old(cache), token) && history == old(history) + [token]
    {
      logits := net.cacheOut(cache, token);
      cache := net.cacheStep(cache, token);
      history := history + [token];
    }

    method Replay(h: seq<int>) returns (last: Option<Logits>)
      requires At([])
      modifies this
      ensures At(h) && last == if h == [] then None else Some(net.Out(ReferenceModel, h))
    {
      last := None;
      for i := 0 to |h|
        invariant At(h[..i]) && last == if i == 0 then None else Some(net.Out(ReferenceModel, h[..i]))
      {
        assert h[..i + 1][..i] == h[..i] && h[..i] + [h[i]] == h[..i + 1];
        var logits := Step(h[i]);
        last := Some(logits);
      }
      assert h[..|h|] == h;
    }

    /** Drops the last n tokens: by trimming the cache, or by a replay, which fails
        part of the way when `replays` is false. */
    method Rewind(n: nat, replays: bool) returns (ok: bool)
      requires At(history) && (trims ==> net.TrimsWell())
      modifies this
      ensures ok <==> trims || replays || n == 0 || n >= |old(history)|
      ensures ok ==> At(if n >= |old(history)| then [] else old(history)[..|old(history)| - n])
    {
      if n == 0 || history == [] {
        assert history[..|history|] == history;
        return true;
      }
      if n >= |history| {
        Reset();
        return true;
      }
      var target := |history| - n;
      var remaining := history[..target];
      if trims {
        cache, history := net.cacheTrim(cache, target), remaining;
        return true;
      }
      Reset();
      if !replays {
        return false;
      }
      var _ := Replay(remaining);
      ok := true;
    }
  }

  /** A speculation round as its caller sees it: draft n tokens after `lastToken`, of which the
      target keeps `kept`. What the surroundings contribute: the draft steps whose snapshot
      fails, whether a reference replay succeeds and whether the width cap applies. */
  datatype Turn = Turn(lastToken: int, n: int, kept: nat, missed: set<nat>, replays: bool, cap: bool)

  /** What decides how a drafter goes on: its history, whether the logits of its last token are
      at hand, how many snapshots it has, and what the guard counts. */
  datatype Standing = Standing(history: seq<int>, atHand: bool, snapshots: nat,
    drafted: nat, rewound: nat, corrections: nat, referenceOnly: bool)

  datatype Call = Prompt(ids: seq<int>) | Round(turn: Turn) | Forget(back: nat, replays: bool) | StartOver

  /** The last t snapshots belong to the last t tokens of a history of n. */
  predicate Covers(snaps: seq<Snapshot>, n: nat, t: nat) {
    t <= |snaps| && t <= n
    && forall j :: |snaps| - t <= j < |snaps| ==> snaps[j].decodePos == n - |snaps| + j
  }

  lemma CoversMore(snaps: seq<Snapshot>, n: nat, more: seq<Snapshot>, t: nat)
    requires |more| == |snaps| + 1 && snaps == more[..|snaps|] && more[|snaps|].decodePos == n
    ensures Covers(snaps, n, t) ==> Covers(more, n + 1, t + 1)
  {
  }

  /** How many of the first n snapshots were not missed. */
  function Captured(n: nat, missed: set<nat>): nat {
    if n == 0 then 0 else Captured(n - 1, missed) + if n - 1 in missed then 0 else 1
  }

  class Drafter {
    const model: DraftModel?
    const reference: Reference?
    const net: Net
    const useRefLogits: bool
    const autoRefGuard: bool
    const preferReferenceOnly: bool
    const directModelIR: bool
    const taps: bool
    var referenceOnly: bool
    var guardTriggered: bool
    var draftedCount: nat
    var rewoundCount: nat
    var stateCorrections: nat
    var modelSnapshots: seq<Snapshot>
    var history: seq<int>
    var lastLogits: Option<Logits>

    ghost function Repr(): set<object>
      reads this
    {
      {this} + (if model == null then {} else {model as object})
      + (if reference == null then {} else {reference as object})
    }

    /** The wiring fixed when the drafter is built. */
    ghost predicate Wired()
      reads this, Repr()
    {
      && (model != null ==> model.net == net)
      && (reference != null ==> reference.net == net && (reference.trims ==> net.TrimsWell()))
      && (preferReferenceOnly || useRefLogits || autoRefGuard ==> reference != null)
      && (referenceOnly ==> reference != null)
      && (preferReferenceOnly ==> referenceOnly)
      && (model == null ==> preferReferenceOnly)
      && (model == null || !directModelIR || !model.stateful ==> modelSnapshots == [])
    }

    predicate Shadowed()
      reads this
    {
      reference != null && (referenceOnly || useRefLogits || taps)
    }

    /** The backend whose logits are used. */
    function Active(): Backend
      reads this
    {
      if referenceOnly || useRefLogits || model == null then ReferenceModel
      else if model.stateful then Stateful else Positional
    }

    /** Snapshots are states on the path of the history, in the order of their positions. */
    ghost predicate SnapshotsOk(h: seq<int>)
      reads this
    {
      && (forall j :: 0 <= j < |modelSnapshots| ==>
            modelSnapshots[j].decodePos <= |h|
            && modelSnapshots[j].mil == net.Mil(h[..modelSnapshots[j].decodePos]))
      && (forall i, j :: 0 <= i < j < |modelSnapshots| ==> modelSnapshots[i].decodePos <= modelSnapshots[j].decodePos)
    }

    /** The active backend (and a shadowing reference) is where a replay of `history`
        from reset would put it, and `lastLogits`, if any, belong to that state. */
    ghost predicate InSync()
      reads this, Repr()
    {
      && (!referenceOnly && model != null ==> model.At(history))
      && (Shadowed() && reference != null ==> reference.At(history))
      && (lastLogits.Some? ==> history != [] && lastLogits.value == net.Out(Active(), history))
    }

    ghost predicate Valid()
      reads this, Repr()
    {
      && Wired() && InSync() && (!referenceOnly ==> SnapshotsOk(history))
      && (model != null ==> model.written == None)
    }

    /** The check a caller can make before Rewind(n): the snapshot it would restore, if it
        would restore one, was taken n tokens ago. */
    predicate CanRewind(n: nat)
      reads this
    {
      var k := if n < |history| then n else |history|;
      k == 0 || referenceOnly || |modelSnapshots| < k || modelSnapshots[|modelSnapshots| - k].decodePos == |history| - k
    }

    /** Rewind(n) will replay everything: it has neither snapshots nor positions to go back by,
        or the reference that shadows it can neither trim its cache nor replay. */
    predicate Rebuilds(n: nat, replays: bool)
      reads this
    {
      RebuildsIn(Now(), n, replays)
    }

    /** The last t tokens of the history were drafted, each with a snapshot. */
    predicate Covered(t: nat)
      reads this
    {
      Covers(modelSnapshots, |history|, t)
    }

    constructor (model: DraftModel?, reference: Reference?, net: Net, useRefLogits: bool, autoRefGuard: bool,
                 preferReferenceOnly: bool, directModelIR: bool, taps: bool)
      requires model != null ==> model.net == net && model.At([])
      requires reference != null ==> reference.net == net && reference.At([]) && (reference.trims ==> net.TrimsWell())
      requires preferReferenceOnly || useRefLogits || autoRefGuard ==> reference != null
      requires model == null ==> preferReferenceOnly
      ensures Valid() && history == [] && lastLogits == None && modelSnapshots == []
      ensures this.model == model && this.reference == reference && this.net == net
      ensures this.useRefLogits == useRefLogits && this.preferReferenceOnly == preferReferenceOnly
      ensures this.directModelIR == directModelIR && this.taps == taps && this.autoRefGuard == autoRefGuard
    {
      this.model, this.reference, this.net := model, reference, net;
      this.useRefLogits, this.autoRefGuard, this.preferReferenceOnly := useRefLogits, autoRefGuard, preferReferenceOnly;
      this.directModelIR, this.taps := directModelIR, taps;
      referenceOnly, guardTriggered := preferReferenceOnly, false;
      draftedCount, rewoundCount, stateCorrections := 0, 0, 0;
      modelSnapshots, history, lastLogits := [], [], None;
    }

    method FeedReference(token: int)
      requires Valid() && referenceOnly
      modifies this`history, this`lastLogits, reference
      ensures Valid() && history == old(history) + [token] && lastLogits.Some?
    {
      assert (history + [token])[..|history|] == history;
      var refLogits := reference.Step(token);
      history, lastLogits := history + [token], Some(refLogits);
    }

    /** A shadowing reference takes the same token; its logits win if so configured. */
    method ShadowStep(token: int, own: Logits) returns (logits: Logits)
      requires Wired() && (Shadowed() && reference != null ==> reference.At(history))
      modifies reference
      ensures Shadowed() && reference != null ==> reference.At(history + [token])
      ensures logits == if useRefLogits then net.Out(ReferenceModel, history + [token]) else own
    {
      logits := own;
      if Shadowed() {
        assert (history + [token])[..|history|] == history;
        var refLogits := reference.Step(token);
        if useRefLogits {
          logits := refLogits;
        }
      }
    }

    /** Evaluates a token on the compiled model, with the reference in its shadow. */
    method FeedModel(token: int) returns (ok: bool)
      requires Valid() && !referenceOnly
      modifies this`history, this`lastLogits, model, reference
      ensures Valid()
      ensures ok <==> model.stateful || |old(history)| < model.maxSeqLen
      ensures if ok then history == old(history) + [token] && lastLogits.Some?
              else history == old(history) && lastLogits == old(lastLogits)
    {
      ghost var h := history;
      assert (h + [token])[..|h|] == h;
      assert forall k :: 0 <= k <= |h| ==> (h + [token])[..k] == h[..k];
      var out := model.EvalToken(token);
      if out == None {
        return false;
      }
      var logits := ShadowStep(token, out.value);
      model.AdvanceDecodePosition();
      history, lastLogits := history + [token], Some(logits);
      ok := true;
    }

    method FeedToken(token: int) returns (ok: bool)
      requires Valid()
      modifies this`history, this`lastLogits, model, reference
      ensures Valid()
      ensures ok <==> referenceOnly || model == null || model.stateful || |old(history)| < model.maxSeqLen
      ensures if ok then history == old(history) + [token] && lastLogits.Some?
              else history == old(history) && lastLogits == old(lastLogits)
      // whose logits these are
      ensures ok && (referenceOnly || useRefLogits) ==>
        lastLogits == Some(net.cacheOut(net.CacheOf(old(history)), token))
      ensures ok && !referenceOnly && !useRefLogits && model != null ==>
        lastLogits == Some(if model.stateful then net.milOut(net.Mil(old(history)), token)
                           else net.kvOut(net.Rows(old(history)), token))
    {
      net.ReplayOneMore(history, token);
      hide Net.Mil, Net.Rows, Net.CacheOf, Net.Out;
      if referenceOnly {
        FeedReference(token);
        ok := true;
      } else {
        ok := FeedModel(token);
      }
    }

    /** The history ends in the token and its logits are at hand. */
    predicate AtToken(token: int)
      reads this
    {
      history != [] && history[|history| - 1] == token && lastLogits.Some?
    }

    method EnsureTokenState(token: int) returns (ok: bool)
      requires Valid()
      modifies this`history, this`lastLogits, this`stateCorrections, model, reference
      ensures Valid()
      ensures ok ==> lastLogits.Some? && history != [] && history[|history| - 1] == token
      ensures ok ==> history == if old(AtToken(token)) then old(history) else old(history) + [token]
      ensures stateCorrections == old(stateCorrections) + if old(history) != [] && !old(AtToken(token)) then 1 else 0
      ensures !ok ==> history == old(history) && Full()
      ensures ok && old(history) != [] && old(history)[|old(history)| - 1] == token && old(lastLogits).Some? ==>
        history == old(history)
      ensures ok && (old(history) == [] || old(history)[|old(history)| - 1] != token || old(lastLogits).None?) ==>
        history == old(history) + [token]
    {
      hide Net.Mil, Net.Rows, Net.CacheOf, Net.Out, GuardFires;
      if history != [] && history[|history| - 1] == token && lastLogits.Some? {
        return true;
      }
      if history != [] {
        stateCorrections := stateCorrections + 1;
      }
      ok := FeedToken(token);
    }

    /** The KV log of the active compiled model has no room for another token. */
    ghost predicate Full()
      reads this, Repr()
    {
      !referenceOnly && model != null && !model.stateful && |history| >= model.maxSeqLen
    }

    method SyncReferenceState()
      requires reference != null && reference.net == net
      modifies this`lastLogits, reference
      ensures reference.At(history)
      ensures lastLogits == if history == [] then None else Some(net.Out(ReferenceModel, history))
    {
      reference.Reset();
      lastLogits := reference.Replay(history);
    }

    /** Hands the run over to the reference model for good, once the drafts prove poor. */
    method MaybeEnableReferenceOnly()
      requires Valid()
      modifies this`referenceOnly, this`guardTriggered, this`lastLogits, reference
      ensures Valid()
      ensures referenceOnly <==> old(referenceOnly) || old(GuardFires())
      ensures !old(GuardFires()) ==> lastLogits == old(lastLogits)
      ensures old(GuardFires()) ==> (lastLogits.Some? <==> history != [])
      // by the counts: without a guard, or with reference logits anyway, nothing changes; two
      // corrections are enough; otherwise it takes eight drafts of which fewer than one in twenty
      // was kept
      ensures old(referenceOnly) || !autoRefGuard || useRefLogits ==> referenceOnly == old(referenceOnly)
      ensures !old(referenceOnly) && autoRefGuard && !useRefLogits ==>
        (referenceOnly <==>
           stateCorrections >= 2 || (draftedCount >= 8 && 20 * (draftedCount - rewoundCount) < draftedCount))
      ensures referenceOnly && !old(referenceOnly) && stateCorrections < 2 ==> draftedCount >= 8 && rewoundCount > 0
      ensures !old(referenceOnly) && autoRefGuard && !useRefLogits ==>
        (draftedCount >= 8 && rewoundCount >= draftedCount ==> referenceOnly)
    {
      if !autoRefGuard || referenceOnly || reference == null || useRefLogits {
        return;
      }
      if stateCorrections < 2 {
        if draftedCount < 8 {
          return;
        }
        var accepted := if rewoundCount > draftedCount then 0 else draftedCount - rewoundCount;
        if 20 * accepted >= draftedCount {
          return;
        }
      }
      SyncReferenceState();
      referenceOnly := true;
      guardTriggered := true;
    }

    /** The guard would hand over to the reference model now. */
    predicate GuardFires()
      reads this
    {
      GuardIn(Now())
    }

    /** The more drafts are rewound, the sooner the guard hands over. */
    lemma MoreRewoundFiresToo(s: Standing, n: nat)
      ensures GuardIn(s) ==> GuardIn(s.(rewound := s.rewound + n))
    {
    }

    /** At the boundary: one draft kept of twenty is enough, one of twenty-one is not. */
    lemma GuardBoundary(s: Standing)
      requires autoRefGuard && !s.referenceOnly && !useRefLogits && s.corrections < 2
      ensures !GuardIn(s.(drafted := 20, rewound := 19)) && GuardIn(s.(drafted := 21, rewound := 20))
      ensures !GuardIn(s.(drafted := 7, rewound := 7)) && GuardIn(s.(drafted := 8, rewound := 8))
      ensures !GuardIn(s.(rewound := 0)) && GuardIn(s.(corrections := 2))
    {
    }

    /** The same once n more tokens have been rewound. */
    predicate GuardFiresAfter(n: nat)
      reads this
    {
      GuardIn(Now().(rewound := rewoundCount + n))
    }

    /** A draft after this token will take it for the last one it was fed, and not feed it. */
    predicate Settled(token: int)
      reads this
    {
      SettledIn(Now(), token)
    }

    /** What a draft after this token continues. */
    function Base(token: int): seq<int>
      reads this
    {
      BaseIn(Now(), token)
    }

    // ---- as functions of the standing ---------------------------------------------------------

    function Now(): Standing
      reads this
    {
      Standing(history, lastLogits.Some?, |modelSnapshots|, draftedCount, rewoundCount, stateCorrections, referenceOnly)
    }

    /** Two state corrections, or fewer than one in twenty of at least eight drafts kept. */
    predicate GuardIn(s: Standing) {
      autoRefGuard && !s.referenceOnly && !useRefLogits
      && (s.corrections >= 2 || (s.drafted >= 8 && 20 * (s.drafted - s.rewound) < s.drafted))
    }

    /** The token is the last of the history, and its logits are at hand or come with the guard. */
    predicate SettledIn(s: Standing, token: int) {
      s.history != [] && s.history[|s.history| - 1] == token && (s.atHand || GuardIn(s))
    }

    function BaseIn(s: Standing, token: int): seq<int> {
      if SettledIn(s, token) then s.history else s.history + [token]
    }

    /** The compiled model keeps snapshots, whether it is active or not. */
    predicate KeepsSnapshots() {
      model != null && directModelIR && model.stateful
    }

    /** After a draft that gave these tokens. */
    function AfterDraft(s: Standing, token: int, out: seq<int>, missed: set<nat>): Standing {
      Standing(BaseIn(s, token) + out, true,
        s.snapshots + (if KeepsSnapshots() then Captured(|out|, missed) else 0),
        s.drafted + |out|, s.rewound,
        s.corrections + (if s.history != [] && !SettledIn(s, token) then 1 else 0),
        s.referenceOnly || GuardIn(s))
    }

    /** A rewind by n replays everything. */
    predicate RebuildsIn(s: Standing, n: nat, replays: bool) {
      var k := if n < |s.history| then n else |s.history|;
      k > 0
      && ((model != null && model.stateful && s.snapshots < k)
          || (reference != null && (s.referenceOnly || useRefLogits || taps)
              && !reference.trims && !replays && k < |s.history|))
    }

    /** After a rewind by n. */
    function AfterRewind(s: Standing, n: nat, replays: bool): Standing {
      if n == 0 then s
      else
        var k := if n < |s.history| then n else |s.history|;
        var rest := s.history[..|s.history| - k];
        s.(history := rest, atHand := RebuildsIn(s, n, replays) && rest != [], rewound := s.rewound + n,
           snapshots := if RebuildsIn(s, n, replays) || s.snapshots < k then (if k == 0 then s.snapshots else 0)
                        else s.snapshots - k)
    }

    /** After a round of which the target keeps its part. */
    function AfterTurn(s: Standing, turn: Turn, out: seq<int>): Standing
      requires turn.kept <= |out|
    {
      AfterRewind(AfterDraft(s, turn.lastToken, out, turn.missed), |out| - turn.kept, turn.replays)
    }

    /** Before round i of a session on this prompt. */
    function Before(prompt: seq<int>, turns: seq<Turn>, outs: seq<seq<int>>, i: nat): Standing
      requires i <= |outs| <= |turns| && forall j :: 0 <= j < |outs| ==> turns[j].kept <= |outs[j]|
    {
      if i == 0 then Standing(prompt, prompt != [], 0, 0, 0, 0, preferReferenceOnly)
      else AfterTurn(Before(prompt, turns, outs, i - 1), turns[i - 1], outs[i - 1])
    }

    /** Whether round i began with a token that is not fed. */
    predicate Loses(prompt: seq<int>, turns: seq<Turn>, outs: seq<seq<int>>, i: nat)
      requires i < |outs| <= |turns| && forall j :: 0 <= j < |outs| ==> turns[j].kept <= |outs[j]|
    {
      SettledIn(Before(prompt, turns, outs, i), turns[i].lastToken)
    }

    function Lost(prompt: seq<int>, turns: seq<Turn>, outs: seq<seq<int>>, i: nat): nat
      requires i <= |outs| <= |turns| && forall j :: 0 <= j < |outs| ==> turns[j].kept <= |outs[j]|
    {
      if i == 0 then 0
      else Lost(prompt, turns, outs, i - 1) + if Loses(prompt, turns, outs, i - 1) then 1 else 0
    }

    /** What the caller has accepted by then. */
    function Accepted(prompt: seq<int>, turns: seq<Turn>, outs: seq<seq<int>>, i: nat): seq<int>
      requires i <= |outs| <= |turns| && forall j :: 0 <= j < |outs| ==> turns[j].kept <= |outs[j]|
    {
      if i == 0 then prompt
      else Accepted(prompt, turns, outs, i - 1) + [turns[i - 1].lastToken] + outs[i - 1][..turns[i - 1].kept]
    }

    lemma TurnHistory(s: Standing, turn: Turn, out: seq<int>)
      requires turn.kept <= |out|
      ensures AfterTurn(s, turn, out).history == BaseIn(s, turn.lastToken) + out[..turn.kept]
    {
      var base, back := BaseIn(s, turn.lastToken), |out| - turn.kept;
      assert (base + out)[..|base + out| - back] == base + out[..turn.kept];
      if back == 0 {
        assert out[..turn.kept] == out;
      }
    }

    /** Every round that begins with a settled token costs the history one token, and only
        then does it part from what was accepted. */
    lemma {:induction false} LosesOneEach(prompt: seq<int>, turns: seq<Turn>, outs: seq<seq<int>>, i: nat)
      requires i <= |outs| <= |turns| && forall j :: 0 <= j < |outs| ==> turns[j].kept <= |outs[j]|
      ensures var h := Before(prompt, turns, outs, i).history;
        |h| + Lost(prompt, turns, outs, i) == |Accepted(prompt, turns, outs, i)|
        && (Lost(prompt, turns, outs, i) == 0 ==> h == Accepted(prompt, turns, outs, i))
      ensures Lost(prompt, turns, outs, i) == 0 <==> forall j :: 0 <= j < i ==> !Loses(prompt, turns, outs, j)
    {
      hide AfterTurn;
      if i > 0 {
        LosesOneEach(prompt, turns, outs, i - 1);
        TurnHistory(Before(prompt, turns, outs, i - 1), turns[i - 1], outs[i - 1]);
      }
    }

    method CaptureDraftSnapshot(succeeds: bool)
      requires Valid()
      modifies this`modelSnapshots
      ensures Valid()
      ensures modelSnapshots == old(modelSnapshots) +
        if model != null && directModelIR && model.stateful && succeeds
        then [Snapshot(model.decodePos, model.mil)] else []
    {
      hide Net.Mil, Net.Rows, Net.CacheOf, Net.Out;
      assert history[..|history|] == history;
      if model == null || !directModelIR {
        return;
      }
      var snap := model.SnapshotDecodeState();
      if snap.Some? && succeeds {
        modelSnapshots := modelSnapshots + [snap.value];
      }
    }

    /** Drafts are captured: the compiled model is active and keeps snapshots. */
    predicate Captures()
      reads this
    {
      !referenceOnly && KeepsSnapshots()
    }

    /** Takes a snapshot and feeds a token. */
    method FeedCaptured(token: int, capture: bool) returns (ok: bool)
      requires Valid()
      modifies this`history, this`lastLogits, this`modelSnapshots, model, reference
      ensures Valid()
      ensures if ok then history == old(history) + [token] && lastLogits.Some? else history == old(history) && Full()
      ensures modelSnapshots == old(modelSnapshots)
        || (|modelSnapshots| == |old(modelSnapshots)| + 1
            && old(modelSnapshots) == modelSnapshots[..|old(modelSnapshots)|])
      ensures |modelSnapshots| == |old(modelSnapshots)| + if capture && KeepsSnapshots() then 1 else 0
      ensures capture && Captures() ==> modelSnapshots[|old(modelSnapshots)|].decodePos == |old(history)|
    {
      CaptureDraftSnapshot(capture);
      ok := FeedToken(token);
    }

    /** Drafts one token: the pick of the current logits is fed back, after a snapshot. */
    method DraftOne(capture: bool, ghost t: nat) returns (token: Option<int>)
      requires Valid() && lastLogits.Some?
      modifies this`history, this`lastLogits, this`modelSnapshots, model, reference
      ensures Valid()
      ensures old(history) != [] && Active() == old(Active())
      ensures token.Some? ==> token.value == net.pick(net.Out(Active(), old(history))) && lastLogits.Some?
      ensures token.Some? ==> history == old(history) + [token.value]
      ensures token.None? ==> history == old(history) && Full()
      ensures token.Some? && capture && Captures() && old(Covered(t)) ==> Covered(t + 1)
      ensures |modelSnapshots| == |old(modelSnapshots)| + if capture && KeepsSnapshots() then 1 else 0
    {
      hide Valid, Covers, Net.Out, Full;
      LogitsAreCurrent();
      ghost var snaps, n := modelSnapshots, |history|;
      var next := net.pick(lastLogits.value);
      var ok := FeedCaptured(next, capture);
      token := if ok then Some(next) else None;
      if ok && capture && Captures() {
        CoversMore(snaps, n, modelSnapshots, t);
      }
    }

    lemma NothingToCover()
      ensures Covered(0)
    {
    }

    lemma LogitsAreCurrent()
      requires Valid() && lastLogits.Some?
      ensures history != [] && lastLogits.value == net.Out(Active(), history)
    {
    }

    method DraftNext(ghost backend: Backend, ghost base: seq<int>, ghost tokens: seq<int>, ghost captured: bool,
        capture: bool)
      returns (token: Option<int>)
      requires Valid() && lastLogits.Some? && Active() == backend && history == base + tokens
      requires net.Greedy(backend, base, tokens) && (captured ==> capture && Captures() && Covered(|tokens|))
      modifies this`history, this`lastLogits, this`modelSnapshots, model, reference
      ensures Valid() && Active() == backend
      ensures token.None? ==> Full()
      ensures token.Some? ==> lastLogits.Some? && history == base + (tokens + [token.value])
      ensures token.Some? ==> net.Greedy(backend, base, tokens + [token.value])
      ensures token.Some? && captured ==> Covered(|tokens| + 1)
      ensures |modelSnapshots| == |old(modelSnapshots)| + if capture && KeepsSnapshots() then 1 else 0
    {
      hide Valid, Covered, Net.Greedy, Net.Out, Full;
      token := DraftOne(capture, |tokens|);
      if token.Some? {
        net.GreedyStep(backend, base, tokens, token.value);
      }
    }

    /** The drafting loop; the snapshots before the missed steps fail. */
    method DraftTokens(width: int, missed: set<nat>) returns (out: Option<seq<int>>)
      requires Valid() && lastLogits.Some?
      modifies this`history, this`lastLogits, this`modelSnapshots, model, reference
      ensures Valid()
      ensures out.None? ==> Full()
      ensures out.Some? ==> |out.value| == (if width <= 0 then 0 else width) && lastLogits.Some?
      ensures out.Some? ==> history == old(history) + out.value && net.Greedy(Active(), old(history), out.value)
      ensures out.Some? && Captures() && missed == {} ==> Covered(|out.value|)
      ensures out.Some? ==>
        |modelSnapshots| == |old(modelSnapshots)| + if KeepsSnapshots() then Captured(|out.value|, missed) else 0
    {
      hide Valid, Covered, Net.Greedy, Net.Out, Full, Active, KeepsSnapshots;
      LogitsAreCurrent();
      ghost var base, backend := history, Active();
      net.GreedyStart(backend, base);
      NothingToCover();
      ghost var captured := Captures() && missed == {};
      var tokens := [];
      var i := 0;
      while i < width
        invariant 0 <= i && i == |tokens| && (i <= width || i == 0)
        invariant Valid() && lastLogits.Some? && history == base + tokens
        invariant net.Greedy(backend, base, tokens) && Active() == backend
        invariant captured ==> Covered(i)
        invariant |modelSnapshots| == |old(modelSnapshots)| + if KeepsSnapshots() then Captured(i, missed) else 0
      {
        var token := DraftNext(backend, base, tokens, captured, i !in missed);
        if token == None {
          return None;
        }
        tokens := tokens + [token.value];
        i := i + 1;
      }
      out := Some(tokens);
    }

    method CountDrafts(n: nat)
      requires Valid()
      modifies this`draftedCount
      ensures Valid() && draftedCount == old(draftedCount) + n
    {
      draftedCount := draftedCount + n;
    }

    /** Brings the active backend to the last accepted token. */
    method PrepareDraft(lastToken: int) returns (ok: bool)
      requires Valid()
      modifies this`referenceOnly, this`guardTriggered, this`lastLogits, this`history, this`stateCorrections, model,
        reference
      ensures Valid()
      ensures ok ==> lastLogits.Some? && history == old(Base(lastToken))
      ensures ok ==> referenceOnly == (old(referenceOnly) || old(GuardFires()))
      ensures ok ==>
        stateCorrections == old(stateCorrections) + if old(history) != [] && !old(Settled(lastToken)) then 1 else 0
      ensures !ok ==> Full() && history == old(history)
    {
      hide Valid, Full;
      MaybeEnableReferenceOnly();
      ok := EnsureTokenState(lastToken);
    }

    /** `cap` says whether the opt-in width cap for low-confidence models applies. */
    method Draft(lastToken: int, n: int, missed: set<nat>, cap: bool) returns (out: Option<seq<int>>)
      requires Valid()
      modifies this, model, reference
      ensures Valid()
      ensures out.None? ==> Full()
      ensures out.Some? ==> |out.value| == if n <= 0 then 0 else if n > 1 && cap && !old(referenceOnly) then 1 else n
      ensures out.Some? ==> history == old(Base(lastToken)) + out.value && lastLogits.Some?
      ensures out.Some? ==> net.Greedy(Active(), old(Base(lastToken)), out.value)
      ensures out.Some? && old(history) != [] && old(history)[|old(history)| - 1] == lastToken ==>
        (old(lastLogits).Some? ==> history == old(history) + out.value)
      ensures out.Some? && (old(history) == [] || old(history)[|old(history)| - 1] != lastToken) ==>
        history == old(history) + [lastToken] + out.value
      ensures out.Some? && old(lastLogits).None? && !autoRefGuard ==>
        history == old(history) + [lastToken] + out.value
      ensures out.Some? && Captures() && missed == {} ==> Covered(|out.value|)
      ensures out.Some? ==> Now() == AfterDraft(old(Now()), lastToken, out.value, missed)
      ensures draftedCount == old(draftedCount) + if out.Some? then |out.value| else 0
      ensures rewoundCount == old(rewoundCount)
    {
      hide Valid;
      var width := if n > 1 && !referenceOnly && cap then 1 else n;
      var ok := PrepareDraft(lastToken);
      if !ok {
        return None;
      }
      ghost var base := history;
      out := DraftTokens(width, missed);
      if out.Some? {
        CountDrafts(|out.value|);
      }
    }

    /** Starts over with a prompt, on the model the drafter was configured for. */
    method Prefill(ids: seq<int>) returns (ok: bool)
      requires Wired() && (model != null ==> model.written == None)
      modifies this, model, reference
      ensures Valid() && referenceOnly == preferReferenceOnly && modelSnapshots == []
      ensures ok ==> history == ids
      ensures draftedCount == rewoundCount == stateCorrections == 0
      ensures !ok ==> Full() && history <= ids
      ensures lastLogits.Some? <==> history != []
    {
      Reset();
      hide Valid;
      for i := 0 to |ids|
        invariant Valid() && history == ids[..i] && modelSnapshots == [] && referenceOnly == preferReferenceOnly
        invariant draftedCount == rewoundCount == stateCorrections == 0
        invariant lastLogits.Some? <==> i > 0
      {
        ok := FeedToken(ids[i]);
        if !ok {
          return;
        }
        assert ids[..i] + [ids[i]] == ids[..i + 1];
      }
      assert ids[..|ids|] == ids;
      ok := true;
    }

    method Reset()
      requires Wired() && (model != null ==> model.written == None)
      modifies this, model, reference
      ensures Valid() && referenceOnly == preferReferenceOnly
      ensures history == [] && lastLogits == None && modelSnapshots == []
      ensures draftedCount == rewoundCount == stateCorrections == 0 && !guardTriggered
    {
      if model != null {
        model.Reset();
      }
      history, lastLogits, modelSnapshots := [], None, [];
      referenceOnly, guardTriggered := preferReferenceOnly, false;
      draftedCount, rewoundCount, stateCorrections := 0, 0, 0;
      if reference != null {
        reference.Reset();
      }
    }

    method ResetBackends()
      requires Wired() && model != null && model.written == None
      modifies this`history, this`lastLogits, this`modelSnapshots, model, reference
      ensures Valid() && history == [] && lastLogits == None && modelSnapshots == []
    {
      model.Reset();
      if reference != null {
        reference.Reset();
      }
      lastLogits, modelSnapshots, history := None, [], [];
    }

    /** Resets the backends and replays the history through them. */
    method RebuildState()
      requires Wired() && model != null && model.written == None
      requires !model.stateful && !referenceOnly ==> |history| <= model.maxSeqLen
      modifies this`history, this`lastLogits, this`modelSnapshots, model, reference
      ensures Valid() && history == old(history) && modelSnapshots == []
      ensures lastLogits.Some? <==> history != []
    {
      hide *;
      var orig := history;
      ResetBackends();
      for i := 0 to |orig|
        invariant Valid() && history == orig[..i] && modelSnapshots == []
        invariant lastLogits.Some? <==> i > 0
      {
        var ok := FeedToken(orig[i]);
        assert orig[..i] + [orig[i]] == orig[..i + 1];
      }
      assert orig[..|orig|] == orig;
    }

    method RestoreDraftSnapshot(n: nat, ghost h: seq<int>) returns (ok: bool)
      requires model != null && 0 < n <= |h| && history == h[..|h| - n]
      requires !model.stateful ==> modelSnapshots == []
      modifies this`modelSnapshots, model`decodePos, model`mil
      ensures ok <==> n <= |old(modelSnapshots)|
      ensures !ok ==> modelSnapshots == old(modelSnapshots) && unchanged(model)
      ensures ok ==> modelSnapshots == old(modelSnapshots)[..|old(modelSnapshots)| - n]
      ensures ok ==> Snapshot(model.decodePos, model.mil) == old(modelSnapshots)[|old(modelSnapshots)| - n]
    {
      if |modelSnapshots| < n {
        return false;
      }
      var idx := |modelSnapshots| - n;
      ok := model.RestoreDecodeState(modelSnapshots[idx]);
      if ok {
        modelSnapshots := modelSnapshots[..idx];
      }
    }

    /** The shadow reference follows a rewound model, or everything is rebuilt. */
    method RewindShadow(k: nat, ghost h: seq<int>, replays: bool) returns (rebuilt: bool)
      requires Wired() && model != null && model.written == None
      requires 0 < k <= |h| && history == h[..|h| - k] && lastLogits == None
      requires Shadowed() ==> reference.At(h)
      requires !model.stateful && !referenceOnly ==> |h| <= model.maxSeqLen
      modifies this`history, this`lastLogits, this`modelSnapshots, model, reference
      ensures history == old(history) && Wired()
      ensures rebuilt <==> Shadowed() && !reference.trims && !replays && k < |h|
      ensures if rebuilt then Valid() && modelSnapshots == [] && (lastLogits.Some? <==> history != [])
              else unchanged(this) && unchanged(model) && (Shadowed() ==> reference.At(history))
    {
      rebuilt := false;
      if Shadowed() {
        var ok := reference.Rewind(k, replays);
        if !ok {
          RebuildState();
          rebuilt := true;
        }
      }
    }

    /** The history has lost its last k tokens, the backends have not been touched yet. */
    ghost predicate Rewinding(h: seq<int>, k: nat)
      reads this, Repr()
    {
      && Wired() && 0 < k <= |h| && history == h[..|h| - k] && lastLogits == None
      && (model != null ==> model.written == None)
      && (!referenceOnly && model != null ==> model.At(h) && SnapshotsOk(h))
      && (Shadowed() && reference != null ==> reference.At(h))
    }

    /** Without a compiled model only the reference moves. */
    method RewindReference(h: seq<int>, k: nat, replays: bool) returns (rebuilt: bool)
      requires Rewinding(h, k) && model == null
      modifies this`lastLogits, reference
      ensures Valid() && InSync() && Wired()
      ensures rebuilt <==> !reference.trims && !replays && k < |h|
      ensures modelSnapshots == [] && (lastLogits.Some? <==> rebuilt && history != [])
    {
      var ok := reference.Rewind(k, replays);
      if !ok {
        SyncReferenceState();
      }
      rebuilt := !ok;
    }

    method RewindBySnapshot(h: seq<int>, k: nat, replays: bool) returns (rebuilt: bool)
      requires Rewinding(h, k) && model != null && k <= |modelSnapshots|
      modifies this`history, this`lastLogits, this`modelSnapshots, model, reference
      ensures history == old(history) && Wired()
      ensures rebuilt <==> Shadowed() && !reference.trims && !replays && k < |h|
      ensures rebuilt ==> Valid() && modelSnapshots == []
      ensures lastLogits.Some? <==> rebuilt && history != []
      ensures !rebuilt ==> modelSnapshots == old(modelSnapshots)[..|old(modelSnapshots)| - k]
      ensures InSync() ==> Valid()
      ensures !rebuilt ==>
        (InSync() <==> referenceOnly || old(modelSnapshots)[|old(modelSnapshots)| - k].decodePos == |h| - k)
    {
      ghost var snaps := modelSnapshots;
      var idx := |modelSnapshots| - k;
      var restored := RestoreDraftSnapshot(k, h);
      rebuilt := RewindShadow(k, h, replays);
      if !rebuilt && !referenceOnly && snaps[idx].decodePos == |h| - k {
        SnapshotsOfPrefix(h, snaps, idx);
      }
    }

    /** Snapshots below an index lie on the history cut at that index's position. */
    lemma SnapshotsOfPrefix(h: seq<int>, snaps: seq<Snapshot>, idx: nat)
      requires idx < |snaps| && snaps[idx].decodePos <= |h|
      requires forall j :: 0 <= j < |snaps| ==>
        snaps[j].decodePos <= |h| && snaps[j].mil == net.Mil(h[..snaps[j].decodePos])
      requires forall i, j :: 0 <= i < j < |snaps| ==> snaps[i].decodePos <= snaps[j].decodePos
      ensures forall j :: 0 <= j < idx ==>
        snaps[j].decodePos <= snaps[idx].decodePos
        && snaps[j].mil == net.Mil(h[..snaps[idx].decodePos][..snaps[j].decodePos])
    {
      forall j | 0 <= j < idx
        ensures h[..snaps[idx].decodePos][..snaps[j].decodePos] == h[..snaps[j].decodePos]
      {
      }
    }

    /** Fewer snapshots than tokens to forget: move the position back, or rebuild. */
    method RewindByPosition(h: seq<int>, k: nat, replays: bool) returns (rebuilt: bool)
      requires Rewinding(h, k) && model != null && |modelSnapshots| < k
      modifies this`history, this`lastLogits, this`modelSnapshots, model, reference
      ensures history == old(history) && Valid() && InSync() && Wired()
      ensures rebuilt <==> model.stateful || (Shadowed() && !reference.trims && !replays && k < |h|)
      ensures lastLogits.Some? <==> rebuilt && history != []
      ensures modelSnapshots == []
    {
      net.RowsPrefix(h, |h| - k);
      var moved := model.RewindDecodePosition(k);
      if !moved {
        RebuildState();
        return true;
      }
      rebuilt := RewindShadow(k, h, replays);
    }

    /** Drops the last tokens of the history itself. */
    method CutHistory(n: nat) returns (k: nat)
      requires Valid() && n > 0
      modifies this`history, this`lastLogits, this`rewoundCount
      ensures k == if n >= |old(history)| then |old(history)| else n
      ensures history == old(history)[..|old(history)| - k] && lastLogits == None
      ensures rewoundCount == old(rewoundCount) + n
      ensures if k == 0 then Valid() && InSync() && Wired() else Rewinding(old(history), k)
    {
      rewoundCount := rewoundCount + n;
      k := if n >= |history| then |history| else n;
      history := history[..|history| - k];
      lastLogits := None;
    }

    /** The three mechanisms, once the history has lost its last k tokens. */
    method RewindBackends(h: seq<int>, k: nat, replays: bool) returns (rebuilt: bool)
      requires Rewinding(h, k) && (model == null ==> referenceOnly && modelSnapshots == [])
      modifies this`history, this`lastLogits, this`modelSnapshots, model, reference
      ensures history == old(history) && Wired() && (InSync() ==> Valid())
      ensures rebuilt <==>
        (model != null && model.stateful && |old(modelSnapshots)| < k)
        || (Shadowed() && !reference.trims && !replays && k < |h|)
      ensures InSync() <==>
        referenceOnly || |old(modelSnapshots)| < k || rebuilt
        || old(modelSnapshots)[|old(modelSnapshots)| - k].decodePos == |h| - k
      ensures lastLogits.Some? <==> rebuilt && history != []
      ensures |modelSnapshots| == if rebuilt || |old(modelSnapshots)| < k then 0 else |old(modelSnapshots)| - k
    {
      hide Valid, Wired, Rewinding, InSync;
      RewindingIsWired(h, k);
      if model == null {
        rebuilt := RewindReference(h, k, replays);
      } else if k <= |modelSnapshots| {
        rebuilt := RewindBySnapshot(h, k, replays);
        ValidInSync();
      } else {
        rebuilt := RewindByPosition(h, k, replays);
      }
    }

    lemma RewindingIsWired(h: seq<int>, k: nat)
      requires Rewinding(h, k)
      ensures Wired() && 0 < k <= |h| && history == h[..|h| - k] && (referenceOnly ==> reference != null)
    {
    }

    lemma ValidInSync()
      ensures Valid() ==> InSync()
    {
    }

    /** Forgets the last n tokens, by whichever of the three mechanisms applies. It keeps
        the active backend a replay of the history exactly when `CanRewind(n)` held, or when
        it rebuilds everything (`replays`: whether a reference replay succeeds). */
    method Rewind(n: nat, replays: bool) returns (rebuilt: bool)
      requires Valid()
      modifies this, model, reference
      ensures history == if n >= |old(history)| then [] else old(history)[..|old(history)| - n]
      ensures Wired() && referenceOnly == old(referenceOnly)
      ensures rebuilt == old(Rebuilds(n, replays))
      ensures InSync() <==> old(CanRewind(n)) || rebuilt
      ensures InSync() ==> Valid()
      ensures lastLogits.Some? <==> if n == 0 then old(lastLogits).Some? else rebuilt && history != []
      ensures rewoundCount == old(rewoundCount) + n && draftedCount == old(draftedCount)
      ensures stateCorrections == old(stateCorrections)
      // it rebuilds only where snapshots are missing, or where a reference that cannot trim
      // fails to replay what is left
      ensures var k := if n < |old(history)| then n else |old(history)|;
        rebuilt <==>
          k > 0
          && ((model != null && model.stateful && old(|modelSnapshots|) < k)
              || (reference != null && (referenceOnly || useRefLogits || taps) && !reference.trims && !replays
                  && k < |old(history)|))
      ensures Now() == AfterRewind(old(Now()), n, replays)
    {
      hide Valid, Wired, Rewinding, InSync;
      rebuilt := false;
      ValidIsWired();
      ValidIsInSync();
      if n == 0 {
        return;
      }
      var h := history;
      var k := CutHistory(n);
      if k > 0 {
        rebuilt := RewindBackends(h, k, replays);
      }
    }

    /** Tokens of the latest draft can always be rewound, as long as their snapshots were
        captured: `CanRewind` then holds for every one of them. */
    lemma CoveredCanRewind(t: nat, n: nat)
      requires n <= t && (Covered(t) || (Wired() && !Captures()))
      ensures CanRewind(n)
    {
    }

    /** Gives back all but `kept` of the tokens drafted last. Which tokens a draft would not
        feed now: the last one kept, if its logits are still there (nothing was given back),
        are there again (everything was rebuilt) or will be (the guard fires). */
    method GiveBack(drafted: seq<int>, kept: nat, replays: bool)
      requires Valid() && kept <= |drafted| < |history| && history[|history| - |drafted|..] == drafted
      requires CanRewind(|drafted| - kept) || Rebuilds(|drafted| - kept, replays)
      modifies this, model, reference
      ensures Valid() && Now() == AfterRewind(old(Now()), |drafted| - kept, replays)
      ensures history == old(history)[..|old(history)| - |drafted|] + drafted[..kept] && history != []
      ensures var back := |drafted| - kept;
        forall token :: Settled(token) <==>
          (history[|history| - 1] == token
           && old((back == 0 && lastLogits.Some?) || Rebuilds(back, replays) || GuardFiresAfter(back)))
    {
      ghost var h := history;
      var back := |drafted| - kept;
      hide Valid, InSync, Wired, CanRewind;
      var rebuilt := Rewind(back, replays);
      CutOfDraft(h, drafted, kept);
    }

    lemma CutOfDraft(h: seq<int>, drafted: seq<int>, kept: nat)
      requires kept <= |drafted| < |h| && h[|h| - |drafted|..] == drafted
      ensures h[..|h| - (|drafted| - kept)] == h[..|h| - |drafted|] + drafted[..kept]
      ensures |drafted| - kept < |h|
    {
    }

    /** One speculation round: draft, then give back what the target did not keep, provided the
        check on the snapshots passes. It does if none was missed. */
    method Speculate(turn: Turn) returns (out: Option<seq<int>>, done: bool)
      requires Valid()
      modifies this, model, reference
      ensures Valid()
      ensures out.None? ==> Full()
      ensures done ==> out.Some? && turn.kept <= |out.value|
      ensures done ==> history == old(Base(turn.lastToken)) + out.value[..turn.kept]
      ensures done ==> Now() == AfterTurn(old(Now()), turn, out.value)
      ensures out.Some? && turn.kept <= |out.value| && turn.missed == {} ==> done
    {
      hide Valid, Wired, Full, Base, Covered, CanRewind, Rebuilds, Now, AfterDraft, AfterRewind, AfterTurn, Net.Greedy;
      BaseNotEmpty(turn.lastToken);
      out := Draft(turn.lastToken, turn.n, turn.missed, turn.cap);
      done := out.Some? && turn.kept <= |out.value|;
      if done {
        if turn.missed == {} {
          ValidIsWired();
          CoveredCanRewind(|out.value|, |out.value| - turn.kept);
        }
        done := CanRewind(|out.value| - turn.kept) || Rebuilds(|out.value| - turn.kept, turn.replays);
        if done {
          DraftIsSuffix(out.value, old(Base(turn.lastToken)));
          TurnIs(old(Now()), turn, out.value);
          GiveBack(out.value, turn.kept, turn.replays);
        }
      }
    }

    lemma BaseNotEmpty(token: int)
      ensures Base(token) != []
    {
    }

    lemma TurnIs(s: Standing, turn: Turn, out: seq<int>)
      requires turn.kept <= |out|
      ensures AfterTurn(s, turn, out)
        == AfterRewind(AfterDraft(s, turn.lastToken, out, turn.missed), |out| - turn.kept, turn.replays)
    {
    }

    lemma DraftIsSuffix(out: seq<int>, base: seq<int>)
      requires base != []
      ensures |out| < |base + out| && (base + out)[|base + out| - |out|..] == out
      ensures (base + out)[..|base + out| - |out|] == base
    {
    }

    /** A whole session as its caller sees it: a prompt, then rounds; in each the token the
        target chose comes first, then the drafted ones it keeps. Where the drafter stands is
        a function of the rounds and of what it drafted. Its history is the accepted tokens
        exactly if no round began with a token that was the last of the history with its
        logits at hand; every such round loses one token. */
    method Session(prompt: seq<int>, turns: seq<Turn>)
      returns (done: bool, accepted: seq<int>, outs: seq<seq<int>>)
      requires Wired() && (model != null ==> model.written == None)
      modifies this, model, reference
      ensures Valid()
      ensures |outs| <= |turns| && forall j :: 0 <= j < |outs| ==> turns[j].kept <= |outs[j]|
      ensures accepted == Accepted(prompt, turns, outs, |outs|)
      ensures done ==> |outs| == |turns| && Now() == Before(prompt, turns, outs, |turns|)
      ensures done ==> |history| + Lost(prompt, turns, outs, |turns|) == |accepted|
      ensures done ==>
        (history == accepted <==> forall j :: 0 <= j < |turns| ==> !Loses(prompt, turns, outs, j))
    {
      hide Valid, Wired, Full, Before, Accepted, Lost, Loses, AfterTurn, Now;
      done := Prefill(prompt);
      accepted, outs := prompt, [];
      StartStanding(prompt, turns);
      while done && |outs| < |turns|
        invariant |outs| <= |turns| && Valid() && forall j :: 0 <= j < |outs| ==> turns[j].kept <= |outs[j]|
        invariant accepted == Accepted(prompt, turns, outs, |outs|)
        invariant done ==> Now() == Before(prompt, turns, outs, |outs|)
      {
        var turn := turns[|outs|];
        var out, went := Speculate(turn);
        done := went;
        if done {
          MoreRounds(prompt, turns, outs, out.value);
          accepted := accepted + [turn.lastToken] + out.value[..turn.kept];
          outs := outs + [out.value];
        }
      }
      if done {
        Concluded(prompt, turns, outs, accepted);
      }
    }

    lemma Concluded(prompt: seq<int>, turns: seq<Turn>, outs: seq<seq<int>>, accepted: seq<int>)
      requires |outs| == |turns| && forall j :: 0 <= j < |outs| ==> turns[j].kept <= |outs[j]|
      requires Now() == Before(prompt, turns, outs, |turns|)
      requires accepted == Accepted(prompt, turns, outs, |turns|)
      ensures |history| + Lost(prompt, turns, outs, |turns|) == |accepted|
      ensures history == accepted <==> forall j :: 0 <= j < |turns| ==> !Loses(prompt, turns, outs, j)
    {
      hide Before, Accepted, Lost, Loses;
      LosesOneEach(prompt, turns, outs, |turns|);
    }

    lemma StartStanding(prompt: seq<int>, turns: seq<Turn>)
      ensures Before(prompt, turns, [], 0) == Standing(prompt, prompt != [], 0, 0, 0, 0, preferReferenceOnly)
      ensures Accepted(prompt, turns, [], 0) == prompt
      ensures Fresh(prompt) ==> Now() == Before(prompt, turns, [], 0)
    {
    }

    ghost predicate Fresh(prompt: seq<int>)
      reads this
    {
      history == prompt && (lastLogits.Some? <==> prompt != []) && modelSnapshots == []
      && draftedCount == rewoundCount == stateCorrections == 0 && referenceOnly == preferReferenceOnly
    }

    /** What came before does not depend on the rounds to come. */
    lemma {:induction false} SameBefore(prompt: seq<int>, turns: seq<Turn>, outs: seq<seq<int>>, out: seq<int>, i: nat)
      requires i <= |outs| < |turns| && turns[|outs|].kept <= |out|
      requires forall j :: 0 <= j < |outs| ==> turns[j].kept <= |outs[j]|
      ensures Before(prompt, turns, outs + [out], i) == Before(prompt, turns, outs, i)
      ensures Accepted(prompt, turns, outs + [out], i) == Accepted(prompt, turns, outs, i)
    {
      hide AfterTurn;
      if i > 0 {
        SameBefore(prompt, turns, outs, out, i - 1);
      }
    }

    lemma MoreRounds(prompt: seq<int>, turns: seq<Turn>, outs: seq<seq<int>>, out: seq<int>)
      requires |outs| < |turns| && turns[|outs|].kept <= |out|
      requires forall j :: 0 <= j < |outs| ==> turns[j].kept <= |outs[j]|
      ensures forall j :: 0 <= j < |outs + [out]| ==> turns[j].kept <= |(outs + [out])[j]|
      ensures Before(prompt, turns, outs + [out], |outs| + 1)
        == AfterTurn(Before(prompt, turns, outs, |outs|), turns[|outs|], out)
      ensures Accepted(prompt, turns, outs + [out], |outs| + 1)
        == Accepted(prompt, turns, outs, |outs|) + [turns[|outs|].lastToken] + out[..turns[|outs|].kept]
    {
      hide AfterTurn;
      SameBefore(prompt, turns, outs, out, |outs|);
    }

    /** Any run of prompts, speculation rounds, resets and rewinds whose check passes: the
        active backend stays a replay of the history, across every rewind mechanism and a
        hand-over to the reference model in between. */
    method Run(calls: seq<Call>)
      requires Valid()
      modifies this, model, reference
      ensures Valid() && InSync()
    {
      hide Wired, SnapshotsOk, Net.Out, CanRewind, Full, InSync;
      for i := 0 to |calls|
        invariant Valid()
      {
        Obey(calls[i]);
      }
      ValidIsInSync();
    }

    method Obey(call: Call)
      requires Valid()
      modifies this, model, reference
      ensures Valid()
    {
      ValidIsWired();
      hide Wired, Net.Out, CanRewind, Full, Valid, InSync;
      match call {
        case Prompt(ids) => var ok := Prefill(ids);
        case Round(turn) => var out, done := Speculate(turn);
        case Forget(n, replays) =>
          if CanRewind(n) {
            var rebuilt := Rewind(n, replays);
          }
        case StartOver => Reset();
      }
    }

    lemma ValidIsInSync()
      requires Valid()
      ensures InSync()
    {
    }

    lemma ValidIsWired()
      requires Valid()
      ensures Wired() && (model == null ==> referenceOnly && modelSnapshots == [])
      ensures model != null ==> model.written == None
    {
    }
  }

  /** Two drafts of one token with a correction fed between them. The correction has no
      snapshot. */
  method DraftCorrectDraft() returns (d: Drafter)
    ensures fresh(d) && fresh(d.model) && d.reference == null && d.Valid() && d.history == [1, 7, 2, 7]
    ensures !d.referenceOnly && !d.Shadowed() && |d.modelSnapshots| == 2 && d.modelSnapshots[0].decodePos == 1
  {
    var net := Net(0, (s, t) => 0, (s, t) => 0, (r, t) => K.Entry([], []), (r, t) => 0, 0, (c, t) => 0, (c, t) => 0,
      (c, k) => 0, l => 7);
    var model := new DraftModel(net, true, 0);
    d := new Drafter(model, null, net, false, false, false, true, false);
    hide Drafter.Valid, Drafter.Full, Net.Out;
    var ok := d.FeedToken(1);
    ok := d.FeedCaptured(7, true);
    ok := d.FeedToken(2);
    ok := d.FeedCaptured(7, true);
  }

  /** Where rewinding goes wrong: two tokens are rewound now. The snapshot that is restored
      is three tokens old, and the model is left behind its history. */
  method RewindPastLatestDraft() returns (d: Drafter)
    ensures d.history == [1, 7] && d.Wired() && !d.InSync()
  {
    hide Drafter.Valid, Drafter.InSync, Drafter.Wired;
    d := DraftCorrectDraft();
    var rebuilt := d.Rewind(2, true);
  }

  /** Where a token gets lost: a prompt that ends in 1, and a round that begins with a 1. */
  method SettledTokenIsLost() returns (d: Drafter, out: Option<seq<int>>)
    ensures out == Some([7]) && d.Valid() && d.history == [1] + out.value && d.history != [1] + [1] + out.value
  {
    var net := Net(0, (s, t) => 0, (s, t) => 0, (r, t) => K.Entry([], []), (r, t) => 0, 0, (c, t) => 0, (c, t) => 0,
      (c, k) => 0, l => 7);
    var model := new DraftModel(net, true, 0);
    d := new Drafter(model, null, net, false, false, false, true, false);
    hide Drafter.Valid, Net.Out;
    var ok := d.FeedToken(1);
    assert d.Base(1) == [1];
    out := d.Draft(1, 1, {}, false);
    assert |out.value| == 1 && out.value[0] == 7 && out.value == [7];
  }
}
