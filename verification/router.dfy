/** Routing of linear calls (routing.go, runtime.go) and the cache of compiled models behind
    it (adapter_apple_private_dynamic_linear_darwin.go). */
module Routing {

  import opened Options
  import opened PackedLinear
  import opened Strides

  const MAX_UINT64: nat := 0xffff_ffff_ffff_ffff

  datatype Reason = Eligible | Cached | InvalidDims | SmallSpatial | UnalignedChannels | CompileBudget
                  | ColdTooSmall | WarmTooSmall | WorkOverflow

  datatype Decision = Decision(useANE: bool, reason: Reason)

  datatype Config = Config(minSpatial: int, channelMultiple: int, maxCompileCacheSize: int, coldMinMACs: nat,
      warmMinMACs: nat)

  datatype Input = Input(batch: int, inDim: int, outDim: int, cacheKnown: bool, cacheHit: bool, cacheSize: nat)

  // ---- the work of a call --------------------------------------------------------------------

  /** The number of multiplications, in 64-bit words. It is given exactly when it fits, and
      so does the product of the first two factors. */
  method LinearMACs(batch: int, inDim: int, outDim: int) returns (r: Option<nat>)
    requires batch <= MAX_UINT64 && inDim <= MAX_UINT64 && outDim <= MAX_UINT64
    ensures r == MACs(batch, inDim, outDim)
    ensures r.Some? ==> r.value == batch * inDim * outDim && batch >= 0 && inDim >= 0 && outDim >= 0
    ensures r.None? ==>
      batch < 0 || inDim < 0 || outDim < 0 || batch * inDim > MAX_UINT64 || batch * inDim * outDim > MAX_UINT64
  {
    if batch < 0 || inDim < 0 || outDim < 0 {
      return None;
    }
    if batch > 0 && inDim > MAX_UINT64 / batch {
      ExceedsQuotient(inDim, batch);
      return None;
    }
    var bi := batch * inDim;
    if batch > 0 {
      WithinQuotient(inDim, batch);
    }
    if bi > 0 && outDim > MAX_UINT64 / bi {
      ExceedsQuotient(outDim, bi);
      return None;
    }
    if bi > 0 {
      WithinQuotient(outDim, bi);
    }
    return Some(bi * outDim);
  }

  /** The exact count, or none. */
  function MACs(batch: int, inDim: int, outDim: int): (r: Option<nat>)
  {
    if batch < 0 || inDim < 0 || outDim < 0 then None
    else if batch * inDim > MAX_UINT64 || batch * inDim * outDim > MAX_UINT64 then None
    else
      Times(0, batch, inDim);
      Times(0, batch * inDim, outDim);
      Some(batch * inDim * outDim)
  }

  /** For proper dimensions it is refused exactly when the count exceeds 64 bits. */
  lemma MACsOverflow(batch: int, inDim: int, outDim: int)
    requires batch > 0 && inDim > 0 && outDim > 0
    ensures MACs(batch, inDim, outDim).None? <==> batch * inDim * outDim > MAX_UINT64
  {
    Times(0, batch, inDim);
    Times(1, outDim, batch * inDim);
    Commute(outDim, batch * inDim);
  }

  lemma Commute(a: int, b: int)
    ensures a * b == b * a
  {
  }

  lemma ExceedsQuotient(x: int, b: int)
    requires b > 0 && x > MAX_UINT64 / b
    ensures b * x > MAX_UINT64
  {
    DivMod(MAX_UINT64, b);
    Spread(MAX_UINT64 / b, 1, b);
    Times(MAX_UINT64 / b + 1, x, b);
    Commute(x, b);
  }

  lemma WithinQuotient(x: int, b: int)
    requires b > 0 && 0 <= x <= MAX_UINT64 / b
    ensures 0 <= b * x <= MAX_UINT64
  {
    DivMod(MAX_UINT64, b);
    Times(0, x, b);
    Times(x, MAX_UINT64 / b, b);
    Commute(x, b);
  }

  // ---- the decision --------------------------------------------------------------------------

  method DecideLinear(cfg: Config, x: Input) returns (d: Decision)
    requires x.batch <= MAX_UINT64 && x.inDim <= MAX_UINT64 && x.outDim <= MAX_UINT64
    ensures d.useANE <==> Admits(cfg, x)
    ensures d.useANE ==> d.reason == if x.cacheKnown && x.cacheHit then Cached else Eligible
    ensures !d.useANE ==> d.reason == Refusal(cfg, x)
    // in plain terms: what a call that is admitted is like
    ensures d.useANE ==> x.batch > 0 && x.inDim > 0 && x.outDim > 0 && x.batch >= cfg.minSpatial
    ensures d.useANE && cfg.channelMultiple > 0 ==>
      x.inDim % cfg.channelMultiple == 0 && x.outDim % cfg.channelMultiple == 0
    ensures d.useANE ==>
      x.batch * x.inDim * x.outDim >= if x.cacheKnown && x.cacheHit then cfg.warmMinMACs else cfg.coldMinMACs
    ensures d.useANE && cfg.maxCompileCacheSize > 0 && x.cacheKnown && !x.cacheHit ==>
      x.cacheSize < cfg.maxCompileCacheSize
    // and what each reason says
    ensures d.reason == InvalidDims <==> x.batch <= 0 || x.inDim <= 0 || x.outDim <= 0
    ensures d.reason == SmallSpatial <==> x.batch > 0 && x.inDim > 0 && x.outDim > 0 && x.batch < cfg.minSpatial
    ensures d.reason == Eligible || d.reason == Cached <==> d.useANE
    ensures d.reason !in {InvalidDims, SmallSpatial, UnalignedChannels} ==>
      cfg.channelMultiple <= 0 || (x.inDim % cfg.channelMultiple == 0 && x.outDim % cfg.channelMultiple == 0)
    ensures d.reason == WorkOverflow || d.reason == WarmTooSmall || d.reason == ColdTooSmall ==>
      !(cfg.maxCompileCacheSize > 0 && x.cacheKnown && !x.cacheHit && x.cacheSize >= cfg.maxCompileCacheSize)
    ensures d.reason == UnalignedChannels ==>
      cfg.channelMultiple > 0 && (x.inDim % cfg.channelMultiple != 0 || x.outDim % cfg.channelMultiple != 0)
    ensures d.reason == CompileBudget ==> x.cacheKnown && !x.cacheHit && x.cacheSize >= cfg.maxCompileCacheSize > 0
    ensures d.reason == WorkOverflow ==> x.batch * x.inDim > MAX_UINT64 || x.batch * x.inDim * x.outDim > MAX_UINT64
    ensures d.reason == WarmTooSmall ==>
      x.cacheKnown && x.cacheHit && x.batch * x.inDim * x.outDim < cfg.warmMinMACs
    ensures d.reason == ColdTooSmall ==>
      !(x.cacheKnown && x.cacheHit) && x.batch * x.inDim * x.outDim < cfg.coldMinMACs
  {
    if x.batch <= 0 || x.inDim <= 0 || x.outDim <= 0 {
      return Decision(false, InvalidDims);
    }
    if cfg.minSpatial > 0 && x.batch < cfg.minSpatial {
      return Decision(false, SmallSpatial);
    }
    if cfg.channelMultiple > 0 {
      if x.inDim % cfg.channelMultiple != 0 || x.outDim % cfg.channelMultiple != 0 {
        return Decision(false, UnalignedChannels);
      }
    }
    if cfg.maxCompileCacheSize > 0 && x.cacheKnown && !x.cacheHit && x.cacheSize >= cfg.maxCompileCacheSize {
      return Decision(false, CompileBudget);
    }
    var macs := LinearMACs(x.batch, x.inDim, x.outDim);
    if macs.None? {
      return Decision(false, WorkOverflow);
    }
    if x.cacheKnown && x.cacheHit {
      if cfg.warmMinMACs > 0 && macs.value < cfg.warmMinMACs {
        return Decision(false, WarmTooSmall);
      }
      return Decision(true, Cached);
    }
    if cfg.coldMinMACs > 0 && macs.value < cfg.coldMinMACs {
      return Decision(false, ColdTooSmall);
    }
    return Decision(true, Eligible);
  }

  /** A call goes to the ANE when its shape is proper and wide enough, its work countable
      and not below the threshold of its kind, and when it needs no compilation that the
      budget forbids. */
  predicate Admits(cfg: Config, x: Input) {
    Shaped(cfg, x.batch, x.inDim, x.outDim) && WithinBudget(cfg, x)
    && MACs(x.batch, x.inDim, x.outDim).Some?
    && MACs(x.batch, x.inDim, x.outDim).value >= if x.cacheKnown && x.cacheHit then cfg.warmMinMACs else cfg.coldMinMACs
  }

  /** Why a call is turned away: the first of these that applies. */
  function Refusal(cfg: Config, x: Input): Reason {
    if !(x.batch > 0 && x.inDim > 0 && x.outDim > 0) then InvalidDims
    else if x.batch < cfg.minSpatial then SmallSpatial
    else if !Shaped(cfg, x.batch, x.inDim, x.outDim) then UnalignedChannels
    else if !WithinBudget(cfg, x) then CompileBudget
    else if MACs(x.batch, x.inDim, x.outDim).None? then WorkOverflow
    else if x.cacheKnown && x.cacheHit then WarmTooSmall
    else ColdTooSmall
  }

  predicate Shaped(cfg: Config, batch: int, inDim: int, outDim: int) {
    batch > 0 && inDim > 0 && outDim > 0 && batch >= cfg.minSpatial
    && (cfg.channelMultiple > 0 ==> inDim % cfg.channelMultiple == 0 && outDim % cfg.channelMultiple == 0)
  }

  predicate WithinBudget(cfg: Config, x: Input) {
    cfg.maxCompileCacheSize > 0 && x.cacheKnown && !x.cacheHit ==> x.cacheSize < cfg.maxCompileCacheSize
  }

  // ---- executor and runtime --------------------------------------------------------------------

  datatype Key = Key(batch: int, paddedIn: int, paddedOut: int)

  function KeyOf(batch: int, inDim: int, outDim: int): Key {
    Key(batch, AlignDimUp(inDim, 16), AlignDimUp(outDim, 16))
  }

  /** `applePrivateDynamicLinearExecutor`: the models compiled so far, by padded shape. */
  class DynamicExecutor {
    var models: set<Key>
    var lastHit: bool

    constructor ()
      ensures models == {}
    {
      models, lastHit := {}, false;
    }

    /** Finds the model of a shape or compiles it; a compilation that fails leaves nothing. */
    method LookupLinearModel(batch: int, inDim: int, outDim: int, builds: bool) returns (hit: bool, ok: bool)
      modifies this
      ensures hit <==> KeyOf(batch, inDim, outDim) in old(models)
      ensures ok <==> hit || builds
      ensures models == if ok then old(models) + {KeyOf(batch, inDim, outDim)} else old(models)
      ensures lastHit == if ok then hit else old(lastHit)
    {
      var key := KeyOf(batch, inDim, outDim);
      hit := key in models;
      ok := hit || builds;
      if !ok {
        return;
      }
      models := models + {key};
      lastHit := hit;
    }

    method HasLinearRouteModel(batch: int, inDim: int, outDim: int) returns (hit: bool)
      ensures hit <==> Key(batch, inDim, outDim) in models
    {
      hit := Key(batch, inDim, outDim) in models;
    }

    method LinearRouteShape(batch: int, inDim: int, outDim: int) returns (b: int, i: int, o: int)
      ensures Key(b, i, o) == KeyOf(batch, inDim, outDim)
      ensures b == batch && (inDim > 0 ==> i % 16 == 0 && inDim <= i < inDim + 16)
      ensures outDim > 0 ==> o % 16 == 0 && outDim <= o < outDim + 16
    {
      b, i, o := batch, AlignDimUp(inDim, 16), AlignDimUp(outDim, 16);
    }

    method LinearCacheSize() returns (n: nat)
      ensures n == |models|
    {
      n := |models|;
    }
  }

  datatype Backend = ANE | MLX

  /** The forward path of `Runtime` with one router. */
  class Runtime {
    const cfg: Config
    const executor: DynamicExecutor
    const allowFallback: bool

    constructor (cfg: Config, executor: DynamicExecutor, allowFallback: bool)
      ensures this.cfg == cfg && this.executor == executor && this.allowFallback == allowFallback
    {
      this.cfg, this.executor, this.allowFallback := cfg, executor, allowFallback;
    }

    /** What the router is told and what it decides. */
    method RouteLinear(batch: int, inDim: int, outDim: int) returns (d: Decision)
      requires Countable(batch, inDim, outDim)
      ensures d.useANE <==> Admits(cfg, RouteInput(batch, inDim, outDim))
      ensures d.useANE ==> d.reason == if KeyOf(batch, inDim, outDim) in executor.models then Cached else Eligible
    {
      var b, i, o := executor.LinearRouteShape(batch, inDim, outDim);
      var size := executor.LinearCacheSize();
      var hit := executor.HasLinearRouteModel(b, i, o);
      d := DecideLinear(cfg, Input(b, i, o, true, hit, size));
    }

    ghost function RouteInput(batch: int, inDim: int, outDim: int): Input
      reads executor
    {
      var k := KeyOf(batch, inDim, outDim);
      Input(k.batch, k.paddedIn, k.paddedOut, true, k in executor.models, |executor.models|)
    }

    /** One call. The router's prediction of a hit is what the executor finds, a miss is
        compiled only within the budget, and the backend is the ANE exactly when the call
        is admitted and goes through. */
    method Linear(batch: int, inDim: int, outDim: int, builds: bool, evaluates: bool, mlxOk: bool)
      returns (backend: Option<Backend>, d: Decision)
      requires Countable(batch, inDim, outDim)
      modifies executor
      ensures d.useANE <==> Admits(cfg, old(RouteInput(batch, inDim, outDim)))
      ensures d.useANE && executor.models != old(executor.models) ==> d.reason == Eligible && !executor.lastHit
      ensures d.useANE && backend == Some(ANE) ==> (executor.lastHit <==> d.reason == Cached)
      ensures executor.models == old(executor.models)
        || (d.useANE && executor.models == old(executor.models) + {KeyOf(batch, inDim, outDim)})
      ensures backend == Some(ANE) <==>
        d.useANE && (builds || KeyOf(batch, inDim, outDim) in old(executor.models)) && evaluates
      ensures backend == Some(MLX) ==> allowFallback && mlxOk
      ensures backend == None ==> !allowFallback || !mlxOk
      ensures cfg.maxCompileCacheSize > 0 && |old(executor.models)| <= cfg.maxCompileCacheSize ==>
        |executor.models| <= cfg.maxCompileCacheSize
    {
      d := RouteLinear(batch, inDim, outDim);
      if !d.useANE {
        backend := if allowFallback && mlxOk then Some(MLX) else None;
        return;
      }
      var hit, ok := executor.LookupLinearModel(batch, inDim, outDim, builds);
      if ok && evaluates {
        return Some(ANE), d;
      }
      backend := if allowFallback && mlxOk then Some(MLX) else None;
    }

    /** Any sequence of calls keeps the number of compiled models within the budget. */
    method Run(calls: seq<(int, int, int)>, builds: nat -> bool, evaluates: nat -> bool)
      requires forall c :: c in calls ==> Countable(c.0, c.1, c.2)
      requires cfg.maxCompileCacheSize > 0 && |executor.models| <= cfg.maxCompileCacheSize
      modifies executor
      ensures |executor.models| <= cfg.maxCompileCacheSize && old(executor.models) <= executor.models
    {
      for n := 0 to |calls|
        invariant |executor.models| <= cfg.maxCompileCacheSize && old(executor.models) <= executor.models
      {
        assert calls[n] in calls;
        var backend, d := Linear(calls[n].0, calls[n].1, calls[n].2, builds(n), evaluates(n), true);
      }
    }
  }

  /** Machine integers that can be padded. */
  predicate Countable(batch: int, inDim: int, outDim: int) {
    batch <= MAX_UINT64 / 2 && inDim <= MAX_UINT64 / 2 && outDim <= MAX_UINT64 / 2
  }

  /** The router turns none of the shapes away that are large enough. */
  ghost predicate TakesAllChannels(cfg: Config) {
    forall batch: int, inDim: int, outDim: int ::
      batch > 0 && inDim > 0 && outDim > 0 && batch >= cfg.minSpatial ==> ShapedPadded(cfg, KeyOf(batch, inDim, outDim))
  }

  predicate ShapedPadded(cfg: Config, k: Key) {
    Shaped(cfg, k.batch, k.paddedIn, k.paddedOut)
  }

  /** It sees padded dimensions, so it takes all numbers of channels exactly if the multiple
      that it asks for divides 16. */
  lemma PaddingAligns(cfg: Config)
    requires cfg.channelMultiple > 0
    ensures TakesAllChannels(cfg) <==> 16 % cfg.channelMultiple == 0
  {
    var m := cfg.channelMultiple;
    if 16 % m == 0 {
      forall batch: int, inDim: int, outDim: int | batch > 0 && inDim > 0 && outDim > 0 && batch >= cfg.minSpatial
        ensures ShapedPadded(cfg, KeyOf(batch, inDim, outDim))
      {
        Divides(AlignDimUp(inDim, 16), m);
        Divides(AlignDimUp(outDim, 16), m);
      }
    } else {
      var batch := if cfg.minSpatial < 1 then 1 else cfg.minSpatial;
      assert !ShapedPadded(cfg, KeyOf(batch, 16, 16));
    }
  }

  /** One channel passes for a multiple of 16. */
  lemma OneChannelPasses()
    ensures var cfg := Config(1, 16, 0, 0, 0);
      !Shaped(cfg, 1, 1, 1) && ShapedPadded(cfg, KeyOf(1, 1, 1))
  {
  }

  lemma Divides(v: int, m: int)
    requires v > 0 && v % 16 == 0 && m > 0 && 16 % m == 0
    ensures v % m == 0
  {
    var k, q := v / 16, 16 / m;
    DivMod(v, 16);
    DivMod(16, m);
    assert v == (k * q) * m;
    Split(k * q, m, 0);
  }
}
