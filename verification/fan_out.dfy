/** Dispatches that fan out over several pools (decode/dispatch.go): a dispatch leases and
    locks a slot of one pool after the other, keeping those it has, evaluates, and then gives
    back what it holds. Every pool behaves as module LeaseProtocol says; any number of
    dispatches may be in flight. */
module FanOut {

  import L = LeasePool
  import P = LeaseProtocol
  import R = PreparedRuns

  /** A dispatch is getting the run of pool order[at], or has its outcome. Of what it holds
      then it never unlocks the runs lo .. hi - 1: those that a partial abort passes over. */
  datatype Mode = Acquiring(at: nat) | Leaving(lo: nat, hi: nat)

  datatype Dispatch = Dispatch(order: seq<nat>, mode: Mode)

  /** Dispatch t is run t of every pool it uses. */
  datatype Sys = Sys(pools: seq<P.Sys>, ds: seq<Dispatch>)

  datatype Event =
    | Start(order: seq<nat>)
    | Scan(t: nat, built: bool)
    | SyncFailed(t: nat)
    | Steal(t: nat)
    | Lock(t: nat)
    | Leave(t: nat, lo: nat, hi: nat)
    | Unlock(t: nat, i: nat)
    | Free(t: nat, i: nat)

  function Init(depths: seq<nat>): Sys {
    Sys(seq(|depths|, p requires 0 <= p < |depths| => P.Init(depths[p])), [])
  }

  ghost predicate Proper(order: seq<nat>, pools: nat) {
    (forall i :: 0 <= i < |order| ==> order[i] < pools)
    && forall i, j :: 0 <= i < j < |order| ==> order[i] != order[j]
  }

  /** Dispatch t is about to do something at pool order[at]. */
  ghost predicate Busy(s: Sys, t: nat) {
    t < |s.ds| && s.ds[t].mode.Acquiring? && s.ds[t].mode.at < |s.ds[t].order|
    && s.ds[t].order[s.ds[t].mode.at] < |s.pools|
  }

  function Current(s: Sys, t: nat): nat
    requires t < |s.ds| && s.ds[t].mode.Acquiring? && s.ds[t].mode.at < |s.ds[t].order|
  {
    s.ds[t].order[s.ds[t].mode.at]
  }

  ghost predicate Gone(s: Sys, t: nat, i: nat) {
    t < |s.ds| && s.ds[t].mode.Leaving? && i < |s.ds[t].order| && s.ds[t].order[i] < |s.pools|
  }

  ghost predicate Enabled(s: Sys, e: Event) {
    match e
    case Start(order) => Proper(order, |s.pools|)
    case Scan(t, built) => Busy(s, t) && P.Enabled(s.pools[Current(s, t)], P.Scan(t, built))
    case SyncFailed(t) => Busy(s, t) && P.Enabled(s.pools[Current(s, t)], P.SyncFailed(t))
    case Steal(t) => Busy(s, t) && P.Enabled(s.pools[Current(s, t)], P.Steal(t))
    case Lock(t) => Busy(s, t) && P.Enabled(s.pools[Current(s, t)], P.Lock(t))
    case Leave(t, lo, hi) => t < |s.ds| && s.ds[t].mode.Acquiring? && CanLeave(s, t, lo, hi)
    case Unlock(t, i) => Gone(s, t, i) && !(s.ds[t].mode.lo <= i < s.ds[t].mode.hi)
      && P.Enabled(s.pools[s.ds[t].order[i]], P.Unlock(t))
    case Free(t, i) => Gone(s, t, i) && P.Enabled(s.pools[s.ds[t].order[i]], P.Free(t))
  }

  predicate Ends(n: nat, lo: nat, hi: nat) {
    lo <= hi <= n && (lo == hi || (lo == 0 && hi < n) || (0 < lo && hi == n))
  }

  /** With all runs begun a dispatch ends in any of its ways: everything is given back, or a
      failed evaluation passes over the runs before it, or a failed output over those after
      it. A begin call that fails gives everything back. */
  ghost predicate CanLeave(s: Sys, t: nat, lo: nat, hi: nat)
    requires t < |s.ds| && s.ds[t].mode.Acquiring?
  {
    var n := |s.ds[t].order|;
    if s.ds[t].mode.at >= n then Ends(n, lo, hi)
    else lo == hi == 0 && Busy(s, t) && t !in s.pools[Current(s, t)].runs
  }

  /** These are the ways in which a prepared dispatch ends: the runs that it never unlocks once
      all are begun are always such a range, and every such range can occur. */
  lemma EndsAsDispatched(d: R.DispatchEnv) returns (lo: nat, hi: nat)
    requires R.Launches(d)
    ensures Ends(|d.stages|, lo, hi)
    ensures forall i :: 0 <= i < |d.stages| ==> (R.Left(d, i) == R.LockAndLease <==> lo <= i < hi)
  {
    var n, e, v := |d.stages|, R.FirstBad(R.Evals(d)), R.FirstBad(R.Reads(d));
    if e < n {
      lo, hi := 0, e;
    } else if v < n {
      lo, hi := v + 1, n;
    } else {
      lo, hi := 0, 0;
    }
  }

  lemma EveryEndOccurs(n: nat, lo: nat, hi: nat) returns (d: R.DispatchEnv)
    requires n > 0 && Ends(n, lo, hi)
    ensures R.Launches(d) && |d.stages| == n
    ensures forall i :: 0 <= i < n ==> (R.Left(d, i) == R.LockAndLease <==> lo <= i < hi)
  {
    var begin := R.BeginEnv(true, true, true, true, true, true, true, true, true, true, true, true, true);
    var view := R.ViewEnv(R.Copy, true, true, true, true, true, true, true, true, true);
    d := R.DispatchEnv(true, true, true,
      seq(n, i => R.StageEnv(begin, !(lo == 0 < hi && i == hi), view.(owned := !(0 < lo < hi && i == lo - 1)))));
    R.FirstBadIs(R.Begins(d), n);
    if lo == 0 < hi {
      R.FirstBadIs(R.Evals(d), hi);
    } else {
      R.FirstBadIs(R.Evals(d), n);
      R.FirstBadIs(R.Reads(d), if 0 < lo < hi then lo - 1 else n);
    }
  }

  /** One event at pool p. */
  ghost function At(s: Sys, p: nat, e: P.Event): Sys
    requires p < |s.pools| && P.Enabled(s.pools[p], e)
  {
    s.(pools := s.pools[p := P.Apply(s.pools[p], e)])
  }

  function Become(s: Sys, t: nat, m: Mode): Sys
    requires t < |s.ds|
  {
    s.(ds := s.ds[t := s.ds[t].(mode := m)])
  }

  ghost function Apply(s: Sys, e: Event): Sys
    requires Enabled(s, e)
  {
    match e
    case Start(order) => s.(ds := s.ds + [Dispatch(order, Acquiring(0))])
    case Scan(t, built) =>
      var p := Current(s, t);
      var s' := At(s, p, P.Scan(t, built));
      // a slot that cannot be built ends the dispatch
      if t in s'.pools[p].runs then s' else Become(s', t, Leaving(0, 0))
    case SyncFailed(t) => Become(At(s, Current(s, t), P.SyncFailed(t)), t, Leaving(0, 0))
    case Steal(t) => At(s, Current(s, t), P.Steal(t))
    case Lock(t) => Become(At(s, Current(s, t), P.Lock(t)), t, Acquiring(s.ds[t].mode.at + 1))
    case Leave(t, lo, hi) => Become(s, t, Leaving(lo, hi))
    case Unlock(t, i) => At(s, s.ds[t].order[i], P.Unlock(t))
    case Free(t, i) => At(s, s.ds[t].order[i], P.Free(t))
  }

  // ---- the invariant ---------------------------------------------------------------------

  ghost predicate PoolsOk(s: Sys) {
    forall p :: 0 <= p < |s.pools| ==> P.Inv(s.pools[p])
  }

  /** Where dispatch d stands with its i-th pool, by the runs r of that pool. */
  ghost predicate StageOk(d: Dispatch, t: nat, i: nat, r: map<P.RunId, P.Phase>) {
    match d.mode
    case Acquiring(at) =>
      if i < at then t in r && r[t].Locked?
      else if i == at then t in r ==> r[t].Waiting? || r[t].Holding?
      else t !in r
    case Leaving(lo, hi) =>
      (t in r ==> r[t].Locked? || r[t].Unlocked?) && (lo <= i < hi ==> t in r && r[t].Locked?)
  }

  ghost predicate DispatchOk(s: Sys, t: nat)
    requires t < |s.ds|
  {
    var d := s.ds[t];
    Proper(d.order, |s.pools|)
    && (d.mode.Acquiring? ==> d.mode.at <= |d.order|)
    && (d.mode.Leaving? ==> d.mode.lo <= d.mode.hi <= |d.order|)
    && forall i :: 0 <= i < |d.order| ==> StageOk(d, t, i, s.pools[d.order[i]].runs)
  }

  ghost predicate DispatchesOk(s: Sys) {
    forall t :: 0 <= t < |s.ds| ==> DispatchOk(s, t)
  }

  /** The runs of a pool belong to dispatches that use it. */
  ghost predicate RunsOk(s: Sys) {
    forall p: nat, t: nat :: p < |s.pools| && t in s.pools[p].runs ==> Uses(s, t, p)
  }

  predicate Uses(s: Sys, t: nat, p: nat) {
    t < |s.ds| && p in s.ds[t].order
  }

  ghost predicate Inv(s: Sys) {
    PoolsOk(s) && DispatchesOk(s) && RunsOk(s)
  }

  lemma InitInv(depths: seq<nat>)
    ensures Inv(Init(depths))
  {
    forall p | 0 <= p < |depths|
      ensures P.Inv(Init(depths).pools[p])
    {
      P.InitInv(depths[p]);
    }
  }

  ghost predicate Agree(r: map<P.RunId, P.Phase>, r': map<P.RunId, P.Phase>, u: P.RunId) {
    (u in r <==> u in r') && (u in r ==> r[u] == r'[u])
  }

  lemma StageFrame(d: Dispatch, u: nat, i: nat, r: map<P.RunId, P.Phase>, r': map<P.RunId, P.Phase>)
    requires Agree(r, r', u) && StageOk(d, u, i, r)
    ensures StageOk(d, u, i, r')
  {
  }

  /** Only dispatch t and its run at its i-th pool differ. */
  ghost predicate OwnMove(s: Sys, s': Sys, t: nat, i: nat) {
    t < |s.ds| == |s'.ds| && i < |s.ds[t].order| && s.ds[t].order[i] < |s.pools| == |s'.pools|
    && (forall u :: 0 <= u < |s.ds| && u != t ==> s'.ds[u] == s.ds[u])
    && s'.ds[t].order == s.ds[t].order
    && (forall p :: 0 <= p < |s.pools| && p != s.ds[t].order[i] ==> s'.pools[p] == s.pools[p])
    && forall u :: u != t ==> Agree(s.pools[s.ds[t].order[i]].runs, s'.pools[s.ds[t].order[i]].runs, u)
  }

  ghost predicate Bounded(d: Dispatch) {
    (d.mode.Acquiring? ==> d.mode.at <= |d.order|) && (d.mode.Leaving? ==> d.mode.lo <= d.mode.hi <= |d.order|)
  }

  lemma OwnMoveDispatches(s: Sys, s': Sys, t: nat, i: nat)
    requires DispatchesOk(s) && OwnMove(s, s', t, i) && Bounded(s'.ds[t])
    requires DispatchOk(s, t)
    requires forall j :: 0 <= j < |s.ds[t].order| ==> StageOk(s'.ds[t], t, j, s'.pools[s.ds[t].order[j]].runs)
    ensures DispatchesOk(s')
  {
    forall u | 0 <= u < |s'.ds|
      ensures DispatchOk(s', u)
    {
      if u != t {
        assert DispatchOk(s, u);
        var d := s.ds[u];
        forall j | 0 <= j < |d.order|
          ensures StageOk(d, u, j, s'.pools[d.order[j]].runs)
        {
          if d.order[j] == s.ds[t].order[i] {
            assert Agree(s.pools[d.order[j]].runs, s'.pools[d.order[j]].runs, u);
          }
          StageFrame(d, u, j, s.pools[d.order[j]].runs, s'.pools[d.order[j]].runs);
        }
      }
    }
  }

  lemma OwnMoveRuns(s: Sys, s': Sys, t: nat, i: nat)
    requires RunsOk(s) && OwnMove(s, s', t, i)
    ensures RunsOk(s')
  {
    forall p: nat, u: nat | p < |s'.pools| && u in s'.pools[p].runs
      ensures Uses(s', u, p)
    {
      if u == t && p == s.ds[t].order[i] {
        assert s.ds[t].order[i] in s.ds[t].order;
      } else {
        if p == s.ds[t].order[i] {
          assert Agree(s.pools[p].runs, s'.pools[p].runs, u);
        }
        assert u in s.pools[p].runs;
        assert Uses(s, u, p);
        assert s'.ds[u].order == s.ds[u].order;
      }
    }
  }

  /** The event of the run of dispatch t at its i-th pool, with what becomes of the dispatch. */
  lemma MoveInv(s: Sys, s': Sys, t: nat, i: nat, e: P.Event)
    requires Inv(s) && t < |s.ds| && DispatchOk(s, t) && i < |s.ds[t].order|
    requires P.Enabled(s.pools[s.ds[t].order[i]], e) && Own(e, t)
    requires s'.pools == s.pools[s.ds[t].order[i] := P.Apply(s.pools[s.ds[t].order[i]], e)]
    requires |s'.ds| == |s.ds| && s'.ds == s.ds[t := s.ds[t].(mode := s'.ds[t].mode)] && Bounded(s'.ds[t])
    requires forall j :: 0 <= j < |s.ds[t].order| ==> StageOk(s'.ds[t], t, j, s'.pools[s.ds[t].order[j]].runs)
    ensures Inv(s')
  {
    var p := s.ds[t].order[i];
    OwnEvent(s.pools[p], t, e);
    assert OwnMove(s, s', t, i);
    P.StepInv(s.pools[p], e);
    OwnMoveDispatches(s, s', t, i);
    OwnMoveRuns(s, s', t, i);
  }

  ghost predicate Own(e: P.Event, t: nat) {
    !e.FreeAgain? && e.run == t
  }

  lemma OwnEvent(s: P.Sys, t: P.RunId, e: P.Event)
    requires P.Enabled(s, e) && Own(e, t)
    ensures forall u :: u != t ==> Agree(s.runs, P.Apply(s, e).runs, u)
  {
  }

  /** Pools other than the i-th of dispatch t look to it as before. */
  lemma OtherStages(s: Sys, s': Sys, t: nat, i: nat, j: nat)
    requires t < |s.ds| && DispatchOk(s, t) && i < |s.ds[t].order| && j < |s.ds[t].order| && i != j
    requires |s'.pools| == |s.pools|
    requires forall p :: 0 <= p < |s.pools| && p != s.ds[t].order[i] ==> s'.pools[p] == s.pools[p]
    ensures s'.pools[s.ds[t].order[j]] == s.pools[s.ds[t].order[j]]
    ensures StageOk(s.ds[t], t, j, s'.pools[s.ds[t].order[j]].runs)
  {
    assert s.ds[t].order[i] != s.ds[t].order[j];
  }

  // ---- every event keeps it ----------------------------------------------------------------

  lemma ScanInv(s: Sys, t: nat, built: bool)
    requires Inv(s) && Enabled(s, Scan(t, built))
    ensures Inv(Apply(s, Scan(t, built)))
  {
    var i, p := s.ds[t].mode.at, Current(s, t);
    assert DispatchOk(s, t);
    var e := P.Scan(t, built);
    var s' := Apply(s, Scan(t, built));
    ScanOutcome(s.pools[p], t, built);
    OthersAsBefore(s, s', t, i, e);
    MoveInv(s, s', t, i, e);
  }

  /** Whatever the mode of t becomes, its other stages fit as long as they fitted. */
  lemma OthersAsBefore(s: Sys, s': Sys, t: nat, i: nat, e: P.Event)
    requires t < |s.ds| && DispatchOk(s, t) && i < |s.ds[t].order|
    requires P.Enabled(s.pools[s.ds[t].order[i]], e)
    requires s'.pools == s.pools[s.ds[t].order[i] := P.Apply(s.pools[s.ds[t].order[i]], e)]
    ensures forall j :: 0 <= j < |s.ds[t].order| && j != i ==>
      s'.pools[s.ds[t].order[j]] == s.pools[s.ds[t].order[j]] && StageOk(s.ds[t], t, j, s.pools[s.ds[t].order[j]].runs)
  {
    forall j | 0 <= j < |s.ds[t].order| && j != i
      ensures s'.pools[s.ds[t].order[j]] == s.pools[s.ds[t].order[j]]
    {
      OtherStages(s, s', t, i, j);
    }
  }

  lemma ScanOutcome(s: P.Sys, t: nat, built: bool)
    requires P.Inv(s) && P.Enabled(s, P.Scan(t, built))
    ensures var r := P.Apply(s, P.Scan(t, built)).runs;
      t in r ==> r[t].Waiting? || r[t].Holding?
  {
  }

  lemma SyncFailedInv(s: Sys, t: nat)
    requires Inv(s) && Enabled(s, SyncFailed(t))
    ensures Inv(Apply(s, SyncFailed(t)))
  {
    var i := s.ds[t].mode.at;
    assert DispatchOk(s, t);
    var s' := Apply(s, SyncFailed(t));
    OthersAsBefore(s, s', t, i, P.SyncFailed(t));
    MoveInv(s, s', t, i, P.SyncFailed(t));
  }

  lemma StealInv(s: Sys, t: nat)
    requires Inv(s) && Enabled(s, Steal(t))
    ensures Inv(Apply(s, Steal(t)))
  {
    var i := s.ds[t].mode.at;
    assert DispatchOk(s, t);
    var s' := Apply(s, Steal(t));
    P.StealAlwaysLeases(s.pools[Current(s, t)], t);
    OthersAsBefore(s, s', t, i, P.Steal(t));
    MoveInv(s, s', t, i, P.Steal(t));
  }

  lemma LockInv(s: Sys, t: nat)
    requires Inv(s) && Enabled(s, Lock(t))
    ensures Inv(Apply(s, Lock(t)))
  {
    var i := s.ds[t].mode.at;
    assert DispatchOk(s, t);
    var s' := Apply(s, Lock(t));
    OthersAsBefore(s, s', t, i, P.Lock(t));
    MoveInv(s, s', t, i, P.Lock(t));
  }

  lemma UnlockInv(s: Sys, t: nat, i: nat)
    requires Inv(s) && Enabled(s, Unlock(t, i))
    ensures Inv(Apply(s, Unlock(t, i)))
  {
    assert DispatchOk(s, t);
    var s' := Apply(s, Unlock(t, i));
    OthersAsBefore(s, s', t, i, P.Unlock(t));
    MoveInv(s, s', t, i, P.Unlock(t));
  }

  lemma FreeInv(s: Sys, t: nat, i: nat)
    requires Inv(s) && Enabled(s, Free(t, i))
    ensures Inv(Apply(s, Free(t, i)))
  {
    assert DispatchOk(s, t);
    var s' := Apply(s, Free(t, i));
    OthersAsBefore(s, s', t, i, P.Free(t));
    MoveInv(s, s', t, i, P.Free(t));
  }

  lemma LeaveInv(s: Sys, t: nat, lo: nat, hi: nat)
    requires Inv(s) && Enabled(s, Leave(t, lo, hi))
    ensures Inv(Apply(s, Leave(t, lo, hi)))
  {
    var s' := Apply(s, Leave(t, lo, hi));
    forall u | 0 <= u < |s'.ds|
      ensures DispatchOk(s', u)
    {
      assert DispatchOk(s, u);
    }
    forall p: nat, u: nat | p < |s'.pools| && u in s'.pools[p].runs
      ensures Uses(s', u, p)
    {
      assert Uses(s, u, p);
    }
  }

  lemma StartInv(s: Sys, order: seq<nat>)
    requires Inv(s) && Enabled(s, Start(order))
    ensures Inv(Apply(s, Start(order)))
  {
    var s' := Apply(s, Start(order));
    forall u | 0 <= u < |s'.ds|
      ensures DispatchOk(s', u)
    {
      if u < |s.ds| {
        assert DispatchOk(s, u);
      } else {
        NoRunsYet(s, order);
      }
    }
    forall p: nat, u: nat | p < |s'.pools| && u in s'.pools[p].runs
      ensures Uses(s', u, p)
    {
      assert Uses(s, u, p);
    }
  }

  /** A dispatch that has not started has no runs. */
  lemma NoRunsYet(s: Sys, order: seq<nat>)
    requires RunsOk(s) && Proper(order, |s.pools|)
    ensures forall i :: 0 <= i < |order| ==> |s.ds| !in s.pools[order[i]].runs
  {
    assert forall p: nat :: !Uses(s, |s.ds|, p);
  }

  lemma StepInv(s: Sys, e: Event)
    requires Inv(s) && Enabled(s, e)
    ensures Inv(Apply(s, e))
  {
    hide Inv;
    match e
    case Start(order) => StartInv(s, order);
    case Scan(t, built) => ScanInv(s, t, built);
    case SyncFailed(t) => SyncFailedInv(s, t);
    case Steal(t) => StealInv(s, t);
    case Lock(t) => LockInv(s, t);
    case Leave(t, lo, hi) => LeaveInv(s, t, lo, hi);
    case Unlock(t, i) => UnlockInv(s, t, i);
    case Free(t, i) => FreeInv(s, t, i);
  }

  // ---- whole runs --------------------------------------------------------------------------

  ghost predicate Valid(s: Sys, es: seq<Event>)
    decreases |es|
  {
    es == [] || (Enabled(s, es[0]) && Valid(Apply(s, es[0]), es[1..]))
  }

  ghost function Exec(s: Sys, es: seq<Event>): Sys
    requires Valid(s, es)
    decreases |es|
  {
    if es == [] then s else Exec(Apply(s, es[0]), es[1..])
  }

  lemma {:induction false} ExecInv(s: Sys, es: seq<Event>)
    requires Inv(s) && Valid(s, es)
    ensures Inv(Exec(s, es))
    decreases |es|
  {
    if es != [] {
      StepInv(s, es[0]);
      ExecInv(Apply(s, es[0]), es[1..]);
    }
  }

  // ---- every event but a start brings the end nearer ---------------------------------------

  /** The events that dispatch t still has to do at its i-th pool, at most. */
  function Left(s: Sys, t: nat, i: nat): nat {
    if t >= |s.ds| || i >= |s.ds[t].order| || s.ds[t].order[i] >= |s.pools| then 0
    else
      var r := s.pools[s.ds[t].order[i]].runs;
      if t in r then
        match r[t] {
          case Waiting => 4
          case Holding(_, _) => 3
          case Locked(_, _) => 2
          case Unlocked(_, _) => 1
        }
      else if s.ds[t].mode.Acquiring? && i >= s.ds[t].mode.at then 5
      else 0
  }

  function Lefts(s: Sys, t: nat): seq<nat>
    requires t < |s.ds|
  {
    seq(|s.ds[t].order|, i requires 0 <= i < |s.ds[t].order| => Left(s, t, i))
  }

  function Rest(s: Sys, t: nat): nat
    requires t < |s.ds|
  {
    (if s.ds[t].mode.Acquiring? then 1 else 0) + Sum(Lefts(s, t))
  }

  function Rests(s: Sys): seq<nat> {
    seq(|s.ds|, t requires 0 <= t < |s.ds| => Rest(s, t))
  }

  function Total(s: Sys): nat {
    Sum(Rests(s))
  }

  function Sum(a: seq<nat>): nat {
    if a == [] then 0 else a[0] + Sum(a[1..])
  }

  lemma {:induction false} SumLess(a: seq<nat>, b: seq<nat>)
    requires |a| == |b| && forall i :: 0 <= i < |a| ==> a[i] <= b[i]
    ensures Sum(a) <= Sum(b)
    ensures (exists i :: 0 <= i < |a| && a[i] < b[i]) ==> Sum(a) < Sum(b)
  {
    if a != [] {
      SumLess(a[1..], b[1..]);
      if i :| 0 < i < |a| && a[i] < b[i] {
        assert a[1..][i - 1] < b[1..][i - 1];
      }
    }
  }

  /** One dispatch gets nearer to its end, at no stage farther, and the others stay. */
  lemma Nearer(s: Sys, s': Sys, t: nat)
    requires t < |s.ds| == |s'.ds| && |s'.ds[t].order| == |s.ds[t].order|
    requires forall u :: 0 <= u < |s.ds| && u != t ==> Rest(s', u) == Rest(s, u)
    requires s'.ds[t].mode.Acquiring? ==> s.ds[t].mode.Acquiring?
    requires forall j :: 0 <= j < |s.ds[t].order| ==> Left(s', t, j) <= Left(s, t, j)
    requires (s.ds[t].mode.Acquiring? && !s'.ds[t].mode.Acquiring?)
          || exists j :: 0 <= j < |s.ds[t].order| && Left(s', t, j) < Left(s, t, j)
    ensures Total(s') < Total(s)
  {
    SumLess(Lefts(s', t), Lefts(s, t));
    if j :| 0 <= j < |s.ds[t].order| && Left(s', t, j) < Left(s, t, j) {
      assert Lefts(s', t)[j] < Lefts(s, t)[j];
    }
    assert Rests(s')[t] < Rests(s)[t];
    SumLess(Rests(s'), Rests(s));
  }

  lemma OthersKeepRest(s: Sys, s': Sys, t: nat, i: nat, u: nat)
    requires OwnMove(s, s', t, i) && u < |s.ds| && u != t
    ensures Rest(s', u) == Rest(s, u)
  {
    forall j | 0 <= j < |s.ds[u].order|
      ensures Left(s', u, j) == Left(s, u, j)
    {
      if s.ds[u].order[j] == s.ds[t].order[i] {
        assert Agree(s.pools[s.ds[t].order[i]].runs, s'.pools[s.ds[t].order[i]].runs, u);
      }
    }
    assert Lefts(s', u) == Lefts(s, u);
  }

  lemma MoveShrinks(s: Sys, s': Sys, t: nat, i: nat, e: P.Event)
    requires t < |s.ds| && DispatchOk(s, t) && i < |s.ds[t].order|
    requires P.Enabled(s.pools[s.ds[t].order[i]], e) && Own(e, t)
    requires s'.pools == s.pools[s.ds[t].order[i] := P.Apply(s.pools[s.ds[t].order[i]], e)]
    requires |s'.ds| == |s.ds| && s'.ds == s.ds[t := s.ds[t].(mode := s'.ds[t].mode)]
    requires s'.ds[t].mode.Acquiring? ==> s.ds[t].mode.Acquiring? && s.ds[t].mode.at <= s'.ds[t].mode.at
    requires Left(s', t, i) < Left(s, t, i)
    ensures Total(s') < Total(s)
  {
    OwnEvent(s.pools[s.ds[t].order[i]], t, e);
    forall u | 0 <= u < |s.ds| && u != t
      ensures Rest(s', u) == Rest(s, u)
    {
      OthersKeepRest(s, s', t, i, u);
    }
    OthersAsBefore(s, s', t, i, e);
    Nearer(s, s', t);
  }

  lemma ScanShrinks(s: Sys, t: nat, built: bool)
    requires Inv(s) && Enabled(s, Scan(t, built))
    ensures Total(Apply(s, Scan(t, built))) < Total(s)
  {
    hide Total;
    assert DispatchOk(s, t);
    ScanOutcome(s.pools[Current(s, t)], t, built);
    MoveShrinks(s, Apply(s, Scan(t, built)), t, s.ds[t].mode.at, P.Scan(t, built));
  }

  lemma SyncFailedShrinks(s: Sys, t: nat)
    requires Inv(s) && Enabled(s, SyncFailed(t))
    ensures Total(Apply(s, SyncFailed(t))) < Total(s)
  {
    hide Total;
    assert DispatchOk(s, t);
    MoveShrinks(s, Apply(s, SyncFailed(t)), t, s.ds[t].mode.at, P.SyncFailed(t));
  }

  lemma StealShrinks(s: Sys, t: nat)
    requires Inv(s) && Enabled(s, Steal(t))
    ensures Total(Apply(s, Steal(t))) < Total(s)
  {
    hide Total;
    assert DispatchOk(s, t);
    P.StealAlwaysLeases(s.pools[Current(s, t)], t);
    MoveShrinks(s, Apply(s, Steal(t)), t, s.ds[t].mode.at, P.Steal(t));
  }

  lemma LockShrinks(s: Sys, t: nat)
    requires Inv(s) && Enabled(s, Lock(t))
    ensures Total(Apply(s, Lock(t))) < Total(s)
  {
    hide Total;
    assert DispatchOk(s, t);
    MoveShrinks(s, Apply(s, Lock(t)), t, s.ds[t].mode.at, P.Lock(t));
  }

  lemma GiveBackShrinks(s: Sys, t: nat, i: nat)
    requires Inv(s)
    ensures Enabled(s, Unlock(t, i)) ==> Total(Apply(s, Unlock(t, i))) < Total(s)
    ensures Enabled(s, Free(t, i)) ==> Total(Apply(s, Free(t, i))) < Total(s)
  {
    hide Total;
    if Enabled(s, Unlock(t, i)) {
      assert DispatchOk(s, t);
      MoveShrinks(s, Apply(s, Unlock(t, i)), t, i, P.Unlock(t));
    } else if Enabled(s, Free(t, i)) {
      assert DispatchOk(s, t);
      MoveShrinks(s, Apply(s, Free(t, i)), t, i, P.Free(t));
    }
  }

  lemma LeaveShrinks(s: Sys, t: nat, lo: nat, hi: nat)
    requires Enabled(s, Leave(t, lo, hi))
    ensures Total(Apply(s, Leave(t, lo, hi))) < Total(s)
  {
    var s' := Apply(s, Leave(t, lo, hi));
    forall u | 0 <= u < |s.ds| && u != t
      ensures Rest(s', u) == Rest(s, u)
    {
      assert Lefts(s', u) == Lefts(s, u);
    }
    Nearer(s, s', t);
  }

  lemma StepShrinks(s: Sys, e: Event)
    requires Inv(s) && Enabled(s, e) && !e.Start?
    ensures Total(Apply(s, e)) < Total(s)
  {
    hide Total, Inv;
    match e
    case Scan(t, built) => ScanShrinks(s, t, built);
    case SyncFailed(t) => SyncFailedShrinks(s, t);
    case Steal(t) => StealShrinks(s, t);
    case Lock(t) => LockShrinks(s, t);
    case Leave(t, lo, hi) => LeaveShrinks(s, t, lo, hi);
    case Unlock(t, i) => GiveBackShrinks(s, t, i);
    case Free(t, i) => GiveBackShrinks(s, t, i);
  }

  // ---- progress ----------------------------------------------------------------------------

  /** All dispatches take their pools in one order, here by increasing rank. */
  ghost predicate Rising(rank: seq<nat>, order: seq<nat>) {
    (forall i :: 0 <= i < |order| ==> order[i] < |rank|)
    && forall i, j :: 0 <= i < j < |order| ==> rank[order[i]] < rank[order[j]]
  }

  ghost predicate InOrder(s: Sys, rank: seq<nat>) {
    |rank| == |s.pools| && forall t :: 0 <= t < |s.ds| ==> Rising(rank, s.ds[t].order)
  }

  /** No partial abort has passed over a run. */
  ghost predicate NothingKept(s: Sys) {
    forall t :: 0 <= t < |s.ds| && s.ds[t].mode.Leaving? ==> s.ds[t].mode.lo == s.ds[t].mode.hi
  }

  predicate Clean(e: Event) {
    e.Leave? ==> e.lo == e.hi
  }

  predicate Quiet(e: Event) {
    !e.Start? && Clean(e)
  }

  ghost predicate Stuck(s: Sys) {
    forall e :: Quiet(e) ==> !Enabled(s, e)
  }

  /** Nothing is in flight: no runs, every slot free, every mutex unowned. */
  ghost predicate Idle(s: Sys) {
    (forall t :: 0 <= t < |s.ds| ==> s.ds[t].mode.Leaving?)
    && forall p :: 0 <= p < |s.pools| ==> PoolIdle(s.pools[p])
  }

  ghost predicate PoolIdle(p: P.Sys) {
    p.runs == map[]
    && (forall i :: 0 <= i < |p.pool.slots| ==> !p.pool.slots[i].inUse)
    && (forall i :: 0 <= i < |p.mu| ==> p.mu[i] == P.Nobody)
  }

  function Top(rank: seq<nat>): (m: nat)
    ensures forall p :: 0 <= p < |rank| ==> rank[p] < m
  {
    if rank == [] then 0
    else
      var m := Top(rank[1..]);
      assert forall p :: 0 < p < |rank| ==> rank[p] == rank[1..][p - 1];
      if rank[0] < m then m else rank[0] + 1
  }

  /** How far up the order the pool is that dispatch t is getting. */
  ghost function Height(s: Sys, rank: seq<nat>, t: nat): nat
    requires InOrder(s, rank) && t < |s.ds| && DispatchOk(s, t) && s.ds[t].mode.Acquiring?
  {
    if s.ds[t].mode.at == |s.ds[t].order| then 0 else Top(rank) - rank[Current(s, t)]
  }

  /** Following the owners of the mutexes that dispatches wait for goes up the order, and so
      ends at a dispatch that can do something. */
  lemma {:induction false} SomeoneMoves(s: Sys, rank: seq<nat>, t: nat) returns (e: Event)
    requires Inv(s) && InOrder(s, rank) && NothingKept(s)
    requires t < |s.ds| && DispatchOk(s, t) && s.ds[t].mode.Acquiring?
    ensures Quiet(e) && Enabled(s, e)
    decreases Height(s, rank, t)
  {
    if s.ds[t].mode.at == |s.ds[t].order| {
      return Leave(t, 0, 0);
    }
    var p := Current(s, t);
    assert StageOk(s.ds[t], t, s.ds[t].mode.at, s.pools[p].runs) && P.Inv(s.pools[p]);
    if t !in s.pools[p].runs {
      e := Scan(t, true);
    } else if s.pools[p].runs[t].Waiting? {
      e := Steal(t);
    } else {
      var slot := s.pools[p].runs[t].slot;
      if s.pools[p].mu[slot] == P.Nobody {
        e := Lock(t);
      } else {
        var u, j := OwnerStage(s, p, slot);
        if s.ds[u].mode.Leaving? {
          e := Unlock(u, j);
        } else {
          e := SomeoneMoves(s, rank, u);
        }
      }
    }
  }

  /** The owner of a slot mutex is a dispatch that is past the slot's pool. */
  lemma OwnerStage(s: Sys, p: nat, slot: nat) returns (u: nat, j: nat)
    requires Inv(s) && p < |s.pools| && slot < |s.pools[p].mu| && s.pools[p].mu[slot].Run?
    ensures u == s.pools[p].mu[slot].run && u < |s.ds| && DispatchOk(s, u)
    ensures j < |s.ds[u].order| && s.ds[u].order[j] == p && u in s.pools[p].runs && s.pools[p].runs[u].Locked?
    ensures P.Enabled(s.pools[p], P.Unlock(u))
    ensures s.ds[u].mode.Acquiring? ==> j < s.ds[u].mode.at
  {
    assert P.Inv(s.pools[p]);
    u := s.pools[p].mu[slot].run;
    assert Uses(s, u, p);
    assert DispatchOk(s, u);
    j :| 0 <= j < |s.ds[u].order| && s.ds[u].order[j] == p;
    assert StageOk(s.ds[u], u, j, s.pools[p].runs);
  }

  /** The run of a dispatch that is leaving can be unlocked or freed. */
  lemma LeaverMoves(s: Sys, p: nat, t: nat) returns (e: Event)
    requires Inv(s) && NothingKept(s)
    requires p < |s.pools| && t in s.pools[p].runs && t < |s.ds| && s.ds[t].mode.Leaving?
    ensures Quiet(e) && Enabled(s, e)
  {
    assert Uses(s, t, p) && DispatchOk(s, t) && P.Inv(s.pools[p]);
    var j: nat :| j < |s.ds[t].order| && s.ds[t].order[j] == p;
    assert StageOk(s.ds[t], t, j, s.pools[p].runs);
    e := if s.pools[p].runs[t].Locked? then Unlock(t, j) else Free(t, j);
  }

  /** With one order for all and nothing kept, dispatches cannot block each other: as long as
      anything is in flight, some dispatch can do its next step. */
  lemma NoDeadlock(s: Sys, rank: seq<nat>)
    requires Inv(s) && InOrder(s, rank) && NothingKept(s)
    ensures Stuck(s) ==> Idle(s)
  {
    if t: nat :| t < |s.ds| && s.ds[t].mode.Acquiring? {
      assert DispatchOk(s, t);
      var e := SomeoneMoves(s, rank, t);
    } else if p: nat, t: nat :| p < |s.pools| && t in s.pools[p].runs {
      assert Uses(s, t, p);
      var e := LeaverMoves(s, p, t);
    } else {
      forall p | 0 <= p < |s.pools|
        ensures PoolIdle(s.pools[p])
      {
        assert P.Inv(s.pools[p]);
        EmptyPoolIdle(s.pools[p]);
      }
    }
  }

  lemma EmptyPoolIdle(p: P.Sys)
    requires P.Inv(p) && forall t: nat :: t !in p.runs
    ensures PoolIdle(p)
  {
    assert forall i :: 0 <= i < |p.pool.slots| ==> !P.Held(p, i);
    assert p.runs.Keys == {};
  }

  lemma {:induction false} QuietExec(s: Sys, es: seq<Event>, rank: seq<nat>)
    requires InOrder(s, rank) && NothingKept(s) && Valid(s, es)
    requires forall k :: 0 <= k < |es| ==> Clean(es[k]) && (es[k].Start? ==> Rising(rank, es[k].order))
    ensures InOrder(Exec(s, es), rank) && NothingKept(Exec(s, es))
    decreases |es|
  {
    if es != [] {
      QuietStep(s, es[0], rank);
      QuietExec(Apply(s, es[0]), es[1..], rank);
    }
  }

  lemma QuietStep(s: Sys, e: Event, rank: seq<nat>)
    requires InOrder(s, rank) && NothingKept(s) && Enabled(s, e)
    requires Clean(e) && (e.Start? ==> Rising(rank, e.order))
    ensures InOrder(Apply(s, e), rank) && NothingKept(Apply(s, e))
  {
  }

  /** The states that dispatches of one order reach without partial aborts: any number of
      pools of any depths, any number of dispatches, any interleaving. */
  lemma OrderedRunsProgress(depths: seq<nat>, es: seq<Event>, rank: seq<nat>)
    requires |rank| == |depths| && Valid(Init(depths), es)
    requires forall k :: 0 <= k < |es| ==> Clean(es[k]) && (es[k].Start? ==> Rising(rank, es[k].order))
    ensures Stuck(Exec(Init(depths), es)) ==> Idle(Exec(Init(depths), es))
  {
    InitInv(depths);
    ExecInv(Init(depths), es);
    QuietExec(Init(depths), es, rank);
    NoDeadlock(Exec(Init(depths), es), rank);
  }

  lemma {:induction false} ExecShrinks(s: Sys, es: seq<Event>)
    requires Inv(s) && Valid(s, es) && forall k :: 0 <= k < |es| ==> !es[k].Start?
    ensures |es| + Total(Exec(s, es)) <= Total(s)
    decreases |es|
  {
    if es != [] {
      StepInv(s, es[0]);
      StepShrinks(s, es[0]);
      ExecShrinks(Apply(s, es[0]), es[1..]);
    }
  }

  /** Whatever the scheduler does, dispatches of one order come to their end: without new
      starts at most Total(s) events follow, and when none is left everything is given back. */
  lemma EveryScheduleDrains(s: Sys, es: seq<Event>, rank: seq<nat>)
    requires Inv(s) && InOrder(s, rank) && NothingKept(s)
    requires Valid(s, es) && forall k :: 0 <= k < |es| ==> Quiet(es[k])
    ensures |es| <= Total(s)
    ensures Stuck(Exec(s, es)) ==> Idle(Exec(s, es))
  {
    ExecShrinks(s, es);
    ExecInv(s, es);
    QuietExec(s, es, rank);
    NoDeadlock(Exec(s, es), rank);
  }

  // ---- what goes wrong otherwise -----------------------------------------------------------

  /** A mutex that a partial abort passed over stays with its run in every future, and a run
      that has leased the same slot since then never gets past it. */
  ghost predicate Lost(s: Sys, t: nat, i: nat) {
    Gone(s, t, i) && s.ds[t].mode.lo <= i < s.ds[t].mode.hi
  }

  ghost predicate WaitsFor(s: Sys, p: nat, u: nat, t: nat) {
    p < |s.pools| && t in s.pools[p].runs && s.pools[p].runs[t].Locked?
    && u in s.pools[p].runs && s.pools[p].runs[u].Holding? && s.pools[p].runs[u].slot == s.pools[p].runs[t].slot
  }

  lemma AtAgrees(s: Sys, p: nat, e: P.Event, t: nat, u: nat)
    requires p < |s.pools| && P.Enabled(s.pools[p], e) && Own(e, t) && u != t
    ensures forall q :: 0 <= q < |s.pools| ==> Agree(s.pools[q].runs, At(s, p, e).pools[q].runs, u)
  {
    OwnEvent(s.pools[p], t, e);
  }

  /** The events of the other dispatches leave a dispatch and its runs alone. */
  lemma AnotherMoves(s: Sys, e: Event, u: nat)
    requires Enabled(s, e) && u < |s.ds| && (e.Start? || e.t != u)
    ensures var s' := Apply(s, e);
      u < |s'.ds| && s'.ds[u] == s.ds[u] && |s'.pools| == |s.pools|
      && forall q :: 0 <= q < |s.pools| ==> Agree(s.pools[q].runs, s'.pools[q].runs, u)
  {
    match e
    case Start(_) =>
    case Scan(t, built) => AtAgrees(s, Current(s, t), P.Scan(t, built), t, u);
    case SyncFailed(t) => AtAgrees(s, Current(s, t), P.SyncFailed(t), t, u);
    case Steal(t) => AtAgrees(s, Current(s, t), P.Steal(t), t, u);
    case Lock(t) => AtAgrees(s, Current(s, t), P.Lock(t), t, u);
    case Leave(_, _, _) =>
    case Unlock(t, i) => AtAgrees(s, s.ds[t].order[i], P.Unlock(t), t, u);
    case Free(t, i) => AtAgrees(s, s.ds[t].order[i], P.Free(t), t, u);
  }

  lemma LostStep(s: Sys, e: Event, t: nat, i: nat)
    requires Inv(s) && Enabled(s, e) && Lost(s, t, i)
    ensures var s', p := Apply(s, e), s.ds[t].order[i];
      && Lost(s', t, i) && s'.ds[t] == s.ds[t]
      && t in s.pools[p].runs && t in s'.pools[p].runs && s'.pools[p].runs[t] == s.pools[p].runs[t]
      && s.pools[p].runs[t].Locked?
  {
    var p := s.ds[t].order[i];
    assert DispatchOk(s, t) && StageOk(s.ds[t], t, i, s.pools[p].runs);
    hide Inv;
    if e.Start? || e.t != t {
      AnotherMoves(s, e, t);
    } else {
      LostOwnStep(s, e, t, i);
    }
  }

  /** A dispatch can do nothing more at a stage it has passed over. */
  lemma LostOwnStep(s: Sys, e: Event, t: nat, i: nat)
    requires Lost(s, t, i) && DispatchOk(s, t) && Enabled(s, e) && !e.Start? && e.t == t
    requires StageOk(s.ds[t], t, i, s.pools[s.ds[t].order[i]].runs)
    ensures Apply(s, e).ds == s.ds && |Apply(s, e).pools| == |s.pools|
    ensures Apply(s, e).pools[s.ds[t].order[i]] == s.pools[s.ds[t].order[i]]
  {
    assert e.Unlock? || e.Free?;
    assert e.i != i;
    assert s.ds[t].order[e.i] != s.ds[t].order[i];
  }

  lemma BlockedStep(s: Sys, e: Event, t: nat, p: nat, u: nat)
    requires Inv(s) && Enabled(s, e) && WaitsFor(s, p, u, t) && u != t
    ensures u < |s.ds| && u < |Apply(s, e).ds| && Apply(s, e).ds[u] == s.ds[u]
    ensures |Apply(s, e).pools| == |s.pools| && Agree(s.pools[p].runs, Apply(s, e).pools[p].runs, u)
  {
    assert P.Inv(s.pools[p]) && Uses(s, u, p) && DispatchOk(s, u);
    var j: nat :| j < |s.ds[u].order| && s.ds[u].order[j] == p;
    assert StageOk(s.ds[u], u, j, s.pools[p].runs);
    assert s.pools[p].mu[s.pools[p].runs[u].slot] == P.Run(t);
    hide Inv;
    if e.Start? || e.t != u {
      AnotherMoves(s, e, u);
    } else {
      BlockedCannotMove(s, e, u, j);
    }
  }

  lemma BlockedCannotMove(s: Sys, e: Event, u: nat, j: nat)
    requires u < |s.ds| && DispatchOk(s, u) && j < |s.ds[u].order| && !e.Start? && e.t == u
    requires var p := s.pools[s.ds[u].order[j]];
      u in p.runs && p.runs[u].Holding? && (p.runs[u].slot < |p.mu| ==> p.mu[p.runs[u].slot].Run?)
    ensures !Enabled(s, e)
  {
    assert StageOk(s.ds[u], u, j, s.pools[s.ds[u].order[j]].runs);
  }

  lemma {:induction false} LostForever(s: Sys, es: seq<Event>, t: nat, i: nat)
    requires Inv(s) && Lost(s, t, i) && Valid(s, es)
    ensures var s', p := Exec(s, es), s.ds[t].order[i];
      && p < |s'.pools| && t in s'.pools[p].runs && s'.pools[p].runs[t].Locked?
      && var slot := s'.pools[p].runs[t].slot;
      && t in s.pools[p].runs && s'.pools[p].runs[t] == s.pools[p].runs[t]
      && slot < |s'.pools[p].mu| && s'.pools[p].mu[slot] == P.Run(t)
      && forall u: nat :: u != t && WaitsFor(s, p, u, t) ==>
           WaitsFor(s', p, u, t) && u < |s.ds| && u < |s'.ds| && s'.ds[u] == s.ds[u]
    decreases |es|
  {
    var p := s.ds[t].order[i];
    assert DispatchOk(s, t) && StageOk(s.ds[t], t, i, s.pools[p].runs) && P.Inv(s.pools[p]);
    if es == [] {
      forall u: nat | u != t && WaitsFor(s, p, u, t)
        ensures u < |s.ds|
      {
        assert Uses(s, u, p);
      }
    } else {
      var s1 := Apply(s, es[0]);
      StepInv(s, es[0]);
      LostStep(s, es[0], t, i);
      forall u: nat | u != t && WaitsFor(s, p, u, t)
        ensures WaitsFor(s1, p, u, t) && u < |s.ds| && u < |s1.ds| && s1.ds[u] == s.ds[u]
      {
        BlockedStep(s, es[0], t, p, u);
      }
      LostForever(s1, es[1..], t, i);
    }
  }

  // ---- what can be reached ---------------------------------------------------------------------

  lemma {:induction false} ExecAppend(s: Sys, es: seq<Event>, fs: seq<Event>)
    requires Valid(s, es) && Valid(Exec(s, es), fs)
    ensures Valid(s, es + fs) && Exec(s, es + fs) == Exec(Exec(s, es), fs)
    decreases |es|
  {
    if es == [] {
      assert es + fs == fs;
    } else {
      assert (es + fs)[1..] == es[1..] + fs;
      ExecAppend(Apply(s, es[0]), es[1..], fs);
    }
  }

  /** A pool of one slot that run t is in, and the same with run u behind it. */
  function Taken(t: nat): P.Sys {
    P.Sys(L.Pool(1, 1, [L.Slot(true, 1)]), [P.Run(t)], map[t := P.Locked(0, 1)])
  }

  function Shared(t: nat, u: nat): P.Sys {
    P.Sys(L.Pool(1, 2, [L.Slot(true, 2)]), [P.Run(t)], map[t := P.Locked(0, 1), u := P.Holding(0, 2)])
  }

  lemma TakePool(t: nat)
    ensures P.Enabled(P.Init(1), P.Scan(t, true))
    ensures var s := P.Apply(P.Init(1), P.Scan(t, true));
      t in s.runs && P.Enabled(s, P.Lock(t)) && P.Apply(s, P.Lock(t)) == Taken(t)
  {
  }

  lemma SharePool(t: nat, u: nat)
    requires t != u
    ensures P.Enabled(Taken(t), P.Scan(u, true))
    ensures var s := P.Apply(Taken(t), P.Scan(u, true));
      u in s.runs && P.Enabled(s, P.Steal(u)) && P.Apply(s, P.Steal(u)) == Shared(t, u)
  {
  }

  lemma Two(s: Sys, e: Event, f: Event)
    requires Enabled(s, e) && Enabled(Apply(s, e), f)
    ensures Valid(s, [e, f]) && Exec(s, [e, f]) == Apply(Apply(s, e), f)
  {
    Single(Apply(s, e), f);
    assert [e, f][1..] == [f];
  }

  lemma Enter(s: Sys, t: nat)
    requires Busy(s, t) && s.pools[Current(s, t)] == P.Init(1)
    ensures var es := [Scan(t, true), Lock(t)];
      Valid(s, es)
      && Exec(s, es) == Become(s.(pools := s.pools[Current(s, t) := Taken(t)]), t, Acquiring(s.ds[t].mode.at + 1))
  {
    TakePool(t);
    var p, s1 := Current(s, t), Apply(s, Scan(t, true));
    assert Apply(s1, Lock(t)).pools == s.pools[p := Taken(t)];
    Two(s, Scan(t, true), Lock(t));
  }

  lemma Queue(s: Sys, t: nat, u: nat)
    requires Busy(s, u) && t != u && s.pools[Current(s, u)] == Taken(t)
    ensures var es := [Scan(u, true), Steal(u)];
      Valid(s, es) && Exec(s, es) == s.(pools := s.pools[Current(s, u) := Shared(t, u)])
  {
    SharePool(t, u);
    var p, s1 := Current(s, u), Apply(s, Scan(u, true));
    assert Apply(s1, Steal(u)).pools == s.pools[p := Shared(t, u)];
    Two(s, Scan(u, true), Steal(u));
  }

  lemma Single(s: Sys, e: Event)
    requires Enabled(s, e)
    ensures Valid(s, [e]) && Exec(s, [e]) == Apply(s, e)
  {
    assert [e][1..] == [];
  }

  // ---- two orders ----------------------------------------------------------------------------

  /** A pool that the n runs from lo on have entered, each by itself in a slot. */
  ghost predicate Filling(s: P.Sys, depth: nat, lo: nat, n: nat) {
    if n == 0 then s == P.Init(depth)
    else
      n <= s.pool.depth == P.Init(depth).pool.depth && Packed(s, n)
      && forall t :: t in s.runs ==> lo <= t < lo + n
  }

  /** There are n slots, all in use, and somebody inside each. */
  ghost predicate Packed(s: P.Sys, n: nat) {
    0 < n == |s.pool.slots| == |s.mu|
    && forall j :: 0 <= j < n ==> s.pool.slots[j].inUse && s.mu[j].Run?
  }

  ghost predicate Full(s: P.Sys) {
    Packed(s, s.pool.depth)
  }

  /** Run t has a lease, and somebody else is inside its slot. */
  predicate Behind(s: P.Sys, t: nat) {
    t in s.runs && s.runs[t].Holding? && s.runs[t].slot < |s.mu| && s.mu[s.runs[t].slot].Run?
  }

  lemma FillOne(s: P.Sys, depth: nat, lo: nat, n: nat)
    requires Filling(s, depth, lo, n) && n < P.Init(depth).pool.depth
    ensures var t := lo + n;
      && P.Enabled(s, P.Scan(t, true))
      && t in P.Apply(s, P.Scan(t, true)).runs
      && P.Enabled(P.Apply(s, P.Scan(t, true)), P.Lock(t))
      && Filling(P.Apply(P.Apply(s, P.Scan(t, true)), P.Lock(t)), depth, lo, n + 1)
  {
    if n > 0 {
      L.FirstFreeNone(s.pool.slots);
    }
  }

  lemma QueueOne(s: P.Sys, t: nat)
    requires Full(s) && t !in s.runs
    ensures P.Enabled(s, P.Scan(t, true)) && t in P.Apply(s, P.Scan(t, true)).runs
    ensures P.Enabled(P.Apply(s, P.Scan(t, true)), P.Steal(t))
    ensures var s' := P.Apply(P.Apply(s, P.Scan(t, true)), P.Steal(t));
      Full(s') && Behind(s', t) && s'.mu == s.mu && forall u :: u != t ==> Agree(s.runs, s'.runs, u)
  {
    L.FirstFreeNone(s.pool.slots);
  }

  /** Everything but pool p and the dispatches lo .. hi - 1 is in s' as in s. */
  ghost predicate Beside(s: Sys, s': Sys, p: nat, lo: nat, hi: nat) {
    |s'.ds| == |s.ds| && |s'.pools| == |s.pools|
    && (forall t :: 0 <= t < |s.ds| && !(lo <= t < hi) ==> s'.ds[t] == s.ds[t])
    && forall i :: 0 <= i < |s.pools| && i != p ==> s'.pools[i] == s.pools[i]
  }

  lemma {:induction false} StartAll(s: Sys, order: seq<nat>, n: nat) returns (es: seq<Event>)
    requires Proper(order, |s.pools|)
    ensures Valid(s, es) && forall k :: 0 <= k < |es| ==> es[k] == Start(order)
    ensures Exec(s, es) == s.(ds := s.ds + seq(n, _ => Dispatch(order, Acquiring(0))))
    decreases n
  {
    if n == 0 {
      es := [];
      assert s.ds + seq(0, _ => Dispatch(order, Acquiring(0))) == s.ds;
    } else {
      var s1 := Apply(s, Start(order));
      var rest := StartAll(s1, order, n - 1);
      es := [Start(order)] + rest;
      assert es[1..] == rest;
      assert s1.ds + seq(n - 1, _ => Dispatch(order, Acquiring(0)))
        == s.ds + seq(n, _ => Dispatch(order, Acquiring(0)));
    }
  }

  lemma EnterNext(s: Sys, p: nat, depth: nat, lo: nat, n: nat)
    requires p < |s.pools| && n < P.Init(depth).pool.depth && Filling(s.pools[p], depth, lo, n)
    requires var t := lo + n;
      t < |s.ds| && s.ds[t].mode == Acquiring(0) && s.ds[t].order != [] && s.ds[t].order[0] == p
    ensures var t := lo + n;
      var es := [Scan(t, true), Lock(t)];
      Valid(s, es) && Exec(s, es).ds == s.ds[t := s.ds[t].(mode := Acquiring(1))]
      && |Exec(s, es).pools| == |s.pools| && Exec(s, es).pools == s.pools[p := Exec(s, es).pools[p]]
      && Filling(Exec(s, es).pools[p], depth, lo, n + 1)
  {
    var t := lo + n;
    FillOne(s.pools[p], depth, lo, n);
    hide Filling, Valid, Exec;
    Two(s, Scan(t, true), Lock(t));
    assert Apply(Apply(s, Scan(t, true)), Lock(t)).pools
      == s.pools[p := P.Apply(P.Apply(s.pools[p], P.Scan(t, true)), P.Lock(t))];
  }

  /** The runs lo + n .. lo + m - 1 enter the pool one after the other. */
  lemma {:induction false} EnterAll(s: Sys, p: nat, depth: nat, lo: nat, n: nat, m: nat) returns (es: seq<Event>)
    requires p < |s.pools| && n <= m <= P.Init(depth).pool.depth && Filling(s.pools[p], depth, lo, n)
    requires lo + m <= |s.ds|
    requires forall t :: lo + n <= t < lo + m ==>
      s.ds[t].mode == Acquiring(0) && s.ds[t].order != [] && s.ds[t].order[0] == p
    ensures Valid(s, es) && forall k :: 0 <= k < |es| ==> Quiet(es[k])
    ensures var s' := Exec(s, es);
      Beside(s, s', p, lo + n, lo + m) && Filling(s'.pools[p], depth, lo, m)
      && forall t :: lo + n <= t < lo + m ==> s'.ds[t] == s.ds[t].(mode := Acquiring(1))
    decreases m - n
  {
    hide Filling, Valid, Exec;
    if n == m {
      es := [];
      NoEvents(s);
    } else {
      var t := lo + n;
      EnterNext(s, p, depth, lo, n);
      var two := [Scan(t, true), Lock(t)];
      var s1 := Exec(s, two);
      var rest := EnterAll(s1, p, depth, lo, n + 1, m);
      es := two + rest;
      ExecAppend(s, two, rest);
    }
  }

  lemma NoEvents(s: Sys)
    ensures Valid(s, []) && Exec(s, []) == s
  {
  }

  lemma QueueNext(s: Sys, p: nat, t: nat)
    requires p < |s.pools| && Busy(s, t) && Current(s, t) == p && Full(s.pools[p]) && t !in s.pools[p].runs
    ensures var es := [Scan(t, true), Steal(t)];
      Valid(s, es) && Exec(s, es).ds == s.ds
      && |Exec(s, es).pools| == |s.pools| && Exec(s, es).pools == s.pools[p := Exec(s, es).pools[p]]
      && Full(Exec(s, es).pools[p]) && Behind(Exec(s, es).pools[p], t)
      && Exec(s, es).pools[p].mu == s.pools[p].mu
      && forall u :: u != t ==> Agree(s.pools[p].runs, Exec(s, es).pools[p].runs, u)
  {
    QueueOne(s.pools[p], t);
    hide Full, Valid, Exec;
    Two(s, Scan(t, true), Steal(t));
    assert Apply(Apply(s, Scan(t, true)), Steal(t)).pools
      == s.pools[p := P.Apply(P.Apply(s.pools[p], P.Scan(t, true)), P.Steal(t))];
  }

  /** The runs lo .. hi - 1 lease slots of a full pool. */
  lemma {:induction false} QueueAll(s: Sys, p: nat, lo: nat, hi: nat) returns (es: seq<Event>)
    requires p < |s.pools| && lo <= hi <= |s.ds| && Full(s.pools[p])
    requires forall t :: lo <= t < hi ==> Busy(s, t) && Current(s, t) == p && t !in s.pools[p].runs
    ensures Valid(s, es) && forall k :: 0 <= k < |es| ==> Quiet(es[k])
    ensures var s' := Exec(s, es);
      Beside(s, s', p, lo, lo) && Full(s'.pools[p]) && (forall t :: lo <= t < hi ==> Behind(s'.pools[p], t))
      && (forall t: nat :: t < lo ==> Agree(s.pools[p].runs, s'.pools[p].runs, t)) && s'.pools[p].mu == s.pools[p].mu
    decreases hi - lo
  {
    hide Full, Valid, Exec;
    if lo == hi {
      es := [];
      NoEvents(s);
    } else {
      QueueNext(s, p, lo);
      var two := [Scan(lo, true), Steal(lo)];
      var s1 := Exec(s, two);
      forall t | lo < t < hi
        ensures Busy(s1, t) && Current(s1, t) == p && t !in s1.pools[p].runs
      {
        assert Busy(s, t) && Agree(s.pools[p].runs, s1.pools[p].runs, t);
      }
      var rest := QueueAll(s1, p, lo + 1, hi);
      es := two + rest;
      ExecAppend(s, two, rest);
      var s' := Exec(s1, rest);
      assert Exec(s, es) == s';
      forall t: nat | t < lo
        ensures Agree(s.pools[p].runs, s'.pools[p].runs, t)
      {
        assert Agree(s.pools[p].runs, s1.pools[p].runs, t) && Agree(s1.pools[p].runs, s'.pools[p].runs, t);
      }
      BehindStays(s1.pools[p], s'.pools[p], lo);
    }
  }

  lemma BehindStays(s: P.Sys, s': P.Sys, t: nat)
    requires Behind(s, t) && Agree(s.runs, s'.runs, t) && s'.mu == s.mu
    ensures Behind(s', t)
  {
  }

  function Slots(depth: nat): nat {
    P.Init(depth).pool.depth
  }

  /** Without partial aborts, and with dispatches of these orders only. */
  predicate Among(e: Event, orders: set<seq<nat>>) {
    Clean(e) && (e.Start? ==> e.order in orders)
  }

  /** As many dispatches as pool p has slots take p and then q, as many as q has take q and then p, and
      each is inside a slot of its first pool. */
  ghost predicate BothInside(s: Sys, p: nat, q: nat, a: nat, b: nat)
    requires p < |s.pools| && q < |s.pools|
  {
    |s.ds| == a + b && Full(s.pools[p]) && Full(s.pools[q])
    && (forall t :: 0 <= t < a ==> s.ds[t] == Dispatch([p, q], Acquiring(1)) && t !in s.pools[q].runs)
    && forall t :: a <= t < a + b ==> s.ds[t] == Dispatch([q, p], Acquiring(1)) && t !in s.pools[p].runs
  }

  lemma StartBoth(depths: seq<nat>, p: nat, q: nat) returns (es: seq<Event>)
    requires p < |depths| && q < |depths| && p != q
    ensures Valid(Init(depths), es) && forall k :: 0 <= k < |es| ==> Among(es[k], {[p, q], [q, p]})
    ensures var s, a, b := Exec(Init(depths), es), Slots(depths[p]), Slots(depths[q]);
      s.pools == Init(depths).pools && |s.ds| == a + b
      && (forall t :: 0 <= t < a ==> s.ds[t] == Dispatch([p, q], Acquiring(0)))
      && forall t :: a <= t < a + b ==> s.ds[t] == Dispatch([q, p], Acquiring(0))
  {
    hide Valid, Exec;
    var s0 := Init(depths);
    es := StartAll(s0, [p, q], Slots(depths[p]));
    var more := StartAll(Exec(s0, es), [q, p], Slots(depths[q]));
    ExecAppend(s0, es, more);
    es := es + more;
  }

  lemma EnterBoth(depths: seq<nat>, p: nat, q: nat) returns (es: seq<Event>)
    requires p < |depths| && q < |depths| && p != q
    ensures Valid(Init(depths), es) && forall k :: 0 <= k < |es| ==> Among(es[k], {[p, q], [q, p]})
    ensures var s := Exec(Init(depths), es);
      |s.pools| == |depths| && BothInside(s, p, q, Slots(depths[p]), Slots(depths[q]))
  {
    es := StartBoth(depths, p, q);
    hide Valid, Exec, Filling;
    var s0, a, b := Init(depths), Slots(depths[p]), Slots(depths[q]);
    var s1 := Exec(s0, es);
    NobodyYet(depths[p], 0);
    NobodyYet(depths[q], a);
    var more := EnterAll(s1, p, depths[p], 0, 0, a);
    ExecAppend(s0, es, more);
    es := es + more;
    var s2 := Exec(s1, more);
    more := EnterAll(s2, q, depths[q], a, 0, b);
    ExecAppend(s0, es, more);
    es := es + more;
    var s3 := Exec(s2, more);
    FilledUp(s3.pools[p], depths[p], 0);
    FilledUp(s3.pools[q], depths[q], a);
  }

  lemma NobodyYet(depth: nat, lo: nat)
    ensures Filling(P.Init(depth), depth, lo, 0)
  {
  }

  lemma FilledUp(s: P.Sys, depth: nat, lo: nat)
    requires Filling(s, depth, lo, Slots(depth))
    ensures Full(s) && forall t :: t in s.runs ==> lo <= t < lo + Slots(depth)
  {
  }

  /** Dispatches that take two pools in opposite orders can end up waiting for each other, whatever the
      depths: once as many have begun in each order as the first pool of that order has slots, all of
      them can be in flight with none of them able to do anything. */
  lemma OppositeOrdersBlock(depths: seq<nat>, p: nat, q: nat) returns (es: seq<Event>)
    requires p < |depths| && q < |depths| && p != q
    ensures Valid(Init(depths), es) && forall k :: 0 <= k < |es| ==> Among(es[k], {[p, q], [q, p]})
    ensures var s, a, b := Exec(Init(depths), es), Slots(depths[p]), Slots(depths[q]);
      && |s.ds| == a + b && Stuck(s) && !Idle(s)
      && (forall t :: 0 <= t < a ==> s.ds[t] == Dispatch([p, q], Acquiring(1)))
      && forall t :: a <= t < a + b ==> s.ds[t] == Dispatch([q, p], Acquiring(1))
  {
    es := EnterBoth(depths, p, q);
    hide Valid, Exec, Stuck, Idle, Full, Behind;
    var s0, a, b := Init(depths), Slots(depths[p]), Slots(depths[q]);
    var s1 := Exec(s0, es);
    var more := QueueAll(s1, q, 0, a);
    ExecAppend(s0, es, more);
    es := es + more;
    var s2 := Exec(s1, more);
    more := QueueAll(s2, p, a, a + b);
    ExecAppend(s0, es, more);
    es := es + more;
    AllBehind(Exec(s2, more));
  }

  /** Dispatches of these orders can reach a state in which some are in flight and none can move. */
  ghost predicate CanBlock(depths: seq<nat>, orders: set<seq<nat>>) {
    exists es: seq<Event> :: Blocks(depths, orders, es)
  }

  ghost predicate Blocks(depths: seq<nat>, orders: set<seq<nat>>, es: seq<Event>) {
    Valid(Init(depths), es) && (forall k :: 0 <= k < |es| ==> Among(es[k], orders))
    && Stuck(Exec(Init(depths), es)) && !Idle(Exec(Init(depths), es))
  }

  /** Of two pools the order matters exactly if both orders occur. */
  lemma TwoPoolsBlockIff(depths: seq<nat>, p: nat, q: nat, orders: set<seq<nat>>)
    requires p < |depths| && q < |depths| && p != q && orders <= {[p, q], [q, p], [p], [q]}
    ensures CanBlock(depths, orders) <==> [p, q] in orders && [q, p] in orders
  {
    hide Valid, Exec, Stuck, Idle;
    if [p, q] in orders && [q, p] in orders {
      var es := OppositeOrdersBlock(depths, p, q);
      assert Blocks(depths, orders, es);
    } else {
      var first := if [p, q] in orders then p else q;
      var rank := seq(|depths|, i => if i == first then 0 else 1);
      forall es: seq<Event> | Valid(Init(depths), es) && forall k :: 0 <= k < |es| ==> Among(es[k], orders)
        ensures Stuck(Exec(Init(depths), es)) ==> Idle(Exec(Init(depths), es))
      {
        forall k | 0 <= k < |es|
          ensures Clean(es[k]) && (es[k].Start? ==> Rising(rank, es[k].order))
        {
          assert Among(es[k], orders);
        }
        OrderedRunsProgress(depths, es, rank);
      }
    }
  }

  lemma AllBehind(s: Sys)
    requires |s.ds| > 0
    requires forall t :: 0 <= t < |s.ds| ==>
      s.ds[t].mode == Acquiring(1) && Busy(s, t) && Behind(s.pools[Current(s, t)], t)
    ensures Stuck(s) && !Idle(s)
  {
    assert s.ds[0].mode.Acquiring?;
    forall e | Quiet(e)
      ensures !Enabled(s, e)
    {
      if e.t < |s.ds| {
        assert Behind(s.pools[Current(s, e.t)], e.t);
      }
    }
  }

  /** One failed evaluation of a dispatch over two pools is enough: the dispatch after it is
      behind the mutex that was passed over, for good (see LostForever). */
  lemma OneFailureBlocks() returns (es: seq<Event>)
    ensures Valid(Init([1, 1]), es)
    ensures var s := Exec(Init([1, 1]), es);
      && Inv(s) && |s.ds| == 2 && s.ds[0].order == [0, 1] && s.ds[1].order == [0]
      && Lost(s, 0, 0) && WaitsFor(s, 0, 1, 0)
  {
    hide Valid, Exec, Inv;
    var s0 := Init([1, 1]);
    Single(s0, Start([0, 1]));
    es := [Start([0, 1])];
    assert Exec(s0, es) == Sys([P.Init(1), P.Init(1)], [Dispatch([0, 1], Acquiring(0))]);
    Enter(Exec(s0, es), 0);
    ExecAppend(s0, es, [Scan(0, true), Lock(0)]);
    es := es + [Scan(0, true), Lock(0)];
    Enter(Exec(s0, es), 0);
    ExecAppend(s0, es, [Scan(0, true), Lock(0)]);
    es := es + [Scan(0, true), Lock(0)];
    assert Exec(s0, es) == Sys([Taken(0), Taken(0)], [Dispatch([0, 1], Acquiring(2))]);
    Two(Exec(s0, es), Leave(0, 0, 1), Start([0]));
    ExecAppend(s0, es, [Leave(0, 0, 1), Start([0])]);
    es := es + [Leave(0, 0, 1), Start([0])];
    assert Exec(s0, es)
        == Sys([Taken(0), Taken(0)], [Dispatch([0, 1], Leaving(0, 1)), Dispatch([0], Acquiring(0))]);
    Queue(Exec(s0, es), 0, 1);
    ExecAppend(s0, es, [Scan(1, true), Steal(1)]);
    es := es + [Scan(1, true), Steal(1)];
    InitInv([1, 1]);
    ExecInv(s0, es);
  }
}
