/** Every interleaving of runs over one pool (decode/pool.go): each run acquires a
    slot, locks the slot mutex, unlocks it when its output is taken or it aborts,
    and releases its lease, at once or later through an output view. Each critical
    section is one atomic event of one run; any number of runs may be in flight. */
module LeaseProtocol {
  import opened LeasePool

  type RunId = nat

  /** A run that is not in the map is not in the pool. */
  datatype Phase =
    | Waiting                                          // between the two sections of acquireSlot
    | Holding(slot: nat, lease: nat)                   // leased, before slot.mu.Lock
    | Locked(slot: nat, lease: nat)                    // prepared run: slot mutex held
    | Unlocked(slot: nat, lease: nat)                  // mutex given back, release still to come

  datatype Owner = Nobody | Run(run: RunId)

  datatype Sys = Sys(pool: Pool, mu: seq<Owner>, runs: map<RunId, Phase>)

  datatype Event =
    | Scan(run: RunId, built: bool)
    | SyncFailed(run: RunId)
    | Steal(run: RunId)
    | Lock(run: RunId)
    | Unlock(run: RunId)
    | Free(run: RunId)
    | FreeAgain(slot: nat, lease: nat)                 // a release callback called once more

  predicate HoldsLease(ph: Phase) { !ph.Waiting? }

  predicate Has(s: Sys, t: RunId, slot: nat, lease: nat) {
    t in s.runs && HoldsLease(s.runs[t]) && s.runs[t].slot == slot && s.runs[t].lease == lease
  }

  function Init(depth: nat): Sys {
    Sys(Pool(if depth < 1 then 1 else depth, 0, [Slot(false, 0)]), [Nobody], map[])
  }

  ghost predicate Enabled(s: Sys, e: Event) {
    match e
    case Scan(t, _) => t !in s.runs
    case SyncFailed(t) => t in s.runs && s.runs[t].Waiting?
    case Steal(t) => t in s.runs && s.runs[t].Waiting?
    case Lock(t) => t in s.runs && s.runs[t].Holding? && s.runs[t].slot < |s.mu| && s.mu[s.runs[t].slot] == Nobody
    case Unlock(t) => t in s.runs && s.runs[t].Locked? && s.runs[t].slot < |s.mu|
    case Free(t) => t in s.runs && s.runs[t].Unlocked? && s.runs[t].slot < |s.pool.slots|
    case FreeAgain(i, lease) => i < |s.pool.slots| && 1 <= lease && forall t :: !Has(s, t, i, lease)
  }

  function Acquired(s: Sys, t: RunId, r: (Pool, Outcome)): Sys {
    var mu := if |r.0.slots| > |s.mu| then s.mu + [Nobody] else s.mu;
    match r.1
    case Leased(i, lease) => Sys(r.0, mu, s.runs[t := Holding(i, lease)])
    case Stalled => Sys(r.0, mu, s.runs[t := Waiting])
    case _ => Sys(r.0, mu, s.runs - {t})
  }

  ghost function Apply(s: Sys, e: Event): Sys
    requires Enabled(s, e)
  {
    match e
    case Scan(t, built) => Acquired(s, t, ScanOrGrow(s.pool, built))
    case SyncFailed(t) => s.(runs := s.runs - {t})
    case Steal(t) => Acquired(s, t, ScanOrSteal(s.pool))
    case Lock(t) => var ph := s.runs[t];
      s.(mu := s.mu[ph.slot := Run(t)], runs := s.runs[t := Locked(ph.slot, ph.lease)])
    case Unlock(t) => var ph := s.runs[t];
      s.(mu := s.mu[ph.slot := Nobody], runs := s.runs[t := Unlocked(ph.slot, ph.lease)])
    case Free(t) => var ph := s.runs[t];
      s.(pool := Release(s.pool, ph.slot, ph.lease), runs := s.runs - {t})
    case FreeAgain(i, lease) => s.(pool := Release(s.pool, i, lease))
  }

  // ---- the invariant -----------------------------------------------------------

  ghost predicate PoolOk(p: Pool) {
    && 1 <= |p.slots| <= p.depth
    && (forall i :: 0 <= i < |p.slots| ==> p.slots[i].lease <= p.leaseSeq)
    && (forall i, j :: 0 <= i < j < |p.slots| ==> p.slots[i].lease != p.slots[j].lease)
  }

  ghost predicate LeasesOk(s: Sys) {
    && (forall t :: t in s.runs && HoldsLease(s.runs[t]) ==>
          s.runs[t].slot < |s.pool.slots| && 1 <= s.runs[t].lease <= s.pool.slots[s.runs[t].slot].lease)
    && (forall t, u :: t in s.runs && u in s.runs && t != u && HoldsLease(s.runs[t]) && HoldsLease(s.runs[u]) ==>
          s.runs[t].lease != s.runs[u].lease)
  }

  ghost predicate Held(s: Sys, i: nat)
    requires i < |s.pool.slots|
  {
    exists t :: Has(s, t, i, s.pool.slots[i].lease)
  }

  /** A slot is marked in use exactly when some run still holds its current lease. */
  ghost predicate UseOk(s: Sys) {
    forall i :: 0 <= i < |s.pool.slots| ==> (s.pool.slots[i].inUse <==> Held(s, i))
  }

  /** A slot mutex is owned by the one run that is inside it. */
  ghost predicate MutexOk(s: Sys) {
    && |s.mu| == |s.pool.slots|
    && (forall i :: 0 <= i < |s.mu| && s.mu[i].Run? ==>
          s.mu[i].run in s.runs && s.runs[s.mu[i].run].Locked? && s.runs[s.mu[i].run].slot == i)
    && (forall t :: t in s.runs && s.runs[t].Locked? ==> s.runs[t].slot < |s.mu| && s.mu[s.runs[t].slot] == Run(t))
  }

  /** A run that has seen the pool exhausted finds it fully grown ever after. */
  ghost predicate WaitOk(s: Sys) {
    forall t :: t in s.runs && s.runs[t].Waiting? ==> |s.pool.slots| == s.pool.depth
  }

  ghost predicate Inv(s: Sys) {
    PoolOk(s.pool) && LeasesOk(s) && UseOk(s) && MutexOk(s) && WaitOk(s)
  }

  lemma InitInv(depth: nat)
    ensures Inv(Init(depth))
  {
  }

  /** A run that leaves every other run's lease alone keeps `Held` on the slots it
      does not touch. */
  lemma HeldElsewhere(s: Sys, s': Sys, t: RunId, i: nat)
    requires i < |s.pool.slots| && i < |s'.pool.slots| && s'.pool.slots[i].lease == s.pool.slots[i].lease
    requires forall u :: u != t ==> (u in s.runs <==> u in s'.runs) && (u in s.runs ==> s.runs[u] == s'.runs[u])
    requires t in s.runs && HoldsLease(s.runs[t]) ==> s.runs[t].slot != i || s.runs[t].lease != s.pool.slots[i].lease
    requires t in s'.runs && HoldsLease(s'.runs[t]) ==>
      s'.runs[t].slot != i || s'.runs[t].lease != s.pool.slots[i].lease
    ensures Held(s, i) <==> Held(s', i)
  {
    var l := s.pool.slots[i].lease;
    if Held(s, i) {
      var u :| Has(s, u, i, l);
      assert Has(s', u, i, l);
    }
    if Held(s', i) {
      var u :| Has(s', u, i, l);
      assert Has(s, u, i, l);
    }
  }

  lemma GrantUse(s: Sys, t: RunId, i: nat)
    requires PoolOk(s.pool) && LeasesOk(s) && UseOk(s) && i < |s.pool.slots|
    requires t in s.runs ==> s.runs[t].Waiting?
    ensures UseOk(Acquired(s, t, (Grant(s.pool, i), Leased(i, s.pool.leaseSeq + 1))))
  {
    var s' := Acquired(s, t, (Grant(s.pool, i), Leased(i, s.pool.leaseSeq + 1)));
    forall j | 0 <= j < |s'.pool.slots|
      ensures s'.pool.slots[j].inUse <==> Held(s', j)
    {
      if j == i {
        assert Has(s', t, i, s'.pool.slots[i].lease);
      } else {
        HeldElsewhere(s, s', t, j);
      }
    }
  }

  /** Leases stay in order when slot leases only grow and at most run `t` changes,
      to a phase whose lease no other run holds. */
  lemma LeasesFrame(s: Sys, s': Sys, t: RunId)
    requires LeasesOk(s) && |s.pool.slots| <= |s'.pool.slots|
    requires forall i :: 0 <= i < |s.pool.slots| ==> s.pool.slots[i].lease <= s'.pool.slots[i].lease
    requires forall u :: u != t ==> (u in s.runs <==> u in s'.runs) && (u in s.runs ==> s.runs[u] == s'.runs[u])
    requires t in s'.runs && HoldsLease(s'.runs[t]) ==>
      && s'.runs[t].slot < |s'.pool.slots| && 1 <= s'.runs[t].lease <= s'.pool.slots[s'.runs[t].slot].lease
      && forall u :: u != t && u in s.runs && HoldsLease(s.runs[u]) ==> s.runs[u].lease != s'.runs[t].lease
    ensures LeasesOk(s')
  {
  }

  lemma OldLeasesBelow(s: Sys)
    requires PoolOk(s.pool) && LeasesOk(s)
    ensures forall u :: u in s.runs && HoldsLease(s.runs[u]) ==> s.runs[u].lease <= s.pool.leaseSeq
  {
  }

  lemma GrantRest(s: Sys, t: RunId, i: nat)
    requires PoolOk(s.pool) && LeasesOk(s) && i < |s.pool.slots|
    requires t in s.runs ==> s.runs[t].Waiting?
    ensures var s' := Acquired(s, t, (Grant(s.pool, i), Leased(i, s.pool.leaseSeq + 1)));
      PoolOk(s'.pool) && LeasesOk(s')
  {
    OldLeasesBelow(s);
    LeasesFrame(s, Acquired(s, t, (Grant(s.pool, i), Leased(i, s.pool.leaseSeq + 1))), t);
  }

  lemma GrantMutex(s: Sys, t: RunId, i: nat)
    requires MutexOk(s) && WaitOk(s) && i < |s.pool.slots|
    requires t in s.runs ==> s.runs[t].Waiting?
    ensures var s' := Acquired(s, t, (Grant(s.pool, i), Leased(i, s.pool.leaseSeq + 1)));
      MutexOk(s') && WaitOk(s')
  {
  }

  lemma GrowUse(s: Sys, t: RunId)
    requires PoolOk(s.pool) && LeasesOk(s) && UseOk(s) && t !in s.runs
    ensures UseOk(Acquired(s, t, (Grow(s.pool), Leased(|s.pool.slots|, s.pool.leaseSeq + 1))))
  {
    var n := |s.pool.slots|;
    var s' := Acquired(s, t, (Grow(s.pool), Leased(n, s.pool.leaseSeq + 1)));
    forall j | 0 <= j < |s'.pool.slots|
      ensures s'.pool.slots[j].inUse <==> Held(s', j)
    {
      if j == n {
        assert Has(s', t, n, s'.pool.slots[n].lease);
      } else {
        HeldElsewhere(s, s', t, j);
      }
    }
  }

  lemma GrowRest(s: Sys, t: RunId)
    requires PoolOk(s.pool) && LeasesOk(s) && |s.pool.slots| < s.pool.depth && t !in s.runs
    ensures var s' := Acquired(s, t, (Grow(s.pool), Leased(|s.pool.slots|, s.pool.leaseSeq + 1)));
      PoolOk(s'.pool) && LeasesOk(s')
  {
    OldLeasesBelow(s);
    LeasesFrame(s, Acquired(s, t, (Grow(s.pool), Leased(|s.pool.slots|, s.pool.leaseSeq + 1))), t);
  }

  lemma GrowMutex(s: Sys, t: RunId)
    requires MutexOk(s) && WaitOk(s) && |s.pool.slots| < s.pool.depth && t !in s.runs
    ensures var s' := Acquired(s, t, (Grow(s.pool), Leased(|s.pool.slots|, s.pool.leaseSeq + 1)));
      MutexOk(s') && WaitOk(s')
  {
  }

  /** What a run gives back is its own slot, unless that was stolen. */
  lemma FreeUse(s: Sys, t: RunId)
    requires PoolOk(s.pool) && LeasesOk(s) && UseOk(s) && Enabled(s, Free(t))
    ensures UseOk(Apply(s, Free(t)))
  {
    var s' := Apply(s, Free(t));
    var ph := s.runs[t];
    forall i | 0 <= i < |s'.pool.slots|
      ensures s'.pool.slots[i].inUse <==> Held(s', i)
    {
      var l := s.pool.slots[i].lease;
      if i == ph.slot && l == ph.lease {
        forall u ensures !Has(s', u, i, l) {}
      } else {
        HeldElsewhere(s, s', t, i);
      }
    }
  }

  lemma FreeRest(s: Sys, t: RunId)
    requires PoolOk(s.pool) && LeasesOk(s) && Enabled(s, Free(t))
    ensures var s' := Apply(s, Free(t));
      PoolOk(s'.pool) && LeasesOk(s')
  {
    LeasesFrame(s, Apply(s, Free(t)), t);
  }

  lemma FreeMutex(s: Sys, t: RunId)
    requires MutexOk(s) && WaitOk(s) && Enabled(s, Free(t))
    ensures var s' := Apply(s, Free(t));
      MutexOk(s') && WaitOk(s')
  {
  }

  /** Changes that leave pool and leases alone: mutex events, waiting and giving up. */
  lemma SameLeasesUse(s: Sys, s': Sys)
    requires UseOk(s) && s'.pool == s.pool
    requires forall u, j, l :: Has(s', u, j, l) <==> Has(s, u, j, l)
    ensures UseOk(s')
  {
    forall i | 0 <= i < |s.pool.slots|
      ensures Held(s', i) <==> Held(s, i)
    {
      assert forall u :: Has(s', u, i, s.pool.slots[i].lease) <==> Has(s, u, i, s.pool.slots[i].lease);
    }
  }

  lemma LockInv(s: Sys, t: RunId)
    requires Inv(s) && Enabled(s, Lock(t))
    ensures Inv(Apply(s, Lock(t)))
  {
    var s' := Apply(s, Lock(t));
    SameLeasesUse(s, s');
    LeasesFrame(s, s', t);
    MutexFrame(s, s', t);
  }

  lemma UnlockInv(s: Sys, t: RunId)
    requires Inv(s) && Enabled(s, Unlock(t))
    ensures Inv(Apply(s, Unlock(t)))
  {
    var s' := Apply(s, Unlock(t));
    SameLeasesUse(s, s');
    LeasesFrame(s, s', t);
    MutexFrame(s, s', t);
  }

  /** Locking a free slot mutex or unlocking an own one keeps ownership exact. */
  lemma MutexFrame(s: Sys, s': Sys, t: RunId)
    requires MutexOk(s) && WaitOk(s) && s'.pool == s.pool && t in s.runs && HoldsLease(s.runs[t])
    requires s.runs[t].slot < |s.mu|
    requires || (s.mu[s.runs[t].slot] == Nobody && s'.mu == s.mu[s.runs[t].slot := Run(t)] && !s.runs[t].Locked?
                 && s'.runs == s.runs[t := Locked(s.runs[t].slot, s.runs[t].lease)])
             || (s.runs[t].Locked? && s'.mu == s.mu[s.runs[t].slot := Nobody]
                 && s'.runs == s.runs[t := Unlocked(s.runs[t].slot, s.runs[t].lease)])
    ensures MutexOk(s') && WaitOk(s')
  {
  }

  /** Calling a release callback again, after its lease is gone, has no effect:
      either the slot has a newer lease or it is free already. */
  lemma FreeAgainIsNoop(s: Sys, i: nat, lease: nat)
    requires Inv(s) && Enabled(s, FreeAgain(i, lease))
    ensures Apply(s, FreeAgain(i, lease)) == s
  {
    if s.pool.slots[i].lease == lease {
      assert !Held(s, i);
      assert s.pool.slots[i := Slot(false, lease)] == s.pool.slots;
    }
  }

  lemma DropWaitingInv(s: Sys, t: RunId)
    requires Inv(s) && (t in s.runs ==> s.runs[t].Waiting?)
    ensures Inv(s.(runs := s.runs - {t}))
  {
    SameLeasesUse(s, s.(runs := s.runs - {t}));
  }

  lemma SlotsWithinDepth(s: Sys)
    requires Inv(s)
    ensures 1 <= |s.pool.slots| <= s.pool.depth
  {
  }

  lemma GiveUpInv(s: Sys, t: RunId)
    requires Inv(s) && t !in s.runs
    ensures Inv(Acquired(s, t, (s.pool, BuildFailed)))
  {
    assert s.runs - {t} == s.runs;
  }

  lemma StallInv(s: Sys, t: RunId)
    requires Inv(s) && t !in s.runs && |s.pool.slots| == s.pool.depth
    ensures Inv(Acquired(s, t, (s.pool, Stalled)))
  {
    var s' := s.(runs := s.runs[t := Waiting]);
    SameLeasesUse(s, s');
    LeasesFrame(s, s', t);
    assert MutexOk(s');
    assert Acquired(s, t, (s.pool, Stalled)) == s';
  }

  lemma GrantInv(s: Sys, t: RunId, i: nat)
    requires Inv(s) && i < |s.pool.slots| && (t in s.runs ==> s.runs[t].Waiting?)
    ensures Inv(Acquired(s, t, (Grant(s.pool, i), Leased(i, s.pool.leaseSeq + 1))))
  {
    GrantUse(s, t, i);
    GrantRest(s, t, i);
    GrantMutex(s, t, i);
  }

  lemma GrowInv(s: Sys, t: RunId)
    requires Inv(s) && |s.pool.slots| < s.pool.depth && t !in s.runs
    ensures Inv(Acquired(s, t, (Grow(s.pool), Leased(|s.pool.slots|, s.pool.leaseSeq + 1))))
  {
    GrowUse(s, t);
    GrowRest(s, t);
    GrowMutex(s, t);
  }

  lemma ScanInv(s: Sys, t: RunId, built: bool)
    requires Inv(s) && t !in s.runs
    ensures Inv(Acquired(s, t, ScanOrGrow(s.pool, built)))
  {
    hide Inv, Acquired, Grant, Grow;
    SlotsWithinDepth(s);
    GiveUpInv(s, t);
    var i := FirstFree(s.pool.slots);
    if i < |s.pool.slots| {
      GrantInv(s, t, i);
    } else if |s.pool.slots| == s.pool.depth {
      StallInv(s, t);
    } else if built {
      GrowInv(s, t);
    }
  }

  lemma StealInv(s: Sys, t: RunId)
    requires Inv(s) && Enabled(s, Steal(t))
    ensures Inv(Acquired(s, t, ScanOrSteal(s.pool)))
  {
    hide Inv, Acquired, Grant;
    SlotsWithinDepth(s);
    var i := FirstFree(s.pool.slots);
    if i < |s.pool.slots| {
      GrantInv(s, t, i);
    } else {
      GrantInv(s, t, Oldest(s.pool.slots));
    }
  }

  lemma FreeInv(s: Sys, t: RunId)
    requires Inv(s) && Enabled(s, Free(t))
    ensures Inv(Apply(s, Free(t)))
  {
    FreeUse(s, t);
    FreeRest(s, t);
    FreeMutex(s, t);
  }

  lemma StepInv(s: Sys, e: Event)
    requires Inv(s) && Enabled(s, e)
    ensures Inv(Apply(s, e))
  {
    hide Inv;
    match e
    case Scan(t, built) => ScanInv(s, t, built);
    case SyncFailed(t) => DropWaitingInv(s, t);
    case Steal(t) => StealInv(s, t);
    case Lock(t) => LockInv(s, t);
    case Unlock(t) => UnlockInv(s, t);
    case Free(t) => FreeInv(s, t);
    case FreeAgain(i, lease) => FreeAgainIsNoop(s, i, lease);
  }

  // ---- whole runs --------------------------------------------------------------

  ghost predicate Valid(s: Sys, es: seq<Event>)
    decreases |es|
  {
    es == [] || (Enabled(s, es[0]) && Valid(Apply(s, es[0]), es[1..]))
  }

  ghost function Exec(s: Sys, es: seq<Event>): Sys
    requires Valid(s, es)
    decreases |es|
  {
    if es == [] then s else Exec(Apply(s, es[0]), es[1..])
  }

  /** The lease numbers handed out along a run of events, in order. */
  ghost function Issued(s: Sys, es: seq<Event>): seq<nat>
    requires Valid(s, es)
    decreases |es|
  {
    if es == [] then []
    else
      var s' := Apply(s, es[0]);
      (if s'.pool.leaseSeq != s.pool.leaseSeq then [s'.pool.leaseSeq] else []) + Issued(s', es[1..])
  }

  lemma {:induction false} ExecInv(s: Sys, es: seq<Event>)
    requires Inv(s) && Valid(s, es)
    ensures Inv(Exec(s, es))
    decreases |es|
  {
    if es != [] {
      StepInv(s, es[0]);
      ExecInv(Apply(s, es[0]), es[1..]);
    }
  }

  /** In every reachable state of a pool of any depth: at most `depth` slots, each with
      its own lease; a slot mutex never has two owners; a slot is in use exactly when
      a run holds its current lease. */
  lemma PoolSafety(depth: nat, es: seq<Event>)
    requires Valid(Init(depth), es)
    ensures var s := Exec(Init(depth), es);
      && 1 <= |s.pool.slots| <= (if depth < 1 then 1 else depth)
      && (forall i, j :: 0 <= i < j < |s.pool.slots| ==> s.pool.slots[i].lease != s.pool.slots[j].lease)
      && (forall t, u :: t in s.runs && u in s.runs && s.runs[t].Locked? && s.runs[u].Locked? && t != u ==>
            s.runs[t].slot != s.runs[u].slot)
      && UseOk(s)
  {
    InitInv(depth);
    ExecInv(Init(depth), es);
    DepthFixed(Init(depth), es);
  }

  lemma {:induction false} DepthFixed(s: Sys, es: seq<Event>)
    requires Valid(s, es)
    ensures Exec(s, es).pool.depth == s.pool.depth
    decreases |es|
  {
    if es != [] {
      DepthFixed(Apply(s, es[0]), es[1..]);
    }
  }

  /** Leases are handed out as consecutive numbers: strictly increasing, none twice. */
  lemma {:induction false} LeasesStrictlyIncrease(s: Sys, es: seq<Event>)
    requires Valid(s, es)
    ensures var ls := Issued(s, es);
      && (forall k :: 0 <= k < |ls| ==> ls[k] == s.pool.leaseSeq + 1 + k)
      && Exec(s, es).pool.leaseSeq == s.pool.leaseSeq + |ls|
    decreases |es|
  {
    if es != [] {
      LeasesStrictlyIncrease(Apply(s, es[0]), es[1..]);
    }
  }

  /** The "output pool is empty" and "still stalled" results of the second section are
      unreachable: a waiting run always leaves it with a fresh lease. */
  lemma StealAlwaysLeases(s: Sys, t: RunId)
    requires Inv(s) && Enabled(s, Steal(t))
    ensures var s' := Apply(s, Steal(t));
      t in s'.runs && s'.runs[t].Holding? && s'.runs[t].lease == s.pool.leaseSeq + 1
      && s'.pool.slots[s'.runs[t].slot] == Slot(true, s.pool.leaseSeq + 1)
      && s'.runs == s.runs[t := s'.runs[t]]
  {
  }

  /** A slot in use changes in two ways only: the run that holds its lease gives it back, or the
      lease is stolen; and that happens only while every slot is in use, to the oldest lease. */
  lemma UsedSlotsStay(s: Sys, e: Event, i: nat)
    requires Inv(s) && Enabled(s, e) && i < |s.pool.slots| && s.pool.slots[i].inUse
    requires Apply(s, e).pool.slots[i] != s.pool.slots[i]
    ensures || (e.Free? && s.runs[e.run].slot == i && s.runs[e.run].lease == s.pool.slots[i].lease)
            || (e.Steal? && forall j :: 0 <= j < |s.pool.slots| ==>
                  s.pool.slots[j].inUse && s.pool.slots[i].lease <= s.pool.slots[j].lease)
  {
    if e.FreeAgain? {
      FreeAgainIsNoop(s, e.slot, e.lease);
    }
  }

  /** A run that gets a slot while some slot is free gets the first that is, and the pool grows
      only while none is and the depth allows it. */
  lemma FreeSlotsFirst(s: Sys, e: Event, i: nat)
    requires Enabled(s, e) && (e.Scan? || e.Steal?) && i < |s.pool.slots| && !s.pool.slots[i].inUse
    ensures var s' := Apply(s, e);
      && |s'.pool.slots| == |s.pool.slots| && e.run in s'.runs && s'.runs[e.run].Holding?
      && s'.runs[e.run].slot <= i && !s.pool.slots[s'.runs[e.run].slot].inUse
      && forall j :: 0 <= j < s'.runs[e.run].slot ==> s.pool.slots[j].inUse
  {
  }

  lemma GrowsOnlyWhenFull(s: Sys, e: Event)
    requires Enabled(s, e) && |Apply(s, e).pool.slots| != |s.pool.slots|
    ensures e.Scan? && |Apply(s, e).pool.slots| == |s.pool.slots| + 1 <= s.pool.depth
    ensures forall j :: 0 <= j < |s.pool.slots| ==> s.pool.slots[j].inUse
  {
  }

  /** Releasing a lease that was stolen meanwhile leaves the pool as it is; releasing a
      current lease frees exactly its slot. */
  lemma StaleReleaseChangesNothing(s: Sys, t: RunId)
    requires Inv(s) && Enabled(s, Free(t))
    ensures var ph := s.runs[t];
      var p' := Apply(s, Free(t)).pool;
      && (s.pool.slots[ph.slot].lease != ph.lease ==> p' == s.pool)
      && (s.pool.slots[ph.slot].lease == ph.lease ==>
            s.pool.slots[ph.slot].inUse && !p'.slots[ph.slot].inUse)
      && forall i :: 0 <= i < |s.pool.slots| && i != ph.slot ==> p'.slots[i] == s.pool.slots[i]
  {
    assert Has(s, t, s.runs[t].slot, s.runs[t].lease);
  }

  // ---- how old a stolen lease is -------------------------------------------------

  lemma {:induction false} BoundedSetSize(a: set<nat>, lo: nat, hi: nat)
    requires lo <= hi + 1 && forall x :: x in a ==> lo <= x <= hi
    ensures |a| <= hi + 1 - lo
    decreases hi + 1 - lo
  {
    if lo <= hi {
      BoundedSetSize(a - {lo}, lo + 1, hi);
    } else {
      assert a == {};
    }
  }

  function Leases(slots: seq<Slot>): (r: set<nat>)
    ensures forall l :: l in r <==> exists i :: 0 <= i < |slots| && slots[i].lease == l
  {
    if slots == [] then {}
    else
      assert forall i :: 0 < i < |slots| ==> slots[i] == slots[1..][i - 1];
      {slots[0].lease} + Leases(slots[1..])
  }

  lemma {:induction false} DistinctLeasesSize(slots: seq<Slot>)
    requires forall i, j :: 0 <= i < j < |slots| ==> slots[i].lease != slots[j].lease
    ensures |Leases(slots)| == |slots|
  {
    if slots != [] {
      DistinctLeasesSize(slots[1..]);
      assert slots[0].lease !in Leases(slots[1..]);
    }
  }

  lemma OldestIsOld(p: Pool)
    requires PoolOk(p)
    ensures p.leaseSeq - p.slots[Oldest(p.slots)].lease >= |p.slots| - 1
  {
    DistinctLeasesSize(p.slots);
    BoundedSetSize(Leases(p.slots), p.slots[Oldest(p.slots)].lease, p.leaseSeq);
  }

  /** When a lease in use is stolen from a pool of depth d, at least d - 1 younger
      leases have been handed out since. */
  lemma StolenLeaseIsOld(s: Sys, t: RunId)
    requires Inv(s) && Enabled(s, Steal(t))
    requires forall i :: 0 <= i < |s.pool.slots| ==> s.pool.slots[i].inUse
    ensures var victim := Oldest(s.pool.slots);
      && Apply(s, Steal(t)).runs[t] == Holding(victim, s.pool.leaseSeq + 1)
      && s.pool.leaseSeq - s.pool.slots[victim].lease >= s.pool.depth - 1
  {
    FirstFreeNone(s.pool.slots);
    OldestIsOld(s.pool);
  }

  // ---- progress ------------------------------------------------------------------

  /** Within one pool a run waiting for a slot mutex waits for a run that is inside the slot and
      waits for nothing else here. Whether that run goes on to unlock it depends on the pools
      its dispatch still needs: module FanOut. */
  lemma BlockedOnlyByUnlockable(s: Sys, t: RunId)
    requires Inv(s) && t in s.runs && s.runs[t].Holding? && !Enabled(s, Lock(t))
    ensures exists u :: u != t && Enabled(s, Unlock(u)) && s.runs[u].slot == s.runs[t].slot
  {
    var u := s.mu[s.runs[t].slot].run;
    assert u != t && Enabled(s, Unlock(u));
  }

  predicate NoScan(es: seq<Event>) {
    forall k :: 0 <= k < |es| ==> !es[k].Scan?
  }

  lemma {:induction false} ExecAppend(s: Sys, es: seq<Event>, fs: seq<Event>)
    requires Valid(s, es) && Valid(Exec(s, es), fs)
    ensures Valid(s, es + fs) && Exec(s, es + fs) == Exec(Exec(s, es), fs)
    decreases |es|
  {
    if es == [] {
      assert es + fs == fs;
    } else {
      assert (es + fs)[1..] == es[1..] + fs;
      ExecAppend(Apply(s, es[0]), es[1..], fs);
    }
  }

  ghost predicate Finishes(s: Sys, t: RunId, es: seq<Event>) {
    NoScan(es) && Valid(s, es) && Exec(s, es).runs.Keys == s.runs.Keys - {t}
  }

  lemma Prepend(s: Sys, t: RunId, e: Event, rest: seq<Event>)
    requires Enabled(s, e) && !e.Scan? && Apply(s, e).runs.Keys == s.runs.Keys && Finishes(Apply(s, e), t, rest)
    ensures Finishes(s, t, [e] + rest)
  {
    assert ([e] + rest)[1..] == rest;
  }

  lemma FinishUnlocked(s: Sys, t: RunId) returns (es: seq<Event>)
    requires Inv(s) && t in s.runs && s.runs[t].Unlocked?
    ensures Finishes(s, t, es)
  {
    es := [Free(t)];
    assert Enabled(s, Free(t));
    assert Valid(Apply(s, Free(t)), es[1..]);
  }

  lemma FinishLocked(s: Sys, t: RunId) returns (es: seq<Event>)
    requires Inv(s) && t in s.runs && s.runs[t].Locked?
    ensures Finishes(s, t, es)
  {
    assert Enabled(s, Unlock(t));
    StepInv(s, Unlock(t));
    hide Inv, Finishes;
    var rest := FinishUnlocked(Apply(s, Unlock(t)), t);
    es := [Unlock(t)] + rest;
    Prepend(s, t, Unlock(t), rest);
  }

  predicate NobodyInside(s: Sys) {
    forall u :: u in s.runs ==> !s.runs[u].Locked?
  }

  lemma FinishHolding(s: Sys, t: RunId) returns (es: seq<Event>)
    requires Inv(s) && NobodyInside(s) && t in s.runs && s.runs[t].Holding?
    ensures Finishes(s, t, es)
  {
    assert Enabled(s, Lock(t));
    StepInv(s, Lock(t));
    hide Inv, Finishes, NobodyInside;
    var rest := FinishLocked(Apply(s, Lock(t)), t);
    es := [Lock(t)] + rest;
    Prepend(s, t, Lock(t), rest);
  }

  lemma FinishWaiting(s: Sys, t: RunId) returns (es: seq<Event>)
    requires Inv(s) && NobodyInside(s) && t in s.runs && s.runs[t].Waiting?
    ensures Finishes(s, t, es)
  {
    StealAlwaysLeases(s, t);
    StepInv(s, Steal(t));
    hide Inv, Finishes, Acquired;
    var rest := FinishHolding(Apply(s, Steal(t)), t);
    es := [Steal(t)] + rest;
    Prepend(s, t, Steal(t), rest);
  }

  /** Some run of a non-empty system can be driven to its end on its own. */
  lemma FinishOne(s: Sys) returns (t: RunId, es: seq<Event>)
    requires Inv(s) && s.runs != map[]
    ensures t in s.runs && Finishes(s, t, es)
  {
    hide Inv, Finishes;
    if u :| u in s.runs && s.runs[u].Locked? {
      t := u;
      es := FinishLocked(s, t);
    } else {
      t :| t in s.runs;
      match s.runs[t]
      case Waiting => es := FinishWaiting(s, t);
      case Holding(_, _) => es := FinishHolding(s, t);
      case Locked(_, _) =>
      case Unlocked(_, _) => es := FinishUnlocked(s, t);
    }
  }

  /** From every state of one pool whose runs all unlock what they lock there is a way to
      finish all runs without starting new ones, and it ends with every slot free and every
      mutex unowned: no interleaving of steals and stale releases loses a slot. */
  lemma {:induction false} DrainsToAllFree(s: Sys) returns (es: seq<Event>)
    requires Inv(s)
    ensures NoScan(es) && Valid(s, es)
    ensures var s' := Exec(s, es);
      && s'.runs == map[]
      && (forall i :: 0 <= i < |s'.pool.slots| ==> !s'.pool.slots[i].inUse)
      && (forall i :: 0 <= i < |s'.mu| ==> s'.mu[i] == Nobody)
    decreases |s.runs.Keys|
  {
    if s.runs == map[] {
      return [];
    }
    var t, first := FinishOne(s);
    ExecInv(s, first);
    SmallerWithout(s.runs.Keys, t);
    var rest := DrainsToAllFree(Exec(s, first));
    ExecAppend(s, first, rest);
    es := first + rest;
  }

  lemma SmallerWithout(a: set<nat>, x: nat)
    requires x in a
    ensures |a - {x}| < |a|
  {
  }
}
