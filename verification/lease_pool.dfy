/** The output-slot pool of a decode stage (decode/pool.go).

    `acquireSlot` runs two critical sections under `poolMu`: the first takes a free
    slot or grows the pool, the second (after a stream synchronisation, with the
    mutex released in between) takes a free slot or steals the oldest lease.
    The value-level functions below are those critical sections; class `Stage`
    performs them in place. `directBlock` has the same pool with the same code. */
module LeasePool {

  datatype Slot = Slot(inUse: bool, lease: nat)

  datatype Pool = Pool(depth: nat, leaseSeq: nat, slots: seq<Slot>)

  datatype Outcome = Leased(slot: nat, lease: nat) | BuildFailed | Stalled | EmptyPool

  function FirstFree(slots: seq<Slot>): (i: nat)
    ensures i <= |slots|
    ensures forall j :: 0 <= j < i ==> slots[j].inUse
    ensures i < |slots| ==> !slots[i].inUse
  {
    if slots == [] || !slots[0].inUse then 0 else 1 + FirstFree(slots[1..])
  }

  /** The first slot among those carrying the smallest lease. */
  function Oldest(slots: seq<Slot>): (i: nat)
    requires slots != []
    ensures i < |slots|
    ensures forall j :: 0 <= j < |slots| ==> slots[i].lease <= slots[j].lease
    ensures forall j :: 0 <= j < i ==> slots[i].lease < slots[j].lease
  {
    var last := |slots| - 1;
    if last == 0 then 0
    else
      var i := Oldest(slots[..last]);
      assert slots[..last][i] == slots[i];
      assert forall j :: 0 <= j < last ==> slots[..last][j] == slots[j];
      if slots[last].lease < slots[i].lease then last else i
  }

  function Grant(p: Pool, i: nat): Pool
    requires i < |p.slots|
  {
    p.(leaseSeq := p.leaseSeq + 1, slots := p.slots[i := Slot(true, p.leaseSeq + 1)])
  }

  function Grow(p: Pool): Pool {
    p.(leaseSeq := p.leaseSeq + 1, slots := p.slots + [Slot(true, p.leaseSeq + 1)])
  }

  /** First critical section; `built` says whether the slot builder would succeed. */
  function ScanOrGrow(p: Pool, built: bool): (Pool, Outcome) {
    var i := FirstFree(p.slots);
    if i < |p.slots| then (Grant(p, i), Leased(i, p.leaseSeq + 1))
    else if |p.slots| < p.depth then
      if built then (Grow(p), Leased(|p.slots|, p.leaseSeq + 1)) else (p, BuildFailed)
    else (p, Stalled)
  }

  /** Second critical section. */
  function ScanOrSteal(p: Pool): (Pool, Outcome) {
    var i := FirstFree(p.slots);
    if i < |p.slots| then (Grant(p, i), Leased(i, p.leaseSeq + 1))
    else if p.slots == [] then (p, EmptyPool)
    else (Grant(p, Oldest(p.slots)), Leased(Oldest(p.slots), p.leaseSeq + 1))
  }

  function Release(p: Pool, i: nat, lease: nat): Pool
    requires i < |p.slots|
  {
    if p.slots[i].lease != lease then p else p.(slots := p.slots[i := Slot(false, lease)])
  }

  class StageSlot {
    var inUse: bool
    var leaseSeq: nat

    constructor ()
      ensures !inUse && leaseSeq == 0
    {
      inUse, leaseSeq := false, 0;
    }
  }

  class Stage {
    const poolDepth: nat
    var leaseSeq: nat
    var slots: seq<StageSlot>

    ghost predicate Valid()
      reads this
    {
      forall i, j :: 0 <= i < j < |slots| ==> slots[i] != slots[j]
    }

    ghost function View(): Pool
      reads this, slots
    {
      Pool(poolDepth, leaseSeq,
        seq(|slots|, i requires 0 <= i < |slots| reads this, slots => Slot(slots[i].inUse, slots[i].leaseSeq)))
    }

    /** A stage is built around one prebuilt slot and a depth of at least one. */
    constructor (first: StageSlot, depth: int)
      requires !first.inUse && first.leaseSeq == 0
      ensures Valid()
      ensures View() == Pool(if depth < 1 then 1 else depth, 0, [Slot(false, 0)])
      ensures slots == [first] && leaseSeq == 0 && poolDepth >= 1 && (depth >= 1 ==> poolDepth == depth)
      ensures depth < 1 ==> poolDepth == 1
    {
      poolDepth := if depth < 1 then 1 else depth;
      leaseSeq := 0;
      slots := [first];
    }

    /** Slot i is free, and no slot before it. */
    ghost predicate FirstIdle(i: nat)
      reads this, slots
    {
      i < |slots| && !slots[i].inUse && forall j :: 0 <= j < i ==> slots[j].inUse
    }

    ghost predicate AllBusy()
      reads this, slots
    {
      forall j :: 0 <= j < |slots| ==> slots[j].inUse
    }

    /** Slot i has the smallest lease, and is the first that has it. */
    ghost predicate LongestHeld(i: nat)
      reads this, slots
    {
      i < |slots| && (forall j :: 0 <= j < |slots| ==> slots[i].leaseSeq <= slots[j].leaseSeq)
      && forall j :: 0 <= j < i ==> slots[i].leaseSeq < slots[j].leaseSeq
    }

    method Take(i: nat) returns (lease: nat)
      requires Valid() && i < |slots|
      modifies this`leaseSeq, slots[i]
      ensures Valid() && slots == old(slots)
      ensures lease == leaseSeq == old(leaseSeq) + 1
      ensures slots[i].inUse && slots[i].leaseSeq == lease
      ensures View() == Grant(old(View()), i)
    {
      leaseSeq := leaseSeq + 1;
      slots[i].inUse := true;
      slots[i].leaseSeq := leaseSeq;
      lease := leaseSeq;
    }

    method AcquireOrGrow(built: bool) returns (slot: StageSlot?, out: Outcome)
      requires Valid()
      modifies this`leaseSeq, this`slots, slots
      ensures Valid()
      ensures (View(), out) == ScanOrGrow(old(View()), built)
      ensures out.Leased? ==> slot != null && out.slot < |slots| && slot == slots[out.slot]
      ensures slots == old(slots) || (exists s :: fresh(s) && slots == old(slots) + [s])
      // a free slot is taken if there is one, the first, and then the pool does not grow
      ensures !old(AllBusy()) ==> out.Leased? && old(FirstIdle(out.slot)) && slots == old(slots)
      ensures old(AllBusy()) && |old(slots)| < poolDepth && built ==> out.Leased? && out.slot == |old(slots)|
      ensures old(AllBusy()) && |old(slots)| < poolDepth && !built ==> out == BuildFailed
      ensures old(AllBusy()) && |old(slots)| >= poolDepth ==> out == Stalled
      ensures out.Leased? ==> slot.inUse && slot.leaseSeq == out.lease == leaseSeq == old(leaseSeq) + 1
      ensures !out.Leased? ==> leaseSeq == old(leaseSeq) && slots == old(slots)
      ensures forall j :: 0 <= j < |old(slots)| && !(out.Leased? && j == out.slot) ==>
        slots[j] == old(slots[j]) && slots[j].inUse == old(slots[j].inUse)
        && slots[j].leaseSeq == old(slots[j].leaseSeq)
    {
      for i := 0 to |slots|
        invariant forall j :: 0 <= j < i ==> slots[j].inUse
        invariant unchanged(this) && unchanged(slots)
      {
        if !slots[i].inUse {
          FirstFreeAt(View().slots, i);
          slot := slots[i];
          var lease := Take(i);
          return slot, Leased(i, lease);
        }
      }
      FirstFreeNone(View().slots);
      if |slots| < poolDepth {
        if !built {
          return null, BuildFailed;
        }
        var s := new StageSlot();
        leaseSeq := leaseSeq + 1;
        s.inUse, s.leaseSeq := true, leaseSeq;
        slots := slots + [s];
        assert forall j :: 0 <= j < |slots| - 1 ==> slots[j] != s;
        assert View().slots == old(View().slots) + [Slot(true, leaseSeq)];
        return s, Leased(|slots| - 1, leaseSeq);
      }
      return null, Stalled;
    }

    method AcquireOrSteal() returns (slot: StageSlot?, out: Outcome)
      requires Valid()
      modifies this`leaseSeq, slots
      ensures Valid() && slots == old(slots)
      ensures (View(), out) == ScanOrSteal(old(View()))
      ensures out.Leased? ==> slot != null && out.slot < |slots| && slot == slots[out.slot]
      // a lease is stolen only if no slot is free, and then the oldest
      ensures !old(AllBusy()) ==> out.Leased? && old(FirstIdle(out.slot))
      ensures old(AllBusy()) && slots != [] ==> out.Leased? && old(LongestHeld(out.slot))
      ensures slots == [] ==> out == EmptyPool
      ensures out.Leased? ==> slot.inUse && slot.leaseSeq == out.lease == leaseSeq == old(leaseSeq) + 1
      ensures !out.Leased? ==> leaseSeq == old(leaseSeq)
      ensures forall j :: 0 <= j < |slots| && !(out.Leased? && j == out.slot) ==>
        slots[j].inUse == old(slots[j].inUse) && slots[j].leaseSeq == old(slots[j].leaseSeq)
    {
      hide Oldest, FirstFree, ScanOrSteal;
      ghost var p := View();
      var oldest := 0;
      for i := 0 to |slots|
        invariant unchanged(this) && unchanged(slots)
        invariant forall j :: 0 <= j < i ==> p.slots[j].inUse && slots[j].inUse
        invariant forall j :: 0 <= j < i ==>
          oldest < i && slots[oldest].leaseSeq <= slots[j].leaseSeq
          && (j < oldest ==> slots[oldest].leaseSeq < slots[j].leaseSeq)
        invariant if i == 0 then oldest == 0 else oldest == Oldest(p.slots[..i])
      {
        assert p.slots[i] == Slot(slots[i].inUse, slots[i].leaseSeq);
        if !slots[i].inUse {
          assert FirstIdle(i);
          StealFirstFree(p, i);
          slot := slots[i];
          var lease := Take(i);
          return slot, Leased(i, lease);
        }
        assert p.slots[oldest].lease == slots[oldest].leaseSeq;
        OldestStep(p.slots, i);
        if i == 0 || slots[i].leaseSeq < slots[oldest].leaseSeq {
          oldest := i;
        }
      }
      StealOldest(p);
      if |slots| == 0 {
        return null, EmptyPool;
      }
      assert p.slots[..|slots|] == p.slots && LongestHeld(oldest);
      slot := slots[oldest];
      var lease := Take(oldest);
      return slot, Leased(oldest, lease);
    }

    /** `acquireSlot` with nobody running between its two sections: `synced` is the
        outcome of the stream synchronisation, `stalled` the third Go result. */
    method AcquireSlot(built: bool, synced: bool) returns (slot: StageSlot?, out: Outcome, stalled: bool)
      requires Valid()
      modifies this`leaseSeq, this`slots, slots
      ensures Valid()
      ensures var (p1, o1) := ScanOrGrow(old(View()), built);
              if o1 != Stalled then (View(), out, stalled) == (p1, o1, false)
              else if synced then stalled && (View(), out) == ScanOrSteal(old(View()))
              else (View(), out, stalled) == (old(View()), Stalled, true)
      ensures out.Leased? ==> slot != null && out.slot < |slots| && slot == slots[out.slot]
      ensures !old(AllBusy()) ==> !stalled && out.Leased? && old(FirstIdle(out.slot)) && slots == old(slots)
      ensures stalled && out.Leased? ==> old(AllBusy()) && old(LongestHeld(out.slot)) && slots == old(slots)
    {
      slot, out := AcquireOrGrow(built);
      stalled := out == Stalled;
      if stalled && synced {
        slot, out := AcquireOrSteal();
      }
    }

    method ReleaseSlot(i: nat, lease: nat)
      requires Valid() && i < |slots|
      modifies slots[i]
      ensures Valid()
      ensures View() == Release(old(View()), i, lease)
      ensures slots[i].leaseSeq == old(slots[i].leaseSeq)
      ensures slots[i].inUse <==> old(slots[i].inUse) && old(slots[i].leaseSeq) != lease
    {
      if slots[i].leaseSeq != lease {
        assert View() == old(View());
        return;
      }
      slots[i].inUse := false;
    }
  }

  lemma StealFirstFree(p: Pool, i: nat)
    requires i < |p.slots| && !p.slots[i].inUse && forall j :: 0 <= j < i ==> p.slots[j].inUse
    ensures ScanOrSteal(p) == (Grant(p, i), Leased(i, p.leaseSeq + 1))
  {
    FirstFreeAt(p.slots, i);
  }

  lemma StealOldest(p: Pool)
    requires forall j :: 0 <= j < |p.slots| ==> p.slots[j].inUse
    ensures ScanOrSteal(p) == if p.slots == [] then (p, EmptyPool)
      else (Grant(p, Oldest(p.slots)), Leased(Oldest(p.slots), p.leaseSeq + 1))
  {
    FirstFreeNone(p.slots);
  }

  lemma OldestStep(slots: seq<Slot>, i: nat)
    requires i < |slots|
    ensures Oldest(slots[..i + 1]) ==
      if i == 0 || slots[i].lease < slots[Oldest(slots[..i])].lease then i else Oldest(slots[..i])
  {
    assert slots[..i + 1][..i] == slots[..i];
  }

  lemma {:induction false} FirstFreeAt(slots: seq<Slot>, i: nat)
    requires i < |slots| && !slots[i].inUse
    requires forall j :: 0 <= j < i ==> slots[j].inUse
    ensures FirstFree(slots) == i
  {
    if i > 0 {
      FirstFreeAt(slots[1..], i - 1);
    }
  }

  lemma {:induction false} FirstFreeNone(slots: seq<Slot>)
    requires forall j :: 0 <= j < |slots| ==> slots[j].inUse
    ensures FirstFree(slots) == |slots|
  {
    if slots != [] {
      FirstFreeNone(slots[1..]);
    }
  }
}
