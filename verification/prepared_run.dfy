/** Lock and lease accounting of prepared runs (decode/pool.go, decode/dispatch.go).

    A dispatch fans one input out to several stages; entry i of the ledger is the slot
    that stage i leased. The outcomes of foreign calls (bridges, events, surfaces,
    array operations) are the inputs. Unlocking a slot mutex that is not held is a
    fatal error in Go, so here it is a precondition. */
module PreparedRuns {

  /** What this dispatch owes to one slot. */
  datatype Debt = None | Lease | LockAndLease

  datatype BeginEnv = BeginEnv(
    acquired: bool, interfaces: bool, transfer: bool, events: bool, reset: bool, aliased: bool,
    splitBridge: bool, splitCopied: bool, splitSignalled: bool, copied: bool,
    hostRead: bool, hostWritten: bool, hostSignalled: bool)

  datatype FusedEnv = FusedEnv(acquired: bool, interfaces: bool, events: bool, reset: bool, aliased: bool, copied: bool)

  datatype OutputMode = IOSurfaceAlias | GPUMaterialize | GPUNative | Copy

  datatype ViewEnv = ViewEnv(
    mode: OutputMode, float32: bool, aliased: bool, waited: bool, splitBridge: bool, buffered: bool,
    copied: bool, nativeCast: bool, cast: bool, owned: bool)

  /** An output view either keeps the lease until it is released, or owns a copy. */
  datatype View = ViewError | Borrowed | Owned

  /** What the input surface holds of this dispatch's input: nothing, a copy queued on the stream,
      or all of it. */
  datatype Filling = Stale | Queued | Present

  /** The event that the stage waits for: as an earlier dispatch has left it, reset, to be raised
      by the stream behind the copy, or raised. */
  datatype Signal = Old | Low | OnStream | High

  datatype Input = Input(filling: Filling, ready: Signal)

  datatype Evaluation = Idle | Started | Finished

  datatype Begun = NotBegun | Begun(synchronized: bool, streamCommitted: bool)

  datatype StageEnv = StageEnv(begin: BeginEnv, evaluated: bool, view: ViewEnv)

  datatype DispatchEnv = DispatchEnv(materialized: bool, syncer: bool, finalized: bool, stages: seq<StageEnv>)

  datatype Result = Failed | Views(views: seq<View>)

  /** The input reached the surface, by the GPU or through host memory. */
  predicate DevicePath(e: BeginEnv, single: bool) {
    e.aliased && e.events && ((single && e.splitBridge && e.splitCopied && e.splitSignalled) || e.copied)
  }

  predicate Prepared(e: BeginEnv, single: bool) {
    && e.acquired && e.interfaces && e.transfer && (e.events ==> e.reset)
    && (DevicePath(e, single) || (e.hostRead && e.hostWritten && (e.events ==> e.hostSignalled)))
  }

  predicate Committed(e: BeginEnv, single: bool) {
    Prepared(e, single) && single && e.aliased && e.events && e.splitBridge && e.splitCopied && e.splitSignalled
  }

  predicate ReadError(v: ViewEnv) {
    || !v.aliased
    || ((v.mode.GPUMaterialize? || v.mode.GPUNative?) && !v.waited)
    || (v.mode.GPUMaterialize? && v.splitBridge && (!v.buffered || !v.copied))
    || (v.mode.GPUNative? && v.float32 && !v.buffered)
  }

  predicate Lends(v: ViewEnv) {
    match v.mode
    case IOSurfaceAlias => v.float32
    case GPUMaterialize => v.splitBridge
    case GPUNative => if v.float32 then v.splitBridge && v.copied else v.nativeCast
    case Copy => false
  }

  function ViewOf(v: ViewEnv): View {
    if ReadError(v) then ViewError
    else if Lends(v) then Borrowed
    else if (!v.float32 && !v.cast) || !v.owned then ViewError
    else Owned
  }

  // ---- what a dispatch leaves behind ---------------------------------------------

  function FirstBad(ok: seq<bool>): (i: nat)
    ensures i <= |ok|
    ensures forall j :: 0 <= j < i ==> ok[j]
    ensures i < |ok| ==> !ok[i]
  {
    if ok == [] || !ok[0] then 0 else 1 + FirstBad(ok[1..])
  }

  lemma {:induction false} FirstBadIs(ok: seq<bool>, i: nat)
    requires i <= |ok| && (forall j :: 0 <= j < i ==> ok[j]) && (i < |ok| ==> !ok[i])
    ensures FirstBad(ok) == i
  {
    if i > 0 {
      FirstBadIs(ok[1..], i - 1);
    }
  }

  function Begins(d: DispatchEnv): seq<bool> {
    seq(|d.stages|, i requires 0 <= i < |d.stages| => Prepared(d.stages[i].begin, |d.stages| == 1))
  }

  function Evals(d: DispatchEnv): seq<bool> {
    seq(|d.stages|, i requires 0 <= i < |d.stages| => d.stages[i].evaluated)
  }

  function Reads(d: DispatchEnv): seq<bool> {
    seq(|d.stages|, i requires 0 <= i < |d.stages| => ViewOf(d.stages[i].view) != ViewError)
  }

  /** All inputs are in place and the stream is finalized where it has to be. */
  predicate Launches(d: DispatchEnv) {
    && d.stages != [] && (|d.stages| > 1 ==> d.materialized)
    && FirstBad(Begins(d)) == |d.stages|
    && (Committed(d.stages[0].begin, |d.stages| == 1) || (d.syncer && d.finalized))
  }

  function ViewDebt(v: View): Debt {
    if v.Borrowed? then Lease else None
  }

  /** The debt left on slot i: nothing is owed before the launch; an evaluation error at
      stage e leaves the stages before e locked; an output error at stage v leaves the
      stages after v locked; success leaves the leases of the borrowed views. */
  function Left(d: DispatchEnv, i: nat): Debt
    requires i < |d.stages|
  {
    if !Launches(d) then None
    else if FirstBad(Evals(d)) < |d.stages| then
      if i < FirstBad(Evals(d)) then LockAndLease else None
    else if FirstBad(Reads(d)) < |d.stages| then
      if i > FirstBad(Reads(d)) then LockAndLease else None
    else ViewDebt(ViewOf(d.stages[i].view))
  }

  /** No step of the stage fails that cannot be made up for. */
  predicate Works(x: StageEnv) {
    var e, v := x.begin, x.view;
    e.acquired && e.interfaces && e.transfer && e.reset && e.hostRead && e.hostWritten && e.hostSignalled && x.evaluated
    && v.aliased && v.waited && v.buffered && v.copied && v.cast && v.owned
  }

  predicate Succeeds(d: DispatchEnv) {
    d.stages == [] || (Launches(d) && FirstBad(Evals(d)) == |d.stages| && FirstBad(Reads(d)) == |d.stages|)
  }

  lemma WorksSucceeds(d: DispatchEnv)
    requires d.materialized && d.syncer && d.finalized && forall i :: 0 <= i < |d.stages| ==> Works(d.stages[i])
    ensures Succeeds(d)
  {
    FirstBadIs(Begins(d), |d.stages|);
    FirstBadIs(Evals(d), |d.stages|);
    FirstBadIs(Reads(d), |d.stages|);
  }

  // ---- the code --------------------------------------------------------------------

  class Ledger {
    const debts: array<Debt>
    ghost var inputs: seq<Input>
    ghost var evals: seq<Evaluation>

    constructor (n: nat)
      ensures fresh(debts) && debts.Length == n && forall i :: 0 <= i < n ==> debts[i] == None
      ensures Sized()
    {
      debts := new Debt[n](_ => None);
      inputs, evals := seq(n, _ => Input(Stale, Old)), seq(n, _ => Idle);
    }

    ghost predicate Sized()
      reads this
    {
      |inputs| == |evals| == debts.Length
    }

    /** The input of stage i is on its way to the surface, and with events the signal behind it. */
    ghost predicate Underway(i: nat, events: bool)
      requires Sized() && i < debts.Length
      reads this
    {
      inputs[i].filling != Stale && (events ==> inputs[i].ready == OnStream || inputs[i].ready == High)
    }

    /** Nothing is missing: the stage can be evaluated. */
    ghost predicate InPlace(i: nat, events: bool)
      requires Sized() && i < debts.Length
      reads this
    {
      inputs[i].filling == Present && (events ==> inputs[i].ready == High)
    }

    // ---- the foreign steps, each with its outcome -------------------------------------------

    /** A leased slot holds the input of some earlier dispatch. */
    method TakeSlot(i: nat)
      requires Sized() && i < debts.Length && debts[i] == None
      modifies debts, this`inputs
      ensures debts[..] == old(debts[..])[i := Lease] && inputs == old(inputs)[i := Input(Stale, Old)]
    {
      debts[i] := Lease;
      inputs := inputs[i := Input(Stale, Old)];
    }

    method ResetEvent(i: nat, ok: bool)
      requires Sized() && i < debts.Length
      modifies this`inputs
      ensures inputs == if ok then old(inputs)[i := old(inputs[i]).(ready := Low)] else old(inputs)
    {
      if ok {
        inputs := inputs[i := inputs[i].(ready := Low)];
      }
    }

    method CopyInto(i: nat, ok: bool)
      requires Sized() && i < debts.Length
      modifies this`inputs
      ensures inputs == if ok then old(inputs)[i := old(inputs[i]).(filling := Queued)] else old(inputs)
    {
      if ok {
        inputs := inputs[i := inputs[i].(filling := Queued)];
      }
    }

    /** Commits the stream: what was queued on it is there, and the event is raised. */
    method SignalMLXReady(i: nat, ok: bool)
      requires Sized() && i < debts.Length && inputs[i] == Input(Queued, Low)
      modifies this`inputs
      ensures inputs == if ok then old(inputs)[i := Input(Present, High)] else old(inputs)
    {
      if ok {
        inputs := inputs[i := Input(Present, High)];
      }
    }

    method CopyIntoSignalReady(i: nat, ok: bool)
      requires Sized() && i < debts.Length && inputs[i].ready == Low
      modifies this`inputs
      ensures inputs == if ok then old(inputs)[i := Input(Queued, OnStream)] else old(inputs)
    {
      if ok {
        inputs := inputs[i := Input(Queued, OnStream)];
      }
    }

    /** The fused norms write the surface, raise the event and commit the stream. */
    method NormIntoSignalReady(i: nat, ok: bool)
      requires Sized() && i < debts.Length && inputs[i].ready == Low
      modifies this`inputs
      ensures inputs == if ok then old(inputs)[i := Input(Present, High)] else old(inputs)
    {
      if ok {
        inputs := inputs[i := Input(Present, High)];
      }
    }

    method WriteSurface(i: nat, ok: bool)
      requires Sized() && i < debts.Length
      modifies this`inputs
      ensures inputs == if ok then old(inputs)[i := old(inputs[i]).(filling := Present)] else old(inputs)
    {
      if ok {
        inputs := inputs[i := inputs[i].(filling := Present)];
      }
    }

    method RaiseEvent(i: nat, ok: bool)
      requires Sized() && i < debts.Length && inputs[i].ready == Low
      modifies this`inputs
      ensures inputs == if ok then old(inputs)[i := old(inputs[i]).(ready := High)] else old(inputs)
    {
      if ok {
        inputs := inputs[i := inputs[i].(ready := High)];
      }
    }

    static function Finalized(x: Input): Input {
      Input(if x.filling == Queued then Present else x.filling, if x.ready == OnStream then High else x.ready)
    }

    /** All copies and signals that are queued are carried out. */
    method FinalizeStream(ok: bool)
      requires Sized()
      modifies this`inputs
      ensures Sized()
      ensures forall i :: 0 <= i < debts.Length ==>
        inputs[i] == if ok then Finalized(old(inputs[i])) else old(inputs[i])
    {
      if ok {
        inputs := seq(|inputs|, i requires 0 <= i < |inputs| reads this => Finalized(inputs[i]));
      }
    }

    /** A stage is only evaluated with its input in place, and while its slot is locked. */
    method Start(i: nat, events: bool)
      requires Sized() && i < debts.Length && debts[i] == LockAndLease && InPlace(i, events)
      modifies this`evals
      ensures evals == old(evals)[i := Started]
    {
      evals := evals[i := Started];
    }

    method Await(i: nat, ok: bool)
      requires Sized() && i < debts.Length && evals[i] == Started
      modifies this`evals
      ensures evals == if ok then old(evals)[i := Finished] else old(evals)
    {
      if ok {
        evals := evals[i := Finished];
      }
    }

    // ---- locks and leases ---------------------------------------------------------------------

    method Lock(i: nat)
      requires i < debts.Length && debts[i] == Lease
      modifies debts
      ensures debts[..] == old(debts[..])[i := LockAndLease]
    {
      debts[i] := LockAndLease;
    }

    method Unlock(i: nat)
      requires i < debts.Length && debts[i] == LockAndLease
      modifies debts
      ensures debts[..] == old(debts[..])[i := Lease]
    {
      debts[i] := Lease;
    }

    method ReleaseSlot(i: nat)
      requires i < debts.Length && debts[i] == Lease
      modifies debts
      ensures debts[..] == old(debts[..])[i := None]
    {
      debts[i] := None;
    }

    method UnlockAndRelease(i: nat)
      requires i < debts.Length && debts[i] == LockAndLease
      modifies debts
      ensures debts[..] == old(debts[..])[i := None]
    {
      Unlock(i);
      ReleaseSlot(i);
    }

    /** `beginPreparedInputTimed`: holds mutex and lease exactly when it returns a run. A run that
        is returned has its input on the surface or on the stream, and with events the signal
        behind it; and none is returned only if the slot or an interface was missing, the
        event could not be reset, or every way of filling the surface failed. */
    method BeginInput(i: nat, e: BeginEnv, single: bool) returns (run: Begun)
      requires Sized() && i < debts.Length && debts[i] == None
      modifies debts, this`inputs
      ensures debts[..] == old(debts[..])[i := if run.Begun? then LockAndLease else None]
      ensures Sized() && forall j :: 0 <= j < debts.Length && j != i ==> inputs[j] == old(inputs[j])
      ensures run.Begun? <==> Prepared(e, single)
      ensures run.Begun? ==>
        (run.synchronized <==> DevicePath(e, single)) && (run.streamCommitted <==> Committed(e, single))
      ensures run.Begun? ==> Underway(i, e.events)
      ensures run.Begun? && !run.synchronized ==> InPlace(i, e.events)
      ensures run.Begun? && run.streamCommitted ==> single && run.synchronized && InPlace(i, true)
      ensures run.Begun? && run.synchronized && !run.streamCommitted ==> inputs[i] == Input(Queued, OnStream)
      ensures run.NotBegun? && e.acquired && e.interfaces && e.transfer && (e.events ==> e.reset) ==>
        !(e.hostRead && e.hostWritten && (e.events ==> e.hostSignalled))
        && (e.aliased && e.events ==> !e.copied)
        && (e.aliased && e.events && single && e.splitBridge && e.splitCopied ==> !e.splitSignalled)
    {
      run := NotBegun;
      if !e.acquired { return; }
      TakeSlot(i);
      Lock(i);
      var ok := false;
      if e.interfaces && e.transfer {
        if e.events {
          ResetEvent(i, e.reset);
        }
        if !e.events || e.reset {
          run, ok := FillInput(i, e, single);
        }
      }
      if !ok {
        UnlockAndRelease(i);
      }
    }

    /** The three ways to fill the input surface, one after the other. */
    method FillInput(i: nat, e: BeginEnv, single: bool) returns (run: Begun, ok: bool)
      requires Sized() && i < debts.Length && debts[i] == LockAndLease && inputs[i].filling == Stale
      requires e.events ==> inputs[i].ready == Low
      modifies this`inputs
      ensures Sized() && forall j :: 0 <= j < debts.Length && j != i ==> inputs[j] == old(inputs[j])
      ensures ok <==> run.Begun?
      ensures ok <==> DevicePath(e, single) || (e.hostRead && e.hostWritten && (e.events ==> e.hostSignalled))
      ensures ok ==> (run.synchronized <==> DevicePath(e, single))
      ensures ok ==> (run.streamCommitted <==>
        single && e.aliased && e.events && e.splitBridge && e.splitCopied && e.splitSignalled)
      ensures ok ==> Underway(i, e.events)
      ensures ok && !run.synchronized ==> InPlace(i, e.events)
      ensures ok && run.streamCommitted ==> InPlace(i, true)
      ensures ok && run.synchronized && !run.streamCommitted ==> inputs[i] == Input(Queued, OnStream)
    {
      if e.aliased && e.events {
        if single && e.splitBridge {
          CopyInto(i, e.splitCopied);
          if e.splitCopied {
            SignalMLXReady(i, e.splitSignalled);
            if e.splitSignalled {
              return Begun(true, true), true;
            }
          }
        }
        CopyIntoSignalReady(i, e.copied);
        if e.copied {
          return Begun(true, false), true;
        }
      }
      if !e.hostRead {
        return NotBegun, false;
      }
      WriteSurface(i, e.hostWritten);
      if !e.hostWritten {
        return NotBegun, false;
      }
      if e.events {
        RaiseEvent(i, e.hostSignalled);
        if !e.hostSignalled {
          return NotBegun, false;
        }
      }
      return Begun(false, false), true;
    }

    /** `beginPreparedResidualNormTimed` and `beginPreparedResidualAddNormTimed`: there is
        no host path, and a returned run has its stream committed. */
    method BeginFused(i: nat, e: FusedEnv) returns (run: Begun)
      requires Sized() && i < debts.Length && debts[i] == None
      modifies debts, this`inputs
      ensures debts[..] == old(debts[..])[i := if run.Begun? then LockAndLease else None]
      ensures Sized() && forall j :: 0 <= j < debts.Length && j != i ==> inputs[j] == old(inputs[j])
      ensures run == if e == FusedEnv(true, true, true, true, true, true) then Begun(true, true) else NotBegun
      ensures run.Begun? ==> InPlace(i, true)
    {
      run := NotBegun;
      if !e.acquired { return; }
      TakeSlot(i);
      Lock(i);
      if e.interfaces && e.events {
        ResetEvent(i, e.reset);
        if e.reset && e.aliased {
          NormIntoSignalReady(i, e.copied);
          if e.copied {
            return Begun(true, true);
          }
        }
      }
      UnlockAndRelease(i);
    }

    /** `outputHiddenView`: every path unlocks once; the lease goes with the view exactly
        when the view is borrowed. */
    method OutputHiddenView(i: nat, v: ViewEnv) returns (view: View)
      requires i < debts.Length && debts[i] == LockAndLease
      modifies debts
      ensures view == ViewOf(v)
      ensures debts[..] == old(debts[..])[i := ViewDebt(view)]
      // a view of the slot's own memory keeps the lease, a copy gives it back
      ensures debts[i] == if view.Borrowed? then Lease else None
      ensures view.Borrowed? ==>
        v.aliased
        && match v.mode
           case IOSurfaceAlias => v.float32
           case GPUMaterialize => v.waited && v.splitBridge && v.buffered && v.copied
           case GPUNative => v.waited && if v.float32 then v.buffered && v.splitBridge && v.copied else v.nativeCast
           case Copy => false
      ensures view.Owned? ==> v.aliased && v.owned && (v.float32 || v.cast)
      ensures view.Owned? && (v.mode.GPUMaterialize? || v.mode.GPUNative?) ==> v.waited
      ensures view.ViewError? && v.aliased && v.owned && (v.float32 || v.cast) ==>
        match v.mode
        case IOSurfaceAlias => false
        case GPUMaterialize => !v.waited || (v.splitBridge && !(v.buffered && v.copied))
        case GPUNative => !v.waited || (v.float32 && !v.buffered)
        case Copy => false
      ensures view.ViewError? && v.float32 && v.mode.IOSurfaceAlias? ==> !v.aliased
    {
      if !v.aliased {
        UnlockAndRelease(i);
        return ViewError;
      }
      match v.mode {
        case IOSurfaceAlias =>
          if v.float32 {
            Unlock(i);
            return Borrowed;
          }
        case GPUMaterialize =>
          if !v.waited {
            UnlockAndRelease(i);
            return ViewError;
          }
          if v.splitBridge {
            if !v.buffered || !v.copied {
              UnlockAndRelease(i);
              return ViewError;
            }
            Unlock(i);
            return Borrowed;
          }
        case GPUNative =>
          if !v.waited {
            UnlockAndRelease(i);
            return ViewError;
          }
          if v.float32 {
            if !v.buffered {
              UnlockAndRelease(i);
              return ViewError;
            }
            if v.splitBridge && v.copied {
              Unlock(i);
              return Borrowed;
            }
          } else if v.nativeCast {
            Unlock(i);
            return Borrowed;
          }
        case Copy =>
      }
      if !v.float32 && !v.cast {
        UnlockAndRelease(i);
        return ViewError;
      }
      UnlockAndRelease(i);
      return if v.owned then Owned else ViewError;
    }

    /** `abort` on runs lo .. hi - 1, last first. */
    method AbortRange(lo: nat, hi: nat)
      requires lo <= hi <= debts.Length && forall j :: lo <= j < hi ==> debts[j] == LockAndLease
      modifies debts
      ensures forall j :: 0 <= j < debts.Length ==> debts[j] == if lo <= j < hi then None else old(debts[j])
    {
      var j := hi;
      while j > lo
        invariant lo <= j <= hi
        invariant forall k :: 0 <= k < debts.Length ==> debts[k] == if j <= k < hi then None else old(debts[k])
      {
        j := j - 1;
        UnlockAndRelease(j);
      }
    }

    /** Fan-out of the inputs; on failure every run begun so far is aborted. */
    method BeginAll(d: DispatchEnv) returns (ok: bool, committed: bool)
      requires Sized() && debts.Length == |d.stages| && forall i :: 0 <= i < debts.Length ==> debts[i] == None
      modifies debts, this`inputs
      ensures Sized()
      ensures ok <==> FirstBad(Begins(d)) == |d.stages|
      ensures forall i :: 0 <= i < debts.Length ==> debts[i] == if ok then LockAndLease else None
      ensures ok ==> (committed <==> exists i :: 0 <= i < |d.stages| && Committed(d.stages[i].begin, |d.stages| == 1))
      ensures ok ==> forall i :: 0 <= i < |d.stages| ==> Prompt(i, d.stages[i].begin.events, committed)
    {
      committed := false;
      for i := 0 to |d.stages|
        invariant Sized()
        invariant forall j :: 0 <= j < i ==> debts[j] == LockAndLease && Begins(d)[j]
        invariant forall j :: i <= j < debts.Length ==> debts[j] == None
        invariant committed <==> exists j :: 0 <= j < i && Committed(d.stages[j].begin, |d.stages| == 1)
        invariant committed ==> |d.stages| == 1
        invariant forall j :: 0 <= j < i ==> Prompt(j, d.stages[j].begin.events, committed)
      {
        var run := BeginInput(i, d.stages[i].begin, |d.stages| == 1);
        if run == NotBegun {
          FirstBadIs(Begins(d), i);
          AbortRange(0, i);
          return false, false;
        }
        committed := committed || run.streamCommitted;
      }
      FirstBadIs(Begins(d), |d.stages|);
      ok := true;
    }

    /** Once the stream is committed, or else finalized, the stage can be evaluated. */
    ghost predicate Prompt(i: nat, events: bool, committed: bool)
      requires Sized() && i < debts.Length
      reads this
    {
      if committed then InPlace(i, events)
      else inputs[i].filling != Stale && (events ==> inputs[i].ready == OnStream || inputs[i].ready == High)
    }

    /** Collects the views in order; on an error it releases the views collected so far. */
    method ReadAll(d: DispatchEnv) returns (r: Result)
      requires debts.Length == |d.stages| && forall i :: 0 <= i < debts.Length ==> debts[i] == LockAndLease
      modifies debts
      ensures r.Views? <==> FirstBad(Reads(d)) == |d.stages|
      ensures r.Views? ==> |r.views| == |d.stages| && forall i :: 0 <= i < |d.stages| ==>
        r.views[i] == ViewOf(d.stages[i].view) && !r.views[i].ViewError? && debts[i] == ViewDebt(r.views[i])
      ensures r.Failed? ==> forall i :: 0 <= i < |d.stages| ==>
        debts[i] == if i > FirstBad(Reads(d)) then LockAndLease else None
    {
      var views := [];
      for i := 0 to |d.stages|
        invariant |views| == i
        invariant forall j :: 0 <= j < i ==>
          Reads(d)[j] && views[j] == ViewOf(d.stages[j].view) && debts[j] == ViewDebt(views[j])
        invariant forall j :: i <= j < debts.Length ==> debts[j] == LockAndLease
      {
        var view := OutputHiddenView(i, d.stages[i].view);
        if view == ViewError {
          FirstBadIs(Reads(d), i);
          ReleaseOutputViews(views);
          return Failed;
        }
        views := views + [view];
      }
      FirstBadIs(Reads(d), |d.stages|);
      r := Views(views);
    }

    /** Calls the release callback of every view, last first. */
    method ReleaseOutputViews(views: seq<View>)
      requires |views| <= debts.Length && forall i :: 0 <= i < |views| ==> debts[i] == ViewDebt(views[i])
      modifies debts
      ensures forall i :: 0 <= i < debts.Length ==> debts[i] == if i < |views| then None else old(debts[i])
    {
      var i := |views|;
      while i > 0
        invariant 0 <= i <= |views|
        invariant forall j :: 0 <= j < i ==> debts[j] == ViewDebt(views[j])
        invariant forall j :: i <= j < debts.Length ==> debts[j] == if j < |views| then None else old(debts[j])
      {
        i := i - 1;
        if views[i].Borrowed? {
          ReleaseSlot(i);
        }
      }
    }

    /** All stages are started, each with its input in place, and then awaited in order. */
    method EvaluateAll(d: DispatchEnv) returns (ok: bool)
      requires Sized() && debts.Length == |d.stages| && forall i :: 0 <= i < debts.Length ==> debts[i] == LockAndLease
      requires forall i :: 0 <= i < |d.stages| ==> InPlace(i, d.stages[i].begin.events)
      modifies debts, this`evals
      ensures Sized()
      ensures ok <==> FirstBad(Evals(d)) == |d.stages|
      ensures ok ==> forall i :: 0 <= i < |d.stages| ==> evals[i] == Finished && debts[i] == LockAndLease
      ensures !ok ==> forall i :: 0 <= i < |d.stages| ==>
        debts[i] == if i < FirstBad(Evals(d)) then LockAndLease else None
    {
      var n := |d.stages|;
      for i := 0 to n
        invariant Sized() && forall j :: 0 <= j < i ==> evals[j] == Started
        invariant forall j :: 0 <= j < n ==> debts[j] == LockAndLease && InPlace(j, d.stages[j].begin.events)
      {
        Start(i, d.stages[i].begin.events);
      }
      for i := 0 to n
        invariant Sized() && forall j :: 0 <= j < i ==> Evals(d)[j] && evals[j] == Finished
        invariant forall j :: i <= j < n ==> evals[j] == Started
        invariant forall j :: 0 <= j < n ==> debts[j] == LockAndLease
      {
        Await(i, d.stages[i].evaluated);
        if !d.stages[i].evaluated {
          FirstBadIs(Evals(d), i);
          AbortRange(i, n);
          return false;
        }
      }
      FirstBadIs(Evals(d), n);
      ok := true;
    }

    /** `dispatchPreparedStages`. Its views are those of stages that were all evaluated, on
        inputs that were all in place. */
    method Dispatch(d: DispatchEnv) returns (r: Result)
      requires Sized() && debts.Length == |d.stages| && forall i :: 0 <= i < debts.Length ==> debts[i] == None
      modifies debts, this`inputs, this`evals
      ensures forall i :: 0 <= i < |d.stages| ==> debts[i] == Left(d, i)
      ensures r.Views? <==> Succeeds(d)
      ensures r.Views? ==>
        |r.views| == |d.stages| && forall i :: 0 <= i < |d.stages| ==> r.views[i] == ViewOf(d.stages[i].view)
      ensures Sized()
      ensures r.Views? ==> forall i :: 0 <= i < |d.stages| ==>
        InPlace(i, d.stages[i].begin.events) && evals[i] == Finished && !r.views[i].ViewError?
        && (debts[i] == Lease <==> r.views[i].Borrowed?)
      ensures r.Views? && |d.stages| > 1 ==> d.materialized
      ensures d.materialized && d.syncer && d.finalized && (forall i :: 0 <= i < |d.stages| ==> Works(d.stages[i])) ==>
        r.Views?
    {
      var n := |d.stages|;
      if d.materialized && d.syncer && d.finalized && forall i :: 0 <= i < n ==> Works(d.stages[i]) {
        WorksSucceeds(d);
      }
      if n == 0 {
        return Views([]);
      }
      if n > 1 && !d.materialized {
        return Failed;
      }
      var ok, committed := BeginAll(d);
      if !ok {
        return Failed;
      }
      if !committed {
        if !d.syncer {
          AbortRange(0, n);
          return Failed;
        }
        FinalizeStream(d.finalized);
        if !d.finalized {
          AbortRange(0, n);
          return Failed;
        }
      }
      ok := EvaluateAll(d);
      if !ok {
        return Failed;
      }
      r := ReadAll(d);
    }
  }

  // ---- what follows ------------------------------------------------------------------

  /** Exactly when a dispatch returns with a slot mutex still held: a later stage of a
      fan-out failed to evaluate, or an earlier one failed to deliver its output. */
  lemma MutexLeftHeldIff(d: DispatchEnv)
    ensures (exists i :: 0 <= i < |d.stages| && Left(d, i) == LockAndLease) <==>
      && Launches(d)
      && (|| 0 < FirstBad(Evals(d)) < |d.stages|
          || (FirstBad(Evals(d)) == |d.stages| && FirstBad(Reads(d)) + 1 < |d.stages|))
  {
    if Launches(d) {
      var e, v := FirstBad(Evals(d)), FirstBad(Reads(d));
      if 0 < e < |d.stages| {
        assert Left(d, 0) == LockAndLease;
      } else if e == |d.stages| && v + 1 < |d.stages| {
        assert Left(d, v + 1) == LockAndLease;
      }
    }
  }

  /** A dispatch to a single stage never leaves a mutex held, whatever fails; if it fails it
      leaves no lease either. */
  lemma SingleStageIsClean(d: DispatchEnv)
    requires |d.stages| == 1
    ensures Left(d, 0) != LockAndLease
    ensures !Succeeds(d) ==> Left(d, 0) == None
  {
    MutexLeftHeldIff(d);
  }

  /** The failing input: two stages, the second evaluation fails, slot 0 stays locked. */
  lemma SecondEvaluationFails() returns (d: DispatchEnv)
    ensures |d.stages| == 2 && Left(d, 0) == LockAndLease && Left(d, 1) == None
  {
    var begin := BeginEnv(true, true, true, true, true, true, false, false, false, true, false, false, false);
    var view := ViewEnv(IOSurfaceAlias, true, true, true, true, true, true, true, true, true);
    d := DispatchEnv(true, true, true, [StageEnv(begin, true, view), StageEnv(begin, false, view)]);
    FirstBadIs(Begins(d), 2);
    FirstBadIs(Evals(d), 1);
  }
}
