/** Build-once stage acquisition with pending channels (decode/stages.go): `denseStage`,
    `getDirectBlock`, `sharedStage` and `expertStage` share this protocol. Under `p.mu` a
    caller returns a stored stage or error, or waits for the channel of a pending build,
    or announces its own build; the build itself runs without the lock. */
module BuildOnce {

  datatype Key = Key(layer: int, expert: int)
  type StageId = nat
  type ErrorId = nat
  type Channel = nat
  type ThreadId = nat

  datatype Result = Built(stage: StageId) | Error(error: ErrorId)

  /** The three maps of one stage kind, and the channels made and closed so far. */
  datatype Store = Store(
    stages: map<Key, StageId>, errs: map<Key, ErrorId>, pending: map<Key, Channel>,
    channels: nat, closed: set<Channel>)

  datatype Answer = Hit(result: Result) | Wait(channel: Channel) | Build(channel: Channel)

  predicate Stored(m: Store, k: Key) { k in m.stages || k in m.errs }

  function Lookup(m: Store, k: Key): Result
    requires Stored(m, k)
  {
    if k in m.stages then Built(m.stages[k]) else Error(m.errs[k])
  }

  /** The critical section at the head of the retry loop. */
  function Enter(m: Store, k: Key): (Store, Answer) {
    if Stored(m, k) then (m, Hit(Lookup(m, k)))
    else if k in m.pending then (m, Wait(m.pending[k]))
    else (m.(pending := m.pending[k := m.channels], channels := m.channels + 1), Build(m.channels))
  }

  /** The critical section after a build. */
  function Complete(m: Store, k: Key, c: Channel, r: Result): Store {
    var m1 := m.(pending := m.pending - {k}, closed := m.closed + {c});
    match r
    case Built(s) => m1.(stages := m.stages[k := s])
    case Error(e) => m1.(errs := m.errs[k := e])
  }

  class Plane {
    var stages: map<Key, StageId>
    var errs: map<Key, ErrorId>
    var pending: map<Key, Channel>
    var channels: nat
    var closed: set<Channel>

    function View(): Store
      reads this
    {
      Store(stages, errs, pending, channels, closed)
    }

    constructor ()
      ensures View() == Store(map[], map[], map[], 0, {})
    {
      stages, errs, pending, channels, closed := map[], map[], map[], 0, {};
    }

    method Look(k: Key) returns (a: Answer)
      modifies this
      ensures (View(), a) == Enter(old(View()), k)
      ensures k in stages ==> a == Hit(Built(stages[k]))
      ensures k !in stages && k in errs ==> a == Hit(Error(errs[k]))
      ensures k !in stages && k !in errs && k in old(pending) ==> a == Wait(old(pending[k]))
      ensures k !in stages && k !in errs && k !in old(pending) ==> a == Build(old(channels))
      ensures stages == old(stages) && errs == old(errs) && closed == old(closed)
      ensures pending == if a.Build? then old(pending)[k := old(channels)] else old(pending)
      ensures channels == old(channels) + if a.Build? then 1 else 0
    {
      if k in stages {
        return Hit(Built(stages[k]));
      }
      if k in errs {
        return Hit(Error(errs[k]));
      }
      if k in pending {
        return Wait(pending[k]);
      }
      var c := channels;
      channels := channels + 1;
      pending := pending[k := c];
      a := Build(c);
    }

    method Finish(k: Key, c: Channel, r: Result)
      modifies this
      ensures View() == Complete(old(View()), k, c, r)
      ensures stages == if r.Built? then old(stages)[k := r.stage] else old(stages)
      ensures errs == if r.Error? then old(errs)[k := r.error] else old(errs)
      ensures k !in pending && (forall j :: j != k ==> (j in pending <==> j in old(pending)))
      ensures forall j :: j in pending ==> j in old(pending) && pending[j] == old(pending)[j]
      ensures closed == old(closed) + {c} && channels == old(channels)
    {
      pending := pending - {k};
      match r {
        case Built(s) => stages := stages[k := s];
        case Error(e) => errs := errs[k := e];
      }
      closed := closed + {c};
    }

    /** A call that nobody else interferes with: it answers from the store or builds
        once (`built` is what the build returns) and leaves nothing pending. */
    method Acquire(k: Key, built: Result) returns (r: Result)
      requires k !in pending
      modifies this
      ensures var was := old(View());
        && r == (if Stored(was, k) then Lookup(was, k) else built)
        && Stored(View(), k) && Lookup(View(), k) == r && pending == was.pending
        && forall j :: j != k ==>
          (Stored(View(), j) <==> Stored(was, j)) && (Stored(was, j) ==> Lookup(View(), j) == Lookup(was, j))
      // a stored stage comes before a stored error, and either before a build
      ensures k in old(stages) ==> r == Built(old(stages[k]))
      ensures k !in old(stages) && k in old(errs) ==> r == Error(old(errs[k]))
      ensures k in old(stages) || k in old(errs) ==> stages == old(stages) && errs == old(errs)
      ensures k !in old(stages) && k !in old(errs) ==>
        r == built && stages == (if built.Built? then old(stages)[k := built.stage] else old(stages))
        && errs == if built.Error? then old(errs)[k := built.error] else old(errs)
    {
      var a := Look(k);
      match a {
        case Hit(result) => r := result;
        case Build(c) =>
          Finish(k, c, built);
          r := built;
        case Wait(_) =>
      }
    }
  }

  // ---- every interleaving -----------------------------------------------------------

  datatype Phase =
    | Looking(key: Key)
    | Building(key: Key, channel: Channel)
    | Waiting(key: Key, channel: Channel)
    | Returned(key: Key, result: Result)

  /** `started` counts the builds started for each key, over the whole run. */
  datatype Sys = Sys(store: Store, threads: map<ThreadId, Phase>, started: map<Key, nat>)

  datatype Event =
    | Call(t: ThreadId, key: Key)
    | Check(t: ThreadId)
    | Wake(t: ThreadId)
    | Done(t: ThreadId, result: Result)
    | Leave(t: ThreadId)

  const INITIAL := Sys(Store(map[], map[], map[], 0, {}), map[], map[])

  function Starts(s: Sys, k: Key): nat {
    if k in s.started then s.started[k] else 0
  }

  predicate Enabled(s: Sys, e: Event) {
    match e
    case Call(t, _) => t !in s.threads
    case Check(t) => t in s.threads && s.threads[t].Looking?
    case Wake(t) => t in s.threads && s.threads[t].Waiting? && s.threads[t].channel in s.store.closed
    case Done(t, _) => t in s.threads && s.threads[t].Building?
    case Leave(t) => t in s.threads && s.threads[t].Returned?
  }

  function Apply(s: Sys, e: Event): Sys
    requires Enabled(s, e)
  {
    match e
    case Call(t, k) => s.(threads := s.threads[t := Looking(k)])
    case Check(t) =>
      var k := s.threads[t].key;
      var (m, a) := Enter(s.store, k);
      (match a
       case Hit(r) => s.(threads := s.threads[t := Returned(k, r)])
       case Wait(c) => s.(threads := s.threads[t := Waiting(k, c)])
       case Build(c) => Sys(m, s.threads[t := Building(k, c)], s.started[k := Starts(s, k) + 1]))
    case Wake(t) => s.(threads := s.threads[t := Looking(s.threads[t].key)])
    case Done(t, r) =>
      var ph := s.threads[t];
      s.(store := Complete(s.store, ph.key, ph.channel, r), threads := s.threads[t := Returned(ph.key, r)])
    case Leave(t) => s.(threads := s.threads - {t})
  }

  ghost predicate IsBuilder(s: Sys, t: ThreadId, k: Key) {
    t in s.threads && s.threads[t].Building? && s.threads[t].key == k
  }

  ghost predicate HasBuilder(s: Sys, k: Key, c: Channel) {
    exists t :: IsBuilder(s, t, k) && s.threads[t].channel == c
  }

  /** A key is pending only while a thread builds it, on that channel. */
  ghost predicate PendingOk(s: Sys) {
    && (forall k :: k in s.store.pending ==>
          !Stored(s.store, k) && s.store.pending[k] < s.store.channels
          && s.store.pending[k] !in s.store.closed && HasBuilder(s, k, s.store.pending[k]))
    && (forall j, k :: j in s.store.pending && k in s.store.pending && j != k ==>
          s.store.pending[j] != s.store.pending[k])
    && (forall c :: c in s.store.closed ==> c < s.store.channels)
  }

  ghost predicate BuildersOk(s: Sys) {
    && (forall t :: t in s.threads && s.threads[t].Building? ==>
          s.threads[t].key in s.store.pending && s.store.pending[s.threads[t].key] == s.threads[t].channel)
    && (forall t, u, k :: IsBuilder(s, t, k) && IsBuilder(s, u, k) ==> t == u)
  }

  ghost predicate StartsOk(s: Sys) {
    forall k :: Starts(s, k) == if k in s.store.pending || Stored(s.store, k) then 1 else 0
  }

  ghost predicate StoreOk(s: Sys) {
    && (forall k :: k in s.store.stages ==> k !in s.store.errs)
    && (forall t :: t in s.threads && s.threads[t].Returned? ==>
          Stored(s.store, s.threads[t].key) && Lookup(s.store, s.threads[t].key) == s.threads[t].result)
  }

  /** A waiter's channel is that of the pending build of its key, or it is closed and the
      result of its key is stored. */
  ghost predicate WaitersOk(s: Sys) {
    forall t :: t in s.threads && s.threads[t].Waiting? ==>
      var k, c := s.threads[t].key, s.threads[t].channel;
      (k in s.store.pending && s.store.pending[k] == c) || (c in s.store.closed && Stored(s.store, k))
  }

  ghost predicate Inv(s: Sys) {
    PendingOk(s) && BuildersOk(s) && StartsOk(s) && StoreOk(s) && WaitersOk(s)
  }

  /** Events that leave the store alone and make or end no build. */
  lemma QuietInv(s: Sys, e: Event)
    requires Inv(s) && Enabled(s, e)
    requires Quiet(s, e)
    ensures Inv(Apply(s, e))
  {
    QuietBuilders(s, e);
    QuietRest(s, e);
  }

  predicate Quiet(s: Sys, e: Event)
    requires Enabled(s, e)
  {
    e.Call? || e.Wake? || e.Leave? || (e.Check? && !Enter(s.store, s.threads[e.t].key).1.Build?)
  }

  lemma QuietBuilders(s: Sys, e: Event)
    requires PendingOk(s) && BuildersOk(s) && Enabled(s, e) && Quiet(s, e)
    ensures PendingOk(Apply(s, e)) && BuildersOk(Apply(s, e))
  {
    var s' := Apply(s, e);
    assert s'.store == s.store;
    assert forall u, k :: IsBuilder(s', u, k) <==> IsBuilder(s, u, k);
    forall k | k in s.store.pending
      ensures HasBuilder(s', k, s.store.pending[k])
    {
      var u :| IsBuilder(s, u, k) && s.threads[u].channel == s.store.pending[k];
      assert IsBuilder(s', u, k);
    }
  }

  lemma QuietRest(s: Sys, e: Event)
    requires StartsOk(s) && StoreOk(s) && WaitersOk(s) && Enabled(s, e) && Quiet(s, e)
    ensures StartsOk(Apply(s, e)) && StoreOk(Apply(s, e)) && WaitersOk(Apply(s, e))
  {
    assert Apply(s, e).store == s.store && Apply(s, e).started == s.started;
  }

  lemma BuildPending(s: Sys, t: ThreadId)
    requires Inv(s) && Enabled(s, Check(t)) && Enter(s.store, s.threads[t].key).1.Build?
    ensures PendingOk(Apply(s, Check(t)))
  {
    var s' := Apply(s, Check(t));
    var k := s.threads[t].key;
    assert IsBuilder(s', t, k);
    forall j | j in s.store.pending
      ensures HasBuilder(s', j, s.store.pending[j])
    {
      var u :| IsBuilder(s, u, j) && s.threads[u].channel == s.store.pending[j];
      assert IsBuilder(s', u, j);
    }
  }

  lemma BuildRest(s: Sys, t: ThreadId)
    requires Inv(s) && Enabled(s, Check(t)) && Enter(s.store, s.threads[t].key).1.Build?
    ensures var s' := Apply(s, Check(t)); BuildersOk(s') && StartsOk(s') && StoreOk(s') && WaitersOk(s')
  {
    var s' := Apply(s, Check(t));
    var k := s.threads[t].key;
    assert forall u :: !IsBuilder(s, u, k);
    assert forall u, j :: IsBuilder(s', u, j) <==> IsBuilder(s, u, j) || (u == t && j == k);
  }

  lemma DonePending(s: Sys, t: ThreadId, r: Result)
    requires Inv(s) && Enabled(s, Done(t, r))
    ensures PendingOk(Apply(s, Done(t, r)))
  {
    var s' := Apply(s, Done(t, r));
    var k := s.threads[t].key;
    forall j | j in s'.store.pending
      ensures HasBuilder(s', j, s.store.pending[j])
    {
      var u :| IsBuilder(s, u, j) && s.threads[u].channel == s.store.pending[j];
      assert IsBuilder(s', u, j);
    }
  }

  lemma DoneBuilders(s: Sys, t: ThreadId, r: Result)
    requires BuildersOk(s) && Enabled(s, Done(t, r))
    ensures BuildersOk(Apply(s, Done(t, r)))
  {
    var s' := Apply(s, Done(t, r));
    assert IsBuilder(s, t, s.threads[t].key);
    forall u | u in s'.threads && s'.threads[u].Building?
      ensures s'.threads[u].key in s'.store.pending && s'.store.pending[s'.threads[u].key] == s'.threads[u].channel
    {
      assert IsBuilder(s, u, s.threads[u].key);
    }
    assert forall u, j :: IsBuilder(s', u, j) ==> IsBuilder(s, u, j);
  }

  lemma DoneStarts(s: Sys, t: ThreadId, r: Result)
    requires BuildersOk(s) && StartsOk(s) && Enabled(s, Done(t, r))
    ensures StartsOk(Apply(s, Done(t, r)))
  {
  }

  lemma DoneRest(s: Sys, t: ThreadId, r: Result)
    requires PendingOk(s) && BuildersOk(s) && StoreOk(s) && WaitersOk(s) && Enabled(s, Done(t, r))
    ensures var s' := Apply(s, Done(t, r)); StoreOk(s') && WaitersOk(s')
  {
  }

  lemma StepInv(s: Sys, e: Event)
    requires Inv(s) && Enabled(s, e)
    ensures Inv(Apply(s, e))
  {
    if e.Done? {
      DonePending(s, e.t, e.result);
      DoneBuilders(s, e.t, e.result);
      DoneStarts(s, e.t, e.result);
      DoneRest(s, e.t, e.result);
    } else if e.Check? && Enter(s.store, s.threads[e.t].key).1.Build? {
      BuildPending(s, e.t);
      BuildRest(s, e.t);
    } else {
      QuietInv(s, e);
    }
  }

  ghost predicate Valid(s: Sys, es: seq<Event>)
    decreases |es|
  {
    es == [] || (Enabled(s, es[0]) && Valid(Apply(s, es[0]), es[1..]))
  }

  ghost function Exec(s: Sys, es: seq<Event>): Sys
    requires Valid(s, es)
    decreases |es|
  {
    if es == [] then s else Exec(Apply(s, es[0]), es[1..])
  }

  lemma {:induction false} ExecInv(s: Sys, es: seq<Event>)
    requires Inv(s) && Valid(s, es)
    ensures Inv(Exec(s, es))
    decreases |es|
  {
    hide Inv;
    if es != [] {
      StepInv(s, es[0]);
      ExecInv(Apply(s, es[0]), es[1..]);
    }
  }

  /** Over any run, at most one build is ever started for a key, and every caller that
      has returned got the one stored result. */
  lemma OneBuildPerKey(es: seq<Event>, k: Key)
    requires Valid(INITIAL, es)
    ensures var s := Exec(INITIAL, es);
      && Starts(s, k) <= 1
      && (forall t, u :: IsBuilder(s, t, k) && IsBuilder(s, u, k) ==> t == u)
      && (forall t :: t in s.threads && s.threads[t].Returned? && s.threads[t].key == k ==>
            Stored(s.store, k) && s.threads[t].result == Lookup(s.store, k))
  {
    ExecInv(INITIAL, es);
  }

  lemma StepKeepsResult(s: Sys, e: Event, k: Key)
    requires Inv(s) && Enabled(s, e) && Stored(s.store, k)
    ensures Stored(Apply(s, e).store, k) && Lookup(Apply(s, e).store, k) == Lookup(s.store, k)
  {
  }

  /** A stored result is never replaced or lost. */
  lemma {:induction false} ResultIsFinal(s: Sys, es: seq<Event>, k: Key)
    requires Inv(s) && Valid(s, es) && Stored(s.store, k)
    ensures Stored(Exec(s, es).store, k) && Lookup(Exec(s, es).store, k) == Lookup(s.store, k)
    decreases |es|
  {
    hide Inv, Stored, Lookup;
    if es != [] {
      StepInv(s, es[0]);
      StepKeepsResult(s, es[0], k);
      ResultIsFinal(Apply(s, es[0]), es[1..], k);
    }
  }

  /** A waiter that was woken finds the result when it next looks, no matter what the
      other threads do in between: it neither builds nor waits again. */
  lemma WokenWaiterReturns(s: Sys, t: ThreadId, es: seq<Event>)
    requires Inv(s) && Enabled(s, Wake(t))
    requires Valid(Apply(s, Wake(t)), es) && forall i :: 0 <= i < |es| ==> es[i].t != t
    ensures var s1 := Exec(Apply(s, Wake(t)), es);
      Stored(s1.store, s.threads[t].key) && Enabled(s1, Check(t))
      && Apply(s1, Check(t)).threads[t] == Returned(s.threads[t].key, Lookup(s1.store, s.threads[t].key))
  {
    var k, c := s.threads[t].key, s.threads[t].channel;
    assert Stored(s.store, k);
    var s0 := Apply(s, Wake(t));
    StepInv(s, Wake(t));
    ResultIsFinal(s0, es, k);
    OthersKeep(s0, t, es);
  }

  lemma {:induction false} OthersKeep(s: Sys, t: ThreadId, es: seq<Event>)
    requires Valid(s, es) && t in s.threads && forall i :: 0 <= i < |es| ==> es[i].t != t
    ensures t in Exec(s, es).threads && Exec(s, es).threads[t] == s.threads[t]
    decreases |es|
  {
    if es != [] {
      OthersKeep(Apply(s, es[0]), t, es[1..]);
    }
  }

  /** No wake-up is lost: a waiter can be woken now, or the thread building its key is
      still at work and its completion wakes the waiter. */
  lemma NoLostWakeup(s: Sys, t: ThreadId, r: Result)
    requires Inv(s) && t in s.threads && s.threads[t].Waiting?
    ensures Enabled(s, Wake(t))
      || exists u :: u != t && Enabled(s, Done(u, r)) && Enabled(Apply(s, Done(u, r)), Wake(t))
  {
    var k, c := s.threads[t].key, s.threads[t].channel;
    if c !in s.store.closed {
      assert HasBuilder(s, k, c);
      var u :| IsBuilder(s, u, k) && s.threads[u].channel == c;
      assert u != t && Enabled(s, Done(u, r)) && Enabled(Apply(s, Done(u, r)), Wake(t));
    }
  }
}
