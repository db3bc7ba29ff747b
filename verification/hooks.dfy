/** The stack of nn.Linear hook sessions (nnhook.go). */
module Hooks {

  import opened Options

  type Mode = nat
  type Hook = nat                    // some forward hook
  const DISPATCH: Hook := 0          // the one this package installs

  /** What a hook says to one call: an answer or an error, or nothing. */
  datatype Reply = Declined | Answered(answer: int)

  class Session {
    const id: nat
    const mode: Option<Mode>

    constructor (id: nat, mode: Option<Mode>)
      ensures this.id == id && this.mode == mode
    {
      this.id, this.mode := id, mode;
    }
  }

  /** The mode of the latest session that set one, else the base mode. */
  function TopMode(base: Mode, modes: seq<Option<Mode>>): Mode
    decreases |modes|
  {
    if modes == [] then base
    else
      var last := modes[|modes| - 1];
      if last.Some? then last.value else TopMode(base, modes[..|modes| - 1])
  }

  lemma {:induction false} TopModeIsLatest(base: Mode, modes: seq<Option<Mode>>, i: nat)
    requires i < |modes| && modes[i].Some? && forall j :: i < j < |modes| ==> modes[j].None?
    ensures TopMode(base, modes) == modes[i].value
    decreases |modes|
  {
    if i < |modes| - 1 {
      TopModeIsLatest(base, modes[..|modes| - 1], i);
    }
  }

  lemma {:induction false} TopModeIsBase(base: Mode, modes: seq<Option<Mode>>)
    requires forall j :: 0 <= j < |modes| ==> modes[j].None?
    ensures TopMode(base, modes) == base
    decreases |modes|
  {
    if modes != [] {
      TopModeIsBase(base, modes[..|modes| - 1]);
    }
  }

  /** The list without x. */
  function Without(s: seq<nat>, x: nat): (r: seq<nat>)
    ensures forall y :: y in r <==> y in s && y != x
    ensures x !in s ==> r == s
    decreases |s|
  {
    if s == [] then [] else
      var rest := Without(s[..|s| - 1], x);
      if s[|s| - 1] == x then rest else rest + [s[|s| - 1]]
  }

  lemma LastIsNew(s: seq<nat>)
    requires s != [] && Distinct(s)
    ensures s[|s| - 1] !in s[..|s| - 1]
  {
    var n := |s| - 1;
    assert forall j :: 0 <= j < n ==> s[..n][j] == s[j];
  }

  lemma {:induction false} WithoutAt(s: seq<nat>, i: nat)
    requires i < |s| && Distinct(s)
    ensures Without(s, s[i]) == s[..i] + s[i + 1..]
    decreases |s|
  {
    var n := |s| - 1;
    assert s == s[..n] + [s[n]];
    if i < n {
      WithoutAt(s[..n], i);
      assert s[..n][..i] == s[..i] && s[..n][i + 1..] + [s[n]] == s[i + 1..];
    } else {
      LastIsNew(s);
      assert s[..i] + s[i + 1..] == s[..n];
    }
  }

  lemma {:induction false} WithoutDistinct(s: seq<nat>, x: nat)
    requires Distinct(s)
    ensures Distinct(Without(s, x))
    decreases |s|
  {
    if s != [] {
      var n := |s| - 1;
      WithoutDistinct(s[..n], x);
      var r := Without(s[..n], x);
      LastIsNew(s);
      assert forall i :: 0 <= i < |r| ==> r[i] in s[..n];
    }
  }

  predicate Distinct(s: seq<nat>) {
    forall i, j :: 0 <= i < j < |s| ==> s[i] != s[j]
  }

  function IdsOf(s: seq<Session>): (ids: seq<nat>)
    ensures |ids| == |s| && forall i :: 0 <= i < |s| ==> ids[i] == s[i].id
  {
    seq(|s|, i requires 0 <= i < |s| => s[i].id)
  }

  function ModesOf(s: seq<Session>): (modes: seq<Option<Mode>>)
    ensures |modes| == |s| && forall i :: 0 <= i < |s| ==> modes[i] == s[i].mode
  {
    seq(|s|, i requires 0 <= i < |s| => s[i].mode)
  }

  ghost predicate Listed(s: seq<Session>, next: nat) {
    Distinct(IdsOf(s)) && forall i :: 0 <= i < |s| ==> s[i].id < next
  }

  lemma StillListed(before: seq<Session>, after: seq<Session>, next: nat, x: nat)
    requires Listed(before, next) && IdsOf(after) == Without(IdsOf(before), x)
    requires forall t :: t in after ==> t in before
    ensures Listed(after, next)
  {
    WithoutDistinct(IdsOf(before), x);
    forall i | 0 <= i < |after|
      ensures after[i].id < next
    {
      assert after[i] in before;
    }
  }

  /** The manager together with the two globals of package nn that it takes over. */
  class Manager {
    var hook: Option<Hook>
    var mode: Mode
    var installed: bool
    var baseHook: Option<Hook>
    var baseMode: Mode
    var sessions: seq<Session>
    var next: nat

    /** While there are sessions the dispatcher is the hook and the mode is that of the
        latest session with one; what was there before is kept aside. */
    ghost predicate Valid()
      reads this
    {
      (installed <==> sessions != []) && Listed(sessions, next)
      && (installed ==> hook == Some(DISPATCH) && mode == TopMode(baseMode, ModesOf(sessions)))
    }

    /** The hook and mode in force when the last session is gone. */
    ghost function Original(): (Option<Hook>, Mode)
      reads this
    {
      if installed then (baseHook, baseMode) else (hook, mode)
    }

    constructor (hook: Option<Hook>, mode: Mode)
      ensures Valid() && sessions == [] && Original() == (hook, mode) && next == 0
    {
      this.hook, this.mode := hook, mode;
      installed, baseHook, baseMode, sessions, next := false, None, 0, [], 0;
    }

    method ApplyTopMode()
      modifies this`mode
      ensures mode == TopMode(baseMode, ModesOf(sessions))
    {
      var m := baseMode;
      var i := |sessions|;
      ghost var found := false;
      while i > 0
        invariant 0 <= i <= |sessions| && m == baseMode
        invariant forall j :: i <= j < |sessions| ==> sessions[j].mode.None?
      {
        i := i - 1;
        if sessions[i].mode.Some? {
          mode := sessions[i].mode.value;
          TopModeIsLatest(baseMode, ModesOf(sessions), i);
          return;
        }
      }
      TopModeIsBase(baseMode, ModesOf(sessions));
      mode := m;
    }

    method Install(m: Option<Mode>) returns (s: Session)
      requires Valid()
      modifies this
      ensures Valid() && next == old(next) + 1 && s.id == old(next) && s.mode == m
      ensures Original() == old(Original())
      ensures IdsOf(sessions) == IdsOf(old(sessions)) + [s.id] && ModesOf(sessions) == ModesOf(old(sessions)) + [m]
        && sessions == old(sessions) + [s]
    {
      s := new Session(next, m);
      next := next + 1;
      if !installed {
        baseMode := mode;
        baseHook := hook;
        hook := Some(DISPATCH);
        installed := true;
      }
      sessions := sessions + [s];
      ApplyTopMode();
      assert IdsOf(sessions) == IdsOf(old(sessions)) + [s.id];
    }

    /** Cuts session s out of the list, looking from the end. */
    method Cut(s: Session)
      requires Listed(sessions, next) && (forall t :: t in sessions && t.id == s.id ==> t == s)
      modifies this`sessions
      ensures IdsOf(sessions) == Without(IdsOf(old(sessions)), s.id)
      ensures forall t :: t in sessions ==> t in old(sessions)
    {
      hide Without, TopMode, ModesOf;
      var i := |sessions|;
      while i > 0
        invariant 0 <= i <= |sessions| && sessions == old(sessions)
        invariant forall j :: i <= j < |sessions| ==> sessions[j] != s
      {
        i := i - 1;
        if sessions[i] == s {
          WithoutAt(IdsOf(sessions), i);
          sessions := sessions[..i] + sessions[i + 1..];
          assert IdsOf(sessions) == IdsOf(old(sessions))[..i] + IdsOf(old(sessions))[i + 1..];
          return;
        }
      }
      forall j | 0 <= j < |sessions|
        ensures IdsOf(sessions)[j] != s.id
      {
        assert sessions[j] in sessions;
      }
    }

    /** Takes session s out, wherever it stands; the last one to go puts back what was there
        before the first came. */
    method Remove(s: Session)
      requires Valid() && installed && (forall t :: t in sessions && t.id == s.id ==> t == s)
      modifies this
      ensures Valid() && next == old(next)
      ensures IdsOf(sessions) == Without(IdsOf(old(sessions)), s.id)
      ensures forall t :: t in sessions ==> t in old(sessions)
      ensures Original() == old(Original())
      ensures sessions == [] ==> (hook, mode) == Original() && !installed
    {
      hide Listed, TopMode, Without, IdsOf, ModesOf;
      ghost var before := sessions;
      Cut(s);
      StillListed(before, sessions, next, s.id);
      if |sessions| == 0 {
        hook := baseHook;
        mode := baseMode;
        baseHook := None;
        installed := false;
        return;
      }
      ApplyTopMode();
    }

    /** Who answers a call: the latest session, or behind it the hook that was there before. */
    method Dispatch(reply: Session -> Reply, base: Hook -> Reply) returns (r: Reply)
      requires Valid()
      ensures sessions != [] && reply(sessions[|sessions| - 1]).Answered? ==> r == reply(sessions[|sessions| - 1])
      ensures sessions != [] && reply(sessions[|sessions| - 1]).Declined? ==>
        r == if Original().0.Some? then base(Original().0.value) else Declined
    {
      if |sessions| == 0 {
        return if baseHook.Some? then base(baseHook.value) else Declined;
      }
      r := reply(sessions[|sessions| - 1]);
      if r.Declined? && baseHook.Some? {
        r := base(baseHook.value);
      }
    }
  }

  // ---- runs ----------------------------------------------------------------------------------

  /** An installation, or a call of the restore function of the k-th installation. */
  datatype Event = Install(mode: Option<Mode>) | Restore(k: nat)

  ghost function Installs(events: seq<Event>): seq<Option<Mode>>
    decreases |events|
  {
    if events == [] then []
    else
      var n := |events| - 1;
      Installs(events[..n]) + if events[n].Install? then [events[n].mode] else []
  }

  /** Installation k has taken place and has not been restored since. */
  ghost predicate Alive(events: seq<Event>, k: nat)
    decreases |events|
  {
    if events == [] then false
    else
      var n := |events| - 1;
      match events[n]
      case Install(_) => k == |Installs(events[..n])| || Alive(events[..n], k)
      case Restore(j) => k != j && Alive(events[..n], k)
  }

  /** The ids are those of the live sessions, in the order of their installation. */
  ghost predicate Stack(ids: seq<nat>, events: seq<Event>) {
    InOrder(ids) && forall k: nat :: k in ids <==> Alive(events, k)
  }

  ghost predicate InOrder(ids: seq<nat>) {
    forall i, j :: 0 <= i < j < |ids| ==> ids[i] < ids[j]
  }

  lemma {:induction false} WithoutInOrder(s: seq<nat>, x: nat)
    requires InOrder(s)
    ensures InOrder(Without(s, x))
    decreases |s|
  {
    if s != [] {
      var n := |s| - 1;
      WithoutInOrder(s[..n], x);
      assert forall y :: y in s[..n] ==> y < s[n];
      var r := Without(s[..n], x);
      assert forall i :: 0 <= i < |r| ==> r[i] in s[..n];
    }
  }

  lemma InstallStep(ids: seq<nat>, events: seq<Event>, n: nat)
    requires n < |events| && events[n].Install? && Stack(ids, events[..n])
    requires forall k: nat :: k in ids ==> k < |Installs(events[..n])|
    ensures Stack(ids + [|Installs(events[..n])|], events[..n + 1])
    ensures Installs(events[..n + 1]) == Installs(events[..n]) + [events[n].mode]
  {
    assert events[..n + 1][..n] == events[..n];
    var id := |Installs(events[..n])|;
    var more := ids + [id];
    assert forall i :: 0 <= i < |ids| ==> ids[i] in ids;
    forall k: nat
      ensures k in more <==> Alive(events[..n + 1], k)
    {
    }
  }

  lemma RestoreStep(ids: seq<nat>, events: seq<Event>, n: nat)
    requires n < |events| && events[n].Restore? && Stack(ids, events[..n])
    ensures Stack(Without(ids, events[n].k), events[..n + 1])
    ensures Installs(events[..n + 1]) == Installs(events[..n])
  {
    assert events[..n + 1][..n] == events[..n];
    WithoutInOrder(ids, events[n].k);
    forall k: nat
      ensures k in Without(ids, events[n].k) <==> Alive(events[..n + 1], k)
    {
    }
  }

  /** Installations and restores in any order, restores possibly repeated: the sessions are
      always the live ones in the order of their installation, the mode is that of the
      latest live one that set a mode, and when none is left hook and mode are the original
      ones. */
  method Run(hook: Option<Hook>, mode: Mode, events: seq<Event>) returns (m: Manager)
    ensures fresh(m) && m.Valid() && m.Original() == (hook, mode)
    ensures Stack(IdsOf(m.sessions), events)
    ensures forall i :: 0 <= i < |m.sessions| ==>
      m.sessions[i].id < |Installs(events)| && m.sessions[i].mode == Installs(events)[m.sessions[i].id]
    ensures if m.sessions == [] then (m.hook, m.mode) == (hook, mode)
            else m.hook == Some(DISPATCH) && m.mode == TopMode(mode, ModesOf(m.sessions))
  {
    hide Tracked, Stack;
    m := new Manager(hook, mode);
    StartTracking(m.sessions);
    var handles: seq<Session> := [];
    var used: set<nat> := {};
    for n := 0 to |events|
      invariant fresh(m) && m.Valid() && m.Original() == (hook, mode)
      invariant Stack(IdsOf(m.sessions), events[..n])
      invariant m.next == |handles| == |Installs(events[..n])|
      invariant Tracked(handles, Installs(events[..n]), m.sessions, used)
    {
      ghost var before, ids := m.sessions, IdsOf(m.sessions);
      match events[n] {
        case Install(mode) =>
          InstallStep(ids, events, n);
          var s := m.Install(mode);
          TrackedInstall(handles, Installs(events[..n]), before, used, s);
          handles := handles + [s];
        case Restore(k) =>
          RestoreStep(ids, events, n);
          Unused(handles, Installs(events[..n]), before, used, k);
          if k < |handles| && k !in used {
            m.Remove(handles[k]);
            TrackedRemove(handles, Installs(events[..n]), before, m.sessions, used, k);
            used := used + {k};
          }
      }
    }
    assert events[..|events|] == events;
    TrackedSessions(handles, Installs(events), m.sessions, used);
  }

  /** handles are the sessions of all installations so far, used those restored. */
  ghost predicate Tracked(handles: seq<Session>, installs: seq<Option<Mode>>, sessions: seq<Session>, used: set<nat>) {
    |handles| == |installs|
    && (forall k :: 0 <= k < |handles| ==> handles[k].id == k && handles[k].mode == installs[k])
    && (forall t :: t in sessions ==> t in handles)
    && (forall k :: k in used ==> k < |handles|)
    && (forall k :: 0 <= k < |handles| ==> (k in used <==> k !in IdsOf(sessions)))
  }

  lemma StartTracking(sessions: seq<Session>)
    requires sessions == []
    ensures Tracked([], [], sessions, {}) && Stack(IdsOf(sessions), [])
  {
  }

  /** Calling a restore function again changes nothing; the first time the session is there. */
  lemma Unused(handles: seq<Session>, installs: seq<Option<Mode>>, sessions: seq<Session>, used: set<nat>, k: nat)
    requires Tracked(handles, installs, sessions, used)
    ensures |handles| == |installs|
    ensures !(k < |handles| && k !in used) ==> Without(IdsOf(sessions), k) == IdsOf(sessions)
    ensures k < |handles| && k !in used ==> sessions != []
    ensures k < |handles| ==> handles[k].id == k && forall t :: t in sessions && t.id == k ==> t == handles[k]
  {
    TrackedSessions(handles, installs, sessions, used);
    if !(k < |handles| && k !in used) {
      assert k !in IdsOf(sessions);
    }
  }

  lemma TrackedInstall(handles: seq<Session>, installs: seq<Option<Mode>>, sessions: seq<Session>, used: set<nat>,
      s: Session)
    requires Tracked(handles, installs, sessions, used) && s.id == |handles|
    ensures Tracked(handles + [s], installs + [s.mode], sessions + [s], used)
  {
    var ids, more := IdsOf(sessions), IdsOf(sessions + [s]);
    assert more == ids + [s.id];
    assert |handles| !in ids by {
      TrackedSessions(handles, installs, sessions, used);
    }
  }

  lemma TrackedRemove(handles: seq<Session>, installs: seq<Option<Mode>>, before: seq<Session>, after: seq<Session>,
      used: set<nat>, k: nat)
    requires Tracked(handles, installs, before, used) && k < |handles|
    requires IdsOf(after) == Without(IdsOf(before), k) && forall t :: t in after ==> t in before
    ensures Tracked(handles, installs, after, used + {k})
  {
  }

  lemma TrackedSessions(handles: seq<Session>, installs: seq<Option<Mode>>, sessions: seq<Session>, used: set<nat>)
    requires Tracked(handles, installs, sessions, used)
    ensures forall i :: 0 <= i < |sessions| ==>
      sessions[i].id < |installs| && sessions[i].mode == installs[sessions[i].id]
    ensures forall i, k :: 0 <= i < |sessions| && 0 <= k < |handles| && sessions[i].id == k ==>
      sessions[i] == handles[k]
  {
    forall i | 0 <= i < |sessions|
      ensures exists k :: 0 <= k < |handles| && sessions[i] == handles[k]
    {
      assert sessions[i] in handles;
    }
  }
}
