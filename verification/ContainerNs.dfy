/** The namespace manager (containerns/containerns.go) as a machine whose steps are
    the sections that hold its mutex, interleaved freely between callers. Whether an
    init answers the liveness probe, and whether a new one comes up, is any answer. */
module ContainerNs {
  import opened Bytes

  type Key = string

  /** stopper is who marked the entry; closes counts close(stopped). An init is
      un-reaped from its start until Wait returns. */
  datatype Entry = Entry(key: Key, refCount: int, stopping: bool, stopper: nat, closes: nat, reaped: bool)

  datatype Manager = Manager(entries: map<Key, nat>, table: seq<Entry>)

  datatype Outcome = Wait(id: nat) | Handed(id: nat) | MustStop(id: nat) | Failed

  ghost predicate Indexed(m: Manager) {
    forall k :: k in m.entries ==> m.entries[k] < |m.table| && m.table[m.entries[k]].key == k
  }

  // -------------------------------------------------------- the sections under the lock

  /** The locked part of GetOrCreate. A failed creation has killed and reaped what it
      started before it lets go of the lock. */
  function Get(m: Manager, t: nat, key: Key, alive: bool, created: bool): (Manager, Outcome)
    requires Indexed(m)
  {
    if key in m.entries then
      var id := m.entries[key];
      var e := m.table[id];
      if e.stopping then (m, Wait(id))
      else if alive then (m.(table := m.table[id := e.(refCount := e.refCount + 1)]), Handed(id))
      else (m.(table := m.table[id := e.(stopping := true, stopper := t)]), MustStop(id))
    else if created then
      (Manager(m.entries[key := |m.table|], m.table + [Entry(key, 1, false, 0, 0, false)]), Handed(|m.table|))
    else (m, Failed)
  }

  /** The locked part of Release; Some(id) when this caller must stop the entry. */
  function Release(m: Manager, t: nat, key: Key): (Manager, Outcome)
    requires Indexed(m)
  {
    if key !in m.entries || m.table[m.entries[key]].stopping then (m, Failed)
    else
      var id := m.entries[key];
      var e := m.table[id].(refCount := m.table[id].refCount - 1);
      if e.refCount > 0 then (m.(table := m.table[id := e]), Failed)
      else (m.(table := m.table[id := e.(stopping := true, stopper := t)]), MustStop(id))
  }

  function Reap(m: Manager, id: nat): Manager
    requires id < |m.table|
  {
    m.(table := m.table[id := m.table[id].(reaped := true)])
  }

  /** The locked end of stopEntry. */
  function Finish(m: Manager, id: nat): Manager
    requires id < |m.table|
  {
    var e := m.table[id];
    Manager(if e.key in m.entries && m.entries[e.key] == id then m.entries - {e.key} else m.entries,
            m.table[id := e.(closes := e.closes + 1)])
  }

  /** The manager as an object: each method is one section under the mutex. */
  class Locked {
    var entries: map<Key, nat>
    var table: seq<Entry>

    ghost function View(): Manager
      reads this
    {
      Manager(entries, table)
    }

    constructor ()
      ensures View() == Manager(map[], [])
    {
      entries, table := map[], [];
    }

    method GetSection(t: nat, key: Key, alive: bool, created: bool) returns (r: Outcome)
      requires Indexed(View())
      modifies this
      ensures (View(), r) == Get(old(View()), t, key, alive, created)
    {
      if key in entries {
        var id := entries[key];
        if table[id].stopping { return Wait(id); }
        if alive {
          table := table[id := table[id].(refCount := table[id].refCount + 1)];
          return Handed(id);
        }
        table := table[id := table[id].(stopping := true, stopper := t)];
        return MustStop(id);
      }
      if !created { return Failed; }
      r := Handed(|table|);
      entries := entries[key := |table|];
      table := table + [Entry(key, 1, false, 0, 0, false)];
    }

    method ReleaseSection(t: nat, key: Key) returns (r: Outcome)
      requires Indexed(View())
      modifies this
      ensures (View(), r) == Release(old(View()), t, key)
    {
      if key !in entries { return Failed; }
      var id := entries[key];
      if table[id].stopping { return Failed; }
      table := table[id := table[id].(refCount := table[id].refCount - 1)];
      if table[id].refCount > 0 { return Failed; }
      table := table[id := table[id].(stopping := true, stopper := t)];
      assert table == old(table)[id := table[id]];
      r := MustStop(id);
    }

    method FinishSection(id: nat)
      requires id < |table|
      modifies this
      ensures View() == Finish(old(View()), id)
    {
      var key := table[id].key;
      if key in entries && entries[key] == id { entries := entries - {key}; }
      table := table[id := table[id].(closes := table[id].closes + 1)];
    }
  }

  // ------------------------------------------------------------------- the machine

  /** Where a caller stands. Stopping and Reaped are stopEntry before and after Wait;
      again says whether GetOrCreate starts over afterwards. */
  datatype PC =
    | Idle
    | Getting(key: Key)
    | Waiting(id: nat, key: Key)
    | Stopping(id: nat, key: Key, again: bool)
    | Reaped(id: nat, key: Key, again: bool)
    | Releasing(key: Key)

  datatype World = World(m: Manager, pcs: map<nat, PC>, sessions: map<Key, nat>)

  datatype Action =
    | CallGet(t: nat, key: Key)
    | CallRelease(t: nat, key: Key)
    | RunGet(t: nat, alive: bool, created: bool)
    | RunRelease(t: nat)
    | Wake(t: nat)
    | ReapInit(t: nat)
    | RunFinish(t: nat)

  function PcOf(w: World, t: nat): PC { if t in w.pcs then w.pcs[t] else Idle }

  function Sessions(w: World, key: Key): nat { if key in w.sessions then w.sessions[key] else 0 }

  function Afterwards(key: Key, again: bool): PC { if again then Getting(key) else Idle }

  /** A caller in the middle of stopping an entry. */
  predicate Stops(pc: PC, id: nat) { (pc.Stopping? || pc.Reaped?) && pc.id == id }

  /** One step; None when the caller is not where the step begins. Closing a closed
      channel would panic: Apply refuses it, and Inv shows it never comes to that. */
  function Apply(w: World, a: Action): Option<World>
    requires Indexed(w.m)
  {
    var pc := PcOf(w, a.t);
    match a
    case CallGet(t, key) => if pc.Idle? then Some(w.(pcs := w.pcs[t := Getting(key)])) else None
    case CallRelease(t, key) =>
      if !pc.Idle? then None
      else
        var n := Sessions(w, key);
        Some(w.(pcs := w.pcs[t := Releasing(key)], sessions := w.sessions[key := if n > 0 then n - 1 else 0]))
    case RunGet(t, alive, created) =>
      if !pc.Getting? then None
      else
        var (m, r) := Get(w.m, t, pc.key, alive, created);
        (match r
         case Wait(id) => Some(w.(m := m, pcs := w.pcs[t := Waiting(id, pc.key)]))
         case Handed(_) => Some(World(m, w.pcs[t := Idle], w.sessions[pc.key := Sessions(w, pc.key) + 1]))
         case MustStop(id) => Some(w.(m := m, pcs := w.pcs[t := Stopping(id, pc.key, true)]))
         case Failed => Some(w.(m := m, pcs := w.pcs[t := Idle])))
    case RunRelease(t) =>
      if !pc.Releasing? then None
      else
        var (m, r) := Release(w.m, t, pc.key);
        Some(w.(m := m, pcs := w.pcs[t := if r.MustStop? then Stopping(r.id, pc.key, false) else Idle]))
    case Wake(t) =>
      if !(pc.Waiting? && pc.id < |w.m.table| && w.m.table[pc.id].closes > 0) then None
      else Some(w.(pcs := w.pcs[t := Getting(pc.key)]))
    case ReapInit(t) =>
      if !(pc.Stopping? && pc.id < |w.m.table|) then None
      else Some(w.(m := Reap(w.m, pc.id), pcs := w.pcs[t := Reaped(pc.id, pc.key, pc.again)]))
    case RunFinish(t) =>
      if !(pc.Reaped? && pc.id < |w.m.table| && w.m.table[pc.id].closes == 0) then None
      else Some(w.(m := Finish(w.m, pc.id), pcs := w.pcs[t := Afterwards(pc.key, pc.again)]))
  }

  // ----------------------------------------------------------------- the invariant

  ghost predicate Current(m: Manager, id: nat) {
    id < |m.table| && m.table[id].key in m.entries && m.entries[m.table[id].key] == id
  }

  ghost predicate EntryOk(w: World, id: nat)
    requires id < |w.m.table|
  {
    var e := w.m.table[id];
    && e.closes <= 1
    && (!e.reaped ==> Current(w.m, id))
    && (!e.stopping ==> e.refCount >= 1 && !e.reaped && e.closes == 0)
    && (e.closes == 0 ==> Current(w.m, id))
    && (e.closes == 1 ==> e.stopping && e.reaped && !Current(w.m, id))
    && (e.stopping && e.closes == 0 ==> Stops(PcOf(w, e.stopper), id))
  }

  ghost predicate CallerOk(w: World, t: nat) {
    var pc := PcOf(w, t);
    match pc
    case Waiting(id, key) => id < |w.m.table| && w.m.table[id].stopping && w.m.table[id].key == key
    case Stopping(id, key, _) =>
      && id < |w.m.table|
      && var e := w.m.table[id];
      e.stopping && e.stopper == t && e.closes == 0 && !e.reaped && e.key == key
    case Reaped(id, key, _) =>
      && id < |w.m.table|
      && var e := w.m.table[id];
      e.stopping && e.stopper == t && e.closes == 0 && e.reaped && e.key == key
    case _ => true
  }

  ghost predicate Inv(w: World) {
    && Indexed(w.m)
    && (forall id :: 0 <= id < |w.m.table| ==> EntryOk(w, id))
    && (forall t: nat :: CallerOk(w, t))
  }

  const START := World(Manager(map[], []), map[], map[])

  lemma {:induction false} StartOk()
    ensures Inv(START)
  {
  }

  /** What may become of a row: marks are final and the key stays. */
  predicate RowGoes(e: Entry, f: Entry) {
    && f.key == e.key && (e.stopping ==> f.stopping && f.stopper == e.stopper && f.refCount == e.refCount)
    && (e.reaped ==> f.reaped) && e.closes <= f.closes
  }

  ghost predicate RowsGo(m: Manager, n: Manager) {
    |m.table| <= |n.table| && forall id :: 0 <= id < |m.table| ==> RowGoes(m.table[id], n.table[id])
  }

  lemma {:induction false} GetRows(m: Manager, t: nat, key: Key, alive: bool, created: bool)
    requires Indexed(m)
    ensures Indexed(Get(m, t, key, alive, created).0) && RowsGo(m, Get(m, t, key, alive, created).0)
  {
  }

  lemma {:induction false} ReleaseRows(m: Manager, t: nat, key: Key)
    requires Indexed(m)
    ensures Indexed(Release(m, t, key).0) && RowsGo(m, Release(m, t, key).0)
  {
  }

  lemma {:induction false} StopRows(m: Manager, id: nat)
    requires Indexed(m) && id < |m.table|
    ensures Indexed(Reap(m, id)) && RowsGo(m, Reap(m, id))
    ensures Indexed(Finish(m, id)) && RowsGo(m, Finish(m, id))
  {
  }

  lemma {:induction false} KeepsRows(w: World, a: Action)
    requires Indexed(w.m) && Apply(w, a).Some?
    ensures Indexed(Apply(w, a).value.m) && RowsGo(w.m, Apply(w, a).value.m)
  {
    hide Get, Release, Reap, Finish, Indexed;
    var pc := PcOf(w, a.t);
    match a
    case RunGet(t, alive, created) => GetRows(w.m, t, pc.key, alive, created);
    case RunRelease(t) => ReleaseRows(w.m, t, pc.key);
    case ReapInit(_) => StopRows(w.m, pc.id);
    case RunFinish(_) => StopRows(w.m, pc.id);
    case _ =>
  }

  lemma {:induction false} KeepsIndexed(w: World, a: Action)
    requires Inv(w) && Apply(w, a).Some?
    ensures Indexed(Apply(w, a).value.m)
  {
    hide Apply, EntryOk, CallerOk, Indexed;
    KeepsRows(w, a);
  }

  lemma {:induction false} GetKeepsEntry(w: World, a: Action, id: nat)
    requires Inv(w) && a.RunGet? && Apply(w, a).Some? && id < |Apply(w, a).value.m.table|
    ensures EntryOk(Apply(w, a).value, id)
  {
    assert CallerOk(w, a.t);
    if id < |w.m.table| {
      assert EntryOk(w, id);
      assert CallerOk(w, w.m.table[id].stopper);
    }
  }

  lemma {:induction false} ReleaseKeepsEntry(w: World, a: Action, id: nat)
    requires Inv(w) && a.RunRelease? && Apply(w, a).Some? && id < |Apply(w, a).value.m.table|
    ensures EntryOk(Apply(w, a).value, id)
  {
    assert CallerOk(w, a.t) && EntryOk(w, id);
    assert CallerOk(w, w.m.table[id].stopper);
  }

  lemma {:induction false} StopKeepsEntry(w: World, a: Action, id: nat)
    requires Inv(w) && (a.ReapInit? || a.RunFinish?) && Apply(w, a).Some? && id < |Apply(w, a).value.m.table|
    ensures EntryOk(Apply(w, a).value, id)
  {
    assert CallerOk(w, a.t) && EntryOk(w, id);
    assert CallerOk(w, w.m.table[id].stopper);
  }

  lemma {:induction false} IdleKeepsEntry(w: World, a: Action, id: nat)
    requires Inv(w) && (a.CallGet? || a.CallRelease? || a.Wake?) && Apply(w, a).Some?
    requires id < |Apply(w, a).value.m.table|
    ensures EntryOk(Apply(w, a).value, id)
  {
    assert EntryOk(w, id);
  }

  lemma {:induction false} KeepsEntry(w: World, a: Action, id: nat)
    requires Inv(w) && Apply(w, a).Some? && id < |Apply(w, a).value.m.table|
    ensures EntryOk(Apply(w, a).value, id)
  {
    hide Apply, EntryOk, CallerOk, Indexed;
    match a
    case RunGet(_, _, _) => GetKeepsEntry(w, a, id);
    case RunRelease(_) => ReleaseKeepsEntry(w, a, id);
    case ReapInit(_) => StopKeepsEntry(w, a, id);
    case RunFinish(_) => StopKeepsEntry(w, a, id);
    case _ => IdleKeepsEntry(w, a, id);
  }

  lemma {:induction false} GetKeepsCaller(w: World, a: Action, u: nat)
    requires Inv(w) && a.RunGet? && Apply(w, a).Some?
    ensures CallerOk(Apply(w, a).value, u)
  {
    assert CallerOk(w, u) && CallerOk(w, a.t);
    var pc := PcOf(w, a.t);
    if pc.key in w.m.entries { assert EntryOk(w, w.m.entries[pc.key]); }
  }

  lemma {:induction false} ReleaseKeepsCaller(w: World, a: Action, u: nat)
    requires Inv(w) && a.RunRelease? && Apply(w, a).Some?
    ensures CallerOk(Apply(w, a).value, u)
  {
    assert CallerOk(w, u) && CallerOk(w, a.t);
    var pc := PcOf(w, a.t);
    if pc.key in w.m.entries { assert EntryOk(w, w.m.entries[pc.key]); }
  }

  lemma {:induction false} OtherKeepsCaller(w: World, a: Action, u: nat)
    requires Inv(w) && !a.RunGet? && !a.RunRelease? && Apply(w, a).Some?
    ensures CallerOk(Apply(w, a).value, u)
  {
    hide EntryOk;
    assert CallerOk(w, u) && CallerOk(w, a.t);
  }

  lemma {:induction false} KeepsCaller(w: World, a: Action, u: nat)
    requires Inv(w) && Apply(w, a).Some?
    ensures CallerOk(Apply(w, a).value, u)
  {
    hide Apply, EntryOk, CallerOk, Indexed;
    match a
    case RunGet(_, _, _) => GetKeepsCaller(w, a, u);
    case RunRelease(_) => ReleaseKeepsCaller(w, a, u);
    case _ => OtherKeepsCaller(w, a, u);
  }

  lemma {:induction false} ApplyKeeps(w: World, a: Action)
    requires Inv(w)
    ensures Apply(w, a).Some? ==> Inv(Apply(w, a).value)
  {
    hide Apply, EntryOk, CallerOk, Indexed;
    if Apply(w, a).Some? {
      var w' := Apply(w, a).value;
      KeepsIndexed(w, a);
      forall id: nat | id < |w'.m.table| ensures EntryOk(w', id) { KeepsEntry(w, a, id); }
      forall u: nat ensures CallerOk(w', u) { KeepsCaller(w, a, u); }
    }
  }

  // ------------------------------------------------------------------- whole runs

  ghost function Play(w: World, acts: seq<Action>): Option<World>
    requires Inv(w)
    decreases |acts|
  {
    if acts == [] then Some(w)
    else
      ApplyKeeps(w, acts[0]);
      match Apply(w, acts[0])
      case None => None
      case Some(next) => Play(next, acts[1..])
  }

  lemma {:induction false} PlayKeeps(w: World, acts: seq<Action>)
    requires Inv(w)
    ensures Play(w, acts).Some? ==> Inv(Play(w, acts).value)
    decreases |acts|
  {
    hide EntryOk, CallerOk, Apply, Indexed;
    if acts != [] {
      ApplyKeeps(w, acts[0]);
      var next := Apply(w, acts[0]);
      if next.Some? { PlayKeeps(next.value, acts[1..]); }
    }
  }

  ghost predicate Reachable(w: World) {
    Inv(START) && exists acts :: Play(START, acts) == Some(w)
  }

  lemma {:induction false} ReachableInv(w: World)
    requires Reachable(w)
    ensures Inv(w)
  {
    hide Inv, Play;
    var acts :| Play(START, acts) == Some(w);
    PlayKeeps(START, acts);
  }

  /** At most one un-reaped init for each root file system. */
  lemma {:induction false} OneInit(w: World, a: nat, b: nat)
    requires Reachable(w) && a < |w.m.table| && b < |w.m.table|
    requires !w.m.table[a].reaped && !w.m.table[b].reaped && w.m.table[a].key == w.m.table[b].key
    ensures a == b
  {
    ReachableInv(w);
    assert EntryOk(w, a) && EntryOk(w, b);
  }

  /** Whoever is stopping an entry is the one caller who marked it, and until the
      channel is closed there is such a caller. */
  lemma {:induction false} OneStopper(w: World, id: nat)
    requires Reachable(w) && id < |w.m.table| && w.m.table[id].stopping
    ensures w.m.table[id].closes == 0 ==> forall t: nat :: Stops(PcOf(w, t), id) <==> t == w.m.table[id].stopper
    ensures w.m.table[id].closes == 1 ==> forall t: nat :: !Stops(PcOf(w, t), id)
    ensures w.m.table[id].closes <= 1
  {
    ReachableInv(w);
    assert EntryOk(w, id);
    forall t: nat ensures Stops(PcOf(w, t), id) ==> w.m.table[id].closes == 0 && t == w.m.table[id].stopper {
      assert CallerOk(w, t);
    }
  }

  /** Marks are final: an entry keeps its key and its stopper, never un-stops and
      its channel never re-opens. */
  lemma {:induction false} MarksAreFinal(w: World, a: Action, id: nat)
    requires Reachable(w) && Indexed(w.m) && Apply(w, a).Some? && id < |w.m.table|
    ensures id < |Apply(w, a).value.m.table|
    ensures var e, f := w.m.table[id], Apply(w, a).value.m.table[id];
            && f.key == e.key && (e.stopping ==> f.stopping && f.stopper == e.stopper && f.refCount == e.refCount)
            && (e.reaped ==> f.reaped) && e.closes <= f.closes
            && (e.closes == 1 ==> f == e)
  {
    hide Apply, EntryOk, CallerOk, Indexed;
    ReachableInv(w);
    KeepsRows(w, a);
    var e, f := w.m.table[id], Apply(w, a).value.m.table[id];
    assert RowGoes(e, f);
    if e.closes == 1 { ClosedStays(w, a, id); }
  }

  lemma {:induction false} ClosedStays(w: World, a: Action, id: nat)
    requires Inv(w) && Apply(w, a).Some? && id < |w.m.table| && w.m.table[id].closes == 1
    ensures id < |Apply(w, a).value.m.table| && Apply(w, a).value.m.table[id] == w.m.table[id]
  {
    assert EntryOk(w, id) && CallerOk(w, a.t);
  }

  /** A caller who reaches the end of stopEntry always finds the channel open: it
      can neither block there nor close twice. */
  lemma {:induction false} FinishNeverPanics(w: World, t: nat)
    requires Reachable(w) && Indexed(w.m) && PcOf(w, t).Reaped?
    ensures Apply(w, RunFinish(t)).Some?
  {
    ReachableInv(w);
    assert CallerOk(w, t);
  }

  /** What is handed out is the current entry, un-reaped and not stopping, before
      and after. */
  lemma {:induction false} HandedIsLive(w: World, t: nat, alive: bool, created: bool)
    requires Reachable(w) && Indexed(w.m) && PcOf(w, t).Getting?
    ensures var (m, r) := Get(w.m, t, PcOf(w, t).key, alive, created);
            r.Handed? ==>
              && r.id < |m.table| && Current(m, r.id) && m.table[r.id].key == PcOf(w, t).key
              && !m.table[r.id].stopping && !m.table[r.id].reaped
              && (r.id < |w.m.table| ==>
                    !w.m.table[r.id].stopping && m.table[r.id].refCount == w.m.table[r.id].refCount + 1)
  {
    ReachableInv(w);
    var key := PcOf(w, t).key;
    if key in w.m.entries { assert EntryOk(w, w.m.entries[key]); }
  }

  /** No waiter is forgotten: the channel it waits on is closed already, or the
      caller who will close it can take its next step. */
  lemma {:induction false} WaiterIsServed(w: World, t: nat)
    requires Reachable(w) && Indexed(w.m) && PcOf(w, t).Waiting?
    ensures var id := PcOf(w, t).id;
            id < |w.m.table| && var s := w.m.table[id].stopper;
            Apply(w, Wake(t)).Some? || Apply(w, ReapInit(s)).Some? || Apply(w, RunFinish(s)).Some?
  {
    ReachableInv(w);
    assert CallerOk(w, t);
    var id := PcOf(w, t).id;
    assert EntryOk(w, id);
    assert CallerOk(w, w.m.table[id].stopper);
  }

  // ------------------------------------------------------------- what a call comes to

  /** The caller is inside GetOrCreate for this root file system. */
  ghost predicate InGet(pc: PC, key: Key) {
    || pc == Getting(key) || (pc.Waiting? && pc.key == key)
    || ((pc.Stopping? || pc.Reaped?) && pc.key == key && pc.again)
  }

  /** The caller is inside Release. */
  ghost predicate InRelease(pc: PC, key: Key) {
    pc == Releasing(key) || ((pc.Stopping? || pc.Reaped?) && pc.key == key && !pc.again)
  }

  /** Nobody's sessions changed but those of key, by n. */
  ghost predicate SessionsBut(w: World, next: World, key: Key, n: int) {
    Sessions(next, key) == Sessions(w, key) + n && forall k :: k != key ==> Sessions(next, k) == Sessions(w, k)
  }

  ghost predicate SameSessions(w: World, next: World) { forall k :: Sessions(next, k) == Sessions(w, k) }

  /** GetOrCreate returned a namespace. */
  ghost predicate GotOne(w: World, next: World, a: Action, key: Key) {
    PcOf(next, a.t).Idle? && a.RunGet? && SessionsBut(w, next, key, 1)
  }

  /** GetOrCreate returned an error: there was no entry and no init came up. */
  ghost predicate GotNone(w: World, next: World, a: Action, key: Key) {
    PcOf(next, a.t).Idle? && a.RunGet? && !a.created && key !in w.m.entries && SameSessions(w, next)
  }

  /** A step moves its own caller only. */
  lemma {:induction false} MovesOne(w: World, a: Action, u: nat)
    requires Indexed(w.m) && Apply(w, a).Some? && u != a.t
    ensures PcOf(Apply(w, a).value, u) == PcOf(w, u)
  {
    hide Get, Release, Reap, Finish;
  }

  /** Every step takes its caller further; nobody steps in place. */
  lemma {:induction false} EachMoves(w: World, a: Action)
    requires Indexed(w.m) && Apply(w, a).Some?
    ensures var was, next := PcOf(w, a.t), PcOf(Apply(w, a).value, a.t);
            match a
            case RunGet(t, alive, created) =>
              was.Getting? && (next.Idle? || ((next.Waiting? || (next.Stopping? && next.again)) && next.key == was.key))
            case RunRelease(t) =>
              was.Releasing? && (next.Idle? || (next.Stopping? && !next.again && next.key == was.key))
            case Wake(t) => was.Waiting? && next == Getting(was.key)
            case ReapInit(t) => was.Stopping? && next == Reaped(was.id, was.key, was.again)
            case RunFinish(t) => was.Reaped? && next == if was.again then Getting(was.key) else Idle
            case _ => was.Idle? && !next.Idle?
  {
    hide Reap, Finish;
  }

  /** A call begins where it should. */
  lemma {:induction false} CallBegins(w: World, a: Action)
    requires Indexed(w.m) && Apply(w, a).Some?
    ensures a.CallGet? ==>
              && PcOf(w, a.t).Idle? && InGet(PcOf(Apply(w, a).value, a.t), a.key) && Apply(w, a).value.m == w.m
              && SameSessions(w, Apply(w, a).value)
    ensures a.CallRelease? ==>
              && PcOf(w, a.t).Idle? && InRelease(PcOf(Apply(w, a).value, a.t), a.key) && Apply(w, a).value.m == w.m
              && SessionsBut(w, Apply(w, a).value, a.key, if Sessions(w, a.key) > 0 then -1 else 0)
  {
  }

  /** Whatever step a caller inside GetOrCreate takes, it stays inside for the same root
      file system, or it returns a namespace, or it returns an error because there was
      none and none could be started. */
  lemma {:induction false} GetGoesOn(w: World, a: Action, key: Key)
    requires Reachable(w) && Indexed(w.m) && InGet(PcOf(w, a.t), key) && Apply(w, a).Some?
    ensures var next := Apply(w, a).value;
            || (InGet(PcOf(next, a.t), key) && SameSessions(w, next))
            || GotOne(w, next, a, key) || GotNone(w, next, a, key)
  {
    hide Reap, Finish;
  }

  /** A caller inside Release stays there or returns. */
  lemma {:induction false} ReleaseGoesOn(w: World, a: Action, key: Key)
    requires Reachable(w) && Indexed(w.m) && InRelease(PcOf(w, a.t), key) && Apply(w, a).Some?
    ensures var next := Apply(w, a).value;
            SameSessions(w, next) && (InRelease(PcOf(next, a.t), key) || PcOf(next, a.t).Idle?)
  {
    hide Reap, Finish;
  }

  /** Who is woken finds the entry it waited for gone from the table. */
  lemma {:induction false} WokenIsPast(w: World, t: nat)
    requires Reachable(w) && Indexed(w.m) && PcOf(w, t).Waiting? && Apply(w, Wake(t)).Some?
    ensures var id := PcOf(w, t).id;
            id < |w.m.table| && w.m.table[id].closes == 1 && w.m.table[id].reaped && !Current(w.m, id)
  {
    ReachableInv(w);
    assert CallerOk(w, t) && EntryOk(w, PcOf(w, t).id);
  }

  /** Over any run, a GetOrCreate call that is no longer going on has ended in one of
      the two ways: at step i it returned a namespace, or an error. */
  lemma {:induction false} GetEnds(w: World, acts: seq<Action>, t: nat, key: Key) returns (i: nat, u: World)
    requires Inv(w) && Reachable(w) && InGet(PcOf(w, t), key)
    requires Play(w, acts).Some? && !InGet(PcOf(Play(w, acts).value, t), key)
    ensures i < |acts| && acts[i].t == t && Play(w, acts[..i]) == Some(u) && Inv(u)
    ensures InGet(PcOf(u, t), key) && Apply(u, acts[i]).Some?
    ensures GotOne(u, Apply(u, acts[i]).value, acts[i], key) || GotNone(u, Apply(u, acts[i]).value, acts[i], key)
    decreases |acts|
  {
    hide Apply, EntryOk, CallerOk, Indexed, InGet, GotOne, GotNone, SameSessions, Reachable;
    ApplyKeeps(w, acts[0]);
    var next := Apply(w, acts[0]).value;
    IndexedOf(w);
    if acts[0].t == t { GetGoesOn(w, acts[0], key); } else { MovesOne(w, acts[0], t); }
    if InGet(PcOf(next, t), key) {
      StaysReachable(w, acts[0]);
      i, u := GetEnds(next, acts[1..], t, key);
      PlayFirst(w, acts, i);
      i := i + 1;
    } else {
      i, u := 0, w;
      assert acts[..0] == [];
    }
  }

  lemma {:induction false} IndexedOf(w: World)
    requires Inv(w)
    ensures Indexed(w.m)
  {
  }

  lemma {:induction false} PlayFirst(w: World, acts: seq<Action>, i: nat)
    requires Inv(w) && acts != [] && Apply(w, acts[0]).Some? && i < |acts[1..]|
    ensures Inv(Apply(w, acts[0]).value)
    ensures Play(w, acts[..i + 1]) == Play(Apply(w, acts[0]).value, acts[1..][..i])
  {
    hide Apply, EntryOk, CallerOk, Indexed;
    ApplyKeeps(w, acts[0]);
    assert acts[..i + 1][0] == acts[0] && acts[..i + 1][1..] == acts[1..][..i];
  }

  lemma {:induction false} PlaySnoc(w: World, acts: seq<Action>, a: Action)
    requires Inv(w) && Play(w, acts).Some?
    ensures Inv(Play(w, acts).value) && Play(w, acts + [a]) == Apply(Play(w, acts).value, a)
    decreases |acts|
  {
    hide Apply, EntryOk, CallerOk, Indexed;
    if acts == [] {
      assert [] + [a] == [a] && [a][1..] == [];
      ApplyKeeps(w, a);
    } else {
      assert (acts + [a])[0] == acts[0] && (acts + [a])[1..] == acts[1..] + [a];
      ApplyKeeps(w, acts[0]);
      PlaySnoc(Apply(w, acts[0]).value, acts[1..], a);
    }
  }

  lemma {:induction false} StaysReachable(w: World, a: Action)
    requires Reachable(w) && Indexed(w.m) && Apply(w, a).Some?
    ensures Reachable(Apply(w, a).value)
  {
    hide Apply, Inv, Play, Indexed;
    StartOk();
    var acts :| Play(START, acts) == Some(w);
    PlaySnoc(START, acts, a);
    assert Play(START, acts + [a]) == Some(Apply(w, a).value);
  }

  // --------------------------------------------------------------- counting sessions

  /** The reference count of the entry a new caller could be handed, if there is one. */
  function Live(m: Manager, key: Key): Option<int>
    requires Indexed(m)
  {
    if key in m.entries && !m.table[m.entries[key]].stopping then Some(m.table[m.entries[key]].refCount) else None
  }

  /** Callers who have given up a session that the manager has not yet counted out. */
  function Leaving(w: World, key: Key): set<nat> {
    set t | t in w.pcs && w.pcs[t] == Releasing(key)
  }

  /** The reference count is the number of sessions outstanding, counting releases
      on their way; without a live entry there are none. */
  ghost predicate Counted(w: World, key: Key)
    requires Indexed(w.m)
  {
    match Live(w.m, key)
    case Some(n) => n == Sessions(w, key) + |Leaving(w, key)|
    case None => Sessions(w, key) == 0 && Leaving(w, key) == {}
  }

  ghost predicate AllCounted(w: World) {
    Indexed(w.m) && forall key :: Counted(w, key)
  }

  /** No live init fails its probe and only a holder releases. */
  ghost predicate Balanced(w: World, a: Action)
    requires Indexed(w.m)
  {
    && (a.RunGet? && PcOf(w, a.t).Getting? ==> a.alive || Live(w.m, PcOf(w, a.t).key).None?)
    && (a.CallRelease? ==> Sessions(w, a.key) > 0)
  }

  lemma {:induction false} LeavingStep(w: World, a: Action, key: Key)
    requires Indexed(w.m) && Apply(w, a).Some?
    ensures Leaving(Apply(w, a).value, key) ==
            if a.CallRelease? && a.key == key then Leaving(w, key) + {a.t}
            else if a.RunRelease? && PcOf(w, a.t).key == key then Leaving(w, key) - {a.t}
            else Leaving(w, key)
    ensures a.CallRelease? ==> a.t !in Leaving(w, key)
    ensures a.RunRelease? && PcOf(w, a.t).key == key ==> a.t in Leaving(w, key)
  {
    hide Get, Release, Finish;
  }

  lemma {:induction false} LiveGet(w: World, t: nat, k: Key, alive: bool, created: bool, key: Key)
    requires Inv(w)
    ensures var (m, r) := Get(w.m, t, k, alive, created); Indexed(m)
    ensures var (m, r) := Get(w.m, t, k, alive, created);
            Live(m, key) ==
            if k != key || !(r.Handed? || r.MustStop?) then Live(w.m, key)
            else if r.MustStop? then None
            else Some(1 + if Live(w.m, key).Some? then Live(w.m, key).value else 0)
    ensures Get(w.m, t, k, alive, created).1.MustStop? <==> !alive && Live(w.m, k).Some?
    ensures Get(w.m, t, k, alive, created).1.Handed? && Live(w.m, k).None? ==> k !in w.m.entries
  {
  }

  lemma {:induction false} LiveRelease(w: World, t: nat, k: Key, key: Key)
    requires Inv(w)
    ensures Indexed(Release(w.m, t, k).0)
    ensures var m := Release(w.m, t, k).0;
            Live(m, key) ==
            if k != key || Live(w.m, key).None? then Live(w.m, key)
            else if Live(w.m, key).value > 1 then Some(Live(w.m, key).value - 1) else None
  {
  }

  lemma {:induction false} LiveFinish(w: World, id: nat, key: Key)
    requires Inv(w) && id < |w.m.table| && w.m.table[id].stopping
    ensures Indexed(Finish(w.m, id)) && Live(Finish(w.m, id), key) == Live(w.m, key)
    ensures Indexed(Reap(w.m, id)) && Live(Reap(w.m, id), key) == Live(w.m, key)
  {
  }

  lemma {:induction false} LiveCounts(w: World, key: Key)
    requires Inv(w)
    ensures Live(w.m, key).Some? ==> Live(w.m, key).value >= 1
  {
    if key in w.m.entries { assert EntryOk(w, w.m.entries[key]); }
  }

  lemma {:induction false} CountedGet(w: World, a: Action, key: Key)
    requires Inv(w) && Counted(w, key) && a.RunGet? && Apply(w, a).Some? && Indexed(Apply(w, a).value.m)
    ensures Counted(Apply(w, a).value, key) <==> PcOf(w, a.t).key != key || Balanced(w, a)
  {
    hide Get, EntryOk, CallerOk, Live, Leaving;
    LeavingStep(w, a, key);
    LiveGet(w, a.t, PcOf(w, a.t).key, a.alive, a.created, key);
    LiveCounts(w, key);
  }

  lemma {:induction false} CountedRelease(w: World, a: Action, key: Key)
    requires Inv(w) && Counted(w, key) && a.RunRelease? && Apply(w, a).Some? && Indexed(Apply(w, a).value.m)
    ensures Counted(Apply(w, a).value, key)
  {
    hide Release, EntryOk, CallerOk, Live, Leaving;
    LeavingStep(w, a, key);
    LiveRelease(w, a.t, PcOf(w, a.t).key, key);
  }

  lemma {:induction false} CountedLeave(w: World, a: Action, key: Key)
    requires Inv(w) && Counted(w, key) && a.CallRelease? && Apply(w, a).Some? && Indexed(Apply(w, a).value.m)
    ensures Counted(Apply(w, a).value, key) <==> a.key != key || Balanced(w, a)
  {
    hide EntryOk, CallerOk, Live, Leaving;
    LeavingStep(w, a, key);
  }

  lemma {:induction false} CountedElse(w: World, a: Action, key: Key)
    requires Inv(w) && Counted(w, key) && Apply(w, a).Some? && Indexed(Apply(w, a).value.m)
    requires !a.RunGet? && !a.RunRelease? && !a.CallRelease?
    ensures Counted(Apply(w, a).value, key)
  {
    hide Finish, Reap, Live, Leaving, EntryOk;
    LeavingStep(w, a, key);
    assert CallerOk(w, a.t);
    if a.ReapInit? || a.RunFinish? { LiveFinish(w, PcOf(w, a.t).id, key); }
  }

  lemma {:induction false} CountedStep(w: World, a: Action, key: Key)
    requires Inv(w) && Counted(w, key) && Apply(w, a).Some? && Indexed(Apply(w, a).value.m)
    ensures Counted(Apply(w, a).value, key) <==> (a.RunGet? && PcOf(w, a.t).key != key)
                                                 || (a.CallRelease? && a.key != key) || Balanced(w, a)
  {
    hide EntryOk, CallerOk, Counted, Apply;
    match a
    case RunGet(_, _, _) => CountedGet(w, a, key); assert PcOf(w, a.t).Getting? by { GettingOf(w, a); }
    case RunRelease(_) => CountedRelease(w, a, key);
    case CallRelease(_, _) => CountedLeave(w, a, key);
    case _ => CountedElse(w, a, key);
  }

  lemma {:induction false} GettingOf(w: World, a: Action)
    requires Indexed(w.m) && a.RunGet? && Apply(w, a).Some?
    ensures PcOf(w, a.t).Getting?
  {
    hide Get;
  }

  /** A step keeps the count of every key exactly when it is balanced: a live init
      that fails its probe, and a release by a caller without a session, are the
      only two ways the count goes wrong. */
  lemma {:induction false} CountedIff(w: World, a: Action)
    requires Inv(w) && AllCounted(w) && Apply(w, a).Some?
    ensures AllCounted(Apply(w, a).value) <==> Balanced(w, a)
  {
    hide Apply, Counted, EntryOk, CallerOk;
    KeepsIndexed(w, a);
    var w' := Apply(w, a).value;
    if a.RunGet? { GettingOf(w, a); }
    forall key ensures Counted(w', key) <==> (a.RunGet? && PcOf(w, a.t).key != key)
                                             || (a.CallRelease? && a.key != key) || Balanced(w, a)
    {
      CountedStep(w, a, key);
    }
    if a.RunGet? { assert Counted(w', PcOf(w, a.t).key) <==> Balanced(w, a); }
    if a.CallRelease? { assert Counted(w', a.key) <==> Balanced(w, a); }
    assert Counted(w', "") || !AllCounted(w');
  }

  ghost predicate BalancedRun(w: World, acts: seq<Action>)
    requires Inv(w)
    decreases |acts|
  {
    acts != [] ==>
      && Balanced(w, acts[0])
      && (ApplyKeeps(w, acts[0]);
          match Apply(w, acts[0])
          case None => true
          case Some(next) => BalancedRun(next, acts[1..]))
  }

  /** Over every run of balanced steps, the reference count of every live entry is
      the number of sessions outstanding, and a root file system without one has none. */
  lemma {:induction false} RefCountIsSessions(w: World, acts: seq<Action>)
    requires Inv(w) && AllCounted(w) && BalancedRun(w, acts)
    ensures Play(w, acts).Some? ==> AllCounted(Play(w, acts).value)
    decreases |acts|
  {
    hide EntryOk, CallerOk, Apply, Balanced, AllCounted;
    if acts != [] {
      ApplyKeeps(w, acts[0]);
      var next := Apply(w, acts[0]);
      if next.Some? {
        CountedIff(w, acts[0]);
        RefCountIsSessions(next.value, acts[1..]);
      }
    }
  }

  // ------------------------------------------------------ when an init dies by itself

  function Script(key: Key): seq<Action> {
    [CallGet(0, key), RunGet(0, true, true), CallGet(1, key), RunGet(1, false, true), ReapInit(1),
     RunFinish(1), RunGet(1, true, true), CallRelease(0, key), RunRelease(0)]
  }

  /** The world after each line of the script. */
  function Scene(key: Key, i: nat): World {
    var fresh0 := Entry(key, 1, false, 0, 0, false);
    var dead := Entry(key, 1, true, 1, 0, false);
    var gone := Entry(key, 1, true, 1, 1, true);
    var one := map[key := 1];
    match i
    case 0 => START
    case 1 => World(Manager(map[], []), map[0 := Getting(key)], map[])
    case 2 => World(Manager(map[key := 0], [fresh0]), map[0 := Idle], one)
    case 3 => World(Manager(map[key := 0], [fresh0]), map[0 := Idle, 1 := Getting(key)], one)
    case 4 => World(Manager(map[key := 0], [dead]), map[0 := Idle, 1 := Stopping(0, key, true)], one)
    case 5 => World(Manager(map[key := 0], [dead.(reaped := true)]), map[0 := Idle, 1 := Reaped(0, key, true)], one)
    case 6 => World(Manager(map[], [gone]), map[0 := Idle, 1 := Getting(key)], one)
    case 7 => World(Manager(map[key := 1], [gone, fresh0]), map[0 := Idle, 1 := Idle], map[key := 2])
    case 8 => World(Manager(map[key := 1], [gone, fresh0]), map[0 := Releasing(key), 1 := Idle], one)
    case _ => World(Manager(map[key := 1], [gone, Entry(key, 0, true, 0, 0, false)]),
                    map[0 := Stopping(1, key, false), 1 := Idle], one)
  }

  ghost predicate Steps(w: World, a: Action, next: World) {
    && Indexed(w.m)
    && var r := Apply(w, a);
    && r.Some? && r.value.m.entries == next.m.entries && r.value.m.table == next.m.table
    && r.value.pcs == next.pcs && r.value.sessions == next.sessions
  }

  lemma {:induction false} SceneSteps(key: Key, i: nat)
    requires i < 9
    ensures Steps(Scene(key, i), Script(key)[i], Scene(key, i + 1))
  {
    if i < 3 { EarlyScenes(key, i); } else if i < 6 { MiddleScenes(key, i); } else { LateScenes(key, i); }
  }

  lemma {:induction false} EarlyScenes(key: Key, i: nat)
    requires i < 3
    ensures Steps(Scene(key, i), Script(key)[i], Scene(key, i + 1))
  {
  }

  lemma {:induction false} MiddleScenes(key: Key, i: nat)
    requires 3 <= i < 6
    ensures Steps(Scene(key, i), Script(key)[i], Scene(key, i + 1))
  {
  }

  lemma {:induction false} LateScenes(key: Key, i: nat)
    requires 6 <= i < 9
    ensures Steps(Scene(key, i), Script(key)[i], Scene(key, i + 1))
  {
  }

  lemma {:induction false} PlayScenes(key: Key, i: nat)
    requires i <= 9 && Inv(Scene(key, i))
    ensures Play(Scene(key, i), Script(key)[i..]) == Some(Scene(key, 9))
    decreases 9 - i
  {
    hide EntryOk, CallerOk, Apply, Scene, Indexed;
    if i < 9 {
      SceneSteps(key, i);
      ApplyKeeps(Scene(key, i), Script(key)[i]);
      PlayScenes(key, i + 1);
      assert Script(key)[i..][0] == Script(key)[i] && Script(key)[i..][1..] == Script(key)[i + 1..];
    }
  }

  /** Without balance a namespace is torn down under its user: 0 holds a session, 1
      finds the init dead and makes a new one, and the release of the first session
      then stops the one that 1 holds. */
  lemma {:induction false} DeathLosesASession(key: Key)
    ensures Inv(START) && Play(START, Script(key)).Some?
    ensures var w := Play(START, Script(key)).value;
            && Sessions(w, key) == 1 && key in w.m.entries && w.m.entries[key] == 1
            && w.m.table == [Entry(key, 1, true, 1, 1, true), Entry(key, 0, true, 0, 0, false)]
            && PcOf(w, 0) == Stopping(1, key, false)
  {
    hide Inv, Play, Apply;
    StartOk();
    PlayScenes(key, 0);
    assert Script(key)[0..] == Script(key);
  }
}
