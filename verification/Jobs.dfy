/** The job list of one conversation (cmd/thundersnapd/mcp_jobs.go): what its locked
    sections do, as functions on the whole list and as methods of the objects. The
    close-and-replace channel is the number of the close that it waits for. */
module Jobs {
  import opened Bytes
  import Polling

  datatype State = Running | Exited | TimedOut | Killed | Lost

  predicate Terminal(s: State) { s == Exited || s == TimedOut || s == Killed || s == Lost }

  /** log is the file of the job, written outside the lock; bytes is what has been
      published of it. */
  datatype JobView = JobView(state: State, reason: Option<State>, exit: Option<int>, bytes: nat, log: Bytes,
                             outputRev: nat, endRev: nat, conn: bool)

  const NEW_JOB := JobView(Running, None, None, 0, [], 0, 0, true)

  datatype ListView = ListView(jobs: map<nat, JobView>, nextID: nat, revision: nat, changed: nat, closed: set<nat>)

  // -------------------------------------------------------- the sections under the lock

  function Notify(l: ListView): ListView {
    l.(revision := l.revision + 1, closed := l.closed + {l.changed}, changed := l.changed + 1)
  }

  function Launched(l: ListView, id: nat): ListView { Notify(l.(jobs := l.jobs[id := NEW_JOB])) }

  function WithJob(l: ListView, id: nat, j: JobView): ListView { l.(jobs := l.jobs[id := j]) }

  function Stopped(l: ListView, id: nat, reason: State): ListView
    requires id in l.jobs
  {
    var j := l.jobs[id];
    if Terminal(j.state) || j.reason.Some? then l else Notify(WithJob(l, id, j.(reason := Some(reason))))
  }

  function Published(l: ListView, id: nat, n: nat): ListView
    requires id in l.jobs
  {
    var j := l.jobs[id];
    Notify(WithJob(l, id, j.(bytes := j.bytes + n, outputRev := l.revision + 1)))
  }

  /** The exit code is recorded without telling anyone. */
  function ExitRecorded(l: ListView, id: nat, code: int): ListView
    requires id in l.jobs
  {
    WithJob(l, id, l.jobs[id].(exit := Some(code)))
  }

  function FinalState(j: JobView, gotExit: bool): State {
    if j.reason.Some? then j.reason.value else if gotExit then Exited else Lost
  }

  function Finished(l: ListView, id: nat, gotExit: bool): ListView
    requires id in l.jobs
  {
    var j := l.jobs[id];
    Notify(WithJob(l, id, j.(state := FinalState(j, gotExit), conn := false, endRev := l.revision + 1)))
  }

  // ------------------------------------------------------------------- asking to wait

  datatype Ask = Ask(id: nat, offset: int)
  datatype Until = Output | AnyExit | AllExit

  datatype Status = Status(state: State, exit: Option<int>, slice: Bytes, next: nat)

  datatype Looked =
    | Unknown
    | Outside
    | Satisfied(statuses: map<nat, Status>)
    | Block(channel: nat)

  /** The jobs asked for; all of them when none is named. */
  function Picked(l: ListView, asks: seq<Ask>): set<nat> {
    if asks == [] then l.jobs.Keys else set a | a in asks :: a.id
  }

  /** Of several offsets for one job the last counts; a job not named is read from 0. */
  function OffsetOf(asks: seq<Ask>, id: nat): int
    decreases |asks|
  {
    if asks == [] then 0
    else if asks[|asks| - 1].id == id then asks[|asks| - 1].offset
    else OffsetOf(asks[..|asks| - 1], id)
  }

  /** Log writes succeed, so the file holds what has been published. */
  ghost predicate Backed(l: ListView) {
    forall id :: id in l.jobs ==> l.jobs[id].bytes <= |l.jobs[id].log|
  }

  predicate InRange(j: JobView, offset: int) { 0 <= offset <= j.bytes }

  function StatusOf(j: JobView, offset: nat): Status
    requires offset <= j.bytes <= |j.log|
  {
    var next := Polling.Next(j.log, j.bytes, Terminal(j.state), offset);
    Polling.ProgressIff(j.log, j.bytes, Terminal(j.state), offset);
    Status(j.state, j.exit, j.log[offset..next], next)
  }

  ghost predicate AllInRange(l: ListView, asks: seq<Ask>) {
    forall id :: id in Picked(l, asks) ==> id in l.jobs && InRange(l.jobs[id], OffsetOf(asks, id))
  }

  ghost predicate HasNews(l: ListView, asks: seq<Ask>, id: nat)
    requires Backed(l) && id in l.jobs && InRange(l.jobs[id], OffsetOf(asks, id))
  {
    StatusOf(l.jobs[id], OffsetOf(asks, id)).slice != [] || l.jobs[id].state != Running
  }

  ghost predicate Met(l: ListView, asks: seq<Ask>, until: Until)
    requires Backed(l) && AllInRange(l, asks)
  {
    match until
    case Output => exists id :: id in Picked(l, asks) && HasNews(l, asks, id)
    case AnyExit => exists id :: id in Picked(l, asks) && Terminal(l.jobs[id].state)
    case AllExit => forall id :: id in Picked(l, asks) ==> Terminal(l.jobs[id].state)
  }

  /** The locked section of the wait loop. */
  ghost function LookAt(l: ListView, asks: seq<Ask>, until: Until): Looked
    requires Backed(l)
  {
    if !(Picked(l, asks) <= l.jobs.Keys) then Unknown
    else if !AllInRange(l, asks) then Outside
    else if Met(l, asks, until) then
      Satisfied(map id | id in Picked(l, asks) :: StatusOf(l.jobs[id], OffsetOf(asks, id)))
    else Block(l.changed)
  }

  /** A row for each job of the set, and every offset in its log. */
  ghost predicate Reported(l: ListView, asks: seq<Ask>, ids: set<nat>, statuses: map<nat, Status>)
    requires Backed(l) && ids <= l.jobs.Keys
  {
    && statuses.Keys == ids
    && forall id :: id in ids ==>
         InRange(l.jobs[id], OffsetOf(asks, id)) && statuses[id] == StatusOf(l.jobs[id], OffsetOf(asks, id))
  }

  predicate MetIn(statuses: map<nat, Status>, until: Until) {
    match until
    case Output => exists id :: id in statuses && (statuses[id].slice != [] || statuses[id].state != Running)
    case AnyExit => exists id :: id in statuses && Terminal(statuses[id].state)
    case AllExit => forall id :: id in statuses ==> Terminal(statuses[id].state)
  }

  /** The rows a wait reports are enough to tell whether it is over. */
  lemma {:induction false} LookFromRows(l: ListView, asks: seq<Ask>, until: Until, statuses: map<nat, Status>)
    requires Backed(l) && Picked(l, asks) <= l.jobs.Keys && Reported(l, asks, Picked(l, asks), statuses)
    ensures LookAt(l, asks, until) == if MetIn(statuses, until) then Satisfied(statuses) else Block(l.changed)
  {
    hide OffsetOf, Picked, Met, MetIn, StatusOf;
    MetFromRows(l, asks, until, statuses);
    assert statuses == map id | id in Picked(l, asks) :: StatusOf(l.jobs[id], OffsetOf(asks, id));
  }

  lemma {:induction false} MetFromRows(l: ListView, asks: seq<Ask>, until: Until, statuses: map<nat, Status>)
    requires Backed(l) && Picked(l, asks) <= l.jobs.Keys && Reported(l, asks, Picked(l, asks), statuses)
    ensures AllInRange(l, asks) && (Met(l, asks, until) <==> MetIn(statuses, until))
  {
    hide OffsetOf, Picked, StatusOf;
    StatesKept(l, asks, statuses);
    if until.Output? {
      forall id | id in Picked(l, asks)
        ensures HasNews(l, asks, id) == (statuses[id].slice != [] || statuses[id].state != Running)
      {
      }
    }
  }

  lemma {:induction false} StatesKept(l: ListView, asks: seq<Ask>, statuses: map<nat, Status>)
    requires Backed(l) && Picked(l, asks) <= l.jobs.Keys && Reported(l, asks, Picked(l, asks), statuses)
    ensures forall id :: id in Picked(l, asks) ==> statuses[id].state == l.jobs[id].state
  {
    hide OffsetOf, Picked, Backed;
  }

  /** A row says of its job what is recorded of it, and the log from the offset on. */
  lemma {:induction false} RowTells(l: ListView, asks: seq<Ask>, ids: set<nat>, statuses: map<nat, Status>, id: nat)
    requires Backed(l) && ids <= l.jobs.Keys && Reported(l, asks, ids, statuses) && id in ids
    ensures var j, row, off := l.jobs[id], statuses[id], OffsetOf(asks, id);
            && row.state == j.state && row.exit == j.exit && 0 <= off <= row.next <= j.bytes <= |j.log|
            && row.slice == j.log[off..row.next] && row.next == Polling.Next(j.log, j.bytes, j.state != Running, off)
  {
    hide OffsetOf, Polling.Next;
    var j := l.jobs[id];
    Polling.ProgressIff(j.log, j.bytes, Terminal(j.state), OffsetOf(asks, id));
  }

  /** Which jobs are asked for. */
  lemma {:induction false} PickedIff(l: ListView, asks: seq<Ask>, id: nat)
    ensures id in Picked(l, asks)
            <==> if asks == [] then id in l.jobs else exists i :: 0 <= i < |asks| && asks[i].id == id
  {
  }

  /** When a wait is turned down: a job that is not listed, or else an offset outside
      of what its job has published. */
  lemma {:induction false} RefusedIff(l: ListView, asks: seq<Ask>, until: Until)
    requires Backed(l)
    ensures LookAt(l, asks, until).Unknown? <==> exists id :: id in Picked(l, asks) && id !in l.jobs
    ensures LookAt(l, asks, until).Outside?
            <==> && (forall id :: id in Picked(l, asks) ==> id in l.jobs)
                 && exists id :: id in Picked(l, asks)
                                 && (OffsetOf(asks, id) < 0 || l.jobs[id].bytes < OffsetOf(asks, id))
  {
    hide OffsetOf, Picked, Met, StatusOf;
  }

  /** The last offset given for a job counts, and 0 if none is. */
  lemma {:induction false} OffsetIs(asks: seq<Ask>, id: nat)
    ensures (forall i :: 0 <= i < |asks| ==> asks[i].id != id) ==> OffsetOf(asks, id) == 0
    ensures forall i :: 0 <= i < |asks| && asks[i].id == id && (forall j :: i < j < |asks| ==> asks[j].id != id) ==>
              OffsetOf(asks, id) == asks[i].offset
    decreases |asks|
  {
    if asks != [] { OffsetIs(asks[..|asks| - 1], id); }
  }

  /** Something of the job can be shown from the offset on. */
  ghost predicate Shows(j: JobView, off: int)
    requires j.bytes <= |j.log|
  {
    j.state != Running || exists i :: 0 <= off <= i < off + 16000 && i < j.bytes && (j.log[i] == 10 || j.log[i] == 13)
  }

  lemma {:induction false} ShowsIff(l: ListView, asks: seq<Ask>, id: nat)
    requires Backed(l) && id in l.jobs && InRange(l.jobs[id], OffsetOf(asks, id))
    ensures HasNews(l, asks, id) <==> Shows(l.jobs[id], OffsetOf(asks, id))
  {
    hide OffsetOf, Polling.Next;
    var j, off := l.jobs[id], OffsetOf(asks, id);
    Polling.ProgressIff(j.log, j.bytes, Terminal(j.state), off);
  }

  /** What a wait waits for, on the jobs themselves. */
  lemma {:induction false} MetIff(l: ListView, asks: seq<Ask>, until: Until)
    requires Backed(l) && AllInRange(l, asks)
    ensures Met(l, asks, until)
            <==> match until
                 case Output => exists id :: id in Picked(l, asks) && Shows(l.jobs[id], OffsetOf(asks, id))
                 case AnyExit => exists id :: id in Picked(l, asks) && l.jobs[id].state != Running
                 case AllExit => forall id :: id in Picked(l, asks) ==> l.jobs[id].state != Running
  {
    hide OffsetOf, Picked, HasNews, Shows;
    forall id | id in Picked(l, asks) ensures HasNews(l, asks, id) <==> Shows(l.jobs[id], OffsetOf(asks, id)) {
      ShowsIff(l, asks, id);
    }
  }

  // ------------------------------------------------------------------- the objects

  class Job {
    const id: nat
    var state: State
    var reason: Option<State>
    var exit: Option<int>
    var bytes: nat
    var log: Bytes
    var outputRev: nat
    var endRev: nat
    var conn: bool

    function View(): JobView
      reads this
    {
      JobView(state, reason, exit, bytes, log, outputRev, endRev, conn)
    }

    constructor (id: nat)
      ensures View() == NEW_JOB && this.id == id
    {
      this.id := id;
      state, reason, exit, bytes, log, outputRev, endRev, conn := Running, None, None, 0, [], 0, 0, true;
    }
  }

  class JobList {
    var jobs: map<nat, Job>
    var nextID: nat
    var revision: nat
    var changed: nat
    var closed: set<nat>
    ghost var Model: ListView

    /** Jobs are listed under their own number, and Model is what the fields say,
        except perhaps in the row of job k. */
    ghost predicate ValidBut(k: int)
      reads this, set id | id in jobs && id != k :: jobs[id]
    {
      && (forall id :: id in jobs ==> jobs[id].id == id)
      && Model.jobs.Keys == jobs.Keys && (forall id :: id in jobs && id != k ==> Model.jobs[id] == jobs[id].View())
      && Model.nextID == nextID && Model.revision == revision && Model.changed == changed && Model.closed == closed
    }

    ghost predicate Valid()
      reads this, jobs.Values
    {
      ValidBut(-1)
    }

    ghost predicate Lists(j: Job)
      reads this`jobs
    {
      j.id in jobs && jobs[j.id] == j
    }

    lemma {:induction false} But(j: Job)
      requires Valid() && Lists(j)
      ensures ValidBut(j.id) && j.id in Model.jobs && Model.jobs[j.id] == j.View()
      ensures forall id :: id in jobs && id != j.id ==> jobs[id] != j
      ensures Model.revision == revision
    {
    }

    constructor ()
      ensures Valid() && Model == ListView(map[], 0, 0, 0, {})
    {
      jobs, nextID, revision, changed, closed := map[], 0, 0, 0, {};
      Model := ListView(map[], 0, 0, 0, {});
    }

    /** Model follows a change of one job. */
    ghost method Follow(j: Job)
      requires ValidBut(j.id) && Lists(j)
      modifies this`Model
      ensures Valid() && Model == WithJob(old(Model), j.id, j.View())
    {
      hide Job.View;
      Model := WithJob(Model, j.id, j.View());
    }

    method NotifyLocked() returns (rev: nat)
      requires Valid()
      modifies this`revision, this`changed, this`closed, this`Model
      ensures Valid() && Model == Notify(old(Model)) && rev == revision
    {
      revision := revision + 1;
      closed := closed + {changed};
      changed := changed + 1;
      rev := revision;
      Model := Notify(Model);
    }

    method TakeID() returns (id: nat)
      requires Valid()
      modifies this`nextID, this`Model
      ensures Valid() && Model == old(Model).(nextID := id) && id == old(nextID) + 1
    {
      nextID := nextID + 1;
      id := nextID;
      Model := Model.(nextID := id);
    }

    method Launch(id: nat) returns (j: Job, rev: nat)
      requires Valid()
      modifies this
      ensures Valid() && Model == Launched(old(Model), id)
      ensures Lists(j) && j.id == id && fresh(j) && rev == revision
    {
      j := new Job(id);
      jobs := jobs[id := j];
      Model := WithJob(Model, id, NEW_JOB);
      rev := NotifyLocked();
    }

    /** Outside the lock: the collector appends to the job's file. */
    method WriteLog(j: Job, payload: Bytes)
      requires Valid() && Lists(j)
      modifies this`Model, j
      ensures Valid() && Model == WithJob(old(Model), j.id, old(j.View()).(log := old(j.log) + payload))
    {
      hide ValidBut;
      But(j);
      j.log := j.log + payload;
      Follow(j);
    }

    /** The result says whether the caller goes on to close the connection. */
    method RequestStop(j: Job, why: State) returns (hangUp: bool)
      requires Valid() && Lists(j)
      modifies this, j
      ensures Valid() && jobs == old(jobs) && Model == Stopped(old(Model), j.id, why)
      ensures hangUp <==> !Terminal(old(j.state)) && old(j.reason).None? && j.conn
    {
      hide ValidBut;
      But(j);
      if Terminal(j.state) || j.reason.Some? { return false; }
      j.reason := Some(why);
      hangUp := j.conn;
      Follow(j);
      var rev := NotifyLocked();
    }

    method Publish(j: Job, payload: Bytes)
      requires Valid() && Lists(j)
      modifies this, j
      ensures Valid() && jobs == old(jobs) && Model == Published(old(Model), j.id, |payload|)
    {
      hide ValidBut;
      But(j);
      j.bytes := j.bytes + |payload|;
      Follow(j);
      var rev := NotifyLocked();
      But(j);
      j.outputRev := rev;
      Follow(j);
      Twice(old(Model).jobs, j.id, old(j.View()).(bytes := j.bytes), j.View());
    }

    method RecordExit(j: Job, code: int)
      requires Valid() && Lists(j)
      modifies this`Model, j
      ensures Valid() && Model == ExitRecorded(old(Model), j.id, code)
    {
      hide ValidBut;
      But(j);
      j.exit := Some(code);
      Follow(j);
    }

    method Finish(j: Job, gotExit: bool)
      requires Valid() && Lists(j)
      modifies this, j
      ensures Valid() && jobs == old(jobs) && Model == Finished(old(Model), j.id, gotExit)
    {
      hide ValidBut;
      But(j);
      if j.reason.Some? { j.state := j.reason.value; } else if gotExit { j.state := Exited; } else { j.state := Lost; }
      j.conn := false;
      Follow(j);
      var rev := NotifyLocked();
      But(j);
      j.endRev := rev;
      Follow(j);
      Twice(old(Model).jobs, j.id, old(j.View()).(state := j.state, conn := false), j.View());
    }

    method Offsets(asks: seq<Ask>) returns (offsets: map<nat, int>)
      ensures forall id: nat :: OffsetOf(asks, id) == if id in offsets then offsets[id] else 0
    {
      offsets := map[];
      for i := 0 to |asks|
        invariant forall id: nat :: OffsetOf(asks[..i], id) == if id in offsets then offsets[id] else 0
      {
        assert asks[..i + 1][..i] == asks[..i];
        offsets := offsets[asks[i].id := asks[i].offset];
      }
      assert asks[..|asks|] == asks;
    }

    /** waitStatuses: a row for each job, or None when an offset is outside its log. */
    method Statuses(asks: seq<Ask>, picked: set<nat>) returns (r: Option<map<nat, Status>>)
      requires Valid() && Backed(Model) && picked <= jobs.Keys
      ensures picked <= Model.jobs.Keys
      ensures r.Some? ==> Reported(Model, asks, picked, r.value)
      ensures r.None? ==> exists id :: id in picked && !InRange(Model.jobs[id], OffsetOf(asks, id))
    {
      ghost var v := Model;
      var offsets := Offsets(asks);
      var statuses: map<nat, Status>, todo := map[], picked;
      while todo != {}
        invariant todo <= picked && Reported(v, asks, picked - todo, statuses)
        decreases |todo|
      {
        var id :| id in todo;
        var j := jobs[id];
        var offset := if id in offsets then offsets[id] else 0;
        assert v.jobs[id] == j.View() && offset == OffsetOf(asks, id);
        if offset < 0 || offset > j.bytes { return None; }
        var slice, next := Polling.Poll(j.log, j.bytes, Terminal(j.state), offset);
        var row := Status(j.state, j.exit, slice, next);
        OneMoreRow(v, asks, picked, todo, statuses, id, row);
        statuses, todo := statuses[id := row], todo - {id};
      }
      assert picked - todo == picked;
      r := Some(statuses);
    }

    /** One pass of the wait loop under the lock. */
    method Look(asks: seq<Ask>, until: Until) returns (r: Looked)
      requires Valid() && Backed(Model)
      ensures r == LookAt(Model, asks, until)
    {
      hide MetIn, Reported, Met, Backed, StatusOf;
      var picked := if asks == [] then jobs.Keys else set a | a in asks :: a.id;
      assert picked == Picked(Model, asks);
      if !(picked <= jobs.Keys) { return Unknown; }
      var got := Statuses(asks, picked);
      if got.None? { return Outside; }
      LookFromRows(Model, asks, until, got.value);
      r := if MetIn(got.value, until) then Satisfied(got.value) else Block(changed);
    }
  }

  lemma {:induction false} Twice(m: map<nat, JobView>, id: nat, a: JobView, b: JobView)
    ensures m[id := a][id := b] == m[id := b]
  {
  }

  lemma {:induction false} OneMoreRow(l: ListView, asks: seq<Ask>, picked: set<nat>, todo: set<nat>,
                                      rows: map<nat, Status>, id: nat, row: Status)
    requires Backed(l) && picked <= l.jobs.Keys && todo <= picked && id in todo
    requires Reported(l, asks, picked - todo, rows)
    requires InRange(l.jobs[id], OffsetOf(asks, id)) && row == StatusOf(l.jobs[id], OffsetOf(asks, id))
    ensures Reported(l, asks, picked - (todo - {id}), rows[id := row])
  {
    hide StatusOf, OffsetOf;
  }
}
