/** Runs of the job list (cmd/thundersnapd/mcp_jobs.go): launches, collectors, stop
    requests, waiters and pollers interleaved freely, one locked section or one
    unlocked write at a time. */
module JobRuns {
  import opened Bytes
  import opened Jobs
  import Polling

  /** Where the collector of a job stands: reading a frame, between writing a payload
      and publishing it, past its loop, or done. gotExit: an exit frame ended the loop. */
  datatype Phase = Reading | Publishing(n: nat) | Leaving(gotExit: bool) | Gone(gotExit: bool)

  datatype Waiter = Waiter(asks: seq<Ask>, until: Until, channel: nat)

  /** holds: the job number that a launch in progress has taken. */
  datatype World = World(l: ListView, phases: map<nat, Phase>, holds: map<nat, nat>, waits: map<nat, Waiter>)

  datatype Action =
    | Take(t: nat)
    | Drop(t: nat)
    | Launch(t: nat)
    | Write(id: nat, payload: Bytes)
    | Publish(id: nat)
    | ExitFrame(id: nat, code: Option<int>)
    | Hangup(id: nat)
    | Finish(id: nat)
    | Stop(id: nat, reason: State)
    | Enter(t: nat, asks: seq<Ask>, until: Until)
    | Wake(t: nat)
    | GiveUp(t: nat)

  /** A look either answers the caller or leaves it waiting on the channel it saw. */
  ghost function Looking(w: World, t: nat, asks: seq<Ask>, until: Until): World
    requires Backed(w.l)
  {
    match LookAt(w.l, asks, until)
    case Block(c) => w.(waits := w.waits[t := Waiter(asks, until, c)])
    case _ => w.(waits := w.waits - {t})
  }

  function PhaseOf(w: World, id: nat): Phase { if id in w.phases then w.phases[id] else Gone(false) }

  /** One step; None when nobody is where the step begins. */
  ghost function Apply(w: World, a: Action): Option<World>
    requires Backed(w.l)
  {
    match a
    case Take(t) =>
      if t in w.holds then None
      else Some(w.(l := w.l.(nextID := w.l.nextID + 1), holds := w.holds[t := w.l.nextID + 1]))
    case Drop(t) => if t !in w.holds then None else Some(w.(holds := w.holds - {t}))
    case Launch(t) =>
      if t !in w.holds then None
      else
        var id := w.holds[t];
        Some(w.(l := Launched(w.l, id), phases := w.phases[id := Reading], holds := w.holds - {t}))
    case Write(id, payload) =>
      if id !in w.l.jobs || !PhaseOf(w, id).Reading? then None
      else
        var j := w.l.jobs[id];
        Some(w.(l := WithJob(w.l, id, j.(log := j.log + payload)), phases := w.phases[id := Publishing(|payload|)]))
    case Publish(id) =>
      if id !in w.l.jobs || !PhaseOf(w, id).Publishing? then None
      else Some(w.(l := Published(w.l, id, PhaseOf(w, id).n), phases := w.phases[id := Reading]))
    case ExitFrame(id, code) =>
      if id !in w.l.jobs || !PhaseOf(w, id).Reading? then None
      else
        Some(w.(l := if code.Some? then ExitRecorded(w.l, id, code.value) else w.l,
                phases := w.phases[id := Leaving(true)]))
    case Hangup(id) =>
      if id !in w.l.jobs || !PhaseOf(w, id).Reading? then None else Some(w.(phases := w.phases[id := Leaving(false)]))
    case Finish(id) =>
      if id !in w.l.jobs || !PhaseOf(w, id).Leaving? then None
      else
        var gotExit := PhaseOf(w, id).gotExit;
        Some(w.(l := Finished(w.l, id, gotExit), phases := w.phases[id := Gone(gotExit)]))
    case Stop(id, reason) =>
      if id !in w.l.jobs || !(reason.TimedOut? || reason.Killed?) then None else Some(w.(l := Stopped(w.l, id, reason)))
    case Enter(t, asks, until) => if t in w.waits then None else Some(Looking(w, t, asks, until))
    case Wake(t) =>
      if t !in w.waits || w.waits[t].channel !in w.l.closed then None
      else Some(Looking(w, t, w.waits[t].asks, w.waits[t].until))
    case GiveUp(t) => if t !in w.waits then None else Some(w.(waits := w.waits - {t}))
  }

  // ----------------------------------------------------------------- the invariant

  /** Every channel but the current one has been closed, once each. */
  ghost predicate ChannelsOk(l: ListView) {
    l.changed == l.revision && forall c: nat :: c in l.closed <==> c < l.changed
  }

  /** A job and where its collector stands, at some revision. */
  ghost predicate Sound(j: JobView, p: Phase, revision: nat) {
    && j.bytes + (if p.Publishing? then p.n else 0) == |j.log|
    && (p.Gone? <==> j.state != Running) && (p.Gone? <==> !j.conn)
    && (j.reason.Some? ==> j.reason.value.TimedOut? || j.reason.value.Killed?)
    && (p.Gone? ==> j.state == if j.reason.Some? then j.reason.value else if p.gotExit then Exited else Lost)
    && (j.exit.Some? ==> (p.Leaving? || p.Gone?) && p.gotExit)
    && j.outputRev <= revision && j.endRev <= revision
    && (if p.Gone? then j.outputRev < j.endRev else j.endRev == 0)
  }

  ghost predicate JobOk(w: World, id: nat)
    requires id in w.l.jobs
  {
    1 <= id <= w.l.nextID && id in w.phases && Sound(w.l.jobs[id], PhaseOf(w, id), w.l.revision)
  }

  ghost predicate HoldOk(w: World, t: nat)
    requires t in w.holds
  {
    && 1 <= w.holds[t] <= w.l.nextID && w.holds[t] !in w.l.jobs
    && forall u :: u in w.holds && w.holds[u] == w.holds[t] ==> u == t
  }

  ghost predicate WaitOk(w: World, t: nat)
    requires Backed(w.l) && t in w.waits
  {
    var q := w.waits[t];
    q.channel <= w.l.changed && (q.channel == w.l.changed ==> LookAt(w.l, q.asks, q.until) == Block(q.channel))
  }

  ghost predicate Inv(w: World) {
    && Backed(w.l) && ChannelsOk(w.l)
    && (forall id :: id in w.l.jobs ==> JobOk(w, id))
    && (forall t :: t in w.holds ==> HoldOk(w, t))
    && (forall t :: t in w.waits ==> WaitOk(w, t))
  }

  const START := World(ListView(map[], 0, 0, 0, {}), map[], map[], map[])

  lemma {:induction false} StartOk()
    ensures Inv(START)
  {
  }

  // ------------------------------------------------------------ what a step may change

  /** What a waiter can see of a job. */
  predicate SameSeen(a: JobView, b: JobView) {
    && a.state == b.state && a.bytes == b.bytes && a.bytes <= |a.log| && a.bytes <= |b.log|
    && a.log[..a.bytes] == b.log[..b.bytes]
  }

  ghost predicate Quiet(l: ListView, m: ListView) {
    && l.jobs.Keys == m.jobs.Keys
    && forall id :: id in l.jobs ==>
         SameSeen(l.jobs[id], m.jobs[id]) && l.jobs[id].reason == m.jobs[id].reason
  }

  /** A job's log only grows, its first stop reason stays, and once it has ended
      nothing about it changes. */
  predicate Grows(a: JobView, b: JobView) {
    && a.log <= b.log && a.bytes <= b.bytes && a.endRev <= b.endRev
    && (a.reason.Some? ==> b.reason == a.reason)
    && (Terminal(a.state) ==> b == a)
  }

  lemma {:induction false} LookingKeepsList(w: World, a: Action)
    requires Backed(w.l) && Apply(w, a).Some?
    ensures a.Enter? || a.Wake? ==> Apply(w, a).value.l == w.l
    ensures a.Enter? || a.Wake? ==> Apply(w, a).value.holds == w.holds && Apply(w, a).value.phases == w.phases
  {
  }

  /** The job whose row or collector a step concerns. */
  ghost predicate Touches(w: World, a: Action, id: nat) {
    match a
    case Launch(t) => t in w.holds && w.holds[t] == id
    case Write(k, _) => k == id
    case Publish(k) => k == id
    case ExitFrame(k, _) => k == id
    case Hangup(k) => k == id
    case Finish(k) => k == id
    case Stop(k, _) => k == id
    case _ => false
  }

  lemma {:induction false} Untouched(w: World, a: Action, id: nat)
    requires Backed(w.l) && Apply(w, a).Some? && !Touches(w, a, id)
    ensures var w' := Apply(w, a).value;
            && (id in w'.l.jobs <==> id in w.l.jobs) && (id in w.l.jobs ==> w'.l.jobs[id] == w.l.jobs[id])
            && (id in w'.phases <==> id in w.phases) && PhaseOf(w', id) == PhaseOf(w, id)
            && w'.l.nextID >= w.l.nextID && w'.l.revision >= w.l.revision
  {
    hide Looking, Backed;
    LookingKeepsList(w, a);
  }

  /** What a step makes of the row it touches. */
  ghost function RowAfter(w: World, a: Action, id: nat): (JobView, Phase)
    requires Touches(w, a, id) && (a.Launch? || id in w.l.jobs)
  {
    var j, p, r := if id in w.l.jobs then w.l.jobs[id] else NEW_JOB, PhaseOf(w, id), w.l.revision;
    match a
    case Launch(_) => (NEW_JOB, Reading)
    case Write(_, payload) => (j.(log := j.log + payload), Publishing(|payload|))
    case Publish(_) => (if p.Publishing? then j.(bytes := j.bytes + p.n, outputRev := r + 1) else j, Reading)
    case ExitFrame(_, code) => (if code.Some? then j.(exit := Some(code.value)) else j, Leaving(true))
    case Hangup(_) => (j, Leaving(false))
    case Finish(_) =>
      if !p.Leaving? then (j, p)
      else (j.(state := FinalState(j, p.gotExit), conn := false, endRev := r + 1), Gone(p.gotExit))
    case Stop(_, reason) => (if Terminal(j.state) || j.reason.Some? then j else j.(reason := Some(reason)), p)
    case _ => (j, p)
  }

  lemma {:induction false} Touched(w: World, a: Action, id: nat)
    requires Backed(w.l) && Apply(w, a).Some? && Touches(w, a, id) && (a.Stop? && id in w.l.jobs ==> id in w.phases)
    ensures a.Launch? || id in w.l.jobs
    ensures var w' := Apply(w, a).value;
            && id in w'.l.jobs && id in w'.phases
            && (w'.l.jobs[id], PhaseOf(w', id)) == RowAfter(w, a, id)
            && w'.l.nextID == w.l.nextID && w'.l.revision >= w.l.revision
            && (a.Launch? || a.Publish? || a.Finish? ==> w'.l.revision == w.l.revision + 1)
  {
    hide Backed;
  }

  lemma {:induction false} RowSound(w: World, a: Action, id: nat, revision: nat)
    requires Touches(w, a, id) && (id in w.l.jobs <==> !a.Launch?)
    requires id in w.l.jobs ==> Sound(w.l.jobs[id], PhaseOf(w, id), w.l.revision)
    requires w.l.revision <= revision && (a.Publish? || a.Finish? ==> revision == w.l.revision + 1)
    requires match a
             case Write(_, _) => PhaseOf(w, id).Reading?
             case Publish(_) => PhaseOf(w, id).Publishing?
             case ExitFrame(_, _) => PhaseOf(w, id).Reading?
             case Hangup(_) => PhaseOf(w, id).Reading?
             case Finish(_) => PhaseOf(w, id).Leaving?
             case Stop(_, reason) => reason.TimedOut? || reason.Killed?
             case _ => true
    ensures var (j, p) := RowAfter(w, a, id); Sound(j, p, revision)
    ensures var (j, p) := RowAfter(w, a, id); id in w.l.jobs ==> Grows(w.l.jobs[id], j)
  {
  }

  /** Where the collector must stand for its step. */
  lemma {:induction false} Enabled(w: World, a: Action, id: nat)
    requires Backed(w.l) && Apply(w, a).Some? && Touches(w, a, id)
    ensures match a
            case Write(_, _) => PhaseOf(w, id).Reading?
            case Publish(_) => PhaseOf(w, id).Publishing?
            case ExitFrame(_, _) => PhaseOf(w, id).Reading?
            case Hangup(_) => PhaseOf(w, id).Reading?
            case Finish(_) => PhaseOf(w, id).Leaving?
            case Stop(_, reason) => reason.TimedOut? || reason.Killed?
            case _ => true
  {
    hide Backed, Launched, Published, Finished, ExitRecorded, Stopped, WithJob;
  }

  lemma {:induction false} KeepsJob(w: World, a: Action, id: nat)
    requires Inv(w) && Apply(w, a).Some? && id in Apply(w, a).value.l.jobs
    ensures JobOk(Apply(w, a).value, id)
    ensures Apply(w, a).value.l.jobs[id].bytes <= |Apply(w, a).value.l.jobs[id].log|
    ensures id in w.l.jobs ==> Grows(w.l.jobs[id], Apply(w, a).value.l.jobs[id])
  {
    hide Apply, RowAfter, WaitOk, ChannelsOk;
    if id in w.l.jobs { assert JobOk(w, id); }
    if a.Launch? && a.t in w.holds { assert HoldOk(w, a.t); }
    if Touches(w, a, id) {
      Touched(w, a, id);
      Enabled(w, a, id);
      RowSound(w, a, id, Apply(w, a).value.l.revision);
    } else {
      Untouched(w, a, id);
    }
  }

  lemma {:induction false} StepJob(w: World, a: Action, id: nat)
    requires Inv(w) && Apply(w, a).Some? && id in w.l.jobs
    ensures id in Apply(w, a).value.l.jobs && Grows(w.l.jobs[id], Apply(w, a).value.l.jobs[id])
  {
    hide Apply, Inv, Grows;
    Remains(w, a, id);
    KeepsJob(w, a, id);
  }

  lemma {:induction false} Remains(w: World, a: Action, id: nat)
    requires Inv(w) && Apply(w, a).Some? && id in w.l.jobs
    ensures id in Apply(w, a).value.l.jobs
  {
    hide Apply, RowAfter, WaitOk, ChannelsOk, Sound;
    assert JobOk(w, id);
    if Touches(w, a, id) { Touched(w, a, id); } else { Untouched(w, a, id); }
  }

  lemma {:induction false} KeepsHold(w: World, a: Action, t: nat)
    requires Inv(w) && Apply(w, a).Some? && t in Apply(w, a).value.holds
    ensures HoldOk(Apply(w, a).value, t)
  {
    hide Looking, WaitOk, JobOk;
    if t in w.holds { assert HoldOk(w, t); }
    if a.Launch? { assert HoldOk(w, a.t); }
    forall id | a.Take? && id in w.l.jobs ensures id <= w.l.nextID { JobNumbers(w, id); }
    forall u | a.Take? && u in w.holds ensures w.holds[u] <= w.l.nextID { assert HoldOk(w, u); }
    LookingKeepsList(w, a);
  }

  lemma {:induction false} JobNumbers(w: World, id: nat)
    requires id in w.l.jobs && JobOk(w, id)
    ensures 1 <= id <= w.l.nextID
  {
  }

  lemma {:induction false} StepRevision(w: World, a: Action)
    requires Backed(w.l) && ChannelsOk(w.l) && Apply(w, a).Some?
    ensures var m := Apply(w, a).value.l;
            && ChannelsOk(m) && w.l.revision <= m.revision <= w.l.revision + 1
            && (m.revision == w.l.revision ==> m.changed == w.l.changed)
            && (a.Launch? || a.Publish? || a.Finish? ==> m.revision == w.l.revision + 1)
  {
    hide Looking, Backed;
    LookingKeepsList(w, a);
  }

  /** A row that is touched without notice looks the same to whoever waits. */
  lemma {:induction false} QuietRowAfter(w: World, a: Action, id: nat)
    requires Inv(w) && Apply(w, a).Some? && Touches(w, a, id) && Apply(w, a).value.l.revision == w.l.revision
    ensures id in w.l.jobs && id in Apply(w, a).value.l.jobs
    ensures SameSeen(w.l.jobs[id], Apply(w, a).value.l.jobs[id])
    ensures w.l.jobs[id].reason == Apply(w, a).value.l.jobs[id].reason
  {
    hide Apply, WaitOk, HoldOk;
    StepRevision(w, a);
    StopPhase(w, a, id);
    Touched(w, a, id);
    assert JobOk(w, id);
    if a.Stop? { QuietStop(w, a, id); }
  }

  lemma {:induction false} StopPhase(w: World, a: Action, id: nat)
    requires Inv(w) && Touches(w, a, id)
    ensures a.Stop? && id in w.l.jobs ==> id in w.phases
  {
    hide WaitOk, HoldOk, Sound;
    if id in w.l.jobs { assert JobOk(w, id); }
  }

  lemma {:induction false} QuietStop(w: World, a: Action, id: nat)
    requires Backed(w.l) && Apply(w, a).Some? && a.Stop? && a.id == id && id in w.l.jobs
    requires Apply(w, a).value.l.revision == w.l.revision
    ensures Terminal(w.l.jobs[id].state) || w.l.jobs[id].reason.Some?
  {
    hide Backed;
  }

  lemma {:induction false} StepQuiet(w: World, a: Action)
    requires Inv(w) && Apply(w, a).Some? && Apply(w, a).value.l.revision == w.l.revision
    ensures Quiet(w.l, Apply(w, a).value.l)
  {
    hide Apply, Inv, SameSeen, Touches;
    BackedOf(w);
    var m := Apply(w, a).value.l;
    forall id
      ensures id in w.l.jobs <==> id in m.jobs
      ensures id in w.l.jobs ==> SameSeen(w.l.jobs[id], m.jobs[id]) && w.l.jobs[id].reason == m.jobs[id].reason
    {
      BackedOf(w);
      if Touches(w, a, id) {
        QuietRowAfter(w, a, id);
      } else {
        Untouched(w, a, id);
        if id in w.l.jobs { SeenSelf(w, id); }
      }
    }
  }

  lemma {:induction false} SeenSelf(w: World, id: nat)
    requires Backed(w.l) && id in w.l.jobs
    ensures SameSeen(w.l.jobs[id], w.l.jobs[id])
  {
  }

  /** A step either closes the channel and replaces it, or changes nothing that any
      waiter could see. */
  lemma {:induction false} StepNotifies(w: World, a: Action)
    requires Inv(w) && Apply(w, a).Some?
    ensures var m := Apply(w, a).value.l;
            && ChannelsOk(m) && w.l.revision <= m.revision <= w.l.revision + 1
            && (m.revision == w.l.revision ==> m.changed == w.l.changed && Quiet(w.l, m))
    ensures a.Launch? || a.Publish? || a.Finish? ==> Apply(w, a).value.l.revision == w.l.revision + 1
  {
    hide Apply, Quiet, JobOk, WaitOk, HoldOk;
    StepRevision(w, a);
    if Apply(w, a).value.l.revision == w.l.revision { StepQuiet(w, a); }
  }

  /** Taking a number, giving it back, and giving up a wait concern nobody else, and
      only one who is there can do the last two. */
  lemma {:induction false} OwnSteps(w: World, a: Action)
    requires Backed(w.l) && Apply(w, a).Some? && (a.Take? || a.Drop? || a.GiveUp?)
    ensures var next := Apply(w, a).value;
            && next.l.jobs == w.l.jobs && next.l.revision == w.l.revision && next.phases == w.phases
            && next.l.closed == w.l.closed && next.l.changed == w.l.changed
            && next.l.nextID == w.l.nextID + (if a.Take? then 1 else 0)
            && (forall u :: u in next.holds <==> if u == a.t && !a.GiveUp? then a.Take? else u in w.holds)
            && (forall u :: u in next.holds ==> next.holds[u] == if u in w.holds then w.holds[u] else next.l.nextID)
            && (forall u :: u in next.waits <==> u in w.waits && !(a.GiveUp? && u == a.t))
            && (forall u :: u in next.waits ==> next.waits[u] == w.waits[u])
    ensures match a
            case Take(t) => t !in w.holds
            case Drop(t) => t in w.holds
            case _ => a.t in w.waits
  {
  }

  /** A job begins running, with an empty log, no exit code and no reason to stop. */
  lemma {:induction false} LaunchBegins(w: World, t: nat)
    requires Inv(w) && Apply(w, Launch(t)).Some?
    ensures t in w.holds && var id := w.holds[t];
            id in Apply(w, Launch(t)).value.l.jobs && var j := Apply(w, Launch(t)).value.l.jobs[id];
            && j.state == Running && j.reason == None && j.exit == None && j.bytes == 0 && j.log == [] && j.conn
            && j.outputRev == 0 && j.endRev == 0
  {
    hide JobOk, WaitOk, HoldOk, Looking;
  }

  /** What a step makes of the job it concerns. Its revisions say when it last published
      and when it ended, and a stop request is announced exactly when it is recorded. */
  lemma {:induction false} StepRecords(w: World, a: Action)
    requires Inv(w) && Apply(w, a).Some?
    requires a.Write? || a.Publish? || a.ExitFrame? || a.Hangup? || a.Finish? || a.Stop?
    ensures a.id in w.l.jobs && a.id in Apply(w, a).value.l.jobs
    ensures var j, k := w.l.jobs[a.id], Apply(w, a).value.l.jobs[a.id];
            && k.log == (if a.Write? then j.log + a.payload else j.log)
            && k.exit == (if a.ExitFrame? && a.code.Some? then a.code else j.exit)
            && k.reason == (if a.Stop? && j.reason.None? && j.state == Running then Some(a.reason) else j.reason)
            && (k.state != j.state ==> a.Finish?)
            && (a.Publish? ==> PhaseOf(w, a.id).Publishing?)
            && k.bytes == j.bytes + (if a.Publish? then PhaseOf(w, a.id).n else 0)
    ensures var m := Apply(w, a).value.l;
            && (a.Publish? ==> m.jobs[a.id].outputRev == m.revision)
            && (a.Finish? ==> m.jobs[a.id].endRev == m.revision)
            && (a.Stop? ==> (m.revision > w.l.revision <==> w.l.jobs[a.id].reason != m.jobs[a.id].reason))
  {
    hide JobOk, WaitOk, HoldOk, Looking;
  }

  lemma {:induction false} QuietRow(a: JobView, b: JobView, offset: nat)
    requires SameSeen(a, b) && offset <= a.bytes
    ensures StatusOf(a, offset).slice == StatusOf(b, offset).slice
  {
    Polling.NextOfPrefix(a.log, b.log, a.bytes, Terminal(a.state), offset);
  }

  lemma {:induction false} QuietLook(l: ListView, m: ListView, asks: seq<Ask>, until: Until)
    requires Backed(l) && Backed(m) && Quiet(l, m) && l.changed == m.changed
    ensures LookAt(l, asks, until).Block? ==> LookAt(m, asks, until) == LookAt(l, asks, until)
  {
    hide StatusOf, OffsetOf, SameSeen;
    forall id | id in l.jobs
      ensures m.jobs[id].state == l.jobs[id].state && m.jobs[id].bytes == l.jobs[id].bytes
    {
      SeenParts(l.jobs[id], m.jobs[id]);
    }
    assert Picked(l, asks) == Picked(m, asks);
    if AllInRange(l, asks) {
      forall id | id in Picked(l, asks) ensures HasNews(l, asks, id) == HasNews(m, asks, id) {
        QuietRow(l.jobs[id], m.jobs[id], OffsetOf(asks, id));
      }
    }
  }

  lemma {:induction false} SeenParts(a: JobView, b: JobView)
    requires SameSeen(a, b)
    ensures a.state == b.state && a.bytes == b.bytes
  {
  }

  lemma {:induction false} KeepsWait(w: World, a: Action, t: nat)
    requires Inv(w) && Apply(w, a).Some? && Backed(Apply(w, a).value.l) && t in Apply(w, a).value.waits
    ensures WaitOk(Apply(w, a).value, t)
  {
    hide LookAt, Quiet, JobOk, HoldOk, Backed;
    StepNotifies(w, a);
    LookingKeepsList(w, a);
    WaitsAfter(w, a, t);
    var w' := Apply(w, a).value;
    if t in w.waits && w'.waits[t] == w.waits[t] && w'.l.changed == w.l.changed {
      QuietLook(w.l, w'.l, w.waits[t].asks, w.waits[t].until);
    }
  }

  /** Whoever waits was waiting before, or has just looked. */
  lemma {:induction false} WaitsAfter(w: World, a: Action, t: nat)
    requires Backed(w.l) && Apply(w, a).Some? && t in Apply(w, a).value.waits
    ensures var q := Apply(w, a).value.waits[t];
            || (t in w.waits && q == w.waits[t])
            || ((a.Enter? || a.Wake?) && LookAt(w.l, q.asks, q.until) == Block(q.channel) && q.channel == w.l.changed)
  {
  }

  lemma {:induction false} ApplyKeeps(w: World, a: Action)
    requires Inv(w)
    ensures Apply(w, a).Some? ==> Inv(Apply(w, a).value)
  {
    hide Apply, JobOk, HoldOk, WaitOk, ChannelsOk;
    if Apply(w, a).Some? {
      var w' := Apply(w, a).value;
      StepNotifies(w, a);
      forall id | id in w'.l.jobs ensures JobOk(w', id) && w'.l.jobs[id].bytes <= |w'.l.jobs[id].log| {
        KeepsJob(w, a, id);
      }
      forall t | t in w'.holds ensures HoldOk(w', t) { KeepsHold(w, a, t); }
      forall t | t in w'.waits ensures WaitOk(w', t) { KeepsWait(w, a, t); }
    }
  }

  // ------------------------------------------------------------------- whole runs

  ghost function Play(w: World, acts: seq<Action>): Option<World>
    requires Inv(w)
    decreases |acts|
  {
    if acts == [] then Some(w)
    else
      ApplyKeeps(w, acts[0]);
      match Apply(w, acts[0])
      case None => None
      case Some(next) => Play(next, acts[1..])
  }

  lemma {:induction false} PlayKeeps(w: World, acts: seq<Action>)
    requires Inv(w)
    ensures Play(w, acts).Some? ==> Inv(Play(w, acts).value)
    decreases |acts|
  {
    hide Inv, Apply;
    if acts != [] {
      BackedOf(w);
      ApplyKeeps(w, acts[0]);
      var next := Apply(w, acts[0]);
      if next.Some? { PlayKeeps(next.value, acts[1..]); }
    }
  }

  ghost predicate Reachable(w: World) {
    Inv(START) && exists acts :: Play(START, acts) == Some(w)
  }

  lemma {:induction false} ReachableInv(w: World)
    requires Reachable(w)
    ensures Inv(w)
  {
    hide Inv, Play;
    var acts :| Play(START, acts) == Some(w);
    PlayKeeps(START, acts);
  }

  /** A waiter whose channel is open would learn nothing by looking again: its
      condition still fails and it would wait on the same channel. */
  lemma {:induction false} NoMissedWakeup(w: World, t: nat)
    requires Reachable(w) && Backed(w.l) && t in w.waits && w.waits[t].channel !in w.l.closed
    ensures LookAt(w.l, w.waits[t].asks, w.waits[t].until) == Block(w.waits[t].channel)
    ensures w.waits[t].channel == w.l.changed
  {
    ReachableInv(w);
    assert WaitOk(w, t);
  }

  /** So a kill can leave its wait exactly when the jobs it waits for have all ended. */
  lemma {:induction false} KillIsWoken(w: World, t: nat)
    requires Reachable(w) && Backed(w.l) && t in w.waits && w.waits[t].until == AllExit
    requires AllInRange(w.l, w.waits[t].asks)
    ensures (Apply(w, Wake(t)).Some? && t !in Apply(w, Wake(t)).value.waits)
       <==> (forall id :: id in Picked(w.l, w.waits[t].asks) ==> w.l.jobs[id].state != Running)
  {
    hide Apply, JobOk, Met;
    MetIff(w.l, w.waits[t].asks, AllExit);
    LeavesIff(w, t);
  }

  /** A wait for any exit can be left exactly when one of its jobs has ended. */
  lemma {:induction false} AnyExitIsWoken(w: World, t: nat)
    requires Reachable(w) && Backed(w.l) && t in w.waits && w.waits[t].until == AnyExit
    requires AllInRange(w.l, w.waits[t].asks)
    ensures (Apply(w, Wake(t)).Some? && t !in Apply(w, Wake(t)).value.waits)
       <==> (exists id :: id in Picked(w.l, w.waits[t].asks) && w.l.jobs[id].state != Running)
  {
    hide Apply, JobOk, Met;
    MetIff(w.l, w.waits[t].asks, AnyExit);
    LeavesIff(w, t);
  }

  /** A wait for output can be left exactly when one of its jobs has ended or has a line
      break in sight of its offset. */
  lemma {:induction false} OutputIsWoken(w: World, t: nat)
    requires Reachable(w) && Backed(w.l) && t in w.waits && w.waits[t].until == Output
    requires AllInRange(w.l, w.waits[t].asks)
    ensures (Apply(w, Wake(t)).Some? && t !in Apply(w, Wake(t)).value.waits)
       <==> (exists id :: id in Picked(w.l, w.waits[t].asks)
                          && Shows(w.l.jobs[id], OffsetOf(w.waits[t].asks, id)))
  {
    hide Apply, JobOk, Met, Shows;
    MetIff(w.l, w.waits[t].asks, Output);
    LeavesIff(w, t);
  }

  lemma {:induction false} LeavesIff(w: World, t: nat)
    requires Reachable(w) && Backed(w.l) && t in w.waits && AllInRange(w.l, w.waits[t].asks)
    ensures (Apply(w, Wake(t)).Some? && t !in Apply(w, Wake(t)).value.waits)
            <==> Met(w.l, w.waits[t].asks, w.waits[t].until)
  {
    hide Apply, JobOk, Met;
    if w.waits[t].channel !in w.l.closed { NoMissedWakeup(w, t); StaysAsleep(w, t); } else { WokenLooks(w, t); }
  }

  lemma {:induction false} StaysAsleep(w: World, t: nat)
    requires Backed(w.l) && t in w.waits && w.waits[t].channel !in w.l.closed
    ensures Apply(w, Wake(t)) == None
  {
  }

  lemma {:induction false} WokenLooks(w: World, t: nat)
    requires Backed(w.l) && t in w.waits && w.waits[t].channel in w.l.closed
    ensures Apply(w, Wake(t)) == Some(Looking(w, t, w.waits[t].asks, w.waits[t].until))
  {
  }

  /** A job number is never given out twice: it is free until its launch. */
  lemma {:induction false} LaunchIsFresh(w: World, t: nat)
    requires Reachable(w) && Backed(w.l) && t in w.holds
    ensures w.holds[t] !in w.l.jobs
    ensures forall u :: u in w.holds && u != t ==> w.holds[u] != w.holds[t]
  {
    ReachableInv(w);
    assert HoldOk(w, t);
  }

  lemma {:induction false} GrowsAlong(a: JobView, b: JobView, c: JobView)
    requires Grows(a, b) && Grows(b, c)
    ensures Grows(a, c)
  {
  }

  /** Over every run: a job stays, its log and its published size only grow, the
      first stop reason wins, and what has ended never changes again. */
  lemma {:induction false} RunGrows(w: World, acts: seq<Action>, id: nat)
    requires Inv(w) && id in w.l.jobs && Play(w, acts).Some?
    ensures id in Play(w, acts).value.l.jobs && Grows(w.l.jobs[id], Play(w, acts).value.l.jobs[id])
    decreases |acts|
  {
    hide Inv, Apply, Grows;
    if acts == [] { GrowsSelf(w, id); }
    else {
      BackedOf(w);
      ApplyKeeps(w, acts[0]);
      StepJob(w, acts[0], id);
      var next := Apply(w, acts[0]).value;
      RunGrows(next, acts[1..], id);
      GrowsAlong(w.l.jobs[id], next.l.jobs[id], Play(w, acts).value.l.jobs[id]);
    }
  }

  lemma {:induction false} GrowsSelf(w: World, id: nat)
    requires id in w.l.jobs
    ensures Grows(w.l.jobs[id], w.l.jobs[id])
  {
  }

  lemma {:induction false} BackedOf(w: World)
    requires Inv(w)
    ensures Backed(w.l)
  {
  }

  /** How a job ends: with the reason it was first asked to stop, or else by itself;
      by then it has published all it wrote and its end is its last news. An exit code
      is known only of a job whose exit frame came. */
  lemma {:induction false} EndingIs(w: World, id: nat)
    requires Reachable(w) && id in w.l.jobs
    ensures var j, p := w.l.jobs[id], PhaseOf(w, id);
            && (Terminal(j.state) <==> j.state != Running) && (Terminal(j.state) <==> p.Gone?)
            && (Terminal(j.state) ==> j.bytes == |j.log| && !j.conn && j.outputRev < j.endRev)
            && (Terminal(j.state) ==>
                  j.state == if j.reason.Some? then j.reason.value else if p.gotExit then Exited else Lost)
            && (j.exit.Some? ==> (p.Leaving? || p.Gone?) && p.gotExit)
  {
    ReachableInv(w);
    assert JobOk(w, id);
  }

  function Ends(acts: seq<Action>, id: nat): nat {
    if acts == [] then 0 else (if acts[0] == Finish(id) then 1 else 0) + Ends(acts[1..], id)
  }

  function Over(w: World, id: nat): nat { if id in w.l.jobs && w.l.jobs[id].state != Running then 1 else 0 }

  lemma {:induction false} StepEnds(w: World, a: Action, id: nat)
    requires Inv(w) && Backed(w.l) && Apply(w, a).Some?
    ensures Over(Apply(w, a).value, id) == Over(w, id) + if a == Finish(id) then 1 else 0
  {
    hide Apply, WaitOk;
    if id in w.l.jobs { assert JobOk(w, id); }
    if a.Launch? && a.t in w.holds { assert HoldOk(w, a.t); }
    if Touches(w, a, id) {
      Touched(w, a, id);
      Enabled(w, a, id);
    } else {
      Untouched(w, a, id);
    }
  }

  /** Each job makes its way out of running at most once, whoever asks for it. */
  lemma {:induction false} OneEnding(w: World, acts: seq<Action>, id: nat)
    requires Inv(w) && Play(w, acts).Some?
    ensures Over(Play(w, acts).value, id) == Over(w, id) + Ends(acts, id)
    ensures Ends(acts, id) <= 1
    decreases |acts|
  {
    hide Inv, Apply, Over;
    OverBound(Play(w, acts).value, id);
    if acts != [] {
      BackedOf(w);
      ApplyKeeps(w, acts[0]);
      StepEnds(w, acts[0], id);
      OneEnding(Apply(w, acts[0]).value, acts[1..], id);
    }
  }

  lemma {:induction false} OverBound(w: World, id: nat)
    ensures Over(w, id) <= 1
  {
  }

  lemma {:induction false} QuietAlong(a: ListView, b: ListView, c: ListView)
    requires Quiet(a, b) && Quiet(b, c)
    ensures Quiet(a, c)
  {
    forall id | id in a.jobs ensures SameSeen(a.jobs[id], c.jobs[id]) && a.jobs[id].reason == c.jobs[id].reason {
      assert SameSeen(a.jobs[id], b.jobs[id]) && SameSeen(b.jobs[id], c.jobs[id]);
    }
  }

  lemma {:induction false} QuietSelf(w: World)
    requires Inv(w)
    ensures Quiet(w.l, w.l)
  {
    hide JobOk;
  }

  /** Between two moments with the same revision, however far apart, no job has
      appeared, changed its state or its stop reason, or published a byte. */
  lemma {:induction false} RevisionTells(w: World, acts: seq<Action>)
    requires Inv(w) && Play(w, acts).Some?
    ensures var m := Play(w, acts).value.l;
            m.revision >= w.l.revision && (m.revision == w.l.revision ==> Quiet(w.l, m))
    decreases |acts|
  {
    hide Inv, Apply, Quiet;
    if acts == [] { QuietSelf(w); }
    else {
      BackedOf(w);
      ApplyKeeps(w, acts[0]);
      StepNotifies(w, acts[0]);
      var next := Apply(w, acts[0]).value;
      RevisionTells(next, acts[1..]);
      var m := Play(next, acts[1..]).value.l;
      if m.revision == w.l.revision { QuietAlong(w.l, next.l, m); }
    }
  }

  // --------------------------------------------------------- polling through a run

  /** What a poll returned, and whether the job was over by then. */
  datatype Row = Row(slice: Bytes, done: bool)

  datatype Seen = Seen(w: World, rows: seq<Row>, offset: nat)

  /** A client polls one job, always handing back the offset it was given, while
      anything else goes on; None in the script is a poll. */
  ghost function PollRun(w: World, script: seq<Option<Action>>, id: nat, offset: nat): (r: Option<Seen>)
    requires Inv(w) && id in w.l.jobs && offset <= w.l.jobs[id].bytes
    decreases |script|
  {
    BackedOf(w);
    if script == [] then Some(Seen(w, [], offset))
    else if script[0].None? then
      var j := w.l.jobs[id];
      var s := StatusOf(j, offset);
      NextFits(j, offset);
      (match PollRun(w, script[1..], id, s.next)
       case None => None
       case Some(r) => Some(r.(rows := [Row(s.slice, Terminal(j.state))] + r.rows)))
    else
      ApplyKeeps(w, script[0].value);
      match Apply(w, script[0].value)
      case None => None
      case Some(next) =>
        StepJob(w, script[0].value, id);
        PollRun(next, script[1..], id, offset)
  }

  lemma {:induction false} NextFits(j: JobView, offset: nat)
    requires offset <= j.bytes <= |j.log|
    ensures offset <= StatusOf(j, offset).next <= j.bytes
    ensures StatusOf(j, offset).slice == j.log[offset..StatusOf(j, offset).next]
  {
    Polling.ProgressIff(j.log, j.bytes, Terminal(j.state), offset);
  }

  function Slices(rows: seq<Row>): seq<Bytes> {
    if rows == [] then [] else [rows[0].slice] + Slices(rows[1..])
  }

  lemma {:induction false} ConsRows(row: Row, rows: seq<Row>)
    ensures Flatten(Slices([row] + rows)) == row.slice + Flatten(Slices(rows))
  {
    assert ([row] + rows)[1..] == rows;
    assert ([row.slice] + Slices(rows))[1..] == Slices(rows);
  }

  lemma {:induction false} Tile(a: Bytes, b: Bytes, x: nat, y: nat, z: nat)
    requires a <= b && x <= y <= z && y <= |a| && z <= |b|
    ensures a[x..y] + b[y..z] == b[x..z]
  {
    assert a[x..y] == b[x..y];
  }

  /** The slices of a polling run tile the log from the first offset to the last,
      without gap or overlap, and the offset stays inside what is published. */
  lemma {:induction false} PollsTile(w: World, script: seq<Option<Action>>, id: nat, offset: nat)
    requires Inv(w) && id in w.l.jobs && offset <= w.l.jobs[id].bytes
    requires PollRun(w, script, id, offset).Some?
    ensures var r := PollRun(w, script, id, offset).value;
            && id in r.w.l.jobs && Grows(w.l.jobs[id], r.w.l.jobs[id])
            && offset <= r.offset <= r.w.l.jobs[id].bytes <= |r.w.l.jobs[id].log|
            && Flatten(Slices(r.rows)) == r.w.l.jobs[id].log[offset..r.offset]
    decreases |script|
  {
    hide Inv, Apply, StatusOf;
    BackedOf(w);
    var j := w.l.jobs[id];
    if script == [] { GrowsSelf(w, id); }
    else if script[0].None? {
      var s := StatusOf(j, offset);
      NextFits(j, offset);
      PollsTile(w, script[1..], id, s.next);
      var r := PollRun(w, script[1..], id, s.next).value;
      ConsRows(Row(s.slice, Terminal(j.state)), r.rows);
      Tile(j.log, r.w.l.jobs[id].log, offset, s.next, r.offset);
    } else {
      ApplyKeeps(w, script[0].value);
      StepJob(w, script[0].value, id);
      var next := Apply(w, script[0].value).value;
      PollsTile(next, script[1..], id, offset);
      GrowsAlong(j, next.l.jobs[id], PollRun(next, script[1..], id, offset).value.w.l.jobs[id]);
    }
  }

  ghost predicate RowOk(row: Row) {
    |row.slice| <= Polling.CAP && (!row.done && row.slice != [] ==> Polling.Breaks(row.slice[|row.slice| - 1]))
  }

  lemma {:induction false} PollRow(j: JobView, offset: nat)
    requires offset <= j.bytes <= |j.log|
    ensures RowOk(Row(StatusOf(j, offset).slice, Terminal(j.state)))
  {
    var n := Polling.Next(j.log, j.bytes, Terminal(j.state), offset);
    Polling.ProgressIff(j.log, j.bytes, Terminal(j.state), offset);
    Polling.NextExactly(j.log, j.bytes, Terminal(j.state), offset, n);
  }

  /** Every slice of a polling run fits the cap and, while the job runs, breaks off
      just after a line break. */
  lemma {:induction false} PollsBreakAtLines(w: World, script: seq<Option<Action>>, id: nat, offset: nat)
    requires Inv(w) && id in w.l.jobs && offset <= w.l.jobs[id].bytes
    requires PollRun(w, script, id, offset).Some?
    ensures forall row :: row in PollRun(w, script, id, offset).value.rows ==> RowOk(row)
    decreases |script|
  {
    hide Inv, Apply, StatusOf, RowOk;
    BackedOf(w);
    var j := w.l.jobs[id];
    if script == [] {
    } else if script[0].None? {
      NextFits(j, offset);
      PollRow(j, offset);
      PollsBreakAtLines(w, script[1..], id, StatusOf(j, offset).next);
    } else {
      ApplyKeeps(w, script[0].value);
      StepJob(w, script[0].value, id);
      PollsBreakAtLines(Apply(w, script[0].value).value, script[1..], id, offset);
    }
  }

  function Polls(script: seq<Option<Action>>): nat {
    if script == [] then 0 else (if script[0].None? then 1 else 0) + Polls(script[1..])
  }

  /** Once the job has ended, only the number of polls counts. */
  lemma {:induction false} EndedPolls(w: World, script: seq<Option<Action>>, id: nat, offset: nat)
    requires Inv(w) && id in w.l.jobs && offset <= w.l.jobs[id].bytes && w.l.jobs[id].bytes <= |w.l.jobs[id].log|
    requires Terminal(w.l.jobs[id].state) && PollRun(w, script, id, offset).Some?
    ensures var j := w.l.jobs[id];
            PollRun(w, script, id, offset).value.offset == Polling.After(j.log, j.bytes, offset, Polls(script))
    decreases |script|
  {
    hide Inv, Apply;
    BackedOf(w);
    var j := w.l.jobs[id];
    if script == [] {
    } else if script[0].None? {
      NextFits(j, offset);
      EndedPolls(w, script[1..], id, StatusOf(j, offset).next);
    } else {
      ApplyKeeps(w, script[0].value);
      StepJob(w, script[0].value, id);
      EndedPolls(Apply(w, script[0].value).value, script[1..], id, offset);
    }
  }

  /** An ended job is read out by exactly the polls its unread rest needs, and what
      they return is that rest. */
  lemma {:induction false} EndedLogIsDelivered(w: World, script: seq<Option<Action>>, id: nat, offset: nat)
    requires Reachable(w) && id in w.l.jobs && offset <= w.l.jobs[id].bytes && Inv(w)
    requires Terminal(w.l.jobs[id].state) && PollRun(w, script, id, offset).Some?
    ensures var j := w.l.jobs[id];
            var r := PollRun(w, script, id, offset).value;
            Flatten(Slices(r.rows)) == j.log[offset..]
            <==> Polls(script) >= Polling.CeilDiv(|j.log| - offset, Polling.CAP)
  {
    hide Inv, Apply, PollRun;
    EndingIs(w, id);
    var j := w.l.jobs[id];
    var r := PollRun(w, script, id, offset).value;
    EndedPolls(w, script, id, offset);
    PollsTile(w, script, id, offset);
    Polling.DrainsExactly(j.log, j.bytes, offset, Polls(script));
    assert |j.log[offset..r.offset]| == r.offset - offset;
  }
}
