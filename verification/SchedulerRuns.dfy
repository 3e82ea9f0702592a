/** All interleavings of job loops, registry operations and restarts over one durable
    store. A loop reads its registration, claims in the store, publishes the new cursor, hands
    the fire over and possibly saves a deferred cursor and reads it back. A registry operation
    holds the registry lock while it loads a cursor, writes what follows from it and registers
    the outcome. A loop takes the lock only to read and to publish its registration, so it may
    claim, hand over and defer between the load and the write of a reconciliation. */
module SchedulerRuns {
  import opened Ordering
  import opened ScheduleTime
  import opened CatchUp
  import opened SchedulerStore
  import opened Scheduler

  datatype Loop =
    | Pending(registration: Registration)
    | Claimed(job: string, state: SchedulerState, fire: Option<Fire>)
    | ToHand(job: string, state: SchedulerState, due: Fire)
    | Handed(job: string, state: SchedulerState)
    | Saved(job: string)

  /** The registry lock, and how far the reconciliation that holds it has come. */
  datatype Lock =
    | Free
    | Loaded(job: Job, now: int, fallback: Policy, existing: Option<SchedulerState>)
    | Settled(job: Job, planned: bool, state: Option<SchedulerState>)

  datatype World =
    World(rows: Rows, registrations: Registrations, loops: map<nat, Loop>, handed: seq<Fire>, lock: Lock)

  datatype Event =
    | Begin(loop: nat, id: string)
    | ClaimFire(loop: nat, claimedAt: int, overlap: bool)
    | ClaimError(loop: nat)
    | Publish(loop: nat)
    | HandOver(loop: nat)
    | Finish(loop: nat)
    | Defer(loop: nat, retryAt: int)
    | ReadBack(loop: nat)
    | Load(job: Job, now: int, fallback: Policy)
    | Write(S: iset<int>)
    | Release
    | Abandon
    | Unregister(id: string)
    | Drop(id: string)
    | Restart

  function JobOf(loop: Loop): string {
    match loop
    case Pending(registration) => registration.job.id
    case Claimed(job, _, _) => job
    case ToHand(job, _, _) => job
    case Handed(job, _) => job
    case Saved(job) => job
  }

  function AfterClaimEvent(registration: Registration, claim: Claim, r: ClaimResult): Loop {
    match r
    case Granted(state) => Claimed(registration.job.id, state, Some(FireOf(claim)))
    case Skipped(state) => Claimed(registration.job.id, state, None)
    case _ => Claimed(registration.job.id, registration.state, None)
  }

  /** A past one-time job is saved and not registered. */
  function AfterRelease(registrations: Registrations, job: Job, planned: bool, state: SchedulerState): Registrations {
    if planned then registrations[job.id := Registration(job, state)] else registrations
  }

  ghost predicate Step(w: World, e: Event, w': World) {
    match e
    case Begin(l, job) =>
      && w.lock.Free? && l !in w.loops && job in w.registrations && w.registrations[job].job.id == job
      && w.registrations[job].state.nextRunAt.Some?
      && w' == w.(loops := w.loops[l := Pending(w.registrations[job])])
    case ClaimFire(l, claimedAt, overlap) =>
      && l in w.loops && w.loops[l].Pending? && w.loops[l].registration.state.nextRunAt.Some?
      && var registration := w.loops[l].registration;
      var claim := MakeClaim(registration, claimedAt);
      var (rows, r) := AfterClaim(w.rows, claim, overlap);
      w' == w.(rows := rows, loops := w.loops[l := AfterClaimEvent(registration, claim, r)])
    case ClaimError(l) =>
      l in w.loops && w.loops[l].Pending? && w' == w.(loops := w.loops - {l})
    case Publish(l) =>
      && w.lock.Free? && l in w.loops && w.loops[l].Claimed?
      && var loop := w.loops[l];
      w' == w.(registrations := AfterUpdate(w.registrations, loop.job, loop.state),
               loops := if loop.fire.Some? then w.loops[l := ToHand(loop.job, loop.state, loop.fire.value)]
                        else w.loops - {l})
    case HandOver(l) =>
      && l in w.loops && w.loops[l].ToHand?
      && var loop := w.loops[l];
      w' == w.(handed := w.handed + [loop.due], loops := w.loops[l := Handed(loop.job, loop.state)])
    case Finish(l) =>
      l in w.loops && (w.loops[l].Handed? || w.loops[l].Saved?) && w' == w.(loops := w.loops - {l})
    case Defer(l, retryAt) =>
      && l in w.loops && w.loops[l].Handed?
      && var loop := w.loops[l];
      w' == w.(rows := AfterSave(w.rows, loop.job, DeferredState(loop.state, retryAt)),
               loops := w.loops[l := Saved(loop.job)])
    case ReadBack(l) =>
      && l in w.loops && w.loops[l].Saved? && w.loops[l].job in w.rows.cursors
      && var job := w.loops[l].job;
      w' == w.(loops := w.loops[l := Claimed(job, w.rows.cursors[job], None)])
    case Load(job, now, fallback) =>
      && w.lock.Free? && !BuildPlan(job.schedule, now).Invalid?
      && w' == w.(lock := Loaded(job, now, fallback, CursorOf(w.rows, job.id)))
    case Write(S) =>
      && w.lock.Loaded?
      && var (job, now) := (w.lock.job, w.lock.now);
      var plan := BuildPlan(job.schedule, now);
      exists settled ::
        && WritesTo(w.lock.existing, w.rows, job, S, plan, now, w.lock.fallback, w'.rows, settled)
        && w' == w.(rows := w'.rows, lock := Settled(job, plan.Planned?, settled))
    case Release =>
      && w.lock.Settled?
      && var job := w.lock.job;
      var state := Settling(w.rows, job.id, w.lock.state);
      && state.Some?
      && w' == w.(registrations := AfterRelease(w.registrations, job, w.lock.planned, state.value), lock := Free)
    case Abandon =>
      !w.lock.Free? && w' == w.(lock := Free)
    case Unregister(id) =>
      w.lock.Free? && w' == w.(rows := AfterDelete(w.rows, id), registrations := w.registrations - {id})
    case Drop(id) =>
      w.lock.Free? && w' == w.(registrations := w.registrations - {id})
    case Restart =>
      w' == w.(registrations := map[], loops := map[], lock := Free)
  }

  ghost predicate StepAt(ws: seq<World>, es: seq<Event>, i: nat)
    requires i < |es| && |ws| == |es| + 1
  {
    Step(ws[i], es[i], ws[i + 1])
  }

  /** A run: worlds joined by events, starting with nothing in memory and nothing handed over. */
  ghost predicate IsRun(ws: seq<World>, es: seq<Event>) {
    && |ws| == |es| + 1
    && ws[0] == World(ws[0].rows, map[], map[], [], Free)
    && forall i :: 0 <= i < |es| ==> StepAt(ws, es, i)
  }

  lemma RunGrows(ws: seq<World>, es: seq<Event>, e: Event, w: World)
    requires IsRun(ws, es) && Step(ws[|es|], e, w)
    ensures IsRun(ws + [w], es + [e])
  {
    forall i | 0 <= i < |es + [e]| ensures StepAt(ws + [w], es + [e], i) {
      assert i < |es| ==> StepAt(ws, es, i);
    }
  }

  // ----- every fire is handed over at most once -----

  ghost predicate Holds(loop: Loop, fire: Fire) {
    (loop.Claimed? && loop.fire == Some(fire)) || (loop.ToHand? && loop.due == fire)
  }

  ghost predicate FireInvariant(w: World) {
    && Distinct(w.handed)
    && (forall f :: f in w.handed ==> f in w.rows.runs && w.rows.runs[f] == Reserved)
    && (forall l, f :: l in w.loops && Holds(w.loops[l], f) ==>
          f in w.rows.runs && w.rows.runs[f] == Reserved && f !in w.handed)
    && forall k, l, f :: k in w.loops && l in w.loops && Holds(w.loops[k], f) && Holds(w.loops[l], f) ==> k == l
  }

  ghost predicate RunsKept(rows: Rows, rows': Rows) {
    forall f :: f in rows.runs ==> f in rows'.runs && rows'.runs[f] == rows.runs[f]
  }

  /** The cursor and the runs of one job are left alone. */
  ghost predicate RowsOfKept(rows: Rows, rows': Rows, id: string) {
    && CursorOf(rows', id) == CursorOf(rows, id)
    && forall at :: Fire(id, at) in rows'.runs <==> Fire(id, at) in rows.runs
  }

  /** A reconciliation writes for its job only and keeps the run rows. */
  lemma WriteKeepsOthers(existing: Option<SchedulerState>, rows: Rows, job: Job, S: iset<int>, plan: Plan, now: int,
                         fallback: Policy, rows': Rows, settled: Option<SchedulerState>)
    requires WritesTo(existing, rows, job, S, plan, now, fallback, rows', settled)
    ensures RunsKept(rows, rows') && forall id :: id != job.id ==> RowsOfKept(rows, rows', id)
  {
  }

  lemma WriteStepKeepsOthers(w: World, e: Event, w': World)
    requires e.Write? && Step(w, e, w')
    ensures RunsKept(w.rows, w'.rows) && w'.lock.Settled? && w'.lock.job == w.lock.job
    ensures forall id :: id != w.lock.job.id ==> RowsOfKept(w.rows, w'.rows, id)
    ensures w' == w.(rows := w'.rows, lock := w'.lock)
  {
    var job, now, plan := w.lock.job, w.lock.now, BuildPlan(w.lock.job.schedule, w.lock.now);
    var settled :| WritesTo(w.lock.existing, w.rows, job, e.S, plan, now, w.lock.fallback, w'.rows, settled)
                   && w' == w.(rows := w'.rows, lock := Settled(job, plan.Planned?, settled));
    WriteKeepsOthers(w.lock.existing, w.rows, job, e.S, plan, now, w.lock.fallback, w'.rows, settled);
  }

  lemma StepKeepsRuns(w: World, e: Event, w': World)
    requires Step(w, e, w')
    ensures RunsKept(w.rows, w'.rows)
  {
    if e.Write? {
      WriteStepKeepsOthers(w, e, w');
    }
  }

  /** A step that hands nothing over keeps the invariant when it creates no new holder. */
  lemma FireInvariantKept(w: World, w': World)
    requires FireInvariant(w) && RunsKept(w.rows, w'.rows) && w'.handed == w.handed
    requires forall l, f :: l in w'.loops && Holds(w'.loops[l], f) ==> l in w.loops && Holds(w.loops[l], f)
    ensures FireInvariant(w')
  {
  }

  lemma ClaimKeepsFireInvariant(w: World, e: Event, w': World)
    requires e.ClaimFire? && Step(w, e, w') && FireInvariant(w)
    ensures FireInvariant(w')
  {
    var claim := MakeClaim(w.loops[e.loop].registration, e.claimedAt);
    assert forall f :: Holds(w'.loops[e.loop], f) ==>
      f == FireOf(claim) && f !in w.rows.runs && w'.rows.runs[f] == Reserved;
    assert forall l :: l in w.loops && l != e.loop ==> w'.loops[l] == w.loops[l];
  }

  lemma HandOverKeepsFireInvariant(w: World, e: Event, w': World)
    requires e.HandOver? && Step(w, e, w') && FireInvariant(w)
    ensures FireInvariant(w')
  {
    assert Holds(w.loops[e.loop], w.loops[e.loop].due);
    assert forall f :: !Holds(w'.loops[e.loop], f);
    assert forall k :: 0 <= k < |w.handed| ==> w.handed[k] in w.handed;
    forall l, f | l in w'.loops && Holds(w'.loops[l], f)
      ensures l in w.loops && Holds(w.loops[l], f) && f !in w'.handed
    {
      assert l != e.loop && w'.loops[l] == w.loops[l];
    }
  }

  lemma StepKeepsFireInvariant(w: World, e: Event, w': World)
    requires Step(w, e, w') && FireInvariant(w)
    ensures FireInvariant(w')
  {
    StepKeepsRuns(w, e, w');
    if e.ClaimFire? {
      ClaimKeepsFireInvariant(w, e, w');
    } else if e.HandOver? {
      HandOverKeepsFireInvariant(w, e, w');
    } else {
      FireInvariantKept(w, w');
    }
  }

  lemma {:induction false} FireInvariantAlways(ws: seq<World>, es: seq<Event>, i: nat)
    requires IsRun(ws, es) && i < |ws|
    ensures FireInvariant(ws[i])
  {
    if i > 0 {
      FireInvariantAlways(ws, es, i - 1);
      assert StepAt(ws, es, i - 1);
      StepKeepsFireInvariant(ws[i - 1], es[i - 1], ws[i]);
    }
  }

  lemma {:induction false} RunsKeptAlways(ws: seq<World>, es: seq<Event>, i: nat, j: nat)
    requires IsRun(ws, es) && i <= j < |ws|
    ensures RunsKept(ws[i].rows, ws[j].rows)
    decreases j
  {
    if i < j {
      RunsKeptAlways(ws, es, i, j - 1);
      assert StepAt(ws, es, j - 1);
      StepKeepsRuns(ws[j - 1], es[j - 1], ws[j]);
    }
  }

  /** In every run each (job, instant) is handed to the dispatcher at most once. */
  lemma HandedAtMostOnce(ws: seq<World>, es: seq<Event>, i: nat)
    requires IsRun(ws, es) && i < |ws|
    ensures Distinct(ws[i].handed)
    ensures forall f :: f in ws[i].handed ==> f in ws[i].rows.runs && ws[i].rows.runs[f] == Reserved
  {
    FireInvariantAlways(ws, es, i);
  }

  /** A fire whose skip is recorded at any point of a run is never handed over, before or after. */
  lemma RecordedSkipNeverHanded(ws: seq<World>, es: seq<Event>, i: nat, j: nat, f: Fire)
    requires IsRun(ws, es) && i < |ws| && j < |ws|
    requires f in ws[i].rows.runs && ws[i].rows.runs[f] == SkipRecorded
    ensures f !in ws[j].handed
  {
    HandedAtMostOnce(ws, es, j);
    if i <= j {
      RunsKeptAlways(ws, es, i, j);
    } else {
      RunsKeptAlways(ws, es, j, i);
    }
  }

  // ----- reachable worlds -----

  /** Some run ends in this world. */
  ghost predicate Reachable(w: World) {
    exists ws, es :: EndsIn(ws, es, w)
  }

  ghost predicate EndsIn(ws: seq<World>, es: seq<Event>, w: World) {
    IsRun(ws, es) && ws[|es|] == w
  }

  lemma ReachableNext(w: World, e: Event, w': World)
    requires Reachable(w) && Step(w, e, w')
    ensures Reachable(w')
  {
    var ws, es :| EndsIn(ws, es, w);
    RunGrows(ws, es, e, w');
    assert EndsIn(ws + [w'], es + [e], w');
  }

  ghost predicate RegistrationsKeyed(w: World) {
    forall id :: id in w.registrations ==> w.registrations[id].job.id == id
  }

  lemma StepKeepsKeyed(w: World, e: Event, w': World)
    requires Step(w, e, w') && RegistrationsKeyed(w)
    ensures RegistrationsKeyed(w')
  {
  }

  lemma {:induction false} KeyedAlways(ws: seq<World>, es: seq<Event>, i: nat)
    requires IsRun(ws, es) && i < |ws|
    ensures RegistrationsKeyed(ws[i])
  {
    if i > 0 {
      KeyedAlways(ws, es, i - 1);
      assert StepAt(ws, es, i - 1);
      StepKeepsKeyed(ws[i - 1], es[i - 1], ws[i]);
    }
  }

  /** In every reachable world registrations are kept under their id, and no fire was handed over twice. */
  lemma ReachableIsSafe(w: World)
    requires Reachable(w)
    ensures RegistrationsKeyed(w) && Distinct(w.handed)
    ensures forall f :: f in w.handed ==> f in w.rows.runs && w.rows.runs[f] == Reserved
  {
    var ws, es :| EndsIn(ws, es, w);
    KeyedAlways(ws, es, |es|);
    HandedAtMostOnce(ws, es, |es|);
  }

  // ----- steps of one job and of the others -----

  ghost predicate IsLoopOf(w: World, l: nat, id: string) {
    l in w.loops && JobOf(w.loops[l]) == id
  }

  /** The lock as far as it is held for one job. */
  function LockFor(w: World, id: string): Lock {
    if w.lock.Free? || w.lock.job.id != id then Free else w.lock
  }

  /** The step is one of the job's own. */
  ghost predicate ActsOn(w: World, e: Event, id: string) {
    match e
    case Begin(_, job) => job == id
    case ClaimFire(l, _, _) => IsLoopOf(w, l, id)
    case ClaimError(l) => IsLoopOf(w, l, id)
    case Publish(l) => IsLoopOf(w, l, id)
    case HandOver(l) => IsLoopOf(w, l, id)
    case Finish(l) => IsLoopOf(w, l, id)
    case Defer(l, _) => IsLoopOf(w, l, id)
    case ReadBack(l) => IsLoopOf(w, l, id)
    case Load(j, _, _) => j.id == id
    case Write(_) => !LockFor(w, id).Free?
    case Release => !LockFor(w, id).Free?
    case Abandon => !LockFor(w, id).Free?
    case Unregister(job) => job == id
    case Drop(job) => job == id
    case Restart => true
  }

  /** The job's cursor, runs, loops, registration and lock are left alone. */
  ghost predicate Elsewhere(w: World, w': World, id: string) {
    && RowsOfKept(w.rows, w'.rows, id)
    && (forall l :: IsLoopOf(w', l, id) <==> IsLoopOf(w, l, id))
    && (forall l :: IsLoopOf(w, l, id) ==> w'.loops[l] == w.loops[l])
    && (id in w'.registrations <==> id in w.registrations)
    && (id in w.registrations ==> w'.registrations[id] == w.registrations[id])
    && LockFor(w', id) == LockFor(w, id)
  }

  lemma OthersActElsewhere(w: World, e: Event, w': World, id: string)
    requires Step(w, e, w') && !ActsOn(w, e, id)
    ensures Elsewhere(w, w', id)
  {
    match e {
      case Write(_) => WriteStepKeepsOthers(w, e, w');
      case Load(_, _, _) => RegistryActsElsewhere(w, e, w', id);
      case Release => RegistryActsElsewhere(w, e, w', id);
      case Abandon => RegistryActsElsewhere(w, e, w', id);
      case Unregister(_) => RegistryActsElsewhere(w, e, w', id);
      case Drop(_) => RegistryActsElsewhere(w, e, w', id);
      case _ => LoopActsElsewhere(w, e, w', id);
    }
  }

  lemma RegistryActsElsewhere(w: World, e: Event, w': World, id: string)
    requires e.Load? || e.Release? || e.Abandon? || e.Unregister? || e.Drop?
    requires Step(w, e, w') && !ActsOn(w, e, id)
    ensures Elsewhere(w, w', id)
  {
  }

  lemma LoopActsElsewhere(w: World, e: Event, w': World, id: string)
    requires !(e.Load? || e.Write? || e.Release? || e.Abandon? || e.Unregister? || e.Drop?)
    requires Step(w, e, w') && !ActsOn(w, e, id)
    ensures Elsewhere(w, w', id)
  {
    if e.Begin? {
      assert e.loop !in w.loops;
    } else {
      assert forall l :: l in w.loops && l != e.loop ==> l in w'.loops && w'.loops[l] == w.loops[l];
      assert forall l :: IsLoopOf(w', l, id) ==> l in w.loops;
    }
  }
}
