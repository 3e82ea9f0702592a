/** The stored cursor of one job over all interleavings: when it never decreases, and the
    reconciliations that let it. */
module SchedulerCursor {
  import opened Ordering
  import opened ScheduleTime
  import opened CatchUp
  import opened SchedulerStore
  import opened Scheduler
  import opened SchedulerRuns

  /** An interval or cron schedule; it may end. */
  ghost predicate Recurring(schedule: Schedule, S: iset<int>) {
    match schedule
    case Every(interval) => interval > 0
    case Cron(next, _) => CronOf(next, S)
    case At(_) => false
  }

  /** The instant the stored cursor points at; none when it has ended or is not stored. */
  function NextOf(rows: Rows, id: string): Option<int> {
    if id in rows.cursors then rows.cursors[id].nextRunAt else None
  }

  /** The cursor does not move back; the flag says that it moves strictly. A cursor that has
      ended is not compared. */
  ghost predicate CursorRises(rows: Rows, rows': Rows, id: string, strictly: bool) {
    var before, after := NextOf(rows, id), NextOf(rows', id);
    before.Some? && after.Some? ==> if strictly then before.value < after.value else before.value <= after.value
  }

  ghost predicate GrantsClaim(w: World, e: Event, id: string) {
    && e.ClaimFire? && IsLoopOf(w, e.loop, id) && w.loops[e.loop].Pending?
    && w.loops[e.loop].registration.state.nextRunAt.Some?
    && !AfterClaim(w.rows, MakeClaim(w.loops[e.loop].registration, e.claimedAt), e.overlap).1.AlreadyClaimed?
  }

  // ----- what a reconciliation does to the cursor -----

  /** Coalescing stays at a due cursor c: no later fire is due, and the cursor is not one the
      bisection moves back. */
  ghost predicate NothingLater(schedule: Schedule, S: iset<int>, c: int, now: int) {
    match schedule
    case Every(interval) => now < c + interval
    case Cron(_, valid) => valid ==> (forall s :: s in S && c - SECOND < s <= now ==> s == c)
    case At(_) => true
  }

  /** Coalescing moves a due cursor back to a cron instant less than a second before it. */
  ghost predicate BisectionMovesBack(schedule: Schedule, S: iset<int>, c: int, now: int) {
    && schedule.Cron? && schedule.valid
    && (exists s :: s in S && c - SECOND < s < c) && !exists s :: s in S && c <= s <= now
  }

  /** What a reconciliation does with the cursor it loaded: nothing; end it; save it where it is;
      record the missed fire as skipped and go on to the next; put it forward; put it back. */
  datatype Effect = Keeps | Ends | Rewrites | Skipping(at: int) | Advances | Retreats

  ghost function EffectOf(existing: Option<SchedulerState>, j: Job, S: iset<int>, now: int, fallback: Policy): Effect {
    var plan := BuildPlan(j.schedule, now);
    var entering := Entering(existing, j, plan, fallback);
    match entering.nextRunAt
    case None => if NextRunOf(plan).None? then Ends else Advances
    case Some(c) =>
      if c > now then Keeps
      else if entering.policy == Replay then Rewrites
      else if Skips(entering, c, now) then if NextRunAfterMissed(j.schedule, c, now).None? then Ends else Skipping(c)
      else if NothingLater(j.schedule, S, c, now) then Rewrites
      else if BisectionMovesBack(j.schedule, S, c, now) then Retreats
      else Advances
  }

  // ----- the loops in flight meanwhile -----

  /** A loop that can write the cursor before it next needs the registry lock: by a claim that
      is not refused, or by a deferral. */
  ghost predicate MayWrite(rows: Rows, id: string, loop: Loop) {
    match loop
    case Pending(registration) =>
      registration.state.nextRunAt.Some? && Fire(id, registration.state.nextRunAt.value) !in rows.runs
    case ToHand(_, _, _) => true
    case Handed(_, _) => true
    case _ => false
  }

  /** Nothing can be claimed anew at this instant once the fire skipped, if any, is recorded. */
  ghost predicate Spent(rows: Rows, id: string, at: Option<int>, skipped: Option<int>) {
    at.Some? ==> Fire(id, at.value) in rows.runs || at == skipped
  }

  /** A loop in flight that a moved cursor does not disturb: it holds no fire, and what it
      would claim is claimed already or is being skipped. */
  ghost predicate Undisturbed(rows: Rows, id: string, loop: Loop, skipped: Option<int>) {
    match loop
    case Pending(registration) => Spent(rows, id, registration.state.nextRunAt, skipped)
    case Claimed(_, state, None) => Spent(rows, id, state.nextRunAt, skipped)
    case Saved(_) => Spent(rows, id, NextOf(rows, id), skipped)
    case _ => false
  }

  ghost predicate NoneMayWrite(w: World, id: string) {
    forall l :: IsLoopOf(w, l, id) ==> !MayWrite(w.rows, id, w.loops[l])
  }

  ghost predicate LoopsUndisturbed(w: World, id: string, skipped: Option<int>) {
    forall l :: IsLoopOf(w, l, id) ==> Undisturbed(w.rows, id, w.loops[l], skipped)
  }

  /** What a reconciliation that loaded existing is going to write cannot lower the cursor, now
      or by what a loop in flight does later. */
  ghost predicate WriteIsSafe(w: World, j: Job, S: iset<int>, now: int, fallback: Policy,
                              existing: Option<SchedulerState>) {
    var unmoved := CursorOf(w.rows, j.id) == existing;
    match EffectOf(existing, j, S, now, fallback)
    case Keeps => true
    case Ends => true
    case Rewrites => unmoved && NoneMayWrite(w, j.id)
    case Skipping(c) => Fire(j.id, c) in w.rows.runs || (unmoved && LoopsUndisturbed(w, j.id, Some(c)))
    case Advances => unmoved && LoopsUndisturbed(w, j.id, None)
    case Retreats => false
  }

  /** A reconciliation that may start: it writes nothing or ends the cursor, or it saves the
      cursor where it is and no loop can write in between, or it moves the cursor forward and no
      loop in flight can claim or defer behind it. */
  ghost predicate ReconcileIsSafe(w: World, j: Job, S: iset<int>, now: int, fallback: Policy) {
    WriteIsSafe(w, j, S, now, fallback, CursorOf(w.rows, j.id))
  }

  // ----- the events considered -----

  ghost predicate OneLoop(w: World, id: string) {
    forall k, l :: IsLoopOf(w, k, id) && IsLoopOf(w, l, id) ==> k == l
  }

  ghost predicate NoLoop(w: World, id: string) {
    forall l :: !IsLoopOf(w, l, id)
  }

  ghost predicate Unchanged(j: Job, job: Job) {
    j.id == job.id ==> j.schedule == job.schedule && j.hash == job.hash
  }

  /** The job keeps one loop and its schedule, starts safe reconciliations only, and a cursor that
      was saved is read back as long as it is stored. */
  ghost predicate Orderly(w: World, e: Event, job: Job, S: iset<int>) {
    match e
    case Begin(_, id) => id == job.id ==> NoLoop(w, id)
    case Load(j, now, fallback) => Unchanged(j, job) && (j.id == job.id ==> ReconcileIsSafe(w, j, S, now, fallback))
    case Write(S') => !LockFor(w, job.id).Free? ==> S' == S
    case Abandon => !LockFor(w, job.id).Settled?
    case Finish(l) => IsLoopOf(w, l, job.id) && w.loops[l].Saved? ==> job.id !in w.rows.cursors
    case _ => true
  }

  // ----- agreement of memory and store -----

  /** The last fire of a state has its run row. */
  ghost predicate Recorded(rows: Rows, id: string, state: SchedulerState) {
    state.lastFire.Some? ==> Fire(id, state.lastFire.value) in rows.runs
  }

  ghost predicate StateOk(rows: Rows, job: Job, state: SchedulerState) {
    state.hash == job.hash && Recorded(rows, job.id, state)
  }

  /** The state of a fire in flight points where the stored cursor does. */
  ghost predicate Tracks(rows: Rows, job: Job, state: SchedulerState) {
    StateOk(rows, job, state) && (NextOf(rows, job.id).Some? ==> state.nextRunAt == NextOf(rows, job.id))
  }

  /** A state to claim from points where the stored cursor does, or at a fire already claimed. */
  ghost predicate Harmless(rows: Rows, job: Job, state: SchedulerState) {
    NextOf(rows, job.id).Some? && state.nextRunAt.Some? ==>
      state.nextRunAt == NextOf(rows, job.id) || Fire(job.id, state.nextRunAt.value) in rows.runs
  }

  ghost predicate LoopAgrees(rows: Rows, job: Job, loop: Loop) {
    match loop
    case Pending(registration) =>
      Unchanged(registration.job, job) && registration.state.hash == job.hash && Harmless(rows, job, registration.state)
    case Claimed(_, state, None) => state.hash == job.hash && Harmless(rows, job, state)
    case Claimed(_, state, Some(_)) => Tracks(rows, job, state)
    case ToHand(_, state, _) => Tracks(rows, job, state)
    case Handed(_, state) => Tracks(rows, job, state)
    case Saved(_) => true
  }

  ghost predicate LoopsAgree(w: World, job: Job) {
    forall l :: IsLoopOf(w, l, job.id) ==> LoopAgrees(w.rows, job, w.loops[l])
  }

  /** No loop of the job is going to publish a state. */
  ghost predicate NonePublishing(w: World, id: string) {
    forall l :: IsLoopOf(w, l, id) ==> !w.loops[l].Claimed? && !w.loops[l].Saved?
  }

  ghost predicate StoredCursorOk(rows: Rows, job: Job) {
    job.id in rows.cursors ==> StateOk(rows, job, rows.cursors[job.id])
  }

  ghost predicate RegistrationOk(w: World, job: Job) {
    job.id in w.registrations ==>
      var registration := w.registrations[job.id];
      && registration.job.id == job.id && Unchanged(registration.job, job) && registration.state.hash == job.hash
      && (NonePublishing(w, job.id) && !LockFor(w, job.id).Settled? ==> Harmless(w.rows, job, registration.state))
  }

  ghost predicate LockAgrees(w: World, job: Job, S: iset<int>) {
    match LockFor(w, job.id)
    case Free => true
    case Loaded(j, now, fallback, existing) =>
      && Unchanged(j, job) && BuildPlan(j.schedule, now).Planned?
      && (existing.Some? ==> StateOk(w.rows, job, existing.value))
      && WriteIsSafe(w, j, S, now, fallback, existing)
      && (EffectOf(existing, j, S, now, fallback).Keeps? && NonePublishing(w, job.id) ==>
            Harmless(w.rows, job, Entering(existing, j, BuildPlan(j.schedule, now), fallback)))
    case Settled(j, planned, state) =>
      && Unchanged(j, job) && planned
      && (state.Some? ==>
            state.value.hash == job.hash && (NonePublishing(w, job.id) ==> Harmless(w.rows, job, state.value)))
  }

  ghost predicate CursorInvariant(w: World, job: Job, S: iset<int>) {
    && OneLoop(w, job.id) && StoredCursorOk(w.rows, job) && LoopsAgree(w, job)
    && RegistrationOk(w, job) && LockAgrees(w, job, S)
  }

  /** A cursor that does not move keeps what agrees with it. */
  lemma AgreementKept(rows: Rows, rows': Rows, job: Job)
    requires NextOf(rows', job.id) == NextOf(rows, job.id) && RunsKept(rows, rows')
    ensures forall state {:trigger Harmless(rows', job, state)} :: Harmless(rows, job, state) ==>
      Harmless(rows', job, state)
    ensures forall loop {:trigger LoopAgrees(rows', job, loop)} :: LoopAgrees(rows, job, loop) ==>
      LoopAgrees(rows', job, loop)
  {
  }

  /** A cursor that ends or goes agrees with everything. */
  lemma EndedAgrees(rows: Rows, rows': Rows, job: Job)
    requires NextOf(rows', job.id).None? && RunsKept(rows, rows')
    ensures forall loop {:trigger LoopAgrees(rows', job, loop)} :: LoopAgrees(rows, job, loop) ==>
      LoopAgrees(rows', job, loop)
  {
  }

  /** A cursor that moves agrees with the loops it does not disturb. */
  lemma UndisturbedAgrees(rows: Rows, rows': Rows, job: Job, loop: Loop, skipped: Option<int>)
    requires LoopAgrees(rows, job, loop) && Undisturbed(rows, job.id, loop, skipped) && RunsKept(rows, rows')
    requires skipped.Some? ==> Fire(job.id, skipped.value) in rows'.runs
    ensures LoopAgrees(rows', job, loop)
  {
  }

  // ----- the cursor written -----

  lemma NextAfterMissedIsLater(schedule: Schedule, S: iset<int>, missedAt: int, now: int)
    requires Recurring(schedule, S) && missedAt <= now
    ensures NextRunAfterMissed(schedule, missedAt, now).Some? ==>
      NextRunAfterMissed(schedule, missedAt, now).value > now
  {
    if schedule.Every? {
      DivisionBounds(now - missedAt, schedule.interval);
    }
  }

  /** The latest missed run is the cursor exactly when nothing later is due, and lies before
      it exactly when the bisection moves back. */
  lemma LatestOfDue(schedule: Schedule, S: iset<int>, c: int, now: int, latest: int)
    requires Recurring(schedule, S) && c <= now && IsLatestMissed(schedule, S, c, now, latest)
    ensures latest == c <==> NothingLater(schedule, S, c, now)
    ensures latest < c <==> BisectionMovesBack(schedule, S, c, now)
    ensures latest > c ==> NextRunAfter(schedule, c).Some? && NextRunAfter(schedule, c).value <= latest
  {
    match schedule {
      case Every(interval) =>
        var k: nat :| latest == c + k * interval && latest <= now < latest + interval;
        if k > 0 {
          GridGap(interval, 0, k);
        }
      case Cron(next, valid) =>
        if valid {
          LatestBeforeMissed(S, c, now, latest);
          assert next(c).Some? ==> IsLeastAbove(S, c, next(c).value);
          assert latest == c ==> forall s :: s in S && c - SECOND < s <= now ==> s == c || c !in S;
        }
    }
  }

  ghost predicate Refused(rows: Rows, id: string, at: int) {
    Fire(id, at) in rows.runs || (id in rows.cursors && rows.cursors[id].lastFire == Some(at))
  }

  /** A missed cursor as each policy writes it. */
  lemma MissedCursor(existing: Option<SchedulerState>, rows: Rows, job: Job, S: iset<int>, now: int, fallback: Policy,
                     rows': Rows, settled: Option<SchedulerState>)
    requires Recurring(job.schedule, S) && BuildPlan(job.schedule, now).Planned?
    requires WritesTo(existing, rows, job, S, BuildPlan(job.schedule, now), now, fallback, rows', settled)
    requires var at := Entering(existing, job, BuildPlan(job.schedule, now), fallback).nextRunAt;
             at.Some? && at.value <= now
    ensures var entering := Entering(existing, job, BuildPlan(job.schedule, now), fallback);
      var c := entering.nextRunAt.value;
      if entering.policy == Replay then settled.None? && rows'.runs == rows.runs && NextOf(rows', job.id) == Some(c)
      else if Skips(entering, c, now) then
        if Refused(rows, job.id, c) then settled.None? && rows' == rows
        else
          && Fire(job.id, c) in rows'.runs && CursorOf(rows', job.id) == settled
          && NextOf(rows', job.id) == NextRunAfterMissed(job.schedule, c, now)
      else
        && settled.None? && rows'.runs == rows.runs && NextOf(rows', job.id).Some?
        && IsLatestMissed(job.schedule, S, c, now, NextOf(rows', job.id).value)
  {
  }

  /** The cursor written by each effect. */
  lemma WrittenCursor(existing: Option<SchedulerState>, rows: Rows, job: Job, S: iset<int>, now: int, fallback: Policy,
                      rows': Rows, settled: Option<SchedulerState>)
    requires Recurring(job.schedule, S) && BuildPlan(job.schedule, now).Planned?
    requires WritesTo(existing, rows, job, S, BuildPlan(job.schedule, now), now, fallback, rows', settled)
    ensures var at := Entering(existing, job, BuildPlan(job.schedule, now), fallback).nextRunAt;
      match EffectOf(existing, job, S, now, fallback)
      case Keeps => rows' == rows && settled == Some(Entering(existing, job, BuildPlan(job.schedule, now), fallback))
      case Ends =>
        || (rows' == rows && settled.None?)
        || (NextOf(rows', job.id).None? && (settled.Some? ==> settled == CursorOf(rows', job.id)))
      case Rewrites => settled.None? && rows'.runs == rows.runs && at.Some? && NextOf(rows', job.id) == at
      case Skipping(c) =>
        && at == Some(c)
        && if Refused(rows, job.id, c) then rows' == rows && settled.None?
           else
             && Fire(job.id, c) in rows'.runs && CursorOf(rows', job.id) == settled
             && NextOf(rows', job.id).Some? && c < NextOf(rows', job.id).value
      case Advances =>
        && settled.None? && rows'.runs == rows.runs && NextOf(rows', job.id).Some?
        && (at.Some? ==>
              && at.value < NextOf(rows', job.id).value && NextRunAfter(job.schedule, at.value).Some?
              && NextRunAfter(job.schedule, at.value).value <= NextOf(rows', job.id).value)
      case Retreats =>
        && settled.None? && at.Some? && NextOf(rows', job.id).Some? && NextOf(rows', job.id).value < at.value
  {
    var entering := Entering(existing, job, BuildPlan(job.schedule, now), fallback);
    if entering.nextRunAt.Some? && entering.nextRunAt.value <= now {
      var c := entering.nextRunAt.value;
      MissedCursor(existing, rows, job, S, now, fallback, rows', settled);
      if entering.policy != Replay && Skips(entering, c, now) {
        NextAfterMissedIsLater(job.schedule, S, c, now);
      } else if entering.policy != Replay {
        LatestOfDue(job.schedule, S, c, now, NextOf(rows', job.id).value);
      }
    }
  }

  /** The state a reconciliation of the unchanged schedule goes on with, and the one it stores. */
  lemma WrittenStateOk(existing: Option<SchedulerState>, rows: Rows, job: Job, j: Job, S: iset<int>, now: int,
                       fallback: Policy, rows': Rows, settled: Option<SchedulerState>)
    requires j.id == job.id && Unchanged(j, job) && StoredCursorOk(rows, job)
    requires existing.Some? ==> StateOk(rows, job, existing.value)
    requires WritesTo(existing, rows, j, S, BuildPlan(j.schedule, now), now, fallback, rows', settled)
    ensures StoredCursorOk(rows', job) && RunsKept(rows, rows')
    ensures settled.Some? ==> settled.value.hash == job.hash
  {
  }

  // ----- steps of other jobs -----

  lemma ElsewhereKeepsInvariant(w: World, w': World, job: Job, S: iset<int>)
    requires Elsewhere(w, w', job.id) && RunsKept(w.rows, w'.rows) && CursorInvariant(w, job, S)
    ensures CursorInvariant(w', job, S) && CursorRises(w.rows, w'.rows, job.id, false)
  {
    var id := job.id;
    assert NextOf(w'.rows, id) == NextOf(w.rows, id);
    AgreementKept(w.rows, w'.rows, job);
    assert NonePublishing(w', id) <==> NonePublishing(w, id);
    forall l, skipped | IsLoopOf(w', l, id) && Undisturbed(w.rows, id, w.loops[l], skipped)
      ensures Undisturbed(w'.rows, id, w'.loops[l], skipped)
    {
      assert IsLoopOf(w, l, id);
    }
    assert NoneMayWrite(w, id) ==> NoneMayWrite(w', id);
  }

  // ----- steps of the job's loop -----

  /** One loop replaced by its next stage. */
  ghost predicate Replaced(w: World, w': World, l: nat) {
    && l in w.loops && w'.loops.Keys == w.loops.Keys && JobOf(w'.loops[l]) == JobOf(w.loops[l])
    && forall k :: k in w.loops && k != l ==> w'.loops[k] == w.loops[k]
  }

  /** The loop is still the only one of the job. */
  lemma OnlyLoopReplaced(w: World, w': World, l: nat, job: Job)
    requires Replaced(w, w', l) && IsLoopOf(w, l, job.id) && OneLoop(w, job.id)
    requires LoopAgrees(w'.rows, job, w'.loops[l])
    ensures OneLoop(w', job.id) && LoopsAgree(w', job)
    ensures forall k :: (IsLoopOf(w', k, job.id) <==> k == l) && (IsLoopOf(w, k, job.id) <==> k == l)
  {
    forall k | IsLoopOf(w', k, job.id) || IsLoopOf(w, k, job.id) ensures k == l {
      assert IsLoopOf(w, k, job.id);
    }
  }

  /** The next stage writes and disturbs no more than the one before. */
  ghost predicate NoWorse(rows: Rows, id: string, loop: Loop, loop': Loop) {
    && (MayWrite(rows, id, loop') ==> MayWrite(rows, id, loop))
    && forall skipped :: Undisturbed(rows, id, loop, skipped) ==> Undisturbed(rows, id, loop', skipped)
  }

  /** A step that leaves rows, registrations and the lock alone. */
  lemma QuietStep(w: World, w': World, l: nat, job: Job, S: iset<int>)
    requires Replaced(w, w', l) && IsLoopOf(w, l, job.id) && CursorInvariant(w, job, S)
    requires w' == w.(loops := w'.loops, handed := w'.handed)
    requires LoopAgrees(w.rows, job, w'.loops[l]) && NoWorse(w.rows, job.id, w.loops[l], w'.loops[l])
    requires w.loops[l].Claimed? || w.loops[l].Saved? ==> w'.loops[l].Claimed? || w'.loops[l].Saved?
    ensures CursorInvariant(w', job, S)
  {
    OnlyLoopReplaced(w, w', l, job);
    assert NonePublishing(w', job.id) ==> NonePublishing(w, job.id);
    assert LockFor(w', job.id) == LockFor(w, job.id);
    forall skipped | LoopsUndisturbed(w, job.id, skipped) ensures LoopsUndisturbed(w', job.id, skipped) {
      assert Undisturbed(w.rows, job.id, w.loops[l], skipped);
    }
  }

  /** The cursor moves by a loop that is going to publish it. */
  lemma PublishingStep(w: World, w': World, l: nat, job: Job, S: iset<int>)
    requires Replaced(w, w', l) && IsLoopOf(w, l, job.id) && CursorInvariant(w, job, S)
    requires w' == w.(rows := w'.rows, loops := w'.loops) && RunsKept(w.rows, w'.rows)
    requires LoopAgrees(w'.rows, job, w'.loops[l]) && StoredCursorOk(w'.rows, job)
    requires w'.loops[l].Claimed? || w'.loops[l].Saved?
    requires MayWrite(w.rows, job.id, w.loops[l])
    requires forall skipped: Option<int> :: Undisturbed(w.rows, job.id, w.loops[l], skipped) ==>
      skipped.Some? && Fire(job.id, skipped.value) in w'.rows.runs
    ensures CursorInvariant(w', job, S)
  {
    OnlyLoopReplaced(w, w', l, job);
    assert !NonePublishing(w', job.id);
    assert LockFor(w', job.id) == LockFor(w, job.id);
  }

  lemma ClaimRaises(w: World, e: Event, w': World, job: Job, S: iset<int>)
    requires e.ClaimFire? && IsLoopOf(w, e.loop, job.id) && Step(w, e, w') && Recurring(job.schedule, S)
    requires CursorInvariant(w, job, S)
    ensures CursorInvariant(w', job, S)
    ensures CursorRises(w.rows, w'.rows, job.id, GrantsClaim(w, e, job.id))
  {
    var registration := w.loops[e.loop].registration;
    var at := registration.state.nextRunAt.value;
    assert LoopAgrees(w.rows, job, w.loops[e.loop]);
    if !GrantsClaim(w, e, job.id) {
      QuietStep(w, w', e.loop, job, S);
    } else {
      StepKeepsRuns(w, e, w');
      if job.schedule.Cron? && job.schedule.next(at).Some? {
        assert IsLeastAbove(S, at, job.schedule.next(at).value);
      }
      assert Fire(job.id, at) !in w.rows.runs && Fire(job.id, at) in w'.rows.runs;
      PublishingStep(w, w', e.loop, job, S);
    }
  }

  lemma DeferRaises(w: World, e: Event, w': World, job: Job, S: iset<int>)
    requires e.Defer? && IsLoopOf(w, e.loop, job.id) && Step(w, e, w') && CursorInvariant(w, job, S)
    ensures CursorInvariant(w', job, S)
    ensures CursorRises(w.rows, w'.rows, job.id, false)
  {
    assert LoopAgrees(w.rows, job, w.loops[e.loop]);
    PublishingStep(w, w', e.loop, job, S);
  }

  lemma ReadBackKeeps(w: World, e: Event, w': World, job: Job, S: iset<int>)
    requires e.ReadBack? && IsLoopOf(w, e.loop, job.id) && Step(w, e, w') && CursorInvariant(w, job, S)
    ensures CursorInvariant(w', job, S)
  {
    QuietStep(w, w', e.loop, job, S);
  }

  lemma HandOverKeeps(w: World, e: Event, w': World, job: Job, S: iset<int>)
    requires e.HandOver? && IsLoopOf(w, e.loop, job.id) && Step(w, e, w') && CursorInvariant(w, job, S)
    ensures CursorInvariant(w', job, S)
  {
    assert LoopAgrees(w.rows, job, w.loops[e.loop]);
    QuietStep(w, w', e.loop, job, S);
  }

  /** A loop that ends without having anything to publish. */
  lemma EndKeeps(w: World, l: nat, w': World, job: Job, S: iset<int>)
    requires IsLoopOf(w, l, job.id) && w' == w.(loops := w.loops - {l}) && CursorInvariant(w, job, S)
    requires !w.loops[l].Claimed? && (w.loops[l].Saved? ==> job.id !in w.rows.cursors)
    ensures CursorInvariant(w', job, S)
  {
    assert forall k :: k in w'.loops ==> k in w.loops && w'.loops[k] == w.loops[k];
    assert forall k :: !IsLoopOf(w', k, job.id) by {
      forall k | IsLoopOf(w', k, job.id) ensures false {
        assert IsLoopOf(w, k, job.id);
      }
    }
    assert LockFor(w', job.id) == LockFor(w, job.id);
    if !w.loops[l].Saved? {
      assert NonePublishing(w, job.id);
    }
  }

  lemma BeginKeeps(w: World, e: Event, w': World, job: Job, S: iset<int>)
    requires e.Begin? && e.id == job.id && Step(w, e, w') && NoLoop(w, job.id) && CursorInvariant(w, job, S)
    ensures CursorInvariant(w', job, S)
  {
    assert NonePublishing(w, job.id);
    assert forall l :: l in w.loops ==> w'.loops[l] == w.loops[l];
    forall l | IsLoopOf(w', l, job.id) ensures l == e.loop {
      assert l != e.loop ==> IsLoopOf(w, l, job.id);
    }
  }

  lemma PublishKeeps(w: World, e: Event, w': World, job: Job, S: iset<int>)
    requires e.Publish? && IsLoopOf(w, e.loop, job.id) && Step(w, e, w') && CursorInvariant(w, job, S)
    ensures CursorInvariant(w', job, S)
  {
    assert LoopAgrees(w.rows, job, w.loops[e.loop]);
    if w.loops[e.loop].fire.Some? {
      OnlyLoopReplaced(w, w', e.loop, job);
    } else {
      assert forall k :: k in w'.loops ==> k in w.loops && w'.loops[k] == w.loops[k];
      assert forall k :: IsLoopOf(w', k, job.id) ==> IsLoopOf(w, k, job.id);
    }
  }

  // ----- steps of a reconciliation of the job -----

  lemma SameLoops(w: World, w': World, id: string)
    requires w'.loops == w.loops
    ensures forall l :: IsLoopOf(w', l, id) <==> IsLoopOf(w, l, id)
    ensures OneLoop(w, id) ==> OneLoop(w', id)
    ensures (NonePublishing(w', id) <==> NonePublishing(w, id)) && (NoLoop(w', id) <==> NoLoop(w, id))
  {
    forall l ensures IsLoopOf(w', l, id) <==> IsLoopOf(w, l, id) {
    }
  }

  lemma LoadKeeps(w: World, e: Event, w': World, job: Job, S: iset<int>)
    requires e.Load? && e.job.id == job.id && Step(w, e, w') && Orderly(w, e, job, S) && CursorInvariant(w, job, S)
    requires Recurring(job.schedule, S)
    ensures CursorInvariant(w', job, S)
  {
    SameLoops(w, w', job.id);
    assert NoneMayWrite(w, job.id) ==> NoneMayWrite(w', job.id);
    forall skipped | LoopsUndisturbed(w, job.id, skipped) ensures LoopsUndisturbed(w', job.id, skipped) {
    }
  }

  /** The write of a safe reconciliation keeps the loops in agreement. */
  lemma WriteKeepsLoops(w: World, w': World, job: Job, S: iset<int>, settled: Option<SchedulerState>)
    requires LockFor(w, job.id).Loaded? && CursorInvariant(w, job, S) && Recurring(job.schedule, S)
    requires w'.loops == w.loops && RunsKept(w.rows, w'.rows)
    requires WritesTo(w.lock.existing, w.rows, w.lock.job, S, BuildPlan(w.lock.job.schedule, w.lock.now), w.lock.now,
                      w.lock.fallback, w'.rows, settled)
    ensures LoopsAgree(w', job) && CursorRises(w.rows, w'.rows, job.id, false)
    ensures settled.Some? && NonePublishing(w, job.id) ==> Harmless(w'.rows, job, settled.value)
  {
    var j, now, fallback, existing := w.lock.job, w.lock.now, w.lock.fallback, w.lock.existing;
    WrittenCursor(existing, w.rows, j, S, now, fallback, w'.rows, settled);
    var effect := EffectOf(existing, j, S, now, fallback);
    forall l | IsLoopOf(w', l, job.id) ensures LoopAgrees(w'.rows, job, w'.loops[l]) {
      assert IsLoopOf(w, l, job.id) && LoopAgrees(w.rows, job, w.loops[l]);
      if effect.Advances? {
        UndisturbedAgrees(w.rows, w'.rows, job, w.loops[l], None);
      } else if effect.Skipping? && !Refused(w.rows, job.id, effect.at) {
        UndisturbedAgrees(w.rows, w'.rows, job, w.loops[l], Some(effect.at));
      } else if NextOf(w'.rows, job.id).None? {
        EndedAgrees(w.rows, w'.rows, job);
      } else {
        AgreementKept(w.rows, w'.rows, job);
      }
    }
  }

  lemma WriteKeeps(w: World, w': World, job: Job, S: iset<int>, settled: Option<SchedulerState>)
    requires LockFor(w, job.id).Loaded? && CursorInvariant(w, job, S) && Recurring(job.schedule, S)
    requires WritesTo(w.lock.existing, w.rows, w.lock.job, S, BuildPlan(w.lock.job.schedule, w.lock.now), w.lock.now,
                      w.lock.fallback, w'.rows, settled)
    requires w' == w.(rows := w'.rows, lock := Settled(w.lock.job, true, settled))
    ensures CursorInvariant(w', job, S) && CursorRises(w.rows, w'.rows, job.id, false)
  {
    WrittenStateOk(w.lock.existing, w.rows, job, w.lock.job, S, w.lock.now, w.lock.fallback, w'.rows, settled);
    WriteKeepsLoops(w, w', job, S, settled);
    SameLoops(w, w', job.id);
  }

  lemma WriteRaises(w: World, e: Event, w': World, job: Job, S: iset<int>)
    requires e.Write? && !LockFor(w, job.id).Free? && Step(w, e, w') && Orderly(w, e, job, S)
    requires CursorInvariant(w, job, S) && Recurring(job.schedule, S)
    ensures CursorInvariant(w', job, S)
    ensures CursorRises(w.rows, w'.rows, job.id, false)
  {
    var j, now, plan := w.lock.job, w.lock.now, BuildPlan(w.lock.job.schedule, w.lock.now);
    var settled :| WritesTo(w.lock.existing, w.rows, j, S, plan, now, w.lock.fallback, w'.rows, settled)
                   && w' == w.(rows := w'.rows, lock := Settled(j, plan.Planned?, settled));
    WriteKeeps(w, w', job, S, settled);
  }

  lemma ReleaseKeeps(w: World, e: Event, w': World, job: Job, S: iset<int>)
    requires e.Release? && !LockFor(w, job.id).Free? && Step(w, e, w') && CursorInvariant(w, job, S)
    ensures CursorInvariant(w', job, S)
  {
    SameLoops(w, w', job.id);
  }

  lemma AbandonKeeps(w: World, e: Event, w': World, job: Job, S: iset<int>)
    requires e.Abandon? && LockFor(w, job.id).Loaded? && Step(w, e, w') && CursorInvariant(w, job, S)
    ensures CursorInvariant(w', job, S)
  {
    SameLoops(w, w', job.id);
  }

  /** The registration goes, with or without the cursor, or all of the memory. */
  lemma RemovalKeeps(w: World, e: Event, w': World, job: Job, S: iset<int>)
    requires (e.Unregister? && e.id == job.id) || (e.Drop? && e.id == job.id) || e.Restart?
    requires Step(w, e, w') && CursorInvariant(w, job, S)
    ensures CursorInvariant(w', job, S)
    ensures CursorRises(w.rows, w'.rows, job.id, false)
  {
    forall l | IsLoopOf(w', l, job.id) ensures LoopAgrees(w'.rows, job, w'.loops[l]) {
      assert IsLoopOf(w, l, job.id);
      if e.Unregister? {
        EndedAgrees(w.rows, w'.rows, job);
      }
    }
    forall k, l | IsLoopOf(w', k, job.id) && IsLoopOf(w', l, job.id) ensures k == l {
      assert IsLoopOf(w, k, job.id) && IsLoopOf(w, l, job.id);
    }
  }

  // ----- every orderly step -----

  lemma StepRaisesCursor(w: World, e: Event, w': World, job: Job, S: iset<int>)
    requires Recurring(job.schedule, S)
    requires Step(w, e, w') && Orderly(w, e, job, S) && CursorInvariant(w, job, S)
    ensures CursorInvariant(w', job, S)
    ensures CursorRises(w.rows, w'.rows, job.id, GrantsClaim(w, e, job.id))
  {
    if !ActsOn(w, e, job.id) {
      OthersActElsewhere(w, e, w', job.id);
      StepKeepsRuns(w, e, w');
      ElsewhereKeepsInvariant(w, w', job, S);
    } else {
      match e {
        case Begin(_, _) => BeginKeeps(w, e, w', job, S);
        case ClaimFire(_, _, _) => ClaimRaises(w, e, w', job, S);
        case ClaimError(l) => EndKeeps(w, l, w', job, S);
        case Publish(_) => PublishKeeps(w, e, w', job, S);
        case HandOver(_) => HandOverKeeps(w, e, w', job, S);
        case Finish(l) => EndKeeps(w, l, w', job, S);
        case Defer(_, _) => DeferRaises(w, e, w', job, S);
        case ReadBack(_) => ReadBackKeeps(w, e, w', job, S);
        case Load(_, _, _) => LoadKeeps(w, e, w', job, S);
        case Write(_) => WriteRaises(w, e, w', job, S);
        case Release => ReleaseKeeps(w, e, w', job, S);
        case Abandon => AbandonKeeps(w, e, w', job, S);
        case Unregister(_) => RemovalKeeps(w, e, w', job, S);
        case Drop(_) => RemovalKeeps(w, e, w', job, S);
        case Restart => RemovalKeeps(w, e, w', job, S);
      }
    }
  }

  // ----- orderly runs -----

  ghost predicate OrderlyRun(ws: seq<World>, es: seq<Event>, job: Job, S: iset<int>) {
    && IsRun(ws, es) && Recurring(job.schedule, S)
    && StoredCursorOk(ws[0].rows, job)
    && forall i :: 0 <= i < |es| ==> Orderly(ws[i], es[i], job, S)
  }

  lemma {:induction false} CursorInvariantAlways(ws: seq<World>, es: seq<Event>, job: Job, S: iset<int>, i: nat)
    requires OrderlyRun(ws, es, job, S) && i < |ws|
    ensures CursorInvariant(ws[i], job, S)
  {
    if i > 0 {
      CursorInvariantAlways(ws, es, job, S, i - 1);
      assert StepAt(ws, es, i - 1);
      StepRaisesCursor(ws[i - 1], es[i - 1], ws[i], job, S);
    }
  }

  ghost predicate GrantedBetween(ws: seq<World>, es: seq<Event>, id: string, i: nat, j: nat)
    requires i <= j <= |es| && |ws| == |es| + 1
  {
    exists k :: i <= k < j && GrantsClaim(ws[k], es[k], id)
  }

  /** From i to j the cursor was always stored and had not ended. */
  ghost predicate CursorLasts(ws: seq<World>, id: string, i: nat, j: nat) {
    forall k :: i <= k <= j && k < |ws| ==> NextOf(ws[k].rows, id).Some?
  }

  lemma RisesTransitive(a: Rows, b: Rows, c: Rows, id: string, first: bool, second: bool)
    requires CursorRises(a, b, id, first) && CursorRises(b, c, id, second) && NextOf(b, id).Some?
    ensures CursorRises(a, c, id, first || second)
  {
  }

  /** Over a run with one loop, an unchanged schedule and reconciliations that were safe when
      they started, the stored cursor of the job never decreases while it lasts, and a granted
      claim raises it strictly. */
  lemma {:induction false} CursorNeverDecreases(ws: seq<World>, es: seq<Event>, job: Job, S: iset<int>, i: nat, j: nat)
    requires OrderlyRun(ws, es, job, S) && i <= j < |ws| && CursorLasts(ws, job.id, i, j)
    ensures CursorRises(ws[i].rows, ws[j].rows, job.id, GrantedBetween(ws, es, job.id, i, j))
    decreases j
  {
    if i < j {
      var m := j - 1;
      CursorNeverDecreases(ws, es, job, S, i, m);
      CursorInvariantAlways(ws, es, job, S, m);
      assert StepAt(ws, es, m);
      StepRaisesCursor(ws[m], es[m], ws[j], job, S);
      RisesTransitive(ws[i].rows, ws[m].rows, ws[j].rows, job.id,
                      GrantedBetween(ws, es, job.id, i, m), GrantsClaim(ws[m], es[m], job.id));
      assert GrantedBetween(ws, es, job.id, i, j) ==>
        GrantedBetween(ws, es, job.id, i, m) || GrantsClaim(ws[m], es[m], job.id);
    }
  }

  // ----- an unsafe reconciliation lets the cursor go back -----

  /** The latest missed run exists. */
  lemma {:induction false} LatestCron(S: iset<int>, low: int, high: int) returns (latest: Option<int>)
    ensures match latest
            case Some(t) => t in S && low < t <= high && forall s :: s in S && low < s <= high ==> s <= t
            case None => forall s :: s in S ==> !(low < s <= high)
    decreases high - low
  {
    if high <= low {
      latest := None;
    } else if high in S {
      latest := Some(high);
    } else {
      latest := LatestCron(S, low, high - 1);
    }
  }

  lemma LatestMissed(schedule: Schedule, S: iset<int>, missedAt: int, now: int) returns (latest: int)
    requires Recurring(schedule, S) && missedAt <= now
    ensures IsLatestMissed(schedule, S, missedAt, now, latest)
  {
    match schedule {
      case Every(interval) =>
        var k: nat := (now - missedAt) / interval;
        DivisionBounds(now - missedAt, interval);
        latest := missedAt + k * interval;
      case Cron(_, valid) =>
        var found := LatestCron(S, missedAt - SECOND, now);
        latest := if valid && found.Some? then found.value else missedAt;
    }
  }

  /** A reconciliation always has something to write. */
  lemma SomeWrite(existing: Option<SchedulerState>, rows: Rows, job: Job, S: iset<int>, now: int, fallback: Policy)
    returns (rows': Rows, settled: Option<SchedulerState>)
    requires Recurring(job.schedule, S) && BuildPlan(job.schedule, now).Planned?
    ensures WritesTo(existing, rows, job, S, BuildPlan(job.schedule, now), now, fallback, rows', settled)
  {
    var plan := BuildPlan(job.schedule, now);
    var entering := Entering(existing, job, plan, fallback);
    if entering.nextRunAt.None? {
      rows', settled := AfterSave(rows, job.id, entering.(nextRunAt := NextRunOf(plan))), None;
    } else if entering.nextRunAt.value > now {
      rows', settled := rows, Some(entering);
    } else {
      var c := entering.nextRunAt.value;
      var latest := LatestMissed(job.schedule, S, c, now);
      var touched :=
        entering.(lastMisfireAt := Some(now), misfireCount := entering.misfireCount + 1, resumeFailures := 0);
      if entering.policy != Replay && Skips(entering, c, now) {
        var missed :=
          touched.(nextRunAt := NextRunAfterMissed(job.schedule, c, now), lastScheduledAt := Some(c));
        assert Reconciled(job.schedule, S, entering, now, missed, true);
        var (rows1, r) := AfterClaim(rows, MakeSkipClaim(job, c, missed, now), false);
        rows', settled := rows1, if r.Skipped? then Some(r.state) else None;
      } else {
        var missed := if entering.policy == Replay then touched.(nextRunAt := Some(c), lastScheduledAt := None)
                      else touched.(nextRunAt := Some(latest), lastScheduledAt := Some(latest));
        assert Reconciled(job.schedule, S, entering, now, missed, false);
        rows', settled := AfterSave(rows, job.id, missed), None;
      }
    }
  }

  /** A step of a loop, or of the reconciliation under way, without a fault. */
  ghost predicate GoesOn(ws: seq<World>, es: seq<Event>, job: Job, S: iset<int>, i: nat)
    requires i < |es| && |ws| == |es| + 1
  {
    && StepAt(ws, es, i) && Orderly(ws[i], es[i], job, S) && NoFault(es[i])
  }

  ghost predicate NoFault(e: Event) {
    || e.Begin? || e.ClaimFire? || e.Publish? || e.HandOver? || e.Defer? || e.ReadBack? || e.Write? || e.Release?
  }

  /** Such steps from w on, the last of which puts the cursor back or claims without raising it. */
  ghost predicate Lowers(w: World, ws: seq<World>, es: seq<Event>, job: Job, S: iset<int>) {
    && |ws| == |es| + 1 && es != [] && ws[0] == w && (forall i :: 0 <= i < |es| ==> GoesOn(ws, es, job, S, i))
    && var n := |es| - 1; !CursorRises(ws[n].rows, ws[n + 1].rows, job.id, GrantsClaim(ws[n], es[n], job.id))
  }

  lemma LastLowers(w: World, e: Event, w': World, job: Job, S: iset<int>) returns (ws: seq<World>, es: seq<Event>)
    requires Step(w, e, w') && Orderly(w, e, job, S) && NoFault(e)
    requires !CursorRises(w.rows, w'.rows, job.id, GrantsClaim(w, e, job.id))
    ensures Lowers(w, ws, es, job, S)
  {
    ws, es := [w, w'], [e];
    assert GoesOn(ws, es, job, S, 0);
  }

  lemma OneMoreBefore(w: World, e: Event, w': World, ws: seq<World>, es: seq<Event>, job: Job, S: iset<int>)
    returns (ws': seq<World>, es': seq<Event>)
    requires Lowers(w', ws, es, job, S) && Step(w, e, w') && Orderly(w, e, job, S) && NoFault(e)
    ensures Lowers(w, ws', es', job, S)
  {
    ws', es' := [w] + ws, [e] + es;
    forall i | 0 <= i < |es'| ensures GoesOn(ws', es', job, S, i) {
      if i > 0 {
        assert GoesOn(ws, es, job, S, i - 1);
      }
    }
  }

  /** A claim of a fire from which the next run does not lie beyond the stored cursor. */
  lemma ClaimLowers(w: World, l: nat, job: Job, S: iset<int>, c: int) returns (ws: seq<World>, es: seq<Event>)
    requires IsLoopOf(w, l, job.id) && w.loops[l].Pending?
    requires Unchanged(w.loops[l].registration.job, job) && w.loops[l].registration.state.nextRunAt == Some(c)
    requires !Refused(w.rows, job.id, c) && NextRunAfter(job.schedule, c).Some?
    requires NextOf(w.rows, job.id).Some? && NextRunAfter(job.schedule, c).value <= NextOf(w.rows, job.id).value
    ensures Lowers(w, ws, es, job, S)
  {
    var registration := w.loops[l].registration;
    var claim := MakeClaim(registration, c);
    var (rows, r) := AfterClaim(w.rows, claim, false);
    var w' := w.(rows := rows, loops := w.loops[l := AfterClaimEvent(registration, claim, r)]);
    ws, es := LastLowers(w, ClaimFire(l, c, false), w', job, S);
  }

  /** A loop that publishes a state still pointing at c, and claims there next. */
  lemma PublishedLowers(w: World, l: nat, job: Job, S: iset<int>, c: int) returns (ws: seq<World>, es: seq<Event>)
    requires w.lock.Free? && IsLoopOf(w, l, job.id) && w.loops[l].Claimed? && w.loops[l].fire.None?
    requires OneLoop(w, job.id) && job.id in w.registrations && w.loops[l].state.nextRunAt == Some(c)
    requires w.registrations[job.id].job.id == job.id && Unchanged(w.registrations[job.id].job, job)
    requires !Refused(w.rows, job.id, c) && NextRunAfter(job.schedule, c).Some?
    requires NextOf(w.rows, job.id).Some? && NextRunAfter(job.schedule, c).value <= NextOf(w.rows, job.id).value
    ensures Lowers(w, ws, es, job, S)
  {
    var registration := w.registrations[job.id].(state := w.loops[l].state);
    var published := w.(registrations := w.registrations[job.id := registration], loops := w.loops - {l});
    var begun := published.(loops := published.loops[l := Pending(registration)]);
    assert NoLoop(published, job.id) by {
      forall k ensures !IsLoopOf(published, k, job.id) {
        assert IsLoopOf(published, k, job.id) ==> IsLoopOf(w, k, job.id);
      }
    }
    ws, es := ClaimLowers(begun, l, job, S, c);
    ws, es := OneMoreBefore(published, Begin(l, job.id), begun, ws, es, job, S);
    ws, es := OneMoreBefore(w, Publish(l), published, ws, es, job, S);
  }

  /** The state of a loop that holds or held a fire can be deferred to c. */
  ghost predicate DefersTo(state: SchedulerState, c: int) {
    state.nextRunAt.Some? ==> state.nextRunAt.value <= c
  }

  /** A loop whose fire was handed over can be deferred to before the cursor. */
  lemma DeferLowers(w: World, l: nat, job: Job, S: iset<int>, c: int) returns (ws: seq<World>, es: seq<Event>)
    requires IsLoopOf(w, l, job.id) && w.loops[l].Handed? && DefersTo(w.loops[l].state, c)
    requires NextOf(w.rows, job.id).Some? && c < NextOf(w.rows, job.id).value
    ensures Lowers(w, ws, es, job, S)
  {
    var state := DeferredState(w.loops[l].state, c);
    var w' := w.(rows := AfterSave(w.rows, job.id, state), loops := w.loops[l := Saved(job.id)]);
    ws, es := LastLowers(w, Defer(l, c), w', job, S);
  }

  lemma HandOverLowers(w: World, l: nat, job: Job, S: iset<int>, c: int) returns (ws: seq<World>, es: seq<Event>)
    requires IsLoopOf(w, l, job.id) && w.loops[l].ToHand? && DefersTo(w.loops[l].state, c)
    requires NextOf(w.rows, job.id).Some? && c < NextOf(w.rows, job.id).value
    ensures Lowers(w, ws, es, job, S)
  {
    var w' := w.(handed := w.handed + [w.loops[l].due], loops := w.loops[l := Handed(job.id, w.loops[l].state)]);
    ws, es := DeferLowers(w', l, job, S, c);
    ws, es := OneMoreBefore(w, HandOver(l), w', ws, es, job, S);
  }

  /** The same from the publication of a claimed fire on. */
  lemma HoldingLowers(w: World, l: nat, job: Job, S: iset<int>, c: int) returns (ws: seq<World>, es: seq<Event>)
    requires w.lock.Free? && IsLoopOf(w, l, job.id) && w.loops[l].Claimed? && w.loops[l].fire.Some?
    requires DefersTo(w.loops[l].state, c)
    requires NextOf(w.rows, job.id).Some? && c < NextOf(w.rows, job.id).value
    ensures Lowers(w, ws, es, job, S)
  {
    var loop := w.loops[l];
    var w' := w.(registrations := AfterUpdate(w.registrations, job.id, loop.state),
                 loops := w.loops[l := ToHand(job.id, loop.state, loop.fire.value)]);
    ws, es := HandOverLowers(w', l, job, S, c);
    ws, es := OneMoreBefore(w, Publish(l), w', ws, es, job, S);
  }

  /** The job's cursor c was loaded, and nothing was written since. */
  ghost predicate LoadedAt(w: World, job: Job, S: iset<int>, c: int) {
    && LockFor(w, job.id).Loaded? && CursorOf(w.rows, job.id) == w.lock.existing && NextOf(w.rows, job.id) == Some(c)
    && Unchanged(w.lock.job, job) && Recurring(job.schedule, S) && BuildPlan(job.schedule, w.lock.now).Planned?
    && StoredCursorOk(w.rows, job)
  }

  ghost function LoadedEffect(w: World, S: iset<int>): Effect
    requires w.lock.Loaded?
  {
    EffectOf(w.lock.existing, w.lock.job, S, w.lock.now, w.lock.fallback)
  }

  /** The reconciliation runs to its end without a loop in between. */
  lemma Completes(w: World, job: Job, S: iset<int>, c: int) returns (written: World, released: World)
    requires LoadedAt(w, job, S, c)
    requires LoadedEffect(w, S).Advances? || (LoadedEffect(w, S) == Skipping(c) && Fire(job.id, c) !in w.rows.runs)
    ensures Step(w, Write(S), written) && Step(written, Release, released)
    ensures released.lock.Free? && released.rows == written.rows && released.loops == w.loops
    ensures job.id in released.registrations && released.registrations[job.id].job == w.lock.job
    ensures NextOf(released.rows, job.id).Some? && c < NextOf(released.rows, job.id).value
    ensures LoadedEffect(w, S).Advances? ==>
      && NextRunAfter(job.schedule, c).Some?
      && NextRunAfter(job.schedule, c).value <= NextOf(released.rows, job.id).value
      && (Fire(job.id, c) !in w.rows.runs ==> !Refused(released.rows, job.id, c))
  {
    var j, now, fallback, existing := w.lock.job, w.lock.now, w.lock.fallback, w.lock.existing;
    var rows, settled := SomeWrite(existing, w.rows, j, S, now, fallback);
    WrittenCursor(existing, w.rows, j, S, now, fallback, rows, settled);
    WrittenStateOk(existing, w.rows, job, j, S, now, fallback, rows, settled);
    written := w.(rows := rows, lock := Settled(j, true, settled));
    var state := Settling(rows, j.id, settled).value;
    released := written.(registrations := written.registrations[j.id := Registration(j, state)], lock := Free);
  }

  /** What a loop in flight that is disturbed does after the cursor moved on. */
  lemma DisturbedLowers(w: World, l: nat, job: Job, S: iset<int>, c: int) returns (ws: seq<World>, es: seq<Event>)
    requires LoadedAt(w, job, S, c) && OneLoop(w, job.id) && IsLoopOf(w, l, job.id)
    requires LoopAgrees(w.rows, job, w.loops[l]) && !w.loops[l].Saved?
    requires (LoadedEffect(w, S).Advances? && !Undisturbed(w.rows, job.id, w.loops[l], None))
             || (LoadedEffect(w, S) == Skipping(c) && Fire(job.id, c) !in w.rows.runs
                 && !Undisturbed(w.rows, job.id, w.loops[l], Some(c)))
    ensures Lowers(w, ws, es, job, S)
  {
    var written, released := Completes(w, job, S, c);
    SameLoops(w, released, job.id);
    match w.loops[l] {
      case Pending(_) => ws, es := ClaimLowers(released, l, job, S, c);
      case Claimed(_, _, None) => ws, es := PublishedLowers(released, l, job, S, c);
      case Claimed(_, _, Some(_)) => ws, es := HoldingLowers(released, l, job, S, c);
      case ToHand(_, _, _) => ws, es := HandOverLowers(released, l, job, S, c);
      case Handed(_, _) => ws, es := DeferLowers(released, l, job, S, c);
    }
    ws, es := OneMoreBefore(written, Release, released, ws, es, job, S);
    ws, es := OneMoreBefore(w, Write(S), written, ws, es, job, S);
  }

  /** A loop that saved a deferred cursor reads it back before the cursor moves on. */
  lemma SavedLowers(w: World, l: nat, job: Job, S: iset<int>, c: int) returns (ws: seq<World>, es: seq<Event>)
    requires LoadedAt(w, job, S, c) && OneLoop(w, job.id) && IsLoopOf(w, l, job.id) && w.loops[l].Saved?
    requires LoadedEffect(w, S).Advances? && !Undisturbed(w.rows, job.id, w.loops[l], None)
    ensures Lowers(w, ws, es, job, S)
  {
    var w' := w.(loops := w.loops[l := Claimed(job.id, w.rows.cursors[job.id], None)]);
    assert Replaced(w, w', l);
    OnlyLoopReplaced(w, w', l, job);
    ws, es := DisturbedLowers(w', l, job, S, c);
    ws, es := OneMoreBefore(w, ReadBack(l), w', ws, es, job, S);
  }

  /** The loaded cursor is saved over a cursor that a loop has moved meanwhile. */
  lemma WriteOverLowers(w: World, job: Job, S: iset<int>, c: int) returns (ws: seq<World>, es: seq<Event>)
    requires LockFor(w, job.id).Loaded? && Unchanged(w.lock.job, job) && Recurring(job.schedule, S)
    requires BuildPlan(job.schedule, w.lock.now).Planned?
    requires w.lock.existing.Some? && w.lock.existing.value.hash == job.hash
    requires w.lock.existing.value.nextRunAt == Some(c)
    requires LoadedEffect(w, S).Rewrites? || LoadedEffect(w, S).Retreats?
    requires NextOf(w.rows, job.id).Some?
    requires c < NextOf(w.rows, job.id).value || (LoadedEffect(w, S).Retreats? && c == NextOf(w.rows, job.id).value)
    ensures Lowers(w, ws, es, job, S)
  {
    var j, now, fallback, existing := w.lock.job, w.lock.now, w.lock.fallback, w.lock.existing;
    var rows, settled := SomeWrite(existing, w.rows, j, S, now, fallback);
    WrittenCursor(existing, w.rows, j, S, now, fallback, rows, settled);
    ws, es := LastLowers(w, Write(S), w.(rows := rows, lock := Settled(j, true, settled)), job, S);
  }

  /** A claim between the load and the write is undone by the write. */
  lemma ClaimIsOverwritten(w: World, l: nat, job: Job, S: iset<int>, c: int) returns (ws: seq<World>, es: seq<Event>)
    requires LoadedAt(w, job, S, c) && LoadedEffect(w, S).Rewrites? && IsLoopOf(w, l, job.id) && w.loops[l].Pending?
    requires LoopAgrees(w.rows, job, w.loops[l]) && MayWrite(w.rows, job.id, w.loops[l])
    ensures Lowers(w, ws, es, job, S)
  {
    var registration := w.loops[l].registration;
    var claim := MakeClaim(registration, c);
    var (rows, r) := AfterClaim(w.rows, claim, false);
    var loop := AfterClaimEvent(registration, claim, r);
    var w' := w.(rows := rows, loops := w.loops[l := loop]);
    if NextRunAfter(job.schedule, c).Some? {
      if job.schedule.Cron? {
        assert IsLeastAbove(S, c, job.schedule.next(c).value);
      }
      ws, es := WriteOverLowers(w', job, S, c);
    } else {
      ws, es := RevivedLowers(w', l, job, S, c);
    }
    ws, es := OneMoreBefore(w, ClaimFire(l, c, false), w', ws, es, job, S);
  }

  /** The claim of the last fire ended the cursor; the write brings it back, and a deferral
      from the end puts it lower. */
  lemma RevivedLowers(w: World, l: nat, job: Job, S: iset<int>, c: int) returns (ws: seq<World>, es: seq<Event>)
    requires LockFor(w, job.id).Loaded? && Unchanged(w.lock.job, job) && Recurring(job.schedule, S)
    requires BuildPlan(job.schedule, w.lock.now).Planned? && LoadedEffect(w, S).Rewrites?
    requires w.lock.existing.Some? && w.lock.existing.value.hash == job.hash
    requires w.lock.existing.value.nextRunAt == Some(c)
    requires IsLoopOf(w, l, job.id) && w.loops[l].Claimed? && w.loops[l].fire.Some?
    requires w.loops[l].state.nextRunAt.None?
    ensures Lowers(w, ws, es, job, S)
  {
    var j, now, fallback, existing := w.lock.job, w.lock.now, w.lock.fallback, w.lock.existing;
    var rows, settled := SomeWrite(existing, w.rows, j, S, now, fallback);
    WrittenCursor(existing, w.rows, j, S, now, fallback, rows, settled);
    var written := w.(rows := rows, lock := Settled(j, true, settled));
    var registration := Registration(j, Settling(rows, j.id, settled).value);
    var released := written.(registrations := written.registrations[j.id := registration], lock := Free);
    ws, es := HoldingLowers(released, l, job, S, c - 1);
    ws, es := OneMoreBefore(written, Release, released, ws, es, job, S);
    ws, es := OneMoreBefore(w, Write(S), written, ws, es, job, S);
  }

  /** A deferral between the load and the write is undone by the write. */
  lemma DeferralIsOverwritten(w: World, l: nat, job: Job, S: iset<int>, c: int)
    returns (ws: seq<World>, es: seq<Event>)
    requires LoadedAt(w, job, S, c) && LoadedEffect(w, S).Rewrites? && IsLoopOf(w, l, job.id) && w.loops[l].Handed?
    requires LoopAgrees(w.rows, job, w.loops[l])
    ensures Lowers(w, ws, es, job, S)
  {
    var state := DeferredState(w.loops[l].state, c + 1);
    var w' := w.(rows := AfterSave(w.rows, job.id, state), loops := w.loops[l := Saved(job.id)]);
    ws, es := WriteOverLowers(w', job, S, c);
    ws, es := OneMoreBefore(w, Defer(l, c + 1), w', ws, es, job, S);
  }

  lemma HandedIsOverwritten(w: World, l: nat, job: Job, S: iset<int>, c: int) returns (ws: seq<World>, es: seq<Event>)
    requires LoadedAt(w, job, S, c) && LoadedEffect(w, S).Rewrites? && IsLoopOf(w, l, job.id)
    requires LoopAgrees(w.rows, job, w.loops[l]) && MayWrite(w.rows, job.id, w.loops[l])
    ensures Lowers(w, ws, es, job, S)
  {
    match w.loops[l] {
      case Pending(_) => ws, es := ClaimIsOverwritten(w, l, job, S, c);
      case Handed(_, _) => ws, es := DeferralIsOverwritten(w, l, job, S, c);
      case ToHand(_, state, due) =>
        var w' := w.(handed := w.handed + [due], loops := w.loops[l := Handed(job.id, state)]);
        ws, es := DeferralIsOverwritten(w', l, job, S, c);
        ws, es := OneMoreBefore(w, HandOver(l), w', ws, es, job, S);
    }
  }

  /** Any reconciliation of a stored cursor that is not safe when it starts can go on so that the
      cursor goes back, or a claim is granted that does not raise it, without a fault and with
      everything else in order. */
  lemma UnsafeReconcileLowers(w: World, j: Job, now: int, fallback: Policy, job: Job, S: iset<int>)
    returns (loaded: World, ws: seq<World>, es: seq<Event>)
    requires w.lock.Free? && j.id == job.id && Unchanged(j, job) && !BuildPlan(j.schedule, now).Invalid?
    requires Recurring(job.schedule, S) && CursorInvariant(w, job, S)
    requires NextOf(w.rows, job.id).Some? && !ReconcileIsSafe(w, j, S, now, fallback)
    ensures Step(w, Load(j, now, fallback), loaded) && Lowers(loaded, ws, es, job, S)
  {
    var c := NextOf(w.rows, job.id).value;
    loaded := w.(lock := Loaded(j, now, fallback, CursorOf(w.rows, job.id)));
    SameLoops(w, loaded, job.id);
    match EffectOf(CursorOf(w.rows, job.id), j, S, now, fallback) {
      case Retreats => ws, es := WriteOverLowers(loaded, job, S, c);
      case Rewrites =>
        var l :| IsLoopOf(w, l, job.id) && MayWrite(w.rows, job.id, w.loops[l]);
        ws, es := HandedIsOverwritten(loaded, l, job, S, c);
      case Skipping(_) =>
        var l :| IsLoopOf(w, l, job.id) && !Undisturbed(w.rows, job.id, w.loops[l], Some(c));
        ws, es := DisturbedLowers(loaded, l, job, S, c);
      case Advances =>
        var l :| IsLoopOf(w, l, job.id) && !Undisturbed(w.rows, job.id, w.loops[l], None);
        if w.loops[l].Saved? {
          ws, es := SavedLowers(loaded, l, job, S, c);
        } else {
          ws, es := DisturbedLowers(loaded, l, job, S, c);
        }
    }
  }

  // ----- runs in which the cursor goes back -----

  lemma RunGoesOn(ws: seq<World>, es: seq<Event>, e: Event, w: World) returns (ws': seq<World>, es': seq<Event>)
    requires IsRun(ws, es) && Step(ws[|es|], e, w)
    ensures IsRun(ws', es') && ws' == ws + [w] && es' == es + [e] && ws'[|es'|] == w
  {
    RunGrows(ws, es, e, w);
    ws', es' := ws + [w], es + [e];
  }

  /** A reconciliation that nothing interrupts. */
  lemma RunReconciles(ws: seq<World>, es: seq<Event>, job: Job, S: iset<int>, now: int, fallback: Policy,
                      rows: Rows, settled: Option<SchedulerState>)
    returns (ws': seq<World>, es': seq<Event>)
    requires IsRun(ws, es) && ws[|es|].lock.Free? && BuildPlan(job.schedule, now).Planned?
    requires WritesTo(CursorOf(ws[|es|].rows, job.id), ws[|es|].rows, job, S, BuildPlan(job.schedule, now), now,
                      fallback, rows, settled)
    requires Settling(rows, job.id, settled).Some?
    ensures IsRun(ws', es') && es' == es + [Load(job, now, fallback), Write(S), Release] && ws'[..|ws|] == ws
    ensures var w := ws[|es|]; var registration := Registration(job, Settling(rows, job.id, settled).value);
      ws'[|es'|] == w.(rows := rows, registrations := w.registrations[job.id := registration])
  {
    var w := ws[|es|];
    var loaded := w.(lock := Loaded(job, now, fallback, CursorOf(w.rows, job.id)));
    var written := w.(rows := rows, lock := Settled(job, true, settled));
    var registration := Registration(job, Settling(rows, job.id, settled).value);
    var released := w.(rows := rows, registrations := w.registrations[job.id := registration]);
    ws', es' := RunGoesOn(ws, es, Load(job, now, fallback), loaded);
    ws', es' := RunGoesOn(ws', es', Write(S), written);
    ws', es' := RunGoesOn(ws', es', Release, released);
  }

  const EVERY_TEN: Job := Job("job", Every(10), "hash", Some(Coalesce), 0, true)

  function PlainState(at: int): SchedulerState {
    SchedulerState(Some(at), None, None, None, "hash", Coalesce, 0, None, 0, 0)
  }

  /** The loop of a registered job has read its registration. */
  function Begun(): World {
    var registration := Registration(EVERY_TEN, PlainState(0));
    World(Rows(map["job" := PlainState(0)], map[]), map["job" := registration], map[0 := Pending(registration)], [],
          Free)
  }

  lemma ReachBegun(S: iset<int>) returns (ws: seq<World>, es: seq<Event>)
    ensures IsRun(ws, es) && |es| == 4 && ws[4] == Begun()
  {
    var w0 := Begun().(loops := map[], registrations := map[]);
    ws, es := RunReconciles([w0], [], EVERY_TEN, S, -1, Coalesce, w0.rows, Some(PlainState(0)));
    ws, es := RunGoesOn(ws, es, Begin(0, "job"), Begun());
  }

  /** The loop claims with the registration it read, whatever is stored by now. */
  function ClaimedFrom(w: World, claimedAt: int): World
    requires 0 in w.loops && w.loops[0] == Begun().loops[0]
  {
    var claim := MakeClaim(w.loops[0].registration, claimedAt);
    var (rows, r) := AfterClaim(w.rows, claim, false);
    w.(rows := rows, loops := w.loops[0 := AfterClaimEvent(w.loops[0].registration, claim, r)])
  }

  lemma ClaimPutsToTen(w: World, claimedAt: int)
    requires w.loops == Begun().loops && w.rows.runs == map[]
    requires "job" in w.rows.cursors && w.rows.cursors["job"].lastFire.None?
    ensures Step(w, ClaimFire(0, claimedAt, false), ClaimedFrom(w, claimedAt))
    ensures GrantsClaim(w, ClaimFire(0, claimedAt, false), "job")
    ensures NextOf(ClaimedFrom(w, claimedAt).rows, "job") == Some(10) && ClaimedFrom(w, claimedAt).loops.Keys == {0}
  {
  }

  /** The cursor is coalesced to 100. */
  function Coalesced(): World {
    var moved := PlainState(0).(nextRunAt := Some(100), lastScheduledAt := Some(100), lastMisfireAt := Some(100),
                                misfireCount := 1);
    Begun().(rows := AfterSave(Begun().rows, "job", moved),
             registrations := map["job" := Registration(EVERY_TEN, moved)])
  }

  lemma CoalescingIsUnsafe(S: iset<int>)
    ensures WritesTo(CursorOf(Begun().rows, "job"), Begun().rows, EVERY_TEN, S, BuildPlan(Every(10), 100), 100,
                     Coalesce, Coalesced().rows, None)
    ensures !ReconcileIsSafe(Begun(), EVERY_TEN, S, 100, Coalesce)
  {
    assert 100 == 0 + 10 * 10;
    assert Reconciled(Every(10), S, PlainState(0), 100, Coalesced().registrations["job"].state, false);
    assert IsLoopOf(Begun(), 0, "job") && !Undisturbed(Begun().rows, "job", Begun().loops[0], None);
  }

  /** One loop throughout: it has read the cursor 0, a reconciliation at 100 coalesces the
      cursor to 100, and the claim of the loop is granted and puts it to 10. */
  lemma LateReconcileLowersCursor(S: iset<int>) returns (ws: seq<World>, es: seq<Event>)
    ensures IsRun(ws, es) && |es| == 8 && ws[4] == Begun() && ws[7].loops == Begun().loops
    ensures es[4..] == [Load(EVERY_TEN, 100, Coalesce), Write(S), Release, ClaimFire(0, 100, false)]
    ensures !ReconcileIsSafe(ws[4], EVERY_TEN, S, 100, Coalesce) && GrantsClaim(ws[7], es[7], "job")
    ensures NextOf(ws[7].rows, "job") == Some(100) && NextOf(ws[8].rows, "job") == Some(10)
  {
    ws, es := ReachBegun(S);
    CoalescingIsUnsafe(S);
    ws, es := RunReconciles(ws, es, EVERY_TEN, S, 100, Coalesce, Coalesced().rows, None);
    ClaimPutsToTen(Coalesced(), 100);
    ws, es := RunGoesOn(ws, es, ClaimFire(0, 100, false), ClaimedFrom(Coalesced(), 100));
  }

  /** A reconciliation at 5 has loaded the cursor 0, due and the latest. */
  function LoadedAtFive(): World {
    Begun().(lock := Loaded(EVERY_TEN, 5, Coalesce, Some(PlainState(0))))
  }

  /** It saves the cursor where it was loaded. */
  function SavedAtFive(): World {
    var saved := PlainState(0).(lastScheduledAt := Some(0), lastMisfireAt := Some(5), misfireCount := 1);
    var claimed := ClaimedFrom(LoadedAtFive(), 5);
    claimed.(rows := AfterSave(claimed.rows, "job", saved), lock := Settled(EVERY_TEN, true, None))
  }

  lemma RewritingIsUnsafe(S: iset<int>)
    ensures EffectOf(CursorOf(Begun().rows, "job"), EVERY_TEN, S, 5, Coalesce).Rewrites?
    ensures !ReconcileIsSafe(Begun(), EVERY_TEN, S, 5, Coalesce)
    ensures Step(ClaimedFrom(LoadedAtFive(), 5), Write(S), SavedAtFive())
  {
    assert IsLoopOf(Begun(), 0, "job") && MayWrite(Begun().rows, "job", Begun().loops[0]);
    assert 0 == 0 + 0 * 10;
    assert Reconciled(Every(10), S, PlainState(0), 5, SavedAtFive().rows.cursors["job"], false);
    assert WritesTo(Some(PlainState(0)), ClaimedFrom(LoadedAtFive(), 5).rows, EVERY_TEN, S, BuildPlan(Every(10), 5), 5,
                    Coalesce, SavedAtFive().rows, None);
  }

  lemma ReachClaimedAtFive(S: iset<int>) returns (ws: seq<World>, es: seq<Event>)
    ensures IsRun(ws, es) && |es| == 6 && ws[4..] == [Begun(), LoadedAtFive(), ClaimedFrom(LoadedAtFive(), 5)]
    ensures es[4..] == [Load(EVERY_TEN, 5, Coalesce), ClaimFire(0, 5, false)]
  {
    ws, es := ReachBegun(S);
    ws, es := RunGoesOn(ws, es, Load(EVERY_TEN, 5, Coalesce), LoadedAtFive());
    ClaimPutsToTen(LoadedAtFive(), 5);
    ws, es := RunGoesOn(ws, es, ClaimFire(0, 5, false), ClaimedFrom(LoadedAtFive(), 5));
  }

  /** One loop throughout, and a reconciliation that saves the cursor where it was loaded: the
      claim of the loop in between is granted and puts the cursor to 10, and the save puts it
      back to 0. */
  lemma SaveOverClaimLowersCursor(S: iset<int>) returns (ws: seq<World>, es: seq<Event>)
    ensures IsRun(ws, es) && |es| == 7 && ws[4] == Begun() && ws[6].loops.Keys == {0}
    ensures es[4..] == [Load(EVERY_TEN, 5, Coalesce), ClaimFire(0, 5, false), Write(S)]
    ensures EffectOf(CursorOf(ws[4].rows, "job"), EVERY_TEN, S, 5, Coalesce).Rewrites?
    ensures !ReconcileIsSafe(ws[4], EVERY_TEN, S, 5, Coalesce) && GrantsClaim(ws[5], es[5], "job")
    ensures NextOf(ws[5].rows, "job") == Some(0) && NextOf(ws[6].rows, "job") == Some(10)
    ensures NextOf(ws[7].rows, "job") == Some(0)
  {
    ws, es := ReachClaimedAtFive(S);
    ClaimPutsToTen(LoadedAtFive(), 5);
    RewritingIsUnsafe(S);
    ws, es := RunGoesOn(ws, es, Write(S), SavedAtFive());
  }

  const MINUTE: int := 60 * SECOND

  ghost function Minutes(): iset<int> {
    iset t: int | t % MINUTE == 0
  }

  function NextMinute(t: int): Option<int> {
    Some((t / MINUTE + 1) * MINUTE)
  }

  lemma NextMinuteIsLater(t: int)
    ensures t < NextMinute(t).value <= t + MINUTE && NextMinute(t).value in Minutes()
  {
    assert t == t / MINUTE * MINUTE + t % MINUTE;
  }

  lemma MinutesApart(a: int, b: int)
    requires a in Minutes() && b in Minutes() && a < b
    ensures b - a >= MINUTE
  {
    assert a == a / MINUTE * MINUTE && b == b / MINUTE * MINUTE;
  }

  lemma MinutesAreCron()
    ensures CronOf(NextMinute, Minutes())
  {
    forall t ensures IsLeastAbove(Minutes(), t, NextMinute(t).value) {
      NextMinuteIsLater(t);
      forall s | s in Minutes() && s > t ensures NextMinute(t).value <= s {
        if s < NextMinute(t).value {
          MinutesApart(s, NextMinute(t).value);
        }
      }
    }
    forall a, b | a in Minutes() && b in Minutes() && a < b ensures b - a >= SECOND {
      MinutesApart(a, b);
    }
  }

  const EVERY_MINUTE: Job := Job("job", Cron(NextMinute, true), "hash", Some(Coalesce), 0, true)
  const BETWEEN: int := 2 * MINUTE + 500_000_000

  /** The world of the deferred fire: the first minute was claimed and handed over. */
  function HandedOver(): World {
    var state := StateAfterClaim(Some(PlainState(MINUTE)),
                                 MakeClaim(Registration(EVERY_MINUTE, PlainState(MINUTE)), MINUTE), false);
    World(Rows(map["job" := state], map[Fire("job", MINUTE) := Reserved]),
          map["job" := Registration(EVERY_MINUTE, state)], map[0 := Handed("job", state)], [Fire("job", MINUTE)], Free)
  }

  /** The fire of the first minute is claimed. */
  function ClaimedMinute(): World {
    var state := HandedOver().registrations["job"].state;
    HandedOver().(registrations := map["job" := Registration(EVERY_MINUTE, PlainState(MINUTE))], handed := [],
                  loops := map[0 := Claimed("job", state, Some(Fire("job", MINUTE)))])
  }

  lemma ReachClaimedMinute() returns (ws: seq<World>, es: seq<Event>)
    ensures IsRun(ws, es) && |es| == 5 && ws[5] == ClaimedMinute()
  {
    MinutesAreCron();
    var registration := Registration(EVERY_MINUTE, PlainState(MINUTE));
    var w0 := World(Rows(map["job" := PlainState(MINUTE)], map[]), map[], map[], [], Free);
    ws, es := RunReconciles([w0], [], EVERY_MINUTE, Minutes(), 0, Coalesce, w0.rows, Some(PlainState(MINUTE)));
    ws, es := RunGoesOn(ws, es, Begin(0, "job"), ws[3].(loops := map[0 := Pending(registration)]));
    ws, es := RunGoesOn(ws, es, ClaimFire(0, MINUTE, false), ClaimedMinute());
  }

  lemma ReachHandedOver() returns (ws: seq<World>, es: seq<Event>)
    ensures IsRun(ws, es) && |es| == 7 && ws[7] == HandedOver()
  {
    ws, es := ReachClaimedMinute();
    var state := HandedOver().registrations["job"].state;
    var published := HandedOver().(handed := [], loops := map[0 := ToHand("job", state, Fire("job", MINUTE))]);
    ws, es := RunGoesOn(ws, es, Publish(0), published);
    ws, es := RunGoesOn(ws, es, HandOver(0), HandedOver());
  }

  /** The fire limit deferred the cursor to half a second after the second minute. */
  function Deferred(): World {
    var state := HandedOver().registrations["job"].state.(nextRunAt := Some(BETWEEN));
    HandedOver().(rows := AfterSave(HandedOver().rows, "job", state), loops := map[],
                  registrations := map["job" := Registration(EVERY_MINUTE, state)])
  }

  lemma ReachDeferred() returns (ws: seq<World>, es: seq<Event>)
    ensures IsRun(ws, es) && |es| == 10 && ws[10] == Deferred() && es[7] == Defer(0, BETWEEN)
  {
    ws, es := ReachHandedOver();
    var w, state := HandedOver(), Deferred().registrations["job"].state;
    assert DeferredState(w.loops[0].state, BETWEEN) == state;
    var saved := w.(rows := Deferred().rows, loops := map[0 := Saved("job")]);
    ws, es := RunGoesOn(ws, es, Defer(0, BETWEEN), saved);
    var read := saved.(loops := map[0 := Claimed("job", state, None)]);
    ws, es := RunGoesOn(ws, es, ReadBack(0), read);
    assert read.loops - {0} == map[];
    ws, es := RunGoesOn(ws, es, Publish(0), Deferred());
  }

  const LATER: int := 2 * MINUTE + SECOND

  /** A fire-limit deferral leaves the cursor between two cron instants, half a second after
      one; with no loop in flight, a reconciliation half a second later moves it back. */
  lemma DeferralThenReconcileMovesBack() returns (ws: seq<World>, es: seq<Event>)
    ensures IsRun(ws, es) && |es| == 13 && es[7] == Defer(0, BETWEEN) && NoLoop(ws[10], "job")
    ensures es[10..] == [Load(EVERY_MINUTE, LATER, Coalesce), Write(Minutes()), Release]
    ensures NextOf(ws[10].rows, "job") == Some(BETWEEN) && NextOf(ws[13].rows, "job") == Some(2 * MINUTE)
    ensures EffectOf(CursorOf(ws[10].rows, "job"), EVERY_MINUTE, Minutes(), LATER, Coalesce).Retreats?
  {
    MinutesAreCron();
    ws, es := ReachDeferred();
    var state := Deferred().registrations["job"].state;
    var moved := state.(nextRunAt := Some(2 * MINUTE), lastScheduledAt := Some(2 * MINUTE),
                        lastMisfireAt := Some(LATER), misfireCount := state.misfireCount + 1);
    MinuteBefore(BETWEEN, LATER);
    assert Reconciled(EVERY_MINUTE.schedule, Minutes(), state, LATER, moved, false);
    ws, es := RunReconciles(ws, es, EVERY_MINUTE, Minutes(), LATER, Coalesce, AfterSave(Deferred().rows, "job", moved),
                            None);
  }

  lemma MinuteBefore(c: int, now: int)
    requires c == BETWEEN && now == 2 * MINUTE + SECOND
    ensures IsLatestMissed(EVERY_MINUTE.schedule, Minutes(), c, now, 2 * MINUTE)
    ensures BisectionMovesBack(EVERY_MINUTE.schedule, Minutes(), c, now)
  {
    assert 2 * MINUTE in Minutes();
    forall s | s in Minutes() && s <= now ensures s <= 2 * MINUTE {
      assert s == s / MINUTE * MINUTE;
    }
  }

  /** The deferral by five minutes is stored, and nobody in memory knows. */
  function DeferredFar(): World {
    var state := HandedOver().registrations["job"].state.(nextRunAt := Some(5 * MINUTE));
    HandedOver().(rows := AfterSave(HandedOver().rows, "job", state), loops := map[])
  }

  lemma ReachDeferredFar() returns (ws: seq<World>, es: seq<Event>)
    ensures IsRun(ws, es) && |es| == 9 && ws[7] == HandedOver() && ws[9] == DeferredFar()
    ensures es[7..] == [Defer(0, 5 * MINUTE), Finish(0)]
  {
    ws, es := ReachHandedOver();
    var saved := HandedOver().(rows := DeferredFar().rows, loops := map[0 := Saved("job")]);
    assert DeferredState(HandedOver().loops[0].state, 5 * MINUTE) == DeferredFar().rows.cursors["job"];
    ws, es := RunGoesOn(ws, es, Defer(0, 5 * MINUTE), saved);
    assert saved.loops - {0} == map[];
    ws, es := RunGoesOn(ws, es, Finish(0), DeferredFar());
  }

  /** A granted claim raises the stored cursor exactly when the run after the claimed one lies
      beyond it, or there is none. */
  lemma GrantedClaimRaisesIff(w: World, e: Event, w': World, job: Job)
    requires Step(w, e, w') && GrantsClaim(w, e, job.id) && Unchanged(w.loops[e.loop].registration.job, job)
    requires NextOf(w.rows, job.id).Some?
    ensures var next := NextRunAfter(job.schedule, w.loops[e.loop].registration.state.nextRunAt.value);
      CursorRises(w.rows, w'.rows, job.id, true) <==> next.None? || NextOf(w.rows, job.id).value < next.value
  {
    var registration := w.loops[e.loop].registration;
    var claim := MakeClaim(registration, e.claimedAt);
    assert w'.rows == AfterClaim(w.rows, claim, e.overlap).0 && claim.job == job.id;
  }

  /** No reconciliation: the read-back of a deferred cursor fails, so the registration still points
      at the second minute, whose claim is granted and puts the cursor back from the fifth minute
      to the third. */
  lemma FailedReadBackLowersCursor() returns (ws: seq<World>, es: seq<Event>)
    ensures IsRun(ws, es) && |es| == 11 && ws[7] == HandedOver()
    ensures es[7..] == [Defer(0, 5 * MINUTE), Finish(0), Begin(0, "job"), ClaimFire(0, 2 * MINUTE, false)]
    ensures NoLoop(ws[9], "job") && GrantsClaim(ws[10], es[10], "job")
    ensures NextOf(ws[10].rows, "job") == Some(5 * MINUTE) && NextOf(ws[11].rows, "job") == Some(3 * MINUTE)
  {
    ws, es := ReachDeferredFar();
    var begun := DeferredFar().(loops := map[0 := Pending(DeferredFar().registrations["job"])]);
    var w := SecondMinuteClaimed(begun);
    ws, es := RunGoesOn(ws, es, Begin(0, "job"), begun);
    ws, es := RunGoesOn(ws, es, ClaimFire(0, 2 * MINUTE, false), w);
  }

  lemma SecondMinuteClaimed(begun: World) returns (w: World)
    requires begun == DeferredFar().(loops := map[0 := Pending(DeferredFar().registrations["job"])])
    ensures Step(begun, ClaimFire(0, 2 * MINUTE, false), w) && NextOf(w.rows, "job") == Some(3 * MINUTE)
    ensures GrantsClaim(begun, ClaimFire(0, 2 * MINUTE, false), "job")
  {
    var registration := DeferredFar().registrations["job"];
    var claim := MakeClaim(registration, 2 * MINUTE);
    assert claim.scheduledAt == 2 * MINUTE && claim.nextRunAt == Some(3 * MINUTE);
    var (rows, r) := AfterClaim(begun.rows, claim, false);
    w := begun.(rows := rows, loops := map[0 := AfterClaimEvent(registration, claim, r)]);
  }
}
