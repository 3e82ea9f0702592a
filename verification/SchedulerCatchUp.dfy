/** What the catch-up policies come to over runs: the fires of one job that are handed over
    after a reconciliation. */
module SchedulerCatchUp {
  import opened Ordering
  import opened ScheduleTime
  import opened CatchUp
  import opened SchedulerStore
  import opened Scheduler
  import opened SchedulerRuns
  import opened SchedulerCursor

  /** The instants of one job among the fires handed over. */
  function InstantsOf(fires: seq<Fire>, id: string): seq<int> {
    if fires == [] then []
    else
      var last := fires[|fires| - 1];
      InstantsOf(fires[..|fires| - 1], id) + if last.job == id then [last.at] else []
  }

  lemma InstantsGrow(fires: seq<Fire>, f: Fire, id: string)
    ensures InstantsOf(fires + [f], id) == InstantsOf(fires, id) + if f.job == id then [f.at] else []
  {
    assert (fires + [f])[..|fires|] == fires;
  }

  lemma HandedGrows(handed: seq<Fire>, n: nat, f: Fire, id: string)
    requires n <= |handed|
    ensures InstantsOf((handed + [f])[n..], id) == InstantsOf(handed[n..], id) + if f.job == id then [f.at] else []
  {
    assert (handed + [f])[n..] == handed[n..] + [f];
    InstantsGrow(handed[n..], f, id);
  }

  /** The claim of a step is granted, for an instant up to until. */
  ghost predicate GrantedUpTo(w: World, e: Event, until: int)
    requires e.ClaimFire? && e.loop in w.loops
  {
    w.loops[e.loop].Pending? ==>
      var registration := w.loops[e.loop].registration;
      && registration.state.nextRunAt.Some? && registration.state.nextRunAt.value <= until
      && AfterClaim(w.rows, MakeClaim(registration, e.claimedAt), e.overlap).1.Granted?
  }

  /** The job runs undisturbed: one loop, claims granted for instants up to until, no deferral,
      no registry operation on it and no restart. Other jobs do as they like. */
  ghost predicate CalmEvent(w: World, e: Event, id: string, until: int) {
    ActsOn(w, e, id) ==>
      match e
      case Begin(_, _) => NoLoop(w, id)
      case ClaimFire(_, _, _) => GrantedUpTo(w, e, until)
      case Publish(_) => true
      case HandOver(_) => true
      case Finish(_) => true
      case _ => false
  }

  /** The fire a loop has claimed and not handed over yet. */
  function InFlight(loop: Loop): seq<int> {
    match loop
    case Claimed(_, _, Some(fire)) => [fire.at]
    case ToHand(_, _, fire) => [fire.at]
    case _ => []
  }

  /** What is still to be claimed from the stored cursor. */
  ghost function ToClaim(w: World, job: Job, S: iset<int>, start: int, until: int): seq<int>
    requires Regular(job.schedule, S, start)
    requires NextOf(w.rows, job.id).Some? ==> IsFire(job.schedule, S, start, NextOf(w.rows, job.id).value)
  {
    Claims(job.schedule, S, start, NextOf(w.rows, job.id), until)
  }

  ghost predicate CursorIsFire(w: World, job: Job, S: iset<int>, start: int) {
    && job.id in w.rows.cursors
    && (NextOf(w.rows, job.id).Some? ==> IsFire(job.schedule, S, start, NextOf(w.rows, job.id).value))
  }

  ghost predicate LoopCalm(rows: Rows, job: Job, loop: Loop) {
    match loop
    case Pending(registration) =>
      registration.job.schedule == job.schedule && registration.state.nextRunAt == NextOf(rows, job.id)
    case Claimed(_, state, Some(fire)) => fire.job == job.id && state.nextRunAt == NextOf(rows, job.id)
    case ToHand(_, _, fire) => fire.job == job.id
    case Handed(_, _) => true
    case _ => false
  }

  /** Memory agrees with the stored cursor. */
  ghost predicate Calm(w: World, job: Job) {
    && OneLoop(w, job.id) && RegistrationsKeyed(w)
    && (job.id in w.registrations ==>
          && w.registrations[job.id].job.schedule == job.schedule
          && (NonePublishing(w, job.id) ==> w.registrations[job.id].state.nextRunAt == NextOf(w.rows, job.id)))
    && forall l :: IsLoopOf(w, l, job.id) ==> LoopCalm(w.rows, job, w.loops[l])
  }

  /** The instants handed over since the first n fires, in flight and still to be claimed are total. */
  ghost predicate Account(w: World, job: Job, S: iset<int>, start: int, until: int, n: nat, total: seq<int>) {
    && Regular(job.schedule, S, start) && CursorIsFire(w, job, S, start) && n <= |w.handed|
    && var handed, rest := InstantsOf(w.handed[n..], job.id), ToClaim(w, job, S, start, until);
    && (NoLoop(w, job.id) ==> handed + rest == total)
    && (forall l :: IsLoopOf(w, l, job.id) ==> handed + InFlight(w.loops[l]) + rest == total)
  }

  ghost predicate CalmAccount(w: World, job: Job, S: iset<int>, start: int, until: int, n: nat, total: seq<int>) {
    Calm(w, job) && Account(w, job, S, start, until, n, total)
  }

  // ----- steps of other jobs -----

  /** The fires a loop holds are those of its job. */
  ghost predicate FiresOwn(w: World) {
    forall l, f :: l in w.loops && Holds(w.loops[l], f) ==> f.job == JobOf(w.loops[l])
  }

  lemma StepKeepsFiresOwn(w: World, e: Event, w': World)
    requires Step(w, e, w') && FiresOwn(w)
    ensures FiresOwn(w')
  {
    forall l, f | l in w'.loops && Holds(w'.loops[l], f) ensures f.job == JobOf(w'.loops[l]) {
      if l in w.loops && w'.loops[l] != w.loops[l] && !e.ClaimFire? {
        assert Holds(w.loops[l], f);
      }
    }
  }

  /** Nothing of this job is handed over. */
  ghost predicate HandsOthers(w: World, w': World, id: string) {
    w'.handed == w.handed || exists f: Fire :: f.job != id && w'.handed == w.handed + [f]
  }

  lemma OthersHandOthers(w: World, e: Event, w': World, id: string)
    requires Step(w, e, w') && !ActsOn(w, e, id) && FiresOwn(w)
    ensures HandsOthers(w, w', id)
  {
    if e.HandOver? {
      assert Holds(w.loops[e.loop], w.loops[e.loop].due);
    }
  }

  lemma InstantsOfOthers(w: World, w': World, id: string, n: nat)
    requires HandsOthers(w, w', id) && n <= |w.handed|
    ensures n <= |w'.handed| && InstantsOf(w'.handed[n..], id) == InstantsOf(w.handed[n..], id)
  {
    if w'.handed != w.handed {
      var f: Fire :| f.job != id && w'.handed == w.handed + [f];
      HandedGrows(w.handed, n, f, id);
    }
  }

  lemma ElsewhereKeepsAccount(w: World, w': World, job: Job, S: iset<int>, start: int, until: int, n: nat,
                              total: seq<int>)
    requires CalmAccount(w, job, S, start, until, n, total) && Elsewhere(w, w', job.id)
    requires RegistrationsKeyed(w') && HandsOthers(w, w', job.id)
    ensures CalmAccount(w', job, S, start, until, n, total)
  {
    assert NextOf(w'.rows, job.id) == NextOf(w.rows, job.id);
    InstantsOfOthers(w, w', job.id, n);
    assert NonePublishing(w', job.id) <==> NonePublishing(w, job.id);
    assert NoLoop(w', job.id) <==> NoLoop(w, job.id);
  }

  // ----- steps of the job itself -----

  /** The only loop of the job. */
  lemma OnlyLoop(w: World, l: nat, id: string)
    requires OneLoop(w, id) && IsLoopOf(w, l, id)
    ensures forall k :: IsLoopOf(w, k, id) ==> k == l
  {}

  lemma NoneOfItPublishing(w: World, l: nat, id: string)
    requires OneLoop(w, id) && IsLoopOf(w, l, id) && !w.loops[l].Claimed? && !w.loops[l].Saved?
    ensures NonePublishing(w, id)
  {}

  /** The loop of the job goes on from stage to stage, with the account unchanged. */
  ghost predicate Advances(w: World, w': World, l: nat, id: string) {
    && IsLoopOf(w, l, id) && w'.loops.Keys == w.loops.Keys && JobOf(w'.loops[l]) == id
    && forall k :: k in w.loops && k != l ==> w'.loops[k] == w.loops[k]
  }

  lemma AdvanceKeepsAccount(w: World, w': World, l: nat, job: Job, S: iset<int>, start: int, until: int, n: nat,
                            total: seq<int>)
    requires CalmAccount(w, job, S, start, until, n, total) && Advances(w, w', l, job.id)
    requires LoopCalm(w'.rows, job, w'.loops[l]) && CursorIsFire(w', job, S, start) && n <= |w'.handed|
    requires InstantsOf(w'.handed[n..], job.id) + InFlight(w'.loops[l]) + ToClaim(w', job, S, start, until)
          == InstantsOf(w.handed[n..], job.id) + InFlight(w.loops[l]) + ToClaim(w, job, S, start, until)
    requires RegistrationsKeyed(w')
    requires job.id in w'.registrations ==>
      && w'.registrations[job.id].job.schedule == job.schedule
      && (w'.loops[l].Claimed? || w'.registrations[job.id].state.nextRunAt == NextOf(w'.rows, job.id))
    ensures CalmAccount(w', job, S, start, until, n, total)
  {
    OnlyLoop(w, l, job.id);
    forall k | k in w'.loops && JobOf(w'.loops[k]) == job.id ensures k == l {
      assert k != l ==> IsLoopOf(w, k, job.id);
    }
    assert IsLoopOf(w', l, job.id);
    if NonePublishing(w', job.id) {
      assert !w'.loops[l].Claimed?;
    }
  }

  lemma ClaimKeepsAccount(w: World, e: Event, w': World, job: Job, S: iset<int>, start: int, until: int, n: nat,
                          total: seq<int>)
    requires CalmAccount(w, job, S, start, until, n, total) && Step(w, e, w') && e.ClaimFire?
    requires IsLoopOf(w, e.loop, job.id) && GrantedUpTo(w, e, until)
    ensures CalmAccount(w', job, S, start, until, n, total)
  {
    var registration := w.loops[e.loop].registration;
    assert LoopCalm(w.rows, job, w.loops[e.loop]);
    var at := registration.state.nextRunAt.value;
    NextFire(job.schedule, S, start, at);
    assert NextOf(w'.rows, job.id) == NextRunAfter(job.schedule, at);
    assert ToClaim(w, job, S, start, until) == [at] + ToClaim(w', job, S, start, until);
    AdvanceKeepsAccount(w, w', e.loop, job, S, start, until, n, total);
  }

  lemma PublishKeepsAccount(w: World, e: Event, w': World, job: Job, S: iset<int>, start: int, until: int, n: nat,
                            total: seq<int>)
    requires CalmAccount(w, job, S, start, until, n, total) && Step(w, e, w') && e.Publish?
    requires IsLoopOf(w, e.loop, job.id)
    ensures CalmAccount(w', job, S, start, until, n, total)
  {
    assert LoopCalm(w.rows, job, w.loops[e.loop]);
    AdvanceKeepsAccount(w, w', e.loop, job, S, start, until, n, total);
  }

  lemma HandOverKeepsAccount(w: World, e: Event, w': World, job: Job, S: iset<int>, start: int, until: int, n: nat,
                             total: seq<int>)
    requires CalmAccount(w, job, S, start, until, n, total) && Step(w, e, w') && e.HandOver?
    requires IsLoopOf(w, e.loop, job.id)
    ensures CalmAccount(w', job, S, start, until, n, total)
  {
    assert LoopCalm(w.rows, job, w.loops[e.loop]);
    HandedGrows(w.handed, n, w.loops[e.loop].due, job.id);
    NoneOfItPublishing(w, e.loop, job.id);
    AdvanceKeepsAccount(w, w', e.loop, job, S, start, until, n, total);
  }

  lemma FinishKeepsAccount(w: World, e: Event, w': World, job: Job, S: iset<int>, start: int, until: int, n: nat,
                           total: seq<int>)
    requires CalmAccount(w, job, S, start, until, n, total) && Step(w, e, w') && e.Finish?
    requires IsLoopOf(w, e.loop, job.id)
    ensures CalmAccount(w', job, S, start, until, n, total)
  {
    OnlyLoop(w, e.loop, job.id);
    assert forall k :: k in w'.loops ==> w'.loops[k] == w.loops[k];
    assert NoLoop(w', job.id) by {
      forall l | l in w'.loops ensures JobOf(w'.loops[l]) != job.id {
        assert IsLoopOf(w, l, job.id) <==> JobOf(w.loops[l]) == job.id;
      }
    }
    NoneOfItPublishing(w, e.loop, job.id);
    assert InFlight(w.loops[e.loop]) == [];
    var handed := InstantsOf(w.handed[n..], job.id);
    assert handed + [] + ToClaim(w, job, S, start, until) == handed + ToClaim(w, job, S, start, until);
  }

  lemma BeginKeepsAccount(w: World, e: Event, w': World, job: Job, S: iset<int>, start: int, until: int, n: nat,
                          total: seq<int>)
    requires CalmAccount(w, job, S, start, until, n, total) && Step(w, e, w') && e.Begin? && e.id == job.id
    requires NoLoop(w, job.id)
    ensures CalmAccount(w', job, S, start, until, n, total)
  {
    assert NonePublishing(w, job.id);
    assert forall k :: k in w.loops ==> w'.loops[k] == w.loops[k];
    forall l | IsLoopOf(w', l, job.id) ensures l == e.loop {
      assert l != e.loop ==> IsLoopOf(w, l, job.id);
    }
    assert IsLoopOf(w', e.loop, job.id);
    var handed := InstantsOf(w.handed[n..], job.id);
    assert handed + [] + ToClaim(w, job, S, start, until) == handed + ToClaim(w, job, S, start, until);
  }

  lemma CalmStep(w: World, e: Event, w': World, job: Job, S: iset<int>, start: int, until: int, n: nat, total: seq<int>)
    requires CalmAccount(w, job, S, start, until, n, total) && FiresOwn(w) && Step(w, e, w')
    requires CalmEvent(w, e, job.id, until)
    ensures CalmAccount(w', job, S, start, until, n, total) && FiresOwn(w')
  {
    StepKeepsFiresOwn(w, e, w');
    StepKeepsKeyed(w, e, w');
    if !ActsOn(w, e, job.id) {
      OthersActElsewhere(w, e, w', job.id);
      OthersHandOthers(w, e, w', job.id);
      ElsewhereKeepsAccount(w, w', job, S, start, until, n, total);
    } else {
      match e {
        case Begin(_, _) => BeginKeepsAccount(w, e, w', job, S, start, until, n, total);
        case ClaimFire(_, _, _) => ClaimKeepsAccount(w, e, w', job, S, start, until, n, total);
        case Publish(_) => PublishKeepsAccount(w, e, w', job, S, start, until, n, total);
        case HandOver(_) => HandOverKeepsAccount(w, e, w', job, S, start, until, n, total);
        case Finish(_) => FinishKeepsAccount(w, e, w', job, S, start, until, n, total);
      }
    }
  }

  // ----- calm runs -----

  ghost predicate CalmBetween(ws: seq<World>, es: seq<Event>, id: string, until: int, i: nat, j: nat)
    requires |ws| == |es| + 1 && j <= |es|
  {
    forall k :: i <= k < j ==> CalmEvent(ws[k], es[k], id, until)
  }

  lemma {:induction false} CalmRun(ws: seq<World>, es: seq<Event>, job: Job, S: iset<int>, start: int, until: int,
                                   i: nat, j: nat, n: nat, total: seq<int>)
    requires IsRun(ws, es) && i <= j < |ws| && CalmBetween(ws, es, job.id, until, i, j)
    requires FiresOwn(ws[i]) && CalmAccount(ws[i], job, S, start, until, n, total)
    ensures CalmAccount(ws[j], job, S, start, until, n, total) && FiresOwn(ws[j])
    decreases j
  {
    if i < j {
      CalmRun(ws, es, job, S, start, until, i, j - 1, n, total);
      assert StepAt(ws, es, j - 1);
      CalmStep(ws[j - 1], es[j - 1], ws[j], job, S, start, until, n, total);
    }
  }

  lemma {:induction false} FiresOwnAlways(ws: seq<World>, es: seq<Event>, i: nat)
    requires IsRun(ws, es) && i < |ws|
    ensures FiresOwn(ws[i])
  {
    if i > 0 {
      FiresOwnAlways(ws, es, i - 1);
      assert StepAt(ws, es, i - 1);
      StepKeepsFiresOwn(ws[i - 1], es[i - 1], ws[i]);
    }
  }

  /** The cursor is past until, or has ended. */
  ghost predicate CaughtUp(w: World, id: string, until: int) {
    NextOf(w.rows, id).Some? ==> NextOf(w.rows, id).value > until
  }

  lemma AllHandedOver(w: World, job: Job, S: iset<int>, start: int, until: int, n: nat, total: seq<int>)
    requires CalmAccount(w, job, S, start, until, n, total) && NoLoop(w, job.id) && CaughtUp(w, job.id, until)
    ensures n <= |w.handed| && InstantsOf(w.handed[n..], job.id) == total
  {
    assert ToClaim(w, job, S, start, until) == [];
    var handed := InstantsOf(w.handed[n..], job.id);
    assert handed + [] == handed;
  }

  /** Over a calm span that starts and ends without a loop of the job and catches up, exactly
      the claims of the cursor at its start are handed over, in order. */
  lemma HandedAreTheClaims(ws: seq<World>, es: seq<Event>, job: Job, S: iset<int>, start: int, until: int, i: nat,
                           j: nat)
    requires IsRun(ws, es) && i <= j < |ws| && CalmBetween(ws, es, job.id, until, i, j)
    requires Regular(job.schedule, S, start) && CursorIsFire(ws[i], job, S, start)
    requires Calm(ws[i], job) && NoLoop(ws[i], job.id) && NoLoop(ws[j], job.id) && CaughtUp(ws[j], job.id, until)
    ensures |ws[i].handed| <= |ws[j].handed|
    ensures InstantsOf(ws[j].handed[|ws[i].handed|..], job.id) == ToClaim(ws[i], job, S, start, until)
  {
    var total := ToClaim(ws[i], job, S, start, until);
    FiresOwnAlways(ws, es, i);
    assert ws[i].handed[|ws[i].handed|..] == [];
    CalmRun(ws, es, job, S, start, until, i, j, |ws[i].handed|, total);
    AllHandedOver(ws[j], job, S, start, until, |ws[i].handed|, total);
  }

  // ----- after a reconciliation -----

  /** What a policy makes of a cursor missed at c: all fires up to now, in order; none; or the
      latest alone. */
  ghost predicate PolicyClaims(state: SchedulerState, schedule: Schedule, S: iset<int>, c: int, now: int,
                               claims: seq<int>) {
    if state.policy == Replay then
      StrictlyIncreasing(claims) && forall t :: t in claims <==> t <= now && IsFire(schedule, S, c, t)
    else if Skips(state, c, now) then
      claims == []
    else
      && |claims| == 1 && claims[0] <= now && IsFire(schedule, S, c, claims[0])
      && forall t :: IsFire(schedule, S, c, t) && t <= now ==> t <= claims[0]
  }

  /** The cursor left by the reconciliation of a missed one, and its claims up to now. */
  lemma ReconciledClaims(existing: Option<SchedulerState>, rows: Rows, job: Job, S: iset<int>, now: int,
                         fallback: Policy, rows': Rows, settled: Option<SchedulerState>, c: int)
    requires CursorOf(rows, job.id) == existing && NextOf(rows, job.id) == Some(c) && c <= now
    requires Regular(job.schedule, S, c) && StoredCursorOk(rows, job) && BuildPlan(job.schedule, now).Planned?
    requires var entering := Entering(existing, job, BuildPlan(job.schedule, now), fallback);
             entering.policy != Replay && Skips(entering, c, now) ==> Fire(job.id, c) !in rows.runs
    requires WritesTo(existing, rows, job, S, BuildPlan(job.schedule, now), now, fallback, rows', settled)
    ensures job.id in rows'.cursors && (settled.Some? ==> settled.value.nextRunAt == NextOf(rows', job.id))
    ensures NextOf(rows', job.id).Some? ==> IsFire(job.schedule, S, c, NextOf(rows', job.id).value)
    ensures PolicyClaims(Entering(existing, job, BuildPlan(job.schedule, now), fallback), job.schedule, S, c, now,
                         Claims(job.schedule, S, c, NextOf(rows', job.id), now))
  {
    var entering := Entering(existing, job, BuildPlan(job.schedule, now), fallback);
    var missed, skipped :| Reconciled(job.schedule, S, entering, now, missed, skipped) &&
      if !skipped then
        settled.None? && rows' == AfterSave(rows, job.id, missed)
      else
        var (rows1, r) := AfterClaim(rows, MakeSkipClaim(job, entering.nextRunAt.value, missed, now), false);
        && rows' == rows1
        && settled == match r
                      case Skipped(state) => Some(state)
                      case _ => None;
    if entering.policy == Replay {
      ReplayClaimsEveryMissedFire(job.schedule, S, entering, now, missed, skipped);
    } else if Skips(entering, c, now) {
      SkipClaimsNothing(job.schedule, S, entering, now, missed, skipped);
    } else {
      CoalesceClaimsTheLatest(job.schedule, S, entering, now, missed, skipped);
    }
  }

  /** The reconciliation of a job without a loop goes on undisturbed while it holds the lock. */
  ghost predicate Waits(w: World, w': World, id: string, n: nat) {
    && w'.lock == w.lock && RowsOfKept(w.rows, w'.rows, id) && NoLoop(w', id) && RegistrationsKeyed(w') && FiresOwn(w')
    && n <= |w'.handed| && InstantsOf(w'.handed[n..], id) == []
  }

  ghost predicate EndsWait(e: Event) {
    e.Write? || e.Release? || e.Abandon? || e.Restart?
  }

  lemma {:induction false} WaitingRun(ws: seq<World>, es: seq<Event>, id: string, i: nat, j: nat, n: nat)
    requires IsRun(ws, es) && i <= j < |ws| && !LockFor(ws[i], id).Free? && Waits(ws[i], ws[i], id, n)
    requires forall k :: i <= k < j ==> !EndsWait(es[k])
    ensures Waits(ws[i], ws[j], id, n)
    decreases j
  {
    if i < j {
      WaitingRun(ws, es, id, i, j - 1, n);
      assert StepAt(ws, es, j - 1);
      var w, e, w' := ws[j - 1], es[j - 1], ws[j];
      assert !ActsOn(w, e, id);
      OthersActElsewhere(w, e, w', id);
      OthersHandOthers(w, e, w', id);
      InstantsOfOthers(w, w', id, n);
      StepKeepsFiresOwn(w, e, w');
      StepKeepsKeyed(w, e, w');
    }
  }

  /** From i to r the job is reconciled: loaded at i, written at k, registered at r. */
  ghost predicate ReconciledBetween(ws: seq<World>, es: seq<Event>, job: Job, S: iset<int>, i: nat, k: nat, r: nat)
  {
    && i < k < r < |es| && es[i].Load? && es[i].job == job && es[k] == Write(S) && es[r].Release?
    && forall m :: i < m < r && m != k ==> !EndsWait(es[m])
  }

  /** What is missed when the job is loaded at i with its cursor at c. */
  ghost predicate Misses(w: World, e: Event, job: Job, S: iset<int>, c: int)
    requires e.Load?
  {
    && NextOf(w.rows, job.id) == Some(c) && c <= e.now && Regular(job.schedule, S, c)
    && StoredCursorOk(w.rows, job) && NoLoop(w, job.id)
    && var entering := Loading(w, e, job);
       entering.policy != Replay && Skips(entering, c, e.now) ==> Fire(job.id, c) !in w.rows.runs
  }

  ghost function Loading(w: World, e: Event, job: Job): SchedulerState
    requires e.Load?
  {
    Entering(CursorOf(w.rows, job.id), job, BuildPlan(job.schedule, e.now), e.fallback)
  }

  lemma LoadedWaits(w: World, e: Event, w': World, job: Job, S: iset<int>, c: int)
    requires e.Load? && e.job == job && Step(w, e, w') && Misses(w, e, job, S, c)
    requires FiresOwn(w) && RegistrationsKeyed(w)
    ensures w'.rows == w.rows && w'.lock == Loaded(job, e.now, e.fallback, CursorOf(w.rows, job.id))
    ensures BuildPlan(job.schedule, e.now).Planned? && Waits(w', w', job.id, |w.handed|)
  {
    SameLoops(w, w', job.id);
  }

  /** The write puts the cursor where the policy says. */
  lemma WrittenByPolicy(start: World, e: Event, w: World, w': World, job: Job, S: iset<int>, c: int, n: nat)
    requires e.Load? && Misses(start, e, job, S, c) && BuildPlan(job.schedule, e.now).Planned?
    requires RowsOfKept(start.rows, w.rows, job.id) && Step(w, Write(S), w')
    requires w.lock == Loaded(job, e.now, e.fallback, CursorOf(start.rows, job.id)) && Waits(w, w, job.id, n)
    ensures w'.lock.Settled? && w'.lock.job == job && w'.lock.planned && Waits(w', w', job.id, n)
    ensures CursorIsFire(w', job, S, c)
    ensures w'.lock.state.Some? ==> w'.lock.state.value.nextRunAt == NextOf(w'.rows, job.id)
    ensures PolicyClaims(Loading(start, e, job), job.schedule, S, c, e.now, ToClaim(w', job, S, c, e.now))
  {
    var existing, plan := CursorOf(start.rows, job.id), BuildPlan(job.schedule, e.now);
    assert StoredCursorOk(w.rows, job);
    var settled :| WritesTo(existing, w.rows, job, S, plan, e.now, e.fallback, w'.rows, settled)
                   && w' == w.(rows := w'.rows, lock := Settled(job, plan.Planned?, settled));
    ReconciledClaims(existing, w.rows, job, S, e.now, e.fallback, w'.rows, settled, c);
    SameLoops(w, w', job.id);
  }

  /** The registration agrees with the cursor when the lock is released. */
  lemma ReleasedCalm(w: World, w': World, job: Job, S: iset<int>, c: int, until: int, n: nat)
    requires Step(w, Release, w') && w.lock.job == job && w.lock.planned && Waits(w, w, job.id, n)
    requires w.lock.state.Some? ==> w.lock.state.value.nextRunAt == NextOf(w.rows, job.id)
    requires Regular(job.schedule, S, c) && CursorIsFire(w, job, S, c)
    ensures CalmAccount(w', job, S, c, until, n, ToClaim(w, job, S, c, until)) && FiresOwn(w')
  {
    SameLoops(w, w', job.id);
    assert [] + ToClaim(w, job, S, c, until) == ToClaim(w, job, S, c, until);
  }

  /** The moment the lock is released: nothing was handed over yet, and the claims to come are
      those of the policy. */
  lemma RegisteredCalm(ws: seq<World>, es: seq<Event>, job: Job, S: iset<int>, c: int, i: nat, k: nat, r: nat)
    returns (total: seq<int>)
    requires IsRun(ws, es) && ReconciledBetween(ws, es, job, S, i, k, r) && Misses(ws[i], es[i], job, S, c)
    ensures CalmAccount(ws[r + 1], job, S, c, es[i].now, |ws[i].handed|, total) && FiresOwn(ws[r + 1])
    ensures PolicyClaims(Loading(ws[i], es[i], job), job.schedule, S, c, es[i].now, total)
  {
    var n, now := |ws[i].handed|, es[i].now;
    FiresOwnAlways(ws, es, i);
    KeyedAlways(ws, es, i);
    assert StepAt(ws, es, i) && StepAt(ws, es, k) && StepAt(ws, es, r);
    LoadedWaits(ws[i], es[i], ws[i + 1], job, S, c);
    WaitingRun(ws, es, job.id, i + 1, k, n);
    WrittenByPolicy(ws[i], es[i], ws[k], ws[k + 1], job, S, c, n);
    WaitingRun(ws, es, job.id, k + 1, r, n);
    ReleasedCalm(ws[r], ws[r + 1], job, S, c, now, n);
    total := ToClaim(ws[k + 1], job, S, c, now);
  }

  /** A job whose cursor was missed at c is reconciled, and calm from then on until it has
      caught up: what is handed over is what its policy says. A replayed job hands over every
      missed fire exactly once and in order, a coalesced or run-once job only the latest, and
      one that skips beyond its grace none. */
  lemma CatchUpHandsOver(ws: seq<World>, es: seq<Event>, job: Job, S: iset<int>, c: int, i: nat, k: nat, r: nat, j: nat)
    requires IsRun(ws, es) && ReconciledBetween(ws, es, job, S, i, k, r) && Misses(ws[i], es[i], job, S, c)
    requires r < j < |ws| && CalmBetween(ws, es, job.id, es[i].now, r + 1, j)
    requires NoLoop(ws[j], job.id) && CaughtUp(ws[j], job.id, es[i].now)
    ensures |ws[i].handed| <= |ws[j].handed|
    ensures PolicyClaims(Loading(ws[i], es[i], job), job.schedule, S, c, es[i].now,
                         InstantsOf(ws[j].handed[|ws[i].handed|..], job.id))
  {
    var total := RegisteredCalm(ws, es, job, S, c, i, k, r);
    CalmRun(ws, es, job, S, c, es[i].now, r + 1, j, |ws[i].handed|, total);
    AllHandedOver(ws[j], job, S, c, es[i].now, |ws[i].handed|, total);
  }
}
