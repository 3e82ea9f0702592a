/** The scheduler object: its registrations over the durable store. Every operation is a
    sequence of the steps whose runs are studied elsewhere, so what holds of all runs holds of
    the object. */
module SchedulerRuntime {
  import opened Ordering
  import opened ScheduleTime
  import opened CatchUp
  import opened SchedulerStore
  import opened Scheduler
  import opened SchedulerRuns

  // ----- sequences of steps -----

  /** The events lead from w to w', each by its step. */
  ghost predicate Leads(w: World, es: seq<Event>, w': World)
    decreases |es|, 1
  {
    if es == [] then w' == w else exists mid :: LeadsBy(w, es, mid, w')
  }

  /** mid is the world before the last step. */
  ghost predicate LeadsBy(w: World, es: seq<Event>, mid: World, w': World)
    requires es != []
    decreases |es|, 0
  {
    Leads(w, es[..|es| - 1], mid) && Step(mid, es[|es| - 1], w')
  }

  lemma LeadsOn(w: World, es: seq<Event>, mid: World, e: Event, w': World)
    requires Leads(w, es, mid) && Step(mid, e, w')
    ensures Leads(w, es + [e], w')
  {
    assert (es + [e])[..|es|] == es;
    assert LeadsBy(w, es + [e], mid, w');
  }

  lemma LeadsByOne(w: World, e: Event, w': World)
    requires Step(w, e, w')
    ensures Leads(w, [e], w')
  {
    LeadsOn(w, [], w, e, w');
    assert [] + [e] == [e];
  }

  lemma {:induction false} LeadsToReachable(w: World, es: seq<Event>, w': World)
    requires Reachable(w) && Leads(w, es, w')
    ensures Reachable(w')
  {
    if es != [] {
      var mid :| LeadsBy(w, es, mid, w');
      LeadsToReachable(w, es[..|es| - 1], mid);
      ReachableNext(mid, es[|es| - 1], w');
    }
  }

  lemma TakeStep(w: World, e: Event, w': World)
    requires Reachable(w) && Step(w, e, w')
    ensures Leads(w, [e], w') && Reachable(w')
  {
    LeadsByOne(w, e, w');
    ReachableNext(w, e, w');
  }

  // ----- when reconciling fails -----

  /** The steps of a reconciliation that nothing interrupts. */
  function ReconcileEvents(job: Job, now: int, fallback: Policy, S: iset<int>): seq<Event> {
    [Load(job, now, fallback)] + [Write(S)] + [Release]
  }

  /** A reconciliation leads by its three steps to the rows and the state it comes to. */
  lemma ReconcileLeads(w: World, job: Job, S: iset<int>, now: int, fallback: Policy, w': World, state: SchedulerState)
    requires Reachable(w) && w.lock.Free? && !BuildPlan(job.schedule, now).Invalid?
    requires ReconcilesTo(w.rows, job, S, BuildPlan(job.schedule, now), now, fallback, w'.rows, state)
    requires w' == w.(rows := w'.rows, registrations :=
                      AfterRelease(w.registrations, job, BuildPlan(job.schedule, now).Planned?, state))
    ensures Leads(w, ReconcileEvents(job, now, fallback, S), w') && Reachable(w')
  {
    var plan := BuildPlan(job.schedule, now);
    var settled :| WritesTo(CursorOf(w.rows, job.id), w.rows, job, S, plan, now, fallback, w'.rows, settled)
                   && Settling(w'.rows, job.id, settled) == Some(state);
    var loaded := w.(lock := Loaded(job, now, fallback, CursorOf(w.rows, job.id)));
    var written := loaded.(rows := w'.rows, lock := Settled(job, plan.Planned?, settled));
    LeadsByOne(w, Load(job, now, fallback), loaded);
    LeadsOn(w, [Load(job, now, fallback)], loaded, Write(S), written);
    LeadsOn(w, [Load(job, now, fallback)] + [Write(S)], written, Release, w');
    LeadsToReachable(w, ReconcileEvents(job, now, fallback, S), w');
  }

  /** Reconciling writes to the store. */
  ghost predicate Writes(rows: Rows, job: Job, plan: Plan, now: int, fallback: Policy) {
    var entering := Entering(CursorOf(rows, job.id), job, plan, fallback);
    !plan.Planned? || entering.nextRunAt.None? || entering.nextRunAt.value <= now
  }

  /** The skip of the missed fire is refused and there is no cursor to go on from. */
  ghost predicate LosesSkip(rows: Rows, job: Job, plan: Plan, now: int, fallback: Policy) {
    var entering := Entering(CursorOf(rows, job.id), job, plan, fallback);
    && plan.Planned? && entering.nextRunAt.Some? && entering.nextRunAt.value <= now
    && Skips(entering, entering.nextRunAt.value, now)
    && job.id !in rows.cursors && Fire(job.id, entering.nextRunAt.value) in rows.runs
  }

  ghost predicate ReconcileFails(rows: Rows, job: Job, plan: Plan, now: int, fallback: Policy, fails: bool) {
    (fails && Writes(rows, job, plan, now, fallback)) || LosesSkip(rows, job, plan, now, fallback)
  }

  /** For a job with a valid schedule only a store that fails makes reconciling fail: without a
      cursor the first run lies ahead, and nothing is skipped. */
  lemma OnlyStoreFails(rows: Rows, job: Job, S: iset<int>, now: int, fallback: Policy, fails: bool)
    requires job.schedule.Every? ==> job.schedule.interval > 0
    requires job.schedule.Cron? ==> CronOf(job.schedule.next, S)
    requires BuildPlan(job.schedule, now).Planned?
    ensures ReconcileFails(rows, job, BuildPlan(job.schedule, now), now, fallback, fails)
        <==> fails && Writes(rows, job, BuildPlan(job.schedule, now), now, fallback)
  {
    if job.schedule.Cron? && job.schedule.next(now).Some? {
      assert IsLeastAbove(S, now, job.schedule.next(now).value);
    }
  }

  // ----- the events of an execution -----

  /** The cursor is deferred when the dispatcher refuses and the store works. */
  function AfterHandOver(l: nat, limited: Option<int>, saveFails: bool): seq<Event> {
    if limited.Some? && !saveFails then [Defer(l, limited.value)] + [ReadBack(l)] + [Publish(l)] else [Finish(l)]
  }

  /** What the execution of one due fire does, by the answer of the store and of the dispatcher. */
  function ExecutionEvents(l: nat, job: string, claimedAt: int, overlap: bool, r: ClaimResult, limited: Option<int>,
                           saveFails: bool): seq<Event> {
    match r
    case StoreError => [Begin(l, job)] + [ClaimError(l)]
    case Granted(_) =>
      [Begin(l, job)] + [ClaimFire(l, claimedAt, overlap)] + [Publish(l)] + [HandOver(l)]
      + AfterHandOver(l, limited, saveFails)
    case _ => [Begin(l, job)] + [ClaimFire(l, claimedAt, overlap)] + [Publish(l)]
  }

  lemma SameElsewhere(registrations: Registrations, before: Registrations, job: string)
    requires registrations - {job} == before - {job}
    ensures forall id :: id != job ==> (id in registrations <==> id in before)
    ensures forall id :: id != job && id in before ==> registrations[id] == before[id]
  {
    forall id | id != job ensures id in registrations <==> id in before {
      assert id in registrations - {job} <==> id in before - {job};
    }
    forall id | id != job && id in before ensures registrations[id] == before[id] {
      assert (registrations - {job})[id] == (before - {job})[id];
    }
  }

  class Runtime {
    var registrations: Registrations
    const store: Store
    /** Every fire handed to the dispatcher, in order. */
    ghost var handed: seq<Fire>
    /** The job loops in flight. */
    ghost var loops: map<nat, Loop>
    /** Held within an operation only. */
    ghost const lock := Free

    ghost function View(): World
      reads this, store
    {
      World(store.View(), registrations, loops, handed, lock)
    }

    /** The scheduler got here by steps. */
    ghost predicate Valid()
      reads this, store
    {
      Reachable(View())
    }

    constructor (store: Store)
      ensures this.store == store && View() == World(store.View(), map[], map[], [], Free) && Valid()
    {
      this.store := store;
      registrations, handed, loops := map[], [], map[];
      new;
      assert EndsIn([View()], [], View());
    }

    /** One stored cursor against one definition; fails makes the next store write fail. */
    method ReconcileSchedulerState(job: Job, plan: Plan, now: int, fallback: Policy, fails: bool, ghost S: iset<int>)
      returns (state: Option<SchedulerState>)
      requires job.schedule.Cron? ==> CronOf(job.schedule.next, S)
      modifies store
      ensures state.None? <==> ReconcileFails(old(store.View()), job, plan, now, fallback, fails)
      ensures state.Some? ==> ReconcilesTo(old(store.View()), job, S, plan, now, fallback, store.View(), state.value)
      ensures state.None? ==> store.View() == old(store.View())
    {
      var current := if job.id in store.cursors then MergeState(store.cursors[job.id], job, plan, fallback)
                     else InitialState(job, plan, fallback);
      assert current == Entering(CursorOf(store.View(), job.id), job, plan, fallback);
      if !plan.Planned? {
        current := current.(nextRunAt := None);
        current := current.(lastMisfireAt := Some(now), misfireCount := current.misfireCount + 1);
        var ok := store.SaveSchedulerState(job.id, current, fails);
        return if ok then Some(current) else None;
      }
      if current.nextRunAt.None? {
        current := current.(nextRunAt := NextRunOf(plan));
        var ok := store.SaveSchedulerState(job.id, current, fails);
        return if ok then Some(current) else None;
      }
      if current.nextRunAt.value <= now {
        state := ReconcileMissed(job, current, now, fails, S);
      } else {
        state := Some(current);
      }
    }

    method ReconcileMissed(job: Job, entering: SchedulerState, now: int, fails: bool, ghost S: iset<int>)
      returns (state: Option<SchedulerState>)
      requires job.schedule.Cron? ==> CronOf(job.schedule.next, S)
      requires entering.nextRunAt.Some? && entering.nextRunAt.value <= now
      modifies store
      ensures state.None? <==> fails || (Skips(entering, entering.nextRunAt.value, now) && job.id !in old(store.cursors)
                                         && Fire(job.id, entering.nextRunAt.value) in old(store.runs))
      ensures state.None? ==> store.View() == old(store.View())
      ensures state.Some? ==>
        exists missed, skipped :: Reconciled(job.schedule, S, entering, now, missed, skipped) &&
          if !skipped then
            state.value == missed && store.View() == AfterSave(old(store.View()), job.id, missed)
          else
            var (rows1, r) := AfterClaim(old(store.View()), MakeSkipClaim(job, entering.nextRunAt.value, missed, now),
                                         false);
            && store.View() == rows1
            && match r
               case Skipped(s) => state.value == s
               case _ => CursorOf(old(store.View()), job.id) == state
    {
      var missedAt := entering.nextRunAt.value;
      var missed, skipped := ReconcileMissedCursor(job.schedule, entering, now, S);
      if !skipped {
        var ok := store.SaveSchedulerState(job.id, missed, fails);
        return if ok then Some(missed) else None;
      }
      var r := store.ClaimScheduledRun(MakeSkipClaim(job, missedAt, missed, now), false, fails);
      match r {
        case AlreadyClaimed => state := if job.id in store.cursors then Some(store.cursors[job.id]) else None;
        case StoreError => state := None;
        case Skipped(s) => state := Some(s);
        case Granted(s) => state := Some(s);
      }
    }

    /** What registering or updating a job needs to succeed. */
    ghost predicate CanInstall(job: Job, now: int, fallback: Policy, fails: bool)
      reads store
    {
      && job.enabled && BuildPlan(job.schedule, now).Planned?
      && !ReconcileFails(store.View(), job, BuildPlan(job.schedule, now), now, fallback, fails)
    }

    /** Register and Update share this: reconcile, then install the registration. */
    method Install(job: Job, now: int, fallback: Policy, fails: bool, ghost S: iset<int>) returns (registered: bool)
      requires Valid() && job.enabled && (job.schedule.Cron? ==> CronOf(job.schedule.next, S))
      modifies this`registrations, store
      ensures Valid() && (registered <==> old(CanInstall(job, now, fallback, fails)))
      ensures registered ==>
        job.id in registrations && registrations[job.id].job == job
          && Leads(old(View()), ReconcileEvents(job, now, fallback, S), View())
      ensures !registered && BuildPlan(job.schedule, now).PastOneTime? && !fails ==>
        registrations == old(registrations) && Leads(old(View()), ReconcileEvents(job, now, fallback, S), View())
      ensures !registered && !(BuildPlan(job.schedule, now).PastOneTime? && !fails) ==> View() == old(View())
    {
      ghost var before := View();
      var plan := BuildPlan(job.schedule, now);
      if plan.Invalid? {
        return false;
      }
      var state := ReconcileSchedulerState(job, plan, now, fallback, fails, S);
      if state.None? {
        return false;
      }
      if plan.PastOneTime? {
        ReconcileLeads(before, job, S, now, fallback, View(), state.value);
        return false;
      }
      registrations := registrations[job.id := Registration(job, state.value)];
      ReconcileLeads(before, job, S, now, fallback, View(), state.value);
      return true;
    }

    method Register(job: Job, now: int, fallback: Policy, fails: bool, ghost S: iset<int>) returns (registered: bool)
      requires Valid() && (job.schedule.Cron? ==> CronOf(job.schedule.next, S))
      modifies this`registrations, store
      ensures Valid() && (registered <==> job.id !in old(registrations) && old(CanInstall(job, now, fallback, fails)))
      ensures registered ==>
        job.id in registrations && registrations[job.id].job == job
          && Leads(old(View()), ReconcileEvents(job, now, fallback, S), View())
      ensures job.id !in old(registrations) && !job.enabled && !fails ==>
        Leads(old(View()), [Event.Unregister(job.id)], View())
      ensures job.id !in old(registrations) && job.enabled && BuildPlan(job.schedule, now).PastOneTime? && !fails ==>
        registrations == old(registrations) && Leads(old(View()), ReconcileEvents(job, now, fallback, S), View())
      ensures job.id in old(registrations) || fails || (job.enabled && !BuildPlan(job.schedule, now).PastOneTime?) ==>
        registered || View() == old(View())
    {
      ghost var before := View();
      if job.id in registrations {
        return false;
      }
      if !job.enabled {
        var ok := store.DeleteSchedulerState(job.id, fails);
        if ok {
          assert registrations - {job.id} == registrations;
          TakeStep(before, Event.Unregister(job.id), View());
        }
        return false;
      }
      registered := Install(job, now, fallback, fails, S);
    }

    method Update(job: Job, now: int, fallback: Policy, fails: bool, ghost S: iset<int>) returns (registered: bool)
      requires Valid() && (job.schedule.Cron? ==> CronOf(job.schedule.next, S))
      modifies this`registrations, store
      ensures Valid() && (registered <==> job.id in old(registrations) && old(CanInstall(job, now, fallback, fails)))
      ensures registered ==>
        job.id in registrations && registrations[job.id].job == job
          && Leads(old(View()), ReconcileEvents(job, now, fallback, S), View())
      ensures job.id in old(registrations) && !job.enabled ==>
        Leads(old(View()), [if fails then Drop(job.id) else Event.Unregister(job.id)], View())
      ensures job.id in old(registrations) && job.enabled && BuildPlan(job.schedule, now).PastOneTime? ==>
        Leads(old(View()), [Drop(job.id)], View())
      ensures job.id !in old(registrations) || (job.enabled && !BuildPlan(job.schedule, now).PastOneTime?) ==>
        registered || View() == old(View())
    {
      ghost var before := View();
      if job.id !in registrations {
        return false;
      }
      if !job.enabled {
        registrations := registrations - {job.id};
        var ok := store.DeleteSchedulerState(job.id, fails);
        TakeStep(before, if ok then Event.Unregister(job.id) else Drop(job.id), View());
        return false;
      }
      if BuildPlan(job.schedule, now).PastOneTime? {
        registrations := registrations - {job.id};
        TakeStep(before, Drop(job.id), View());
        return false;
      }
      registered := Install(job, now, fallback, fails, S);
    }

    method Unregister(job: string, fails: bool) returns (found: bool)
      requires Valid()
      modifies this`registrations, store
      ensures Valid() && (found <==> job in old(registrations))
      ensures found ==> Leads(old(View()), [if fails then Drop(job) else Event.Unregister(job)], View())
      ensures !found ==> View() == old(View())
    {
      ghost var before := View();
      if job !in registrations {
        return false;
      }
      registrations := registrations - {job};
      var ok := store.DeleteSchedulerState(job, fails);
      TakeStep(before, if ok then Event.Unregister(job) else Drop(job), View());
      return true;
    }

    method UpdateRegistrationState(job: string, state: SchedulerState)
      modifies this`registrations
      ensures job in registrations <==> job in old(registrations) && state.nextRunAt.Some?
      ensures job in registrations ==> registrations[job] == old(registrations)[job].(state := state)
      ensures registrations - {job} == old(registrations) - {job}
    {
      if job !in registrations {
        return;
      }
      registrations := registrations[job := registrations[job].(state := state)];
      if state.nextRunAt.None? {
        registrations := registrations - {job};
      }
    }

    /** The loop l publishes the state it has from the store; w and es are how it got here. */
    method PublishState(job: string, state: SchedulerState, ghost l: nat, ghost w: World, ghost es: seq<Event>)
      requires l in loops && loops[l].Claimed? && loops[l].job == job && loops[l].state == state && Leads(w, es, View())
      modifies this`registrations, this`loops
      ensures Leads(w, es + [Publish(l)], View())
      ensures loops == match old(loops)[l].fire
                       case Some(fire) => old(loops)[l := ToHand(job, state, fire)]
                       case None => old(loops) - {l}
    {
      ghost var before := View();
      UpdateRegistrationState(job, state);
      SameElsewhere(registrations, before.registrations, job);
      loops := if loops[l].fire.Some? then loops[l := ToHand(job, state, loops[l].fire.value)] else loops - {l};
      LeadsOn(w, es, before, Publish(l), View());
    }

    /** The loop l handed its fire over and was refused by the fire limit: the cursor is deferred
        and published, or nothing changes when the store fails; either way the loop is done. */
    method DeferAfterFireLimit(job: string, state: SchedulerState, retryAt: int, fails: bool,
                               ghost l: nat, ghost w: World, ghost es: seq<Event>)
      returns (ok: bool)
      requires l in loops && loops[l] == Handed(job, state) && Leads(w, es, View())
      modifies this`registrations, this`loops, store
      ensures ok == !fails
      ensures var steps := if fails then es + [Finish(l)]
                           else es + [Defer(l, retryAt)] + [ReadBack(l)] + [Publish(l)];
              Leads(w, steps, View())
    {
      ghost var before := View();
      var target := retryAt;
      if state.nextRunAt.Some? && state.nextRunAt.value > target {
        target := state.nextRunAt.value;
      }
      var deferred := state.(nextRunAt := Some(target));
      ok := store.SaveSchedulerState(job, deferred, fails);
      if !ok {
        loops := loops - {l};
        LeadsOn(w, es, before, Finish(l), View());
        return;
      }
      loops := loops[l := Saved(job)];
      LeadsOn(w, es, before, Defer(l, retryAt), View());
      before := View();
      var saved := store.cursors[job];
      loops := loops[l := Claimed(job, saved, None)];
      LeadsOn(w, es + [Defer(l, retryAt)], before, ReadBack(l), View());
      PublishState(job, saved, l, w, es + [Defer(l, retryAt)] + [ReadBack(l)]);
    }

    /** A granted fire is published, handed over, and deferred when the dispatcher refuses it. */
    method RunGranted(job: string, state: SchedulerState, fire: Fire, limited: Option<int>, saveFails: bool,
                      ghost l: nat, ghost w: World, ghost es: seq<Event>)
      requires l in loops && loops[l] == Claimed(job, state, Some(fire)) && Leads(w, es, View())
      modifies this, store
      ensures Leads(w, es + [Publish(l)] + [HandOver(l)] + AfterHandOver(l, limited, saveFails), View())
    {
      PublishState(job, state, l, w, es);
      ghost var published, sofar := View(), es + [Publish(l)];
      handed, loops := handed + [fire], loops[l := Handed(job, state)];
      LeadsOn(w, sofar, published, HandOver(l), View());
      sofar := sofar + [HandOver(l)];
      if limited.Some? {
        var _ := DeferAfterFireLimit(job, state, limited.value, saveFails, l, w, sofar);
        assert !saveFails ==>
          sofar + [Defer(l, limited.value)] + [ReadBack(l)] + [Publish(l)]
            == sofar + ([Defer(l, limited.value)] + [ReadBack(l)] + [Publish(l)]);
      } else {
        ghost var before := View();
        loops := loops - {l};
        LeadsOn(w, sofar, before, Finish(l), View());
      }
    }

    /** One due fire of one job, by the loop l: claim, publish the cursor, hand over, defer on a
        fire limit. limited is the dispatcher's retry time when it refuses. */
    method ExecuteScheduledJob(job: string, claimedAt: int, overlap: bool, claimFails: bool, limited: Option<int>,
                               saveFails: bool, ghost l: nat)
      requires Valid() && l !in loops
      modifies this, store
      ensures Valid() && Distinct(handed)
      ensures job !in old(registrations) || old(registrations)[job].state.nextRunAt.None? ==> View() == old(View())
      ensures job in old(registrations) && old(registrations)[job].state.nextRunAt.Some? ==>
        var answer := AfterClaim(old(store.View()), MakeClaim(old(registrations)[job], claimedAt), overlap).1;
        Leads(old(View()), ExecutionEvents(l, job, claimedAt, overlap, if claimFails then StoreError else answer,
                                           limited, saveFails), View())
    {
      ghost var before := View();
      ReachableIsSafe(before);
      if job !in registrations {
        return;
      }
      var registration := registrations[job];
      if registration.state.nextRunAt.None? {
        return;
      }
      loops := loops[l := Pending(registration)];
      LeadsByOne(before, Begin(l, job), View());
      ghost var begun := View();
      var claim := MakeClaim(registration, claimedAt);
      var r := store.ClaimScheduledRun(claim, overlap, claimFails);
      if r.StoreError? {
        loops := loops - {l};
        LeadsOn(before, [Begin(l, job)], begun, ClaimError(l), View());
      } else {
        loops := loops[l := AfterClaimEvent(registration, claim, r)];
        LeadsOn(before, [Begin(l, job)], begun, ClaimFire(l, claimedAt, overlap), View());
        ghost var es := [Begin(l, job)] + [ClaimFire(l, claimedAt, overlap)];
        match r {
          case Granted(state) =>
            RunGranted(registration.job.id, state, FireOf(claim), limited, saveFails, l, before, es);
          case Skipped(state) => PublishState(registration.job.id, state, l, before, es);
          case AlreadyClaimed => PublishState(registration.job.id, registration.state, l, before, es);
        }
      }
      LeadsToReachable(before, ExecutionEvents(l, job, claimedAt, overlap, r, limited, saveFails), View());
      ReachableIsSafe(View());
    }
  }
}
