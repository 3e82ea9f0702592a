/** The scheduler: plans, states and claims, and what reconciling a job with the durable
    store comes to. */
module Scheduler {
  import opened Ordering
  import opened ScheduleTime
  import opened CatchUp
  import opened SchedulerStore

  /** The definition of a job, as far as the scheduler reads it. */
  datatype Job = Job(id: string, schedule: Schedule, hash: string, policy: Option<Policy>, graceSeconds: int,
                     enabled: bool)
  datatype Registration = Registration(job: Job, state: SchedulerState)
  datatype Plan = Invalid | PastOneTime | Planned(nextRun: Option<int>)

  type Registrations = map<string, Registration>

  // ----- plans and states -----

  function BuildPlan(schedule: Schedule, now: int): Plan {
    match schedule
    case Cron(next, valid) => if !valid then Invalid else Planned(next(now))
    case Every(interval) => Planned(Some(now + interval))
    case At(time) => if time <= now then PastOneTime else Planned(Some(time))
  }

  function NextRunOf(plan: Plan): Option<int> {
    match plan
    case Planned(nextRun) => nextRun
    case _ => None
  }

  function Grace(graceSeconds: int): int {
    if graceSeconds < 0 then 0 else graceSeconds
  }

  function InitialState(job: Job, plan: Plan, fallback: Policy): SchedulerState {
    SchedulerState(NextRunOf(plan), None, None, None, job.hash,
                   if job.policy.Some? then job.policy.value else fallback,
                   Grace(job.graceSeconds), None, 0, 0)
  }

  function MergeState(state: SchedulerState, job: Job, plan: Plan, fallback: Policy): SchedulerState {
    var changed := state.hash != job.hash;
    var grace :=
      if changed || job.policy.Some? || job.graceSeconds > 0 then Grace(job.graceSeconds) else state.graceSeconds;
    var merged := state.(
      policy := if job.policy.Some? then job.policy.value else if changed then fallback else state.policy,
      graceSeconds := grace);
    if changed then merged.(nextRunAt := NextRunOf(plan), hash := job.hash, resumeFailures := 0) else merged
  }

  function MakeClaim(registration: Registration, claimedAt: int): Claim
    requires registration.state.nextRunAt.Some?
  {
    var state := registration.state;
    var at := state.nextRunAt.value;
    Claim(registration.job.id, at, NextRunAfter(registration.job.schedule, at), claimedAt, registration.job.hash,
          state.policy, state.graceSeconds, IsCatchUp(at, claimedAt, state), false, false)
  }

  function MakeSkipClaim(job: Job, missedAt: int, state: SchedulerState, now: int): Claim {
    Claim(job.id, missedAt, state.nextRunAt, now, state.hash, state.policy, state.graceSeconds, false, true, true)
  }

  function AfterUpdate(registrations: Registrations, job: string, state: SchedulerState): Registrations {
    if job !in registrations then registrations
    else if state.nextRunAt.None? then registrations - {job}
    else registrations[job := registrations[job].(state := state)]
  }

  function DeferredState(state: SchedulerState, retryAt: int): SchedulerState {
    if state.nextRunAt.Some? && state.nextRunAt.value > retryAt then state else state.(nextRunAt := Some(retryAt))
  }

  // ----- reconciling a job with the store -----

  ghost function Entering(existing: Option<SchedulerState>, job: Job, plan: Plan, fallback: Policy): SchedulerState {
    match existing
    case Some(stored) => MergeState(stored, job, plan, fallback)
    case None => InitialState(job, plan, fallback)
  }

  /** What a reconciliation that loaded existing writes when the store holds rows. It goes on
      with the settled state, or with the one it reads back when none is settled. */
  ghost predicate WritesTo(existing: Option<SchedulerState>, rows: Rows, job: Job, S: iset<int>, plan: Plan, now: int,
                           fallback: Policy, rows': Rows, settled: Option<SchedulerState>)
  {
    var entering := Entering(existing, job, plan, fallback);
    if !plan.Planned? then
      && settled.None?
      && rows' == AfterSave(rows, job.id, entering.(nextRunAt := None, lastMisfireAt := Some(now),
                                                    misfireCount := entering.misfireCount + 1))
    else if entering.nextRunAt.None? then
      settled.None? && rows' == AfterSave(rows, job.id, entering.(nextRunAt := NextRunOf(plan)))
    else if entering.nextRunAt.value > now then
      settled == Some(entering) && rows' == rows
    else
      exists missed, skipped :: Reconciled(job.schedule, S, entering, now, missed, skipped) &&
        if !skipped then
          settled.None? && rows' == AfterSave(rows, job.id, missed)
        else
          var (rows1, r) := AfterClaim(rows, MakeSkipClaim(job, entering.nextRunAt.value, missed, now), false);
          && rows' == rows1
          && settled == match r
                        case Skipped(state) => Some(state)
                        case _ => None
  }

  /** The state a reconciliation goes on with. */
  function Settling(rows: Rows, id: string, settled: Option<SchedulerState>): Option<SchedulerState> {
    if settled.Some? then settled else CursorOf(rows, id)
  }

  /** A successful reconciliation that nothing interrupts leads from rows to rows' with the given state. */
  ghost predicate ReconcilesTo(rows: Rows, job: Job, S: iset<int>, plan: Plan, now: int, fallback: Policy,
                               rows': Rows, state: SchedulerState)
  {
    var existing := CursorOf(rows, job.id);
    || WritesTo(existing, rows, job, S, plan, now, fallback, rows', Some(state))
    || (WritesTo(existing, rows, job, S, plan, now, fallback, rows', None) && CursorOf(rows', job.id) == Some(state))
  }
}
