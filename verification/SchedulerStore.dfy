/** The durable scheduler store: one cursor row per job and one run row per claimed fire. */
module SchedulerStore {
  import opened Ordering
  import opened ScheduleTime
  import opened CatchUp

  /** A fire id: the hash of job and instant, taken as injective. */
  datatype Fire = Fire(job: string, at: int)

  /** What the run row inserted with a claim says: handed on for dispatch, or skipped. */
  datatype RunRow = Reserved | SkipRecorded

  datatype Claim = Claim(
    job: string,
    scheduledAt: int,
    nextRunAt: Option<int>,
    claimedAt: int,
    hash: string,
    policy: Policy,
    graceSeconds: int,
    catchUp: bool,
    misfire: bool,
    skip: bool)

  datatype ClaimResult =
    | Granted(state: SchedulerState)
    | Skipped(state: SchedulerState)
    | AlreadyClaimed
    | StoreError

  datatype Rows = Rows(cursors: map<string, SchedulerState>, runs: map<Fire, RunRow>)

  function FireOf(claim: Claim): Fire {
    Fire(claim.job, claim.scheduledAt)
  }

  function StateAfterClaim(existing: Option<SchedulerState>, claim: Claim, skipped: bool): SchedulerState {
    SchedulerState(
      nextRunAt := claim.nextRunAt,
      lastRunAt :=
        if !skipped then Some(claim.claimedAt) else if existing.Some? then existing.value.lastRunAt else None,
      lastScheduledAt := Some(claim.scheduledAt),
      lastFire := Some(claim.scheduledAt),
      hash := claim.hash,
      policy := claim.policy,
      graceSeconds := claim.graceSeconds,
      lastMisfireAt :=
        if claim.misfire then Some(claim.claimedAt)
        else if claim.catchUp && existing.Some? then existing.value.lastMisfireAt
        else None,
      misfireCount :=
        var count := if existing.Some? then existing.value.misfireCount else 0;
        if claim.misfire then count + 1 else if claim.catchUp then count else 0,
      resumeFailures := 0)
  }

  function CursorOf(rows: Rows, job: string): Option<SchedulerState> {
    if job in rows.cursors then Some(rows.cursors[job]) else None
  }

  /** The claim transaction. overlap says whether another run of the job is active. */
  function AfterClaim(rows: Rows, claim: Claim, overlap: bool): (Rows, ClaimResult) {
    var existing := CursorOf(rows, claim.job);
    if existing.Some? && existing.value.lastFire == Some(claim.scheduledAt) then (rows, AlreadyClaimed)
    else if FireOf(claim) in rows.runs then (rows, AlreadyClaimed)
    else
      var skipped := claim.skip || overlap;
      var state := StateAfterClaim(existing, claim, skipped);
      (Rows(rows.cursors[claim.job := state], rows.runs[FireOf(claim) := if skipped then SkipRecorded else Reserved]),
       if skipped then Skipped(state) else Granted(state))
  }

  function AfterSave(rows: Rows, job: string, state: SchedulerState): Rows {
    rows.(cursors := rows.cursors[job := state])
  }

  function AfterDelete(rows: Rows, job: string): Rows {
    rows.(cursors := rows.cursors - {job})
  }

  /** The store as the scheduler updates it. fails models an error before the transaction commits. */
  class Store {
    var cursors: map<string, SchedulerState>
    var runs: map<Fire, RunRow>

    constructor ()
      ensures View() == Rows(map[], map[])
    {
      cursors, runs := map[], map[];
    }

    function View(): Rows
      reads this
    {
      Rows(cursors, runs)
    }

    method ClaimScheduledRun(claim: Claim, overlap: bool, fails: bool) returns (r: ClaimResult)
      modifies this
      ensures (View(), r) == if fails then (old(View()), StoreError) else AfterClaim(old(View()), claim, overlap)
    {
      if fails {
        return StoreError;
      }
      var existing := if claim.job in cursors then Some(cursors[claim.job]) else None;
      if existing.Some? && existing.value.lastFire == Some(claim.scheduledAt) {
        return AlreadyClaimed;
      }
      var skipped := claim.skip || overlap;
      var next := StateAfterClaim(existing, claim, skipped);
      var fire := FireOf(claim);
      if fire in runs {
        return AlreadyClaimed;  // the unique index on fire ids rolls the transaction back
      }
      cursors := cursors[claim.job := next];
      runs := runs[fire := if skipped then SkipRecorded else Reserved];
      r := if skipped then Skipped(next) else Granted(next);
    }

    method SaveSchedulerState(job: string, state: SchedulerState, fails: bool) returns (ok: bool)
      modifies this
      ensures ok == !fails
      ensures View() == if fails then old(View()) else AfterSave(old(View()), job, state)
    {
      if fails {
        return false;
      }
      cursors := cursors[job := state];
      return true;
    }

    method DeleteSchedulerState(job: string, fails: bool) returns (ok: bool)
      modifies this
      ensures ok == !fails
      ensures View() == if fails then old(View()) else AfterDelete(old(View()), job)
    {
      if fails {
        return false;
      }
      cursors := cursors - {job};
      return true;
    }
  }
}
