/** The durable cursor of one scheduled job and what the catch-up policies make of a
    missed cursor: the instants the job loop goes on to claim. */
module CatchUp {
  import opened Ordering
  import opened ScheduleTime

  /** The persisted cursor. A fire is named by its instant (the job is implied). */
  datatype SchedulerState = SchedulerState(
    nextRunAt: Option<int>,
    lastRunAt: Option<int>,
    lastScheduledAt: Option<int>,
    lastFire: Option<int>,
    hash: string,
    policy: Policy,
    graceSeconds: int,
    lastMisfireAt: Option<int>,
    misfireCount: nat,
    resumeFailures: nat)

  function CatchUpGrace(state: SchedulerState): int {
    if state.graceSeconds > 0 then state.graceSeconds * SECOND else SECOND
  }

  /** The missed fire of a cursor due at c is skipped, not caught up. */
  predicate Skips(state: SchedulerState, c: int, now: int) {
    state.policy == SkipMissed && now - c > CatchUpGrace(state)
  }

  function IsCatchUp(scheduledAt: int, claimedAt: int, state: SchedulerState): bool {
    if claimedAt - scheduledAt > CatchUpGrace(state) then true
    else if scheduledAt > claimedAt || state.lastMisfireAt.None? then false
    else state.policy != SkipMissed && scheduledAt <= state.lastMisfireAt.value
  }

  /** The state after a missed cursor has been reconciled, given the latest missed run;
      the flag says that the missed fire is to be recorded as skipped. */
  ghost predicate Reconciled(schedule: Schedule, S: iset<int>, before: SchedulerState, now: int,
                             after: SchedulerState, skipped: bool)
  {
    && before.nextRunAt.Some?
    && var missedAt := before.nextRunAt.value;
    var touched := before.(lastMisfireAt := Some(now), misfireCount := before.misfireCount + 1, resumeFailures := 0);
    if before.policy == Replay then
      !skipped && after == touched.(nextRunAt := Some(missedAt), lastScheduledAt := None)
    else if Skips(before, missedAt, now) then
      skipped
        && after == touched.(nextRunAt := NextRunAfterMissed(schedule, missedAt, now),
                             lastScheduledAt := Some(missedAt))
    else
      && !skipped && after.nextRunAt.Some?
      && IsLatestMissed(schedule, S, missedAt, now, after.nextRunAt.value)
      && after == touched.(nextRunAt := after.nextRunAt, lastScheduledAt := after.nextRunAt)
  }

  method ReconcileMissedCursor(schedule: Schedule, before: SchedulerState, now: int, ghost S: iset<int>)
    returns (state: SchedulerState, skipped: bool)
    requires schedule.Cron? ==> CronOf(schedule.next, S)
    requires before.nextRunAt.Some? && before.nextRunAt.value <= now
    ensures Reconciled(schedule, S, before, now, state, skipped)
  {
    var missedAt := before.nextRunAt.value;
    state, skipped := before, false;
    state := state.(lastMisfireAt := Some(now));
    state := state.(misfireCount := state.misfireCount + 1);
    state := state.(resumeFailures := 0);
    match state.policy {
      case Coalesce | RunOnce =>
        var coalescedAt := LatestMissedRunAt(schedule, missedAt, now, S);
        state := state.(nextRunAt := Some(coalescedAt));
        state := state.(lastScheduledAt := Some(coalescedAt));
      case Replay =>
        state := state.(nextRunAt := Some(missedAt));
        state := state.(lastScheduledAt := None);
      case SkipMissed =>
        if now - missedAt > CatchUpGrace(state) {
          state := state.(nextRunAt := NextRunAfterMissed(schedule, missedAt, now));
          state := state.(lastScheduledAt := Some(missedAt));
          return state, true;
        }
        var coalescedAt := LatestMissedRunAt(schedule, missedAt, now, S);
        state := state.(nextRunAt := Some(coalescedAt));
        state := state.(lastScheduledAt := Some(coalescedAt));
    }
  }

  // ----- the fires of a schedule -----

  /** The instants of a schedule from start on: the interval grid, or the cron instants. */
  ghost predicate IsFire(schedule: Schedule, S: iset<int>, start: int, t: int) {
    match schedule
    case Every(interval) => exists k: nat :: t == start + k * interval
    case Cron(_, _) => t in S && t >= start
    case At(_) => t == start
  }

  /** start is a fire of a schedule that the policies can be judged on. */
  ghost predicate Regular(schedule: Schedule, S: iset<int>, start: int) {
    match schedule
    case Every(interval) => interval > 0
    case Cron(next, valid) => valid && CronOf(next, S) && start in S
    case At(_) => false
  }

  lemma NextFire(schedule: Schedule, S: iset<int>, start: int, t: int)
    requires Regular(schedule, S, start) && IsFire(schedule, S, start, t)
    ensures match NextRunAfter(schedule, t)
            case Some(n) =>
              n > t && IsFire(schedule, S, start, n) && forall f :: IsFire(schedule, S, start, f) && f > t ==> n <= f
            case None => forall f :: IsFire(schedule, S, start, f) ==> f <= t
  {
    match schedule {
      case Every(interval) =>
        var k: nat :| t == start + k * interval;
        assert start + (k + 1) * interval == t + interval;
        forall f | IsFire(schedule, S, start, f) && f > t ensures t + interval <= f {
          var j: nat :| f == start + j * interval;
          GridGap(interval, k, j);
        }
      case Cron(next, valid) =>
        assert next(t).Some? ==> IsLeastAbove(S, t, next(t).value);
    }
  }

  lemma GridGap(interval: int, k: nat, j: nat)
    requires interval > 0 && k * interval < j * interval
    ensures k * interval + interval <= j * interval
  {
    var d := j - k;
    assert d * interval == j * interval - k * interval;
    assert d >= 1;
    assert (d - 1) * interval >= 0;
  }

  lemma StartIsFire(schedule: Schedule, S: iset<int>, start: int)
    requires Regular(schedule, S, start)
    ensures IsFire(schedule, S, start, start)
  {
    if schedule.Every? {
      assert start == start + 0 * schedule.interval;
    }
  }

  // ----- claiming from a cursor -----

  /** The instants claimed from a cursor while it is due, every claim granted:
      each claim moves the cursor by nextRunAfter. */
  ghost function Claims(schedule: Schedule, S: iset<int>, start: int, cursor: Option<int>, now: int): seq<int>
    requires Regular(schedule, S, start)
    requires cursor.Some? ==> IsFire(schedule, S, start, cursor.value)
    decreases if cursor.Some? && cursor.value <= now then now - cursor.value + 1 else 0
  {
    if cursor.None? || cursor.value > now then []
    else
      NextFire(schedule, S, start, cursor.value);
      [cursor.value] + Claims(schedule, S, start, NextRunAfter(schedule, cursor.value), now)
  }

  ghost predicate StrictlyIncreasing(s: seq<int>) {
    forall i, j :: 0 <= i < j < |s| ==> s[i] < s[j]
  }

  lemma {:induction false} ClaimsAreTheDueFires(schedule: Schedule, S: iset<int>, start: int, cursor: Option<int>,
                                                now: int)
    requires Regular(schedule, S, start)
    requires cursor.Some? ==> IsFire(schedule, S, start, cursor.value)
    ensures StrictlyIncreasing(Claims(schedule, S, start, cursor, now))
    ensures forall t :: t in Claims(schedule, S, start, cursor, now) <==>
      cursor.Some? && cursor.value <= t <= now && IsFire(schedule, S, start, t)
    decreases if cursor.Some? && cursor.value <= now then now - cursor.value + 1 else 0
  {
    if cursor.Some? && cursor.value <= now {
      NextFire(schedule, S, start, cursor.value);
      ClaimsAreTheDueFires(schedule, S, start, NextRunAfter(schedule, cursor.value), now);
      var rest := Claims(schedule, S, start, NextRunAfter(schedule, cursor.value), now);
      assert forall i :: 0 <= i < |rest| ==> rest[i] in rest;
      assert Claims(schedule, S, start, cursor, now) == [cursor.value] + rest;
    }
  }

  /** Replay claims every missed instant up to now exactly once, in increasing order. */
  lemma ReplayClaimsEveryMissedFire(schedule: Schedule, S: iset<int>, before: SchedulerState, now: int,
                                    after: SchedulerState, skipped: bool)
    requires Reconciled(schedule, S, before, now, after, skipped) && before.policy == Replay
    requires before.nextRunAt.value <= now && Regular(schedule, S, before.nextRunAt.value)
    ensures !skipped
    ensures after.nextRunAt.Some? && IsFire(schedule, S, before.nextRunAt.value, after.nextRunAt.value)
    ensures var claims := Claims(schedule, S, before.nextRunAt.value, after.nextRunAt, now);
            && StrictlyIncreasing(claims)
            && forall t :: t in claims <==> t <= now && IsFire(schedule, S, before.nextRunAt.value, t)
  {
    var missedAt := before.nextRunAt.value;
    StartIsFire(schedule, S, missedAt);
    ClaimsAreTheDueFires(schedule, S, missedAt, after.nextRunAt, now);
    forall t | IsFire(schedule, S, missedAt, t) ensures t >= missedAt {
      FireNotBeforeStart(schedule, S, missedAt, t);
    }
  }

  lemma FireNotBeforeStart(schedule: Schedule, S: iset<int>, start: int, t: int)
    requires Regular(schedule, S, start) && IsFire(schedule, S, start, t)
    ensures t >= start
  {
    if schedule.Every? {
      var k: nat :| t == start + k * schedule.interval;
      assert k * schedule.interval >= 0;
    }
  }

  lemma LatestIsGreatestFire(schedule: Schedule, S: iset<int>, missedAt: int, now: int, latest: int)
    requires Regular(schedule, S, missedAt) && missedAt <= now && IsLatestMissed(schedule, S, missedAt, now, latest)
    ensures IsFire(schedule, S, missedAt, latest) && latest <= now
    ensures forall t :: IsFire(schedule, S, missedAt, t) && t <= now ==> t <= latest
  {
    match schedule {
      case Every(interval) =>
        var k: nat :| latest == missedAt + k * interval && latest <= now < latest + interval;
        forall t | IsFire(schedule, S, missedAt, t) && t <= now ensures t <= latest {
          var j: nat :| t == missedAt + j * interval;
          if t > latest {
            GridGap(interval, k, j);
          }
        }
      case Cron(_, _) =>
        assert missedAt in S && missedAt - SECOND < missedAt <= now;
    }
  }

  /** Coalesce and run-once, and skip within its grace, claim exactly one instant:
      the latest one at or before now. */
  lemma CoalesceClaimsTheLatest(schedule: Schedule, S: iset<int>, before: SchedulerState, now: int,
                                after: SchedulerState, skipped: bool)
    requires Reconciled(schedule, S, before, now, after, skipped)
    requires before.policy == Coalesce || before.policy == RunOnce
             || (before.policy == SkipMissed && now - before.nextRunAt.value <= CatchUpGrace(before))
    requires before.nextRunAt.value <= now && Regular(schedule, S, before.nextRunAt.value)
    ensures !skipped && after.nextRunAt.Some? && IsFire(schedule, S, before.nextRunAt.value, after.nextRunAt.value)
    ensures Claims(schedule, S, before.nextRunAt.value, after.nextRunAt, now) == [after.nextRunAt.value]
    ensures after.nextRunAt.value <= now
    ensures forall t :: IsFire(schedule, S, before.nextRunAt.value, t) && t <= now ==> t <= after.nextRunAt.value
  {
    var missedAt := before.nextRunAt.value;
    var latest := after.nextRunAt.value;
    LatestIsGreatestFire(schedule, S, missedAt, now, latest);
    NextFire(schedule, S, missedAt, latest);
    assert Claims(schedule, S, missedAt, NextRunAfter(schedule, latest), now) == [];
  }

  /** Skip beyond its grace records the missed instant and leaves nothing due. */
  lemma SkipClaimsNothing(schedule: Schedule, S: iset<int>, before: SchedulerState, now: int,
                          after: SchedulerState, skipped: bool)
    requires Reconciled(schedule, S, before, now, after, skipped)
    requires before.policy == SkipMissed && now - before.nextRunAt.value > CatchUpGrace(before)
    requires before.nextRunAt.value <= now && Regular(schedule, S, before.nextRunAt.value)
    ensures skipped
    ensures IsFirstFireAfter(schedule, S, before.nextRunAt.value, now, after.nextRunAt)
    ensures Claims(schedule, S, before.nextRunAt.value, after.nextRunAt, now) == []
  {
    var missedAt := before.nextRunAt.value;
    match schedule {
      case Every(interval) =>
        GridAfterMissed(interval, S, missedAt, now);
      case Cron(next, valid) =>
        assert next(now).Some? ==> IsLeastAbove(S, now, next(now).value);
    }
  }

  ghost predicate IsFirstFireAfter(schedule: Schedule, S: iset<int>, start: int, now: int, next: Option<int>) {
    match next
    case Some(n) =>
      n > now && IsFire(schedule, S, start, n) && forall t :: IsFire(schedule, S, start, t) && t > now ==> n <= t
    case None => forall t :: IsFire(schedule, S, start, t) ==> t <= now
  }

  lemma GridAfterMissed(interval: int, S: iset<int>, missedAt: int, now: int)
    requires interval > 0 && missedAt <= now
    ensures IsFirstFireAfter(Every(interval), S, missedAt, now, NextRunAfterMissed(Every(interval), missedAt, now))
  {
    var k: nat := (now - missedAt) / interval;
    DivisionBounds(now - missedAt, interval);
    var n := missedAt + (k + 1) * interval;
    assert (k + 1) * interval == k * interval + interval;
    forall t | IsFire(Every(interval), S, missedAt, t) && t > now ensures n <= t {
      var j: nat :| t == missedAt + j * interval;
      GridGap(interval, k, j);
    }
  }

  // ----- when the latest missed run lies before the cursor -----

  /** The bisection can move a cursor backwards, and does so exactly when the cursor is
      not a cron instant, an instant lies within the second before it and none between
      it and now. */
  lemma LatestBeforeMissed(S: iset<int>, missedAt: int, now: int, latest: int)
    requires missedAt <= now && IsLatestCron(S, true, missedAt, now, latest)
    ensures latest < missedAt <==>
      (exists s :: s in S && missedAt - SECOND < s < missedAt) && !exists s :: s in S && missedAt <= s <= now
  {
    if exists s :: s in S && missedAt - SECOND < s < missedAt {
      var s :| s in S && missedAt - SECOND < s < missedAt;
      assert s <= now;
    }
    if exists s :: s in S && missedAt <= s <= now {
      var s :| s in S && missedAt <= s <= now;
      assert missedAt - SECOND < s;
    }
  }
}
