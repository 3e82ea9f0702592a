/** Schedule arithmetic: the next and the latest missed instant of a schedule, and
    what the four catch-up policies make of a missed cursor. Times and durations
    are whole nanoseconds. */
module ScheduleTime {
  import opened Ordering

  const SECOND: int := 1_000_000_000
  const INT64_LIMIT: int := 0x8000_0000_0000_0000

  /** A cron implementation: Next(t), or None where the cron library answers with the zero time. */
  type CronNext = int -> Option<int>

  datatype Schedule =
    | Cron(next: CronNext, valid: bool)
    | Every(interval: int)
    | At(time: int)

  datatype Policy = SkipMissed | Coalesce | Replay | RunOnce

  // ----- what a cron implementation promises -----

  ghost predicate IsLeastAbove(S: iset<int>, t: int, n: int) {
    n in S && n > t && forall s :: s in S && s > t ==> n <= s
  }

  /** next enumerates S from below, and instants of S are at least one second apart. */
  ghost predicate CronOf(next: CronNext, S: iset<int>) {
    && (forall t :: match next(t)
                    case None => forall s :: s in S ==> s <= t
                    case Some(n) => IsLeastAbove(S, t, n))
    && forall a, b :: a in S && b in S && a < b ==> b - a >= SECOND
  }

  // ----- nextRunAfter -----

  function NextRunAfter(schedule: Schedule, scheduledAt: int): Option<int> {
    match schedule
    case Cron(next, valid) => if !valid then None else next(scheduledAt)
    case Every(interval) => if interval <= 0 then None else Some(scheduledAt + interval)
    case At(_) => None
  }

  /** The run after one that was missed, without visiting the instants in between. */
  function NextRunAfterMissed(schedule: Schedule, missedAt: int, now: int): Option<int> {
    match schedule
    case Cron(next, valid) => if !valid then None else next(now)
    case Every(interval) =>
      if interval <= 0 then None
      else if now - missedAt < 0 then Some(missedAt)
      else Some(missedAt + ((now - missedAt) / interval + 1) * interval)
    case At(_) => None
  }

  // ----- interval grids -----

  /** Stepping nextRunAfter until the run lies after now. */
  ghost function StepPast(interval: int, t: int, now: int): int
    requires interval > 0
    decreases now - t
  {
    if t > now then t else StepPast(interval, t + interval, now)
  }

  lemma {:induction false} StepPastSteps(interval: int, t: int, now: int, k: nat)
    requires interval > 0 && t + k * interval > now && (k == 0 || t + (k - 1) * interval <= now)
    ensures StepPast(interval, t, now) == t + k * interval
    decreases k
  {
    if k > 0 {
      assert t <= now by { assert 0 <= (k - 1) * interval; }
      assert (t + interval) + (k - 1) * interval == t + k * interval;
      if k > 1 {
        assert (t + interval) + (k - 2) * interval == t + (k - 1) * interval;
      }
      StepPastSteps(interval, t + interval, now, k - 1);
    }
  }

  lemma DivisionBounds(elapsed: int, interval: int)
    requires interval > 0 && elapsed >= 0
    ensures elapsed / interval >= 0
    ensures (elapsed / interval) * interval <= elapsed < (elapsed / interval + 1) * interval
  {
    assert elapsed == (elapsed / interval) * interval + elapsed % interval;
    assert (elapsed / interval + 1) * interval == (elapsed / interval) * interval + interval;
  }

  /** The closed form equals stepping, and none of its products leaves 64 bits. */
  lemma ClosedFormIsStepping(interval: int, missedAt: int, now: int)
    requires interval > 0
    ensures NextRunAfterMissed(Every(interval), missedAt, now) == Some(StepPast(interval, missedAt, now))
    ensures 0 <= now - missedAt && now - missedAt + interval < INT64_LIMIT ==>
      0 <= ((now - missedAt) / interval + 1) * interval < INT64_LIMIT
  {
    if now - missedAt >= 0 {
      var k := (now - missedAt) / interval + 1;
      DivisionBounds(now - missedAt, interval);
      assert (k - 1) * interval == (now - missedAt) / interval * interval;
      StepPastSteps(interval, missedAt, now, k);
      assert k * interval == (k - 1) * interval + interval;
    }
  }

  // ----- the latest missed run -----

  /** Bisection for the last cron instant at or before now. */
  method LatestMissedCronRunAt(next: CronNext, valid: bool, missedAt: int, now: int, ghost S: iset<int>)
    returns (latest: int)
    requires CronOf(next, S)
    ensures IsLatestCron(S, valid, missedAt, now, latest)
  {
    if !valid {
      return missedAt;
    }
    var lower := missedAt - SECOND;
    var upper := now;
    while upper - lower > SECOND
      invariant lower == missedAt - SECOND || (lower < now && next(lower).Some? && next(lower).value <= now)
      invariant lower >= missedAt - SECOND
      invariant upper == now || (upper < now && (next(upper).None? || next(upper).value > now))
      decreases upper - lower
    {
      var midpoint := lower + (upper - lower) / 2;
      var n := next(midpoint);
      if n.None? || n.value > now {
        upper := midpoint;
      } else {
        lower := midpoint;
      }
    }
    var n := next(lower);
    BisectionEnds(next, S, lower, upper, missedAt, now);
    if n.None? || n.value > now {
      return missedAt;
    }
    return n.value;
  }

  /** latest is the greatest instant of S in (missedAt - 1s, now], or missedAt when there is none. */
  ghost predicate IsLatestCron(S: iset<int>, valid: bool, missedAt: int, now: int, latest: int) {
    if valid && exists s :: s in S && missedAt - SECOND < s <= now then
      latest in S && missedAt - SECOND < latest <= now && forall s :: s in S && s <= now ==> s <= latest
    else
      latest == missedAt
  }

  lemma BisectionEnds(next: CronNext, S: iset<int>, lower: int, upper: int, missedAt: int, now: int)
    requires CronOf(next, S) && upper - lower <= SECOND && lower >= missedAt - SECOND
    requires lower == missedAt - SECOND || (next(lower).Some? && next(lower).value <= now)
    requires upper == now || (upper < now && (next(upper).None? || next(upper).value > now))
    ensures next(lower).Some? && next(lower).value <= now ==> IsLatestCron(S, true, missedAt, now, next(lower).value)
    ensures next(lower).None? || next(lower).value > now ==> !exists s :: s in S && missedAt - SECOND < s <= now
  {
    if next(lower).Some? && next(lower).value <= now {
      var n := next(lower).value;
      assert IsLeastAbove(S, lower, n);
      forall s | s in S && s <= now ensures s <= n {
      }
    }
  }

  method LatestMissedRunAt(schedule: Schedule, missedAt: int, now: int, ghost S: iset<int>) returns (latest: int)
    requires schedule.Cron? ==> CronOf(schedule.next, S)
    ensures missedAt > now ==> latest == missedAt
    ensures missedAt <= now ==> IsLatestMissed(schedule, S, missedAt, now, latest)
  {
    if missedAt > now {
      return missedAt;
    }
    match schedule {
      case Every(interval) =>
        if interval <= 0 {
          return missedAt;
        }
        var elapsed := now - missedAt;
        if elapsed <= 0 {
          DivisionBounds(0, interval);
          assert 0 / interval == 0;
          return missedAt;
        }
        DivisionBounds(elapsed, interval);
        return missedAt + elapsed / interval * interval;
      case Cron(next, valid) =>
        latest := LatestMissedCronRunAt(next, valid, missedAt, now, S);
      case At(_) =>
        latest := missedAt;
    }
  }

  ghost predicate IsLatestMissed(schedule: Schedule, S: iset<int>, missedAt: int, now: int, latest: int) {
    match schedule
    case Every(interval) =>
      if interval <= 0 then latest == missedAt
      else exists k: nat :: latest == missedAt + k * interval && latest <= now < latest + interval
    case Cron(_, valid) => IsLatestCron(S, valid, missedAt, now, latest)
    case At(_) => latest == missedAt
  }

  /** For intervals the two closed forms are one step apart. */
  lemma NextIsOneStepBeyondLatest(interval: int, missedAt: int, now: int, S: iset<int>, latest: int)
    requires interval > 0 && missedAt <= now && IsLatestMissed(Every(interval), S, missedAt, now, latest)
    ensures NextRunAfterMissed(Every(interval), missedAt, now) == NextRunAfter(Every(interval), latest)
  {
    var k: nat :| latest == missedAt + k * interval && latest <= now < latest + interval;
    assert missedAt + (k + 1) * interval == latest + interval;
    assert missedAt + (k + 1 - 1) * interval == latest;
    StepPastSteps(interval, missedAt, now, k + 1);
    ClosedFormIsStepping(interval, missedAt, now);
  }
}
