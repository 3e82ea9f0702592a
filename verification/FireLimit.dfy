/** The rolling fire limit of the dispatcher: evaluated in one step, acted on in a later
    one, under a counting gate. */
module FireLimit {
  import opened Ordering
  import opened Runs

  datatype Run = Run(def: string, startedAt: Option<int>, status: RunStatus)
  datatype Limit = Limit(max: int, window: int)
  datatype Refusal = Refusal(count: int, retryAt: int)

  predicate Counts(run: Run) {
    run.status != Cancelled
  }

  /** The rows the run query returns: started within [now - window, now]. */
  predicate InWindow(run: Run, now: int, window: int) {
    run.startedAt.Some? && now - window <= run.startedAt.value <= now
  }

  ghost function Counted(runs: seq<Run>): seq<Run> {
    if runs == [] then []
    else
      var last := runs[|runs| - 1];
      Counted(runs[..|runs| - 1]) + (if Counts(last) then [last] else [])
  }

  /** The moment at which the oldest counted run leaves the window, but not before now. */
  ghost predicate IsRetryAt(runs: seq<Run>, window: int, now: int, retryAt: int) {
    if exists r :: r in runs && StartedCounted(r) then
      exists oldest :: oldest in runs && StartedCounted(oldest)
        && (forall r :: r in runs && StartedCounted(r) ==> oldest.startedAt.value <= r.startedAt.value)
        && retryAt == if oldest.startedAt.value + window < now then now else oldest.startedAt.value + window
    else
      retryAt == now
  }

  predicate StartedCounted(run: Run) {
    Counts(run) && run.startedAt.Some?
  }

  /** The evaluation over the rows the query returned. */
  method EvaluateFireLimit(runs: seq<Run>, now: int, limit: Limit) returns (refusal: Option<Refusal>)
    ensures refusal.None? <==> |Counted(runs)| < limit.max
    ensures refusal.Some? ==>
      refusal.value.count == |Counted(runs)| && IsRetryAt(runs, limit.window, now, refusal.value.retryAt)
  {
    var count := 0;
    var retryAt: Option<int> := None;
    for i := 0 to |runs|
      invariant count == |Counted(runs[..i])|
      invariant forall k :: 0 <= k < i && StartedCounted(runs[k]) ==>
        retryAt.Some? && retryAt.value <= runs[k].startedAt.value + limit.window
      invariant retryAt.Some? ==>
        exists k :: 0 <= k < i && StartedCounted(runs[k]) && retryAt.value == runs[k].startedAt.value + limit.window
    {
      assert runs[..i + 1][..i] == runs[..i];
      if !Counts(runs[i]) {
        continue;
      }
      count := count + 1;
      if runs[i].startedAt.None? {
        continue;
      }
      var candidate := runs[i].startedAt.value + limit.window;
      if retryAt.None? || candidate < retryAt.value {
        retryAt := Some(candidate);
      }
    }
    assert runs[..|runs|] == runs;
    if count < limit.max {
      return None;
    }
    if retryAt.None? {
      retryAt := Some(now);
    }
    if retryAt.value < now {
      retryAt := Some(now);
    }
    return Some(Refusal(count, retryAt.value));
  }

  // ----- the gate and the two steps -----

  /** An unreserved run: the read of the clock that became its start, and its place in
      the order of those reads. */
  datatype Created = Created(def: string, startedAt: int, cancelled: bool)

  /** What a gate slot is doing. */
  datatype Slot =
    | Entered
    | Read(def: string, startedAt: int, order: nat)
    | Passed(def: string, startedAt: int, order: nat)
    | Busy

  datatype Gate = Gate(
    clock: int,
    readCount: nat,
    slots: map<nat, Slot>,
    created: map<nat, Created>,   // unreserved runs, by the order of their clock reads
    reserved: seq<Run>)           // every other run row

  datatype Event =
    | Tick(clock: int)
    | Acquire(slot: nat)
    | ReadClock(slot: nat, def: string)
    | Evaluate(slot: nat)
    | Create(slot: nat)
    | Cancel(order: nat)
    | ReservedChange(reserved: seq<Run>)
    | Release(slot: nat)

  ghost function InWindowOf(g: Gate, def: string, lo: int, hi: int): set<nat> {
    set i | i in g.created && g.created[i].def == def && !g.created[i].cancelled && lo <= g.created[i].startedAt <= hi
  }

  ghost function ReservedCount(runs: seq<Run>, def: string, now: int, window: int): nat {
    if runs == [] then 0
    else
      var last := runs[|runs| - 1];
      ReservedCount(runs[..|runs| - 1], def, now, window)
      + (if last.def == def && InWindow(last, now, window) && Counts(last) then 1 else 0)
  }

  /** What the evaluation counts for a definition at a clock read. */
  ghost function WindowCount(g: Gate, def: string, now: int, window: int): nat {
    |InWindowOf(g, def, now - window, now)| + ReservedCount(g.reserved, def, now, window)
  }

  ghost predicate Step(g: Gate, e: Event, g': Gate, capacity: nat, limits: map<string, Limit>) {
    match e
    case Tick(clock) => clock >= g.clock && g' == g.(clock := clock)
    case Acquire(s) => s !in g.slots && |g.slots| < capacity && g' == g.(slots := g.slots[s := Entered])
    case ReadClock(s, def) =>
      && s in g.slots && g.slots[s].Entered? && def in limits
      && g' == g.(slots := g.slots[s := Read(def, g.clock, g.readCount)], readCount := g.readCount + 1)
    case Evaluate(s) =>
      && s in g.slots && g.slots[s].Read?
      && var slot := g.slots[s];
      && slot.def in limits
      && if WindowCount(g, slot.def, slot.startedAt, limits[slot.def].window) < limits[slot.def].max then
           g' == g.(slots := g.slots[s := Passed(slot.def, slot.startedAt, slot.order)])
         else
           g' == g.(slots := g.slots - {s})
    case Create(s) =>
      && s in g.slots && g.slots[s].Passed?
      && var slot := g.slots[s];
      g' == g.(slots := g.slots[s := Busy],
               created := g.created[slot.order := Created(slot.def, slot.startedAt, false)])
    case Cancel(order) =>
      order in g.created && g' == g.(created := g.created[order := g.created[order].(cancelled := true)])
    case ReservedChange(reserved) => g' == g.(reserved := reserved)
    case Release(s) => s in g.slots && g' == g.(slots := g.slots - {s})
  }

  ghost predicate StepAt(gs: seq<Gate>, es: seq<Event>, capacity: nat, limits: map<string, Limit>, i: nat)
    requires i < |es| && |gs| == |es| + 1
  {
    Step(gs[i], es[i], gs[i + 1], capacity, limits)
  }

  ghost predicate IsRun(gs: seq<Gate>, es: seq<Event>, capacity: nat, limits: map<string, Limit>) {
    && |gs| == |es| + 1
    && gs[0].slots == map[] && gs[0].created == map[] && gs[0].readCount == 0
    && forall i :: 0 <= i < |es| ==> StepAt(gs, es, capacity, limits, i)
  }

  // ----- the invariant -----

  ghost predicate Waiting(slot: Slot) {
    slot.Read? || slot.Passed?
  }

  /** The uncancelled runs of def that were read before order and start at or after lo. */
  ghost function Earlier(g: Gate, def: string, order: nat, lo: int): set<nat> {
    set i | i in g.created && i < order && g.created[i].def == def && !g.created[i].cancelled
      && g.created[i].startedAt >= lo
  }

  /** The slots that read the clock before order and have not created their run yet. */
  ghost function InFlight(g: Gate, order: nat): set<nat> {
    set s | s in g.slots && Waiting(g.slots[s]) && g.slots[s].order < order
  }

  /** What can still share the window of a run: runs created and runs in flight. */
  ghost function Potential(g: Gate, def: string, order: nat, startedAt: int, limit: Limit): nat {
    |Earlier(g, def, order, startedAt - limit.window)| + |InFlight(g, order)|
  }

  ghost predicate WaitingAt(g: Gate, s: nat) {
    s in g.slots && Waiting(g.slots[s])
  }

  ghost predicate Shape(g: Gate, capacity: nat) {
    && |g.slots| <= capacity
    && (forall i :: i in g.created ==> i < g.readCount && g.created[i].startedAt <= g.clock)
    && (forall s :: WaitingAt(g, s) ==>
          g.slots[s].order < g.readCount && g.slots[s].startedAt <= g.clock && g.slots[s].order !in g.created)
    && (forall s, t :: WaitingAt(g, s) && WaitingAt(g, t) && g.slots[s].order == g.slots[t].order ==> s == t)
  }

  /** Clock reads are monotone in their order. */
  ghost predicate Monotone(g: Gate) {
    && (forall i, j :: i in g.created && j in g.created && i < j ==> g.created[i].startedAt <= g.created[j].startedAt)
    && (forall i, s :: i in g.created && WaitingAt(g, s) ==>
          if i < g.slots[s].order then g.created[i].startedAt <= g.slots[s].startedAt
          else g.slots[s].startedAt <= g.created[i].startedAt)
    && (forall s, t :: WaitingAt(g, s) && WaitingAt(g, t) && g.slots[s].order < g.slots[t].order ==>
          g.slots[s].startedAt <= g.slots[t].startedAt)
  }

  /** No slot starts waiting, and no run appears. */
  ghost predicate NothingNew(g: Gate, g': Gate) {
    && (forall s :: WaitingAt(g', s) ==>
          WaitingAt(g, s) && g'.slots[s].order == g.slots[s].order && g'.slots[s].startedAt == g.slots[s].startedAt)
    && g'.created.Keys == g.created.Keys
    && (forall i :: i in g.created ==> g'.created[i].startedAt == g.created[i].startedAt)
    && g'.readCount == g.readCount && g.clock <= g'.clock
  }

  ghost predicate BoundAt(g: Gate, def: string, order: nat, startedAt: int, capacity: nat, limits: map<string, Limit>) {
    def in limits && Potential(g, def, order, startedAt, limits[def]) <= limits[def].max + capacity - 2
  }

  ghost predicate Bounded(g: Gate, capacity: nat, limits: map<string, Limit>) {
    && (forall i :: i in g.created && !g.created[i].cancelled ==>
          BoundAt(g, g.created[i].def, i, g.created[i].startedAt, capacity, limits))
    && (forall s :: s in g.slots && g.slots[s].Passed? ==>
          BoundAt(g, g.slots[s].def, g.slots[s].order, g.slots[s].startedAt, capacity, limits))
  }

  ghost predicate Invariant(g: Gate, capacity: nat, limits: map<string, Limit>) {
    Shape(g, capacity) && Monotone(g) && Bounded(g, capacity, limits)
  }

  /** The potential of a place never grows when no run or slot appears before it. */
  lemma PotentialShrinks(g: Gate, g': Gate, def: string, order: nat, startedAt: int, limit: Limit)
    requires Earlier(g', def, order, startedAt - limit.window) <= Earlier(g, def, order, startedAt - limit.window)
    requires InFlight(g', order) <= InFlight(g, order)
    ensures Potential(g', def, order, startedAt, limit) <= Potential(g, def, order, startedAt, limit)
  {
    SubsetCard(Earlier(g', def, order, startedAt - limit.window), Earlier(g, def, order, startedAt - limit.window));
    SubsetCard(InFlight(g', order), InFlight(g, order));
  }

  ghost predicate CreatesFrom(g: Gate, s: nat, g': Gate) {
    && WaitingAt(g, s) && g.slots[s].Passed? && g.slots[s].order !in g.created
    && g' == g.(slots := g.slots[s := Busy],
                created := g.created[g.slots[s].order := Created(g.slots[s].def, g.slots[s].startedAt, false)])
  }

  lemma EarlierAfterCreate(g: Gate, s: nat, g': Gate, def: string, order: nat, lo: int)
    requires CreatesFrom(g, s, g')
    ensures |Earlier(g', def, order, lo)| <= |Earlier(g, def, order, lo)| + (if g.slots[s].order < order then 1 else 0)
  {
    if g.slots[s].order < order {
      SubsetCard(Earlier(g', def, order, lo), Earlier(g, def, order, lo) + {g.slots[s].order});
    } else {
      SubsetCard(Earlier(g', def, order, lo), Earlier(g, def, order, lo));
    }
  }

  lemma InFlightAfterCreate(g: Gate, s: nat, g': Gate, order: nat)
    requires CreatesFrom(g, s, g')
    ensures |InFlight(g', order)| + (if g.slots[s].order < order then 1 else 0) <= |InFlight(g, order)|
  {
    if g.slots[s].order < order {
      assert s in InFlight(g, order);
      SubsetCard(InFlight(g', order), InFlight(g, order) - {s});
    } else {
      SubsetCard(InFlight(g', order), InFlight(g, order));
    }
  }

  /** Creating moves one place from the slots to the runs. */
  lemma PotentialOfCreate(g: Gate, s: nat, g': Gate, def: string, order: nat, startedAt: int, limit: Limit)
    requires CreatesFrom(g, s, g')
    ensures Potential(g', def, order, startedAt, limit) <= Potential(g, def, order, startedAt, limit)
  {
    EarlierAfterCreate(g, s, g', def, order, startedAt - limit.window);
    InFlightAfterCreate(g, s, g', order);
  }

  lemma EarlierInWindow(g: Gate, s: nat, lo: int)
    requires Monotone(g) && s in g.slots && g.slots[s].Read?
    ensures |Earlier(g, g.slots[s].def, g.slots[s].order, lo)|
         <= |InWindowOf(g, g.slots[s].def, lo, g.slots[s].startedAt)|
  {
    var slot := g.slots[s];
    assert WaitingAt(g, s);
    SubsetCard(Earlier(g, slot.def, slot.order, lo), InWindowOf(g, slot.def, lo, slot.startedAt));
  }

  lemma FewerInFlight(g: Gate, s: nat, order: nat)
    requires s in g.slots && g.slots[s].Read? && order <= g.slots[s].order
    ensures |InFlight(g, order)| <= |g.slots| - 1
  {
    RemoveCard(g.slots.Keys, s);
    SubsetCard(InFlight(g, order), g.slots.Keys - {s});
  }

  /** Passing the evaluation establishes the bound: fewer than max runs were counted,
      and at most capacity - 1 other slots can still add one. */
  lemma PassedIsBounded(g: Gate, s: nat, capacity: nat, limits: map<string, Limit>)
    requires Shape(g, capacity) && Monotone(g)
    requires s in g.slots && g.slots[s].Read? && g.slots[s].def in limits
    requires WindowCount(g, g.slots[s].def, g.slots[s].startedAt,
                         limits[g.slots[s].def].window) < limits[g.slots[s].def].max
    ensures BoundAt(g, g.slots[s].def, g.slots[s].order, g.slots[s].startedAt, capacity, limits)
  {
    var slot := g.slots[s];
    EarlierInWindow(g, s, slot.startedAt - limits[slot.def].window);
    FewerInFlight(g, s, slot.order);
  }

  // ----- the invariant holds in every run -----

  lemma StepAddsNothing(g: Gate, e: Event, g': Gate, capacity: nat, limits: map<string, Limit>)
    requires Step(g, e, g', capacity, limits) && !e.ReadClock? && !e.Create? && |g.slots| <= capacity
    ensures NothingNew(g, g') && |g'.slots| <= capacity
  {
    StepKeepsCapacity(g, e, g', capacity, limits);
    StepAddsNoWaiting(g, e, g', capacity, limits);
    StepAddsNoRun(g, e, g', capacity, limits);
  }

  lemma StepAddsNoWaiting(g: Gate, e: Event, g': Gate, capacity: nat, limits: map<string, Limit>)
    requires Step(g, e, g', capacity, limits) && !e.ReadClock? && !e.Create?
    ensures forall s :: WaitingAt(g', s) ==>
      WaitingAt(g, s) && g'.slots[s].order == g.slots[s].order && g'.slots[s].startedAt == g.slots[s].startedAt
  {
    forall s | WaitingAt(g', s)
      ensures WaitingAt(g, s) && g'.slots[s].order == g.slots[s].order && g'.slots[s].startedAt == g.slots[s].startedAt
    {
      assert s in g.slots;
    }
  }

  lemma StepAddsNoRun(g: Gate, e: Event, g': Gate, capacity: nat, limits: map<string, Limit>)
    requires Step(g, e, g', capacity, limits) && !e.ReadClock? && !e.Create?
    ensures g'.created.Keys == g.created.Keys && g'.readCount == g.readCount && g.clock <= g'.clock
    ensures forall i :: i in g.created ==> g'.created[i].startedAt == g.created[i].startedAt
  {}

  lemma StepKeepsCapacity(g: Gate, e: Event, g': Gate, capacity: nat, limits: map<string, Limit>)
    requires Step(g, e, g', capacity, limits) && |g.slots| <= capacity
    ensures |g'.slots| <= capacity
  {
    if e.Acquire? {
      assert g'.slots.Keys == g.slots.Keys + {e.slot};
      assert |g'.slots.Keys| == |g.slots.Keys| + 1;
    } else {
      assert g'.slots.Keys <= g.slots.Keys;
      SubsetCard(g'.slots.Keys, g.slots.Keys);
    }
  }

  lemma NothingNewKeepsOrder(g: Gate, g': Gate, capacity: nat)
    requires NothingNew(g, g') && Shape(g, capacity) && Monotone(g) && |g'.slots| <= capacity
    ensures Shape(g', capacity) && Monotone(g')
  {
  }

  lemma ReadKeepsShape(g: Gate, e: Event, g': Gate, capacity: nat, limits: map<string, Limit>)
    requires e.ReadClock? && Step(g, e, g', capacity, limits) && Shape(g, capacity)
    ensures Shape(g', capacity)
  {
    assert g'.slots.Keys == g.slots.Keys;
    forall s | WaitingAt(g', s) && s != e.slot ensures WaitingAt(g, s) && g'.slots[s] == g.slots[s] {}
  }

  lemma ReadKeepsMonotone(g: Gate, e: Event, g': Gate, capacity: nat, limits: map<string, Limit>)
    requires e.ReadClock? && Step(g, e, g', capacity, limits) && Shape(g, capacity) && Monotone(g)
    ensures Monotone(g')
  {
    forall s | WaitingAt(g', s) && s != e.slot ensures WaitingAt(g, s) && g'.slots[s] == g.slots[s] {}
  }

  lemma CreateKeepsShape(g: Gate, e: Event, g': Gate, capacity: nat, limits: map<string, Limit>)
    requires e.Create? && Step(g, e, g', capacity, limits) && Shape(g, capacity)
    ensures Shape(g', capacity)
  {
    assert g'.slots.Keys == g.slots.Keys && WaitingAt(g, e.slot);
    forall s | WaitingAt(g', s) ensures WaitingAt(g, s) && g'.slots[s] == g.slots[s] && s != e.slot {}
  }

  lemma CreateKeepsMonotone(g: Gate, e: Event, g': Gate, capacity: nat, limits: map<string, Limit>)
    requires e.Create? && Step(g, e, g', capacity, limits) && Shape(g, capacity) && Monotone(g)
    ensures Monotone(g')
  {
    assert WaitingAt(g, e.slot);
    forall s | WaitingAt(g', s) ensures WaitingAt(g, s) && g'.slots[s] == g.slots[s] && s != e.slot {}
  }

  lemma StepKeepsOrder(g: Gate, e: Event, g': Gate, capacity: nat, limits: map<string, Limit>)
    requires Step(g, e, g', capacity, limits) && Shape(g, capacity) && Monotone(g)
    ensures Shape(g', capacity) && Monotone(g')
  {
    if e.ReadClock? {
      ReadKeepsShape(g, e, g', capacity, limits);
      ReadKeepsMonotone(g, e, g', capacity, limits);
    } else if e.Create? {
      CreateKeepsShape(g, e, g', capacity, limits);
      CreateKeepsMonotone(g, e, g', capacity, limits);
    } else {
      StepAddsNothing(g, e, g', capacity, limits);
      NothingNewKeepsOrder(g, g', capacity);
    }
  }

  /** A place keeps its bound when nothing before it is added. */
  lemma BoundKept(g: Gate, g': Gate, def: string, order: nat, startedAt: int, capacity: nat, limits: map<string, Limit>)
    requires BoundAt(g, def, order, startedAt, capacity, limits)
    requires forall i :: i in g'.created && i < order ==>
      && i in g.created && g'.created[i].def == g.created[i].def && g'.created[i].startedAt == g.created[i].startedAt
      && (g.created[i].cancelled ==> g'.created[i].cancelled)
    requires forall s :: s in g'.slots && Waiting(g'.slots[s]) && g'.slots[s].order < order ==>
      s in g.slots && Waiting(g.slots[s]) && g.slots[s].order == g'.slots[s].order
    ensures BoundAt(g', def, order, startedAt, capacity, limits)
  {
    PotentialShrinks(g, g', def, order, startedAt, limits[def]);
  }

  lemma StepKeepsBounded(g: Gate, e: Event, g': Gate, capacity: nat, limits: map<string, Limit>)
    requires Step(g, e, g', capacity, limits) && Invariant(g, capacity, limits)
    ensures Bounded(g', capacity, limits)
  {
    if e.Create? {
      CreateKeepsBounded(g, e.slot, g', capacity, limits);
    } else {
      forall i | i in g'.created && !g'.created[i].cancelled
        ensures BoundAt(g', g'.created[i].def, i, g'.created[i].startedAt, capacity, limits)
      {
        RunKeepsBound(g, e, g', capacity, limits, i);
      }
      forall s | s in g'.slots && g'.slots[s].Passed?
        ensures BoundAt(g', g'.slots[s].def, g'.slots[s].order, g'.slots[s].startedAt, capacity, limits)
      {
        SlotKeepsBound(g, e, g', capacity, limits, s);
      }
    }
  }

  lemma RunKeepsBound(g: Gate, e: Event, g': Gate, capacity: nat, limits: map<string, Limit>, i: nat)
    requires Step(g, e, g', capacity, limits) && !e.Create? && Shape(g, capacity) && Bounded(g, capacity, limits)
    requires i in g'.created && !g'.created[i].cancelled
    ensures BoundAt(g', g'.created[i].def, i, g'.created[i].startedAt, capacity, limits)
  {
    BoundKept(g, g', g'.created[i].def, i, g'.created[i].startedAt, capacity, limits);
  }

  lemma SlotKeepsBound(g: Gate, e: Event, g': Gate, capacity: nat, limits: map<string, Limit>, s: nat)
    requires Step(g, e, g', capacity, limits) && !e.Create? && Invariant(g, capacity, limits)
    requires s in g'.slots && g'.slots[s].Passed?
    ensures BoundAt(g', g'.slots[s].def, g'.slots[s].order, g'.slots[s].startedAt, capacity, limits)
  {
    var slot := g'.slots[s];
    if e.Evaluate? && e.slot == s {
      PassedIsBounded(g, s, capacity, limits);
    }
    assert WaitingAt(g, s) && g.slots[s].order == slot.order;
    BoundKept(g, g', slot.def, slot.order, slot.startedAt, capacity, limits);
  }

  lemma CreateKeepsBounded(g: Gate, s: nat, g': Gate, capacity: nat, limits: map<string, Limit>)
    requires Step(g, Create(s), g', capacity, limits) && Shape(g, capacity) && Bounded(g, capacity, limits)
    ensures Bounded(g', capacity, limits)
  {
    assert WaitingAt(g, s);
    forall i | i in g'.created && !g'.created[i].cancelled
      ensures BoundAt(g', g'.created[i].def, i, g'.created[i].startedAt, capacity, limits)
    {
      var run := g'.created[i];
      assert BoundAt(g, run.def, i, run.startedAt, capacity, limits);
      PotentialOfCreate(g, s, g', run.def, i, run.startedAt, limits[run.def]);
    }
    forall t | t in g'.slots && g'.slots[t].Passed?
      ensures BoundAt(g', g'.slots[t].def, g'.slots[t].order, g'.slots[t].startedAt, capacity, limits)
    {
      var other := g'.slots[t];
      assert other == g.slots[t];
      PotentialOfCreate(g, s, g', other.def, other.order, other.startedAt, limits[other.def]);
    }
  }

  lemma {:induction false} InvariantAlways(gs: seq<Gate>, es: seq<Event>, capacity: nat, limits: map<string, Limit>,
                                           i: nat)
    requires IsRun(gs, es, capacity, limits) && i < |gs|
    ensures Invariant(gs[i], capacity, limits)
  {
    if i == 0 {
      assert |gs[0].slots| == 0;
    } else {
      InvariantAlways(gs, es, capacity, limits, i - 1);
      assert StepAt(gs, es, capacity, limits, i - 1);
      StepKeepsOrder(gs[i - 1], es[i - 1], gs[i], capacity, limits);
      StepKeepsBounded(gs[i - 1], es[i - 1], gs[i], capacity, limits);
    }
  }

  lemma {:induction false} Greatest(A: set<nat>) returns (m: nat)
    requires A != {}
    ensures m in A && forall x :: x in A ==> x <= m
  {
    var x :| x in A;
    if A == {x} {
      m := x;
    } else {
      var rest := A - {x};
      var n := Greatest(rest);
      m := if x > n then x else n;
      forall y | y in A ensures y <= m {
        assert y == x || y in rest;
      }
    }
  }

  lemma LatestReadCountsTheRest(g: Gate, def: string, lo: int, hi: int, capacity: nat, limits: map<string, Limit>,
                                m: nat)
    requires Bounded(g, capacity, limits) && def in limits && hi - lo <= limits[def].window
    requires m in InWindowOf(g, def, lo, hi) && forall x :: x in InWindowOf(g, def, lo, hi) ==> x <= m
    ensures |InWindowOf(g, def, lo, hi)| <= limits[def].max + capacity - 1
  {
    assert BoundAt(g, def, m, g.created[m].startedAt, capacity, limits);
    RestIsEarlier(g, def, lo, hi, m, g.created[m].startedAt - limits[def].window);
  }

  lemma RestIsEarlier(g: Gate, def: string, lo: int, hi: int, m: nat, since: int)
    requires m in InWindowOf(g, def, lo, hi) && since <= lo
    requires forall x :: x in InWindowOf(g, def, lo, hi) ==> x <= m
    ensures |InWindowOf(g, def, lo, hi)| <= |Earlier(g, def, m, since)| + 1
  {
    var A := InWindowOf(g, def, lo, hi);
    RemoveCard(A, m);
    SubsetCard(A - {m}, Earlier(g, def, m, since));
  }

  lemma BoundInState(g: Gate, def: string, lo: int, hi: int, capacity: nat, limits: map<string, Limit>)
    requires Bounded(g, capacity, limits) && def in limits && hi - lo <= limits[def].window
    requires capacity >= 1 && limits[def].max >= 1
    ensures |InWindowOf(g, def, lo, hi)| <= limits[def].max + capacity - 1
  {
    if InWindowOf(g, def, lo, hi) != {} {
      var m := Greatest(InWindowOf(g, def, lo, hi));
      LatestReadCountsTheRest(g, def, lo, hi, capacity, limits, m);
    }
  }

  lemma BoundUpTo(g: Gate, def: string, t: int, capacity: nat, limits: map<string, Limit>)
    requires Bounded(g, capacity, limits) && def in limits && capacity >= 1 && limits[def].max >= 1
    ensures |InWindowOf(g, def, t - limits[def].window, t)| <= limits[def].max + capacity - 1
  {
    BoundInState(g, def, t - limits[def].window, t, capacity, limits);
  }

  /** In every interleaving of at most capacity gate slots, the uncancelled unreserved
      runs of one definition started inside any window number at most max + capacity - 1. */
  lemma FireLimitBound(gs: seq<Gate>, es: seq<Event>, capacity: nat, limits: map<string, Limit>, i: nat, def: string,
                       t: int)
    requires IsRun(gs, es, capacity, limits) && i < |gs| && def in limits
    requires capacity >= 1 && limits[def].max >= 1
    ensures |InWindowOf(gs[i], def, t - limits[def].window, t)| <= limits[def].max + capacity - 1
  {
    InvariantAlways(gs, es, capacity, limits, i);
    BoundUpTo(gs[i], def, t, capacity, limits);
  }

  /** With a single slot the configured maximum itself is never exceeded. */
  lemma SingleSlotMeetsLimit(gs: seq<Gate>, es: seq<Event>, limits: map<string, Limit>, i: nat, def: string, t: int)
    requires IsRun(gs, es, 1, limits) && i < |gs| && def in limits && limits[def].max >= 1
    ensures |InWindowOf(gs[i], def, t - limits[def].window, t)| <= limits[def].max
  {
    FireLimitBound(gs, es, 1, limits, i, def, t);
  }

  // ----- the bound is attained -----

  ghost predicate EndsIn(gs: seq<Gate>, es: seq<Event>, capacity: nat, limits: map<string, Limit>, g: Gate) {
    IsRun(gs, es, capacity, limits) && gs[|es|] == g
  }

  /** Some run ends in this gate. */
  ghost predicate Reached(g: Gate, capacity: nat, limits: map<string, Limit>) {
    exists gs, es :: EndsIn(gs, es, capacity, limits, g)
  }

  lemma ReachedNext(g: Gate, e: Event, g': Gate, capacity: nat, limits: map<string, Limit>)
    requires Reached(g, capacity, limits) && Step(g, e, g', capacity, limits)
    ensures Reached(g', capacity, limits)
  {
    var gs, es :| EndsIn(gs, es, capacity, limits, g);
    var longer, more := gs + [g'], es + [e];
    forall i | 0 <= i < |more| ensures StepAt(longer, more, capacity, limits, i) {
      if i < |es| {
        assert StepAt(gs, es, capacity, limits, i);
      }
    }
    assert EndsIn(longer, more, capacity, limits, g');
  }

  /** n runs, all of them started at time zero. */
  ghost function RunsAtZero(def: string, n: nat): (r: map<nat, Created>)
    ensures |r| == n && forall i: nat :: i in r <==> i < n
    ensures forall i :: i in r ==> r[i] == Created(def, 0, false)
  {
    if n == 0 then map[] else RunsAtZero(def, n - 1)[n - 1 := Created(def, 0, false)]
  }

  /** The slots from lo up to hi, all of which have passed the evaluation. */
  ghost function PassedSlots(def: string, base: nat, lo: nat, hi: nat): (r: map<nat, Slot>)
    requires lo <= hi
    ensures |r| == hi - lo && forall s: nat :: s in r <==> lo <= s < hi
    ensures forall s :: s in r ==> r[s] == Passed(def, 0, base + s)
  {
    if lo == hi then map[] else PassedSlots(def, base, lo, hi - 1)[hi - 1 := Passed(def, 0, base + hi - 1)]
  }

  /** After base runs, hi slots passed the evaluation and the first lo of them created their runs and left. */
  ghost function Racing(def: string, base: nat, lo: nat, hi: nat): Gate
    requires lo <= hi
  {
    Gate(0, base + hi, PassedSlots(def, base, lo, hi), RunsAtZero(def, base + lo), [])
  }

  lemma RunsInWindow(g: Gate, def: string, n: nat, window: nat)
    requires g.created == RunsAtZero(def, n) && g.reserved == []
    ensures |InWindowOf(g, def, 0 - window, 0)| == n && WindowCount(g, def, 0, window) == n
  {
    assert InWindowOf(g, def, 0 - window, 0) == RunsAtZero(def, n).Keys;
  }

  lemma AcquireAndRead(def: string, limit: Limit, capacity: nat, g: Gate, s: nat)
    requires |g.slots| < capacity && s !in g.slots && Reached(g, capacity, map[def := limit])
    ensures Reached(g.(slots := g.slots[s := Read(def, g.clock, g.readCount)], readCount := g.readCount + 1), capacity,
                    map[def := limit])
  {
    var entered := g.(slots := g.slots[s := Entered]);
    ReachedNext(g, Acquire(s), entered, capacity, map[def := limit]);
    var reading := g.(slots := g.slots[s := Read(def, g.clock, g.readCount)], readCount := g.readCount + 1);
    assert entered.slots[s := Read(def, g.clock, g.readCount)] == reading.slots;
    ReachedNext(entered, ReadClock(s, def), reading, capacity, map[def := limit]);
  }

  lemma PassEvaluation(def: string, limit: Limit, capacity: nat, g: Gate, s: nat, order: nat)
    requires s in g.slots && g.slots[s] == Read(def, 0, order) && Reached(g, capacity, map[def := limit])
    requires WindowCount(g, def, 0, limit.window) < limit.max
    ensures Reached(g.(slots := g.slots[s := Passed(def, 0, order)]), capacity, map[def := limit])
  {
    ReachedNext(g, Evaluate(s), g.(slots := g.slots[s := Passed(def, 0, order)]), capacity, map[def := limit]);
  }

  lemma CreateAndLeave(def: string, limit: Limit, capacity: nat, g: Gate, s: nat, order: nat)
    requires s in g.slots && g.slots[s] == Passed(def, 0, order) && Reached(g, capacity, map[def := limit])
    ensures Reached(g.(slots := g.slots - {s}, created := g.created[order := Created(def, 0, false)]), capacity,
                    map[def := limit])
  {
    var busy := g.(slots := g.slots[s := Busy], created := g.created[order := Created(def, 0, false)]);
    ReachedNext(g, Create(s), busy, capacity, map[def := limit]);
    assert busy.slots - {s} == g.slots - {s};
    ReachedNext(busy, Release(s), busy.(slots := g.slots - {s}), capacity, map[def := limit]);
  }

  lemma OnePasses(def: string, limit: Limit, capacity: nat, base: nat, k: nat)
    requires k < capacity && limit.window >= 0 && base < limit.max
    requires Reached(Racing(def, base, 0, k), capacity, map[def := limit])
    ensures Reached(Racing(def, base, 0, k + 1), capacity, map[def := limit])
  {
    var g, order := Racing(def, base, 0, k), base + k;
    AcquireAndRead(def, limit, capacity, g, k);
    var reading := g.(slots := g.slots[k := Read(def, 0, order)], readCount := order + 1);
    RunsInWindow(reading, def, base, limit.window);
    PassEvaluation(def, limit, capacity, reading, k, order);
    assert reading.slots[k := Passed(def, 0, order)] == PassedSlots(def, base, 0, k + 1);
  }

  lemma SlotLeaves(def: string, base: nat, k: nat, n: nat)
    requires k < n
    ensures PassedSlots(def, base, k, n) - {k} == PassedSlots(def, base, k + 1, n)
  {
    var left, rest := PassedSlots(def, base, k, n) - {k}, PassedSlots(def, base, k + 1, n);
    forall s: nat ensures s in left <==> s in rest {
    }
    assert left.Keys == rest.Keys;
  }

  lemma OneCreates(def: string, limit: Limit, capacity: nat, base: nat, k: nat, n: nat)
    requires k < n && Reached(Racing(def, base, k, n), capacity, map[def := limit])
    ensures Reached(Racing(def, base, k + 1, n), capacity, map[def := limit])
  {
    CreateAndLeave(def, limit, capacity, Racing(def, base, k, n), k, base + k);
    SlotLeaves(def, base, k, n);
  }

  /** All slots read the clock and pass, one after another, before any of them creates. */
  lemma {:induction false} AllPass(def: string, limit: Limit, capacity: nat, base: nat, k: nat)
    requires k <= capacity && limit.window >= 0 && base < limit.max
    requires Reached(Racing(def, base, 0, 0), capacity, map[def := limit])
    ensures Reached(Racing(def, base, 0, k), capacity, map[def := limit])
  {
    if k > 0 {
      AllPass(def, limit, capacity, base, k - 1);
      OnePasses(def, limit, capacity, base, k - 1);
    }
  }

  /** Then every one of them creates its run. */
  lemma {:induction false} AllCreate(def: string, limit: Limit, capacity: nat, base: nat, k: nat, n: nat)
    requires k <= n && Reached(Racing(def, base, k, n), capacity, map[def := limit])
    ensures Reached(Racing(def, base, n, n), capacity, map[def := limit])
    decreases n - k
  {
    if k < n {
      OneCreates(def, limit, capacity, base, k, n);
      AllCreate(def, limit, capacity, base, k + 1, n);
    }
  }

  /** While the maximum is not reached, n slots together can add n runs. */
  lemma Race(def: string, limit: Limit, capacity: nat, base: nat, n: nat)
    requires n <= capacity && limit.window >= 0 && base < limit.max
    requires Reached(Racing(def, base, 0, 0), capacity, map[def := limit])
    ensures Reached(Racing(def, base + n, 0, 0), capacity, map[def := limit])
  {
    AllPass(def, limit, capacity, base, n);
    AllCreate(def, limit, capacity, base, 0, n);
  }

  lemma {:induction false} OneAfterAnother(def: string, limit: Limit, capacity: nat, n: nat)
    requires capacity >= 1 && limit.window >= 0 && n <= limit.max
    ensures Reached(Racing(def, n, 0, 0), capacity, map[def := limit])
  {
    if n == 0 {
      assert EndsIn([Racing(def, 0, 0, 0)], [], capacity, map[def := limit], Racing(def, 0, 0, 0));
    } else {
      OneAfterAnother(def, limit, capacity, n - 1);
      Race(def, limit, capacity, n - 1, 1);
    }
  }

  /** For every maximum and every number of slots, a run reaches the bound: all but one of
      the allowed runs one after another, then all slots at once. */
  lemma BoundIsAttained(def: string, limit: Limit, capacity: nat) returns (gs: seq<Gate>, es: seq<Event>)
    requires limit.window >= 0 && limit.max >= 1 && capacity >= 1
    ensures IsRun(gs, es, capacity, map[def := limit])
    ensures |InWindowOf(gs[|es|], def, 0 - limit.window, 0)| == limit.max + capacity - 1
  {
    OneAfterAnother(def, limit, capacity, limit.max - 1);
    Race(def, limit, capacity, limit.max - 1, capacity);
    var last := Racing(def, limit.max - 1 + capacity, 0, 0);
    gs, es :| EndsIn(gs, es, capacity, map[def := limit], last);
    RunsInWindow(last, def, limit.max - 1 + capacity, limit.window);
  }

  ghost predicate KeepsMaximum(gs: seq<Gate>, def: string, limit: Limit) {
    forall i, t :: 0 <= i < |gs| ==> WithinMaximum(gs[i], def, limit, t)
  }

  ghost predicate WithinMaximum(g: Gate, def: string, limit: Limit, t: int) {
    |InWindowOf(g, def, t - limit.window, t)| <= limit.max
  }

  /** Every run keeps the configured maximum if and only if the gate has a single slot. */
  lemma MaximumIsKeptIffSingleSlot(def: string, limit: Limit, capacity: nat)
    requires limit.window >= 0 && limit.max >= 1 && capacity >= 1
    ensures (forall gs, es :: IsRun(gs, es, capacity, map[def := limit]) ==> KeepsMaximum(gs, def, limit))
        <==> capacity == 1
  {
    if capacity == 1 {
      forall gs, es | IsRun(gs, es, 1, map[def := limit]) ensures KeepsMaximum(gs, def, limit) {
        forall i, t | 0 <= i < |gs| ensures WithinMaximum(gs[i], def, limit, t) {
          SingleSlotMeetsLimit(gs, es, map[def := limit], i, def, t);
        }
      }
    } else {
      var gs, es := BoundIsAttained(def, limit, capacity);
      assert !WithinMaximum(gs[|es|], def, limit, 0);
    }
  }

  // ----- the rows behind a gate -----

  ghost function Query(rows: seq<Run>, def: string, now: int, window: int): seq<Run> {
    if rows == [] then []
    else
      var last := rows[|rows| - 1];
      Query(rows[..|rows| - 1], def, now, window)
        + (if last.def == def && InWindow(last, now, window) then [last] else [])
  }

  /** The run rows: the reserved ones, then the unreserved ones by clock read. */
  ghost function RowsOf(g: Gate, n: nat): seq<Run> {
    if n == 0 then g.reserved
    else if n - 1 !in g.created then RowsOf(g, n - 1)
    else
      var run := g.created[n - 1];
      RowsOf(g, n - 1) + [Run(run.def, Some(run.startedAt), if run.cancelled then Cancelled else Scheduled)]
  }

  /** Adding one row adds it to the count exactly when it is in the window and not cancelled. */
  lemma QueryOfAppend(rows: seq<Run>, last: Run, def: string, now: int, window: int)
    ensures |Counted(Query(rows + [last], def, now, window))|
         == |Counted(Query(rows, def, now, window))|
           + (if last.def == def && InWindow(last, now, window) && Counts(last) then 1 else 0)
  {
    assert (rows + [last])[..|rows|] == rows;
    var q := Query(rows, def, now, window);
    assert (q + [last])[..|q|] == q && q + [] == q;
  }

  lemma {:induction false} ReservedCountIsQuery(rows: seq<Run>, def: string, now: int, window: int)
    ensures |Counted(Query(rows, def, now, window))| == ReservedCount(rows, def, now, window)
  {
    if rows != [] {
      var init := rows[..|rows| - 1];
      ReservedCountIsQuery(init, def, now, window);
      QueryOfAppend(init, rows[|rows| - 1], def, now, window);
      assert rows == init + [rows[|rows| - 1]];
    }
  }

  ghost function InWindowUpTo(g: Gate, def: string, lo: int, hi: int, n: nat): set<nat> {
    set i | i in g.created && i < n && g.created[i].def == def && !g.created[i].cancelled
      && lo <= g.created[i].startedAt <= hi
  }

  ghost predicate QueryAgrees(g: Gate, n: nat, def: string, now: int, window: int) {
    |Counted(Query(RowsOf(g, n), def, now, window))|
      == ReservedCount(g.reserved, def, now, window) + |InWindowUpTo(g, def, now - window, now, n)|
  }

  lemma QueryAgreesNext(g: Gate, n: nat, next: nat, def: string, now: int, window: int)
    requires QueryAgrees(g, n, def, now, window) && next == n + 1
    ensures QueryAgrees(g, next, def, now, window)
  {
    WindowGrows(g, n, def, now - window, now);
    if n in g.created {
      var run := g.created[n];
      QueryOfAppend(RowsOf(g, n), Run(run.def, Some(run.startedAt), if run.cancelled then Cancelled else Scheduled),
                    def, now, window);
    }
  }

  lemma {:induction false} QueryUpTo(g: Gate, n: nat, def: string, now: int, window: int)
    ensures QueryAgrees(g, n, def, now, window)
    decreases n
  {
    if n == 0 {
      QueryAgreesFirst(g, def, now, window);
    } else {
      QueryUpTo(g, n - 1, def, now, window);
      QueryAgreesNext(g, n - 1, n, def, now, window);
    }
  }

  lemma QueryAgreesFirst(g: Gate, def: string, now: int, window: int)
    ensures QueryAgrees(g, 0, def, now, window)
  {
    ReservedCountIsQuery(g.reserved, def, now, window);
    NothingBeforeZero(g, def, now - window, now);
  }

  lemma NothingBeforeZero(g: Gate, def: string, lo: int, hi: int)
    ensures InWindowUpTo(g, def, lo, hi, 0) == {}
  {
  }

  lemma WindowGrows(g: Gate, n: nat, def: string, lo: int, hi: int)
    ensures |InWindowUpTo(g, def, lo, hi, n + 1)| == |InWindowUpTo(g, def, lo, hi, n)|
      + (if n in g.created && g.created[n].def == def && !g.created[n].cancelled && lo <= g.created[n].startedAt <= hi
         then 1 else 0)
  {
    var before, after := InWindowUpTo(g, def, lo, hi, n), InWindowUpTo(g, def, lo, hi, n + 1);
    if n in after {
      assert after == before + {n};
    } else {
      assert after == before;
    }
  }

  /** The count the evaluation step of the gate compares is what the query over the run rows yields. */
  lemma EvaluationCountsTheWindow(g: Gate, capacity: nat, def: string, now: int, window: int)
    requires Shape(g, capacity)
    ensures |Counted(Query(RowsOf(g, g.readCount), def, now, window))| == WindowCount(g, def, now, window)
  {
    QueryUpTo(g, g.readCount, def, now, window);
    assert InWindowUpTo(g, def, now - window, now, g.readCount) == InWindowOf(g, def, now - window, now);
  }

  // ----- what the retry time promises -----

  ghost function StillCounted(runs: seq<Run>, now: int, window: int): seq<Run> {
    if runs == [] then []
    else
      var last := runs[|runs| - 1];
      StillCounted(runs[..|runs| - 1], now, window)
        + (if Counts(last) && InWindow(last, now, window) then [last] else [])
  }

  lemma {:induction false} ExpiryDropsOne(runs: seq<Run>, window: int, later: int, k: nat)
    requires k < |runs| && Counts(runs[k]) && !InWindow(runs[k], later, window)
    ensures |StillCounted(runs, later, window)| < |Counted(runs)|
  {
    var init := runs[..|runs| - 1];
    if k < |init| {
      ExpiryDropsOne(init, window, later, k);
    } else {
      StillAtMost(init, window, later);
    }
  }

  lemma {:induction false} StillAtMost(runs: seq<Run>, window: int, later: int)
    ensures |StillCounted(runs, later, window)| <= |Counted(runs)|
  {
    if runs != [] {
      StillAtMost(runs[..|runs| - 1], window, later);
    }
  }

  lemma {:induction false} StillAll(runs: seq<Run>, window: int, later: int)
    requires forall r :: r in runs && Counts(r) ==> InWindow(r, later, window)
    ensures |StillCounted(runs, later, window)| == |Counted(runs)|
  {
    if runs != [] {
      StillAll(runs[..|runs| - 1], window, later);
      assert runs == runs[..|runs| - 1] + [runs[|runs| - 1]];
    }
  }

  /** With no new runs, fewer are counted at any time after the retry time, and no fewer
      at any time up to and including it: the window is closed at both ends. */
  lemma RetryAtIsTheBoundary(runs: seq<Run>, window: int, now: int, retryAt: int, later: int)
    requires window >= 0 && IsRetryAt(runs, window, now, retryAt) && Counted(runs) != []
    requires forall r :: r in runs ==> InWindow(r, now, window)
    requires later >= now
    ensures |StillCounted(runs, later, window)| < |Counted(runs)| <==> later > retryAt
  {
    CountedIsFromRuns(runs);
    assert Counted(runs)[0] in runs && StartedCounted(Counted(runs)[0]);
    var oldest :| oldest in runs && StartedCounted(oldest)
        && (forall r :: r in runs && StartedCounted(r) ==> oldest.startedAt.value <= r.startedAt.value)
        && retryAt == if oldest.startedAt.value + window < now then now else oldest.startedAt.value + window;
    if later > retryAt {
      var k :| 0 <= k < |runs| && runs[k] == oldest;
      ExpiryDropsOne(runs, window, later, k);
    } else {
      StillAll(runs, window, later);
    }
  }

  lemma {:induction false} CountedIsFromRuns(runs: seq<Run>)
    ensures forall r :: r in Counted(runs) <==> r in runs && Counts(r)
  {
    if runs != [] {
      CountedIsFromRuns(runs[..|runs| - 1]);
      assert runs == runs[..|runs| - 1] + [runs[|runs| - 1]];
    }
  }
}
