/** One attempt of a dispatch, and the attempts of a whole dispatch: the gate slot, the run
    row, and the agent session it may open. */
module DispatchAttempt {
  import opened Ordering
  import opened Runs
  import Retry

  datatype Run = Run(id: string, status: RunStatus, attempt: nat, sessionId: Option<string>, startedAt: Option<int>,
                     endedAt: Option<int>, hasError: bool)

  datatype StopCause = CauseCompleted | CauseUserRequested | CauseFailed
  datatype Session = Open | Stopped(cause: StopCause)

  datatype Target = AgentTarget | TaskTarget
  datatype Request = Request(scheduled: bool, target: Target, reserved: Option<Run>)

  /** How an error ends a run: errors of a cancelled context cancel it. */
  datatype ErrorKind = Plain | ContextEnded
  datatype Call = Works | Breaks(kind: ErrorKind)
  datatype Mismatch = Matches | OtherDefinition | OtherParticipation
  datatype LimitAnswer = Allowed | Refused | EvaluationFails
  datatype Hook = Pass | CancelRun | HookFails
  datatype SessionAnswer = NewSession | EmptySession | CreationFails(kind: ErrorKind)
  datatype TaskAnswer = Enqueued | EmptyTask | TaskFails(kind: ErrorKind)

  /** What the outside answers during one attempt, and the clock it reads. */
  datatype Answers = Answers(
    mismatch: Mismatch, limit: LimitAnswer, createRunFails: bool, newRunId: string, promptFails: bool, hook: Hook,
    session: SessionAnswer, sessionId: string, runningFails: bool, actorFails: bool, prompt: Call, stream: Call,
    stopFails: bool, finishFails: bool, noTaskService: bool, task: TaskAnswer, startedAt: int, finishedAt: int)

  datatype Outcome = Outcome(run: Option<Run>, failed: bool)
  datatype World = World(runs: map<string, Run>, sessions: map<string, Session>)

  function Classify(kind: ErrorKind): RunStatus {
    if kind == ContextEnded then Cancelled else Failed
  }

  function CauseOf(status: RunStatus): StopCause {
    match status
    case Completed => CauseCompleted
    case Cancelled => CauseUserRequested
    case _ => CauseFailed
  }

  function Finished(run: Run, status: RunStatus, hasError: bool, now: int): Run {
    run.(status := status, endedAt := Some(now), hasError := hasError)
  }

  // ----- how an attempt ends -----

  /** The run an attempt works on: the reserved one, or a new row. */
  function StartRow(req: Request, attempt: nat, a: Answers): Run {
    match req.reserved
    case Some(run) => if run.attempt < attempt then run.(attempt := attempt) else run
    case None => Run(a.newRunId, Scheduled, attempt, None, Some(a.startedAt), None, false)
  }

  /** The fire limit and the run row let the attempt through. */
  predicate Admitted(req: Request, a: Answers) {
    a.limit == Allowed && if req.reserved.Some? then a.mismatch == Matches else !a.createRunFails
  }

  /** An admitted attempt opens a session. */
  predicate OpensSession(req: Request, a: Answers) {
    req.target == AgentTarget && !a.promptFails && a.hook == Pass && a.session == NewSession
  }

  /** The session is open, but the run could not be moved to running. */
  predicate Stuck(req: Request, a: Answers) {
    OpensSession(req, a) && a.runningFails
  }

  /** How the work in the session ends. */
  function SessionEnd(a: Answers): RunStatus {
    if a.actorFails then Failed
    else if a.prompt.Breaks? then Classify(a.prompt.kind)
    else if a.stream.Breaks? then Classify(a.stream.kind)
    else Completed
  }

  /** What becomes of the session of an attempt. */
  function SessionAfter(a: Answers): Session {
    if a.runningFails || a.stopFails then Open else Stopped(CauseOf(SessionEnd(a)))
  }

  /** The status an admitted attempt that is not stuck gives its run. */
  function EndStatus(req: Request, a: Answers): RunStatus {
    if (req.target == TaskTarget && a.noTaskService) || (req.target == AgentTarget && a.promptFails) then Failed
    else if a.hook == HookFails then Failed
    else if a.hook == CancelRun then Cancelled
    else if req.target == TaskTarget then
      match a.task
      case Enqueued => Delegated
      case EmptyTask => Failed
      case TaskFails(kind) => Classify(kind)
    else
      match a.session
      case CreationFails(kind) => Classify(kind)
      case EmptySession => Failed
      case NewSession => if SessionEnd(a) == Completed && a.stopFails then Failed else SessionEnd(a)
  }

  /** An admitted attempt ends without error exactly when its run is stored as completed or
      delegated, or was cancelled by its hook. */
  predicate Succeeds(req: Request, a: Answers) {
    && !a.finishFails && !Stuck(req, a)
    && (EndStatus(req, a) in {Completed, Delegated} || (a.hook == CancelRun && EndStatus(req, a) == Cancelled))
  }

  /** The row an admitted attempt hands back. */
  function EndRow(req: Request, attempt: nat, a: Answers): Run {
    var start := StartRow(req, attempt, a);
    var last := if OpensSession(req, a) then start.(status := Running, sessionId := Some(a.sessionId)) else start;
    if Stuck(req, a) then start
    else if a.finishFails then last
    else Finished(last, EndStatus(req, a), !Succeeds(req, a), a.finishedAt)
  }

  /** The row handed back was written by the attempt. */
  predicate WritesRow(req: Request, a: Answers) {
    req.reserved.None? || (!Stuck(req, a) && (OpensSession(req, a) || !a.finishFails))
  }

  predicate RefusedByLimit(req: Request, a: Answers) {
    req.reserved.Some? && a.mismatch == Matches && a.limit == Refused
  }

  /** What a refused attempt hands back: a reserved run refused by the fire limit is cancelled
      for schedules and failed for others; any other refusal changes no row. */
  function RefusedOutcome(req: Request, attempt: nat, a: Answers): Outcome {
    if req.reserved.None? || a.mismatch == OtherDefinition then Outcome(None, true)
    else if RefusedByLimit(req, a) && !a.finishFails then
      Outcome(Some(Finished(StartRow(req, attempt, a), if req.scheduled then Cancelled else Failed, true,
                            a.finishedAt)), true)
    else Outcome(Some(StartRow(req, attempt, a)), true)
  }

  /** Everything an attempt with a free slot does: the outcome, the run rows and the sessions. */
  ghost predicate AttemptEffect(w: World, w': World, req: Request, attempt: nat, a: Answers, r: Outcome) {
    if Admitted(req, a) then
      var row := EndRow(req, attempt, a);
      && r == Outcome(Some(row), !Succeeds(req, a))
      && w'.runs == (if WritesRow(req, a) then w.runs[row.id := row] else w.runs)
      && w'.sessions == (if OpensSession(req, a) then w.sessions[a.sessionId := SessionAfter(a)] else w.sessions)
    else
      && r == RefusedOutcome(req, attempt, a)
      && w'.runs == (if RefusedByLimit(req, a) && !a.finishFails then w.runs[r.run.value.id := r.run.value] else w.runs)
      && w'.sessions == w.sessions
  }

  /** The state once an admitted attempt has its run. */
  ghost function Started(w: World, req: Request, attempt: nat, a: Answers): World {
    w.(runs := if req.reserved.None? then w.runs[a.newRunId := StartRow(req, attempt, a)] else w.runs)
  }

  class Dispatcher {
    const capacity: nat
    var used: nat
    var runs: map<string, Run>
    var sessions: map<string, Session>

    constructor (capacity: nat)
      ensures this.capacity == capacity && used == 0 && runs == map[] && sessions == map[]
    {
      this.capacity := capacity;
      used, runs, sessions := 0, map[], map[];
    }

    ghost function Stored(): World
      reads this
    {
      World(runs, sessions)
    }

    method UpdateRun(next: Run, fails: bool) returns (ok: bool)
      modifies this`runs
      ensures ok == !fails && runs == if ok then old(runs)[next.id := next] else old(runs)
    {
      ok := !fails;
      if ok {
        runs := runs[next.id := next];
      }
    }

    method FinishRun(current: Run, status: RunStatus, hasError: bool, a: Answers) returns (r: Outcome)
      modifies this`runs
      ensures a.finishFails ==> r == Outcome(Some(current), true) && runs == old(runs)
      ensures !a.finishFails ==>
        var next := Finished(current, status, hasError, a.finishedAt);
        r == Outcome(Some(next), hasError) && runs == old(runs)[current.id := next]
    {
      var next := Finished(current, status, hasError, a.finishedAt);
      var ok := UpdateRun(next, a.finishFails);
      if !ok {
        return Outcome(Some(current), true);
      }
      return Outcome(Some(next), hasError);
    }

    /** A stop that fails turns a completed run into a failed one. */
    method FinishAfterStop(current: Run, status: RunStatus, hasError: bool, a: Answers) returns (r: Outcome)
      modifies this`runs, this`sessions
      ensures sessions == if a.stopFails then old(sessions) else old(sessions)[a.sessionId := Stopped(CauseOf(status))]
      ensures a.finishFails ==> r == Outcome(Some(current), true) && runs == old(runs)
      ensures !a.finishFails ==>
        var next :=
          Finished(current, if a.stopFails && !hasError then Failed else status, hasError || a.stopFails, a.finishedAt);
        r == Outcome(Some(next), hasError || a.stopFails) && runs == old(runs)[current.id := next]
    {
      var finalStatus, failed := status, hasError;
      if a.stopFails {
        if !failed {
          finalStatus := Failed;
        }
        failed := true;
      } else {
        sessions := sessions[a.sessionId := Stopped(CauseOf(status))];
      }
      r := FinishRun(current, finalStatus, failed, a);
    }

    /** The run an attempt works on, or the outcome that ends it before it has one. */
    method ReserveRun(req: Request, attempt: nat, a: Answers) returns (run: Option<Run>, r: Outcome)
      modifies this`runs
      ensures run == if Admitted(req, a) then Some(StartRow(req, attempt, a)) else None
      ensures run.Some? ==> Stored() == Started(old(Stored()), req, attempt, a)
      ensures run.None? ==> AttemptEffect(old(Stored()), Stored(), req, attempt, a, r)
    {
      if req.reserved.Some? {
        var reserved := req.reserved.value;
        if a.mismatch == OtherDefinition {
          return None, Outcome(None, true);
        }
        if reserved.attempt < attempt {
          reserved := reserved.(attempt := attempt);
        }
        if a.mismatch == OtherParticipation || a.limit == EvaluationFails {
          return None, Outcome(Some(reserved), true);
        }
        if a.limit == Refused {
          r := FinishRun(reserved, if req.scheduled then Cancelled else Failed, true, a);
          return None, r;
        }
        return Some(reserved), Outcome(None, true);
      }
      if a.limit != Allowed || a.createRunFails {
        return None, Outcome(None, true);
      }
      var created := Run(a.newRunId, Scheduled, attempt, None, Some(a.startedAt), None, false);
      runs := runs[a.newRunId := created];
      return Some(created), Outcome(None, true);
    }

    /** The agent session of an attempt, from the running run on. */
    method RunSession(running: Run, a: Answers) returns (r: Outcome)
      modifies this`runs, this`sessions
      ensures sessions ==
        if a.stopFails then old(sessions) else old(sessions)[a.sessionId := Stopped(CauseOf(SessionEnd(a)))]
      ensures a.finishFails ==> r == Outcome(Some(running), true) && runs == old(runs)
      ensures !a.finishFails ==>
        var failed := a.stopFails || SessionEnd(a) != Completed;
        var status := if SessionEnd(a) == Completed && a.stopFails then Failed else SessionEnd(a);
        var next := Finished(running, status, failed, a.finishedAt);
        r == Outcome(Some(next), failed) && runs == old(runs)[running.id := next]
    {
      if a.actorFails {
        r := FinishAfterStop(running, Failed, true, a);
        return;
      }
      if a.prompt.Breaks? {
        r := FinishAfterStop(running, Classify(a.prompt.kind), true, a);
        return;
      }
      if a.stream.Breaks? {
        r := FinishAfterStop(running, Classify(a.stream.kind), true, a);
        return;
      }
      r := FinishAfterStop(running, Completed, false, a);
    }

    /** An agent attempt, once it has its run. */
    method RunAgent(run: Run, req: Request, attempt: nat, a: Answers, ghost w: World) returns (r: Outcome)
      requires Stored() == Started(w, req, attempt, a) && run == StartRow(req, attempt, a)
      requires Admitted(req, a) && req.target == AgentTarget
      modifies this`runs, this`sessions
      ensures AttemptEffect(w, Stored(), req, attempt, a, r)
    {
      if a.promptFails || a.hook == HookFails {
        r := FinishRun(run, Failed, true, a);
        return;
      }
      if a.hook == CancelRun {
        r := FinishRun(run, Cancelled, false, a);
        return;
      }
      if a.session.CreationFails? {
        r := FinishRun(run, Classify(a.session.kind), true, a);
        return;
      }
      if a.session == EmptySession {
        r := FinishRun(run, Failed, true, a);
        return;
      }
      r := RunCreatedSession(run, req, attempt, a, w);
    }

    method RunCreatedSession(run: Run, req: Request, attempt: nat, a: Answers, ghost w: World) returns (r: Outcome)
      requires Stored() == Started(w, req, attempt, a) && run == StartRow(req, attempt, a)
      requires Admitted(req, a) && OpensSession(req, a)
      modifies this`runs, this`sessions
      ensures AttemptEffect(w, Stored(), req, attempt, a, r)
    {
      sessions := sessions[a.sessionId := Open];
      var running := run.(status := Running, sessionId := Some(a.sessionId));
      var ok := UpdateRun(running, a.runningFails);
      if !ok {
        return Outcome(Some(run), true);
      }
      r := RunSession(running, a);
    }

    /** A task-backed attempt hands its run over to a task. */
    method RunTask(run: Run, req: Request, attempt: nat, a: Answers, ghost w: World) returns (r: Outcome)
      requires Stored() == Started(w, req, attempt, a) && run == StartRow(req, attempt, a)
      requires Admitted(req, a) && req.target == TaskTarget
      modifies this`runs
      ensures AttemptEffect(w, Stored(), req, attempt, a, r)
    {
      if a.noTaskService || a.hook == HookFails {
        r := FinishRun(run, Failed, true, a);
        return;
      }
      if a.hook == CancelRun {
        r := FinishRun(run, Cancelled, false, a);
        return;
      }
      if a.task.TaskFails? {
        r := FinishRun(run, Classify(a.task.kind), true, a);
        return;
      }
      if a.task == EmptyTask {
        r := FinishRun(run, Failed, true, a);
        return;
      }
      r := FinishRun(run, Delegated, false, a);
    }

    /** One attempt under the gate. */
    method Attempt(req: Request, attempt: nat, a: Answers) returns (r: Outcome)
      requires used <= capacity
      modifies this
      ensures used == old(used)
      ensures old(used) < capacity ==> AttemptEffect(old(Stored()), Stored(), req, attempt, a, r)
      ensures old(used) == capacity ==> r == Outcome(None, true) && Stored() == old(Stored())
    {
      if used == capacity {
        return Outcome(None, true);
      }
      used := used + 1;
      ghost var w := Stored();
      var run;
      run, r := ReserveRun(req, attempt, a);
      if run.Some? {
        if req.target == TaskTarget {
          r := RunTask(run.value, req, attempt, a, w);
        } else {
          r := RunAgent(run.value, req, attempt, a, w);
        }
      }
      used := used - 1;
    }
  }

  // ----- a whole dispatch -----

  function AsAttempt(r: Outcome): Retry.Attempt {
    Retry.Attempt(if r.run.Some? then Some(r.run.value.status) else None, r.failed)
  }

  /** The request of the attempt after these outcomes: a reserved run is carried on as it was
      last handed back. */
  function RequestAfter(req: Request, outcomes: seq<Outcome>): Request {
    if outcomes == [] then req
    else
      var last := outcomes[|outcomes| - 1];
      if req.reserved.Some? && last.run.Some? then req.(reserved := last.run)
      else RequestAfter(req, outcomes[..|outcomes| - 1])
  }

  /** The run handed back by the last attempt that had one. */
  function LastRun(outcomes: seq<Outcome>): Option<Run> {
    if outcomes == [] then None
    else if outcomes[|outcomes| - 1].run.Some? then outcomes[|outcomes| - 1].run
    else LastRun(outcomes[..|outcomes| - 1])
  }

  /** The outside of one dispatch: whether the gate is full, what each attempt is answered,
      and after which attempt the wait is interrupted, if any. */
  datatype Outside = Outside(full: bool, answers: nat -> Answers, interruptedAt: nat)

  ghost predicate AttemptAt(req: Request, o: Outside, ws: seq<World>, outcomes: seq<Outcome>, k: nat)
    requires k < |outcomes| && |ws| == |outcomes| + 1
  {
    if o.full then outcomes[k] == Outcome(None, true) && ws[k + 1] == ws[k]
    else AttemptEffect(ws[k], ws[k + 1], RequestAfter(req, outcomes[..k]), k + 1, o.answers(k + 1), outcomes[k])
  }

  /** Another attempt follows the first k. */
  ghost predicate GoesOn(config: Retry.Config, o: Outside, outcomes: seq<Outcome>, k: nat)
    requires 1 <= k <= |outcomes|
  {
    Retry.ShouldRetry(config, k, AsAttempt(outcomes[k - 1])) && o.interruptedAt != k
  }

  /** The attempts of one dispatch: each has its effect, and a further one follows exactly as
      long as the last one asks for a retry and the wait is not interrupted. */
  ghost predicate IsDispatch(req: Request, config: Retry.Config, o: Outside, ws: seq<World>, outcomes: seq<Outcome>) {
    && |ws| == |outcomes| + 1 && outcomes != []
    && (forall k :: 0 <= k < |outcomes| ==> AttemptAt(req, o, ws, outcomes, k))
    && (forall k :: 1 <= k < |outcomes| ==> GoesOn(config, o, outcomes, k))
    && !GoesOn(config, o, outcomes, |outcomes|)
  }

  ghost predicate DispatchSoFar(req: Request, config: Retry.Config, o: Outside, ws: seq<World>,
                                outcomes: seq<Outcome>) {
    && |ws| == |outcomes| + 1
    && (forall k :: 0 <= k < |outcomes| ==> AttemptAt(req, o, ws, outcomes, k))
    && (forall k :: 1 <= k <= |outcomes| ==> GoesOn(config, o, outcomes, k))
  }

  /** One more attempt, which may be the last. */
  lemma OneMoreAttempt(req: Request, config: Retry.Config, o: Outside, ws: seq<World>, outcomes: seq<Outcome>,
                       w: World, r: Outcome)
    requires DispatchSoFar(req, config, o, ws, outcomes)
    requires if o.full then r == Outcome(None, true) && w == ws[|outcomes|]
             else AttemptEffect(ws[|outcomes|], w, RequestAfter(req, outcomes), |outcomes| + 1,
                                o.answers(|outcomes| + 1), r)
    ensures GoesOn(config, o, outcomes + [r], |outcomes| + 1) ==>
      DispatchSoFar(req, config, o, ws + [w], outcomes + [r])
    ensures !GoesOn(config, o, outcomes + [r], |outcomes| + 1) ==> IsDispatch(req, config, o, ws + [w], outcomes + [r])
  {
    var more, all := outcomes + [r], ws + [w];
    forall k | 0 <= k < |more| ensures AttemptAt(req, o, all, more, k) {
      assert more[..k] == outcomes[..k];
      if k < |outcomes| {
        assert AttemptAt(req, o, ws, outcomes, k);
      } else {
        assert outcomes[..k] == outcomes;
      }
    }
    forall k | 1 <= k < |more| ensures GoesOn(config, o, more, k) {
      assert GoesOn(config, o, outcomes, k);
    }
  }

  lemma NextRequest(req: Request, outcomes: seq<Outcome>, r: Outcome)
    ensures RequestAfter(req, outcomes + [r])
         == if req.reserved.Some? && r.run.Some? then req.(reserved := r.run) else RequestAfter(req, outcomes)
    ensures LastRun(outcomes + [r]) == if r.run.Some? then r.run else LastRun(outcomes)
  {
    assert (outcomes + [r])[..|outcomes|] == outcomes;
  }

  /** The retry loop. */
  method Dispatch(d: Dispatcher, req: Request, config: Retry.Config, o: Outside)
    returns (last: Option<Run>, failed: bool, attempts: nat, waited: int, ghost ws: seq<World>,
             ghost outcomes: seq<Outcome>)
    requires d.used <= d.capacity && (o.full <==> d.used == d.capacity)
    modifies d
    ensures d.used == old(d.used)
    ensures attempts == |outcomes| && IsDispatch(req, config, o, ws, outcomes)
    ensures ws[0] == old(d.Stored()) && ws[attempts] == d.Stored()
    ensures 1 <= attempts <= 1 + if config.maxRetries < 0 then 0 else config.maxRetries
    ensures failed == outcomes[attempts - 1].failed && last == LastRun(outcomes)
    ensures waited == Retry.Waited(config, attempts - 1)
  {
    ws, outcomes := [d.Stored()], [];
    var current := req;
    attempts, waited, last := 0, 0, None;
    while true
      invariant d.used == old(d.used) && attempts == |outcomes|
      invariant attempts > 0 ==> attempts <= config.maxRetries
      invariant DispatchSoFar(req, config, o, ws, outcomes) && ws[0] == old(d.Stored()) && ws[attempts] == d.Stored()
      invariant current == RequestAfter(req, outcomes) && last == LastRun(outcomes)
      invariant waited == Retry.Waited(config, attempts)
      decreases config.maxRetries - attempts
    {
      var r := d.Attempt(current, attempts + 1, o.answers(attempts + 1));
      OneMoreAttempt(req, config, o, ws, outcomes, d.Stored(), r);
      NextRequest(req, outcomes, r);
      ws, outcomes, attempts := ws + [d.Stored()], outcomes + [r], attempts + 1;
      if r.run.Some? {
        last := r.run;
        if req.reserved.Some? {
          current := req.(reserved := r.run);
        }
      }
      if !r.failed {
        return last, false, attempts, waited, ws, outcomes;
      }
      if !Retry.ShouldRetry(config, attempts, AsAttempt(r)) || o.interruptedAt == attempts {
        return last, true, attempts, waited, ws, outcomes;
      }
      waited := waited + Retry.RetryDelay(config, attempts);
    }
  }

  // ----- the sessions a dispatch leaves open -----

  function SessionId(o: Outside, k: nat): string {
    o.answers(k + 1).sessionId
  }

  function SessionEndOf(o: Outside, k: nat): Session {
    SessionAfter(o.answers(k + 1))
  }

  /** Every attempt has a session id of its own. */
  ghost predicate Fresh(o: Outside, w: World) {
    && (forall i: nat :: SessionId(o, i) !in w.sessions)
    && (forall i: nat, j: nat :: SessionId(o, i) == SessionId(o, j) ==> i == j)
  }

  /** Attempt k + 1 opened a session. */
  ghost predicate Opened(req: Request, o: Outside, outcomes: seq<Outcome>, k: nat)
    requires k < |outcomes|
  {
    var now := RequestAfter(req, outcomes[..k]);
    !o.full && Admitted(now, o.answers(k + 1)) && OpensSession(now, o.answers(k + 1))
  }

  /** The first n attempts that opened a session. */
  ghost function OpenedAmong(req: Request, o: Outside, outcomes: seq<Outcome>, n: nat): set<nat>
    requires n <= |outcomes|
  {
    set k: nat | k < n && Opened(req, o, outcomes, k)
  }

  /** The sessions are those of w and those of the attempts in openers. */
  ghost predicate SessionsAccounted(o: Outside, w: World, w': World, openers: set<nat>) {
    && (forall id :: id in w.sessions ==> id in w'.sessions && w'.sessions[id] == w.sessions[id])
    && (forall k :: k in openers ==>
          SessionId(o, k) in w'.sessions && w'.sessions[SessionId(o, k)] == SessionEndOf(o, k))
    && (forall id :: id in w'.sessions && id !in w.sessions ==> exists k :: k in openers && SessionId(o, k) == id)
  }

  lemma AttemptSessions(req: Request, o: Outside, ws: seq<World>, outcomes: seq<Outcome>, k: nat)
    requires k < |outcomes| && |ws| == |outcomes| + 1 && AttemptAt(req, o, ws, outcomes, k)
    ensures ws[k + 1].sessions == if Opened(req, o, outcomes, k)
                                  then ws[k].sessions[SessionId(o, k) := SessionEndOf(o, k)] else ws[k].sessions
  {
  }

  lemma AccountGrows(o: Outside, w: World, before: World, after: World, openers: set<nat>, n: nat)
    requires Fresh(o, w) && SessionsAccounted(o, w, before, openers) && n !in openers
    requires after.sessions == before.sessions[SessionId(o, n) := SessionEndOf(o, n)]
    ensures SessionsAccounted(o, w, after, openers + {n})
  {
    var id := SessionId(o, n);
    forall k | k in openers + {n}
      ensures SessionId(o, k) in after.sessions && after.sessions[SessionId(o, k)] == SessionEndOf(o, k)
    {
      assert k != n ==> k in openers && SessionId(o, k) != id;
    }
    forall x | x in after.sessions && x !in w.sessions ensures exists k :: k in openers + {n} && SessionId(o, k) == x {
      if x == id {
        assert n in openers + {n};
      } else {
        var k :| k in openers && SessionId(o, k) == x;
        assert k in openers + {n};
      }
    }
  }

  /** The sessions after a dispatch are those from before and those its attempts opened, each
      stopped unless its run could not be moved to running or it could not be stopped. */
  lemma {:induction false} SessionsOfDispatch(req: Request, config: Retry.Config, o: Outside, ws: seq<World>,
                                              outcomes: seq<Outcome>, n: nat)
    requires IsDispatch(req, config, o, ws, outcomes) && Fresh(o, ws[0]) && n <= |outcomes|
    ensures SessionsAccounted(o, ws[0], ws[n], OpenedAmong(req, o, outcomes, n))
  {
    if n > 0 {
      SessionsOfDispatch(req, config, o, ws, outcomes, n - 1);
      AttemptSessions(req, o, ws, outcomes, n - 1);
      var before := OpenedAmong(req, o, outcomes, n - 1);
      OpenedGrows(req, o, outcomes, n - 1);
      if Opened(req, o, outcomes, n - 1) {
        AccountGrows(o, ws[0], ws[n - 1], ws[n], before, n - 1);
      }
    }
  }

  lemma OpenedGrows(req: Request, o: Outside, outcomes: seq<Outcome>, n: nat)
    requires n < |outcomes|
    ensures OpenedAmong(req, o, outcomes, n + 1)
         == OpenedAmong(req, o, outcomes, n) + if Opened(req, o, outcomes, n) then {n} else {}
  {
  }

  /** A stuck attempt that is retried worked on a reserved run that had failed before. */
  lemma StuckIsRetriedIff(w: World, w': World, req: Request, attempt: nat, a: Answers, r: Outcome, config: Retry.Config)
    requires AttemptEffect(w, w', req, attempt, a, r) && Admitted(req, a) && Stuck(req, a)
    ensures Retry.ShouldRetry(config, attempt, AsAttempt(r)) <==>
      config.strategy == Retry.Backoff && attempt <= config.maxRetries && req.reserved.Some?
        && req.reserved.value.status == Failed
  {
    assert StartRow(req, attempt, a).status == if req.reserved.Some? then req.reserved.value.status else Scheduled;
  }

  /** An attempt that is stuck but not the last one works on a reserved run that had failed. */
  lemma StuckBeforeTheLast(req: Request, config: Retry.Config, o: Outside, ws: seq<World>, outcomes: seq<Outcome>,
                           k: nat)
    requires IsDispatch(req, config, o, ws, outcomes) && k + 1 < |outcomes|
    requires Opened(req, o, outcomes, k) && o.answers(k + 1).runningFails
    ensures var now := RequestAfter(req, outcomes[..k]); now.reserved.Some? && now.reserved.value.status == Failed
  {
    assert AttemptAt(req, o, ws, outcomes, k) && GoesOn(config, o, outcomes, k + 1);
    StuckIsRetriedIff(ws[k], ws[k + 1], RequestAfter(req, outcomes[..k]), k + 1, o.answers(k + 1), outcomes[k], config);
  }

  /** After a dispatch the session of an attempt is open exactly when it could not be stopped
      or its run could not be moved to running; the latter happens before the last attempt
      only to a reserved run that had failed in an earlier attempt. */
  lemma OpenSessionIffBlamed(req: Request, config: Retry.Config, o: Outside, ws: seq<World>, outcomes: seq<Outcome>,
                             k: nat)
    requires IsDispatch(req, config, o, ws, outcomes) && Fresh(o, ws[0])
    requires k < |outcomes| && Opened(req, o, outcomes, k)
    ensures var a := o.answers(k + 1);
      && a.sessionId in ws[|outcomes|].sessions
      && (ws[|outcomes|].sessions[a.sessionId] == Open <==> a.stopFails || a.runningFails)
    ensures o.answers(k + 1).runningFails && k + 1 < |outcomes| ==>
      var now := RequestAfter(req, outcomes[..k]); now.reserved.Some? && now.reserved.value.status == Failed
  {
    SessionsOfDispatch(req, config, o, ws, outcomes, |outcomes|);
    assert k in OpenedAmong(req, o, outcomes, |outcomes|) && SessionId(o, k) == o.answers(k + 1).sessionId;
    if o.answers(k + 1).runningFails && k + 1 < |outcomes| {
      StuckBeforeTheLast(req, config, o, ws, outcomes, k);
    }
  }

  // ----- the rows a dispatch touches -----

  /** The row an attempt of this dispatch works on. */
  function RowId(req: Request, o: Outside, k: nat): string {
    if req.reserved.Some? then req.reserved.value.id else o.answers(k + 1).newRunId
  }

  lemma EndsOnItsRow(w: World, w': World, req: Request, attempt: nat, a: Answers, r: Outcome)
    requires AttemptEffect(w, w', req, attempt, a, r)
    ensures var id := if req.reserved.Some? then req.reserved.value.id else a.newRunId;
      (forall x :: x != id ==> (x in w'.runs <==> x in w.runs) && (x in w.runs ==> w'.runs[x] == w.runs[x]))
      && (r.run.Some? ==> r.run.value.id == id)
  {}

  /** A dispatch with a reserved run touches no other row; one without touches only new rows. */
  lemma {:induction false} RowsOfDispatch(req: Request, config: Retry.Config, o: Outside, ws: seq<World>,
                                          outcomes: seq<Outcome>, n: nat)
    requires IsDispatch(req, config, o, ws, outcomes) && n <= |outcomes|
    ensures forall x :: (forall k: nat :: RowId(req, o, k) != x) ==>
      (x in ws[n].runs <==> x in ws[0].runs) && (x in ws[0].runs ==> ws[n].runs[x] == ws[0].runs[x])
    ensures RequestAfter(req, outcomes[..n]).reserved.Some? <==> req.reserved.Some?
    ensures req.reserved.Some? ==> RequestAfter(req, outcomes[..n]).reserved.value.id == req.reserved.value.id
  {
    if n > 0 {
      RowsOfDispatch(req, config, o, ws, outcomes, n - 1);
      assert AttemptAt(req, o, ws, outcomes, n - 1);
      assert outcomes[..n] == outcomes[..n - 1] + [outcomes[n - 1]];
      NextRequest(req, outcomes[..n - 1], outcomes[n - 1]);
      if !o.full {
        EndsOnItsRow(ws[n - 1], ws[n], RequestAfter(req, outcomes[..n - 1]), n, o.answers(n), outcomes[n - 1]);
        assert RowId(req, o, n - 1) == RowId(RequestAfter(req, outcomes[..n - 1]), o, n - 1);
      }
    }
  }

  // ----- a dispatch that succeeds and leaves a session open -----

  function PlainAnswers(k: nat): Answers {
    Answers(Matches, Allowed, false, "", false, Pass, NewSession, "", false, false, Works, Works, false, false, false,
            Enqueued, 0, k)
  }

  /** The first prompt fails, the second run cannot be moved to running, the third works. */
  function LeakAnswers(k: nat): Answers {
    match k
    case 1 => PlainAnswers(1).(sessionId := "one", prompt := Breaks(Plain))
    case 2 => PlainAnswers(2).(sessionId := "two", runningFails := true)
    case _ => PlainAnswers(k).(sessionId := "three")
  }

  const LEAK_RUN: Run := Run("run", Scheduled, 1, None, Some(0), None, false)
  const LEAK_FAILED: Run := Run("run", Failed, 1, Some("one"), Some(0), Some(1), true)
  const LEAK_DONE: Run := Run("run", Completed, 3, Some("three"), Some(0), Some(3), false)

  /** The outcomes of the three attempts. */
  function LeakOutcome(k: nat): Outcome {
    match k
    case 0 => Outcome(Some(LEAK_FAILED), true)
    case 1 => Outcome(Some(LEAK_FAILED.(attempt := 2)), true)
    case _ => Outcome(Some(LEAK_DONE), false)
  }

  /** The durable state after k attempts. */
  function LeakWorld(k: nat): World {
    match k
    case 0 => World(map["run" := LEAK_RUN], map[])
    case 1 => World(map["run" := LEAK_FAILED], map["one" := Stopped(CauseFailed)])
    case 2 => World(map["run" := LEAK_FAILED], map["one" := Stopped(CauseFailed), "two" := Open])
    case _ => World(map["run" := LEAK_DONE],
                    map["one" := Stopped(CauseFailed), "two" := Open, "three" := Stopped(CauseCompleted)])
  }

  lemma LeakingAttempt(k: nat)
    requires k < 3
    ensures AttemptEffect(LeakWorld(k), LeakWorld(k + 1),
                          Request(true, AgentTarget, if k == 0 then Some(LEAK_RUN) else LeakOutcome(k - 1).run),
                          k + 1, LeakAnswers(k + 1), LeakOutcome(k))
  {
    assert LeakWorld(1).sessions == LeakWorld(0).sessions["one" := Stopped(CauseFailed)];
    assert LeakWorld(2).sessions == LeakWorld(1).sessions["two" := Open];
    assert LeakWorld(3).sessions == LeakWorld(2).sessions["three" := Stopped(CauseCompleted)];
    assert LeakWorld(1).runs == LeakWorld(0).runs["run" := LEAK_FAILED];
    assert LeakWorld(3).runs == LeakWorld(2).runs["run" := LEAK_DONE];
  }

  /** A reserved run: the first attempt fails, the second is stuck with the old failure and is
      retried for it, the third completes. Its dispatch succeeds, no stop fails, and the second
      session stays open for good. */
  lemma StaleFailureLeaksSession() returns (ws: seq<World>, outcomes: seq<Outcome>)
    ensures IsDispatch(Request(true, AgentTarget, Some(LEAK_RUN)), Retry.Config(Retry.Backoff, 2, 1),
                       Outside(false, LeakAnswers, 0), ws, outcomes)
    ensures |outcomes| == 3 && !outcomes[2].failed && ws[0] == LeakWorld(0) && ws[3] == LeakWorld(3)
    ensures ws[3].sessions["two"] == Open && forall k :: !LeakAnswers(k).stopFails
  {
    var req, config, o :=
      Request(true, AgentTarget, Some(LEAK_RUN)), Retry.Config(Retry.Backoff, 2, 1), Outside(false, LeakAnswers, 0);
    ws, outcomes := [LeakWorld(0)], [];
    var k := 0;
    while k < 2
      invariant 0 <= k <= 2 && |outcomes| == k && DispatchSoFar(req, config, o, ws, outcomes)
      invariant ws[0] == LeakWorld(0) && ws[k] == LeakWorld(k)
      invariant RequestAfter(req, outcomes) == if k == 0 then req else req.(reserved := LeakOutcome(k - 1).run)
    {
      LeakingAttempt(k);
      OneMoreAttempt(req, config, o, ws, outcomes, LeakWorld(k + 1), LeakOutcome(k));
      NextRequest(req, outcomes, LeakOutcome(k));
      ws, outcomes, k := ws + [LeakWorld(k + 1)], outcomes + [LeakOutcome(k)], k + 1;
    }
    LeakingAttempt(2);
    OneMoreAttempt(req, config, o, ws, outcomes, LeakWorld(3), LeakOutcome(2));
    ws, outcomes := ws + [LeakWorld(3)], outcomes + [LeakOutcome(2)];
  }
}
