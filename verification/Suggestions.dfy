/** Accepting a suggested job: the suggestion is resolved in one store and its job created in
    another, a failed creation is rolled back, and a crash in between is repaired at start. */
module Suggestions {
  import opened Ordering
  import opened Definitions

  datatype Status = Pending | Accepted | Dismissed

  /** A pending suggestion has no resolution time. */
  datatype Suggestion = Suggestion(workspaceId: string, dedupKey: string, status: Status, payload: Job,
                                   resolvedAt: Option<int>)

  /** The durable state: suggestions by id and authoritative job definitions by id. */
  datatype World = World(suggestions: map<string, Suggestion>, jobs: map<string, Job>)

  /** What the environment fixes: the id derived for a suggestion's job, the validation of a
      job, and the form in which the job store keeps a valid job. */
  datatype Rules = Rules(jobId: (string, string) -> string, valid: Job -> bool, normal: Job -> Job)

  function JobIdOf(rules: Rules, s: Suggestion): string {
    rules.jobId(s.workspaceId, s.dedupKey)
  }

  /** The job a suggestion stands for. */
  function Prepare(rules: Rules, s: Suggestion): Job {
    s.payload.(id := JobIdOf(rules, s), scope := "workspace", workspaceId := s.workspaceId, source := "dynamic")
  }

  /** Workspace and dedup key are unique, and so are the ids derived from them. */
  ghost predicate DistinctKeys(rules: Rules, suggestions: map<string, Suggestion>) {
    forall a, b :: a in suggestions && b in suggestions && a != b ==>
      JobIdOf(rules, suggestions[a]) != JobIdOf(rules, suggestions[b])
  }

  ghost predicate WellFormed(rules: Rules, w: World) {
    && DistinctKeys(rules, w.suggestions)
    && forall id :: id in w.suggestions && w.suggestions[id].status == Pending ==> w.suggestions[id].resolvedAt == None
  }

  /** The job of a suggestion is missing, or is the one the suggestion stands for. */
  ghost predicate MissingOrRight(rules: Rules, jobs: map<string, Job>, s: Suggestion) {
    JobIdOf(rules, s) in jobs ==> SameJob(jobs[JobIdOf(rules, s)], Prepare(rules, s))
  }

  /** Nothing stands in the way of a recovery. */
  ghost predicate Recoverable(rules: Rules, w: World) {
    forall id :: id in w.suggestions && w.suggestions[id].status == Accepted ==>
      rules.valid(Prepare(rules, w.suggestions[id])) && MissingOrRight(rules, w.jobs, w.suggestions[id])
  }

  /** Every accepted suggestion has its job. */
  ghost predicate Complete(rules: Rules, w: World) {
    Recoverable(rules, w) && forall id :: id in w.suggestions && w.suggestions[id].status == Accepted ==>
      JobIdOf(rules, w.suggestions[id]) in w.jobs
  }

  // ----- accepting -----

  datatype Faults = Faults(inspect: bool, resolve: bool, putJob: bool, reload: bool, undoPut: bool, effective: bool,
                           inspectAgain: bool, rollback: bool)
  datatype Result = Done(job: Job) | Err

  predicate NoFaults(f: Faults) {
    !f.inspect && !f.resolve && !f.putJob && !f.reload && !f.effective
  }

  ghost predicate Acceptable(rules: Rules, w: World, s: Suggestion) {
    s.status == Pending && rules.valid(Prepare(rules, s)) && MissingOrRight(rules, w.jobs, s)
  }

  function Resolved(s: Suggestion, status: Status, now: int): Suggestion {
    s.(status := status, resolvedAt := Some(now))
  }

  /** The durable states an accept of one suggestion passes through. */
  ghost predicate AcceptStep(rules: Rules, w: World, w': World, id: string) {
    w' == w ||
    (id in w.suggestions && Acceptable(rules, w, w.suggestions[id])
     && (exists now :: w'.suggestions == w.suggestions[id := Resolved(w.suggestions[id], Accepted, now)])
     && (w'.jobs == w.jobs || WithJob(rules, w, w', w.suggestions[id])))
  }

  ghost predicate WithJob(rules: Rules, w: World, w': World, s: Suggestion) {
    JobIdOf(rules, s) !in w.jobs && w'.jobs == w.jobs[JobIdOf(rules, s) := rules.normal(Prepare(rules, s))]
  }

  predicate AcceptedAt(suggestions: map<string, Suggestion>, id: string, resolvedAt: int) {
    id in suggestions && suggestions[id].status == Accepted && suggestions[id].resolvedAt == Some(resolvedAt)
  }

  class Manager {
    const rules: Rules
    var suggestions: map<string, Suggestion>
    var jobs: map<string, Job>
    /** The durable states so far; a crash leaves the last of them. */
    ghost var trace: seq<World>

    constructor (rules: Rules)
      ensures this.rules == rules && suggestions == map[] && jobs == map[] && trace == []
    {
      this.rules := rules;
      suggestions, jobs, trace := map[], map[], [];
    }

    ghost function Durable(): World
      reads this
    {
      World(suggestions, jobs)
    }

    /** The write that resolves a pending suggestion, atomically. */
    method ResolveSuggestion(id: string, status: Status, now: int, fails: bool) returns (ok: bool)
      modifies this
      ensures ok <==> !fails && id in old(suggestions) && old(suggestions)[id].status == Pending
      ensures jobs == old(jobs)
      ensures ok ==>
        && suggestions == old(suggestions)[id := Resolved(old(suggestions)[id], status, now)]
        && trace == old(trace) + [Durable()]
      ensures !ok ==> suggestions == old(suggestions) && trace == old(trace)
    {
      ok := !fails && id in suggestions && suggestions[id].status == Pending;
      if ok {
        suggestions := suggestions[id := Resolved(suggestions[id], status, now)];
        trace := trace + [Durable()];
      }
    }

    /** The write that undoes an acceptance, guarded by its resolution time. */
    method RollbackAcceptance(id: string, resolvedAt: int, fails: bool) returns (ok: bool)
      modifies this
      ensures ok <==> !fails && AcceptedAt(old(suggestions), id, resolvedAt)
      ensures jobs == old(jobs)
      ensures ok ==>
        && suggestions == old(suggestions)[id := old(suggestions)[id].(status := Pending, resolvedAt := None)]
        && trace == old(trace) + [Durable()]
      ensures !ok ==> suggestions == old(suggestions) && trace == old(trace)
    {
      ok := !fails && AcceptedAt(suggestions, id, resolvedAt);
      if ok {
        suggestions := suggestions[id := suggestions[id].(status := Pending, resolvedAt := None)];
        trace := trace + [Durable()];
      }
    }

    /** Put with version 0: only for an id that is free. */
    method PutJob(job: Job, fails: bool) returns (ok: bool)
      modifies this
      ensures ok <==> !fails && job.id !in old(jobs)
      ensures suggestions == old(suggestions)
      ensures ok ==> jobs == old(jobs)[job.id := rules.normal(job)] && trace == old(trace) + [Durable()]
      ensures !ok ==> jobs == old(jobs) && trace == old(trace)
    {
      ok := !fails && job.id !in jobs;
      if ok {
        jobs := jobs[job.id := rules.normal(job)];
        trace := trace + [Durable()];
      }
    }

    method DeleteJob(id: string, fails: bool) returns (ok: bool)
      modifies this
      ensures ok <==> !fails && id in old(jobs)
      ensures suggestions == old(suggestions)
      ensures ok ==> jobs == old(jobs) - {id} && trace == old(trace) + [Durable()]
      ensures !ok ==> jobs == old(jobs) && trace == old(trace)
    {
      ok := !fails && id in jobs;
      if ok {
        jobs := jobs - {id};
        trace := trace + [Durable()];
      }
    }

    /** Store the job and load it into the runtime; a load that fails takes the job back. */
    method CreatePreparedJob(prepared: Job, f: Faults) returns (ok: bool)
      modifies this
      ensures suggestions == old(suggestions)
      ensures ok <==> !f.putJob && !f.reload && !f.effective && prepared.id !in old(jobs)
      ensures jobs == if !f.putJob && (f.reload ==> f.undoPut) && prepared.id !in old(jobs)
                      then old(jobs)[prepared.id := rules.normal(prepared)] else old(jobs)
      ensures old(trace) <= trace
      ensures forall w :: w in trace[|old(trace)|..] ==>
        w.suggestions == suggestions
        && (w.jobs == old(jobs)
            || (prepared.id !in old(jobs) && w.jobs == old(jobs)[prepared.id := rules.normal(prepared)]))
    {
      ok := PutJob(prepared, f.putJob);
      if !ok {
        return;
      }
      if f.reload {
        var removed := DeleteJob(prepared.id, f.undoPut);
        assert old(jobs)[prepared.id := rules.normal(prepared)] - {prepared.id} == old(jobs);
        return false;
      }
      return !f.effective;
    }

    method AcceptSuggestion(id: string, now: int, f: Faults) returns (r: Result)
      requires WellFormed(rules, Durable())
      modifies this
      ensures old(trace) <= trace && forall w :: w in trace[|old(trace)|..] ==> AcceptStep(rules, old(Durable()), w, id)
      ensures AcceptStep(rules, old(Durable()), Durable(), id)
      ensures r.Done? ==>
        id in old(suggestions) && suggestions == old(suggestions)[id := Resolved(old(suggestions)[id], Accepted, now)]
                          && JobIdOf(rules, old(suggestions)[id]) in jobs
                          && r.job == jobs[JobIdOf(rules, old(suggestions)[id])]
      ensures NoFaults(f) ==>
        (r.Done? <==> id in old(suggestions) && Acceptable(rules, old(Durable()), old(suggestions)[id]))
      ensures r.Err? && !f.inspectAgain && !f.rollback ==>
        Durable() == old(Durable())
          || (suggestions[id].status == Accepted && JobIdOf(rules, old(suggestions)[id]) in jobs)
    {
      if id !in suggestions {
        return Err;
      }
      var prepared := Prepare(rules, suggestions[id]);
      if !rules.valid(prepared) || f.inspect {
        return Err;
      }
      var known := prepared.id in jobs;
      if known && !SameJob(jobs[prepared.id], prepared) {
        return Err;
      }
      var resolved := ResolveSuggestion(id, Accepted, now, f.resolve);
      if !resolved {
        return Err;
      }
      if known {
        return Done(jobs[prepared.id]);
      }
      r := CreateAccepted(id, now, prepared, f, old(Durable()));
    }

    /** The job of a suggestion just accepted; w is the state before. A creation that leaves
        no job takes the acceptance back. */
    method CreateAccepted(id: string, now: int, prepared: Job, f: Faults, ghost w: World) returns (r: Result)
      requires id in w.suggestions && Acceptable(rules, w, w.suggestions[id]) && w.suggestions[id].resolvedAt == None
      requires prepared == Prepare(rules, w.suggestions[id]) && prepared.id !in w.jobs
      requires suggestions == w.suggestions[id := Resolved(w.suggestions[id], Accepted, now)] && jobs == w.jobs
      modifies this
      ensures old(trace) <= trace && forall x :: x in trace[|old(trace)|..] ==> AcceptStep(rules, w, x, id)
      ensures AcceptStep(rules, w, Durable(), id)
      ensures r.Done? ==> suggestions == old(suggestions) && prepared.id in jobs && r.job == jobs[prepared.id]
      ensures NoFaults(f) ==> r.Done?
      ensures r.Err? && !f.inspectAgain && !f.rollback ==>
        Durable() == w || (suggestions == old(suggestions) && prepared.id in jobs)
    {
      var created := CreatePreparedJob(prepared, f);
      if created {
        return Done(jobs[prepared.id]);
      }
      if !f.inspectAgain && prepared.id !in jobs {
        var undone := RollbackAcceptance(id, now, f.rollback);
        assert suggestions[id] == w.suggestions[id] || !undone;
      }
      return Err;
    }

    method DismissSuggestion(id: string, now: int, fails: bool) returns (ok: bool)
      modifies this
      ensures ok <==> !fails && id in old(suggestions) && old(suggestions)[id].status == Pending
      ensures DismissStep(old(Durable()), Durable(), id)
    {
      ok := ResolveSuggestion(id, Dismissed, now, fails);
    }

    // ----- recovery at start -----

    /** One suggestion of the recovery loop; w0 is the state at the start, done the suggestions before. */
    method RecoverOne(id: string, fails: bool, ghost w0: World, ghost done: set<string>) returns (ok: bool)
      requires DistinctKeys(rules, w0.suggestions) && RecoveredSome(rules, w0, Durable(), done)
      requires id in w0.suggestions && w0.suggestions[id].status == Accepted && done <= w0.suggestions.Keys
      modifies this
      ensures RecoveredSome(rules, w0, Durable(), done + {id})
      ensures ok ==>
        rules.valid(Prepare(rules, w0.suggestions[id])) && MissingOrRight(rules, w0.jobs, w0.suggestions[id])
      ensures ok ==> JobIdOf(rules, w0.suggestions[id]) in jobs
      ensures old(jobs).Keys <= jobs.Keys
      ensures !fails && id !in done && !ok ==>
        !(rules.valid(Prepare(rules, w0.suggestions[id])) && MissingOrRight(rules, w0.jobs, w0.suggestions[id]))
      ensures JobIdOf(rules, w0.suggestions[id]) in old(jobs) ==> jobs == old(jobs)
      ensures trace == old(trace) + if jobs == old(jobs) then [] else [Durable()]
    {
      var s := suggestions[id];
      var prepared := Prepare(rules, s);
      if !rules.valid(prepared) || fails {
        return false;
      }
      if prepared.id in jobs {
        return SameJob(jobs[prepared.id], prepared);
      }
      ok := PutJob(prepared, false);
    }

    /** Recreate the missing jobs of accepted suggestions. order is the listing of the accepted
        suggestions; the faults are the suggestions whose lookup or write fails. */
    method RecoverAccepted(order: seq<string>, failing: set<string>) returns (ok: bool)
      requires WellFormed(rules, Durable())
      requires Distinct(order) && forall id :: id in order <==> id in suggestions && suggestions[id].status == Accepted
      modifies this
      ensures old(trace) <= trace && forall w :: w in trace[|old(trace)|..] ==> RecoverStep(rules, old(Durable()), w)
      ensures RecoverStep(rules, old(Durable()), Durable())
      ensures ok ==> Recoverable(rules, old(Durable())) && AllPresent(rules, Durable())
      ensures Recoverable(rules, old(Durable())) && failing == {} ==> ok
      ensures AllPresent(rules, old(Durable())) ==> Durable() == old(Durable()) && trace == old(trace)
    {
      ghost var w0 := Durable();
      for i := 0 to |order|
        invariant RecoveredSome(rules, w0, Durable(), Elems(order[..i]))
        invariant Handled(rules, w0, Durable(), old(trace), trace, order[..i])
      {
        ghost var before, sofar := Durable(), trace;
        TakeOne(order, i);
        ok := RecoverOne(order[i], order[i] in failing, w0, Elems(order[..i]));
        SomeIsStep(rules, w0, Durable(), Elems(order[..i + 1]));
        if !ok {
          assert sofar <= trace;
          return;
        }
        HandledGrows(rules, w0, before, Durable(), old(trace), sofar, trace, order[..i], order[i]);
      }
      assert order[..|order|] == order;
      SomeIsStep(rules, w0, Durable(), Elems(order));
      return true;
    }
  }

  /** The recovery loop after some suggestions: each is right, and what was written on the
      way are states of a recovery. */
  ghost predicate Handled(rules: Rules, w0: World, w: World, start: seq<World>, trace: seq<World>,
                          handled: seq<string>) {
    && start <= trace && (forall x :: x in trace[|start|..] ==> RecoverStep(rules, w0, x))
    && AllRightAfter(rules, w0, w, handled)
    && (AllPresent(rules, w0) ==> w.jobs == w0.jobs && trace == start)
  }

  lemma HandledGrows(rules: Rules, w0: World, before: World, after: World, start: seq<World>, sofar: seq<World>,
                     trace: seq<World>, handled: seq<string>, id: string)
    requires Handled(rules, w0, before, start, sofar, handled) && RecoverStep(rules, w0, after)
    requires trace == sofar + if after.jobs == before.jobs then [] else [after]
    requires before.jobs.Keys <= after.jobs.Keys && RightAfter(rules, w0, after, id)
    requires AllPresent(rules, w0) ==> after.jobs == before.jobs
    ensures Handled(rules, w0, after, start, trace, handled + [id])
  {
    RightStays(rules, w0, before, after, handled, id);
    forall x | x in trace[|start|..] ensures RecoverStep(rules, w0, x) {
      assert x == after || x in sofar[|start|..];
    }
  }

  /** A suggestion the recovery has handled. */
  ghost predicate RightAfter(rules: Rules, w0: World, w: World, id: string) {
    && id in w0.suggestions && rules.valid(Prepare(rules, w0.suggestions[id]))
    && MissingOrRight(rules, w0.jobs, w0.suggestions[id])
    && JobIdOf(rules, w0.suggestions[id]) in w.jobs
  }

  ghost predicate AllRightAfter(rules: Rules, w0: World, w: World, handled: seq<string>) {
    forall id :: id in handled ==> RightAfter(rules, w0, w, id)
  }

  lemma RightStays(rules: Rules, w0: World, before: World, after: World, handled: seq<string>, id: string)
    requires AllRightAfter(rules, w0, before, handled) && before.jobs.Keys <= after.jobs.Keys
    requires RightAfter(rules, w0, after, id)
    ensures AllRightAfter(rules, w0, after, handled + [id])
  {
    forall x | x in handled + [id] ensures RightAfter(rules, w0, after, x) {
      assert x in handled ==> RightAfter(rules, w0, before, x);
    }
  }

  lemma TakeOne(order: seq<string>, i: nat)
    requires Distinct(order) && i < |order|
    ensures order[..i + 1] == order[..i] + [order[i]] && Elems(order[..i + 1]) == Elems(order[..i]) + {order[i]}
    ensures order[i] in order && order[i] !in Elems(order[..i])
    ensures forall x :: x in Elems(order[..i]) ==> x in order
  {}

  /** The state after some suggestions are handled: only their jobs were added. */
  ghost predicate RecoveredSome(rules: Rules, w0: World, w: World, done: set<string>) {
    && w.suggestions == w0.suggestions
    && (forall job :: job in w0.jobs ==> job in w.jobs && w.jobs[job] == w0.jobs[job])
    && (forall job :: job in w.jobs && job !in w0.jobs ==> AddedFor(rules, w0, done, job, w.jobs[job]))
  }

  ghost predicate AddedFor(rules: Rules, w0: World, done: set<string>, job: string, normal: Job) {
    exists id :: id in done && id in w0.suggestions && w0.suggestions[id].status == Accepted
                 && JobIdOf(rules, w0.suggestions[id]) == job
                 && normal == rules.normal(Prepare(rules, w0.suggestions[id]))
  }

  lemma SomeIsStep(rules: Rules, w0: World, w: World, done: set<string>)
    requires RecoveredSome(rules, w0, w, done)
    ensures RecoverStep(rules, w0, w)
  {}

  ghost predicate DismissStep(w: World, w': World, id: string) {
    w' == w ||
    (id in w.suggestions && w.suggestions[id].status == Pending && w'.jobs == w.jobs
     && exists now :: w'.suggestions == w.suggestions[id := Resolved(w.suggestions[id], Dismissed, now)])
  }

  /** Only missing jobs of accepted suggestions are added; nothing else changes. */
  ghost predicate RecoverStep(rules: Rules, w: World, w': World) {
    && w'.suggestions == w.suggestions
    && (forall id :: id in w.jobs ==> id in w'.jobs && w'.jobs[id] == w.jobs[id])
    && (forall id :: id in w'.jobs && id !in w.jobs ==> AddedFor(rules, w, w.suggestions.Keys, id, w'.jobs[id]))
  }

  ghost predicate AllPresent(rules: Rules, w: World) {
    forall id :: id in w.suggestions && w.suggestions[id].status == Accepted ==>
      JobIdOf(rules, w.suggestions[id]) in w.jobs
  }

  // ----- crashes and recovery -----

  /** An accepted suggestion whose job is not there. */
  ghost predicate MissesJob(rules: Rules, w: World, s: Suggestion) {
    s.status == Accepted && JobIdOf(rules, s) !in w.jobs
  }

  /** The job store keeps the suggested job as it compares. */
  ghost predicate Faithful(rules: Rules, s: Suggestion) {
    SameJob(rules.normal(Prepare(rules, s)), Prepare(rules, s))
  }

  /** An accept that stops anywhere leaves a state that can be recovered, unless it stored a
      job the store does not keep as it compares. */
  lemma AcceptKeepsRecoverable(rules: Rules, w: World, w': World, id: string)
    requires Recoverable(rules, w) && DistinctKeys(rules, w.suggestions) && AcceptStep(rules, w, w', id)
    ensures DistinctKeys(rules, w'.suggestions)
    ensures Recoverable(rules, w') <==> (w'.jobs != w.jobs ==> Faithful(rules, w.suggestions[id]))
  {
    if w' != w {
      var s := w.suggestions[id];
      var now :| w'.suggestions == w.suggestions[id := Resolved(s, Accepted, now)];
      assert Prepare(rules, w'.suggestions[id]) == Prepare(rules, s);
      if w'.jobs != w.jobs {
        assert w'.jobs[JobIdOf(rules, s)] == rules.normal(Prepare(rules, s));
      }
      forall x | x in w'.suggestions && x != id && w'.suggestions[x].status == Accepted
        ensures rules.valid(Prepare(rules, w'.suggestions[x])) && MissingOrRight(rules, w'.jobs, w'.suggestions[x])
      {
        assert JobIdOf(rules, w.suggestions[x]) != JobIdOf(rules, s);
      }
    }
  }

  /** After a successful recovery everything is in place, and a further recovery succeeds and
      writes nothing, exactly when the jobs it had to create are kept as they compare. */
  lemma RecoveryCompletes(rules: Rules, w: World, w': World)
    requires Recoverable(rules, w) && DistinctKeys(rules, w.suggestions) && RecoverStep(rules, w, w')
    requires AllPresent(rules, w')
    ensures Complete(rules, w') <==>
      forall id :: id in w.suggestions && MissesJob(rules, w, w.suggestions[id]) ==> Faithful(rules, w.suggestions[id])
  {
    forall id | id in w.suggestions && w.suggestions[id].status == Accepted
      ensures MissingOrRight(rules, w'.jobs, w.suggestions[id]) <==>
              (JobIdOf(rules, w.suggestions[id]) !in w.jobs ==> Faithful(rules, w.suggestions[id]))
    {
      var s := w.suggestions[id];
      var job := JobIdOf(rules, s);
      assert job in w'.jobs;
      if job !in w.jobs {
        assert AddedFor(rules, w, w.suggestions.Keys, job, w'.jobs[job]);
        var x :| x in w.suggestions && w.suggestions[x].status == Accepted && JobIdOf(rules, w.suggestions[x]) == job
                 && w'.jobs[job] == rules.normal(Prepare(rules, w.suggestions[x]));
        assert x == id;
      }
    }
  }

  /** Edits by users: jobs are added, changed or deleted in any way, and suggestions are
      added as pending. */
  ghost predicate EditStep(w: World, w': World) {
    && (forall id :: id in w.suggestions ==> id in w'.suggestions && w'.suggestions[id] == w.suggestions[id])
    && (forall id :: id in w'.suggestions && id !in w.suggestions ==> w'.suggestions[id].status == Pending)
  }

  datatype Event = Accepting(id: string) | Dismissing(id: string) | Recovering | Editing

  /** Any accept, dismissal or recovery, cut short anywhere, or an edit by a user. */
  ghost predicate Step(rules: Rules, w: World, e: Event, w': World) {
    match e
    case Accepting(id) => AcceptStep(rules, w, w', id)
    case Dismissing(id) => DismissStep(w, w', id)
    case Recovering => RecoverStep(rules, w, w')
    case Editing => EditStep(w, w')
  }

  ghost predicate StepAt(rules: Rules, run: seq<World>, events: seq<Event>, i: int)
    requires |run| == |events| + 1
  {
    0 <= i < |events| && Step(rules, run[i], events[i], run[i + 1])
  }

  ghost predicate FaithfulWorld(rules: Rules, w: World) {
    DistinctKeys(rules, w.suggestions) && forall id :: id in w.suggestions ==> Faithful(rules, w.suggestions[id])
  }

  ghost predicate IsRun(rules: Rules, run: seq<World>, events: seq<Event>) {
    && |run| == |events| + 1
    && (forall i :: 0 <= i < |events| ==> StepAt(rules, run, events, i))
    && (forall w :: w in run ==> FaithfulWorld(rules, w))
  }

  /** The job of an accepted suggestion is changed to say something else. */
  ghost predicate Misedited(rules: Rules, w: World, w': World, id: string) {
    && id in w.suggestions && w.suggestions[id].status == Accepted
    && var job := JobIdOf(rules, w.suggestions[id]);
    job in w'.jobs && (job in w.jobs ==> w'.jobs[job] != w.jobs[job])
      && !SameJob(w'.jobs[job], Prepare(rules, w.suggestions[id]))
  }

  ghost predicate EditKeepsMeaning(rules: Rules, w: World, w': World) {
    forall id :: !Misedited(rules, w, w', id)
  }

  lemma EditKeepsRecoverable(rules: Rules, w: World, w': World)
    requires EditStep(w, w') && Recoverable(rules, w)
    ensures Recoverable(rules, w') <==> EditKeepsMeaning(rules, w, w')
  {
    forall id | id in w.suggestions && w.suggestions[id].status == Accepted
      ensures MissingOrRight(rules, w'.jobs, w.suggestions[id]) <==> !Misedited(rules, w, w', id)
    {
    }
    if EditKeepsMeaning(rules, w, w') {
      forall id | id in w'.suggestions && w'.suggestions[id].status == Accepted
        ensures rules.valid(Prepare(rules, w'.suggestions[id])) && MissingOrRight(rules, w'.jobs, w'.suggestions[id])
      {
        assert id in w.suggestions && !Misedited(rules, w, w', id);
      }
    }
  }

  /** Editing the job of an accepted suggestion stops every later recovery. */
  lemma EditedJobStopsRecovery(rules: Rules, w: World, id: string, prompt: string)
    requires Complete(rules, w) && id in w.suggestions && w.suggestions[id].status == Accepted
    requires prompt != w.suggestions[id].payload.prompt
    ensures var job := JobIdOf(rules, w.suggestions[id]);
      job in w.jobs && var edited := w.(jobs := w.jobs[job := w.jobs[job].(prompt := prompt)]);
      EditStep(w, edited) && Misedited(rules, w, edited, id) && !Recoverable(rules, edited)
  {
    var job := JobIdOf(rules, w.suggestions[id]);
    var edited := w.(jobs := w.jobs[job := w.jobs[job].(prompt := prompt)]);
    assert SameJob(w.jobs[job], Prepare(rules, w.suggestions[id]));
    EditKeepsRecoverable(rules, w, edited);
    assert Misedited(rules, w, edited, id);
  }

  /** No step but an edit makes a recoverable state unrecoverable. */
  lemma StepKeepsRecoverable(rules: Rules, w: World, e: Event, w': World)
    requires Step(rules, w, e, w') && FaithfulWorld(rules, w) && Recoverable(rules, w)
    ensures Recoverable(rules, w') <==> (e.Editing? ==> EditKeepsMeaning(rules, w, w'))
  {
    match e {
      case Accepting(id) => AcceptKeepsRecoverable(rules, w, w', id);
      case Dismissing(id) => DismissKeepsRecoverable(rules, w, w', id);
      case Recovering => RecoveryKeepsRecoverable(rules, w, w');
      case Editing => EditKeepsRecoverable(rules, w, w');
    }
  }

  lemma DismissKeepsRecoverable(rules: Rules, w: World, w': World, id: string)
    requires DismissStep(w, w', id) && Recoverable(rules, w)
    ensures Recoverable(rules, w')
  {}

  lemma RecoveryKeepsRecoverable(rules: Rules, w: World, w': World)
    requires RecoverStep(rules, w, w') && FaithfulWorld(rules, w) && Recoverable(rules, w)
    ensures Recoverable(rules, w')
  {
    forall id | id in w.suggestions && w.suggestions[id].status == Accepted
      ensures MissingOrRight(rules, w'.jobs, w.suggestions[id])
    {
      AddedIsRight(rules, w, w', id);
    }
  }

  lemma AddedIsRight(rules: Rules, w: World, w': World, id: string)
    requires Recoverable(rules, w) && DistinctKeys(rules, w.suggestions) && RecoverStep(rules, w, w')
    requires id in w.suggestions && w.suggestions[id].status == Accepted && Faithful(rules, w.suggestions[id])
    ensures MissingOrRight(rules, w'.jobs, w.suggestions[id])
  {
    var job := JobIdOf(rules, w.suggestions[id]);
    if job in w'.jobs && job !in w.jobs {
      assert AddedFor(rules, w, w.suggestions.Keys, job, w'.jobs[job]);
    }
  }

  ghost predicate EditsKeepMeaning(rules: Rules, run: seq<World>, events: seq<Event>, n: nat)
    requires |run| == |events| + 1 && n <= |events|
  {
    forall k :: 0 <= k < n && events[k].Editing? ==> EditKeepsMeaning(rules, run[k], run[k + 1])
  }

  ghost predicate RecoverableUpTo(rules: Rules, run: seq<World>, n: nat) {
    forall i :: 0 <= i <= n && i < |run| ==> Recoverable(rules, run[i])
  }

  /** In every run of accepts, dismissals and recoveries cut short anywhere, and of any edits,
      all states can be recovered if and only if no edit makes the job of an accepted
      suggestion say something else. */
  lemma {:induction false} RunStaysRecoverable(rules: Rules, run: seq<World>, events: seq<Event>, n: nat)
    requires IsRun(rules, run, events) && Recoverable(rules, run[0]) && n <= |events|
    ensures RecoverableUpTo(rules, run, n) <==> EditsKeepMeaning(rules, run, events, n)
  {
    if n > 0 {
      RunStaysRecoverable(rules, run, events, n - 1);
      assert StepAt(rules, run, events, n - 1) && run[n - 1] in run;
      if RecoverableUpTo(rules, run, n - 1) {
        StepKeepsRecoverable(rules, run[n - 1], events[n - 1], run[n]);
      }
    }
  }
}
