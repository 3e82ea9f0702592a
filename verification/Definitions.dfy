/** Job and trigger definitions and the comparison the managed sync and the suggestion
    recovery use to tell whether a stored definition still is the wanted one. */
module Definitions {
  import opened Ordering
  import opened Text

  /** A JSON value; any value but null is compared as a whole. */
  datatype Json = JNull | JValue(text: string)

  datatype Schedule = Schedule(mode: string, expr: string, interval: string, time: string, catchUpPolicy: string,
                               graceSeconds: int)
  datatype Owner = Owner(kind: string, ref: string)
  datatype TaskConfig = TaskConfig(title: string, description: string, participation: Option<string>,
                                   owner: Option<Owner>)
  datatype LoopTarget = LoopTarget(workspaceId: string, loopName: string, inputs: map<string, Json>,
                                   inputMapping: map<string, string>, participation: Option<string>)
  datatype Retry = Retry(strategy: string, maxRetries: int, baseDelay: string)
  datatype FireLimit = FireLimit(max: int, window: string)

  datatype Job = Job(id: string, scope: string, name: string, targetKind: string, agentName: string,
                     workspaceId: string,
                     prompt: string, schedule: Option<Schedule>, task: Option<TaskConfig>,
                     loopTarget: Option<LoopTarget>,
                     enabled: bool, retry: Retry, fireLimit: FireLimit, source: string, createdAt: int, updatedAt: int)

  datatype Trigger = Trigger(id: string, scope: string, name: string, targetKind: string, agentName: string,
                             workspaceId: string,
                             prompt: string, event: string, filter: map<string, string>, loopTarget: Option<LoopTarget>,
                             enabled: bool, retry: Retry, fireLimit: FireLimit, source: string, webhookId: string,
                             endpointSlug: string, secretRef: string, createdAt: int, updatedAt: int)

  const TARGET_LOOP := "loop"
  const TARGET_AGENT := "agent"

  function KindOrDefault(kind: string, target: Option<LoopTarget>): string {
    if TrimSpace(kind) != "" then TrimSpace(kind)
    else if target.Some? then TARGET_LOOP
    else TARGET_AGENT
  }

  // ----- maps -----

  function Lookup<V>(m: map<string, V>, key: string, zero: V): V {
    if key in m then m[key] else zero
  }

  /** Equal sizes, and every key of the left read in the right gives the same value, where a
      missing key reads as the zero value. */
  predicate SameMap<V(==)>(left: map<string, V>, right: map<string, V>, zero: V) {
    |left| == |right| && forall k :: k in left ==> Lookup(right, k, zero) == left[k]
  }

  /** SameMap is equality exactly when the right has the keys of the left, and always when
      the left holds no zero value. */
  lemma SameMapIsEquality<V>(left: map<string, V>, right: map<string, V>, zero: V)
    requires SameMap(left, right, zero)
    ensures left == right <==> left.Keys <= right.Keys
    ensures (forall k :: k in left ==> left[k] != zero) ==> left == right
  {
    if left.Keys <= right.Keys {
      SubsetCard(left.Keys, right.Keys);
      assert |left.Keys| == |left| && |right.Keys| == |right|;
      assert forall k :: k in left.Keys ==> left[k] == right[k];
    }
    if forall k :: k in left ==> left[k] != zero {
      assert forall k :: k in left.Keys ==> k in right.Keys;
    }
  }

  /** Two different maps can pass for the same, in one direction only. */
  lemma SameMapNotSymmetric()
    ensures var left: map<string, string>, right: map<string, string> := map["a" := ""], map["b" := "x"];
      SameMap(left, right, "") && !SameMap(right, left, "") && left != right
  {
    var left: map<string, string>, right: map<string, string> := map["a" := ""], map["b" := "x"];
    assert right["b"] == "x" && "b" !in left;
    assert "a" in left && "a" !in right;
  }

  // ----- definitions -----

  predicate SameLoopTarget(left: Option<LoopTarget>, right: Option<LoopTarget>) {
    match (left, right)
    case (None, None) => true
    case (Some(l), Some(r)) =>
      && l.workspaceId == r.workspaceId && l.loopName == r.loopName
      && SameMap(l.inputs, r.inputs, JNull) && SameMap(l.inputMapping, r.inputMapping, "")
      && l.participation == r.participation
    case _ => false
  }

  predicate SameTask(left: Option<TaskConfig>, right: Option<TaskConfig>) {
    match (left, right)
    case (None, None) => true
    case (Some(l), Some(r)) =>
      l.title == r.title && l.description == r.description && l.participation == r.participation && l.owner == r.owner
    case _ => false
  }

  predicate SameJob(left: Job, right: Job) {
    && left.id == right.id && left.scope == right.scope && left.name == right.name
    && KindOrDefault(left.targetKind, left.loopTarget) == KindOrDefault(right.targetKind, right.loopTarget)
    && left.agentName == right.agentName && left.workspaceId == right.workspaceId && left.prompt == right.prompt
    && left.schedule == right.schedule && SameTask(left.task, right.task)
    && SameLoopTarget(left.loopTarget, right.loopTarget)
    && left.enabled == right.enabled && left.retry == right.retry && left.fireLimit == right.fireLimit
    && left.source == right.source
  }

  predicate SameTrigger(left: Trigger, right: Trigger) {
    && left.id == right.id && left.scope == right.scope && left.name == right.name
    && KindOrDefault(left.targetKind, left.loopTarget) == KindOrDefault(right.targetKind, right.loopTarget)
    && left.agentName == right.agentName && left.workspaceId == right.workspaceId && left.prompt == right.prompt
    && left.event == right.event && SameMap(left.filter, right.filter, "")
    && SameLoopTarget(left.loopTarget, right.loopTarget)
    && left.enabled == right.enabled && left.retry == right.retry && left.fireLimit == right.fireLimit
    && left.source == right.source
    && left.webhookId == right.webhookId && left.endpointSlug == right.endpointSlug && left.secretRef == right.secretRef
  }

  /** What a definition says: its timestamps dropped and its target kind made explicit. */
  function JobMeaning(job: Job): Job {
    job.(targetKind := KindOrDefault(job.targetKind, job.loopTarget), createdAt := 0, updatedAt := 0)
  }

  function TriggerMeaning(t: Trigger): Trigger {
    t.(targetKind := KindOrDefault(t.targetKind, t.loopTarget), createdAt := 0, updatedAt := 0)
  }

  /** No mapping of the loop target holds the zero value. */
  predicate FullLoopTarget(target: Option<LoopTarget>) {
    target.Some? ==>
      && (forall k :: k in target.value.inputs ==> target.value.inputs[k] != JNull)
      && (forall k :: k in target.value.inputMapping ==> target.value.inputMapping[k] != "")
  }

  lemma SameLoopTargetIsEquality(left: Option<LoopTarget>, right: Option<LoopTarget>)
    ensures left == right ==> SameLoopTarget(left, right)
    ensures FullLoopTarget(left) && SameLoopTarget(left, right) ==> left == right
  {
    if FullLoopTarget(left) && SameLoopTarget(left, right) && left.Some? {
      SameMapIsEquality(left.value.inputs, right.value.inputs, JNull);
      SameMapIsEquality(left.value.inputMapping, right.value.inputMapping, "");
    }
  }

  /** Jobs that say the same are always recognised; without zero values in the loop target
      of the left, only those are. */
  lemma SameJobIsSameMeaning(left: Job, right: Job)
    ensures JobMeaning(left) == JobMeaning(right) ==> SameJob(left, right)
    ensures FullLoopTarget(left.loopTarget) ==> (SameJob(left, right) <==> JobMeaning(left) == JobMeaning(right))
  {
    SameLoopTargetIsEquality(left.loopTarget, right.loopTarget);
  }

  /** The same for triggers; a validated filter has no empty value. */
  lemma SameTriggerIsSameMeaning(left: Trigger, right: Trigger)
    ensures TriggerMeaning(left) == TriggerMeaning(right) ==> SameTrigger(left, right)
    ensures FullLoopTarget(left.loopTarget) && (forall k :: k in left.filter ==> left.filter[k] != "") ==>
      (SameTrigger(left, right) <==> TriggerMeaning(left) == TriggerMeaning(right))
  {
    SameLoopTargetIsEquality(left.loopTarget, right.loopTarget);
    if SameMap(left.filter, right.filter, "") {
      SameMapIsEquality(left.filter, right.filter, "");
    }
  }
}
