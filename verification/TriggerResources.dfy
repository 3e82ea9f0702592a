/** Creating, updating and deleting a trigger over two stores, the resource records and the
    vault, with compensation when a later step fails. Every store call has an injected fault. */
module TriggerResources {
  import opened Ordering
  import opened Text

  /** A secret ref as parsed; an empty ref is NoRef. */
  datatype Ref = NoRef | EnvRef(name: string) | VaultRef(namespace: string, path: string) | OtherRef(text: string)

  predicate InAutomation(ref: Ref) {
    ref.VaultRef? && ref.namespace == "automation"
  }

  datatype Source = Unset | Dynamic | Config | Package

  /** body stands for the fields the operations do not look at. */
  datatype Trigger = Trigger(id: string, source: Source, scope: string, webhook: bool, webhookId: string,
                             secretRef: Ref, body: string)
  datatype SecretWrite = SecretWrite(ref: Ref, value: Option<string>)

  // ----- the resource store -----

  datatype Record = Record(version: nat, scope: string, spec: Trigger)

  class ResourceStore {
    var records: map<string, Record>

    constructor ()
      ensures Valid() && records == map[]
    {
      records := map[];
    }

    ghost predicate Valid()
      reads this
    {
      forall id :: id in records ==> records[id].version >= 1
    }

    /** Put with the version the caller has seen; 0 stands for "not there". */
    method Put(id: string, scope: string, expected: nat, spec: Trigger, fails: bool) returns (r: Option<Record>)
      requires Valid()
      modifies this
      ensures Valid()
      ensures r.Some? <==> !fails && expected == VersionOf(old(records), id)
      ensures r.Some? ==> r.value == Record(expected + 1, scope, spec) && records == old(records)[id := r.value]
      ensures r.None? ==> records == old(records)
    {
      if fails {
        return None;
      }
      if id !in records {
        if expected != 0 {
          return None;
        }
        records := records[id := Record(1, scope, spec)];
        return Some(Record(1, scope, spec));
      }
      if expected == 0 || records[id].version != expected {
        return None;
      }
      var record := Record(records[id].version + 1, scope, spec);
      records := records[id := record];
      return Some(record);
    }

    method Delete(id: string, expected: nat, fails: bool) returns (ok: bool)
      requires Valid()
      modifies this
      ensures Valid()
      ensures ok <==> !fails && id in old(records) && old(records)[id].version == expected
      ensures records == if ok then old(records) - {id} else old(records)
    {
      if fails || id !in records || records[id].version != expected {
        return false;
      }
      records := records - {id};
      return true;
    }
  }

  /** Versions of stored records start at 1. */
  function VersionOf(records: map<string, Record>, id: string): nat {
    if id in records then records[id].version else 0
  }

  // ----- the vault -----

  datatype PutOutcome = Written | FailedClean | FailedAfterWrite
  datatype DeleteResult = Deleted | NotFound | DeleteFailed

  class Vault {
    var secrets: map<Ref, string>
    const env: map<string, string>
    const configured: bool

    constructor (env: map<string, string>, configured: bool)
      ensures this.env == env && this.configured == configured && secrets == map[]
    {
      this.env, this.configured := env, configured;
      secrets := map[];
    }

    /** The value is read back after it is written, so the call can fail with the write done. */
    method PutSecret(ref: Ref, value: string, outcome: PutOutcome) returns (ok: bool)
      modifies this
      ensures ok <==> ref.VaultRef? && outcome == Written
      ensures secrets == if ref.VaultRef? && outcome != FailedClean then old(secrets)[ref := value] else old(secrets)
    {
      if !ref.VaultRef? || outcome == FailedClean {
        return false;
      }
      secrets := secrets[ref := value];
      return outcome == Written;
    }

    method DeleteSecret(ref: Ref, fails: bool) returns (r: DeleteResult)
      modifies this
      ensures r == DeleteFailed <==> fails || !ref.VaultRef?
      ensures r == NotFound <==> !fails && ref.VaultRef? && ref !in old(secrets)
      ensures secrets == if r == DeleteFailed then old(secrets) else old(secrets) - {ref}
    {
      if fails || !ref.VaultRef? {
        return DeleteFailed;
      }
      if ref !in secrets {
        return NotFound;
      }
      secrets := secrets - {ref};
      return Deleted;
    }
  }

  /** The resolved value of a ref: blank and missing values both read as absent. */
  function Resolved(secrets: map<Ref, string>, env: map<string, string>, ref: Ref): Option<string> {
    if ref.EnvRef? then
      if ref.name in env && TrimSpace(env[ref.name]) != "" then Some(env[ref.name]) else None
    else if ref in secrets && TrimSpace(secrets[ref]) != "" then Some(secrets[ref])
    else None
  }

  // ----- refs -----

  function DefaultRef(id: string): Ref {
    VaultRef("automation", "triggers/" + id + "/webhook-secret")
  }

  predicate IsOwned(t: Trigger) {
    t.id != "" && t.secretRef == DefaultRef(t.id)
  }

  /** The ref a definition ends up with: written, given, kept from before, or the default. */
  function ApplyRef(t: Trigger, previous: Option<Trigger>, write: Option<SecretWrite>): Trigger {
    if !t.webhook then t.(secretRef := NoRef)
    else
      var given := if write.Some? && write.value.ref != NoRef then write.value.ref else t.secretRef;
      var kept := if given == NoRef && previous.Some? then previous.value.secretRef else given;
      var ref := if kept == NoRef && write.Some? && write.value.value.Some? then DefaultRef(t.id) else kept;
      t.(secretRef := ref)
  }

  /** What validation promises of a stored definition's ref. */
  predicate RefValid(t: Trigger) {
    if t.webhook then t.secretRef.EnvRef? || InAutomation(t.secretRef) else t.secretRef == NoRef
  }

  // ----- captured secrets -----

  datatype SecretState = SecretState(ref: Ref, value: string, present: bool)

  const NO_STATE := SecretState(NoRef, "", false)

  function CaptureOf(secrets: map<Ref, string>, env: map<string, string>, configured: bool, t: Trigger,
                     capture: bool): SecretState {
    if !capture then NO_STATE
    else
      var secret :=
        if !t.webhook || t.id == "" || t.secretRef == NoRef || !configured then None
        else Resolved(secrets, env, t.secretRef);
      var value := if secret.Some? then TrimSpace(TrimSpace(secret.value)) else "";
      SecretState(t.secretRef, value, value != "")
  }

  function RestoreOne(secrets: map<Ref, string>, s: SecretState): map<Ref, string> {
    if !s.ref.VaultRef? then secrets
    else if s.present then secrets[s.ref := s.value]
    else secrets - {s.ref}
  }

  /** The states in order, the first state of every ref only. */
  function RestoreAll(secrets: map<Ref, string>, states: seq<SecretState>, restored: set<Ref>): map<Ref, string>
    decreases |states|
  {
    if states == [] then secrets
    else if states[0].ref == NoRef || states[0].ref in restored then RestoreAll(secrets, states[1..], restored)
    else RestoreAll(RestoreOne(secrets, states[0]), states[1..], restored + {states[0].ref})
  }

  method RestoreStates(vault: Vault, states: seq<SecretState>, failing: set<nat>) returns (ok: bool)
    modifies vault
    ensures !vault.configured ==> ok && vault.secrets == old(vault.secrets)
    ensures vault.configured && (ok || failing == {}) ==> vault.secrets == RestoreAll(old(vault.secrets), states, {})
    ensures vault.configured && failing == {} ==>
      (ok <==> forall s :: s in states ==> s.ref == NoRef || s.ref.VaultRef?)
  {
    if !vault.configured {
      return true;
    }
    ok := true;
    var restored: set<Ref> := {};
    for i := 0 to |states|
      invariant ok || failing == {} ==>
        RestoreAll(vault.secrets, states[i..], restored) == RestoreAll(old(vault.secrets), states, {})
      invariant failing == {} ==> (ok <==> forall j :: 0 <= j < i ==> states[j].ref == NoRef || states[j].ref.VaultRef?)
      invariant failing == {} ==> forall ref :: ref in restored && ok ==> ref.VaultRef?
      invariant forall ref :: ref in restored ==> exists j :: 0 <= j < i && states[j].ref == ref
    {
      var state := states[i];
      assert states[i..][0] == state && states[i..][1..] == states[i + 1..];
      if state.ref != NoRef && state.ref !in restored {
        restored := restored + {state.ref};
        if state.present {
          var put := vault.PutSecret(state.ref, state.value, if i in failing then FailedClean else Written);
          ok := ok && put;
        } else {
          var deleted := vault.DeleteSecret(state.ref, i in failing);
          ok := ok && deleted != DeleteFailed;
        }
      }
    }
  }

  // ----- what compensation restores -----

  predicate Clean(value: string) {
    value != "" && TrimSpace(value) == value
  }

  /** Secrets after those at the given refs were captured and put back: a captured value is
      trimmed, and a blank one reads as absent. */
  function PutBack(before: map<Ref, string>, refs: set<Ref>): map<Ref, string> {
    map k | k in before && (k in refs && k.VaultRef? ==> TrimSpace(before[k]) != "") ::
      if k in refs && k.VaultRef? then TrimSpace(before[k]) else before[k]
  }

  predicate AllClean(secrets: map<Ref, string>, refs: set<Ref>) {
    forall k :: k in refs && k.VaultRef? && k in secrets ==> Clean(secrets[k])
  }

  /** Capturing and putting back leaves the vault alone exactly when the captured values are clean. */
  lemma PutBackSame(secrets: map<Ref, string>, refs: set<Ref>)
    ensures PutBack(secrets, refs) == secrets <==> AllClean(secrets, refs)
  {
    var back := PutBack(secrets, refs);
    if back == secrets {
      forall k | k in refs && k.VaultRef? && k in secrets ensures Clean(secrets[k]) {
        assert k in back && back[k] == TrimSpace(secrets[k]);
      }
    }
  }

  /** A state that holds what the vault had at its ref. */
  ghost predicate HoldsFor(s: SecretState, before: map<Ref, string>) {
    s.ref != NoRef && s.ref.VaultRef? ==>
      && (s.present <==> s.ref in before && TrimSpace(before[s.ref]) != "")
      && (s.present ==> s.value == TrimSpace(before[s.ref]))
  }

  lemma CaptureHolds(secrets: map<Ref, string>, env: map<string, string>, t: Trigger, capture: bool)
    requires t.id != "" && RefValid(t) && (capture && !t.webhook ==> t.secretRef == NoRef)
    ensures HoldsFor(CaptureOf(secrets, env, true, t, capture), secrets)
  {
    if capture && t.webhook {
      var ref := t.secretRef;
      if ref in secrets {
        TrimSpaceIdempotent(secrets[ref]);
      }
    }
  }

  ghost function RefsOf(states: seq<SecretState>): set<Ref> {
    set s | s in states && s.ref != NoRef :: s.ref
  }

  ghost predicate SameAt(a: map<Ref, string>, b: map<Ref, string>, k: Ref) {
    (k in a <==> k in b) && (k in a ==> a[k] == b[k])
  }

  lemma RefsOfCons(states: seq<SecretState>)
    requires states != []
    ensures RefsOf(states) == (if states[0].ref == NoRef then {} else {states[0].ref}) + RefsOf(states[1..])
  {
    assert states == [states[0]] + states[1..];
  }

  lemma {:induction false} RestoreAllAt(now: map<Ref, string>, states: seq<SecretState>, restored: set<Ref>,
                                        before: map<Ref, string>, k: Ref)
    requires forall s :: s in states ==> HoldsFor(s, before)
    ensures SameAt(RestoreAll(now, states, restored),
                   if k in RefsOf(states) && k !in restored && k.VaultRef? then PutBack(before, {k}) else now, k)
    decreases |states|
  {
    if states != [] {
      var s, rest := states[0], states[1..];
      RefsOfCons(states);
      assert s in states && HoldsFor(s, before);
      if s.ref == NoRef || s.ref in restored {
        RestoreAllAt(now, rest, restored, before, k);
      } else {
        RestoreAllAt(RestoreOne(now, s), rest, restored + {s.ref}, before, k);
      }
    }
  }

  /** Restoring captured states undoes every change at their refs. */
  lemma RestoreAllPutsBack(now: map<Ref, string>, states: seq<SecretState>, before: map<Ref, string>)
    requires forall s :: s in states ==> HoldsFor(s, before)
    requires forall k :: k !in RefsOf(states) || !k.VaultRef? ==> SameAt(now, before, k)
    ensures RestoreAll(now, states, {}) == PutBack(before, RefsOf(states))
  {
    var after, back := RestoreAll(now, states, {}), PutBack(before, RefsOf(states));
    forall k ensures (k in after <==> k in back) && (k in after ==> after[k] == back[k]) {
      RestoreAllAt(now, states, {}, before, k);
      assert k !in RefsOf(states) || !k.VaultRef? ==> SameAt(now, before, k);
    }
  }

  // ----- the operations -----

  /** Which calls fail. A failing call writes nothing, except a secret write that fails in its
      read-back. undoSecrets are the positions of the restores that fail. */
  datatype Faults = Faults(read: bool, capturePrevious: bool, captureNext: bool, writeSecret: PutOutcome,
                           storeRecord: bool,
                           dropSecret: bool, reload: bool, lookup: bool, undoRecord: bool, undoSecrets: set<nat>)

  datatype Step = Refuse | Capture | WriteSecret | StoreRecord | DropSecret | Reload | Lookup
  datatype Result = Done(trigger: Trigger) | Err(step: Step, rollbackFailed: bool)

  predicate UndoWorks(f: Faults) {
    !f.undoRecord && f.undoSecrets == {}
  }

  predicate NoFaults(f: Faults) {
    && !f.read && !f.capturePrevious && !f.captureNext && f.writeSecret == Written && !f.storeRecord
    && !f.dropSecret && !f.reload && !f.lookup
  }

  /** The specs and scopes of a store, without versions. */
  function Content(records: map<string, Record>): map<string, (string, Trigger)> {
    map id | id in records :: (records[id].scope, records[id].spec)
  }

  function StableWebhookId(id: string): string {
    "wbh_" + id
  }

  function WithWebhookId(t: Trigger): Trigger {
    if t.webhook && t.webhookId == "" then t.(webhookId := StableWebhookId(t.id)) else t
  }

  function CreatedSpec(t: Trigger, write: SecretWrite, newId: string): Trigger {
    var sourced := if t.source == Unset then t.(source := Dynamic) else t;
    var named := if sourced.id == "" then sourced.(id := newId) else sourced;
    ApplyRef(WithWebhookId(named), None, Some(write))
  }

  function UpdatedSpec(current: Trigger, t: Trigger, write: Option<SecretWrite>): Trigger {
    WithWebhookId(ApplyRef(t.(id := current.id, source := current.source), Some(current), write))
  }

  /** A secret value the vault will be asked to store. */
  predicate WriteAllowed(t: Trigger, write: SecretWrite, configured: bool) {
    if !t.webhook then write.ref == NoRef && write.value.None?
    else write.value.None? || (InAutomation(t.secretRef) && TrimSpace(write.value.value) != "" && configured)
  }

  /** The secret write of a validated definition succeeds. */
  predicate WriteWorks(t: Trigger, write: SecretWrite, configured: bool, f: Faults) {
    WriteAllowed(t, write, configured) && (t.webhook && write.value.Some? ==> f.writeSecret == Written)
  }

  function AfterWrite(secrets: map<Ref, string>, t: Trigger, write: SecretWrite): map<Ref, string> {
    if t.webhook && write.value.Some? then secrets[t.secretRef := write.value.value] else secrets
  }

  function AfterFailedWrite(secrets: map<Ref, string>, t: Trigger, write: SecretWrite, configured: bool,
                            outcome: PutOutcome): map<Ref, string> {
    if WriteAllowed(t, write, configured) && outcome == FailedAfterWrite then AfterWrite(secrets, t, write) else secrets
  }

  predicate Superseded(previous: Trigger, next: Trigger) {
    IsOwned(previous) && previous.secretRef != next.secretRef
  }

  function AfterDrop(secrets: map<Ref, string>, previous: Trigger, next: Trigger, configured: bool): map<Ref, string> {
    if configured && Superseded(previous, next) then secrets - {previous.secretRef} else secrets
  }

  class Manager {
    const store: ResourceStore
    const vault: Vault
    const checks: Trigger -> bool
    const sameTarget: (Trigger, Trigger) -> bool

    constructor (store: ResourceStore, vault: Vault, checks: Trigger -> bool, sameTarget: (Trigger, Trigger) -> bool)
      ensures this.store == store && this.vault == vault && this.checks == checks && this.sameTarget == sameTarget
    {
      this.store, this.vault, this.checks, this.sameTarget := store, vault, checks, sameTarget;
    }

    /** Every stored definition has passed validation and is stored under its id. */
    ghost predicate Valid()
      reads this, store
    {
      store.Valid() && forall id :: id in store.records ==>
        id != "" && store.records[id].spec.id == id && RefValid(store.records[id].spec)
    }

    method CaptureSecret(t: Trigger, capture: bool, fails: bool) returns (r: Option<SecretState>)
      ensures r == if fails && capture && t.webhook && t.id != "" && t.secretRef != NoRef && vault.configured then None
                   else Some(CaptureOf(vault.secrets, vault.env, vault.configured, t, capture))
    {
      if !capture {
        return Some(NO_STATE);
      }
      if !t.webhook || t.id == "" || t.secretRef == NoRef || !vault.configured {
        return Some(SecretState(t.secretRef, "", false));
      }
      if fails {
        return None;
      }
      var secret := Resolved(vault.secrets, vault.env, t.secretRef);
      var value := if secret.Some? then TrimSpace(TrimSpace(secret.value)) else "";
      return Some(SecretState(t.secretRef, value, value != ""));
    }

    method DropOwnedSecret(t: Trigger, fails: bool) returns (ok: bool)
      modifies vault
      ensures ok <==> !(IsOwned(t) && vault.configured && fails)
      ensures vault.secrets ==
        if ok && IsOwned(t) && vault.configured then old(vault.secrets) - {t.secretRef} else old(vault.secrets)
    {
      if !IsOwned(t) || !vault.configured {
        return true;
      }
      var r := vault.DeleteSecret(t.secretRef, fails);
      return r != DeleteFailed;
    }

    method ApplySecretWrite(t: Trigger, write: SecretWrite, outcome: PutOutcome, dropFails: bool) returns (ok: bool)
      requires RefValid(t) && (t.webhook && write.ref != NoRef ==> t.secretRef == write.ref)
      modifies vault
      ensures ok
          <==> WriteAllowed(t, write, vault.configured) && (t.webhook && write.value.Some? ==> outcome == Written)
      ensures ok ==> vault.secrets == AfterWrite(old(vault.secrets), t, write)
      ensures !ok ==> vault.secrets == AfterFailedWrite(old(vault.secrets), t, write, vault.configured, outcome)
    {
      if !t.webhook {
        if write.ref != NoRef || write.value.Some? {
          return false;
        }
        ok := DropOwnedSecret(t, dropFails);
        return;
      }
      if write.value.None? {
        return true;
      }
      var given := if write.ref == NoRef then t.secretRef else write.ref;
      var ref := if given == NoRef then DefaultRef(t.id) else given;
      if !InAutomation(ref) || TrimSpace(write.value.value) == "" || !vault.configured {
        return false;
      }
      ok := vault.PutSecret(ref, write.value.value, outcome);
    }

    // ----- create -----

    method CreateTrigger(t: Trigger, write: SecretWrite, newId: string, f: Faults) returns (r: Result)
      requires Valid() && newId != ""
      modifies store, vault
      ensures Valid()
      ensures CreatePost(World(old(store.records), old(vault.secrets)), World(store.records, vault.secrets),
                         CreatedSpec(t, write, newId), write, vault.configured, f, r)
      ensures var next := CreatedSpec(t, write, newId);
        && (NoFaults(f) ==>
              (r.Done? <==> next.source == Dynamic && RefValid(next) && checks(next)
                            && WriteAllowed(next, write, vault.configured) && next.id !in old(store.records)))
        && (next.source == Dynamic && RefValid(next) && checks(next) && !f.captureNext ==>
              (r == Err(WriteSecret, false) <==> !WriteWorks(next, write, vault.configured, f)))
    {
      var next := CreatedSpec(t, write, newId);
      if next.source != Dynamic || !RefValid(next) || !checks(next) {
        return Err(Refuse, false);
      }
      r := StoreCreated(next, write, f);
    }

    /** The store calls of a create, for a validated definition. */
    method StoreCreated(next: Trigger, write: SecretWrite, f: Faults) returns (r: Result)
      requires Valid() && next.id != "" && RefValid(next)
      requires (next.webhook && write.ref != NoRef ==> next.secretRef == write.ref)
      modifies store, vault
      ensures Valid()
      ensures CreatePost(World(old(store.records), old(vault.secrets)), World(store.records, vault.secrets), next,
                         write, vault.configured, f, r)
      ensures NoFaults(f) ==>
        (r.Done? <==> WriteAllowed(next, write, vault.configured) && next.id !in old(store.records))
      ensures !f.captureNext ==> (r == Err(WriteSecret, false) <==> !WriteWorks(next, write, vault.configured, f))
    {
      var state := CaptureSecret(next, write.value.Some?, f.captureNext);
      if state.None? {
        return Err(Capture, false);
      }
      var applied := ApplySecretWrite(next, write, f.writeSecret, f.dropSecret);
      if !applied {
        return Err(WriteSecret, false);
      }
      r := CommitCreated(next, write, state.value, old(vault.secrets), f);
    }

    /** A create from the record on, after the secret write; before is the vault at the start. */
    method CommitCreated(next: Trigger, write: SecretWrite, state: SecretState, ghost before: map<Ref, string>,
                         f: Faults) returns (r: Result)
      requires Valid() && next.id != "" && RefValid(next)
      requires WriteAllowed(next, write, vault.configured) && vault.secrets == AfterWrite(before, next, write)
      requires state == CaptureOf(before, vault.env, vault.configured, next, write.value.Some?)
      modifies store, vault
      ensures Valid()
      ensures CreatePost(World(old(store.records), before), World(store.records, vault.secrets), next, write,
                         vault.configured, f, r)
      ensures NoFaults(f) ==> (r.Done? <==> next.id !in old(store.records))
      ensures r != Err(WriteSecret, false)
    {
      UndoneWrite(before, vault.env, vault.configured, next, write, state);
      var created := store.Put(next.id, next.scope, 0, next, f.storeRecord);
      if created.None? {
        var restored := RestoreStates(vault, [state], f.undoSecrets);
        return Err(StoreRecord, !restored);
      }
      r := FinishCreated(next, write, state, old(store.records), before, f);
    }

    /** A create whose record is stored: reload, undone when it fails, and the final lookup. */
    method FinishCreated(next: Trigger, write: SecretWrite, state: SecretState, ghost records: map<string, Record>,
                         ghost before: map<Ref, string>, f: Faults) returns (r: Result)
      requires Valid() && next.id != "" && RefValid(next) && next.id !in records
      requires store.records == records[next.id := Record(1, next.scope, next)]
      requires vault.secrets == AfterWrite(before, next, write)
      requires write.value.Some? ==> vault.configured && state.ref.VaultRef?
      requires write.value.None? ==> state == NO_STATE && PutBack(before, {}) == before == vault.secrets
      requires RestoreAll(vault.secrets, [state], {}) == PutBack(before, WrittenRefs(next, write))
      modifies store, vault
      ensures Valid()
      ensures CreatePost(World(records, before), World(store.records, vault.secrets), next, write, vault.configured, f,
                         r)
      ensures (NoFaults(f) ==> r.Done?) && r != Err(WriteSecret, false)
    {
      if f.reload {
        var removed := store.Delete(next.id, store.records[next.id].version, f.undoRecord);
        assert removed ==> store.records == records;
        var restored := RestoreStates(vault, [state], f.undoSecrets);
        return Err(Reload, !(removed && restored));
      }
      if f.lookup {
        return Err(Lookup, false);
      }
      return Done(next);
    }

    // ----- update -----

    method UpdateTrigger(t: Trigger, write: Option<SecretWrite>, f: Faults) returns (r: Result)
      requires Valid()
      modifies store, vault
      ensures Valid()
      ensures r.Done? || r.step != Refuse ==> t.id in old(store.records) &&
                                              var current := old(store.records)[t.id];
                                              UpdatePost(World(old(store.records), old(vault.secrets)),
                                                         World(store.records, vault.secrets),
                                                         t.id, UpdatedSpec(current.spec, t, write), WriteOf(write),
                                                         vault.configured, f, r)
      ensures r.Err? && r.step == Refuse ==> store.records == old(store.records) && vault.secrets == old(vault.secrets)
      ensures NoFaults(f) ==>
        (r.Done? <==> t.id in old(store.records) && UpdateAllowed(old(store.records)[t.id].spec, t, write))
    {
      if f.read || t.id !in store.records {
        return Err(Refuse, false);
      }
      var current := store.records[t.id];
      if current.spec.source != Dynamic {
        return Err(Refuse, false);
      }
      var next := UpdatedSpec(current.spec, t, write);
      if !sameTarget(current.spec, next) || !RefValid(next) || !checks(next) {
        return Err(Refuse, false);
      }
      r := StoreUpdated(current, next, write, f);
    }

    predicate UpdateAllowed(current: Trigger, t: Trigger, write: Option<SecretWrite>) {
      var next := UpdatedSpec(current, t, write);
      current.source == Dynamic && sameTarget(current, next) && RefValid(next) && checks(next)
        && WriteAllowed(next, WriteOf(write), vault.configured)
    }

    /** The store calls of an update, for a validated definition. */
    method StoreUpdated(current: Record, next: Trigger, write: Option<SecretWrite>, f: Faults) returns (r: Result)
      requires Valid() && next.id in store.records && store.records[next.id] == current
      requires RefValid(next) && (next.webhook && WriteOf(write).ref != NoRef ==> next.secretRef == WriteOf(write).ref)
      modifies store, vault
      ensures Valid()
      ensures UpdatePost(World(old(store.records), old(vault.secrets)), World(store.records, vault.secrets),
                         next.id, next, WriteOf(write), vault.configured, f, r)
      ensures r.Err? ==> r.step != Refuse
      ensures NoFaults(f) ==> (r.Done? <==> WriteAllowed(next, WriteOf(write), vault.configured))
    {
      ghost var before := vault.secrets;
      var previousState := CaptureSecret(current.spec, current.spec.secretRef != NoRef, f.capturePrevious);
      if previousState.None? {
        return Err(Capture, false);
      }
      var nextState := CaptureSecret(next, write.Some? && write.value.value.Some?, f.captureNext);
      if nextState.None? {
        return Err(Capture, false);
      }
      if write.Some? {
        var applied := ApplySecretWrite(next, write.value, f.writeSecret, f.dropSecret);
        if !applied {
          return Err(WriteSecret, false);
        }
      }
      r := CommitUpdated(current, next, write, nextState.value, previousState.value, before, f);
    }

    /** An update from the record on, after the secret write; before is the vault at the start. */
    method CommitUpdated(current: Record, next: Trigger, write: Option<SecretWrite>, nextState: SecretState,
                         previousState: SecretState,
                         ghost before: map<Ref, string>, f: Faults)
      returns (r: Result)
      requires Valid() && next.id in store.records && store.records[next.id] == current
      requires RefValid(next) && WriteAllowed(next, WriteOf(write), vault.configured)
      requires vault.secrets == AfterWrite(before, next, WriteOf(write))
      requires nextState == CaptureOf(before, vault.env, vault.configured, next, WriteOf(write).value.Some?)
      requires previousState
        == CaptureOf(before, vault.env, vault.configured, current.spec, current.spec.secretRef != NoRef)
      modifies store, vault
      ensures Valid()
      ensures UpdatePost(World(old(store.records), before), World(store.records, vault.secrets), next.id, next,
                         WriteOf(write), vault.configured, f, r)
      ensures r.Err? ==> r.step != Refuse
      ensures NoFaults(f) ==> r.Done?
    {
      var updated := store.Put(next.id, next.scope, current.version, next, f.storeRecord);
      if updated.None? {
        UndoneWrite(before, vault.env, vault.configured, next, WriteOf(write), nextState);
        var restored := RestoreStates(vault, [nextState], f.undoSecrets);
        return Err(StoreRecord, !restored);
      }
      ghost var stored := store.records;
      ghost var undone := Record(current.version + 2, current.scope, current.spec);
      assert stored[next.id := undone] == old(store.records)[next.id := undone];
      r := FinishUpdated(current, updated.value, next, write, nextState, previousState, before, f);
    }

    /** An update after the new record is stored. */
    method FinishUpdated(current: Record, updated: Record, next: Trigger, write: Option<SecretWrite>,
                         nextState: SecretState,
                         previousState: SecretState, ghost before: map<Ref, string>, f: Faults)
      returns (r: Result)
      requires Valid() && next.id in store.records && store.records[next.id] == updated
      requires current.spec.id == next.id && RefValid(current.spec) && RefValid(next)
      requires updated.version == current.version + 1
      requires WriteAllowed(next, WriteOf(write), vault.configured)
      requires vault.secrets == AfterWrite(before, next, WriteOf(write))
      requires nextState == CaptureOf(before, vault.env, vault.configured, next, WriteOf(write).value.Some?)
      requires previousState
        == CaptureOf(before, vault.env, vault.configured, current.spec, current.spec.secretRef != NoRef)
      modifies store, vault
      ensures Valid()
      ensures r.Done? || r.step == Lookup ==>
        && (r.Done? ==> r.trigger == next) && (r.Err? ==> f.lookup) && store.records == old(store.records)
        && vault.secrets == AfterDrop(AfterWrite(before, next, WriteOf(write)), current.spec, next, vault.configured)
      ensures r.Err? && r.step != Lookup ==>
        r.step in {DropSecret, Reload}
          && (UndoWorks(f) ==> UpdateUndone(before, current, next, WriteOf(write), r.rollbackFailed,
                                            old(store.records)))
      ensures NoFaults(f) ==> r.Done?
    {
      var dropped := true;
      if Superseded(current.spec, next) {
        dropped := DropOwnedSecret(current.spec, f.dropSecret);
      }
      if !dropped || f.reload {
        UndoneUpdate(before, vault.secrets, vault.env, vault.configured, current.spec, next, WriteOf(write));
        var undone := RestoreUpdated(next.id, current, updated, nextState, previousState, f);
        return Err(if dropped then Reload else DropSecret, !undone);
      }
      if f.lookup {
        return Err(Lookup, false);
      }
      return Done(next);
    }

    /** Both stores are back at what they held before the update. */
    ghost predicate UpdateUndone(before: map<Ref, string>, current: Record, next: Trigger, write: SecretWrite,
                                 rollbackFailed: bool,
                                 records: map<string, Record>)
      reads this, store, vault
    {
      && store.records == records[next.id := Record(current.version + 2, current.scope, current.spec)]
      && vault.secrets ==
         (if vault.configured then PutBack(before, CapturedRefs(current.spec, next, write)) else before)
      && rollbackFailed == (vault.configured && current.spec.secretRef.EnvRef?)
    }

    method RestoreUpdated(id: string, current: Record, updated: Record, nextState: SecretState,
                          previousState: SecretState, f: Faults)
      returns (ok: bool)
      requires store.Valid() && id in store.records && store.records[id] == updated
      modifies store, vault
      ensures store.Valid()
      ensures store.records == if f.undoRecord then old(store.records)
                               else old(store.records)[id := Record(updated.version + 1, current.scope, current.spec)]
      ensures !vault.configured ==> vault.secrets == old(vault.secrets)
      ensures vault.configured && f.undoSecrets == {} ==>
        vault.secrets == RestoreAll(old(vault.secrets), [nextState, previousState], {})
      ensures UndoWorks(f) ==>
        (ok <==> !vault.configured || forall s :: s in [nextState, previousState] ==> s.ref == NoRef || s.ref.VaultRef?)
    {
      var put := store.Put(id, current.scope, updated.version, current.spec, f.undoRecord);
      var restored := RestoreStates(vault, [nextState, previousState], f.undoSecrets);
      return put.Some? && restored;
    }

    // ----- delete -----

    method DeleteTrigger(id: string, f: Faults) returns (r: Result)
      requires Valid()
      modifies store, vault
      ensures Valid()
      ensures r.Err? && r.step == Refuse ==> store.records == old(store.records) && vault.secrets == old(vault.secrets)
      ensures r.Done? || r.step != Refuse ==>
        && id in old(store.records)
        && DeletePost(World(old(store.records), old(vault.secrets)), World(store.records, vault.secrets), id,
                      vault.configured, f, r)
      ensures NoFaults(f) ==> (r.Done? <==> id in old(store.records) && old(store.records)[id].spec.source == Dynamic)
    {
      if f.read || id !in store.records {
        return Err(Refuse, false);
      }
      var current := store.records[id];
      if current.spec.source != Dynamic {
        return Err(Refuse, false);
      }
      var removed := store.Delete(id, current.version, f.storeRecord);
      if !removed {
        return Err(StoreRecord, false);
      }
      r := FinishDeleted(id, current, old(store.records), f);
    }

    /** A delete after the record is gone. */
    method FinishDeleted(id: string, current: Record, ghost records: map<string, Record>, f: Faults) returns (r: Result)
      requires Valid() && id != "" && current.spec.id == id && RefValid(current.spec)
      requires id in records && records[id] == current && store.records == records - {id}
      modifies store, vault
      ensures Valid()
      ensures r.Done? || r.step in {Capture, DropSecret, Reload}
      ensures DeletePost(World(records, old(vault.secrets)), World(store.records, vault.secrets), id, vault.configured,
                         f, r)
      ensures NoFaults(f) ==> r.Done?
    {
      assert (records - {id})[id := Record(1, current.scope, current.spec)]
        == records[id := Record(1, current.scope, current.spec)];
      var state := CaptureSecret(current.spec, current.spec.secretRef != NoRef, f.capturePrevious);
      if state.None? {
        var recreated := store.Put(id, current.scope, 0, current.spec, f.undoRecord);
        return Err(Capture, recreated.None?);
      }
      var dropped := DropOwnedSecret(current.spec, f.dropSecret);
      if !dropped || f.reload {
        UndoneDrop(old(vault.secrets), vault.secrets, vault.env, vault.configured, current.spec);
        var recreated := store.Put(id, current.scope, 0, current.spec, f.undoRecord);
        var restored := RestoreStates(vault, [state.value], f.undoSecrets);
        return Err(if dropped then Reload else DropSecret, !(recreated.Some? && restored));
      }
      return Done(current.spec);
    }
  }

  function WriteOf(write: Option<SecretWrite>): SecretWrite {
    if write.Some? then write.value else SecretWrite(NoRef, None)
  }

  datatype World = World(records: map<string, Record>, secrets: map<Ref, string>)

  /** Restoring the state captured before a secret write undoes the write. */
  lemma UndoneWrite(before: map<Ref, string>, env: map<string, string>, configured: bool, t: Trigger,
                    write: SecretWrite, state: SecretState)
    requires t.id != "" && RefValid(t) && WriteAllowed(t, write, configured)
    requires state == CaptureOf(before, env, configured, t, write.value.Some?)
    ensures RestoreAll(AfterWrite(before, t, write), [state], {}) == PutBack(before, WrittenRefs(t, write))
    ensures write.value.None? ==> state == NO_STATE && PutBack(before, {}) == before == AfterWrite(before, t, write)
    ensures write.value.Some? ==> configured && state.ref.VaultRef?
  {
    if write.value.Some? {
      CaptureHolds(before, env, t, true);
      assert RestoreAll(AfterWrite(before, t, write), [state], {}) == RestoreOne(AfterWrite(before, t, write), state);
    }
  }

  function WrittenRefs(t: Trigger, write: SecretWrite): set<Ref> {
    if write.value.Some? then {t.secretRef} else {}
  }

  /** What creating the definition next does to both stores. */
  ghost predicate CreatePost(w: World, w': World, next: Trigger, write: SecretWrite, configured: bool, f: Faults,
                             r: Result) {
    if r.Done? then r.trigger == next && Created(w, w', next, write)
    else if r.step == Lookup then f.lookup && Created(w, w', next, write)
    else if r.step == Refuse || r.step == Capture then w' == w
    else if r.step == WriteSecret then
      w'.records == w.records && w'.secrets == AfterFailedWrite(w.secrets, next, write, configured, f.writeSecret)
    else
      && r.step != DropSecret
      && (UndoWorks(f) ==> !r.rollbackFailed && w' == World(w.records, PutBack(w.secrets, WrittenRefs(next, write))))
  }

  ghost predicate Created(w: World, w': World, next: Trigger, write: SecretWrite) {
    next.id !in w.records
      && w' == World(w.records[next.id := Record(1, next.scope, next)], AfterWrite(w.secrets, next, write))
  }

  // ----- what an update does -----

  function CapturedRefs(current: Trigger, next: Trigger, write: SecretWrite): set<Ref> {
    WrittenRefs(next, write) + RefSet(current.secretRef)
  }

  ghost predicate UpdatePost(w: World, w': World, id: string, next: Trigger, write: SecretWrite, configured: bool,
                             f: Faults, r: Result)
    requires id in w.records
  {
    var current := w.records[id];
    if r.Done? then r.trigger == next && Updated(w, w', id, next, write, configured)
    else if r.step == Lookup then f.lookup && Updated(w, w', id, next, write, configured)
    else if r.step == Refuse || r.step == Capture then w' == w
    else if r.step == WriteSecret then
      w'.records == w.records && w'.secrets == AfterFailedWrite(w.secrets, next, write, configured, f.writeSecret)
    else if r.step == StoreRecord then
      UndoWorks(f) ==> !r.rollbackFailed && w' == World(w.records, PutBack(w.secrets, WrittenRefs(next, write)))
    else
      UndoWorks(f) ==>
        && w'.records == w.records[id := Record(current.version + 2, current.scope, current.spec)]
        && w'.secrets == (if configured then PutBack(w.secrets, CapturedRefs(current.spec, next, write)) else w.secrets)
        && r.rollbackFailed == (configured && current.spec.secretRef.EnvRef?)
  }

  ghost predicate Updated(w: World, w': World, id: string, next: Trigger, write: SecretWrite, configured: bool)
    requires id in w.records
  {
    && w'.records == w.records[id := Record(w.records[id].version + 1, next.scope, next)]
    && w'.secrets == AfterDrop(AfterWrite(w.secrets, next, write), w.records[id].spec, next, configured)
  }

  /** Restoring both captured states undoes the write and the dropped secret. */
  lemma UndoneUpdate(before: map<Ref, string>, now: map<Ref, string>, env: map<string, string>, configured: bool,
                     current: Trigger, next: Trigger, write: SecretWrite)
    requires current.id == next.id != "" && RefValid(current) && RefValid(next) && WriteAllowed(next, write, configured)
    requires now == AfterWrite(before, next, write)
          || (configured && IsOwned(current) && now == AfterWrite(before, next, write) - {current.secretRef})
    ensures configured ==>
      RestoreAll(now, [CaptureOf(before, env, true, next, write.value.Some?),
                       CaptureOf(before, env, true, current, current.secretRef != NoRef)], {})
      == PutBack(before, CapturedRefs(current, next, write))
    ensures !configured ==> now == before
  {
    if configured {
      var a := CaptureOf(before, env, true, next, write.value.Some?);
      var b := CaptureOf(before, env, true, current, current.secretRef != NoRef);
      CaptureHolds(before, env, next, write.value.Some?);
      CaptureHolds(before, env, current, current.secretRef != NoRef);
      assert RefsOf([a, b]) == CapturedRefs(current, next, write) by {
        RefsOfCons([a, b]);
        RefsOfCons([b]);
        assert [a, b][1..] == [b] && [b][1..] == [];
      }
      RestoreAllPutsBack(now, [a, b], before);
    }
  }

  // ----- what a delete does -----

  function RefSet(ref: Ref): set<Ref> {
    if ref == NoRef then {} else {ref}
  }

  ghost predicate DeletePost(w: World, w': World, id: string, configured: bool, f: Faults, r: Result)
    requires id in w.records
  {
    var current := w.records[id];
    if r.Done? then
      && r.trigger == current.spec && w'.records == w.records - {id}
      && w'.secrets == if IsOwned(current.spec) && configured then w.secrets - {current.spec.secretRef} else w.secrets
    else if r.step == StoreRecord then w' == w
    else if r.step == Capture then
      UndoWorks(f) ==>
        !r.rollbackFailed && w' == World(w.records[id := Record(1, current.scope, current.spec)], w.secrets)
    else
      && r.step in {DropSecret, Reload}
      && (UndoWorks(f) ==>
            && w'.records == w.records[id := Record(1, current.scope, current.spec)]
            && w'.secrets == (if configured then PutBack(w.secrets, RefSet(current.spec.secretRef)) else w.secrets)
            && r.rollbackFailed == (configured && current.spec.secretRef.EnvRef?))
  }

  lemma UndoneDrop(before: map<Ref, string>, now: map<Ref, string>, env: map<string, string>, configured: bool,
                   current: Trigger)
    requires current.id != "" && RefValid(current)
    requires now == before || (configured && IsOwned(current) && now == before - {current.secretRef})
    ensures configured ==>
      RestoreAll(now, [CaptureOf(before, env, true, current, current.secretRef != NoRef)], {})
        == PutBack(before, RefSet(current.secretRef))
  {
    if configured {
      var s := CaptureOf(before, env, true, current, current.secretRef != NoRef);
      CaptureHolds(before, env, current, current.secretRef != NoRef);
      RefsOfCons([s]);
      assert [s][1..] == [] && RefsOf([]) == {};
      assert RefsOf([s]) == RefSet(current.secretRef);
      RestoreAllPutsBack(now, [s], before);
    }
  }

  // ----- when a failure leaves no trace -----

  /** The stored specs and scopes and every secret are as before; versions may differ. */
  ghost predicate Restored(w: World, w': World) {
    Content(w'.records) == Content(w.records) && w'.secrets == w.secrets
  }

  lemma ContentSame(records: map<string, Record>, id: string, version: nat)
    requires id in records
    ensures Content(records[id := Record(version, records[id].scope, records[id].spec)]) == Content(records)
  {}

  /** A secret write that fails in its read-back leaves the vault alone only when it wrote what was there. */
  predicate WriteLeavesNoTrace(secrets: map<Ref, string>, t: Trigger, write: SecretWrite, configured: bool,
                               outcome: PutOutcome) {
    WriteAllowed(t, write, configured) && outcome == FailedAfterWrite && t.webhook && write.value.Some? ==>
      t.secretRef in secrets && secrets[t.secretRef] == write.value.value
  }

  lemma FailedWriteTrace(secrets: map<Ref, string>, t: Trigger, write: SecretWrite, configured: bool,
                         outcome: PutOutcome)
    ensures AfterFailedWrite(secrets, t, write, configured, outcome) == secrets
        <==> WriteLeavesNoTrace(secrets, t, write, configured, outcome)
  {
    var after := AfterFailedWrite(secrets, t, write, configured, outcome);
    if WriteAllowed(t, write, configured) && outcome == FailedAfterWrite && t.webhook && write.value.Some? {
      assert t.secretRef in after && after[t.secretRef] == write.value.value;
    }
  }

  /** Exactly when a failed create, with working compensation, leaves both stores as they were. */
  lemma CreateFailureLeavesNoTrace(w: World, w': World, next: Trigger, write: SecretWrite, configured: bool, f: Faults,
                                   r: Result)
    requires CreatePost(w, w', next, write, configured, f, r) && r.Err? && UndoWorks(f)
    ensures Restored(w, w') <==>
      match r.step
      case Lookup => false
      case WriteSecret => WriteLeavesNoTrace(w.secrets, next, write, configured, f.writeSecret)
      case StoreRecord => AllClean(w.secrets, WrittenRefs(next, write))
      case Reload => AllClean(w.secrets, WrittenRefs(next, write))
      case _ => true
  {
    if r.step == Lookup {
      assert next.id in Content(w'.records) && next.id !in Content(w.records);
    }
    FailedWriteTrace(w.secrets, next, write, configured, f.writeSecret);
    PutBackSame(w.secrets, WrittenRefs(next, write));
  }

  const HOOK: Trigger := Trigger("hook", Unset, "global", true, "", NoRef, "")

  /** A create that fails in the read-back of its secret write leaves the new secret in the place
      of another one, though every compensation works. */
  method FailedCreateOverwrites() returns (before: map<Ref, string>, after: map<Ref, string>, r: Result)
    ensures r == Err(WriteSecret, false)
    ensures before == map[DefaultRef("hook") := "old"] && after == map[DefaultRef("hook") := "new"]
  {
    var store := new ResourceStore();
    var vault := new Vault(map[], true);
    var m := new Manager(store, vault, t => true, (a, b) => a == b);
    var _ := vault.PutSecret(DefaultRef("hook"), "old", Written);
    before := vault.secrets;
    var f := Faults(false, false, false, FailedAfterWrite, false, false, false, false, false, {});
    r := m.CreateTrigger(HOOK, SecretWrite(NoRef, Some("new")), "id", f);
    after := vault.secrets;
  }

  /** Exactly when a failed update, with working compensation, leaves both stores as they were. */
  lemma UpdateFailureLeavesNoTrace(w: World, w': World, id: string, next: Trigger, write: SecretWrite, configured: bool,
                                   f: Faults, r: Result)
    requires id in w.records && UpdatePost(w, w', id, next, write, configured, f, r) && r.Err? && UndoWorks(f)
    ensures r.step != Lookup ==>
      (Restored(w, w') <==>
       match r.step
       case WriteSecret => WriteLeavesNoTrace(w.secrets, next, write, configured, f.writeSecret)
       case StoreRecord => AllClean(w.secrets, WrittenRefs(next, write))
       case DropSecret => configured ==> AllClean(w.secrets, CapturedRefs(w.records[id].spec, next, write))
       case Reload => configured ==> AllClean(w.secrets, CapturedRefs(w.records[id].spec, next, write))
       case _ => true)
    ensures r.step == Lookup ==> Updated(w, w', id, next, write, configured)
  {
    ContentSame(w.records, id, w.records[id].version + 2);
    FailedWriteTrace(w.secrets, next, write, configured, f.writeSecret);
    PutBackSame(w.secrets, WrittenRefs(next, write));
    PutBackSame(w.secrets, CapturedRefs(w.records[id].spec, next, write));
  }

  /** Exactly when a failed delete, with working compensation, leaves both stores as they were. */
  lemma DeleteFailureLeavesNoTrace(w: World, w': World, id: string, configured: bool, f: Faults, r: Result)
    requires id in w.records && DeletePost(w, w', id, configured, f, r) && r.Err? && UndoWorks(f)
    ensures Restored(w, w') <==>
      (r.step in {DropSecret, Reload} && configured ==> AllClean(w.secrets, RefSet(w.records[id].spec.secretRef)))
  {
    ContentSame(w.records, id, 1);
    PutBackSame(w.secrets, RefSet(w.records[id].spec.secretRef));
  }
}
