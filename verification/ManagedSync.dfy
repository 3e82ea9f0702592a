/** Reconciling the definitions of one managed source with a desired list: in the versioned
    resource store, and in the plain definition store. */
module ManagedSync {
  import opened Ordering
  import opened Text
  import opened Definitions

  /** What the sync needs to know of a kind of definition. prepare fills what the sync fills,
      targetValid and accepts are the validations, normal is what the store keeps of an accepted definition,
      and secret is the vault ref a definition owns. */
  datatype Kind<!D> = Kind(id: D -> string, scope: D -> string, source: D -> string, prepare: D -> D,
                           targetValid: D -> bool, accepts: D -> bool, normal: D -> D,
                           same: (D, D) -> bool, secret: D -> Option<string>)

  ghost function Ids<D>(kind: Kind<D>, list: seq<D>): set<string> {
    set d | d in list :: kind.id(d)
  }

  ghost predicate DistinctIds<D>(kind: Kind<D>, list: seq<D>) {
    forall i, j :: 0 <= i < j < |list| ==> kind.id(list[i]) != kind.id(list[j])
  }

  lemma IdsOfPrefix<D>(kind: Kind<D>, list: seq<D>, i: nat)
    requires i < |list|
    ensures list[..i + 1] == list[..i] + [list[i]]
    ensures Ids(kind, list[..i + 1]) == Ids(kind, list[..i]) + {kind.id(list[i])}
  {
    assert list[..i + 1] == list[..i] + [list[i]];
  }

  function Prepared<D>(kind: Kind<D>, desired: seq<D>): (r: seq<D>)
    ensures |r| == |desired| && forall i :: 0 <= i < |r| ==> r[i] == kind.prepare(desired[i])
  {
    seq(|desired|, i requires 0 <= i < |desired| => kind.prepare(desired[i]))
  }

  // ----- the versioned store -----

  datatype Record<D> = Record(version: nat, source: string, scope: string, spec: D)

  /** The fault plan of a run: the store writes that fail, by their number. */
  class ResourceStore<D> {
    const kind: Kind<D>
    var records: map<string, Record<D>>
    var secrets: set<string>
    var writes: nat

    constructor (kind: Kind<D>)
      ensures this.kind == kind && Valid() && records == map[] && secrets == {} && writes == 0
    {
      this.kind := kind;
      records, secrets, writes := map[], {}, 0;
    }

    ghost predicate Valid()
      reads this
    {
      forall id :: id in records ==> records[id].version >= 1
    }

    method Put(source: string, id: string, scope: string, expected: nat, spec: D, failing: set<nat>) returns (ok: bool)
      requires Valid()
      modifies this
      ensures Valid() && secrets == old(secrets) && writes == old(writes) + 1
      ensures ok <==> old(writes) !in failing && PutAllowed(old(records), source, id, expected)
      ensures records ==
        if ok then old(records)[id := Record(expected + 1, source, scope, kind.normal(spec))] else old(records)
    {
      writes := writes + 1;
      ok := writes - 1 !in failing && PutAllowed(records, source, id, expected);
      if ok {
        records := records[id := Record(expected + 1, source, scope, kind.normal(spec))];
      }
    }

    method Delete(source: string, id: string, expected: nat, failing: set<nat>) returns (ok: bool)
      requires Valid()
      modifies this
      ensures Valid() && secrets == old(secrets) && writes == old(writes) + 1
      ensures ok <==> old(writes) !in failing && Current(old(records), source, id, expected)
      ensures records == if ok then old(records) - {id} else old(records)
    {
      writes := writes + 1;
      ok := writes - 1 !in failing && Current(records, source, id, expected);
      if ok {
        records := records - {id};
      }
    }

    method DropSecret(spec: D, failing: set<nat>) returns (ok: bool)
      modifies this
      ensures records == old(records)
      ensures kind.secret(spec).None? ==> ok && secrets == old(secrets) && writes == old(writes)
      ensures kind.secret(spec).Some? ==> writes == old(writes) + 1 && (ok <==> old(writes) !in failing)
      ensures kind.secret(spec).Some? ==>
        secrets == if ok then old(secrets) - {kind.secret(spec).value} else old(secrets)
    {
      ok := true;
      if kind.secret(spec).Some? {
        writes := writes + 1;
        ok := writes - 1 !in failing;
        if ok {
          secrets := secrets - {kind.secret(spec).value};
        }
      }
    }

    method ListSource(source: string) returns (current: map<string, Record<D>>)
      ensures current == OfSource(records, source)
    {
      current := OfSource(records, source);
    }
  }

  /** A record of this source at this version. */
  predicate Current<D>(records: map<string, Record<D>>, source: string, id: string, version: nat) {
    id in records && records[id].source == source && records[id].version == version
  }

  /** A new record needs version 0 and a free id; an update needs its own source and version. */
  predicate PutAllowed<D>(records: map<string, Record<D>>, source: string, id: string, expected: nat) {
    if id in records then records[id].source == source && expected != 0 && records[id].version == expected
    else expected == 0
  }

  function OfSource<D>(records: map<string, Record<D>>, source: string): map<string, Record<D>> {
    map id | id in records && records[id].source == source :: records[id]
  }

  /** The record is in the scope of next and compares the same. */
  predicate SameRecord<D>(kind: Kind<D>, r: Record<D>, next: D) {
    r.scope == kind.scope(next) && kind.same(r.spec, next)
  }

  // ----- what a sync establishes -----

  /** A record that says what next says: the very definition, or one that compares the same. */
  ghost predicate Settled<D>(kind: Kind<D>, records: map<string, Record<D>>, source: string, next: D) {
    && kind.id(next) in records
    && var r := records[kind.id(next)];
       r.source == source && r.scope == kind.scope(next) && (r.spec == kind.normal(next) || kind.same(r.spec, next))
  }

  /** Nothing to do: every wanted definition is there and compares the same, and no other is. */
  ghost predicate InSync<D>(kind: Kind<D>, records: map<string, Record<D>>, source: string, wanted: seq<D>) {
    && DistinctIds(kind, wanted)
    && OfSource(records, source).Keys == Ids(kind, wanted)
    && forall next :: next in wanted ==>
         kind.accepts(next) && kind.id(next) in records && records[kind.id(next)].scope == kind.scope(next)
         && kind.same(records[kind.id(next)].spec, next)
  }

  ghost predicate OtherAt<D>(before: map<string, Record<D>>, after: map<string, Record<D>>, source: string,
                             id: string) {
    (id in before && before[id].source != source) || (id in after && after[id].source != source) ==>
      id in before && id in after && before[id] == after[id]
  }

  /** No record of another source is added, changed or removed. */
  ghost predicate OthersUntouched<D>(before: map<string, Record<D>>, after: map<string, Record<D>>, source: string) {
    forall id :: OtherAt(before, after, source, id)
  }

  ghost predicate IsSynced<D>(kind: Kind<D>, records: map<string, Record<D>>, source: string, wanted: seq<D>) {
    && DistinctIds(kind, wanted)
    && OfSource(records, source).Keys == Ids(kind, wanted)
    && forall next :: next in wanted ==> kind.accepts(next) && Settled(kind, records, source, next)
  }

  datatype SyncResult = Synced(synced: nat, removed: nat) | Failed

  /** What a list must be like for its sync to succeed: every definition accepted, no id
      wanted twice, and none that belongs to another source. */
  ghost predicate Syncable<D>(kind: Kind<D>, before: map<string, Record<D>>, source: string, wanted: seq<D>) {
    && DistinctIds(kind, wanted)
    && forall next :: next in wanted ==> kind.accepts(next) && OwnOrFree(kind, before, source, next)
  }

  ghost predicate OwnOrFree<D>(kind: Kind<D>, before: map<string, Record<D>>, source: string, next: D) {
    kind.id(next) in before ==> before[kind.id(next)].source == source
  }

  /** The first i wanted definitions are settled; all else is as before. */
  ghost predicate Progress<D>(kind: Kind<D>, before: map<string, Record<D>>, records: map<string, Record<D>>,
                              source: string, wanted: seq<D>) {
    && DistinctIds(kind, wanted)
    && (forall next :: next in wanted ==> kind.accepts(next) && Settled(kind, records, source, next))
    && (forall id :: id !in Ids(kind, wanted) ==> SameAt(before, records, id))
    && OthersUntouched(before, records, source)
  }

  ghost predicate SameAt<D>(a: map<string, Record<D>>, b: map<string, Record<D>>, id: string) {
    (id in a <==> id in b) && (id in a ==> a[id] == b[id])
  }

  /** A further definition has been put, or was found to compare the same. */
  lemma ProgressGrows<D>(kind: Kind<D>, before: map<string, Record<D>>, records: map<string, Record<D>>,
                         after: map<string, Record<D>>,
                         source: string, wanted: seq<D>, next: D)
    requires Progress(kind, before, records, source, wanted)
    requires kind.accepts(next) && Settled(kind, after, source, next) && kind.id(next) !in Ids(kind, wanted)
    requires forall id :: id != kind.id(next) ==> SameAt(records, after, id)
    requires kind.id(next) in records ==> records[kind.id(next)].source == source
    ensures Progress(kind, before, after, source, wanted + [next])
  {
    var more := wanted + [next];
    forall i, j | 0 <= i < j < |more| ensures kind.id(more[i]) != kind.id(more[j]) {
      assert more[i] in wanted && kind.id(more[i]) in Ids(kind, wanted);
    }
    forall x | x in more ensures kind.accepts(x) && Settled(kind, after, source, x) {
      if x != next {
        assert x in wanted && kind.id(x) in Ids(kind, wanted);
        assert SameAt(records, after, kind.id(x));
      }
    }
    forall id | id !in Ids(kind, more) ensures SameAt(before, after, id) {
      assert next in more && kind.id(next) in Ids(kind, more);
      assert forall d :: d in wanted ==> d in more;
      assert SameAt(before, records, id) && SameAt(records, after, id);
    }
    OthersStay(kind, before, records, after, source, next);
  }

  lemma OthersStay<D>(kind: Kind<D>, before: map<string, Record<D>>, records: map<string, Record<D>>,
                      after: map<string, Record<D>>,
                      source: string, next: D)
    requires OthersUntouched(before, records, source)
    requires forall id :: id != kind.id(next) ==> SameAt(records, after, id)
    requires kind.id(next) in records ==> records[kind.id(next)].source == source
    requires kind.id(next) in after && after[kind.id(next)].source == source
    ensures OthersUntouched(before, after, source)
  {
    forall id ensures OtherAt(before, after, source, id) {
      assert OtherAt(before, records, source, id);
      assert id != kind.id(next) ==> SameAt(records, after, id);
    }
  }

  /** One round of the put loop. current is the record listed under the id, if still unclaimed. */
  method PutOne<D>(store: ResourceStore<D>, source: string, next: D, current: Option<Record<D>>,
                   ghost before: map<string, Record<D>>, ghost wanted: seq<D>, failing: set<nat>)
    returns (ok: bool)
    requires store.Valid() && Progress(store.kind, before, store.records, source, wanted)
    requires current.Some?
        <==> store.kind.id(next) in OfSource(before, source) && store.kind.id(next) !in Ids(store.kind, wanted)
    requires current.Some? ==> current.value == before[store.kind.id(next)]
    modifies store
    ensures store.Valid() && store.secrets == old(store.secrets)
    ensures OthersUntouched(before, store.records, source)
    ensures ok ==> Progress(store.kind, before, store.records, source, wanted + [next])
    ensures store.kind.accepts(next) && current.Some? && SameRecord(store.kind, current.value, next) ==>
      ok && store.records == old(store.records) && store.writes == old(store.writes)
    ensures ok ==> store.kind.accepts(next) && (current.Some? || store.kind.id(next) !in old(store.records))
    ensures failing == {} && !ok ==>
      !store.kind.accepts(next) || (current.None? && store.kind.id(next) in old(store.records))
  {
    if !store.kind.accepts(next) {
      return false;
    }
    ghost var id := store.kind.id(next);
    assert id !in Ids(store.kind, wanted) ==> SameAt(before, store.records, id);
    if current.Some? && SameRecord(store.kind, current.value, next) {
      ProgressGrows(store.kind, before, store.records, store.records, source, wanted, next);
      return true;
    }
    var expected := if current.Some? then current.value.version else 0;
    ghost var records := store.records;
    WantedAreThere(store.kind, before, records, source, wanted, id);
    ok := store.Put(source, store.kind.id(next), store.kind.scope(next), expected, next, failing);
    if ok {
      ProgressGrows(store.kind, before, records, store.records, source, wanted, next);
    }
  }

  lemma WantedAreThere<D>(kind: Kind<D>, before: map<string, Record<D>>, records: map<string, Record<D>>,
                          source: string, wanted: seq<D>, id: string)
    requires Progress(kind, before, records, source, wanted)
    ensures id in Ids(kind, wanted) ==> id in records && records[id].source == source
  {
    if id in Ids(kind, wanted) {
      var d :| d in wanted && kind.id(d) == id;
      assert Settled(kind, records, source, d);
    }
  }

  lemma ClaimNext<D, V>(kind: Kind<D>, m: map<string, V>, list: seq<D>, i: nat)
    requires i < |list|
    ensures list[..i + 1] == list[..i] + [list[i]]
    ensures m - Ids(kind, list[..i + 1]) == m - Ids(kind, list[..i]) - {kind.id(list[i])}
  {
    IdsOfPrefix(kind, list, i);
  }

  /** The put loop over the whole list. unclaimed are the listed records no definition claimed. */
  method PutAll<D>(store: ResourceStore<D>, source: string, desired: seq<D>, listed: map<string, Record<D>>,
                   failing: set<nat>)
    returns (ok: bool, unclaimed: map<string, Record<D>>)
    requires store.Valid() && listed == OfSource(store.records, source)
    modifies store
    ensures store.Valid() && store.secrets == old(store.secrets)
    ensures OthersUntouched(old(store.records), store.records, source)
    ensures ok ==> Progress(store.kind, old(store.records), store.records, source, Prepared(store.kind, desired))
    ensures ok ==> unclaimed == listed - Ids(store.kind, Prepared(store.kind, desired))
    ensures ok ==> Syncable(store.kind, old(store.records), source, Prepared(store.kind, desired))
    ensures failing == {} && Syncable(store.kind, old(store.records), source, Prepared(store.kind, desired)) ==> ok
    ensures InSync(store.kind, old(store.records), source, Prepared(store.kind, desired)) ==>
      ok && store.records == old(store.records) && store.writes == old(store.writes)
  {
    ghost var before := store.records;
    ghost var wanted := Prepared(store.kind, desired);
    ghost var inSync := InSync(store.kind, before, source, wanted);
    unclaimed := listed;
    for i := 0 to |desired|
      invariant store.Valid() && store.secrets == old(store.secrets)
      invariant Progress(store.kind, before, store.records, source, wanted[..i])
      invariant unclaimed == listed - Ids(store.kind, wanted[..i])
      invariant inSync ==> store.records == before && store.writes == old(store.writes)
    {
      var next := store.kind.prepare(desired[i]);
      var id := store.kind.id(next);
      var current := if id in unclaimed then Some(unclaimed[id]) else None;
      if inSync {
        InSyncHasUnclaimed(store.kind, before, source, wanted, i);
      }
      NextIsOwnOrFree(store.kind, before, store.records, source, wanted, i);
      ok := PutOne(store, source, next, current, before, wanted[..i], failing);
      if !ok {
        return;
      }
      ClaimNext(store.kind, listed, wanted, i);
      unclaimed := unclaimed - {id};
    }
    assert wanted[..|desired|] == wanted;
    ProgressIsSyncable(store.kind, before, store.records, source, wanted);
    ok := true;
  }

  /** In a syncable list the next definition is listed and unclaimed, or its id is free. */
  lemma NextIsOwnOrFree<D>(kind: Kind<D>, before: map<string, Record<D>>, records: map<string, Record<D>>,
                           source: string, wanted: seq<D>, i: nat)
    requires i < |wanted| && Progress(kind, before, records, source, wanted[..i])
    ensures Syncable(kind, before, source, wanted) ==>
      kind.accepts(wanted[i]) && kind.id(wanted[i]) !in Ids(kind, wanted[..i])
      && (kind.id(wanted[i]) in OfSource(before, source) || kind.id(wanted[i]) !in records)
  {
    if Syncable(kind, before, source, wanted) {
      assert wanted[i] in wanted && OwnOrFree(kind, before, source, wanted[i]);
      assert SameAt(before, records, kind.id(wanted[i]));
    }
  }

  lemma ProgressIsSyncable<D>(kind: Kind<D>, before: map<string, Record<D>>, records: map<string, Record<D>>,
                              source: string, wanted: seq<D>)
    requires Progress(kind, before, records, source, wanted)
    ensures Syncable(kind, before, source, wanted)
  {
    forall next | next in wanted ensures OwnOrFree(kind, before, source, next) {
      assert Settled(kind, records, source, next);
      assert OtherAt(before, records, source, kind.id(next));
    }
  }

  /** In a store that is in sync, the record of the next wanted definition is still unclaimed. */
  lemma InSyncHasUnclaimed<D>(kind: Kind<D>, records: map<string, Record<D>>, source: string, wanted: seq<D>, i: nat)
    requires InSync(kind, records, source, wanted) && i < |wanted|
    ensures kind.accepts(wanted[i]) && kind.id(wanted[i]) in OfSource(records, source)
    ensures kind.id(wanted[i]) !in Ids(kind, wanted[..i])
    ensures records[kind.id(wanted[i])].scope == kind.scope(wanted[i])
    ensures kind.same(records[kind.id(wanted[i])].spec, wanted[i])
  {
    assert wanted[i] in wanted && kind.id(wanted[i]) in Ids(kind, wanted);
    assert kind.id(wanted[i]) in OfSource(records, source).Keys;
  }

  /** The secrets owned by some of the records. */
  ghost function OwnedSecrets<D(!new)>(kind: Kind<D>, records: map<string, Record<D>>, ids: set<string>): set<string> {
    set id | id in ids && id in records && kind.secret(records[id].spec).Some? :: kind.secret(records[id].spec).value
  }

  lemma OwnedGrows<D(!new)>(kind: Kind<D>, records: map<string, Record<D>>, ids: set<string>, id: string)
    requires id in records
    ensures OwnedSecrets(kind, records, ids + {id}) ==
      OwnedSecrets(kind, records, ids) +
        if kind.secret(records[id].spec).Some? then {kind.secret(records[id].spec).value} else {}
  {}

  /** One round of the delete loop. */
  method RemoveOne<D(!new)>(store: ResourceStore<D>, source: string, stale: Record<D>, id: string, failing: set<nat>)
    returns (ok: bool)
    requires store.Valid() && id in store.records && store.records[id] == stale && stale.source == source
    modifies store
    ensures store.Valid() && OthersUntouched(old(store.records), store.records, source)
    ensures failing == {} ==> ok
    ensures ok ==> store.records == old(store.records) - {id}
    ensures ok ==>
      store.secrets == old(store.secrets) -
        if store.kind.secret(stale.spec).Some? then {store.kind.secret(stale.spec).value} else {}
  {
    ok := store.Delete(source, id, stale.version, failing);
    if ok {
      ok := store.DropSecret(stale.spec, failing);
    }
  }

  /** The records and secrets when all stale records but the rest are gone. */
  ghost predicate Gone<D(!new)>(kind: Kind<D>, before: map<string, Record<D>>, after: map<string, Record<D>>,
                                secrets: set<string>, left: set<string>, stale: map<string, Record<D>>,
                                rest: set<string>) {
    && after == before - (stale.Keys - rest) && left == secrets - OwnedSecrets(kind, stale, stale.Keys - rest)
    && rest <= stale.Keys && forall id :: id in rest ==> id in after && after[id] == stale[id]
  }

  lemma GoneGrows<D(!new)>(kind: Kind<D>, before: map<string, Record<D>>, records: map<string, Record<D>>,
                           secrets: set<string>, left: set<string>,
                           stale: map<string, Record<D>>, rest: set<string>, id: string)
    requires Gone(kind, before, records, secrets, left, stale, rest) && id in rest
    ensures Gone(kind, before, records - {id}, secrets,
                 left - (if kind.secret(stale[id].spec).Some? then {kind.secret(stale[id].spec).value} else {}),
                 stale, rest - {id})
    ensures |rest| == |rest - {id}| + 1
  {
    OwnedGrows(kind, stale, stale.Keys - rest, id);
    assert stale.Keys - (rest - {id}) == stale.Keys - rest + {id};
  }

  lemma NoneGone<D(!new)>(kind: Kind<D>, records: map<string, Record<D>>, secrets: set<string>,
                          stale: map<string, Record<D>>)
    requires forall id :: id in stale ==> id in records && records[id] == stale[id]
    ensures Gone(kind, records, records, secrets, secrets, stale, stale.Keys)
  {
    assert stale.Keys - stale.Keys == {};
    assert OwnedSecrets(kind, stale, {}) == {};
  }

  lemma AllGone<D(!new)>(kind: Kind<D>, before: map<string, Record<D>>, after: map<string, Record<D>>,
                         secrets: set<string>, left: set<string>, stale: map<string, Record<D>>)
    requires Gone(kind, before, after, secrets, left, stale, {})
    ensures after == before - stale.Keys && left == secrets - OwnedSecrets(kind, stale, stale.Keys)
    ensures |stale.Keys| == |stale|
  {
    assert stale.Keys - {} == stale.Keys;
  }

  /** The delete loop, in any order. */
  method RemoveAll<D(!new)>(store: ResourceStore<D>, source: string, stale: map<string, Record<D>>, failing: set<nat>)
    returns (ok: bool, removed: nat)
    requires store.Valid()
    requires forall id :: id in stale ==>
      id in store.records && store.records[id] == stale[id] && stale[id].source == source
    modifies store
    ensures store.Valid() && OthersUntouched(old(store.records), store.records, source)
    ensures failing == {} ==> ok
    ensures ok ==> store.records == old(store.records) - stale.Keys && removed == |stale|
    ensures ok ==> store.secrets == old(store.secrets) - OwnedSecrets(store.kind, stale, stale.Keys)
    ensures stale == map[] ==>
      && ok
      && store.records == old(store.records)
      && store.writes == old(store.writes)
      && store.secrets == old(store.secrets)
  {
    removed := 0;
    var rest := stale.Keys;
    NoneGone(store.kind, store.records, store.secrets, stale);
    while rest != {}
      invariant store.Valid()
      invariant Gone(store.kind, old(store.records), store.records, old(store.secrets), store.secrets, stale, rest)
      invariant OthersUntouched(old(store.records), store.records, source)
      invariant removed + |rest| == |stale.Keys|
      invariant stale == map[] ==> store.writes == old(store.writes)
      decreases |rest|
    {
      var id :| id in rest;
      ghost var records, secrets := store.records, store.secrets;
      ok := RemoveOne(store, source, stale[id], id, failing);
      OthersCompose(old(store.records), records, store.records, source);
      if !ok {
        return;
      }
      GoneGrows(store.kind, old(store.records), records, old(store.secrets), secrets, stale, rest, id);
      rest := rest - {id};
      removed := removed + 1;
    }
    AllGone(store.kind, old(store.records), store.records, old(store.secrets), store.secrets, stale);
    ok := true;
  }

  /** Reconcile one source of the versioned store. */
  method SyncResources<D(!new)>(store: ResourceStore<D>, source: string, desired: seq<D>, failing: set<nat>)
    returns (r: SyncResult)
    requires store.Valid()
    modifies store
    ensures store.Valid() && OthersUntouched(old(store.records), store.records, source)
    ensures r.Synced? ==> IsSynced(store.kind, store.records, source, Prepared(store.kind, desired))
    ensures r.Synced? ==> Syncable(store.kind, old(store.records), source, Prepared(store.kind, desired))
    ensures failing == {} && Syncable(store.kind, old(store.records), source, Prepared(store.kind, desired)) ==>
      r.Synced?
    ensures r.Synced? ==> r.synced == |desired|
    ensures r.Synced? ==>
      var stale := OfSource(old(store.records), source) - Ids(store.kind, Prepared(store.kind, desired));
      r.removed == |stale| && store.secrets == old(store.secrets) - OwnedSecrets(store.kind, stale, stale.Keys)
    ensures InSync(store.kind, old(store.records), source, Prepared(store.kind, desired)) ==>
      r.Synced? && store.records == old(store.records) && store.secrets == old(store.secrets)
        && store.writes == old(store.writes)
  {
    ghost var before := store.records;
    ghost var wanted := Prepared(store.kind, desired);
    var listed := store.ListSource(source);
    var ok, unclaimed := PutAll(store, source, desired, listed, failing);
    if !ok {
      return Failed;
    }
    ghost var put := store.records;
    UnclaimedUnchanged(store.kind, before, put, source, wanted);
    var removed;
    ok, removed := RemoveAll(store, source, unclaimed, failing);
    OthersCompose(before, put, store.records, source);
    if !ok {
      return Failed;
    }
    RemovalSyncs(store.kind, before, put, source, wanted);
    return Synced(|desired|, removed);
  }

  lemma UnclaimedUnchanged<D>(kind: Kind<D>, before: map<string, Record<D>>, put: map<string, Record<D>>,
                              source: string, wanted: seq<D>)
    requires Progress(kind, before, put, source, wanted)
    ensures var stale := OfSource(before, source) - Ids(kind, wanted);
      forall id :: id in stale ==> id in put && put[id] == stale[id] && stale[id].source == source
    ensures InSync(kind, before, source, wanted) ==> OfSource(before, source) - Ids(kind, wanted) == map[]
  {
    forall id | id in OfSource(before, source) - Ids(kind, wanted) ensures id in put && put[id] == before[id] {
      assert SameAt(before, put, id);
    }
  }

  lemma OthersCompose<D>(a: map<string, Record<D>>, b: map<string, Record<D>>, c: map<string, Record<D>>,
                         source: string)
    requires OthersUntouched(a, b, source) && OthersUntouched(b, c, source)
    ensures OthersUntouched(a, c, source)
  {
    forall id ensures OtherAt(a, c, source, id) {
      assert OtherAt(a, b, source, id) && OtherAt(b, c, source, id);
    }
  }

  lemma RemovalSyncs<D>(kind: Kind<D>, before: map<string, Record<D>>, put: map<string, Record<D>>, source: string,
                        wanted: seq<D>)
    requires Progress(kind, before, put, source, wanted)
    ensures IsSynced(kind, put - (OfSource(before, source) - Ids(kind, wanted)).Keys, source, wanted)
  {
    var after := put - (OfSource(before, source) - Ids(kind, wanted)).Keys;
    forall next | next in wanted ensures kind.accepts(next) && Settled(kind, after, source, next) {
      assert kind.id(next) in Ids(kind, wanted);
    }
    forall id ensures id in OfSource(after, source) <==> id in Ids(kind, wanted) {
      if id in Ids(kind, wanted) {
        var d :| d in wanted && kind.id(d) == id;
        assert Settled(kind, after, source, d);
      } else {
        assert SameAt(before, put, id);
      }
    }
  }

  /** A definition the store keeps as it compares. */
  ghost predicate Normalized<D>(kind: Kind<D>, wanted: seq<D>) {
    forall next :: next in wanted ==> kind.same(kind.normal(next), next)
  }

  lemma SyncedIsInSync<D>(kind: Kind<D>, records: map<string, Record<D>>, source: string, wanted: seq<D>)
    requires IsSynced(kind, records, source, wanted) && Normalized(kind, wanted)
    ensures InSync(kind, records, source, wanted)
  {
    forall next | next in wanted
      ensures kind.accepts(next) && kind.id(next) in records && records[kind.id(next)].scope == kind.scope(next)
      ensures kind.same(records[kind.id(next)].spec, next)
    {
      assert Settled(kind, records, source, next);
    }
  }

  /** A second sync of the same normalized list right after a successful one writes nothing,
      whatever store writes would fail. */
  method SyncTwice<D(!new)>(store: ResourceStore<D>, source: string, desired: seq<D>,
                            failing: set<nat>) returns (first: SyncResult, second: SyncResult)
    requires store.Valid() && Normalized(store.kind, Prepared(store.kind, desired))
    modifies store
    ensures first.Synced? ==> second.Synced? && second.synced == |desired| && second.removed == 0
    ensures first.Synced? ==> InSync(store.kind, store.records, source, Prepared(store.kind, desired))
  {
    first := SyncResources(store, source, desired, failing);
    second := first;
    if first.Synced? {
      SyncedIsInSync(store.kind, store.records, source, Prepared(store.kind, desired));
      label Between:
      second := SyncResources(store, source, desired, failing);
      assert store.writes == old@Between(store.writes) && store.records == old@Between(store.records);
      assert OfSource(old@Between(store.records), source) - Ids(store.kind, Prepared(store.kind, desired)) == map[];
    }
  }

  // ----- the plain definition store -----

  /** Definitions by id, without versions. Created ids must be free, updated and deleted ids taken. */
  class DefinitionStore<D> {
    const kind: Kind<D>
    var definitions: map<string, D>
    var writes: nat

    constructor (kind: Kind<D>)
      ensures this.kind == kind && definitions == map[] && writes == 0
    {
      this.kind := kind;
      definitions, writes := map[], 0;
    }

    method Create(d: D, failing: set<nat>) returns (ok: bool)
      modifies this
      ensures writes == old(writes) + 1
      ensures ok <==> old(writes) !in failing && kind.accepts(d) && kind.id(d) !in old(definitions)
      ensures definitions == if ok then old(definitions)[kind.id(d) := kind.normal(d)] else old(definitions)
    {
      writes := writes + 1;
      ok := writes - 1 !in failing && kind.accepts(d) && kind.id(d) !in definitions;
      if ok {
        definitions := definitions[kind.id(d) := kind.normal(d)];
      }
    }

    method Update(d: D, failing: set<nat>) returns (ok: bool)
      modifies this
      ensures writes == old(writes) + 1
      ensures ok <==> old(writes) !in failing && kind.accepts(d) && kind.id(d) in old(definitions)
      ensures definitions == if ok then old(definitions)[kind.id(d) := kind.normal(d)] else old(definitions)
    {
      writes := writes + 1;
      ok := writes - 1 !in failing && kind.accepts(d) && kind.id(d) in definitions;
      if ok {
        definitions := definitions[kind.id(d) := kind.normal(d)];
      }
    }

    method Delete(id: string, failing: set<nat>) returns (ok: bool)
      modifies this
      ensures writes == old(writes) + 1
      ensures ok <==> old(writes) !in failing && id in old(definitions)
      ensures definitions == if ok then old(definitions) - {id} else old(definitions)
    {
      writes := writes + 1;
      ok := writes - 1 !in failing && id in definitions;
      if ok {
        definitions := definitions - {id};
      }
    }
  }

  function DefinitionsOf<D>(kind: Kind<D>, definitions: map<string, D>, source: string): map<string, D> {
    map id | id in definitions && kind.source(definitions[id]) == source :: definitions[id]
  }

  /** What a run of the plain put loop leaves: a definition is written unless the listing
      taken before the loop already compares the same. */
  ghost function AfterUpserts<D(!new)>(kind: Kind<D>, listed: map<string, D>, definitions: map<string, D>,
                                       desired: seq<D>): map<string, D> {
    if desired == [] then definitions
    else
      var d := desired[|desired| - 1];
      AfterUpsert(kind, listed, AfterUpserts(kind, listed, definitions, desired[..|desired| - 1]), d)
  }

  function AfterUpsert<D>(kind: Kind<D>, listed: map<string, D>, definitions: map<string, D>, d: D): map<string, D> {
    if kind.id(d) in listed && kind.same(listed[kind.id(d)], d) then definitions
    else definitions[kind.id(d) := kind.normal(d)]
  }

  /** What is not listed stays as it is. */
  ghost predicate UnlistedKept<D>(before: map<string, D>, after: map<string, D>, listed: set<string>) {
    forall id :: id in before && id !in listed ==> id in after && after[id] == before[id]
  }

  /** Only an id that was listed may be wanted twice. */
  ghost predicate FreshIdsDistinct<D>(kind: Kind<D>, listed: map<string, D>, desired: seq<D>) {
    forall i, j :: 0 <= i < j < |desired| && kind.id(desired[i]) == kind.id(desired[j]) ==>
      kind.id(desired[i]) in listed
  }

  /** What one definition must be like for the plain put loop to take it. */
  ghost predicate Upsertable<D>(kind: Kind<D>, listed: map<string, D>, definitions: map<string, D>, d: D) {
    && kind.targetValid(d)
    && (kind.id(d) !in listed ==> kind.id(d) !in definitions)
    && (kind.accepts(d) || (kind.id(d) in listed && kind.same(listed[kind.id(d)], d)))
  }

  /** What a list must be like for its plain sync to succeed: every definition is valid, or
      compares the same as the listed one; and an id that is not listed is free, and wanted once. */
  ghost predicate PlainSyncable<D>(kind: Kind<D>, listed: map<string, D>, definitions: map<string, D>,
                                   desired: seq<D>) {
    FreshIdsDistinct(kind, listed, desired) && forall d :: d in desired ==> Upsertable(kind, listed, definitions, d)
  }

  lemma FreshIdsGrow<D>(kind: Kind<D>, listed: map<string, D>, taken: set<string>, desired: seq<D>, d: D)
    requires FreshIdsDistinct(kind, listed, desired) && Ids(kind, desired) <= taken
    requires kind.id(d) in listed || kind.id(d) !in taken
    ensures FreshIdsDistinct(kind, listed, desired + [d])
  {
    var more := desired + [d];
    forall i, j | 0 <= i < j < |more| && kind.id(more[i]) == kind.id(more[j]) ensures kind.id(more[i]) in listed {
      assert more[i] in desired && kind.id(more[i]) in Ids(kind, desired);
    }
  }

  /** The definitions after some of the list were put: all ids so far are taken. */
  ghost predicate Taken<D>(kind: Kind<D>, listed: map<string, D>, before: map<string, D>, now: map<string, D>,
                           desired: seq<D>) {
    listed.Keys <= before.Keys && now.Keys == before.Keys + Ids(kind, desired)
  }

  /** One more definition was taken by the loop. */
  lemma PlainSyncableGrows<D>(kind: Kind<D>, listed: map<string, D>, before: map<string, D>, now: map<string, D>,
                              desired: seq<D>, d: D)
    requires PlainSyncable(kind, listed, before, desired) && Taken(kind, listed, before, now, desired)
    requires Upsertable(kind, listed, now, d)
    ensures PlainSyncable(kind, listed, before, desired + [d])
  {
    FreshIdsGrow(kind, listed, now.Keys, desired, d);
    assert Upsertable(kind, listed, before, d);
  }

  lemma NextUpsertable<D>(kind: Kind<D>, listed: map<string, D>, before: map<string, D>, now: map<string, D>,
                          desired: seq<D>, i: nat)
    requires i < |desired| && Taken(kind, listed, before, now, desired[..i])
    ensures PlainSyncable(kind, listed, before, desired) ==> Upsertable(kind, listed, now, desired[i])
  {
    if PlainSyncable(kind, listed, before, desired) {
      assert desired[i] in desired && Upsertable(kind, listed, before, desired[i]);
    }
  }

  method UpsertOne<D>(store: DefinitionStore<D>, listed: map<string, D>, d: D, failing: set<nat>) returns (ok: bool)
    modifies store
    ensures ok ==> store.definitions == AfterUpsert(store.kind, listed, old(store.definitions), d)
    ensures ok ==> Upsertable(store.kind, listed, old(store.definitions), d)
    ensures failing == {} && listed.Keys <= old(store.definitions).Keys && !ok ==>
      !Upsertable(store.kind, listed, old(store.definitions), d)
    ensures UnlistedKept(old(store.definitions), store.definitions, listed.Keys)
  {
    if !store.kind.targetValid(d) {
      return false;
    }
    if store.kind.id(d) !in listed {
      ok := store.Create(d, failing);
    } else if !store.kind.same(listed[store.kind.id(d)], d) {
      ok := store.Update(d, failing);
    } else {
      ok := true;
    }
  }

  /** The state of the loop once part of the list was put. */
  ghost predicate Upserted<D(!new)>(kind: Kind<D>, listed: map<string, D>, before: map<string, D>, now: map<string, D>,
                                    claimed: set<string>, desired: seq<D>) {
    && now == AfterUpserts(kind, listed, before, desired) && claimed == Ids(kind, desired)
    && Taken(kind, listed, before, now, desired) && PlainSyncable(kind, listed, before, desired)
    && UnlistedKept(before, now, listed.Keys)
  }

  lemma UpsertedGrows<D(!new)>(kind: Kind<D>, listed: map<string, D>, before: map<string, D>, now: map<string, D>,
                               claimed: set<string>, desired: seq<D>, i: nat)
    requires i < |desired| && Upserted(kind, listed, before, now, claimed, desired[..i])
    requires Upsertable(kind, listed, now, desired[i])
    ensures Upserted(kind, listed, before, AfterUpsert(kind, listed, now, desired[i]), claimed + {kind.id(desired[i])},
                     desired[..i + 1])
  {
    IdsOfPrefix(kind, desired, i);
    PlainSyncableGrows(kind, listed, before, now, desired[..i], desired[i]);
    assert desired[..i + 1][..i] == desired[..i];
  }

  method UpsertAll<D(!new)>(store: DefinitionStore<D>, listed: map<string, D>, desired: seq<D>,
                            failing: set<nat>) returns (ok: bool, claimed: set<string>)
    requires listed.Keys <= store.definitions.Keys
    modifies store
    ensures ok ==> store.definitions == AfterUpserts(store.kind, listed, old(store.definitions), desired)
    ensures ok ==> claimed == Ids(store.kind, desired) && old(store.definitions).Keys <= store.definitions.Keys
    ensures ok ==> PlainSyncable(store.kind, listed, old(store.definitions), desired)
    ensures failing == {} && PlainSyncable(store.kind, listed, old(store.definitions), desired) ==> ok
    ensures UnlistedKept(old(store.definitions), store.definitions, listed.Keys)
  {
    claimed := {};
    ghost var before := store.definitions;
    for i := 0 to |desired|
      invariant Upserted(store.kind, listed, before, store.definitions, claimed, desired[..i])
    {
      ghost var now := store.definitions;
      NextUpsertable(store.kind, listed, before, now, desired, i);
      ok := UpsertOne(store, listed, desired[i], failing);
      if !ok {
        return;
      }
      UpsertedGrows(store.kind, listed, before, now, claimed, desired, i);
      claimed := claimed + {store.kind.id(desired[i])};
    }
    assert desired[..|desired|] == desired;
    ok := true;
  }

  /** Reconcile one source of the plain store; the desired definitions carry that source.
      Definitions of other sources stay, whether or not the sync succeeds. */
  method SyncDefinitions<D(!new)>(store: DefinitionStore<D>, source: string, desired: seq<D>, failing: set<nat>)
    returns (r: SyncResult)
    requires forall d :: d in desired ==> store.kind.source(d) == source
    modifies store
    ensures r.Synced? ==> var listed := DefinitionsOf(store.kind, old(store.definitions), source);
      && store.definitions ==
         AfterUpserts(store.kind, listed, old(store.definitions), desired) - (listed.Keys - Ids(store.kind, desired))
      && r.synced == |desired| && r.removed == |listed.Keys - Ids(store.kind, desired)|
      && PlainSyncable(store.kind, listed, old(store.definitions), desired)
    ensures failing == {} && !r.Synced? ==>
      !PlainSyncable(store.kind, DefinitionsOf(store.kind, old(store.definitions), source), old(store.definitions),
                     desired)
    ensures UnlistedKept(old(store.definitions), store.definitions,
                         DefinitionsOf(store.kind, old(store.definitions), source).Keys)
  {
    var listed := DefinitionsOf(store.kind, store.definitions, source);
    var ok, claimed := UpsertAll(store, listed, desired, failing);
    if !ok {
      return Failed;
    }
    var stale := listed.Keys - claimed;
    ok := DeleteAll(store, stale, failing);
    if !ok {
      return Failed;
    }
    return Synced(|desired|, |stale|);
  }

  method DeleteAll<D(!new)>(store: DefinitionStore<D>, stale: set<string>, failing: set<nat>) returns (ok: bool)
    requires stale <= store.definitions.Keys
    modifies store
    ensures failing == {} ==> ok
    ensures ok ==> store.definitions == old(store.definitions) - stale
    ensures UnlistedKept(old(store.definitions), store.definitions, stale)
  {
    var rest := stale;
    while rest != {}
      invariant rest <= stale && store.definitions == old(store.definitions) - (stale - rest)
      decreases |rest|
    {
      var id :| id in rest;
      ok := store.Delete(id, failing);
      if !ok {
        return;
      }
      rest := rest - {id};
    }
    ok := true;
  }

  // ----- what the plain sync achieves -----

  /** The comparison is equality of meaning, whenever its left side is full. */
  ghost predicate ComparesMeaning<D(!new)>(kind: Kind<D>, full: D -> bool, meaning: D -> D) {
    forall a, b :: full(a) ==> (kind.same(a, b) <==> meaning(a) == meaning(b))
  }

  ghost predicate Holds<D>(kind: Kind<D>, definitions: map<string, D>, d: D) {
    kind.id(d) in definitions && kind.same(definitions[kind.id(d)], d)
  }

  /** Definitions wanted under one id that compare the same. */
  ghost predicate Consistent<D>(kind: Kind<D>, desired: seq<D>) {
    forall i, j :: 0 <= i < |desired| && 0 <= j < |desired| && kind.id(desired[i]) == kind.id(desired[j]) ==>
      kind.same(desired[i], desired[j])
  }

  /** Where the definition stored under a wanted id comes from. */
  lemma {:induction false} UpsertOrigin<D(!new)>(kind: Kind<D>, listed: map<string, D>, definitions: map<string, D>,
                                                 desired: seq<D>, i: nat) returns (k: nat)
    requires i < |desired| && forall id :: id in listed ==> id in definitions && definitions[id] == listed[id]
    ensures var id, after := kind.id(desired[i]), AfterUpserts(kind, listed, definitions, desired);
      id in after && k < |desired| && kind.id(desired[k]) == id
      && (after[id] == kind.normal(desired[k])
          || (id in listed && after[id] == listed[id] && kind.same(listed[id], desired[i])))
  {
    var last := |desired| - 1;
    var init := desired[..last];
    var id := kind.id(desired[i]);
    if i < last {
      k := UpsertOrigin(kind, listed, definitions, init, i);
      if kind.id(desired[last]) == id && !(id in listed && kind.same(listed[id], desired[last])) {
        k := last;
      }
    } else if !(id in listed && kind.same(listed[id], desired[last])) {
      k := last;
    } else if j :| 0 <= j < last && kind.id(desired[j]) == id {
      k := UpsertOrigin(kind, listed, definitions, init, j);
    } else {
      k := last;
      UnwantedUntouched(kind, listed, definitions, init, id);
    }
  }

  lemma {:induction false} UnwantedUntouched<D(!new)>(kind: Kind<D>, listed: map<string, D>,
                                                      definitions: map<string, D>, desired: seq<D>, id: string)
    requires forall j :: 0 <= j < |desired| ==> kind.id(desired[j]) != id
    ensures var after := AfterUpserts(kind, listed, definitions, desired);
      (id in after <==> id in definitions) && (id in after ==> after[id] == definitions[id])
  {
    if desired != [] {
      UnwantedUntouched(kind, listed, definitions, desired[..|desired| - 1], id);
    }
  }

  /** A successful plain sync holds every wanted definition exactly when the list does not
      contradict itself: definitions wanted under one id compare the same. */
  lemma PlainSyncHoldsAll<D(!new)>(kind: Kind<D>, full: D -> bool, meaning: D -> D, listed: map<string, D>,
                                   definitions: map<string, D>, desired: seq<D>)
    requires ComparesMeaning(kind, full, meaning) && Normalized(kind, desired)
    requires forall id :: id in listed ==> id in definitions && definitions[id] == listed[id] && full(listed[id])
    requires forall d :: d in desired ==> full(d) && full(kind.normal(d))
    ensures (forall d :: d in desired ==> Holds(kind, AfterUpserts(kind, listed, definitions, desired), d))
        <==> Consistent(kind, desired)
  {
    var after := AfterUpserts(kind, listed, definitions, desired);
    if Consistent(kind, desired) {
      forall d | d in desired ensures Holds(kind, after, d) {
        var i :| 0 <= i < |desired| && desired[i] == d;
        var k := UpsertOrigin(kind, listed, definitions, desired, i);
        assert desired[k] in desired;
        assert kind.same(kind.normal(desired[k]), desired[k]) && kind.same(desired[k], desired[i]);
      }
    }
    if forall d :: d in desired ==> Holds(kind, after, d) {
      forall i, j | 0 <= i < |desired| && 0 <= j < |desired| && kind.id(desired[i]) == kind.id(desired[j])
        ensures kind.same(desired[i], desired[j])
      {
        var k := UpsertOrigin(kind, listed, definitions, desired, i);
        assert desired[i] in desired && desired[j] in desired && desired[k] in desired;
        assert Holds(kind, after, desired[i]) && Holds(kind, after, desired[j]);
      }
    }
  }

  // ----- jobs and triggers -----

  function ResourceScope(scope: string, workspaceId: string): string {
    if scope == "workspace" then "workspace/" + TrimSpace(workspaceId) else "global"
  }

  function JobKind(targetValid: Job -> bool, accepts: Job -> bool, normal: Job -> Job): Kind<Job> {
    Kind((j: Job) => j.id, (j: Job) => ResourceScope(j.scope, j.workspaceId), (j: Job) => j.source,
         (j: Job) => j.(source := TrimSpace(j.source)), targetValid, accepts, normal,
         (a: Job, b: Job) => SameJob(a, b), (j: Job) => None)
  }

  predicate IsWebhook(t: Trigger) {
    Lower(TrimSpace(t.event)) == "webhook"
  }

  function WithWebhookId(t: Trigger, stableId: string -> string): Trigger {
    if IsWebhook(t) && TrimSpace(t.webhookId) == "" then t.(webhookId := stableId(t.id)) else t
  }

  function OwnedSecret(t: Trigger): Option<string> {
    var ref := "vault:automation/triggers/" + TrimSpace(t.id) + "/webhook-secret";
    if TrimSpace(t.id) != "" && TrimSpace(t.secretRef) == ref then Some(ref) else None
  }

  function TriggerKind(targetValid: Trigger -> bool, accepts: Trigger -> bool, normal: Trigger -> Trigger,
                       stableId: string -> string): Kind<Trigger> {
    Kind((t: Trigger) => t.id, (t: Trigger) => ResourceScope(t.scope, t.workspaceId), (t: Trigger) => t.source,
         (t: Trigger) => WithWebhookId(t, stableId), targetValid, accepts, normal,
         (a: Trigger, b: Trigger) => SameTrigger(a, b),
         (t: Trigger) => OwnedSecret(t))
  }

  /** After a successful sync the stored jobs say what the wanted ones say. */
  lemma SyncedJobsMeanWanted(kind: Kind<Job>, records: map<string, Record<Job>>, source: string, wanted: seq<Job>)
    requires kind == JobKind(kind.targetValid, kind.accepts, kind.normal)
    requires IsSynced(kind, records, source, wanted) && Normalized(kind, wanted)
    requires forall id :: id in records ==> FullLoopTarget(records[id].spec.loopTarget)
    ensures forall next :: next in wanted ==>
      next.id in records && JobMeaning(records[next.id].spec) == JobMeaning(next)
  {
    SyncedIsInSync(kind, records, source, wanted);
    forall next | next in wanted ensures next.id in records && JobMeaning(records[next.id].spec) == JobMeaning(next) {
      SameJobIsSameMeaning(records[next.id].spec, next);
    }
  }

  /** The same for triggers, whose filters hold no empty value. */
  lemma SyncedTriggersMeanWanted(kind: Kind<Trigger>, stableId: string -> string, records: map<string, Record<Trigger>>,
                                 source: string, wanted: seq<Trigger>)
    requires kind == TriggerKind(kind.targetValid, kind.accepts, kind.normal, stableId)
    requires IsSynced(kind, records, source, wanted) && Normalized(kind, wanted)
    requires forall id :: id in records ==> FullLoopTarget(records[id].spec.loopTarget)
                                            && forall k :: k in records[id].spec.filter ==>
                                                 records[id].spec.filter[k] != ""
    ensures forall next :: next in wanted ==>
      next.id in records && TriggerMeaning(records[next.id].spec) == TriggerMeaning(next)
  {
    SyncedIsInSync(kind, records, source, wanted);
    forall next | next in wanted
      ensures next.id in records && TriggerMeaning(records[next.id].spec) == TriggerMeaning(next)
    {
      SameTriggerIsSameMeaning(records[next.id].spec, next);
    }
  }

  /** The plain sync of jobs: what PlainSyncHoldsAll says, for the comparison the code uses. */
  lemma PlainSyncOfJobs(kind: Kind<Job>, listed: map<string, Job>, definitions: map<string, Job>, desired: seq<Job>)
    requires kind == JobKind(kind.targetValid, kind.accepts, kind.normal) && Normalized(kind, desired)
    requires forall id :: id in listed ==>
      id in definitions && definitions[id] == listed[id] && FullLoopTarget(listed[id].loopTarget)
    requires forall j :: j in desired ==> FullLoopTarget(j.loopTarget) && FullLoopTarget(kind.normal(j).loopTarget)
    ensures (forall j :: j in desired ==> Holds(kind, AfterUpserts(kind, listed, definitions, desired), j)) <==>
            (forall i, j :: 0 <= i < |desired| && 0 <= j < |desired| && desired[i].id == desired[j].id ==>
              JobMeaning(desired[i]) == JobMeaning(desired[j]))
  {
    var full, meaning := (j: Job) => FullLoopTarget(j.loopTarget), (j: Job) => JobMeaning(j);
    forall a, b | full(a) ensures kind.same(a, b) <==> meaning(a) == meaning(b) {
      SameJobIsSameMeaning(a, b);
    }
    PlainSyncHoldsAll(kind, full, meaning, listed, definitions, desired);
    assert forall i :: 0 <= i < |desired| ==> desired[i] in desired;
  }

  /** A list the plain sync takes and does not meet: it changes one stored job twice, and the
      second change is all that is left. */
  lemma ContradictingListNotMet(kind: Kind<Job>, stored: Job, first: Job, second: Job)
    requires kind == JobKind(kind.targetValid, kind.accepts, kind.normal)
    requires forall j :: j in [first, second] ==> kind.targetValid(j) && kind.accepts(j) && kind.normal(j) == j
    requires first == stored.(prompt := "one") && second == stored.(prompt := "two") && stored.prompt == ""
    ensures var before := map[stored.id := stored];
      && PlainSyncable(kind, before, before, [first, second])
      && AfterUpserts(kind, before, before, [first, second]) == map[stored.id := second]
      && !Holds(kind, map[stored.id := second], first)
  {
    var before := map[stored.id := stored];
    assert first.prompt[0] != second.prompt[0];
    assert !SameJob(second, first);
    assert [first, second][..1] == [first];
    assert AfterUpserts(kind, before, before, []) == before;
    assert AfterUpserts(kind, before, before, [first]) == map[stored.id := first] by {
      assert [first][..0] == [];
    }
  }
}
