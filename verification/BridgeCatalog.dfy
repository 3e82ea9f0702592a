/** The bridge catalog: filtering, facets and pages over lean persisted records. */
module BridgeCatalog {
  import opened Ordering
  import opened Keyset
  import opened Text

  datatype Scope = Global | Workspace | UnknownScope
  datatype ScopeFilter = AllScopes | GlobalOnly | WorkspaceOnly

  const STATUS_DISABLED := "disabled"
  const STATUS_STARTING := "starting"
  const STATUS_READY := "ready"
  const STATUS_DEGRADED := "degraded"
  const STATUS_AUTH_REQUIRED := "auth_required"
  const STATUS_ERROR := "error"
  const STATUSES: set<string> :=
    {STATUS_DISABLED, STATUS_STARTING, STATUS_READY, STATUS_DEGRADED, STATUS_AUTH_REQUIRED, STATUS_ERROR}

  /** A normalized record: every text field is already trimmed. */
  datatype Record = Record(id: string, scope: Scope, workspaceId: string, platform: string, extension: string,
                           displayName: string, enabled: bool, status: string)
  datatype Item = Item(record: Record, effective: string)

  /** A query as it comes in. */
  datatype Query = Query(scope: string, workspaceId: string, search: string, platform: string, status: string,
                         sort: string, limit: int)

  /** The normalized part of a query a cursor is bound to. */
  datatype Filter = Filter(scope: ScopeFilter, workspaceId: string, search: string, platform: string, status: string)
  datatype Cursor = NoCursor | Malformed | CursorAt(filter: Filter, position: Position)
  datatype Facets = Facets(platforms: map<string, nat>, statuses: map<string, nat>)
  datatype CatalogPage = CatalogPage(page: Page<Item>, facets: Facets)
  datatype CatalogResult = Ok(value: CatalogPage) | InvalidQuery | InvalidCursor

  // ----- one record -----

  function EffectiveStatus(record: Record, statuses: map<string, string>): string {
    if !record.enabled || record.status == STATUS_DISABLED then STATUS_DISABLED
    else if record.status == STATUS_AUTH_REQUIRED then STATUS_AUTH_REQUIRED
    else if record.id in statuses && statuses[record.id] in {STATUS_ERROR, STATUS_DEGRADED} then
      statuses[record.id]
    else record.status
  }

  predicate InScope(record: Record, filter: Filter) {
    match filter.scope
    case GlobalOnly => record.scope == Global
    case WorkspaceOnly => record.scope == Workspace && record.workspaceId == filter.workspaceId
    case AllScopes =>
      filter.workspaceId == "" || record.scope == Global
      || (record.scope == Workspace && record.workspaceId == filter.workspaceId)
  }

  predicate Matches(item: Item, filter: Filter) {
    && InScope(item.record, filter)
    && (filter.platform == "" || Lower(item.record.platform) == filter.platform)
    && (filter.status == "" || item.effective == filter.status)
    && (filter.search == ""
        || Contains(Lower(item.record.displayName), filter.search)
        || Contains(Lower(item.record.platform), filter.search)
        || Contains(Lower(item.record.extension), filter.search)
        || Contains(Lower(item.effective), filter.search))
  }

  function Rank(scope: Scope): nat {
    match scope
    case Global => 0
    case Workspace => 1
    case UnknownScope => 2
  }

  function PositionOf(item: Item): Position {
    Position(Rank(item.record.scope), Lower(item.record.displayName), item.record.id)
  }

  // ----- the matching items -----

  ghost function Matching(records: seq<Record>, statuses: map<string, string>, filter: Filter): seq<Item> {
    if records == [] then []
    else
      var last := records[|records| - 1];
      var item := Item(last, EffectiveStatus(last, statuses));
      Matching(records[..|records| - 1], statuses, filter) + (if Matches(item, filter) then [item] else [])
  }

  lemma {:induction false} MatchingMembers(records: seq<Record>, statuses: map<string, string>, filter: Filter)
    ensures forall x :: x in Matching(records, statuses, filter) <==>
      x.record in records && x.effective == EffectiveStatus(x.record, statuses) && Matches(x, filter)
  {
    if records != [] {
      MatchingMembers(records[..|records| - 1], statuses, filter);
      assert records == records[..|records| - 1] + [records[|records| - 1]];
    }
  }

  ghost predicate DistinctIds(records: seq<Record>) {
    forall i, j :: 0 <= i < j < |records| ==> records[i].id != records[j].id
  }

  lemma {:induction false} MatchingPositionsDistinct(records: seq<Record>, statuses: map<string, string>,
                                                     filter: Filter)
    requires DistinctIds(records)
    ensures DistinctPositions(Matching(records, statuses, filter), PositionOf)
  {
    if records != [] {
      var init, last := records[..|records| - 1], records[|records| - 1];
      MatchingPositionsDistinct(init, statuses, filter);
      MatchingMembers(init, statuses, filter);
      var items := Matching(init, statuses, filter);
      forall k | 0 <= k < |items| ensures items[k].record.id != last.id {
        assert items[k] in items;
        var j :| 0 <= j < |init| && init[j] == items[k].record;
        assert records[j].id != records[|records| - 1].id;
      }
    }
  }

  // ----- facets -----

  function CountOf(counts: map<string, nat>, key: string): nat {
    if key in counts then counts[key] else 0
  }

  ghost function Tally(items: seq<Item>, key: Item -> string, value: string): nat {
    if items == [] then 0
    else Tally(items[..|items| - 1], key, value) + (if key(items[|items| - 1]) == value then 1 else 0)
  }

  function StatusKey(): Item -> string {
    (item: Item) => item.effective
  }

  function PlatformKey(): Item -> string {
    (item: Item) => Lower(item.record.platform)
  }

  ghost function Sum(counts: map<string, nat>): nat {
    if counts == map[] then 0
    else
      var k :| k in counts;
      counts[k] + Sum(counts - {k})
  }

  lemma {:induction false} SumWithout(counts: map<string, nat>, k: string)
    requires k in counts
    ensures Sum(counts) == counts[k] + Sum(counts - {k})
    decreases |counts|
  {
    var j :| j in counts && Sum(counts) == counts[j] + Sum(counts - {j});
    if j != k {
      SumWithout(counts - {j}, k);
      SumWithout(counts - {k}, j);
      assert counts - {j} - {k} == counts - {k} - {j};
    }
  }

  lemma SumIncrement(counts: map<string, nat>, k: string)
    ensures Sum(counts[k := CountOf(counts, k) + 1]) == Sum(counts) + 1
  {
    var next := counts[k := CountOf(counts, k) + 1];
    SumWithout(next, k);
    if k in counts {
      SumWithout(counts, k);
      assert next - {k} == counts - {k};
    } else {
      assert next - {k} == counts;
    }
  }

  /** One more item counted under its key. */
  lemma CountsGrow(counts: map<string, nat>, items: seq<Item>, i: nat, key: Item -> string, next: map<string, nat>)
    requires i < |items| && forall v :: CountOf(counts, v) == Tally(items[..i], key, v)
    requires next == counts[key(items[i]) := CountOf(counts, key(items[i])) + 1]
    ensures forall v :: CountOf(next, v) == Tally(items[..i + 1], key, v)
  {
    assert items[..i + 1][..i] == items[..i];
  }

  method CountFacets(items: seq<Item>) returns (facets: Facets)
    ensures forall s :: CountOf(facets.statuses, s) == Tally(items, StatusKey(), s)
    ensures forall p :: CountOf(facets.platforms, p) == if p == "" then 0 else Tally(items, PlatformKey(), p)
    ensures Sum(facets.statuses) == |items|
  {
    var platforms: map<string, nat>, statuses: map<string, nat> := map[], map[];
    for i := 0 to |items|
      invariant forall s :: CountOf(statuses, s) == Tally(items[..i], StatusKey(), s)
      invariant forall p :: CountOf(platforms, p) == if p == "" then 0 else Tally(items[..i], PlatformKey(), p)
      invariant Sum(statuses) == i
    {
      assert items[..i + 1][..i] == items[..i];
      ghost var before := statuses;
      var platform := Lower(items[i].record.platform);
      if platform != "" {
        platforms := platforms[platform := CountOf(platforms, platform) + 1];
      }
      SumIncrement(statuses, items[i].effective);
      statuses := statuses[items[i].effective := CountOf(statuses, items[i].effective) + 1];
      CountsGrow(before, items, i, StatusKey(), statuses);
    }
    assert items[..|items|] == items;
    facets := Facets(platforms, statuses);
  }

  // ----- the page -----

  const DEFAULT_LIMIT: nat := 50
  const MAX_LIMIT: nat := 200

  function Plain(s: string): string {
    Lower(TrimSpace(s))
  }

  /** A query the catalog accepts; empty scope, sort and status and a zero limit take their defaults. */
  predicate QueryValid(query: Query) {
    && Plain(query.scope) in {"", "all", "global", "workspace"}
    && (Plain(query.scope) == "global" ==> TrimSpace(query.workspaceId) == "")
    && (Plain(query.scope) == "workspace" ==> TrimSpace(query.workspaceId) != "")
    && (Plain(query.status) == "" || Plain(query.status) in STATUSES)
    && Plain(query.sort) in {"", "name"}
    && 0 <= query.limit <= MAX_LIMIT
  }

  function ScopeOf(scope: string): ScopeFilter {
    match scope
    case "global" => GlobalOnly
    case "workspace" => WorkspaceOnly
    case _ => AllScopes
  }

  function FilterOf(query: Query): Filter {
    Filter(ScopeOf(Plain(query.scope)), TrimSpace(query.workspaceId), Plain(query.search), Plain(query.platform),
           Plain(query.status))
  }

  function LimitOf(query: Query): nat {
    if query.limit <= 0 then DEFAULT_LIMIT else query.limit
  }

  method NormalizeQuery(query: Query) returns (r: Option<(Filter, nat)>)
    ensures r.Some? <==> QueryValid(query)
    ensures r.Some? ==> r.value == (FilterOf(query), LimitOf(query)) && 1 <= r.value.1 <= MAX_LIMIT
  {
    var scope, workspaceId, status, sort, limit :=
      Plain(query.scope), TrimSpace(query.workspaceId), Plain(query.status), Plain(query.sort), query.limit;
    if scope == "" {
      scope := "all";
    }
    if sort == "" {
      sort := "name";
    }
    if limit == 0 {
      limit := DEFAULT_LIMIT;
    }
    if scope !in {"all", "global", "workspace"} {
      return None;
    }
    if (scope == "global" && workspaceId != "") || (scope == "workspace" && workspaceId == "") {
      return None;
    }
    if (status != "" && status !in STATUSES) || sort != "name" || limit < 1 || limit > MAX_LIMIT {
      return None;
    }
    var filter := Filter(ScopeOf(scope), workspaceId, Plain(query.search), Plain(query.platform), status);
    return Some((filter, limit));
  }

  function CursorPosition(cursor: Cursor): Option<Position> {
    if cursor.CursorAt? then Some(cursor.position) else None
  }

  /** A cursor is usable when it was issued for the same filter and names a complete position. */
  predicate CursorUsable(cursor: Cursor, filter: Filter) {
    match cursor
    case NoCursor => true
    case Malformed => false
    case CursorAt(f, position) => f == filter && position.id != "" && position.name != "" && position.rank < 2
  }

  method BuildPage(records: seq<Record>, statuses: map<string, string>, query: Query, cursor: Cursor)
    returns (r: CatalogResult)
    ensures r.InvalidQuery? <==> !QueryValid(query)
    ensures r.InvalidCursor? <==> QueryValid(query) && !CursorUsable(cursor, FilterOf(query))
    ensures r.Ok? ==>
      var matching := Matching(records, statuses, FilterOf(query));
      && IsPage(matching, PositionOf, CursorPosition(cursor), LimitOf(query), r.value.page)
      && (forall s :: CountOf(r.value.facets.statuses, s) == Tally(Listing(matching, PositionOf), StatusKey(), s))
      && (forall p :: CountOf(r.value.facets.platforms, p)
                      == if p == "" then 0 else Tally(Listing(matching, PositionOf), PlatformKey(), p))
      && Sum(r.value.facets.statuses) == r.value.page.total
  {
    var normalized := NormalizeQuery(query);
    if normalized.None? {
      return InvalidQuery;
    }
    var (filter, limit) := normalized.value;
    var items: seq<Item> := [];
    for i := 0 to |records|
      invariant items == Matching(records[..i], statuses, filter)
    {
      assert records[..i + 1][..i] == records[..i];
      var item := Item(records[i], EffectiveStatus(records[i], statuses));
      if Matches(item, filter) {
        items := items + [item];
      }
    }
    assert records[..|records|] == records;
    if !CursorUsable(cursor, filter) {
      return InvalidCursor;
    }
    var page := CutPage(items, PositionOf, CursorPosition(cursor), limit);
    var facets := CountFacets(Listing(items, PositionOf));
    PermutationFacts(items, Listing(items, PositionOf));
    r := Ok(CatalogPage(page, facets));
  }

  // ----- walks -----

  datatype Snapshot = Snapshot(records: seq<Record>, statuses: map<string, string>)

  /** What a valid catalog row promises. */
  ghost predicate ValidSnapshot(s: Snapshot) {
    DistinctIds(s.records)
    && forall r :: r in s.records ==> r.id != "" && r.displayName != "" && r.scope != UnknownScope
  }

  /** The cursor a page hands out is accepted with the next query. */
  lemma IssuedCursorIsUsable(s: Snapshot, filter: Filter, cursor: Option<Position>, limit: nat, page: Page<Item>)
    requires ValidSnapshot(s) && 1 <= limit <= MAX_LIMIT
    requires IsPage(Matching(s.records, s.statuses, filter), PositionOf, cursor, limit, page) && page.next.Some?
    ensures CursorUsable(CursorAt(filter, page.next.value), filter)
  {
    MatchingPositionsDistinct(s.records, s.statuses, filter);
    PageFacts(Matching(s.records, s.statuses, filter), PositionOf, cursor, limit, page);
    MatchingMembers(s.records, s.statuses, filter);
    var last := page.items[|page.items| - 1];
    assert last in page.items;
  }

  ghost function Collections(snapshots: seq<Snapshot>, filter: Filter): (r: seq<seq<Item>>)
    ensures |r| == |snapshots|
    ensures forall i :: 0 <= i < |r| ==> r[i] == Matching(snapshots[i].records, snapshots[i].statuses, filter)
  {
    seq(|snapshots|, i requires 0 <= i < |snapshots| => Matching(snapshots[i].records, snapshots[i].statuses, filter))
  }

  /** A record keeps matching in a snapshot, at position p. */
  ghost predicate Present(s: Snapshot, filter: Filter, p: Position) {
    exists r :: r in s.records && Matches(Item(r, EffectiveStatus(r, s.statuses)), filter)
      && PositionOf(Item(r, EffectiveStatus(r, s.statuses))) == p
  }

  /** Bridges inserted, deleted or changed between the pages do not make the walk lose or
      repeat a bridge that stays, matching and under the same scope, name and id. */
  lemma StableBridgeListedOnce(snapshots: seq<Snapshot>, pages: seq<Page<Item>>, filter: Filter, limit: nat,
                               p: Position)
    requires limit >= 1 && IsWalk(Collections(snapshots, filter), pages, PositionOf, limit, None)
    requires forall i :: 0 <= i < |snapshots| ==> ValidSnapshot(snapshots[i]) && Present(snapshots[i], filter, p)
    ensures exists k :: 0 <= k < |Concat(pages)| && PositionOf(Concat(pages)[k]) == p
                     && forall l :: 0 <= l < |Concat(pages)| && PositionOf(Concat(pages)[l]) == p ==> l == k
  {
    var collections := Collections(snapshots, filter);
    forall i | 0 <= i < |collections|
      ensures DistinctPositions(collections[i], PositionOf) && HasPosition(collections[i], PositionOf, p)
    {
      var s := snapshots[i];
      MatchingPositionsDistinct(s.records, s.statuses, filter);
      MatchingMembers(s.records, s.statuses, filter);
      assert Present(s, filter, p);
      var r :| r in s.records && Matches(Item(r, EffectiveStatus(r, s.statuses)), filter)
        && PositionOf(Item(r, EffectiveStatus(r, s.statuses))) == p;
      assert Item(r, EffectiveStatus(r, s.statuses)) in collections[i];
    }
    StableRecordAppearsOnce(collections, pages, PositionOf, limit, p);
  }

  /** When nothing changes, the pages of a walk are exactly the matching bridges in order. */
  lemma UnchangedBridgesListed(s: Snapshot, snapshots: seq<Snapshot>, pages: seq<Page<Item>>, filter: Filter,
                               limit: nat)
    requires limit >= 1 && ValidSnapshot(s) && forall i :: 0 <= i < |snapshots| ==> snapshots[i] == s
    requires IsWalk(Collections(snapshots, filter), pages, PositionOf, limit, None)
    ensures Concat(pages) == Listing(Matching(s.records, s.statuses, filter), PositionOf)
    ensures StrictlyAscending(Concat(pages), PositionOf)
  {
    var items := Matching(s.records, s.statuses, filter);
    MatchingPositionsDistinct(s.records, s.statuses, filter);
    WalkOfUnchanged(items, Collections(snapshots, filter), pages, PositionOf, limit, None, 0);
    ListingAscends(items, PositionOf);
    assert Listing(items, PositionOf)[0..] == Listing(items, PositionOf);
  }
}
