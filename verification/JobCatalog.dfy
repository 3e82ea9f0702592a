/** The catalog of projected jobs or triggers: an unordered map of definitions with
    enabled overrides, listed in pages by source, name and id. */
module JobCatalog {
  import opened Ordering
  import opened Keyset
  import opened Text

  datatype Source = Config | Package | Dynamic | OtherSource

  /** A job or trigger; body holds what the listing does not look at. */
  datatype Definition<+B> = Definition(id: string, source: Source, name: string, enabled: bool, body: B)
  datatype Candidate = Candidate(id: string, source: Source, name: string)

  /** What one request reads: the projected definitions and the stored enabled overrides. */
  datatype Snapshot<B> = Snapshot(projected: map<string, Definition<B>>, overrides: map<string, bool>)

  predicate OverlayManaged(source: Source) {
    source == Config || source == Package
  }

  function Effective<B>(s: Snapshot<B>, d: Definition<B>): Definition<B> {
    if d.id in s.overrides && OverlayManaged(d.source) then d.(enabled := s.overrides[d.id]) else d
  }

  function CandidateOf<B>(d: Definition<B>): Candidate {
    Candidate(d.id, d.source, d.name)
  }

  function SourceRank(source: Source): nat {
    match source
    case Config => 0
    case Package => 1
    case Dynamic => 2
    case OtherSource => 3
  }

  function PositionOf(c: Candidate): Position {
    Position(SourceRank(c.source), c.name, c.id)
  }

  /** The projection keys every definition by its id. */
  ghost predicate KeyedById<B>(s: Snapshot<B>) {
    forall k :: k in s.projected ==> s.projected[k].id == k
  }

  ghost predicate Listed<B>(s: Snapshot<B>, matches: Definition<B> -> bool, c: Candidate) {
    c.id in s.projected && c == CandidateOf(s.projected[c.id]) && matches(Effective(s, s.projected[c.id]))
  }

  /** The listed candidates, each once, in some order. */
  ghost predicate IsCollection<B(!new)>(items: seq<Candidate>, s: Snapshot<B>, matches: Definition<B> -> bool) {
    Distinct(items) && forall c :: c in items <==> Listed(s, matches, c)
  }

  lemma CollectionPositionsDistinct<B(!new)>(items: seq<Candidate>, s: Snapshot<B>, matches: Definition<B> -> bool)
    requires IsCollection(items, s, matches)
    ensures DistinctPositions(items, PositionOf)
  {
    forall i, j | 0 <= i < j < |items| ensures PositionOf(items[i]) != PositionOf(items[j]) {
      assert items[i] in items && items[j] in items;
      assert Listed(s, matches, items[i]) && Listed(s, matches, items[j]);
    }
  }

  lemma {:induction false} SameElementsPermute<T>(a: seq<T>, b: seq<T>)
    requires Distinct(a) && Distinct(b) && forall x :: x in a <==> x in b
    ensures multiset(a) == multiset(b)
  {
    forall x ensures multiset(a)[x] == multiset(b)[x] {
      DistinctCountsOne(a, x);
      DistinctCountsOne(b, x);
      assert x in a <==> x in multiset(a);
      assert x in b <==> x in multiset(b);
    }
  }

  /** The page does not depend on the order in which the map is walked. */
  lemma PageIndependentOfMapOrder<B(!new)>(items: seq<Candidate>, items': seq<Candidate>, s: Snapshot<B>,
                                           matches: Definition<B> -> bool,
                                           cursor: Option<Position>, limit: nat, page: Page<Candidate>)
    requires IsCollection(items, s, matches) && IsCollection(items', s, matches)
    requires IsPage(items, PositionOf, cursor, limit, page)
    ensures IsPage(items', PositionOf, cursor, limit, page)
  {
    CollectionPositionsDistinct(items, s, matches);
    SameElementsPermute(items, items');
    ListingIndependentOfOrder(items, items', PositionOf);
    PermutationFacts(items, items');
  }

  /** The page of a snapshot, whatever the order of its map. */
  ghost predicate IsCatalogPage<B(!new)>(s: Snapshot<B>, matches: Definition<B> -> bool, cursor: Option<Position>,
                                         limit: nat, page: Page<Candidate>) {
    forall items: seq<Candidate> :: IsCollection(items, s, matches) ==> IsPage(items, PositionOf, cursor, limit, page)
  }

  method CollectCandidates<B(!new)>(s: Snapshot<B>, matches: Definition<B> -> bool) returns (items: seq<Candidate>)
    requires KeyedById(s)
    ensures IsCollection(items, s, matches)
  {
    items := [];
    var rest := s.projected.Keys;
    while rest != {}
      invariant rest <= s.projected.Keys
      invariant Distinct(items)
      invariant forall c :: c in items <==> Listed(s, matches, c) && c.id !in rest
      decreases |rest|
    {
      var k :| k in rest;
      if matches(Effective(s, s.projected[k])) {
        assert Listed(s, matches, CandidateOf(s.projected[k]));
        items := items + [CandidateOf(s.projected[k])];
      }
      rest := rest - {k};
    }
  }

  const DEFAULT_LIMIT: nat := 50
  const MAX_LIMIT: nat := 200

  /** A cursor as decoded: unreadable, or bound to a query and naming a source, name and id. */
  datatype Cursor<Q> = NoCursor | Unreadable | CursorAt(query: Q, anchor: Candidate)
  datatype CatalogResult<B> = Refused | Listed(definitions: seq<Definition<B>>, page: Page<Candidate>)

  predicate Usable<Q(==)>(cursor: Cursor<Q>, query: Q) {
    match cursor
    case NoCursor => true
    case Unreadable => false
    case CursorAt(q, anchor) => q == query && anchor.name != "" && anchor.id != "" && anchor.source != OtherSource
  }

  function Anchor<Q>(cursor: Cursor<Q>): Option<Position> {
    if cursor.CursorAt? then Some(PositionOf(cursor.anchor)) else None
  }

  /** The filters of a request; rest holds those that any value passes. */
  datatype Filters<+Q> = Filters(scope: string, workspaceId: string, source: string, rest: Q)

  function Trimmed<Q>(filters: Filters<Q>): Filters<Q> {
    Filters(TrimSpace(filters.scope), TrimSpace(filters.workspaceId), TrimSpace(filters.source), filters.rest)
  }

  /** A known scope and source or none, and no workspace with the global scope. */
  predicate FiltersValid<Q>(filters: Filters<Q>) {
    var f := Trimmed(filters);
    && f.scope in {"", "global", "workspace"} && f.source in {"", "config", "package", "dynamic"}
    && (f.scope == "global" ==> f.workspaceId == "")
  }

  function DefaultedLimit(limit: int): int {
    if limit == 0 then DEFAULT_LIMIT else limit
  }

  /** The definitions of a page carry their effective enabled flag. */
  ghost predicate Carries<B>(s: Snapshot<B>, definitions: seq<Definition<B>>, page: Page<Candidate>) {
    && |definitions| == |page.items|
    && forall i :: 0 <= i < |definitions| ==>
      page.items[i].id in s.projected && definitions[i] == Effective(s, s.projected[page.items[i].id])
  }

  method ListCatalog<B(!new), Q(==)>(s: Snapshot<B>, filters: Filters<Q>, matches: Definition<B> -> bool,
                                     cursor: Cursor<Filters<Q>>, limit: int)
    returns (r: CatalogResult<B>)
    requires KeyedById(s)
    ensures r.Refused? <==> !(0 <= limit <= MAX_LIMIT && FiltersValid(filters) && Usable(cursor, Trimmed(filters)))
    ensures r.Listed? ==> IsCatalogPage(s, matches, Anchor(cursor), DefaultedLimit(limit), r.page)
    ensures r.Listed? ==> Carries(s, r.definitions, r.page) && forall d :: d in r.definitions ==> matches(d)
  {
    var size := DefaultedLimit(limit);
    if size < 0 || size > MAX_LIMIT || !FiltersValid(filters) || !Usable(cursor, Trimmed(filters)) {
      return Refused;
    }
    var items := CollectCandidates(s, matches);
    var page := CutPage(items, PositionOf, Anchor(cursor), size);
    forall other: seq<Candidate> | IsCollection(other, s, matches)
      ensures IsPage(other, PositionOf, Anchor(cursor), size, page)
    {
      PageIndependentOfMapOrder(items, other, s, matches, Anchor(cursor), size, page);
    }
    CollectionPositionsDistinct(items, s, matches);
    PageFacts(items, PositionOf, Anchor(cursor), size, page);
    var definitions := LookUp(s, matches, page);
    r := CatalogResult.Listed(definitions, page);
  }

  method LookUp<B(!new)>(s: Snapshot<B>, matches: Definition<B> -> bool, page: Page<Candidate>)
    returns (definitions: seq<Definition<B>>)
    requires forall c :: c in page.items ==> Listed(s, matches, c)
    ensures Carries(s, definitions, page) && forall d :: d in definitions ==> matches(d)
  {
    definitions := [];
    for i := 0 to |page.items|
      invariant |definitions| == i
      invariant forall j :: 0 <= j < i ==>
        page.items[j].id in s.projected && definitions[j] == Effective(s, s.projected[page.items[j].id])
      invariant forall d :: d in definitions ==> matches(d)
    {
      assert page.items[i] in page.items;
      definitions := definitions + [Effective(s, s.projected[page.items[i].id])];
    }
  }

  /** The cursor built from a page's last candidate is accepted with the next request. */
  lemma IssuedCursorIsUsable<B(!new), Q>(s: Snapshot<B>, matches: Definition<B> -> bool, cursor: Option<Position>,
                                         limit: nat,
                                         page: Page<Candidate>, query: Q)
    requires KeyedById(s) && limit >= 1 && IsCatalogPage(s, matches, cursor, limit, page) && page.next.Some?
    requires forall k :: k in s.projected ==>
      k != "" && s.projected[k].name != "" && s.projected[k].source != OtherSource
    ensures page.items != []
    ensures Usable(CursorAt(query, page.items[|page.items| - 1]), query)
    ensures Anchor(CursorAt(query, page.items[|page.items| - 1])) == page.next
  {
    var items := CollectionExists(s, matches, s.projected.Keys);
    assert IsCollection(items, s, matches);
    CollectionPositionsDistinct(items, s, matches);
    PageFacts(items, PositionOf, cursor, limit, page);
    var last := page.items[|page.items| - 1];
    assert last in page.items;
    assert Listed(s, matches, last);
  }

  // ----- walks -----

  /** A completed walk over requests that each read their own snapshot. */
  ghost predicate IsCatalogWalk<B(!new)>(snapshots: seq<Snapshot<B>>, pages: seq<Page<Candidate>>,
                                         matches: Definition<B> -> bool,
                                         limit: nat, cursor: Option<Position>)
    decreases |pages|
  {
    && |snapshots| == |pages| >= 1
    && IsCatalogPage(snapshots[0], matches, cursor, limit, pages[0])
    && if |pages| == 1 then pages[0].next.None?
       else pages[0].next.Some? && IsCatalogWalk(snapshots[1..], pages[1..], matches, limit, pages[0].next)
  }

  lemma {:induction false} CollectionExists<B(!new)>(s: Snapshot<B>, matches: Definition<B> -> bool,
                                                     keys: set<string>) returns (items: seq<Candidate>)
    requires KeyedById(s) && keys <= s.projected.Keys
    ensures Distinct(items) && forall c :: c in items <==> Listed(s, matches, c) && c.id in keys
    decreases |keys|
  {
    if keys == {} {
      items := [];
    } else {
      var k :| k in keys;
      var rest := CollectionExists(s, matches, keys - {k});
      var c := CandidateOf(s.projected[k]);
      items := if Listed(s, matches, c) then rest + [c] else rest;
    }
  }

  lemma {:induction false} WalkOfCollections<B(!new)>(snapshots: seq<Snapshot<B>>, pages: seq<Page<Candidate>>,
                                                      matches: Definition<B> -> bool,
                                                      limit: nat, cursor: Option<Position>)
    returns (collections: seq<seq<Candidate>>)
    requires forall i :: 0 <= i < |snapshots| ==> KeyedById(snapshots[i])
    requires IsCatalogWalk(snapshots, pages, matches, limit, cursor)
    ensures |collections| == |snapshots| && IsWalk(collections, pages, PositionOf, limit, cursor)
    ensures forall i :: 0 <= i < |collections| ==> IsCollection(collections[i], snapshots[i], matches)
    decreases |pages|
  {
    var first := CollectionExists(snapshots[0], matches, snapshots[0].projected.Keys);
    assert IsCollection(first, snapshots[0], matches);
    if |pages| == 1 {
      collections := [first];
    } else {
      var rest := WalkOfCollections(snapshots[1..], pages[1..], matches, limit, pages[0].next);
      collections := [first] + rest;
      assert collections[1..] == rest;
    }
  }

  /** A definition that stays in every snapshot, matching and under the same source, name
      and id, is listed exactly once, whatever else changes between the pages. */
  lemma StableDefinitionListedOnce<B(!new)>(snapshots: seq<Snapshot<B>>, pages: seq<Page<Candidate>>,
                                            matches: Definition<B> -> bool, limit: nat, c: Candidate)
    requires limit >= 1 && forall i :: 0 <= i < |snapshots| ==> KeyedById(snapshots[i])
    requires IsCatalogWalk(snapshots, pages, matches, limit, None)
    requires forall i :: 0 <= i < |snapshots| ==> Listed(snapshots[i], matches, c)
    ensures exists k :: 0 <= k < |Concat(pages)| && Concat(pages)[k] == c
                     && forall l :: 0 <= l < |Concat(pages)| && PositionOf(Concat(pages)[l]) == PositionOf(c) ==> l == k
  {
    var collections := WalkOfCollections(snapshots, pages, matches, limit, None);
    forall i | 0 <= i < |collections|
      ensures DistinctPositions(collections[i], PositionOf) && HasPosition(collections[i], PositionOf, PositionOf(c))
    {
      CollectionPositionsDistinct(collections[i], snapshots[i], matches);
      assert Listed(snapshots[i], matches, c);
      assert c in collections[i];
    }
    StableRecordAppearsOnce(collections, pages, PositionOf, limit, PositionOf(c));
    var k :| 0 <= k < |Concat(pages)| && PositionOf(Concat(pages)[k]) == PositionOf(c)
                     && forall l :: 0 <= l < |Concat(pages)| && PositionOf(Concat(pages)[l]) == PositionOf(c) ==>
                          l == k;
    PositionDetermines(Concat(pages)[k], c);
  }

  lemma PositionDetermines(a: Candidate, b: Candidate)
    requires PositionOf(a) == PositionOf(b)
    ensures a == b
  {}

  /** When nothing changes, the pages together are the whole collection in listing order. */
  lemma UnchangedCatalogListsAll<B(!new)>(s: Snapshot<B>, snapshots: seq<Snapshot<B>>, pages: seq<Page<Candidate>>,
                                          matches: Definition<B> -> bool, limit: nat)
    requires limit >= 1 && KeyedById(s) && forall i :: 0 <= i < |snapshots| ==> snapshots[i] == s
    requires IsCatalogWalk(snapshots, pages, matches, limit, None)
    ensures IsCollection(Concat(pages), s, matches) && StrictlyAscending(Concat(pages), PositionOf)
  {
    var collections := WalkOfCollections(snapshots, pages, matches, limit, None);
    forall i | 0 <= i < |collections| ensures DistinctPositions(collections[i], PositionOf) {
      CollectionPositionsDistinct(collections[i], snapshots[i], matches);
    }
    WalkAscends(collections, pages, PositionOf, limit, None);
    PosLeqIsTotalOrder();
    var all := Concat(pages);
    forall c ensures c in all <==> Listed(s, matches, c) {
      if Listed(s, matches, c) {
        StableDefinitionListedOnce(snapshots, pages, matches, limit, c);
      }
      if c in all {
        WalkStaysInside(collections, pages, s, matches, limit, None, c);
      }
    }
  }

  lemma {:induction false} WalkStaysInside<B(!new)>(collections: seq<seq<Candidate>>, pages: seq<Page<Candidate>>,
                                                    s: Snapshot<B>, matches: Definition<B> -> bool,
                                                    limit: nat, cursor: Option<Position>, c: Candidate)
    requires limit >= 1 && IsWalk(collections, pages, PositionOf, limit, cursor)
    requires forall i :: 0 <= i < |collections| ==> IsCollection(collections[i], s, matches)
    requires c in Concat(pages)
    ensures Listed(s, matches, c)
    decreases |pages|
  {
    CollectionPositionsDistinct(collections[0], s, matches);
    PageFacts(collections[0], PositionOf, cursor, limit, pages[0]);
    if c !in pages[0].items {
      WalkStaysInside(collections[1..], pages[1..], s, matches, limit, pages[0].next, c);
    }
  }
}
