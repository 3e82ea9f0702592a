/** Keyset pagination: sort by position, find the cursor by bisection, cut a page; and
    what a walk over the pages sees while the collection changes. */
module Keyset {
  import opened Ordering

  datatype Position = Position(rank: nat, name: string, id: string)

  predicate PosLeq(a: Position, b: Position) {
    a.rank < b.rank || (a.rank == b.rank && (
      if a.name == b.name then StrLeq(a.id, b.id) else StrLeq(a.name, b.name)))
  }

  predicate After(a: Position, cursor: Position) {
    !PosLeq(a, cursor)
  }

  lemma PosLeqIsTotalOrder()
    ensures TotalOrder(PosLeq)
  {
    StrLeqIsTotalOrder();
    forall a, b, c | PosLeq(a, b) && PosLeq(b, c) ensures PosLeq(a, c) {}
  }

  function ByPosition<T>(pos: T -> Position): (T, T) -> bool {
    (a, b) => PosLeq(pos(a), pos(b))
  }

  lemma ByPositionIsPreorder<T(!new)>(pos: T -> Position)
    ensures TotalPreorder(ByPosition(pos))
  {
    PosLeqIsTotalOrder();
  }

  ghost predicate DistinctPositions<T>(items: seq<T>, pos: T -> Position) {
    forall i, j :: 0 <= i < j < |items| ==> pos(items[i]) != pos(items[j])
  }

  ghost predicate StrictlyAscending<T>(items: seq<T>, pos: T -> Position) {
    forall i, j :: 0 <= i < j < |items| ==> After(pos(items[j]), pos(items[i]))
  }

  // ----- one page -----

  datatype Page<T> = Page(items: seq<T>, total: nat, next: Option<Position>)

  function Listing<T>(items: seq<T>, pos: T -> Position): (r: seq<T>)
    ensures multiset(r) == multiset(items)
  {
    Sort(items, ByPosition(pos))
  }

  lemma ListingAscends<T(!new)>(items: seq<T>, pos: T -> Position)
    requires DistinctPositions(items, pos)
    ensures StrictlyAscending(Listing(items, pos), pos)
  {
    var sorted := Listing(items, pos);
    ByPositionIsPreorder(pos);
    PosLeqIsTotalOrder();
    SortSorted(items, ByPosition(pos));
    PositionsStayDistinct(items, sorted, pos);
    forall i, j | 0 <= i < j < |sorted| ensures After(pos(sorted[j]), pos(sorted[i])) {
      assert ByPosition(pos)(sorted[i], sorted[j]);
    }
  }

  lemma PositionsStayDistinct<T>(items: seq<T>, sorted: seq<T>, pos: T -> Position)
    requires multiset(items) == multiset(sorted) && DistinctPositions(items, pos)
    ensures DistinctPositions(sorted, pos)
  {
    PermutationFacts(sorted, items);
    PermutationFacts(items, sorted);
    assert Distinct(items);
    forall i, j | 0 <= i < j < |sorted| ensures pos(sorted[i]) != pos(sorted[j]) {
      assert sorted[i] in items && sorted[j] in items && sorted[i] != sorted[j];
      var k :| 0 <= k < |items| && items[k] == sorted[i];
      var l :| 0 <= l < |items| && items[l] == sorted[j];
      assert if k < l then pos(items[k]) != pos(items[l]) else pos(items[l]) != pos(items[k]);
    }
  }

  /** The number of leading items not after the cursor. */
  ghost predicate IsStart<T>(sorted: seq<T>, pos: T -> Position, cursor: Option<Position>, start: nat) {
    match cursor
    case None => start == 0
    case Some(c) =>
      && start <= |sorted|
      && (forall i :: 0 <= i < start ==> !After(pos(sorted[i]), c))
      && (forall i :: start <= i < |sorted| ==> After(pos(sorted[i]), c))
  }

  /** sort.Search over "position after the cursor". */
  method PageStart<T(!new)>(sorted: seq<T>, pos: T -> Position, cursor: Option<Position>) returns (start: nat)
    requires SortedBy(sorted, ByPosition(pos))
    ensures start <= |sorted| && IsStart(sorted, pos, cursor, start)
  {
    if cursor.None? {
      return 0;
    }
    PosLeqIsTotalOrder();
    var i, j := 0, |sorted|;
    while i < j
      invariant 0 <= i <= j <= |sorted|
      invariant forall k :: 0 <= k < i ==> !After(pos(sorted[k]), cursor.value)
      invariant forall k :: j <= k < |sorted| ==> After(pos(sorted[k]), cursor.value)
    {
      var h := (i + j) / 2;
      if !After(pos(sorted[h]), cursor.value) {
        forall k | 0 <= k < h ensures !After(pos(sorted[k]), cursor.value) {
          assert ByPosition(pos)(sorted[k], sorted[h]);
        }
        i := h + 1;
      } else {
        forall k | h < k < |sorted| ensures After(pos(sorted[k]), cursor.value) {
          assert ByPosition(pos)(sorted[h], sorted[k]);
        }
        j := h;
      }
    }
    return i;
  }

  function EndOf(start: nat, limit: nat, total: nat): nat {
    if start + limit < total then start + limit else total
  }

  ghost predicate IsCut<T>(sorted: seq<T>, pos: T -> Position, cursor: Option<Position>, limit: nat, page: Page<T>,
                           start: nat) {
    && start <= |sorted| && IsStart(sorted, pos, cursor, start)
    && page.items == sorted[start..EndOf(start, limit, |sorted|)]
    && page.next == if EndOf(start, limit, |sorted|) == |sorted| || page.items == [] then None
                    else Some(pos(page.items[|page.items| - 1]))
  }

  /** The page of a collection behind a cursor. */
  ghost predicate IsPage<T>(items: seq<T>, pos: T -> Position, cursor: Option<Position>, limit: nat, page: Page<T>) {
    page.total == |items| && exists start: nat :: IsCut(Listing(items, pos), pos, cursor, limit, page, start)
  }

  /** The cut of one page. limit is positive, as the query validation requires. */
  method CutPage<T(!new)>(items: seq<T>, pos: T -> Position, cursor: Option<Position>, limit: nat)
    returns (page: Page<T>)
    requires limit >= 1
    ensures IsPage(items, pos, cursor, limit, page)
  {
    var sorted := Listing(items, pos);
    ByPositionIsPreorder(pos);
    SortSorted(items, ByPosition(pos));
    PermutationFacts(items, sorted);
    var start := PageStart(sorted, pos, cursor);
    var end := EndOf(start, limit, |sorted|);
    var selected := sorted[start..end];
    if end < |sorted| {
      page := Page(selected, |sorted|, Some(pos(selected[|selected| - 1])));
    } else {
      page := Page(selected, |sorted|, None);
    }
    assert IsCut(sorted, pos, cursor, limit, page, start);
  }

  /** The page depends only on which items there are, not on their order. */
  lemma ListingIndependentOfOrder<T(!new)>(items: seq<T>, items': seq<T>, pos: T -> Position)
    requires multiset(items) == multiset(items') && DistinctPositions(items, pos)
    ensures Listing(items, pos) == Listing(items', pos)
  {
    ByPositionIsPreorder(pos);
    PosLeqIsTotalOrder();
    SortSorted(items, ByPosition(pos));
    SortSorted(items', ByPosition(pos));
    var s := Listing(items, pos);
    PermutationFacts(items, s);
    forall a, b | a in s && b in s && ByPosition(pos)(a, b) && ByPosition(pos)(b, a) ensures a == b {
      assert a in items && b in items;
      var k :| 0 <= k < |items| && items[k] == a;
      var l :| 0 <= l < |items| && items[l] == b;
      assert pos(a) == pos(b);
    }
    SortedPermutationUnique(s, Listing(items', pos), ByPosition(pos));
  }

  // ----- walks -----

  /** A walk: each page is cut from the collection as it is when the page is asked for,
      from the cursor of the page before. */
  ghost predicate IsWalk<T>(collections: seq<seq<T>>, pages: seq<Page<T>>, pos: T -> Position, limit: nat,
                            cursor: Option<Position>)
    decreases |pages|
  {
    && |collections| == |pages| >= 1
    && IsPage(collections[0], pos, cursor, limit, pages[0])
    && if |pages| == 1 then pages[0].next.None?
       else pages[0].next.Some? && IsWalk(collections[1..], pages[1..], pos, limit, pages[0].next)
  }

  ghost function Concat<T>(pages: seq<Page<T>>): seq<T> {
    if pages == [] then [] else pages[0].items + Concat(pages[1..])
  }

  ghost predicate Past(p: Position, cursor: Option<Position>) {
    cursor.Some? ==> After(p, cursor.value)
  }

  ghost predicate HasPosition<T>(items: seq<T>, pos: T -> Position, p: Position) {
    exists x :: x in items && pos(x) == p
  }

  lemma CutAscends<T(!new)>(sorted: seq<T>, pos: T -> Position, cursor: Option<Position>, limit: nat, page: Page<T>,
                            start: nat)
    requires limit >= 1 && StrictlyAscending(sorted, pos) && IsCut(sorted, pos, cursor, limit, page, start)
    ensures StrictlyAscending(page.items, pos)
    ensures forall x :: x in page.items ==> x in sorted && Past(pos(x), cursor)
    ensures page.next.Some? ==> page.items != [] && page.next.value == pos(page.items[|page.items| - 1])
  {
    forall x | x in page.items ensures x in sorted && Past(pos(x), cursor) {
      var k :| 0 <= k < |page.items| && page.items[k] == x;
      assert sorted[start + k] == x;
    }
  }

  lemma CutCovers<T(!new)>(sorted: seq<T>, pos: T -> Position, cursor: Option<Position>, limit: nat, page: Page<T>,
                           start: nat, x: T)
    requires limit >= 1 && StrictlyAscending(sorted, pos) && IsCut(sorted, pos, cursor, limit, page, start)
    requires x in sorted && Past(pos(x), cursor)
    ensures x in page.items || (page.next.Some? && After(pos(x), page.next.value))
  {
    var end := EndOf(start, limit, |sorted|);
    var k :| 0 <= k < |sorted| && sorted[k] == x;
    if k < end {
      assert page.items[k - start] == x;
    } else {
      assert page.items[|page.items| - 1] == sorted[end - 1];
    }
  }

  /** A page is ascending, past its cursor, and complete up to its own end. */
  lemma PageFacts<T(!new)>(items: seq<T>, pos: T -> Position, cursor: Option<Position>, limit: nat, page: Page<T>)
    requires limit >= 1 && IsPage(items, pos, cursor, limit, page) && DistinctPositions(items, pos)
    ensures StrictlyAscending(page.items, pos)
    ensures forall x :: x in page.items ==> x in items && Past(pos(x), cursor)
    ensures page.next.Some? ==> page.items != [] && page.next.value == pos(page.items[|page.items| - 1])
    ensures forall x :: x in items && Past(pos(x), cursor) ==>
      x in page.items || (page.next.Some? && After(pos(x), page.next.value))
  {
    var sorted := Listing(items, pos);
    PermutationFacts(items, sorted);
    ListingAscends(items, pos);
    var start: nat :| IsCut(sorted, pos, cursor, limit, page, start);
    CutAscends(sorted, pos, cursor, limit, page, start);
    forall x | x in items && Past(pos(x), cursor)
      ensures x in page.items || (page.next.Some? && After(pos(x), page.next.value))
    {
      CutCovers(sorted, pos, cursor, limit, page, start, x);
    }
  }

  /** Whatever happens between the pages, a walk never repeats a position and only goes forward. */
  lemma {:induction false} WalkAscends<T(!new)>(collections: seq<seq<T>>, pages: seq<Page<T>>, pos: T -> Position,
                                                limit: nat, cursor: Option<Position>)
    requires limit >= 1 && IsWalk(collections, pages, pos, limit, cursor)
    requires forall i :: 0 <= i < |collections| ==> DistinctPositions(collections[i], pos)
    ensures StrictlyAscending(Concat(pages), pos)
    ensures forall x :: x in Concat(pages) ==> Past(pos(x), cursor)
    decreases |pages|
  {
    PosLeqIsTotalOrder();
    PageFacts(collections[0], pos, cursor, limit, pages[0]);
    var first, rest := pages[0].items, Concat(pages[1..]);
    if |pages| == 1 {
      assert rest == [];
      assert first + rest == first;
    } else {
      WalkAscends(collections[1..], pages[1..], pos, limit, pages[0].next);
      JoinAscending(first, rest, pos, pages[0].next.value, cursor);
    }
  }

  lemma JoinAscending<T(!new)>(first: seq<T>, rest: seq<T>, pos: T -> Position, last: Position,
                               cursor: Option<Position>)
    requires StrictlyAscending(first, pos) && StrictlyAscending(rest, pos)
    requires first != [] && last == pos(first[|first| - 1])
    requires forall x :: x in first ==> Past(pos(x), cursor)
    requires forall x :: x in rest ==> After(pos(x), last)
    ensures StrictlyAscending(first + rest, pos)
    ensures forall x :: x in first + rest ==> Past(pos(x), cursor)
  {
    PosLeqIsTotalOrder();
    assert forall k :: 0 <= k < |rest| ==> rest[k] in rest;
    assert first[|first| - 1] in first;
  }

  lemma {:induction false} WalkMeets<T(!new)>(collections: seq<seq<T>>, pages: seq<Page<T>>, pos: T -> Position,
                                              limit: nat,
                                              cursor: Option<Position>, p: Position)
    requires limit >= 1 && IsWalk(collections, pages, pos, limit, cursor)
    requires forall i :: 0 <= i < |collections| ==>
      DistinctPositions(collections[i], pos) && HasPosition(collections[i], pos, p)
    requires Past(p, cursor)
    ensures HasPosition(Concat(pages), pos, p)
    decreases |pages|
  {
    PageFacts(collections[0], pos, cursor, limit, pages[0]);
    var x :| x in collections[0] && pos(x) == p;
    if x in pages[0].items {
      assert x in Concat(pages);
    } else {
      WalkMeets(collections[1..], pages[1..], pos, limit, pages[0].next, p);
      var y :| y in Concat(pages[1..]) && pos(y) == p;
      assert y in Concat(pages);
    }
  }

  /** A record that is in every collection a completed walk reads, always matching and
      under the same position, appears in the walk exactly once. */
  lemma StableRecordAppearsOnce<T(!new)>(collections: seq<seq<T>>, pages: seq<Page<T>>, pos: T -> Position, limit: nat,
                                         p: Position)
    requires limit >= 1 && IsWalk(collections, pages, pos, limit, None)
    requires forall i :: 0 <= i < |collections| ==>
      DistinctPositions(collections[i], pos) && HasPosition(collections[i], pos, p)
    ensures exists k :: 0 <= k < |Concat(pages)| && pos(Concat(pages)[k]) == p
                     && forall l :: 0 <= l < |Concat(pages)| && pos(Concat(pages)[l]) == p ==> l == k
  {
    WalkMeets(collections, pages, pos, limit, None, p);
    WalkAscends(collections, pages, pos, limit, None);
    var all := Concat(pages);
    var x :| x in all && pos(x) == p;
    var k :| 0 <= k < |all| && all[k] == x;
    forall l | 0 <= l < |all| && pos(all[l]) == p ensures l == k {
      if k < l {
        PlacesDiffer(all, pos, k, l);
      } else if l < k {
        PlacesDiffer(all, pos, l, k);
      }
    }
  }

  lemma PlacesDiffer<T>(all: seq<T>, pos: T -> Position, k: nat, l: nat)
    requires StrictlyAscending(all, pos) && k < l < |all|
    ensures pos(all[k]) != pos(all[l])
  {
    PosLeqIsTotalOrder();
    assert After(pos(all[l]), pos(all[k]));
  }

  lemma CutIsSegment<T(!new)>(sorted: seq<T>, pos: T -> Position, cursor: Option<Position>, limit: nat, page: Page<T>,
                              s: nat, start: nat)
    returns (end: nat)
    requires limit >= 1 && StrictlyAscending(sorted, pos) && IsCut(sorted, pos, cursor, limit, page, s)
    requires start <= |sorted| && IsStart(sorted, pos, cursor, start)
    ensures start <= end <= |sorted| && page.items == sorted[start..end]
    ensures page.next.None? ==> end == |sorted|
    ensures page.next.Some? ==> IsStart(sorted, pos, page.next, end)
  {
    StartUnique(sorted, pos, cursor, start, s);
    end := EndOf(start, limit, |sorted|);
    if page.next.Some? {
      NextStart(sorted, pos, end);
    }
  }

  lemma PageIsNextSegment<T(!new)>(items: seq<T>, pos: T -> Position, cursor: Option<Position>, limit: nat,
                                   page: Page<T>, start: nat)
    returns (end: nat)
    requires limit >= 1 && DistinctPositions(items, pos) && IsPage(items, pos, cursor, limit, page)
    requires start <= |Listing(items, pos)| && IsStart(Listing(items, pos), pos, cursor, start)
    ensures start <= end <= |Listing(items, pos)| && page.items == Listing(items, pos)[start..end]
    ensures page.next.None? ==> end == |Listing(items, pos)|
    ensures page.next.Some? ==> IsStart(Listing(items, pos), pos, page.next, end)
  {
    ListingAscends(items, pos);
    var s: nat :| IsCut(Listing(items, pos), pos, cursor, limit, page, s);
    end := CutIsSegment(Listing(items, pos), pos, cursor, limit, page, s, start);
  }

  /** Over an unchanged collection the pages of a walk are exactly its sorted listing. */
  lemma {:induction false} WalkOfUnchanged<T(!new)>(items: seq<T>, collections: seq<seq<T>>, pages: seq<Page<T>>,
                                                    pos: T -> Position,
                                                    limit: nat, cursor: Option<Position>, start: nat)
    requires limit >= 1 && DistinctPositions(items, pos)
    requires forall i :: 0 <= i < |collections| ==> collections[i] == items
    requires IsWalk(collections, pages, pos, limit, cursor)
    requires start <= |Listing(items, pos)| && IsStart(Listing(items, pos), pos, cursor, start)
    ensures Concat(pages) == Listing(items, pos)[start..]
    decreases |pages|
  {
    var end := PageIsNextSegment(items, pos, cursor, limit, pages[0], start);
    if |pages| > 1 {
      WalkOfUnchanged(items, collections[1..], pages[1..], pos, limit, pages[0].next, end);
    }
    ConcatSegments(pages, Listing(items, pos), start, end);
  }

  lemma ConcatSegments<T>(pages: seq<Page<T>>, sorted: seq<T>, start: nat, end: nat)
    requires pages != [] && start <= end <= |sorted| && pages[0].items == sorted[start..end]
    requires if |pages| == 1 then end == |sorted| else Concat(pages[1..]) == sorted[end..]
    ensures Concat(pages) == sorted[start..]
  {
    SegmentsJoin(sorted, start, end);
    assert Concat(pages) == sorted[start..end] + Concat(pages[1..]);
    assert |pages| == 1 ==> pages[1..] == [] && sorted[end..] == [];
  }

  lemma SegmentsJoin<T>(s: seq<T>, start: nat, end: nat)
    requires start <= end <= |s|
    ensures s[start..end] + s[end..] == s[start..]
  {
  }

  lemma StartUnique<T>(sorted: seq<T>, pos: T -> Position, cursor: Option<Position>, s: nat, t: nat)
    requires s <= |sorted| && t <= |sorted| && IsStart(sorted, pos, cursor, s) && IsStart(sorted, pos, cursor, t)
    ensures s == t
  {
    if cursor.Some? {
      assert s < |sorted| ==> After(pos(sorted[s]), cursor.value);
      assert t < |sorted| ==> After(pos(sorted[t]), cursor.value);
    }
  }

  lemma NextStart<T>(sorted: seq<T>, pos: T -> Position, end: nat)
    requires StrictlyAscending(sorted, pos) && 0 < end <= |sorted|
    ensures IsStart(sorted, pos, Some(pos(sorted[end - 1])), end)
  {
    PosLeqIsTotalOrder();
  }

  // ----- a walk over an unchanged collection ends -----

  /** The pages of n items: at least one, and limit items on each but the last. */
  function PageCount(n: nat, limit: nat): nat
    requires limit >= 1
  {
    if n <= limit then 1 else 1 + PageCount(n - limit, limit)
  }

  lemma {:induction false} PageCountRoundsUp(n: nat, limit: nat)
    requires limit >= 1
    ensures n > 0 ==> (PageCount(n, limit) - 1) * limit < n <= PageCount(n, limit) * limit
    ensures n == 0 ==> PageCount(n, limit) == 1
  {
    if n > limit {
      PageCountRoundsUp(n - limit, limit);
      var rest := PageCount(n - limit, limit);
      assert rest * limit == (rest - 1) * limit + limit && (rest + 1) * limit == rest * limit + limit;
    }
  }

  /** Pages got by following the cursor over an unchanged collection, to the end or not. */
  ghost predicate Follows<T>(items: seq<T>, pages: seq<Page<T>>, pos: T -> Position, limit: nat,
                             cursor: Option<Position>)
    decreases |pages|
  {
    pages == [] ||
    (IsPage(items, pos, cursor, limit, pages[0]) &&
     (|pages| == 1 || (pages[0].next.Some? && Follows(items, pages[1..], pos, limit, pages[0].next))))
  }

  lemma CutFrom<T(!new)>(sorted: seq<T>, pos: T -> Position, cursor: Option<Position>, limit: nat, start: nat)
    returns (page: Page<T>)
    requires limit >= 1 && StrictlyAscending(sorted, pos)
    requires start <= |sorted| && IsStart(sorted, pos, cursor, start)
    ensures page.total == |sorted| && IsCut(sorted, pos, cursor, limit, page, start)
    ensures page.next.Some? <==> |sorted| - start > limit
    ensures page.next.Some? ==> IsStart(sorted, pos, page.next, start + limit)
  {
    var end := EndOf(start, limit, |sorted|);
    if end == |sorted| {
      page := Page(sorted[start..end], |sorted|, None);
    } else {
      page := Page(sorted[start..end], |sorted|, Some(pos(sorted[end - 1])));
      assert page.items[|page.items| - 1] == sorted[end - 1];
      NextStart(sorted, pos, end);
    }
  }

  /** The page that starts at a place of the listing. */
  lemma PageFrom<T(!new)>(items: seq<T>, pos: T -> Position, cursor: Option<Position>, limit: nat, start: nat)
    returns (page: Page<T>)
    requires limit >= 1 && DistinctPositions(items, pos)
    requires start <= |Listing(items, pos)| && IsStart(Listing(items, pos), pos, cursor, start)
    ensures IsPage(items, pos, cursor, limit, page)
    ensures page.next.Some? <==> |Listing(items, pos)| - start > limit
    ensures page.next.Some? ==> IsStart(Listing(items, pos), pos, page.next, start + limit)
  {
    var sorted := Listing(items, pos);
    ListingAscends(items, pos);
    PermutationFacts(items, sorted);
    page := CutFrom(sorted, pos, cursor, limit, start);
  }

  lemma PageUnique<T>(items: seq<T>, pos: T -> Position, cursor: Option<Position>, limit: nat, a: Page<T>,
                            b: Page<T>)
    requires IsPage(items, pos, cursor, limit, a) && IsPage(items, pos, cursor, limit, b)
    ensures a == b
  {
    var sorted := Listing(items, pos);
    var s: nat :| IsCut(sorted, pos, cursor, limit, a, s);
    var t: nat :| IsCut(sorted, pos, cursor, limit, b, t);
    StartUnique(sorted, pos, cursor, s, t);
  }

  /** Followed to the end. */
  ghost predicate FollowsToEnd<T>(items: seq<T>, pages: seq<Page<T>>, pos: T -> Position, limit: nat,
                                  cursor: Option<Position>) {
    pages != [] && pages[|pages| - 1].next.None? && Follows(items, pages, pos, limit, cursor)
  }

  lemma OneMorePage<T>(items: seq<T>, page: Page<T>, rest: seq<Page<T>>, pos: T -> Position, limit: nat,
                       cursor: Option<Position>)
    requires IsPage(items, pos, cursor, limit, page) && page.next.Some?
    requires FollowsToEnd(items, rest, pos, limit, page.next)
    ensures FollowsToEnd(items, [page] + rest, pos, limit, cursor)
  {
    var pages := [page] + rest;
    assert pages[1..] == rest && pages[0] == page;
  }

  lemma {:induction false} WalkFrom<T(!new)>(items: seq<T>, pos: T -> Position, limit: nat, cursor: Option<Position>,
                                             start: nat)
    returns (pages: seq<Page<T>>)
    requires limit >= 1 && DistinctPositions(items, pos)
    requires start <= |Listing(items, pos)| && IsStart(Listing(items, pos), pos, cursor, start)
    ensures FollowsToEnd(items, pages, pos, limit, cursor)
    ensures |pages| == PageCount(|Listing(items, pos)| - start, limit)
    decreases |Listing(items, pos)| - start
  {
    var page := PageFrom(items, pos, cursor, limit, start);
    if page.next.None? {
      pages := [page];
    } else {
      var rest := WalkFrom(items, pos, limit, page.next, start + limit);
      OneMorePage(items, page, rest, pos, limit, cursor);
      pages := [page] + rest;
    }
  }

  /** Pages followed to the end are a walk over the unchanged collection. */
  lemma {:induction false} FollowedIsWalk<T>(items: seq<T>, collections: seq<seq<T>>, pages: seq<Page<T>>,
                                             pos: T -> Position, limit: nat, cursor: Option<Position>)
    requires |collections| == |pages| && forall i :: 0 <= i < |collections| ==> collections[i] == items
    requires FollowsToEnd(items, pages, pos, limit, cursor)
    ensures IsWalk(collections, pages, pos, limit, cursor)
    decreases |pages|
  {
    if |pages| > 1 {
      FollowedIsWalk(items, collections[1..], pages[1..], pos, limit, pages[0].next);
    }
  }

  lemma {:induction false} FollowsIsPrefix<T>(items: seq<T>, pages: seq<Page<T>>, some: seq<Page<T>>,
                                              pos: T -> Position, limit: nat, cursor: Option<Position>)
    requires FollowsToEnd(items, pages, pos, limit, cursor) && Follows(items, some, pos, limit, cursor)
    ensures some <= pages
    decreases |pages|
  {
    if some != [] {
      PageUnique(items, pos, cursor, limit, pages[0], some[0]);
      if |some| > 1 {
        FollowsIsPrefix(items, pages[1..], some[1..], pos, limit, pages[0].next);
      }
    }
  }

  lemma EndIsListing<T(!new)>(items: seq<T>, pages: seq<Page<T>>, pos: T -> Position, limit: nat)
    requires limit >= 1 && DistinctPositions(items, pos) && FollowsToEnd(items, pages, pos, limit, None)
    ensures Concat(pages) == Listing(items, pos)
  {
    var collections := seq(|pages|, i => items);
    FollowedIsWalk(items, collections, pages, pos, limit, None);
    WalkOfUnchanged(items, collections, pages, pos, limit, None, 0);
    var sorted := Listing(items, pos);
    assert sorted[0..] == sorted;
  }

  /** Over an unchanged collection there is one walk: whoever follows the cursor gets a prefix of
      it, and it ends with the whole listing after one page for every limit items, the last one
      counted in full. */
  lemma FollowingCompletes<T(!new)>(items: seq<T>, pos: T -> Position, limit: nat) returns (pages: seq<Page<T>>)
    requires limit >= 1 && DistinctPositions(items, pos)
    ensures FollowsToEnd(items, pages, pos, limit, None) && Concat(pages) == Listing(items, pos)
    ensures |pages| == PageCount(|items|, limit)
    ensures forall some :: Follows(items, some, pos, limit, None) ==> some <= pages
  {
    PermutationFacts(items, Listing(items, pos));
    pages := WalkFrom(items, pos, limit, None, 0);
    EndIsListing(items, pages, pos, limit);
    forall some | Follows(items, some, pos, limit, None) ensures some <= pages {
      FollowsIsPrefix(items, pages, some, pos, limit, None);
    }
  }
}
