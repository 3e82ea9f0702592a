/** Nested <details> blocks in a review body: the depth-counting matcher, the extraction of
    top-level blocks, and the stripper built on it. */
module DetailsBlocks {
  import opened Text

  const OPEN: string := "<details>"
  const CLOSE: string := "</details>"

  predicate OpenAt(text: string, i: int) {
    OccursAt(text, OPEN, i)
  }

  predicate CloseAt(text: string, i: int) {
    OccursAt(text, CLOSE, i)
  }

  /** A tag holds '<' only as its first character, so two tags never overlap. */
  lemma TagsDoNotOverlap(text: string, i: int, j: int)
    requires (OpenAt(text, i) && i < j < i + |OPEN|) || (CloseAt(text, i) && i < j < i + |CLOSE|)
    ensures !OpenAt(text, j) && !CloseAt(text, j) && text[j] != '<'
  {
    if OpenAt(text, i) && j < i + |OPEN| {
      assert text[j] == text[i..i + |OPEN|][j - i] == OPEN[j - i];
    } else {
      assert text[j] == text[i..i + |CLOSE|][j - i] == CLOSE[j - i];
    }
    TagsStartWithAngle(text, j);
  }

  lemma TagsStartWithAngle(text: string, i: int)
    ensures OpenAt(text, i) || CloseAt(text, i) ==> 0 <= i < |text| && text[i] == '<'
  {
    if OpenAt(text, i) {
      assert text[i] == text[i..i + |OPEN|][0];
    }
    if CloseAt(text, i) {
      assert text[i] == text[i..i + |CLOSE|][0];
    }
  }

  // ----- depth -----

  /** Opening minus closing tags that lie completely inside text[from..to]. */
  ghost function Depth(text: string, from: int, to: int): int
    decreases to - from
  {
    if to <= from then 0
    else
      Depth(text, from, to - 1)
      + (if OpenEnds(text, from, to) then 1 else 0) - (if CloseEnds(text, from, to) then 1 else 0)
  }

  predicate OpenEnds(text: string, from: int, end: int) {
    from <= end - |OPEN| && OpenAt(text, end - |OPEN|)
  }

  predicate CloseEnds(text: string, from: int, end: int) {
    from <= end - |CLOSE| && CloseAt(text, end - |CLOSE|)
  }

  /** No tag that starts at or after from is cut in two at b. */
  ghost predicate Clean(text: string, from: int, b: int) {
    forall i :: from <= i < b ==> (OpenAt(text, i) ==> i + |OPEN| <= b) && (CloseAt(text, i) ==> i + |CLOSE| <= b)
  }

  lemma CleanBoundary(text: string, from: int, b: int)
    requires b == from || b >= |text| || (0 <= b && text[b] == '<') || OpenAt(text, b - |OPEN|)
      || CloseAt(text, b - |CLOSE|)
    ensures Clean(text, from, b)
  {
    forall i | from <= i < b
      ensures (OpenAt(text, i) ==> i + |OPEN| <= b) && (CloseAt(text, i) ==> i + |CLOSE| <= b)
    {
      if OpenAt(text, b - |OPEN|) {
        TagEndIsClean(text, b - |OPEN|, b, i);
      } else if CloseAt(text, b - |CLOSE|) {
        TagEndIsClean(text, b - |CLOSE|, b, i);
      } else if (OpenAt(text, i) && b < i + |OPEN|) || (CloseAt(text, i) && b < i + |CLOSE|) {
        TagsDoNotOverlap(text, i, b);
      }
    }
  }

  lemma TagEndIsClean(text: string, t: int, b: int, i: int)
    requires (OpenAt(text, t) && b == t + |OPEN|) || (CloseAt(text, t) && b == t + |CLOSE|)
    requires i < b
    ensures (OpenAt(text, i) ==> i + |OPEN| <= b) && (CloseAt(text, i) ==> i + |CLOSE| <= b)
  {
    NotBoth(text, i);
    if t < i {
      TagsDoNotOverlap(text, t, i);
    } else if (OpenAt(text, i) && i < t < i + |OPEN|) || (CloseAt(text, i) && i < t < i + |CLOSE|) {
      TagsDoNotOverlap(text, i, t);
    }
  }

  lemma {:induction false} DepthSplit(text: string, a: int, b: int, c: int)
    requires a <= b <= c && Clean(text, a, b)
    ensures Depth(text, a, c) == Depth(text, a, b) + Depth(text, b, c)
    decreases c - b
  {
    if b < c {
      DepthSplit(text, a, b, c - 1);
    }
  }

  lemma {:induction false} NoTagNoDepth(text: string, a: int, b: int)
    requires forall i :: a <= i < b ==> !(OpenAt(text, i) && i + |OPEN| <= b) && !(CloseAt(text, i) && i + |CLOSE| <= b)
    ensures Depth(text, a, b) == 0
    decreases b - a
  {
    if a < b {
      NoTagNoDepth(text, a, b - 1);
    }
  }

  /** One tag at p and nothing else between a and the end of that tag. */
  lemma OneTagDepth(text: string, a: int, p: int, q: int)
    requires a <= p && ((OpenAt(text, p) && q == p + |OPEN|) || (CloseAt(text, p) && q == p + |CLOSE|))
    requires forall i :: a <= i < p ==> !OpenAt(text, i) && !CloseAt(text, i)
    ensures Depth(text, a, q) == if OpenAt(text, p) then 1 else -1
    ensures forall e :: a < e < q ==> !CloseEnds(text, a, e) && !OpenEnds(text, a, e) && Depth(text, a, e) == 0
  {
    forall i | p < i < q ensures !OpenAt(text, i) && !CloseAt(text, i) {
      TagsDoNotOverlap(text, p, i);
    }
    NotBoth(text, p);
    forall e | a < e < q ensures !CloseEnds(text, a, e) && !OpenEnds(text, a, e) && Depth(text, a, e) == 0 {
      NoTagNoDepth(text, a, e);
    }
    NoTagNoDepth(text, a, q - 1);
    OneTagEnds(text, a, p, q);
    assert a < q;
  }

  lemma OneTagEnds(text: string, a: int, p: int, q: int)
    requires a <= p && ((OpenAt(text, p) && q == p + |OPEN|) || (CloseAt(text, p) && q == p + |CLOSE|))
    requires forall i :: a <= i < q && i != p ==> !OpenAt(text, i) && !CloseAt(text, i)
    ensures OpenEnds(text, a, q) <==> OpenAt(text, p)
    ensures CloseEnds(text, a, q) <==> !OpenAt(text, p)
  {
    NotBoth(text, p);
  }

  lemma NotBoth(text: string, p: int)
    ensures !(OpenAt(text, p) && CloseAt(text, p))
  {
    if OpenAt(text, p) {
      assert text[p + 1] == text[p..p + |OPEN|][1];
    }
    if CloseAt(text, p) {
      assert text[p + 1] == text[p..p + |CLOSE|][1];
    }
  }

  // ----- the matcher -----

  /** The least end of a closing tag at which the tags since start balance. */
  ghost predicate IsMatch(text: string, start: int, end: int) {
    && CloseEnds(text, start, end) && Depth(text, start, end) == 0
    && forall e :: e < end && CloseEnds(text, start, e) ==> Depth(text, start, e) != 0
  }

  ghost predicate NoMatch(text: string, start: int) {
    forall e :: CloseEnds(text, start, e) ==> Depth(text, start, e) != 0
  }

  /** The first occurrence at or after from, or -1 when there is none. */
  ghost predicate IsIndex(text: string, from: nat, tag: string, i: int) {
    && (i == -1 || (from <= i && OccursAt(text, tag, i)))
    && forall k :: from <= k && (i == -1 || k < i) ==> !OccursAt(text, tag, k)
  }

  /** strings.Index from a position. */
  method Index(text: string, from: nat, tag: string) returns (i: int)
    requires from <= |text|
    ensures IsIndex(text, from, tag, i) && i >= -1
  {
    i := from;
    while i <= |text| - |tag|
      invariant from <= i
      invariant forall k :: from <= k < i ==> !OccursAt(text, tag, k)
    {
      if text[i..i + |tag|] == tag {
        return;
      }
      i := i + 1;
    }
    i := -1;
  }

  /** The cursor is between tags, depth is the balance up to it, and no end up to it matches. */
  ghost predicate Scanned(text: string, start: int, cursor: int, depth: int) {
    && start <= cursor && Clean(text, start, cursor) && depth == Depth(text, start, cursor)
    && forall e :: e <= cursor && CloseEnds(text, start, e) ==> Depth(text, start, e) != 0
  }

  ghost predicate NoTagStartsIn(text: string, a: int, b: int) {
    forall i :: a <= i < b ==> !OpenAt(text, i) && !CloseAt(text, i)
  }

  /** What one iteration comes to: there is no match, or the cursor has passed a tag, and that
      tag matches or the scan goes on. */
  ghost predicate Passed(text: string, start: int, cursor: int, next: int, depth: int, matched: bool) {
    if next == -1 then NoMatch(text, start)
    else cursor < next <= |text| && if matched then IsMatch(text, start, next) else Scanned(text, start, next, depth)
  }

  /** The next tag is an opening one. */
  lemma PassOpen(text: string, start: int, cursor: nat, depth: int, p: int, nextClose: int)
    requires Scanned(text, start, cursor, depth) && IsIndex(text, cursor, OPEN, p) && p >= 0
    requires IsIndex(text, cursor, CLOSE, nextClose) && (nextClose < 0 || p < nextClose)
    ensures Passed(text, start, cursor, p + |OPEN|, depth + 1, false)
  {
    AdvanceOver(text, start, cursor, p, p + |OPEN|);
  }

  /** The next tag is a closing one; it matches when it brings the depth to zero. */
  lemma PassClose(text: string, start: int, cursor: nat, depth: int, nextOpen: int, p: int)
    requires Scanned(text, start, cursor, depth) && IsIndex(text, cursor, CLOSE, p) && p >= 0
    requires IsIndex(text, cursor, OPEN, nextOpen) && (nextOpen < 0 || p <= nextOpen)
    ensures Passed(text, start, cursor, p + |CLOSE|, depth - 1, depth == 1)
  {
    NotBoth(text, p);
    AdvanceOver(text, start, cursor, p, p + |CLOSE|);
  }

  /** There is no further tag. */
  lemma PassNone(text: string, start: int, cursor: nat, depth: int)
    requires Scanned(text, start, cursor, depth) && IsIndex(text, cursor, OPEN, -1) && IsIndex(text, cursor, CLOSE, -1)
    ensures Passed(text, start, cursor, -1, depth, false)
  {
    assert NoTagStartsIn(text, cursor, |text|);
    ScanEnd(text, start, cursor, depth);
  }

  lemma ScanEnd(text: string, start: int, cursor: int, depth: int)
    requires Scanned(text, start, cursor, depth) && NoTagStartsIn(text, cursor, |text|)
    ensures NoMatch(text, start)
  {}

  /** One iteration: the cursor passes the next tag, or there is none and next is -1. */
  method PassTag(text: string, start: nat, cursor: nat, depth: int) returns (next: int, depth': int, matched: bool)
    requires start <= cursor < |text| && Scanned(text, start, cursor, depth)
    ensures Passed(text, start, cursor, next, depth', matched)
  {
    var nextOpen := Index(text, cursor, OPEN);
    var nextClose := Index(text, cursor, CLOSE);
    if nextOpen >= 0 && (nextClose < 0 || nextOpen < nextClose) {
      PassOpen(text, start, cursor, depth, nextOpen, nextClose);
      return nextOpen + |OPEN|, depth + 1, false;
    }
    if nextClose >= 0 {
      PassClose(text, start, cursor, depth, nextOpen, nextClose);
      return nextClose + |CLOSE|, depth - 1, depth == 1;
    }
    PassNone(text, start, cursor, depth);
    return -1, depth, false;
  }

  method MatchingEnd(text: string, start: nat) returns (end: int)
    requires start <= |text|
    ensures end == -1 ==> NoMatch(text, start)
    ensures end != -1 ==> end <= |text| && IsMatch(text, start, end)
  {
    var cursor, depth := start, 0;
    while cursor < |text|
      invariant start <= cursor <= |text|
      invariant Scanned(text, start, cursor, depth)
    {
      var next, depth', matched := PassTag(text, start, cursor, depth);
      if next == -1 || matched {
        return next;
      }
      cursor, depth := next, depth';
    }
    ScanEnd(text, start, cursor, depth);
    return -1;
  }

  /** Moving the cursor over the next tag. */
  lemma AdvanceOver(text: string, start: int, cursor: int, p: int, q: int)
    requires start <= cursor <= p && Clean(text, start, cursor)
    requires (OpenAt(text, p) && q == p + |OPEN|) || (CloseAt(text, p) && q == p + |CLOSE|)
    requires NoTagStartsIn(text, cursor, p)
    ensures Clean(text, start, q)
    ensures Depth(text, start, q) == Depth(text, start, cursor) + if OpenAt(text, p) then 1 else -1
    ensures forall e :: cursor < e < q ==>
      !CloseEnds(text, start, e) && Depth(text, start, e) == Depth(text, start, cursor)
    ensures OpenAt(text, p) ==> !CloseEnds(text, start, q)
  {
    NotBoth(text, p);
    CleanBoundary(text, start, q);
    OneTagDepth(text, cursor, p, q);
    DepthSplit(text, start, cursor, q);
    forall e | cursor < e < q
      ensures !CloseEnds(text, start, e) && Depth(text, start, e) == Depth(text, start, cursor)
    {
      DepthSplit(text, start, cursor, e);
      assert CloseEnds(text, start, e) ==> CloseEnds(text, cursor, e);
    }
    assert OpenAt(text, p) ==> !CloseAt(text, q - |CLOSE|) || q - |CLOSE| < cursor;
  }

  /** Between an opening tag and its match the depth stays positive. */
  lemma {:induction false} MatchEncloses(text: string, start: int, end: int, p: int)
    requires OpenAt(text, start) && IsMatch(text, start, end) && start + |OPEN| <= p < end
    ensures Depth(text, start, p) >= 1
    decreases p
  {
    if p == start + |OPEN| {
      OneTagDepth(text, start, start, p);
    } else {
      MatchEncloses(text, start, end, p - 1);
    }
  }

  lemma MatchUnique(text: string, start: int, e: int, f: int)
    requires IsMatch(text, start, e) && IsMatch(text, start, f)
    ensures e == f
  {}

  // ----- extraction -----

  datatype Span = Span(start: int, end: int)

  function EndBefore(cursor: int, blocks: seq<Span>, i: nat): int
    requires i <= |blocks|
  {
    if i == 0 then cursor else blocks[i - 1].end
  }

  ghost predicate IsFirstOpen(text: string, from: int, p: int) {
    from <= p && OpenAt(text, p) && forall i :: from <= i < p ==> !OpenAt(text, i)
  }

  ghost predicate IsBlockAfter(text: string, from: int, b: Span) {
    IsFirstOpen(text, from, b.start) && IsMatch(text, b.start, b.end)
  }

  /** No further block: there is no opening tag, or the first one is never closed. */
  ghost predicate Exhausted(text: string, from: int) {
    forall p :: IsFirstOpen(text, from, p) ==> NoMatch(text, p)
  }

  ghost predicate BlockAt(text: string, cursor: int, blocks: seq<Span>, i: int) {
    0 <= i < |blocks| && IsBlockAfter(text, EndBefore(cursor, blocks, i), blocks[i])
  }

  ghost predicate IsChain(text: string, cursor: int, blocks: seq<Span>) {
    forall i :: 0 <= i < |blocks| ==> BlockAt(text, cursor, blocks, i)
  }

  ghost predicate IsExtraction(text: string, cursor: int, blocks: seq<Span>) {
    IsChain(text, cursor, blocks) && Exhausted(text, EndBefore(cursor, blocks, |blocks|))
  }

  method ExtractTopLevel(text: string) returns (blocks: seq<Span>)
    ensures IsExtraction(text, 0, blocks)
  {
    blocks := [];
    var cursor := 0;
    while true
      invariant 0 <= cursor <= |text|
      invariant IsChain(text, 0, blocks) && cursor == EndBefore(0, blocks, |blocks|)
      decreases |text| - cursor
    {
      var start := Index(text, cursor, OPEN);
      if start < 0 {
        return;
      }
      assert IsFirstOpen(text, cursor, start);
      var end := MatchingEnd(text, start);
      if end < 0 {
        return;
      }
      ChainGrows(text, 0, blocks, Span(start, end));
      blocks := blocks + [Span(start, end)];
      cursor := end;
    }
  }

  lemma ChainGrows(text: string, cursor: int, blocks: seq<Span>, b: Span)
    requires IsChain(text, cursor, blocks) && IsBlockAfter(text, EndBefore(cursor, blocks, |blocks|), b)
    ensures IsChain(text, cursor, blocks + [b])
  {
    var more := blocks + [b];
    forall i | 0 <= i < |more| ensures BlockAt(text, cursor, more, i) {
      assert i < |blocks| ==> BlockAt(text, cursor, blocks, i);
    }
  }

  /** The text determines its extraction. */
  lemma ExtractionUnique(text: string, cursor: int, a: seq<Span>, b: seq<Span>)
    requires IsExtraction(text, cursor, a) && IsExtraction(text, cursor, b)
    ensures a == b
  {
    assert |a| < |b| ==> BlockAt(text, cursor, b, |a|);
    assert |b| < |a| ==> BlockAt(text, cursor, a, |b|);
    ChainsAgree(text, cursor, a, b, if |a| < |b| then |a| else |b|);
  }

  lemma NextBlockUnique(text: string, from: int, a: Span, b: Span)
    requires IsBlockAfter(text, from, a) && IsBlockAfter(text, from, b)
    ensures a == b
  {
    MatchUnique(text, a.start, a.end, b.end);
  }

  lemma {:induction false} ChainsAgree(text: string, cursor: int, a: seq<Span>, b: seq<Span>, n: nat)
    requires IsChain(text, cursor, a) && IsChain(text, cursor, b) && n <= |a| && n <= |b|
    ensures a[..n] == b[..n]
  {
    if n > 0 {
      ChainsAgree(text, cursor, a, b, n - 1);
      assert n > 1 ==> a[..n - 1][n - 2] == b[..n - 1][n - 2];
      assert BlockAt(text, cursor, a, n - 1) && BlockAt(text, cursor, b, n - 1);
      NextBlockUnique(text, EndBefore(cursor, a, n - 1), a[n - 1], b[n - 1]);
    }
  }

  /** Blocks increase and do not overlap. */
  lemma {:induction false} BlocksInOrder(text: string, cursor: int, blocks: seq<Span>, i: nat)
    requires 0 <= cursor <= |text| && IsChain(text, cursor, blocks) && i <= |blocks|
    ensures cursor <= EndBefore(cursor, blocks, i) <= |text|
    ensures i < |blocks| ==> EndBefore(cursor, blocks, i) <= blocks[i].start < blocks[i].end <= |text|
  {
    if i > 0 {
      BlocksInOrder(text, cursor, blocks, i - 1);
    }
    assert i < |blocks| ==> BlockAt(text, cursor, blocks, i);
  }

  /** The gaps before the first n blocks, with or without the blocks themselves. */
  ghost function Weave(text: string, cursor: int, blocks: seq<Span>, n: nat, keep: bool): string
    requires 0 <= cursor <= |text| && IsChain(text, cursor, blocks) && n <= |blocks|
    decreases n
  {
    if n == 0 then ""
    else
      BlocksInOrder(text, cursor, blocks, n - 1);
      var b := blocks[n - 1];
      Weave(text, cursor, blocks, n - 1, keep) + text[EndBefore(cursor, blocks, n - 1)..b.start]
      + if keep then text[b.start..b.end] else ""
  }

  ghost function Rest(text: string, cursor: int, blocks: seq<Span>): string
    requires 0 <= cursor <= |text| && IsChain(text, cursor, blocks)
  {
    BlocksInOrder(text, cursor, blocks, |blocks|);
    text[EndBefore(cursor, blocks, |blocks|)..]
  }

  /** Gaps and blocks interleaved rebuild the text. */
  lemma {:induction false} WeaveRebuilds(text: string, cursor: int, blocks: seq<Span>, n: nat)
    requires 0 <= cursor <= |text| && IsChain(text, cursor, blocks) && n <= |blocks|
    ensures cursor <= EndBefore(cursor, blocks, n) <= |text|
    ensures Weave(text, cursor, blocks, n, true) == text[cursor..EndBefore(cursor, blocks, n)]
  {
    if n > 0 {
      WeaveRebuilds(text, cursor, blocks, n - 1);
      BlocksInOrder(text, cursor, blocks, n - 1);
      var b := blocks[n - 1];
      ThreeParts(text, cursor, EndBefore(cursor, blocks, n - 1), b.start, b.end);
    }
    BlocksInOrder(text, cursor, blocks, n);
  }

  lemma ThreeParts(text: string, a: int, b: int, c: int, d: int)
    requires 0 <= a <= b <= c <= d <= |text|
    ensures text[a..b] + text[b..c] + text[c..d] == text[a..d]
  {
  }

  // ----- stripping -----

  /** The text outside the top-level blocks, trimmed. */
  ghost predicate IsStripped(text: string, r: string) {
    exists blocks ::
      IsExtraction(text, 0, blocks) && r == TrimSpace(Weave(text, 0, blocks, |blocks|, false) + Rest(text, 0, blocks))
  }

  method StripTopLevel(text: string) returns (r: string)
    ensures IsStripped(text, r)
  {
    var blocks := ExtractTopLevel(text);
    if |blocks| == 0 {
      assert Weave(text, 0, blocks, 0, false) + Rest(text, 0, blocks) == text;
      return TrimSpace(text);
    }
    var builder, cursor := "", 0;
    for n := 0 to |blocks|
      invariant 0 <= cursor <= |text| && cursor == EndBefore(0, blocks, n)
      invariant builder == Weave(text, 0, blocks, n, false)
    {
      BlocksInOrder(text, 0, blocks, n);
      if blocks[n].start > cursor {
        builder := builder + text[cursor..blocks[n].start];
      }
      cursor := blocks[n].end;
    }
    if cursor < |text| {
      builder := builder + text[cursor..];
    }
    assert builder == Weave(text, 0, blocks, |blocks|, false) + Rest(text, 0, blocks);
    r := TrimSpace(builder);
  }

  lemma StrippedUnique(text: string, r: string, r': string)
    requires IsStripped(text, r) && IsStripped(text, r')
    ensures r == r'
  {
    var a :| IsExtraction(text, 0, a) && r == TrimSpace(Weave(text, 0, a, |a|, false) + Rest(text, 0, a));
    var b :| IsExtraction(text, 0, b) && r' == TrimSpace(Weave(text, 0, b, |b|, false) + Rest(text, 0, b));
    ExtractionUnique(text, 0, a, b);
  }

  // ----- well-nested documents -----

  /** A text with its blocks made explicit: text, then a block and the rest. */
  datatype Doc = Last(text: string) | Block(before: string, inside: Doc, rest: Doc)

  ghost predicate TagFree(s: string) {
    forall i :: !OpenAt(s, i) && !CloseAt(s, i)
  }

  ghost predicate WellFormed(doc: Doc) {
    match doc
    case Last(text) => TagFree(text)
    case Block(before, inside, rest) => TagFree(before) && WellFormed(inside) && WellFormed(rest)
  }

  function Render(doc: Doc): string {
    match doc
    case Last(text) => text
    case Block(before, inside, rest) => before + OPEN + Render(inside) + CLOSE + Render(rest)
  }

  function TopBlocks(doc: Doc, at: int): seq<Span> {
    match doc
    case Last(_) => []
    case Block(before, inside, rest) =>
      var start := at + |before|;
      var end := start + |OPEN| + |Render(inside)| + |CLOSE|;
      [Span(start, end)] + TopBlocks(rest, end)
  }

  function TopText(doc: Doc): string {
    match doc
    case Last(text) => text
    case Block(before, _, rest) => before + TopText(rest)
  }

  ghost predicate Balanced(text: string, a: int, b: int) {
    Depth(text, a, b) == 0 && forall p :: a <= p <= b ==> Depth(text, a, p) >= 0
  }

  /** An occurrence inside an occurrence. */
  lemma OccursInside(text: string, s: string, at: int, part: string, i: int)
    requires OccursAt(text, s, at) && OccursAt(s, part, i)
    ensures OccursAt(text, part, at + i)
  {
    forall k | 0 <= k < |part| ensures text[at + i + k] == part[k] {
      assert s[i + k] == s[i..i + |part|][k];
      assert text[at + (i + k)] == text[at..at + |s|][i + k];
    }
    assert text[at + i..at + i + |part|] == part;
  }

  lemma OccursBetween(a: string, part: string, b: string)
    ensures OccursAt(a + part + b, part, |a|)
  {
    assert (a + part + b)[|a|..|a| + |part|] == part;
  }

  /** Where the parts of a rendered block lie. */
  lemma PartsOf(text: string, at: int, doc: Doc, end: int) returns (start: int, close: int)
    requires doc.Block? && OccursAt(text, Render(doc), at) && end == at + |Render(doc)|
    ensures start == at + |doc.before| && close == start + |OPEN| + |Render(doc.inside)|
    ensures end == close + |CLOSE| + |Render(doc.rest)|
    ensures OccursAt(text, doc.before, at) && OpenAt(text, start) && CloseAt(text, close)
    ensures OccursAt(text, Render(doc.inside), start + |OPEN|) && OccursAt(text, Render(doc.rest), close + |CLOSE|)
  {
    var r, inside, rest := Render(doc), Render(doc.inside), Render(doc.rest);
    Reassociate(doc.before, OPEN, inside, CLOSE, rest);
    PartOf(text, at, r, "", doc.before, OPEN + inside + CLOSE + rest);
    PartOf(text, at, r, doc.before, OPEN, inside + CLOSE + rest);
    PartOf(text, at, r, doc.before + OPEN, inside, CLOSE + rest);
    PartOf(text, at, r, doc.before + OPEN + inside, CLOSE, rest);
    PartOf(text, at, r, doc.before + OPEN + inside + CLOSE, rest, "");
    start := at + |doc.before|;
    close := start + |OPEN| + |inside|;
  }

  lemma Reassociate(a: string, b: string, c: string, d: string, e: string)
    ensures a + b + c + d + e == "" + a + (b + c + d + e) == a + b + (c + d + e)
    ensures a + b + c + d + e == (a + b) + c + (d + e) == (a + b + c + d) + e + ""
  {
  }

  lemma PartOf(text: string, at: int, r: string, a: string, part: string, b: string)
    requires OccursAt(text, r, at) && r == a + part + b
    ensures OccursAt(text, part, at + |a|)
  {
    OccursBetween(a, part, b);
    OccursInside(text, r, at, part, |a|);
  }

  lemma TagFreePart(text: string, at: int, s: string, i: int)
    requires OccursAt(text, s, at) && TagFree(s) && at <= i
    ensures OpenAt(text, i) ==> i + |OPEN| > at + |s|
    ensures CloseAt(text, i) ==> i + |CLOSE| > at + |s|
  {
    assert !OpenAt(s, i - at) && !CloseAt(s, i - at);
    if OpenAt(text, i) && i + |OPEN| <= at + |s| {
      OccursWithin(text, s, at, OPEN, i);
    }
    if CloseAt(text, i) && i + |CLOSE| <= at + |s| {
      OccursWithin(text, s, at, CLOSE, i);
    }
  }

  lemma OccursWithin(text: string, s: string, at: int, tag: string, i: int)
    requires OccursAt(text, s, at) && OccursAt(text, tag, i) && at <= i && i + |tag| <= at + |s|
    ensures OccursAt(s, tag, i - at)
  {
    forall k | 0 <= k < |tag| ensures s[i - at + k] == tag[k] {
      assert text[at..at + |s|][i - at + k] == text[i + k] == text[i..i + |tag|][k];
    }
    assert s[i - at..i - at + |tag|] == tag;
  }

  lemma TagFreeDepth(text: string, at: int, s: string, p: int)
    requires OccursAt(text, s, at) && TagFree(s) && at <= p <= at + |s|
    ensures Depth(text, at, p) == 0
  {
    forall i | at <= i < p ensures !(OpenAt(text, i) && i + |OPEN| <= p) && !(CloseAt(text, i) && i + |CLOSE| <= p) {
      TagFreePart(text, at, s, i);
    }
    NoTagNoDepth(text, at, p);
  }

  lemma BalancedJoin(text: string, a: int, b: int, c: int)
    requires a <= b <= c && Balanced(text, a, b) && Balanced(text, b, c) && Clean(text, a, b)
    ensures Balanced(text, a, c)
  {
    DepthSplit(text, a, b, c);
    forall p | a <= p <= c ensures Depth(text, a, p) >= 0 {
      if b < p {
        DepthSplit(text, a, b, p);
      }
    }
  }

  /** The depth at p, counted from the opening tag of a block with a balanced inside. */
  lemma DepthInBlock(text: string, start: int, close: int, p: int)
    requires OpenAt(text, start) && start + |OPEN| <= close && CloseAt(text, close)
    requires Balanced(text, start + |OPEN|, close) && start <= p <= close + |CLOSE|
    ensures p < start + |OPEN| ==> Depth(text, start, p) == 0 && !CloseEnds(text, start, p)
    ensures start + |OPEN| <= p < close + |CLOSE| ==> Depth(text, start, p) >= 1
    ensures p == close + |CLOSE| ==> Depth(text, start, p) == 0
  {
    var inside := start + |OPEN|;
    OneTagDepth(text, start, start, inside);
    if inside <= p {
      CleanBoundary(text, start, inside);
      DepthSplit(text, start, inside, p);
      if close < p {
        TagsStartWithAngle(text, close);
        CleanBoundary(text, inside, close);
        DepthSplit(text, inside, close, p);
        NotBoth(text, close);
        OneTagDepth(text, close, close, close + |CLOSE|);
      }
    }
  }

  lemma BlockMatches(text: string, start: int, close: int)
    requires OpenAt(text, start) && start + |OPEN| <= close && CloseAt(text, close)
    requires Balanced(text, start + |OPEN|, close)
    ensures IsMatch(text, start, close + |CLOSE|) && Balanced(text, start, close + |CLOSE|)
  {
    forall p | start <= p <= close + |CLOSE|
      ensures Depth(text, start, p) >= 0
      ensures p < close + |CLOSE| && CloseEnds(text, start, p) ==> Depth(text, start, p) != 0
    {
      DepthInBlock(text, start, close, p);
    }
    DepthInBlock(text, start, close, close + |CLOSE|);
  }

  lemma TagFreeBalanced(text: string, at: int, s: string, end: int)
    requires OccursAt(text, s, at) && TagFree(s) && end == at + |s|
    ensures Balanced(text, at, end)
  {
    forall p | at <= p <= end ensures Depth(text, at, p) == 0 {
      TagFreeDepth(text, at, s, p);
    }
  }

  lemma BlockBalances(text: string, at: int, start: int, close: int, end: int)
    requires at <= start && start + |OPEN| <= close && close + |CLOSE| <= end
    requires OpenAt(text, start) && CloseAt(text, close)
    requires Balanced(text, at, start) && Balanced(text, start + |OPEN|, close) && Balanced(text, close + |CLOSE|, end)
    ensures Balanced(text, at, end)
  {
    BlockMatches(text, start, close);
    TagsStartWithAngle(text, start);
    CleanBoundary(text, at, start);
    CleanBoundary(text, start, close + |CLOSE|);
    BalancedJoin(text, start, close + |CLOSE|, end);
    BalancedJoin(text, at, start, end);
  }

  /** A rendered document is balanced wherever it stands. */
  lemma {:induction false} RenderBalanced(text: string, at: int, doc: Doc, end: int)
    requires OccursAt(text, Render(doc), at) && WellFormed(doc) && end == at + |Render(doc)|
    ensures Balanced(text, at, end)
    decreases doc
  {
    match doc
    case Last(s) =>
      TagFreeBalanced(text, at, s, end);
    case Block(before, inside, rest) =>
      var start, close := PartsOf(text, at, doc, end);
      TagFreeBalanced(text, at, before, start);
      RenderBalanced(text, start + |OPEN|, inside, close);
      RenderBalanced(text, close + |CLOSE|, rest, end);
      BlockBalances(text, at, start, close, end);
  }

  /** The first block of a rendered document is found by the matcher. */
  lemma FindsFirstBlock(text: string, at: int, doc: Doc) returns (b: Span)
    requires doc.Block? && OccursAt(text, Render(doc), at) && WellFormed(doc)
    ensures IsBlockAfter(text, at, b) && TopBlocks(doc, at) == [b] + TopBlocks(doc.rest, b.end)
    ensures OccursAt(text, Render(doc.rest), b.end) && b.end + |Render(doc.rest)| == at + |Render(doc)|
    ensures OccursAt(text, doc.before, at) && b.start == at + |doc.before|
  {
    var start, close := PartsOf(text, at, doc, at + |Render(doc)|);
    b := Span(start, close + |CLOSE|);
    FirstOfTopBlocks(doc, at, b);
    RenderBalanced(text, start + |OPEN|, doc.inside, close);
    ClosedBlockIsFirst(text, at, doc.before, start, close);
  }

  lemma FirstOfTopBlocks(doc: Doc, at: int, b: Span)
    requires doc.Block? && b.start == at + |doc.before| && b.end == b.start + |OPEN| + |Render(doc.inside)| + |CLOSE|
    ensures TopBlocks(doc, at) == [b] + TopBlocks(doc.rest, b.end)
  {
  }

  lemma ClosedBlockIsFirst(text: string, at: int, before: string, start: int, close: int)
    requires OccursAt(text, before, at) && TagFree(before) && start == at + |before|
    requires OpenAt(text, start) && start + |OPEN| <= close && CloseAt(text, close)
    requires Balanced(text, start + |OPEN|, close)
    ensures IsBlockAfter(text, at, Span(start, close + |CLOSE|))
  {
    BlockMatches(text, start, close);
    FirstOpenAfter(text, at, before, start);
  }

  lemma FirstOpenAfter(text: string, at: int, before: string, start: int)
    requires OccursAt(text, before, at) && TagFree(before) && start == at + |before| && OpenAt(text, start)
    ensures IsFirstOpen(text, at, start)
  {
    TagsStartWithAngle(text, start);
    CleanBoundary(text, at, start);
    forall i | at <= i < start ensures !OpenAt(text, i) {
      TagFreePart(text, at, before, i);
    }
  }

  /** The blocks of a document that ends the text are what extraction finds from its start. */
  lemma {:induction false} ExtractsTopBlocks(text: string, at: nat, doc: Doc)
    requires OccursAt(text, Render(doc), at) && WellFormed(doc) && at + |Render(doc)| == |text|
    ensures IsExtraction(text, at, TopBlocks(doc, at))
    decreases doc
  {
    match doc
    case Last(s) =>
      forall p | at <= p ensures !OpenAt(text, p) {
        TagFreePart(text, at, s, p);
      }
    case Block(before, inside, rest) =>
      var b := FindsFirstBlock(text, at, doc);
      ExtractsTopBlocks(text, b.end, rest);
      ExtractionCons(text, at, b, TopBlocks(rest, b.end));
  }

  lemma ExtractionCons(text: string, cursor: int, b: Span, rest: seq<Span>)
    requires IsBlockAfter(text, cursor, b) && IsExtraction(text, b.end, rest)
    ensures IsExtraction(text, cursor, [b] + rest)
  {
    var blocks := [b] + rest;
    forall i | 0 <= i < |blocks| ensures BlockAt(text, cursor, blocks, i) {
      if i > 0 {
        assert BlockAt(text, b.end, rest, i - 1);
      }
    }
  }

  lemma {:induction false} WeaveCons(text: string, cursor: int, b: Span, rest: seq<Span>, all: seq<Span>, n: nat)
    requires 0 <= cursor <= |text| && IsBlockAfter(text, cursor, b) && IsExtraction(text, b.end, rest) && n <= |rest|
    requires all == [b] + rest && IsExtraction(text, cursor, all)
    ensures cursor <= b.start < b.end <= |text|
    ensures Weave(text, cursor, all, n + 1, false) == text[cursor..b.start] + Weave(text, b.end, rest, n, false)
    ensures Rest(text, cursor, all) == Rest(text, b.end, rest)
  {
    BlocksInOrder(text, cursor, all, 0);
    if n > 0 {
      WeaveCons(text, cursor, b, rest, all, n - 1);
      BlocksInOrder(text, b.end, rest, n - 1);
      var gap := text[EndBefore(b.end, rest, n - 1)..rest[n - 1].start];
      assert all[n] == rest[n - 1] && EndBefore(cursor, all, n) == EndBefore(b.end, rest, n - 1);
      PlusAssociates(text[cursor..b.start], Weave(text, b.end, rest, n - 1, false), gap);
    } else {
      assert "" + text[cursor..b.start] + "" == text[cursor..b.start];
    }
  }

  lemma PlusAssociates(a: string, b: string, c: string)
    ensures a + b + c + "" == a + (b + c + "")
  {
    assert a + b + c + "" == a + b + c && b + c + "" == b + c;
  }

  lemma {:induction false} LeavesTopText(text: string, at: nat, doc: Doc)
    requires OccursAt(text, Render(doc), at) && WellFormed(doc) && at + |Render(doc)| == |text|
    ensures IsExtraction(text, at, TopBlocks(doc, at))
    ensures Weave(text, at, TopBlocks(doc, at), |TopBlocks(doc, at)|, false) + Rest(text, at, TopBlocks(doc, at))
      == TopText(doc)
    decreases doc
  {
    ExtractsTopBlocks(text, at, doc);
    match doc
    case Last(s) =>
      assert text[at..] == s;
    case Block(before, inside, rest) =>
      var b := FindsFirstBlock(text, at, doc);
      LeavesTopText(text, b.end, rest);
      BlockLeavesText(text, at, b, TopBlocks(rest, b.end), before);
  }

  /** What a block and the text before it add to what is left. */
  lemma BlockLeavesText(text: string, at: nat, b: Span, tail: seq<Span>, before: string)
    requires at <= |text| && IsBlockAfter(text, at, b) && IsExtraction(text, b.end, tail)
    requires IsExtraction(text, at, [b] + tail)
    requires 0 <= b.end <= |text| && OccursAt(text, before, at) && b.start == at + |before|
    ensures Weave(text, at, [b] + tail, |[b] + tail|, false) + Rest(text, at, [b] + tail)
         == before + (Weave(text, b.end, tail, |tail|, false) + Rest(text, b.end, tail))
  {
    WeaveCons(text, at, b, tail, [b] + tail, |tail|);
  }

  /** Round trip: the blocks of a rendered well-nested document are its top-level blocks,
      and stripping leaves its top-level text. */
  lemma RoundTrip(doc: Doc)
    requires WellFormed(doc)
    ensures IsExtraction(Render(doc), 0, TopBlocks(doc, 0))
    ensures IsStripped(Render(doc), TrimSpace(TopText(doc)))
  {
    LeavesTopText(Render(doc), 0, doc);
  }

  // ----- every balanced text is a document -----

  /** The first position after a where the depth is zero again, past an opening tag at start. */
  lemma {:induction false} FirstReturn(text: string, start: int, p: int, b: int) returns (end: int)
    requires OpenAt(text, start) && start + |OPEN| <= p <= b && Depth(text, start, b) == 0
    requires forall q :: start + |OPEN| <= q <= p ==> Depth(text, start, q) >= 1
    ensures p < end <= b && Depth(text, start, end) == 0 && CloseEnds(text, start, end)
    ensures forall q :: start + |OPEN| <= q < end ==> Depth(text, start, q) >= 1
    decreases b - p
  {
    if Depth(text, start, p + 1) == 0 {
      end := p + 1;
    } else {
      end := FirstReturn(text, start, p + 1, b);
    }
  }

  lemma OpenAdvances(text: string, start: int)
    requires OpenAt(text, start)
    ensures Depth(text, start, start + |OPEN|) == 1
    ensures forall e :: e < start + |OPEN| + |CLOSE| ==> !CloseEnds(text, start, e)
  {
    NotBoth(text, start);
    OneTagDepth(text, start, start, start + |OPEN|);
    forall e | e < start + |OPEN| + |CLOSE| ensures !CloseEnds(text, start, e) {
      var i := e - |CLOSE|;
      if start < i < start + |OPEN| {
        TagsDoNotOverlap(text, start, i);
      }
    }
  }

  /** The inside of a block is balanced. */
  lemma InsideBalanced(text: string, start: int, end: int)
    requires OpenAt(text, start) && Depth(text, start, end) == 0 && CloseEnds(text, start, end)
    requires start + |OPEN| <= end - |CLOSE|
    requires forall q :: start + |OPEN| <= q < end ==> Depth(text, start, q) >= 1
    ensures Balanced(text, start + |OPEN|, end - |CLOSE|)
  {
    var inside, close := start + |OPEN|, end - |CLOSE|;
    TagsStartWithAngle(text, close);
    CleanBoundary(text, start, inside);
    OpenAdvances(text, start);
    forall q | inside <= q <= close ensures Depth(text, inside, q) == Depth(text, start, q) - 1 {
      DepthSplit(text, start, inside, q);
    }
    CleanBoundary(text, start, close);
    DepthSplit(text, start, close, end);
    NotBoth(text, close);
    OneTagDepth(text, close, close, end);
  }

  /** What follows a block is balanced when the whole is. */
  lemma RestBalanced(text: string, a: int, start: int, end: int, b: int)
    requires 0 <= a <= start < end <= b && Balanced(text, a, b) && OpenAt(text, start)
    requires Depth(text, a, start) == 0 && Depth(text, start, end) == 0 && CloseEnds(text, start, end)
    ensures Balanced(text, end, b)
  {
    TagsStartWithAngle(text, start);
    CleanBoundary(text, a, start);
    CleanBoundary(text, a, end);
    DepthSplit(text, a, start, end);
    forall q | end <= q <= b ensures Depth(text, a, q) == Depth(text, end, q) {
      DepthSplit(text, a, end, q);
    }
  }

  lemma {:induction false} NoOpenNoClose(text: string, a: int, p: int)
    requires a <= p && forall q :: a <= q <= p ==> Depth(text, a, q) >= 0 && !OpenEnds(text, a, q)
    ensures Depth(text, a, p) == 0 && forall q :: a <= q <= p ==> !CloseEnds(text, a, q)
    decreases p - a
  {
    if a < p {
      NoOpenNoClose(text, a, p - 1);
      assert !OpenEnds(text, a, p) && Depth(text, a, p) >= 0;
      assert Depth(text, a, p) == 0 - if CloseEnds(text, a, p) then 1 else 0;
    }
  }

  lemma RangeTagFree(text: string, a: int, p: int)
    requires 0 <= a <= p <= |text| && forall q :: a <= q <= p ==> !OpenEnds(text, a, q) && !CloseEnds(text, a, q)
    ensures TagFree(text[a..p])
  {
    var s := text[a..p];
    forall i ensures !OpenAt(s, i) && !CloseAt(s, i) {
      if OpenAt(s, i) {
        OccursInside(text, s, a, OPEN, i);
        assert OpenEnds(text, a, a + i + |OPEN|);
      }
      if CloseAt(s, i) {
        OccursInside(text, s, a, CLOSE, i);
        assert CloseEnds(text, a, a + i + |CLOSE|);
      }
    }
  }

  lemma {:induction false} LeastOpenEnd(text: string, a: int, b: int) returns (end: int)
    requires OpenEnds(text, a, b)
    ensures end <= b && OpenEnds(text, a, end) && forall q :: q < end ==> !OpenEnds(text, a, q)
    decreases b - a
  {
    if q :| q < b && OpenEnds(text, a, q) {
      end := LeastOpenEnd(text, a, q);
    } else {
      end := b;
    }
  }

  /** The text before the first block of a balanced range that has an opening tag. */
  lemma LeadingText(text: string, a: int, b: int, q: int) returns (start: int, inside: int)
    requires 0 <= a <= b <= |text| && Balanced(text, a, b) && q <= b && OpenEnds(text, a, q)
    ensures a <= start && inside == start + |OPEN| <= b && OpenAt(text, start)
    ensures TagFree(text[a..start]) && Depth(text, a, start) == 0 && Depth(text, start, b) == 0
  {
    inside := LeastOpenEnd(text, a, q);
    start := inside - |OPEN|;
    NoOpenNoClose(text, a, start);
    RangeTagFree(text, a, start);
    TagsStartWithAngle(text, start);
    CleanBoundary(text, a, start);
    DepthSplit(text, a, start, b);
  }

  /** The first block of a balanced range that has an opening tag. */
  lemma FirstBlockOf(text: string, a: int, b: int, q: int) returns (start: int, inside: int, close: int, end: int)
    requires 0 <= a <= b <= |text| && Balanced(text, a, b) && q <= b && OpenEnds(text, a, q)
    ensures a <= start < inside <= close < end <= b
    ensures OpenAt(text, start) && inside == start + |OPEN| && CloseAt(text, close) && end == close + |CLOSE|
    ensures TagFree(text[a..start]) && Balanced(text, inside, close) && Balanced(text, end, b)
  {
    start, inside := LeadingText(text, a, b, q);
    OpenAdvances(text, start);
    end := FirstReturn(text, start, inside, b);
    close := end - |CLOSE|;
    InsideBalanced(text, start, end);
    RestBalanced(text, a, start, end, b);
  }

  lemma RenderParts(text: string, a: int, start: int, inside: int, close: int, end: int, b: int, middle: Doc, rest: Doc)
    requires 0 <= a <= start <= inside <= close <= end <= b <= |text|
    requires OpenAt(text, start) && inside == start + |OPEN| && CloseAt(text, close) && end == close + |CLOSE|
    requires Render(middle) == text[inside..close] && Render(rest) == text[end..b]
    ensures Render(Block(text[a..start], middle, rest)) == text[a..b]
  {
    FiveParts(text, a, start, inside, close, end, b);
  }

  /** Every balanced text is the rendering of a well-nested document. */
  lemma {:induction false} ParseBalanced(text: string, a: int, b: int) returns (doc: Doc)
    requires 0 <= a <= b <= |text| && Balanced(text, a, b)
    ensures WellFormed(doc) && Render(doc) == text[a..b]
    decreases b - a
  {
    if q :| a <= q <= b && OpenEnds(text, a, q) {
      var start, inside, close, end := FirstBlockOf(text, a, b, q);
      var middle := ParseBalanced(text, inside, close);
      var rest := ParseBalanced(text, end, b);
      doc := Block(text[a..start], middle, rest);
      RenderParts(text, a, start, inside, close, end, b, middle, rest);
    } else {
      NoOpenNoClose(text, a, b);
      RangeTagFree(text, a, b);
      doc := Last(text[a..b]);
    }
  }

  lemma FiveParts(text: string, a: int, s: int, i: int, c: int, e: int, b: int)
    requires 0 <= a <= s <= i <= c <= e <= b <= |text|
    ensures text[a..s] + text[s..i] + text[i..c] + text[c..e] + text[e..b] == text[a..b]
  {
    TwoParts(text, a, s, i);
    TwoParts(text, a, i, c);
    TwoParts(text, a, c, e);
    TwoParts(text, a, e, b);
  }

  lemma TwoParts(text: string, a: int, b: int, c: int)
    requires 0 <= a <= b <= c <= |text|
    ensures text[a..b] + text[b..c] == text[a..c]
  {
    assert forall k :: 0 <= k < c - a ==> (text[a..b] + text[b..c])[k] == text[a..c][k];
  }

  /** Exactly the balanced texts are renderings of well-nested documents; for these the
      extraction is their top-level blocks. */
  lemma BalancedTexts(text: string)
    ensures Balanced(text, 0, |text|) <==> exists doc :: WellFormed(doc) && Render(doc) == text
    ensures forall doc :: WellFormed(doc) && Render(doc) == text ==>
      IsExtraction(text, 0, TopBlocks(doc, 0)) && IsStripped(text, TrimSpace(TopText(doc)))
  {
    if Balanced(text, 0, |text|) {
      var doc := ParseBalanced(text, 0, |text|);
      assert text[0..|text|] == text;
    }
    forall doc | WellFormed(doc) && Render(doc) == text
      ensures Balanced(text, 0, |text|)
      ensures IsExtraction(text, 0, TopBlocks(doc, 0)) && IsStripped(text, TrimSpace(TopText(doc)))
    {
      RenderBalanced(text, 0, doc, |text|);
      RoundTrip(doc);
    }
  }

  // ----- when the stripped text holds a tag -----

  /** A tag of either kind at position i. */
  predicate TagAt(text: string, tag: string, i: int) {
    (tag == OPEN || tag == CLOSE) && OccursAt(text, tag, i)
  }

  ghost predicate HoldsTag(text: string) {
    !TagFree(text)
  }

  /** Trimming takes no tag away and adds none: tags hold no white space. */
  lemma {:induction false} TrimLeftKeepsTags(s: string)
    ensures HoldsTag(TrimLeft(s)) <==> HoldsTag(s)
  {
    if s != "" && IsSpace(s[0]) {
      TrimLeftKeepsTags(s[1..]);
      forall i, tag | TagAt(s, tag, i) ensures TagAt(s[1..], tag, i - 1) {
        assert i != 0 by { TagsStartWithAngle(s, i); }
        assert s[1..][i - 1..i - 1 + |tag|] == s[i..i + |tag|];
      }
      forall i, tag | TagAt(s[1..], tag, i) ensures TagAt(s, tag, i + 1) {
        assert s[1..][i..i + |tag|] == s[i + 1..i + 1 + |tag|];
      }
      HoldsTagAt(s);
      HoldsTagAt(s[1..]);
    }
  }

  lemma {:induction false} TrimRightKeepsTags(s: string)
    ensures HoldsTag(TrimRight(s)) <==> HoldsTag(s)
  {
    if s != "" && IsSpace(s[|s| - 1]) {
      var init := s[..|s| - 1];
      TrimRightKeepsTags(init);
      forall i, tag | TagAt(s, tag, i) ensures TagAt(init, tag, i) {
        assert s[i + |tag| - 1] == s[i..i + |tag|][|tag| - 1] == '>';
        assert init[i..i + |tag|] == s[i..i + |tag|];
      }
      forall i, tag | TagAt(init, tag, i) ensures TagAt(s, tag, i) {
        assert init[i..i + |tag|] == s[i..i + |tag|];
      }
      HoldsTagAt(s);
      HoldsTagAt(init);
    }
  }

  lemma HoldsTagAt(s: string)
    ensures HoldsTag(s) <==> exists i, tag :: TagAt(s, tag, i)
  {
    if HoldsTag(s) {
      var i :| OpenAt(s, i) || CloseAt(s, i);
      assert TagAt(s, if OpenAt(s, i) then OPEN else CLOSE, i);
    }
    forall i, tag | TagAt(s, tag, i) ensures OpenAt(s, i) || CloseAt(s, i) {
    }
  }

  lemma TrimKeepsTags(s: string)
    ensures HoldsTag(TrimSpace(s)) <==> HoldsTag(s)
  {
    TrimLeftKeepsTags(s);
    TrimRightKeepsTags(TrimLeft(s));
  }

  /** The text between the blocks: gap n lies before block n, the last gap ends the text. */
  ghost function Gap(text: string, blocks: seq<Span>, n: nat): string
    requires IsChain(text, 0, blocks) && n <= |blocks|
  {
    BlocksInOrder(text, 0, blocks, n);
    text[EndBefore(0, blocks, n)..if n < |blocks| then blocks[n].start else |text|]
  }

  /** The first n gaps joined. */
  ghost function Joined(text: string, blocks: seq<Span>, n: nat): string
    requires IsChain(text, 0, blocks) && n <= |blocks| + 1
  {
    if n == 0 then "" else Joined(text, blocks, n - 1) + Gap(text, blocks, n - 1)
  }

  lemma {:induction false} JoinedIsWoven(text: string, blocks: seq<Span>, n: nat)
    requires IsChain(text, 0, blocks) && n <= |blocks|
    ensures Joined(text, blocks, n) == Weave(text, 0, blocks, n, false)
    ensures n == |blocks| ==> Joined(text, blocks, n + 1) == Weave(text, 0, blocks, n, false) + Rest(text, 0, blocks)
  {
    if n > 0 {
      JoinedIsWoven(text, blocks, n - 1);
      assert Weave(text, 0, blocks, n - 1, false) + Gap(text, blocks, n - 1) + ""
        == Weave(text, 0, blocks, n - 1, false) + Gap(text, blocks, n - 1);
    }
    if n == |blocks| {
      BlocksInOrder(text, 0, blocks, n);
      assert text[EndBefore(0, blocks, n)..|text|] == text[EndBefore(0, blocks, n)..];
    }
  }

  /** The gaps from the n-th on joined. */
  ghost function Behind(text: string, blocks: seq<Span>, n: nat): string
    requires IsChain(text, 0, blocks) && n <= |blocks| + 1
    decreases |blocks| + 1 - n
  {
    if n == |blocks| + 1 then "" else Gap(text, blocks, n) + Behind(text, blocks, n + 1)
  }

  ghost predicate EndsWith(s: string, part: string) {
    |part| <= |s| && s[|s| - |part|..] == part
  }

  /** A tag cut in two at k: the gaps before block n end with its first part, and the gaps behind
      the block start with the rest. */
  ghost predicate Straddles(text: string, blocks: seq<Span>, n: nat, tag: string, k: nat)
    requires IsChain(text, 0, blocks) && n < |blocks|
  {
    && (tag == OPEN || tag == CLOSE) && 0 < k < |tag|
    && EndsWith(Joined(text, blocks, n + 1), tag[..k]) && tag[k..] <= Behind(text, blocks, n + 1)
  }

  ghost predicate TagAcrossABlock(text: string, blocks: seq<Span>)
    requires IsChain(text, 0, blocks)
  {
    exists n, tag, k: nat :: 0 <= n < |blocks| && Straddles(text, blocks, n, tag, k)
  }

  lemma {:induction false} JoinedSplits(text: string, blocks: seq<Span>, n: nat)
    requires IsChain(text, 0, blocks) && n <= |blocks| + 1
    ensures Joined(text, blocks, |blocks| + 1) == Joined(text, blocks, n) + Behind(text, blocks, n)
    decreases |blocks| + 1 - n
  {
    if n <= |blocks| {
      JoinedSplits(text, blocks, n + 1);
      var before, gap, rest := Joined(text, blocks, n), Gap(text, blocks, n), Behind(text, blocks, n + 1);
      assert (before + gap) + rest == before + (gap + rest);
    }
  }

  /** An occurrence across the border of two strings is one part at the end and the rest at the start. */
  lemma OccursAcross(a: string, b: string, all: string, tag: string, k: nat)
    requires all == a + b && 0 < k < |tag|
    ensures EndsWith(a, tag[..k]) && tag[k..] <= b <==> OccursAt(all, tag, |a| - k)
  {
    var i := |a| - k;
    if OccursAt(all, tag, i) {
      assert tag == all[i..i + |tag|] == a[i..] + b[..|tag| - k];
      assert tag[..k] == a[i..] && tag[k..] == b[..|tag| - k];
    }
    if EndsWith(a, tag[..k]) && tag[k..] <= b {
      assert all[i..i + |tag|] == a[i..] + b[..|tag| - k] == tag[..k] + tag[k..] == tag;
    }
  }

  /** A string that crosses the place of block n in the joined gaps is cut in two by it. */
  lemma CrossesIff(text: string, blocks: seq<Span>, n: nat, tag: string, k: nat)
    requires IsChain(text, 0, blocks) && n < |blocks| && 0 < k < |tag|
    ensures EndsWith(Joined(text, blocks, n + 1), tag[..k]) && tag[k..] <= Behind(text, blocks, n + 1)
        <==> OccursAt(Joined(text, blocks, |blocks| + 1), tag, |Joined(text, blocks, n + 1)| - k)
  {
    var a, b, all := Joined(text, blocks, n + 1), Behind(text, blocks, n + 1), Joined(text, blocks, |blocks| + 1);
    JoinedSplits(text, blocks, n + 1);
    OccursAcross(a, b, all, tag, k);
  }

  /** A tag of the joined gaps that crosses the place of block n straddles the block. */
  lemma StraddlesIff(text: string, blocks: seq<Span>, n: nat, tag: string, k: nat)
    requires IsChain(text, 0, blocks) && n < |blocks| && (tag == OPEN || tag == CLOSE) && 0 < k < |tag|
    ensures Straddles(text, blocks, n, tag, k)
        <==> TagAt(Joined(text, blocks, |blocks| + 1), tag, |Joined(text, blocks, n + 1)| - k)
  {
    CrossesIff(text, blocks, n, tag, k);
  }

  ghost predicate GapsTagFree(text: string, blocks: seq<Span>)
    requires IsChain(text, 0, blocks)
  {
    forall n :: 0 <= n <= |blocks| ==> TagFree(Gap(text, blocks, n))
  }

  lemma {:induction false} JoinedPrefix(text: string, blocks: seq<Span>, m: nat, n: nat)
    requires IsChain(text, 0, blocks) && m <= n <= |blocks| + 1
    ensures Joined(text, blocks, m) <= Joined(text, blocks, n)
    decreases n
  {
    if m < n {
      JoinedPrefix(text, blocks, m, n - 1);
    }
  }

  lemma OccursInFront(a: string, b: string, tag: string, i: int)
    requires OccursAt(a + b, tag, i) && i + |tag| <= |a|
    ensures OccursAt(a, tag, i)
  {
    assert (a + b)[i..i + |tag|] == a[i..i + |tag|];
  }

  lemma OccursInBack(a: string, b: string, tag: string, i: int)
    requires OccursAt(a + b, tag, i) && i >= |a|
    ensures OccursAt(b, tag, i - |a|)
  {
    var j := i - |a|;
    assert (a + b)[i..i + |tag|] == b[j..j + |tag|];
  }

  /** A tag in the joined gaps that crosses no junction lies in one gap. */
  lemma {:induction false} InOneGap(text: string, blocks: seq<Span>, n: nat, tag: string, i: int)
    requires IsChain(text, 0, blocks) && n <= |blocks| + 1
    requires TagAt(Joined(text, blocks, n), tag, i)
    requires forall m {:trigger Joined(text, blocks, m)} :: 0 <= m < n ==> !(i < |Joined(text, blocks, m)| < i + |tag|)
    ensures !GapsTagFree(text, blocks)
  {
    var before, gap := Joined(text, blocks, n - 1), Gap(text, blocks, n - 1);
    if i < |before| {
      assert before == Joined(text, blocks, n - 1) && i + |tag| <= |before|;
      OccursInFront(before, gap, tag, i);
      InOneGap(text, blocks, n - 1, tag, i);
    } else {
      OccursInBack(before, gap, tag, i);
      assert TagAt(gap, tag, i - |before|);
      HoldsTagAt(gap);
    }
  }

  lemma GapInJoined(text: string, blocks: seq<Span>, n: nat, tag: string, i: int)
    requires IsChain(text, 0, blocks) && n <= |blocks| && TagAt(Gap(text, blocks, n), tag, i)
    ensures TagAt(Joined(text, blocks, |blocks| + 1), tag, |Joined(text, blocks, n)| + i)
  {
    JoinedPrefix(text, blocks, n + 1, |blocks| + 1);
    var before, gap, all := Joined(text, blocks, n), Gap(text, blocks, n), Joined(text, blocks, |blocks| + 1);
    var longer, j := before + gap, |before| + i;
    assert longer[j..j + |tag|] == gap[i..i + |tag|];
    assert longer <= all;
    assert all[j..j + |tag|] == longer[j..j + |tag|];
  }

  lemma JoinedHoldsTag(text: string, blocks: seq<Span>)
    requires IsChain(text, 0, blocks)
    ensures HoldsTag(Joined(text, blocks, |blocks| + 1))
        <==> !GapsTagFree(text, blocks) || TagAcrossABlock(text, blocks)
  {
    var all := Joined(text, blocks, |blocks| + 1);
    HoldsTagAt(all);
    if HoldsTag(all) && !TagAcrossABlock(text, blocks) {
      var i, tag :| TagAt(all, tag, i);
      forall m {:trigger Joined(text, blocks, m)} | 0 <= m < |blocks| + 1
        ensures !(i < |Joined(text, blocks, m)| < i + |tag|)
      {
        if m > 0 && i < |Joined(text, blocks, m)| < i + |tag| {
          StraddlesIff(text, blocks, m - 1, tag, |Joined(text, blocks, m)| - i);
        }
      }
      InOneGap(text, blocks, |blocks| + 1, tag, i);
    }
    if !GapsTagFree(text, blocks) {
      var n :| 0 <= n <= |blocks| && !TagFree(Gap(text, blocks, n));
      HoldsTagAt(Gap(text, blocks, n));
      var i, tag :| TagAt(Gap(text, blocks, n), tag, i);
      GapInJoined(text, blocks, n, tag, i);
    }
    if TagAcrossABlock(text, blocks) {
      var n, tag, k: nat :| 0 <= n < |blocks| && Straddles(text, blocks, n, tag, k);
      StraddlesIff(text, blocks, n, tag, k);
    }
  }

  // ----- the gaps are free of tags exactly in balanced texts -----

  lemma BlockIsBalanced(text: string, start: int, end: int)
    requires OpenAt(text, start) && IsMatch(text, start, end)
    ensures start < end && Balanced(text, start, end) && Clean(text, start, end)
  {
    OpenAdvances(text, start);
    forall p | start <= p <= end ensures Depth(text, start, p) >= 0 {
      if start + |OPEN| <= p < end {
        MatchEncloses(text, start, end, p);
      } else if p < start + |OPEN| {
        OneTagDepth(text, start, start, start + |OPEN|);
      }
    }
    CleanBoundary(text, start, end);
  }

  lemma GapOccurs(text: string, blocks: seq<Span>, n: nat)
    requires IsChain(text, 0, blocks) && n <= |blocks|
    ensures OccursAt(text, Gap(text, blocks, n), EndBefore(0, blocks, n))
  {
    BlocksInOrder(text, 0, blocks, n);
  }

  lemma {:induction false} GapsBalance(text: string, blocks: seq<Span>, n: nat)
    requires IsChain(text, 0, blocks) && n <= |blocks| && forall m :: 0 <= m < n ==> TagFree(Gap(text, blocks, m))
    ensures Balanced(text, 0, EndBefore(0, blocks, n)) && Clean(text, 0, EndBefore(0, blocks, n))
  {
    if n > 0 {
      GapsBalance(text, blocks, n - 1);
      BlocksInOrder(text, 0, blocks, n - 1);
      GapOccurs(text, blocks, n - 1);
      assert BlockAt(text, 0, blocks, n - 1);
      GapAndBlockBalance(text, EndBefore(0, blocks, n - 1), Gap(text, blocks, n - 1), blocks[n - 1]);
    }
  }

  lemma GapAndBlockBalance(text: string, from: int, gap: string, b: Span)
    requires 0 <= from <= b.start < b.end && Balanced(text, 0, from) && Clean(text, 0, from)
    requires OccursAt(text, gap, from) && TagFree(gap) && b.start == from + |gap|
    requires OpenAt(text, b.start) && IsMatch(text, b.start, b.end)
    ensures Balanced(text, 0, b.end) && Clean(text, 0, b.end)
  {
    TagFreeBalanced(text, from, gap, b.start);
    BalancedJoin(text, 0, from, b.start);
    BlockIsBalanced(text, b.start, b.end);
    TagsStartWithAngle(text, b.start);
    CleanBoundary(text, 0, b.start);
    BalancedJoin(text, 0, b.start, b.end);
    CleanBoundary(text, 0, b.end);
  }

  /** Without an opening tag, a range that is never below zero has no closing tag either. */
  lemma NoOpenTagFree(text: string, a: int, p: int)
    requires 0 <= a <= p <= |text| && forall q :: a <= q <= p ==> Depth(text, a, q) >= 0
    requires forall i :: a <= i < p ==> !OpenAt(text, i)
    ensures TagFree(text[a..p]) && Depth(text, a, p) == 0
  {
    NoOpenNoClose(text, a, p);
    RangeTagFree(text, a, p);
  }

  /** In a balanced text what is left after any number of blocks is balanced. */
  lemma {:induction false} BalancedBehindBlocks(text: string, blocks: seq<Span>, n: nat)
    requires IsChain(text, 0, blocks) && n <= |blocks| && Balanced(text, 0, |text|)
    ensures EndBefore(0, blocks, n) <= |text| && Balanced(text, EndBefore(0, blocks, n), |text|)
    ensures n > 0 ==> TagFree(Gap(text, blocks, n - 1))
  {
    BlocksInOrder(text, 0, blocks, n);
    if n > 0 {
      BalancedBehindBlocks(text, blocks, n - 1);
      BlocksInOrder(text, 0, blocks, n - 1);
      assert BlockAt(text, 0, blocks, n - 1);
      var from, b := EndBefore(0, blocks, n - 1), blocks[n - 1];
      NoOpenTagFree(text, from, b.start);
      RestBalanced(text, from, b.start, b.end, |text|);
    }
  }

  /** The last gap of a balanced text has no tag: its first opening tag would be closed. */
  lemma LastGapTagFree(text: string, from: int)
    requires 0 <= from <= |text| && Balanced(text, from, |text|) && Exhausted(text, from)
    ensures TagFree(text[from..])
  {
    if q :| from <= q <= |text| && OpenEnds(text, from, q) {
      var start, inside, close, end := FirstBlockOf(text, from, |text|, q);
      BlockMatches(text, start, close);
      GapBeforeOpen(text, from, start);
    } else {
      NoOpenNoClose(text, from, |text|);
      RangeTagFree(text, from, |text|);
      assert text[from..|text|] == text[from..];
    }
  }

  lemma GapBeforeOpen(text: string, from: int, start: int)
    requires 0 <= from <= start <= |text| && OpenAt(text, start) && TagFree(text[from..start])
    ensures IsFirstOpen(text, from, start)
  {
    assert OccursAt(text, text[from..start], from);
    FirstOpenAfter(text, from, text[from..start], start);
  }

  lemma GapsTagFreeIffBalanced(text: string, blocks: seq<Span>)
    requires IsExtraction(text, 0, blocks)
    ensures GapsTagFree(text, blocks) <==> Balanced(text, 0, |text|)
  {
    var n := |blocks|;
    BlocksInOrder(text, 0, blocks, n);
    if GapsTagFree(text, blocks) {
      GapsBalance(text, blocks, n);
      GapOccurs(text, blocks, n);
      TagFreeBalanced(text, EndBefore(0, blocks, n), Gap(text, blocks, n), |text|);
      BalancedJoin(text, 0, EndBefore(0, blocks, n), |text|);
    }
    if Balanced(text, 0, |text|) {
      forall m | 0 <= m < n ensures TagFree(Gap(text, blocks, m)) {
        BalancedBehindBlocks(text, blocks, m + 1);
      }
      BalancedBehindBlocks(text, blocks, n);
      LastGapTagFree(text, EndBefore(0, blocks, n));
      assert Gap(text, blocks, n) == text[EndBefore(0, blocks, n)..];
    }
  }

  /** For every text, the stripped form holds a tag if and only if the text is not balanced,
      or a tag is joined across the place of a removed block. */
  lemma StrippedHoldsTagIff(text: string, r: string, blocks: seq<Span>)
    requires IsStripped(text, r) && IsExtraction(text, 0, blocks)
    ensures HoldsTag(r) <==> !Balanced(text, 0, |text|) || TagAcrossABlock(text, blocks)
  {
    StrippedUnique(text, r, TrimSpace(Weave(text, 0, blocks, |blocks|, false) + Rest(text, 0, blocks)));
    JoinedIsWoven(text, blocks, |blocks|);
    TrimKeepsTags(Joined(text, blocks, |blocks| + 1));
    JoinedHoldsTag(text, blocks);
    GapsTagFreeIffBalanced(text, blocks);
  }

  const SPLIT_TAG: Doc := Block("<det", Last(""), Last("ails>"))

  /** Stripping can leave a tag behind: the pieces around a block may join to a new one. */
  lemma StrippedMayHoldATag()
    ensures WellFormed(SPLIT_TAG) && IsStripped(Render(SPLIT_TAG), OPEN)
  {
    ShortIsTagFree("<det");
    ShortIsTagFree("");
    ShortIsTagFree("ails>");
    RoundTrip(SPLIT_TAG);
    TopTextJoins();
  }

  lemma TopTextJoins()
    ensures TrimSpace(TopText(SPLIT_TAG)) == OPEN
  {
    assert TopText(SPLIT_TAG) == "<det" + TopText(Last("ails>")) == OPEN;
  }

  lemma ShortIsTagFree(s: string)
    requires |s| < |OPEN|
    ensures TagFree(s)
  {}
}
