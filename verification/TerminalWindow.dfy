/** The bounded output window of a terminal: bytes shifted in place, trimmed at the
    front to a UTF-8 lead byte, and what the window says about the whole stream. */
module TerminalWindow {
  import opened Ordering

  type Byte = b: int | 0 <= b < 256

  predicate IsLead(b: Byte) {
    b < 0x80 || 0xC2 <= b <= 0xF4
  }

  // ----- the window as a function -----

  function TrimLead(s: seq<Byte>): seq<Byte> {
    if s == [] || IsLead(s[0]) then s else TrimLead(s[1..])
  }

  function LastBytes(s: seq<Byte>, n: nat): seq<Byte> {
    if |s| <= n then s else s[|s| - n..]
  }

  /** One append: the new window and whether it was cut. */
  function Appended(dst: seq<Byte>, src: seq<Byte>, limit: int): (seq<Byte>, bool) {
    if limit <= 0 then ([], dst != [] || src != [])
    else if |dst| + |src| <= limit then (dst + src, false)
    else (TrimLead(LastBytes(dst + src, limit)), true)
  }

  /** The window of a whole stream. */
  function Window(stream: seq<Byte>, limit: nat): seq<Byte> {
    if |stream| <= limit then stream else TrimLead(LastBytes(stream, limit))
  }

  lemma {:induction false} TrimAt(s: seq<Byte>, k: nat)
    requires k <= |s| && (forall i :: 0 <= i < k ==> !IsLead(s[i])) && (k < |s| ==> IsLead(s[k]))
    ensures TrimLead(s) == s[k..]
  {
    if k > 0 {
      TrimAt(s[1..], k - 1);
    }
  }

  lemma {:induction false} TrimSplits(s: seq<Byte>) returns (k: nat)
    ensures k <= |s| && (forall i :: 0 <= i < k ==> !IsLead(s[i])) && (k < |s| ==> IsLead(s[k]))
    ensures TrimLead(s) == s[k..]
  {
    if s == [] || IsLead(s[0]) {
      k := 0;
    } else {
      var j := TrimSplits(s[1..]);
      k := j + 1;
      forall i | 0 <= i < k ensures !IsLead(s[i]) {
        assert i > 0 ==> s[i] == s[1..][i - 1];
      }
    }
  }

  lemma TailOfConcat(dst: seq<Byte>, src: seq<Byte>, limit: nat)
    requires |dst| + |src| > limit
    ensures LastBytes(dst + src, limit)
         == if |src| >= limit then [] + src[|src| - limit..] else dst[|dst| - (limit - |src|)..] + src
  {
  }

  // ----- the window as the terminal holds it -----

  /** A byte slice: a backing array from off on, of which len bytes are in use. */
  class ByteSlice {
    var data: array<Byte>
    var off: nat
    var len: nat

    ghost predicate Valid()
      reads this
    {
      off + len <= data.Length
    }

    ghost function Bytes(): seq<Byte>
      reads this, data
      requires Valid()
    {
      data[off..off + len]
    }

    function Capacity(): int
      reads this
    {
      data.Length - off
    }

    constructor ()
      ensures Valid() && fresh(data) && Bytes() == []
    {
      data, off, len := new Byte[0], 0, 0;
    }

    /** A larger copy of the slice. */
    method Grow(capacity: nat)
      requires Valid() && len <= capacity
      modifies this`data, this`off
      ensures Valid() && fresh(data) && Bytes() == old(Bytes()) && data.Length - off == capacity
    {
      var grown := new Byte[capacity];
      forall i | 0 <= i < len { grown[i] := data[off + i]; }
      data, off := grown, 0;
    }

    /** The bytes written behind the slice, within its capacity. */
    method WriteBehind(src: seq<Byte>)
      requires Valid() && off + len + |src| <= data.Length
      modifies this`len, data
      ensures Valid() && off == old(off) && Bytes() == old(Bytes()) + src
    {
      var end := off + len;
      forall k | end <= k < end + |src| { data[k] := src[k - end]; }
      len := len + |src|;
      assert Bytes()[..old(len)] == old(Bytes()) && Bytes()[old(len)..] == src;
    }

    /** Go's append: in place while the capacity lasts, else into a larger copy. */
    method Append(src: seq<Byte>, spare: nat)
      requires Valid()
      modifies this, data
      ensures Valid() && Bytes() == old(Bytes()) + src
      ensures data == old(data) || fresh(data)
    {
      if off + len + |src| > data.Length {
        Grow(len + |src| + spare);
      }
      WriteBehind(src);
    }

    /** The slice re-sliced to its last n bytes. */
    method KeepLast(n: nat)
      requires Valid() && n <= len
      modifies this`off, this`len
      ensures Valid() && Bytes() == old(Bytes())[old(len) - n..]
    {
      off, len := off + len - n, n;
    }

    /** The last keep bytes shifted to the front of the slice. */
    method ShiftDown(keep: nat)
      requires Valid() && keep <= len
      modifies this`len, data
      ensures Valid() && off == old(off) && Bytes() == old(Bytes())[old(len) - keep..]
    {
      ghost var before := Bytes();
      var d := len - keep;
      forall k | off <= k < off + keep { data[k] := data[k + d]; }
      len := keep;
      assert forall i :: 0 <= i < keep ==> Bytes()[i] == before[d + i];
      assert Bytes() == before[d..];
    }

    /** Drops the leading bytes that are not lead bytes, shifting the rest down. */
    method TrimUtf8LeadingBytes()
      requires Valid()
      modifies this`len, data
      ensures Valid() && Bytes() == TrimLead(old(Bytes()))
      ensures off == old(off)
    {
      var trim := 0;
      while trim < len && !IsLead(data[off + trim])
        invariant 0 <= trim <= len
        invariant forall i :: 0 <= i < trim ==> !IsLead(Bytes()[i])
      {
        trim := trim + 1;
      }
      TrimAt(Bytes(), trim);
      if trim > 0 {
        ShiftDown(len - trim);
      }
    }

    /** The last keep bytes copied into a new buffer. */
    method CopyOut(keep: nat, limit: nat)
      requires Valid() && keep <= len && keep <= limit
      modifies this
      ensures Valid() && fresh(data) && Capacity() == limit && Bytes() == old(Bytes())[old(len) - keep..]
    {
      ghost var before := Bytes();
      var d := len - keep;
      var out := new Byte[limit];
      forall i | 0 <= i < keep { out[i] := data[off + d + i]; }
      assert forall i :: 0 <= i < keep ==> out[i] == before[d + i];
      data, off, len := out, 0, keep;
      assert Bytes() == before[d..];
    }

    /** The last keep bytes moved to the front of a buffer of capacity limit: the slice's
        own when it has exactly that capacity, a new one otherwise. */
    method Rebase(keep: nat, limit: nat)
      requires Valid() && keep <= len && keep <= limit
      modifies this, data
      ensures Valid() && Bytes() == old(Bytes())[old(len) - keep..]
      ensures Capacity() == limit
      ensures data == old(data) || fresh(data)
    {
      if Capacity() == limit {
        ShiftDown(keep);
      } else {
        CopyOut(keep, limit);
      }
    }

    /** The last limit bytes of the slice and the added bytes, when they do not fit together. */
    method Overflow(src: seq<Byte>, limit: nat, spare: nat)
      requires Valid() && src != [] && len + |src| > limit > 0
      modifies this, data
      ensures Valid() && Bytes() == LastBytes(old(Bytes()) + src, limit)
      ensures data == old(data) || fresh(data)
    {
      ghost var dst := Bytes();
      TailOfConcat(dst, src, limit);
      if |src| >= limit {
        Rebase(0, limit);
        Append(src[|src| - limit..], spare);
        return;
      }
      var keepFromDst := limit - |src|;
      Rebase(if len > keepFromDst then keepFromDst else len, limit);
      Append(src, spare);
    }

    method AppendWindow(src: seq<Byte>, limit: int, spare: nat) returns (truncated: bool)
      requires Valid()
      modifies this, data
      ensures Valid() && (Bytes(), truncated) == Appended(old(Bytes()), src, limit)
      ensures data == old(data) || fresh(data)
    {
      ghost var dst := Bytes();
      if limit <= 0 {
        truncated := len > 0 || |src| > 0;
        data, off, len := new Byte[0], 0, 0;
        return;
      }
      if |src| == 0 {
        assert dst + src == dst;
        if len <= limit {
          return false;
        }
        KeepLast(limit);
        TrimUtf8LeadingBytes();
        return true;
      }
      if len + |src| <= limit {
        Append(src, spare);
        return false;
      }
      Overflow(src, limit, spare);
      TrimUtf8LeadingBytes();
      return true;
    }
  }

  /** A terminal: the window, the limit fixed at creation, and the truncation mark. */
  class Terminal {
    const output: ByteSlice
    const outputLimit: nat
    var truncated: bool
    ghost var chunks: seq<seq<Byte>>

    ghost predicate Valid()
      reads this, output, output.data
    {
      output.Valid() && (output.Bytes(), truncated) == Fed(chunks, outputLimit)
    }

    constructor (requested: int)
      ensures Valid() && chunks == [] && fresh(output) && fresh(output.data)
      ensures outputLimit == if requested < 0 then 0 else requested
    {
      output := new ByteSlice();
      outputLimit := if requested < 0 then 0 else requested;
      truncated, chunks := false, [];
    }

    method AppendOutput(p: seq<Byte>, spare: nat)
      requires Valid()
      modifies this, output, output.data
      ensures Valid() && chunks == old(chunks) + [p]
      ensures output.data == old(output.data) || fresh(output.data)
    {
      var cut := output.AppendWindow(p, outputLimit, spare);
      if cut {
        truncated := true;
      }
      FedGrows(chunks, p, outputLimit);
      chunks := chunks + [p];
    }
  }

  lemma FedGrows(chunks: seq<seq<Byte>>, p: seq<Byte>, limit: nat)
    ensures var (window, truncated) := Fed(chunks, limit);
            var (next, cut) := Appended(window, p, limit);
            Fed(chunks + [p], limit) == (next, truncated || cut)
  {
    assert (chunks + [p])[..|chunks|] == chunks;
  }

  // ----- any sequence of writes -----

  function Flatten(chunks: seq<seq<Byte>>): seq<Byte> {
    if chunks == [] then [] else Flatten(chunks[..|chunks| - 1]) + chunks[|chunks| - 1]
  }

  /** The window and the mark after a sequence of writes. */
  function Fed(chunks: seq<seq<Byte>>, limit: nat): (seq<Byte>, bool) {
    if chunks == [] then ([], false)
    else
      var (window, truncated) := Fed(chunks[..|chunks| - 1], limit);
      var (next, cut) := Appended(window, chunks[|chunks| - 1], limit);
      (next, truncated || cut)
  }

  ghost predicate IsSuffix(s: seq<Byte>, stream: seq<Byte>) {
    |s| <= |stream| && s == stream[|stream| - |s|..]
  }

  lemma AppendedIsSuffix(window: seq<Byte>, truncated: bool, stream: seq<Byte>, src: seq<Byte>, limit: nat)
    requires IsSuffix(window, stream) && |window| <= limit && (truncated <==> |stream| > limit)
    requires !truncated ==> window == stream
    ensures var (next, cut) := Appended(window, src, limit);
            && IsSuffix(next, stream + src) && |next| <= limit
            && (truncated || cut <==> |stream + src| > limit) && (!(truncated || cut) ==> next == stream + src)
  {
    var p := |stream| - |window|;
    if limit > 0 {
      if |window| + |src| > limit {
        SuffixHasSameTail(stream, p, src, limit);
        TailIsSuffix(stream + src, limit);
      } else {
        assert (stream + src)[p..] == stream[p..] + src;
      }
    }
  }

  lemma TailIsSuffix(stream: seq<Byte>, limit: nat)
    requires |stream| > limit
    ensures var tail := TrimLead(LastBytes(stream, limit)); IsSuffix(tail, stream) && |tail| <= limit
  {
    var last := LastBytes(stream, limit);
    var k := TrimSplits(last);
    assert last[k..] == stream[|stream| - limit + k..];
  }

  /** After any writes the window is a suffix of the stream of at most limit bytes, and
      truncated says exactly that the stream is longer than the limit. */
  lemma {:induction false} WindowIsSuffix(chunks: seq<seq<Byte>>, limit: nat)
    ensures var (window, truncated) := Fed(chunks, limit);
            && IsSuffix(window, Flatten(chunks)) && |window| <= limit
            && (truncated <==> |Flatten(chunks)| > limit) && (!truncated ==> window == Flatten(chunks))
  {
    if chunks != [] {
      var init := chunks[..|chunks| - 1];
      WindowIsSuffix(init, limit);
      AppendedIsSuffix(Fed(init, limit).0, Fed(init, limit).1, Flatten(init), chunks[|chunks| - 1], limit);
    }
  }

  /** Every limit + 1 bytes that end among the last limit bytes of the stream, and do not
      start it, contain a lead byte. */
  ghost predicate AnchoredAtEnd(stream: seq<Byte>, limit: nat) {
    forall n :: limit < n < |stream| && |stream| <= n + limit ==> LeadNear(stream, limit, n)
  }

  /** One of the limit + 1 bytes up to position n is a lead byte. */
  ghost predicate LeadNear(stream: seq<Byte>, limit: nat, n: nat)
    requires limit <= n < |stream|
  {
    exists i :: n - limit <= i <= n && IsLead(stream[i])
  }

  // ----- what any writes come to -----

  /** The window of writes that cut for the last time after c bytes and only appended since. */
  function CutOnce(stream: seq<Byte>, c: nat, limit: nat): seq<Byte>
    requires c <= |stream|
  {
    Window(stream[..c], limit) + stream[c..]
  }

  ghost predicate LastCutAt(stream: seq<Byte>, c: nat, limit: nat, window: seq<Byte>) {
    c <= |stream| && (c == 0 || c > limit) && |window| <= limit && window == CutOnce(stream, c, limit)
  }

  /** One more write: a new last cut at the end, or only more bytes. */
  lemma NextCut(stream: seq<Byte>, c: nat, src: seq<Byte>, limit: nat, window: seq<Byte>) returns (d: nat)
    requires limit > 0 && LastCutAt(stream, c, limit, window)
    ensures LastCutAt(stream + src, d, limit, Appended(window, src, limit).0)
  {
    if |window| + |src| <= limit {
      d := c;
      OnlyMore(stream, c, src, limit, window);
    } else {
      d := |stream + src|;
      var p := WindowStart(stream, c, limit);
      CutAgain(stream, p, src, limit);
    }
  }

  lemma OnlyMore(stream: seq<Byte>, c: nat, src: seq<Byte>, limit: nat, window: seq<Byte>)
    requires limit > 0 && LastCutAt(stream, c, limit, window) && |window| + |src| <= limit
    ensures LastCutAt(stream + src, c, limit, Appended(window, src, limit).0)
  {
    assert Appended(window, src, limit).0 == window + src;
    assert (stream + src)[..c] == stream[..c];
    assert (stream + src)[c..] == stream[c..] + src;
    var front, rest := Window(stream[..c], limit), stream[c..];
    assert front + (rest + src) == front + rest + src;
  }

  lemma CutAgain(stream: seq<Byte>, p: nat, src: seq<Byte>, limit: nat)
    requires limit > 0 && p <= |stream| && |stream| - p + |src| > limit
    ensures LastCutAt(stream + src, |stream + src|, limit, Appended(stream[p..], src, limit).0)
  {
    var longer := stream + src;
    assert longer[..|longer|] == longer && longer[|longer|..] == [];
    SuffixHasSameTail(stream, p, src, limit);
    var k := TrimSplits(LastBytes(longer, limit));
  }

  /** Where the window of a cut and an append starts: at the first lead byte of the last
      limit bytes before the cut, or at the cut. */
  lemma WindowStart(stream: seq<Byte>, c: nat, limit: nat) returns (p: nat)
    requires c <= |stream|
    ensures p <= c && CutOnce(stream, c, limit) == stream[p..]
    ensures c > limit ==>
      c - limit <= p && (p < c ==> IsLead(stream[p])) && forall i :: c - limit <= i < p ==> !IsLead(stream[i])
  {
    if c <= limit {
      p := 0;
    } else {
      var last := LastBytes(stream[..c], limit);
      var k := TrimSplits(last);
      p := c - limit + k;
      assert last == stream[c - limit..c];
    }
  }

  lemma WindowStartsAt(stream: seq<Byte>, p: nat, limit: nat)
    requires |stream| > limit && |stream| - limit <= p <= |stream| && (p < |stream| ==> IsLead(stream[p]))
    requires forall i :: |stream| - limit <= i < p ==> !IsLead(stream[i])
    ensures Window(stream, limit) == stream[p..]
  {
    var d := p - (|stream| - limit);
    assert LastBytes(stream, limit)[d..] == stream[p..];
    TrimAt(LastBytes(stream, limit), d);
  }

  lemma SuffixHasSameTail(stream: seq<Byte>, p: nat, src: seq<Byte>, limit: nat)
    requires p <= |stream| && |stream| - p + |src| > limit
    ensures LastBytes(stream[p..] + src, limit) == LastBytes(stream + src, limit)
  {
  }

  /** Whatever the writes, the window is that of one cut and an append. */
  lemma {:induction false} FedCutsOnce(chunks: seq<seq<Byte>>, limit: nat) returns (c: nat)
    requires limit > 0
    ensures LastCutAt(Flatten(chunks), c, limit, Fed(chunks, limit).0)
  {
    if chunks == [] {
      c := 0;
    } else {
      var init := chunks[..|chunks| - 1];
      var d := FedCutsOnce(init, limit);
      c := NextCut(Flatten(init), d, chunks[|chunks| - 1], limit, Fed(init, limit).0);
    }
  }

  /** In a stream anchored at its end, a cut and an append give the window of the whole stream. */
  lemma CutIsWindow(stream: seq<Byte>, c: nat, limit: nat)
    requires limit > 0 && c <= |stream| && (c == 0 || c > limit) && |CutOnce(stream, c, limit)| <= limit
    requires AnchoredAtEnd(stream, limit)
    ensures CutOnce(stream, c, limit) == Window(stream, limit)
  {
    if |stream| > limit && c > 0 {
      var p := WindowStart(stream, c, limit);
      if p == c < |stream| {
        CutMeetsLead(stream, c, limit);
      }
      WindowStartsAt(stream, p, limit);
    }
  }

  lemma CutMeetsLead(stream: seq<Byte>, c: nat, limit: nat)
    requires limit < c < |stream| && |stream| - c <= limit && AnchoredAtEnd(stream, limit)
    requires forall i :: c - limit <= i < c ==> !IsLead(stream[i])
    ensures IsLead(stream[c])
  {
    assert LeadNear(stream, limit, c);
  }

  lemma FedIsWindow(chunks: seq<seq<Byte>>, limit: nat)
    requires AnchoredAtEnd(Flatten(chunks), limit)
    ensures Fed(chunks, limit).0 == Window(Flatten(chunks), limit)
  {
    if limit == 0 {
      WindowIsSuffix(chunks, 0);
    } else {
      var c := FedCutsOnce(chunks, limit);
      CutIsWindow(Flatten(chunks), c, limit);
    }
  }

  /** The window is the same for all ways to write the stream. */
  ghost predicate WindowForAnyWrites(stream: seq<Byte>, limit: nat) {
    forall chunks :: Flatten(chunks) == stream ==> Fed(chunks, limit).0 == Window(stream, limit)
  }

  /** A cut at an unanchored position leaves nothing, and the rest is kept untrimmed. */
  lemma UnanchoredBreaks(stream: seq<Byte>, limit: nat)
    requires !AnchoredAtEnd(stream, limit)
    ensures !WindowForAnyWrites(stream, limit)
  {
    var n: nat :| limit < n < |stream| && |stream| <= n + limit && !LeadNear(stream, limit, n);
    var chunks := TwoWrites(stream, n, limit);
    SkipsNonLead(stream, n, limit);
  }

  lemma TwoWrites(stream: seq<Byte>, n: nat, limit: nat) returns (chunks: seq<seq<Byte>>)
    requires limit < n < |stream| && |stream| <= n + limit && !LeadNear(stream, limit, n)
    ensures Flatten(chunks) == stream && Fed(chunks, limit).0 == stream[n..]
  {
    var front, rest := stream[..n], stream[n..];
    assert [front, rest][..1] == [front];
    WindowStartsAt(front, n, limit);
    OneWrite(front, limit);
    chunks := [front, rest];
    assert front + rest == stream && front[n..] + rest == rest;
  }

  lemma OneWrite(front: seq<Byte>, limit: nat)
    requires |front| > limit > 0
    ensures Flatten([front]) == front && Fed([front], limit).0 == Window(front, limit)
  {
    assert [front][..|[front]| - 1] == [] && [] + front == front;
  }

  lemma SkipsNonLead(stream: seq<Byte>, n: nat, limit: nat)
    requires limit < n < |stream| && |stream| <= n + limit && !LeadNear(stream, limit, n)
    ensures |Window(stream, limit)| < |stream| - n
  {
    var p := WindowStart(stream, |stream|, limit);
    assert stream[..|stream|] == stream && Window(stream, limit) == stream[p..];
  }

  /** The window is the same function of the stream for every way to cut the stream into
      writes, exactly when every limit + 1 bytes that end among its last limit bytes, and
      do not start it, contain a lead byte. */
  lemma WindowIsAFunctionOfTheStream(stream: seq<Byte>, limit: nat)
    ensures WindowForAnyWrites(stream, limit) <==> AnchoredAtEnd(stream, limit)
  {
    if AnchoredAtEnd(stream, limit) {
      forall chunks | Flatten(chunks) == stream ensures Fed(chunks, limit).0 == Window(stream, limit) {
        FedIsWindow(chunks, limit);
      }
    } else {
      UnanchoredBreaks(stream, limit);
    }
  }

  /** Three bytes, limit one: written at once they leave nothing, with a cut they leave the last. */
  lemma CutsMatter()
    ensures Flatten([[0x41, 0x80, 0x80]]) == Flatten([[0x41, 0x80], [0x80]]) == [0x41, 0x80, 0x80]
    ensures Fed([[0x41, 0x80, 0x80]], 1).0 == [] && Fed([[0x41, 0x80], [0x80]], 1).0 == [0x80]
    ensures !AnchoredAtEnd([0x41, 0x80, 0x80], 1)
  {
    var all: seq<Byte>, front: seq<Byte>, rest: seq<Byte> := [0x41, 0x80, 0x80], [0x41, 0x80], [0x80];
    OneWrite(all, 1);
    OneWrite(front, 1);
    assert LastBytes(all, 1) == [0x80] && LastBytes(front, 1) == [0x80];
    assert [front, rest][..1] == [front];
    assert front + rest == all && [] + rest == rest;
    assert !LeadNear(all, 1, 2);
  }

  // ----- streams of whole characters (section 4 of RFC 3629) -----

  predicate IsTail(b: Byte) {
    0x80 <= b <= 0xBF
  }

  /** One well-formed UTF-8 character. */
  predicate IsCharacter(c: seq<Byte>) {
    match |c|
    case 1 => c[0] < 0x80
    case 2 => 0xC2 <= c[0] <= 0xDF && IsTail(c[1])
    case 3 =>
      && IsTail(c[1]) && IsTail(c[2])
      && ((c[0] == 0xE0 && c[1] >= 0xA0) || 0xE1 <= c[0] <= 0xEC
          || (c[0] == 0xED && c[1] <= 0x9F) || 0xEE <= c[0] <= 0xEF)
    case 4 =>
      && IsTail(c[1]) && IsTail(c[2]) && IsTail(c[3])
      && ((c[0] == 0xF0 && c[1] >= 0x90) || 0xF1 <= c[0] <= 0xF3 || (c[0] == 0xF4 && c[1] <= 0x8F))
    case _ => false
  }

  lemma CharacterLeads(c: seq<Byte>, i: nat)
    requires IsCharacter(c) && i < |c|
    ensures IsLead(c[i]) <==> i == 0
    ensures |c| <= 4
  {
  }

  ghost predicate AllCharacters(characters: seq<seq<Byte>>) {
    forall k :: 0 <= k < |characters| ==> IsCharacter(characters[k])
  }

  /** Any four consecutive bytes of a stream of characters contain a lead byte. */
  lemma {:induction false} FourBytesHaveALead(characters: seq<seq<Byte>>, n: nat)
    requires AllCharacters(characters) && n + 4 <= |Flatten(characters)|
    ensures exists i :: n <= i < n + 4 && IsLead(Flatten(characters)[i])
  {
    var init, last := characters[..|characters| - 1], characters[|characters| - 1];
    var stream, m := Flatten(characters), |Flatten(init)|;
    CharacterLeads(last, 0);
    if n + 4 <= m {
      FourBytesHaveALead(init, n);
      var i :| n <= i < n + 4 && IsLead(Flatten(init)[i]);
      assert stream[i] == Flatten(init)[i];
    } else if n <= m {
      assert stream[m] == last[0];
    }
  }

  lemma CharactersAreAnchored(characters: seq<seq<Byte>>, limit: nat)
    requires AllCharacters(characters) && limit >= 3
    ensures AnchoredAtEnd(Flatten(characters), limit)
  {
    forall n | limit < n < |Flatten(characters)| && |Flatten(characters)| <= n + limit
      ensures LeadNear(Flatten(characters), limit, n) {
      FourBytesHaveALead(characters, n - 3);
    }
  }

  /** A suffix that starts at a lead byte is a suffix of whole characters. */
  lemma {:induction false} LeadStartsCharacter(characters: seq<seq<Byte>>, p: nat) returns (k: nat)
    requires AllCharacters(characters) && p <= |Flatten(characters)|
    requires p < |Flatten(characters)| ==> IsLead(Flatten(characters)[p])
    ensures k <= |characters| && Flatten(characters)[p..] == Flatten(characters[k..])
  {
    if characters == [] {
      k := 0;
    } else {
      var init, last := characters[..|characters| - 1], characters[|characters| - 1];
      var m := |Flatten(init)|;
      if p < m {
        assert Flatten(characters)[p] == Flatten(init)[p];
        k := LeadStartsCharacter(init, p);
        assert characters[k..][..|characters[k..]| - 1] == init[k..];
        assert Flatten(characters)[p..] == Flatten(init)[p..] + last;
      } else if p == |Flatten(characters)| {
        k := |characters|;
      } else {
        CharacterLeads(last, p - m);
        assert Flatten(characters)[p] == last[p - m];
        k := |init|;
        assert characters[k..] == [last];
        assert Flatten([last]) == Flatten([last][..0]) + last;
      }
    }
  }

  /** For a limit of at least three bytes and a stream of whole characters, the window is
      the same for all writes, and when it was cut it still consists of whole characters:
      the last ones of the stream. */
  lemma WindowOfCharacters(characters: seq<seq<Byte>>, chunks: seq<seq<Byte>>, limit: nat)
    requires AllCharacters(characters) && limit >= 3 && Flatten(chunks) == Flatten(characters)
    ensures Fed(chunks, limit).0 == Window(Flatten(characters), limit)
    ensures exists k :: 0 <= k <= |characters| && Fed(chunks, limit).0 == Flatten(characters[k..])
  {
    var stream := Flatten(characters);
    CharactersAreAnchored(characters, limit);
    FedIsWindow(chunks, limit);
    if |stream| <= limit {
      assert characters[0..] == characters;
    } else {
      var j := TrimSplits(LastBytes(stream, limit));
      var p := |stream| - limit + j;
      assert Window(stream, limit) == stream[p..];
      assert j < limit ==> LastBytes(stream, limit)[j] == stream[p];
      var k := LeadStartsCharacter(characters, p);
    }
  }

  // ----- the locked buffer -----

  const DEFAULT_LIMIT: nat := 65536

  /** The buffer of an agent's error output: the same limit, without trimming. */
  class LockedBuffer {
    var b: seq<Byte>
    ghost var stream: seq<Byte>

    ghost predicate Valid()
      reads this
    {
      b == LastBytes(stream, DEFAULT_LIMIT)
    }

    constructor ()
      ensures Valid() && stream == []
    {
      b, stream := [], [];
    }

    method Write(p: seq<Byte>)
      requires Valid()
      modifies this
      ensures Valid() && stream == old(stream) + p
    {
      b := AppendBounded(b, p, DEFAULT_LIMIT);
      BoundedTail(stream, p, DEFAULT_LIMIT);
      stream := stream + p;
    }

    static method AppendBounded(dst: seq<Byte>, src: seq<Byte>, limit: int) returns (r: seq<Byte>)
      ensures r == if limit <= 0 then [] else LastBytes(dst + src, limit)
    {
      if limit <= 0 {
        return [];
      }
      var combined := dst + src;
      if |combined| <= limit {
        return combined;
      }
      return combined[|combined| - limit..];
    }
  }

  lemma BoundedTail(stream: seq<Byte>, p: seq<Byte>, limit: nat)
    ensures LastBytes(LastBytes(stream, limit) + p, limit) == LastBytes(stream + p, limit)
  {
    if |stream| > limit && p != [] {
      SuffixHasSameTail(stream, |stream| - limit, p, limit);
    } else if |stream| > limit {
      assert LastBytes(stream, limit) + p == LastBytes(stream, limit) && stream + p == stream;
    }
  }
}
