/** Matching an activation envelope against a trigger: the interpreted filter, the filter
    compiled once at registration, and the lookup of dotted paths in the envelope's data. */
module TriggerFilter {
  import opened Ordering
  import opened Text

  /** A value in an envelope: nested maps, a map of texts, values with a text form, and values without. */
  datatype Value =
    | Nil
    | Shown(text: string)
    | Opaque
    | Nested(fields: map<string, Value>)
    | Texts(texts: map<string, string>)

  datatype Envelope = Envelope(kind: string, scope: string, workspaceId: string, source: string,
                               data: map<string, Value>)

  datatype Field = KindField | ScopeField | WorkspaceField | SourceField | DataField(path: string)
  datatype Entry = Entry(field: Field, want: string)

  const DATA_PREFIX := "data."

  // ----- paths -----

  datatype Cut = Cut(before: string, after: string, found: bool)

  /** strings.Cut at the first dot. */
  function CutDot(s: string): (r: Cut)
    ensures '.' !in r.before
    ensures r.found ==> s == r.before + "." + r.after
    ensures !r.found ==> r.before == s
  {
    if s == "" then Cut("", "", false)
    else if s[0] == '.' then Cut("", s[1..], true)
    else
      var rest := CutDot(s[1..]);
      Cut([s[0]] + rest.before, rest.after, rest.found)
  }

  /** Segments that joined with dots give the path, none of them holding a dot. */
  ghost predicate IsSplit(path: string, segments: seq<string>)
    decreases |segments|
  {
    && segments != [] && '.' !in segments[0]
    && if |segments| == 1 then path == segments[0]
       else |segments[0]| < |path| && segments[0] + "." <= path && IsSplit(path[|segments[0]| + 1..], segments[1..])
  }

  lemma {:induction false} SplitUnique(path: string, a: seq<string>, b: seq<string>)
    requires IsSplit(path, a) && IsSplit(path, b)
    ensures a == b
    decreases |a|
  {
    FirstSegment(path, a);
    FirstSegment(path, b);
    assert a == [a[0]] + a[1..] && b == [b[0]] + b[1..];
    if |a| > 1 {
      SplitUnique(path[|a[0]| + 1..], a[1..], b[1..]);
    }
  }

  lemma FirstSegment(path: string, segments: seq<string>)
    requires IsSplit(path, segments)
    ensures segments[0] == CutDot(path).before && (|segments| > 1 <==> CutDot(path).found)
    ensures |segments| > 1 ==> CutDot(path).after == path[|segments[0]| + 1..]
  {
    var cut := CutDot(path);
    if |segments| > 1 {
      assert path[|segments[0]|] == '.';
      CutAt(path, segments[0]);
    } else {
      assert '.' !in path;
    }
  }

  lemma {:induction false} CutAt(path: string, first: string)
    requires '.' !in first && first + "." <= path
    ensures CutDot(path) == Cut(first, path[|first| + 1..], true)
  {
    if first == "" {
      assert path[0] == '.';
    } else {
      assert path[0] == first[0] && first[0] in first;
      assert first[1..] + "." <= path[1..];
      CutAt(path[1..], first[1..]);
      assert first == [first[0]] + first[1..];
    }
  }

  // ----- lookup -----

  function Child(v: Value, key: string): Option<Value> {
    match v
    case Nested(fields) => if key in fields then Some(fields[key]) else None
    case Texts(texts) => if key in texts then Some(Shown(texts[key])) else None
    case _ => None
  }

  /** Following trimmed segments from a value; a blank segment leads nowhere. */
  function Follow(v: Value, segments: seq<string>): Option<Value>
    decreases |segments|
  {
    if segments == [] then Some(v)
    else if TrimSpace(segments[0]) == "" then None
    else
      var next := Child(v, TrimSpace(segments[0]));
      if next.None? then None else Follow(next.value, segments[1..])
  }

  method LookupPath(data: map<string, Value>, path: string) returns (r: Option<Value>)
    ensures forall segments :: IsSplit(path, segments) ==> r == Follow(Nested(data), segments)
    ensures exists segments :: IsSplit(path, segments)
  {
    var current := Nested(data);
    var remaining := path;
    ghost var segments := SplitExists(path);
    ghost var rest := segments;
    while true
      invariant IsSplit(remaining, rest) && Follow(current, rest) == Follow(Nested(data), segments)
      invariant IsSplit(path, segments)
      decreases |remaining|
    {
      FirstSegment(remaining, rest);
      var cut := CutDot(remaining);
      var key := TrimSpace(cut.before);
      if key == "" {
        r := None;
        break;
      }
      var next := Child(current, key);
      if next.None? {
        r := None;
        break;
      }
      current := next.value;
      if !cut.found {
        assert Follow(current, rest[1..]) == Some(current);
        r := Some(current);
        break;
      }
      remaining := cut.after;
      rest := rest[1..];
    }
    forall other | IsSplit(path, other) ensures r == Follow(Nested(data), other) {
      SplitUnique(path, segments, other);
    }
  }

  lemma {:induction false} SplitExists(path: string) returns (segments: seq<string>)
    ensures IsSplit(path, segments)
    decreases |path|
  {
    var cut := CutDot(path);
    if cut.found {
      var rest := SplitExists(cut.after);
      segments := [cut.before] + rest;
      assert path[|cut.before| + 1..] == cut.after && segments[1..] == rest;
    } else {
      segments := [path];
    }
  }

  // ----- entries -----

  function EntryFromPath(path: string, want: string): Option<Entry> {
    var p, w := TrimSpace(path), TrimSpace(want);
    if p == "kind" then Some(Entry(KindField, w))
    else if p == "scope" then Some(Entry(ScopeField, w))
    else if p == "workspace_id" then Some(Entry(WorkspaceField, w))
    else if p == "source" then Some(Entry(SourceField, w))
    else if DATA_PREFIX <= p && TrimSpace(p[|DATA_PREFIX|..]) != "" then Some(Entry(DataField(p[|DATA_PREFIX|..]), w))
    else None
  }

  function ShownText(v: Value): Option<string> {
    if v.Shown? then Some(v.text) else None
  }

  /** The text an envelope has for a field. */
  ghost predicate HasText(envelope: Envelope, field: Field, text: string) {
    match field
    case KindField => text == TrimSpace(envelope.kind)
    case ScopeField => text == envelope.scope
    case WorkspaceField => text == TrimSpace(envelope.workspaceId)
    case SourceField => text == envelope.source
    case DataField(path) =>
      exists segments :: IsSplit(path, segments) && Follow(Nested(envelope.data), segments) == Some(Shown(text))
  }

  ghost predicate EntryHolds(entry: Entry, envelope: Envelope) {
    HasText(envelope, entry.field, entry.want)
  }

  method EntryMatches(entry: Entry, envelope: Envelope) returns (r: bool)
    ensures r <==> EntryHolds(entry, envelope)
  {
    match entry.field
    case KindField => r := TrimSpace(envelope.kind) == entry.want;
    case ScopeField => r := envelope.scope == entry.want;
    case WorkspaceField => r := TrimSpace(envelope.workspaceId) == entry.want;
    case SourceField => r := envelope.source == entry.want;
    case DataField(path) =>
      var value := LookupPath(envelope.data, path);
      r := value.Some? && ShownText(value.value) == Some(entry.want);
  }

  // ----- the interpreted filter -----

  /** Every path of the filter can be read, and the envelope has the wanted text there. */
  ghost predicate FilterHolds(filter: map<string, string>, envelope: Envelope) {
    forall path :: path in filter ==>
      EntryFromPath(path, filter[path]).Some? && EntryHolds(EntryFromPath(path, filter[path]).value, envelope)
  }

  /** The entries are read in any order, up to the first that fails. */
  method ExactMatch(filter: map<string, string>, envelope: Envelope) returns (r: bool)
    ensures r <==> FilterHolds(filter, envelope)
  {
    var rest := filter.Keys;
    while rest != {}
      invariant rest <= filter.Keys
      invariant forall path :: path in filter && path !in rest ==>
        EntryFromPath(path, filter[path]).Some? && EntryHolds(EntryFromPath(path, filter[path]).value, envelope)
      decreases |rest|
    {
      var path :| path in rest;
      var entry := EntryFromPath(path, filter[path]);
      if entry.None? {
        return false;
      }
      var holds := EntryMatches(entry.value, envelope);
      if !holds {
        return false;
      }
      rest := rest - {path};
    }
    return true;
  }

  // ----- the compiled filter -----

  /** What each path of a filter reads as. */
  function Readings(filter: map<string, string>): map<string, Option<Entry>> {
    map path | path in filter :: EntryFromPath(path, filter[path])
  }

  ghost function Readable(readings: map<string, Option<Entry>>, paths: set<string>): set<string> {
    set path | path in paths && path in readings && readings[path].Some?
  }

  /** One entry for every path that can be read, in any order. */
  ghost predicate IsCompiled(filter: map<string, string>, entries: seq<Entry>) {
    CompiledFrom(Readings(filter), filter.Keys, entries)
  }

  ghost predicate CompiledFrom(readings: map<string, Option<Entry>>, paths: set<string>, entries: seq<Entry>) {
    && |entries| == |Readable(readings, paths)|
    && (forall path :: path in Readable(readings, paths) ==> readings[path].value in entries)
    && (forall e :: e in entries ==> exists path :: path in Readable(readings, paths) && readings[path] == Some(e))
  }

  method Compile(filter: map<string, string>) returns (entries: seq<Entry>)
    ensures IsCompiled(filter, entries)
  {
    entries := [];
    ghost var readings := Readings(filter);
    var rest := filter.Keys;
    while rest != {}
      invariant rest <= filter.Keys && CompiledBut(readings, rest, entries)
      decreases |rest|
    {
      var path :| path in rest;
      var entry := EntryFromPath(path, filter[path]);
      CompiledGrows(readings, rest, entries, path);
      if entry.Some? {
        entries := entries + [entry.value];
      }
      rest := rest - {path};
    }
    assert readings.Keys - rest == filter.Keys;
  }

  /** The entries once only the rest of the paths is left. */
  ghost predicate CompiledBut(readings: map<string, Option<Entry>>, rest: set<string>, entries: seq<Entry>) {
    CompiledFrom(readings, readings.Keys - rest, entries)
  }

  lemma CompiledGrows(readings: map<string, Option<Entry>>, rest: set<string>, entries: seq<Entry>, path: string)
    requires CompiledBut(readings, rest, entries) && path in rest && rest <= readings.Keys
    ensures CompiledBut(readings, rest - {path},
                        if readings[path].Some? then entries + [readings[path].value] else entries)
  {
    var before, after := Readable(readings, readings.Keys - rest), Readable(readings, readings.Keys - (rest - {path}));
    if readings[path].None? {
      assert after == before;
    } else {
      assert after == before + {path} && path !in before;
    }
  }

  method CompiledMatch(entries: seq<Entry>, envelope: Envelope) returns (r: bool)
    ensures r <==> forall e :: e in entries ==> EntryHolds(e, envelope)
  {
    for i := 0 to |entries|
      invariant forall j :: 0 <= j < i ==> EntryHolds(entries[j], envelope)
    {
      var holds := EntryMatches(entries[i], envelope);
      if !holds {
        return false;
      }
    }
    return true;
  }

  /** All paths can be read exactly when the compiled filter has as many entries as the filter. */
  lemma AllCompileIffSameSize(filter: map<string, string>, entries: seq<Entry>)
    requires IsCompiled(filter, entries)
    ensures |entries| == |filter| <==> forall path :: path in filter ==> EntryFromPath(path, filter[path]).Some?
  {
    var readable := Readable(Readings(filter), filter.Keys);
    assert |filter| == |filter.Keys|;
    SubsetCard(readable, filter.Keys);
    assert readable == filter.Keys <==> forall path :: path in filter.Keys ==> path in readable;
  }

  /** The compiled filter answers as the interpreted one when every path can be read, whatever
      the order it was compiled in. */
  lemma CompiledAgrees(filter: map<string, string>, entries: seq<Entry>, envelope: Envelope)
    requires IsCompiled(filter, entries) && |entries| == |filter|
    ensures (forall e :: e in entries ==> EntryHolds(e, envelope)) <==> FilterHolds(filter, envelope)
  {
    AllCompileIffSameSize(filter, entries);
    if forall e :: e in entries ==> EntryHolds(e, envelope) {
      forall path | path in filter ensures EntryHolds(EntryFromPath(path, filter[path]).value, envelope) {
        assert path in Readable(Readings(filter), filter.Keys);
      }
    }
  }

  // ----- registrations -----

  datatype Trigger = Trigger(enabled: bool, event: string, scope: string, workspaceId: string, filter: map<string,
                             string>)
  datatype Registration = Registration(trigger: Trigger, compiled: seq<Entry>)

  ghost predicate HeaderMatches(t: Trigger, envelope: Envelope) {
    && t.enabled && TrimSpace(t.event) == TrimSpace(envelope.kind) && t.scope == envelope.scope
    && TrimSpace(t.workspaceId) == TrimSpace(envelope.workspaceId)
  }

  /** A registration matches exactly when its header does and the interpreted filter holds,
      also when some of its paths cannot be read. */
  method RegistrationMatches(registration: Registration, envelope: Envelope) returns (r: bool)
    requires IsCompiled(registration.trigger.filter, registration.compiled)
    ensures r <==> HeaderMatches(registration.trigger, envelope) && FilterHolds(registration.trigger.filter, envelope)
  {
    var t := registration.trigger;
    if !t.enabled || TrimSpace(t.event) != TrimSpace(envelope.kind) || t.scope != envelope.scope {
      return false;
    }
    if TrimSpace(t.workspaceId) != TrimSpace(envelope.workspaceId) {
      return false;
    }
    if |t.filter| == 0 {
      assert t.filter == map[];
      return true;
    }
    if |registration.compiled| == |t.filter| {
      CompiledAgrees(t.filter, registration.compiled, envelope);
      r := CompiledMatch(registration.compiled, envelope);
    } else {
      r := ExactMatch(t.filter, envelope);
    }
  }

  // ----- validated filters -----

  predicate IsHeaderPath(path: string) {
    path == "kind" || path == "scope" || path == "workspace_id" || path == "source"
  }

  ghost predicate ValidPath(path: string) {
    IsHeaderPath(path) || (DATA_PREFIX <= path && NoBlankSegment(path[|DATA_PREFIX|..]))
  }

  ghost predicate NoBlankSegment(path: string) {
    forall segments :: IsSplit(path, segments) ==> forall s :: s in segments ==> TrimSpace(s) != ""
  }

  ghost predicate ValidFilter(filter: map<string, string>) {
    forall path :: path in filter ==> ValidPath(TrimSpace(path)) && TrimSpace(filter[path]) != ""
  }

  method ValidDataPath(path: string) returns (r: bool)
    ensures r <==> NoBlankSegment(path)
  {
    var remaining := path;
    ghost var segments := SplitExists(path);
    ghost var rest := segments;
    ghost var seen: seq<string> := [];
    while true
      invariant IsSplit(path, segments) && IsSplit(remaining, rest) && segments == seen + rest
      invariant forall s :: s in seen ==> TrimSpace(s) != ""
      decreases |remaining|
    {
      FirstSegment(remaining, rest);
      var cut := CutDot(remaining);
      if TrimSpace(cut.before) == "" {
        assert segments[|seen|] == rest[0] && TrimSpace(segments[|seen|]) == "";
        return false;
      }
      if !cut.found {
        break;
      }
      remaining := cut.after;
      seen, rest := seen + [rest[0]], rest[1..];
    }
    assert segments == seen + [rest[0]];
    forall other | IsSplit(path, other) ensures forall s :: s in other ==> TrimSpace(s) != "" {
      SplitUnique(path, segments, other);
    }
    return true;
  }

  /** A normalized registration compiles completely: its filter was validated. */
  method Normalize(t: Trigger, otherChecks: Trigger -> bool) returns (r: Option<Registration>)
    ensures r.Some? ==>
      ValidFilter(t.filter) && IsCompiled(t.filter, r.value.compiled) && |r.value.compiled| == |t.filter|
    ensures r.Some? ==> r.value.trigger == t.(event := TrimSpace(t.event), workspaceId := TrimSpace(t.workspaceId))
    ensures r.Some? <==>
      ValidFilter(t.filter) && otherChecks(t.(event := TrimSpace(t.event), workspaceId := TrimSpace(t.workspaceId)))
  {
    var trimmed := t.(event := TrimSpace(t.event), workspaceId := TrimSpace(t.workspaceId));
    var valid := IsValidFilter(t.filter);
    if !valid || !otherChecks(trimmed) {
      return None;
    }
    var compiled := Compile(t.filter);
    forall path | path in t.filter ensures EntryFromPath(path, t.filter[path]).Some? {
      ValidPathCompiles(path, t.filter[path]);
    }
    AllCompileIffSameSize(t.filter, compiled);
    return Some(Registration(trimmed, compiled));
  }

  method IsValidEntry(key: string, value: string) returns (r: bool)
    ensures r <==> ValidPath(key) && value != ""
  {
    if key == "" || value == "" {
      return false;
    }
    if IsHeaderPath(key) {
      return true;
    }
    if !(DATA_PREFIX <= key) {
      return false;
    }
    r := ValidDataPath(key[|DATA_PREFIX|..]);
  }

  method IsValidFilter(filter: map<string, string>) returns (r: bool)
    ensures r <==> ValidFilter(filter)
  {
    var rest := filter.Keys;
    while rest != {}
      invariant rest <= filter.Keys
      invariant forall path :: path in filter && path !in rest ==>
        ValidPath(TrimSpace(path)) && TrimSpace(filter[path]) != ""
      decreases |rest|
    {
      var path :| path in rest;
      var ok := IsValidEntry(TrimSpace(path), TrimSpace(filter[path]));
      if !ok {
        return false;
      }
      rest := rest - {path};
    }
    return true;
  }

  /** A valid path can be read. */
  lemma ValidPathCompiles(path: string, want: string)
    requires ValidPath(TrimSpace(path))
    ensures EntryFromPath(path, want).Some?
  {
    var p := TrimSpace(path);
    if !IsHeaderPath(p) {
      var dataPath := p[|DATA_PREFIX|..];
      var segments := SplitExists(dataPath);
      assert segments[0] in segments;
      SegmentNotBlank(dataPath, segments);
    }
  }

  lemma SegmentNotBlank(path: string, segments: seq<string>)
    requires IsSplit(path, segments) && TrimSpace(segments[0]) != ""
    ensures TrimSpace(path) != ""
  {
    assert segments[0] <= path;
    BlankPrefix(segments[0], path);
  }

  /** A prefix of a blank text is blank. */
  lemma BlankPrefix(prefix: string, s: string)
    requires prefix <= s
    ensures TrimSpace(s) == "" ==> TrimSpace(prefix) == ""
  {
    BlankIffAllSpace(prefix);
    BlankIffAllSpace(s);
  }
}
