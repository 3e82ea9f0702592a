/** The event stream of one prompt: tool results that arrive before their tool call are
    held back in a bounded list and released behind the call. */
module PromptStream {
  import opened Ordering

  const MAX_PENDING: nat := 128

  datatype Kind = ToolCall | ToolResult | Done | OtherKind
  /** id is the trimmed tool call id; every use of the raw id trims it first. */
  datatype AgentEvent = AgentEvent(kind: Kind, id: string, payload: string)

  // ----- the step as a function of values -----

  datatype StreamState = StreamState(seen: set<string>, pending: seq<AgentEvent>, sent: seq<AgentEvent>)

  function IdsOf(events: seq<AgentEvent>): (r: seq<string>)
    ensures |r| == |events| && forall k :: 0 <= k < |events| ==> r[k] == events[k].id
  {
    seq(|events|, i requires 0 <= i < |events| => events[i].id)
  }

  predicate Defers(st: StreamState, e: AgentEvent) {
    e.kind == ToolResult && e.id != "" && e.id !in st.seen
  }

  type EventPredicate = AgentEvent -> bool

  function Where(events: seq<AgentEvent>, p: EventPredicate): seq<AgentEvent> {
    if events == [] then []
    else
      var last := events[|events| - 1];
      Where(events[..|events| - 1], p) + (if p(last) then [last] else [])
  }

  function HasId(id: string): EventPredicate {
    (e: AgentEvent) => e.id == id
  }

  function LacksId(id: string): EventPredicate {
    (e: AgentEvent) => e.id != id
  }

  function WithId(events: seq<AgentEvent>, id: string): seq<AgentEvent> {
    Where(events, HasId(id))
  }

  function WithoutId(events: seq<AgentEvent>, id: string): seq<AgentEvent> {
    Where(events, LacksId(id))
  }

  /** The pending list once it has room for one more. */
  function MakeRoom(pending: seq<AgentEvent>): seq<AgentEvent> {
    if |pending| >= MAX_PENDING then pending[1..] else pending
  }

  function Emitted(st: StreamState, e: AgentEvent): StreamState {
    if Defers(st, e) then
      if e.id in IdsOf(st.pending) then st
      else st.(pending := MakeRoom(st.pending) + [e])
    else if e.kind == Done then
      st.(pending := [], sent := st.sent + st.pending + [e])
    else if e.kind == ToolCall && e.id != "" then
      StreamState(st.seen + {e.id}, WithoutId(st.pending, e.id), st.sent + [e] + WithId(st.pending, e.id))
    else
      st.(sent := st.sent + [e])
  }

  // ----- the stream as the process holds it -----

  class ActivePrompt {
    var closed: bool
    var seenToolCalls: set<string>
    /** The pending results: the first pendingCount elements of a backing array. */
    var pendingToolResults: array<AgentEvent>
    var pendingCount: nat
    var pendingToolResultIDs: set<string>
    /** What has been written to the channel. */
    var events: seq<AgentEvent>
    /** Every event emitted while the prompt was open. */
    ghost var accepted: seq<AgentEvent>

    ghost predicate Valid()
      reads this, pendingToolResults
    {
      PendingOk() && WellFormed(View()) && View() == Run(accepted)
    }

    /** The list lies within its array, and the index has its ids. */
    ghost predicate PendingOk()
      reads this, pendingToolResults
    {
      pendingCount <= pendingToolResults.Length && pendingToolResultIDs == Elems(IdsOf(Pending()))
    }

    ghost function Pending(): seq<AgentEvent>
      reads this, pendingToolResults
      requires pendingCount <= pendingToolResults.Length
    {
      pendingToolResults[..pendingCount]
    }

    ghost function View(): StreamState
      reads this, pendingToolResults
      requires pendingCount <= pendingToolResults.Length
    {
      StreamState(seenToolCalls, Pending(), events)
    }

    constructor ()
      ensures Valid() && !closed && accepted == [] && fresh(pendingToolResults)
    {
      closed, accepted := false, [];
      seenToolCalls, pendingToolResultIDs, events := {}, {}, [];
      pendingToolResults, pendingCount := new AgentEvent[0], 0;
      new;
      assert Elems(IdsOf([])) == {};
    }

    method EndPrompt()
      requires Valid()
      modifies this`closed
      ensures Valid() && closed && accepted == old(accepted)
    {
      closed := true;
    }

    method EmitPromptEvent(event: AgentEvent)
      requires Valid()
      modifies this, pendingToolResults
      ensures Valid() && closed == old(closed)
      ensures accepted == if closed then old(accepted) else old(accepted) + [event]
      ensures pendingToolResults == old(pendingToolResults) || fresh(pendingToolResults)
    {
      if closed {
        return;
      }
      AcceptedIsNext(accepted, View(), event);
      TakeEvent(event);
      ghost var next := View();
      accepted := accepted + [event];
      assert View() == next;
    }

    method TakeEvent(event: AgentEvent)
      requires Valid()
      modifies this`events, this`seenToolCalls, this`pendingToolResults, this`pendingCount, this`pendingToolResultIDs,
          pendingToolResults
      ensures PendingOk() && View() == Emitted(old(View()), event)
      ensures pendingToolResults == old(pendingToolResults) || fresh(pendingToolResults)
    {
      var deferred := DeferToolResult(event);
      if !deferred {
        PassEvent(event);
      }
    }

    /** An event that is not held back: sent, and followed or preceded by what it releases. */
    method PassEvent(event: AgentEvent)
      requires Valid() && !Defers(View(), event)
      modifies this`events, this`seenToolCalls, this`pendingToolResults, this`pendingCount, this`pendingToolResultIDs,
          pendingToolResults
      ensures PendingOk() && View() == Emitted(old(View()), event)
      ensures pendingToolResults == old(pendingToolResults) || fresh(pendingToolResults)
    {
      PendingIdsNotEmpty(View());
      if event.kind == Done {
        FlushDeferredToolResults();
      }
      SendEvent(event);
      if event.kind == ToolCall {
        MarkToolCallSeen(event.id);
        FlushDeferredToolResultsForTool(event.id);
      }
    }

    method SendEvent(event: AgentEvent)
      modifies this`events
      ensures events == old(events) + [event]
    {
      events := events + [event];
    }

    method MarkToolCallSeen(toolCallID: string)
      modifies this`seenToolCalls
      ensures seenToolCalls == if toolCallID == "" then old(seenToolCalls) else old(seenToolCalls) + {toolCallID}
    {
      if toolCallID == "" {
        return;
      }
      seenToolCalls := seenToolCalls + {toolCallID};
    }

    /** Go's append: in place while the array lasts, else into a larger copy. */
    method AppendPending(event: AgentEvent)
      requires PendingOk()
      modifies this`pendingToolResults, this`pendingCount, this`pendingToolResultIDs, pendingToolResults
      ensures PendingOk() && Pending() == old(Pending()) + [event]
      ensures pendingToolResults == old(pendingToolResults) || fresh(pendingToolResults)
    {
      ghost var before := Pending();
      if pendingCount == pendingToolResults.Length {
        var grown := new AgentEvent[2 * pendingCount + 1];
        forall k | 0 <= k < pendingCount { grown[k] := pendingToolResults[k]; }
        pendingToolResults := grown;
      }
      pendingToolResults[pendingCount] := event;
      pendingCount := pendingCount + 1;
      pendingToolResultIDs := pendingToolResultIDs + {event.id};
      assert Pending()[..|before|] == before;
      assert IdsOf(Pending()) == IdsOf(before) + [event.id];
    }

    method DeferToolResult(event: AgentEvent) returns (deferred: bool)
      requires Valid()
      modifies this`pendingToolResults, this`pendingCount, this`pendingToolResultIDs, pendingToolResults
      ensures PendingOk() && (deferred <==> Defers(old(View()), event))
      ensures View() == if deferred then Emitted(old(View()), event) else old(View())
      ensures pendingToolResults == old(pendingToolResults) || fresh(pendingToolResults)
    {
      if event.kind != ToolResult || event.id == "" {
        return false;
      }
      if event.id in seenToolCalls {
        return false;
      }
      if event.id in pendingToolResultIDs {
        return true;
      }
      HoldBack(event);
      return true;
    }

    /** A new result joins the list, which loses its oldest when it is full. */
    method HoldBack(event: AgentEvent)
      requires PendingOk() && Distinct(IdsOf(Pending()))
      modifies this`pendingToolResults, this`pendingCount, this`pendingToolResultIDs, pendingToolResults
      ensures PendingOk() && Pending() == MakeRoom(old(Pending())) + [event]
      ensures pendingToolResults == old(pendingToolResults) || fresh(pendingToolResults)
    {
      if pendingCount >= MAX_PENDING {
        DropOldestPendingToolResult();
      }
      AppendPending(event);
    }

    /** The results behind the oldest one are shifted down. */
    method DropOldestPendingToolResult()
      requires PendingOk() && Distinct(IdsOf(Pending())) && pendingCount > 0
      modifies this`pendingCount, this`pendingToolResultIDs, pendingToolResults
      ensures PendingOk() && Pending() == old(Pending())[1..]
    {
      ghost var pending, ids := Pending(), IdsOf(Pending());
      var oldest := pendingToolResults[0];
      assert ids == [oldest.id] + IdsOf(pending[1..]);
      assert forall k :: 1 <= k < |ids| ==> ids[0] != ids[k];
      pendingToolResultIDs := pendingToolResultIDs - {oldest.id};
      forall k | 0 <= k < pendingCount - 1 { pendingToolResults[k] := pendingToolResults[k + 1]; }
      pendingCount := pendingCount - 1;
      assert Pending() == pending[1..] && IdsOf(Pending()) == ids[1..];
    }

    /** An event that stays is written behind those that stayed before. */
    method KeepPending(remaining: nat, event: AgentEvent)
      requires remaining < pendingToolResults.Length
      modifies pendingToolResults
      ensures pendingToolResults[..remaining + 1] == old(pendingToolResults[..remaining]) + [event]
      ensures forall k :: remaining < k < pendingToolResults.Length ==>
        pendingToolResults[k] == old(pendingToolResults[k])
    {
      pendingToolResults[remaining] := event;
    }

    /** Filters the list in place: the results of the tool are sent, and what stays moves to
        the front of the same array. */
    method FilterPending(toolCallID: string) returns (remaining: nat, remainingIDs: set<string>)
      requires pendingCount <= pendingToolResults.Length
      modifies this`events, pendingToolResults
      ensures remaining <= pendingCount && pendingToolResults[..remaining] == WithoutId(old(Pending()), toolCallID)
      ensures events == old(events) + WithId(old(Pending()), toolCallID)
      ensures remainingIDs == Elems(IdsOf(pendingToolResults[..remaining])) - {""}
    {
      ghost var pending := Pending();
      remaining, remainingIDs := 0, {};
      assert IdsOf([]) == [] && old(events) + [] == old(events);
      for i := 0 to pendingCount
        invariant 0 <= remaining <= i && pending == old(Pending())
        invariant forall k :: i <= k < pendingCount ==> pendingToolResults[k] == pending[k]
        invariant Filtered(pending[..i], toolCallID, pendingToolResults[..remaining], old(events), events, remainingIDs)
      {
        FilteredGrows(pending, i, toolCallID, pendingToolResults[..remaining], old(events), events, remainingIDs);
        var event := pendingToolResults[i];
        if event.id == toolCallID {
          SendEvent(event);
          continue;
        }
        KeepPending(remaining, event);
        remaining := remaining + 1;
        if event.id != "" {
          remainingIDs := remainingIDs + {event.id};
        }
      }
      assert pending[..|pending|] == pending;
    }

    method FlushDeferredToolResultsForTool(toolCallID: string)
      requires PendingOk() && "" !in pendingToolResultIDs
      modifies this`pendingCount, this`pendingToolResultIDs, this`events, pendingToolResults
      ensures PendingOk()
      ensures toolCallID == "" ==> Pending() == old(Pending()) && events == old(events)
      ensures toolCallID != "" ==> Pending() == WithoutId(old(Pending()), toolCallID)
      ensures toolCallID != "" ==> events == old(events) + WithId(old(Pending()), toolCallID)
    {
      if toolCallID == "" || pendingCount == 0 {
        return;
      }
      WhereKeepsIds(Pending(), LacksId(toolCallID));
      pendingCount, pendingToolResultIDs := FilterPending(toolCallID);
    }

    method FlushDeferredToolResults()
      requires PendingOk()
      modifies this`pendingToolResults, this`pendingCount, this`pendingToolResultIDs, this`events
      ensures PendingOk() && Pending() == [] && events == old(events) + old(Pending())
      ensures pendingToolResults == old(pendingToolResults) || fresh(pendingToolResults)
    {
      assert Elems(IdsOf([])) == {};
      if pendingCount == 0 {
        return;
      }
      var pending, count := pendingToolResults, pendingCount;
      pendingToolResults, pendingCount := new AgentEvent[0], 0;
      pendingToolResultIDs := {};
      for i := 0 to count
        invariant pendingCount == 0 && pendingToolResultIDs == {} && fresh(pendingToolResults)
        invariant events == old(events) + pending[..i]
      {
        assert pending[..i + 1] == pending[..i] + [pending[i]];
        SendEvent(pending[i]);
      }
    }
  }

  /** Part of the list was filtered: what was kept and its ids, and what was sent. */
  ghost predicate Filtered(pending: seq<AgentEvent>, id: string, kept: seq<AgentEvent>,
                           before: seq<AgentEvent>, sent: seq<AgentEvent>, ids: set<string>) {
    && kept == WithoutId(pending, id) && sent == before + WithId(pending, id)
    && ids == Elems(IdsOf(kept)) - {""}
  }

  lemma FilteredGrows(pending: seq<AgentEvent>, i: nat, id: string, kept: seq<AgentEvent>,
                      before: seq<AgentEvent>, sent: seq<AgentEvent>, ids: set<string>)
    requires i < |pending| && Filtered(pending[..i], id, kept, before, sent, ids)
    ensures var e := pending[i];
      if e.id == id then Filtered(pending[..i + 1], id, kept, before, sent + [e], ids)
      else Filtered(pending[..i + 1], id, kept + [e], before, sent, if e.id != "" then ids + {e.id} else ids)
  {
    var e := pending[i];
    assert pending[..i + 1][..i] == pending[..i];
    assert IdsOf(kept + [e]) == IdsOf(kept) + [e.id];
    if e.id == id {
      assert WithId(pending[..i + 1], id) == WithId(pending[..i], id) + [e];
    } else {
      assert WithId(pending[..i + 1], id) == WithId(pending[..i], id);
    }
  }

  // ----- what every step keeps -----

  lemma RunGrows(accepted: seq<AgentEvent>, e: AgentEvent)
    ensures Run(accepted + [e]) == Emitted(Run(accepted), e)
  {
    assert (accepted + [e])[..|accepted|] == accepted;
  }

  lemma AcceptedIsNext(accepted: seq<AgentEvent>, st: StreamState, e: AgentEvent)
    requires st == Run(accepted) && WellFormed(st)
    ensures WellFormed(Emitted(st, e)) && Run(accepted + [e]) == Emitted(st, e)
  {
    EmittedKeepsWellFormed(st, e);
    RunGrows(accepted, e);
  }

  lemma PendingIdsNotEmpty(st: StreamState)
    requires WellFormed(st)
    ensures "" !in Elems(IdsOf(st.pending))
  {
    forall k | 0 <= k < |st.pending| ensures IdsOf(st.pending)[k] != "" {
      assert Defers(st, st.pending[k]);
    }
  }

  /** Pending results are results with distinct non-empty ids whose call has not been seen. */
  ghost predicate WellFormed(st: StreamState) {
    && Distinct(IdsOf(st.pending)) && |st.pending| <= MAX_PENDING
    && forall k :: 0 <= k < |st.pending| ==> Defers(st, st.pending[k])
  }

  lemma {:induction false} WhereMembers(events: seq<AgentEvent>, p: EventPredicate)
    ensures forall e :: e in Where(events, p) <==> e in events && p(e)
  {
    if events != [] {
      WhereMembers(events[..|events| - 1], p);
      assert events == events[..|events| - 1] + [events[|events| - 1]];
    }
  }

  lemma WhereKeepsIds(events: seq<AgentEvent>, p: EventPredicate)
    ensures Elems(IdsOf(Where(events, p))) <= Elems(IdsOf(events))
  {
    WhereMembers(events, p);
    forall id | id in IdsOf(Where(events, p)) ensures id in IdsOf(events) {
      var k :| 0 <= k < |Where(events, p)| && Where(events, p)[k].id == id;
      assert Where(events, p)[k] in events;
      var j :| 0 <= j < |events| && events[j] == Where(events, p)[k];
      assert IdsOf(events)[j] == id;
    }
  }

  lemma {:induction false} WithoutIdMembers(events: seq<AgentEvent>, id: string)
    requires Distinct(IdsOf(events))
    ensures Distinct(IdsOf(WithoutId(events, id))) && |WithoutId(events, id)| <= |events|
    ensures forall e :: e in WithoutId(events, id) <==> e in events && e.id != id
  {
    if events != [] {
      var init, last := events[..|events| - 1], events[|events| - 1];
      assert events == init + [last];
      forall i, j | 0 <= i < j < |init| ensures IdsOf(init)[i] != IdsOf(init)[j] {
        assert IdsOf(events)[i] != IdsOf(events)[j];
      }
      WithoutIdMembers(init, id);
      var rest := WithoutId(init, id);
      forall k | 0 <= k < |rest| ensures rest[k].id != last.id {
        assert rest[k] in init;
        var j :| 0 <= j < |init| && init[j] == rest[k];
        assert IdsOf(events)[j] != IdsOf(events)[|init|];
      }
    }
  }

  lemma EmittedKeepsWellFormed(st: StreamState, e: AgentEvent)
    requires WellFormed(st)
    ensures WellFormed(Emitted(st, e))
  {
    if Defers(st, e) {
      if e.id !in IdsOf(st.pending) {
        RoomKeepsWellFormed(st, e);
      }
    } else if e.kind == ToolCall && e.id != "" {
      WithoutIdMembers(st.pending, e.id);
      var rest := WithoutId(st.pending, e.id);
      forall k | 0 <= k < |rest| ensures Defers(Emitted(st, e), rest[k]) {
        assert rest[k] in st.pending;
        var j :| 0 <= j < |st.pending| && st.pending[j] == rest[k];
      }
    }
  }

  /** The list with room for e, and e at its end. */
  lemma RoomKeepsWellFormed(st: StreamState, e: AgentEvent)
    requires WellFormed(st) && Defers(st, e) && e.id !in IdsOf(st.pending)
    ensures WellFormed(st.(pending := MakeRoom(st.pending) + [e]))
  {
    var room := MakeRoom(st.pending);
    var d := |st.pending| - |room|;
    forall k | 0 <= k < |room| ensures room[k].id != e.id && Defers(st, room[k]) {
      assert room[k] == st.pending[k + d] && IdsOf(st.pending)[k + d] == room[k].id;
    }
    forall i, j | 0 <= i < j < |room| ensures room[i].id != room[j].id {
      assert IdsOf(st.pending)[i + d] != IdsOf(st.pending)[j + d];
    }
  }

  // ----- runs -----

  /** The state after a prompt accepted the events in order. */
  ghost function Run(accepted: seq<AgentEvent>): StreamState {
    if accepted == [] then StreamState({}, [], [])
    else Emitted(Run(accepted[..|accepted| - 1]), accepted[|accepted| - 1])
  }

  lemma {:induction false} RunWellFormed(accepted: seq<AgentEvent>)
    ensures WellFormed(Run(accepted))
  {
    if accepted != [] {
      RunWellFormed(accepted[..|accepted| - 1]);
      EmittedKeepsWellFormed(Run(accepted[..|accepted| - 1]), accepted[|accepted| - 1]);
    }
  }

  ghost predicate CallAt(sent: seq<AgentEvent>, j: nat, id: string) {
    j < |sent| && sent[j].kind == ToolCall && sent[j].id == id
  }

  ghost predicate CalledBefore(sent: seq<AgentEvent>, i: nat)
    requires i < |sent|
  {
    exists j: nat :: j < i && CallAt(sent, j, sent[i].id)
  }

  /** The i-th event sent was pending when event m, a done event, released everything pending. */
  ghost predicate FlushedBy(accepted: seq<AgentEvent>, m: nat, i: nat) {
    && m < |accepted| && accepted[m].kind == Done
    && var st := Run(accepted[..m]); |st.sent| <= i < |st.sent| + |st.pending|
  }

  /** Called before, or released by the end of a turn. */
  ghost predicate Justified(accepted: seq<AgentEvent>, i: nat)
    requires i < |Run(accepted).sent|
  {
    var sent := Run(accepted).sent;
    sent[i].kind == ToolResult && sent[i].id != "" ==>
      CalledBefore(sent, i) || exists m: nat :: FlushedBy(accepted, m, i)
  }

  ghost predicate SeenWereSent(st: StreamState) {
    forall id :: id in st.seen ==> exists j: nat :: CallAt(st.sent, j, id)
  }

  /** What was sent stays sent. */
  lemma {:induction false} SentGrows(accepted: seq<AgentEvent>, n: nat)
    requires n <= |accepted|
    ensures Run(accepted[..n]).sent <= Run(accepted).sent
  {
    if n < |accepted| {
      var init := accepted[..|accepted| - 1];
      assert init[..n] == accepted[..n];
      SentGrows(init, n);
    } else {
      assert accepted[..n] == accepted;
    }
  }

  lemma CallStays(sent: seq<AgentEvent>, longer: seq<AgentEvent>, i: nat)
    requires i < |sent| && sent <= longer && CalledBefore(sent, i)
    ensures CalledBefore(longer, i)
  {
    var j: nat :| j < i && CallAt(sent, j, sent[i].id);
    assert CallAt(longer, j, longer[i].id);
  }

  lemma JustifiedExtends(accepted: seq<AgentEvent>, e: AgentEvent, i: nat)
    requires i < |Run(accepted).sent| && Justified(accepted, i)
    ensures i < |Run(accepted + [e]).sent| && Justified(accepted + [e], i)
  {
    var longer := accepted + [e];
    assert longer[..|accepted|] == accepted;
    SentGrows(longer, |accepted|);
    var sent := Run(accepted).sent;
    if sent[i].kind == ToolResult && sent[i].id != "" {
      if CalledBefore(sent, i) {
        CallStays(sent, Run(longer).sent, i);
      } else {
        var m: nat :| FlushedBy(accepted, m, i);
        assert longer[..m] == accepted[..m];
        assert FlushedBy(longer, m, i);
      }
    }
  }

  lemma SeenStaySent(st: StreamState, e: AgentEvent)
    requires SeenWereSent(st)
    ensures SeenWereSent(Emitted(st, e))
  {
    var next := Emitted(st, e);
    forall id | id in next.seen ensures exists j: nat :: CallAt(next.sent, j, id) {
      if id in st.seen {
        var j: nat :| CallAt(st.sent, j, id);
        assert CallAt(next.sent, j, id);
      } else {
        assert CallAt(next.sent, |st.sent|, id);
      }
    }
  }

  /** A result sent by the last event follows its call, or the event is a done event. */
  lemma NewlySentJustified(st: StreamState, e: AgentEvent, i: nat)
    requires WellFormed(st) && SeenWereSent(st)
    requires |st.sent| <= i < |Emitted(st, e).sent|
    requires Emitted(st, e).sent[i].kind == ToolResult && Emitted(st, e).sent[i].id != ""
    ensures CalledBefore(Emitted(st, e).sent, i) || (e.kind == Done && i < |st.sent| + |st.pending|)
  {
    var next := Emitted(st, e);
    if e.kind == ToolCall {
      WhereMembers(st.pending, HasId(e.id));
      assert next.sent[i] in WithId(st.pending, e.id);
      assert CallAt(next.sent, |st.sent|, next.sent[i].id);
    } else if e.kind != Done {
      var j: nat :| CallAt(st.sent, j, e.id);
      assert CallAt(next.sent, j, e.id);
    }
  }

  /** One more event: what was justified stays so, and what it sends is. */
  lemma NextJustified(init: seq<AgentEvent>, last: AgentEvent, i: nat)
    requires WellFormed(Run(init)) && SeenWereSent(Run(init)) && Run(init + [last]) == Emitted(Run(init), last)
    requires i < |Run(init + [last]).sent| && (i < |Run(init).sent| ==> Justified(init, i))
    ensures Justified(init + [last], i)
  {
    var st, next := Run(init), Run(init + [last]);
    if i < |st.sent| {
      JustifiedExtends(init, last, i);
    } else if next.sent[i].kind == ToolResult && next.sent[i].id != "" {
      NewlySentJustified(st, last, i);
      if last.kind == Done && i < |st.sent| + |st.pending| {
        assert (init + [last])[..|init|] == init;
        assert FlushedBy(init + [last], |init|, i);
      }
    }
  }

  lemma {:induction false} RunJustified(accepted: seq<AgentEvent>)
    ensures SeenWereSent(Run(accepted))
    ensures forall i :: 0 <= i < |Run(accepted).sent| ==> Justified(accepted, i)
  {
    if accepted != [] {
      var init, last := accepted[..|accepted| - 1], accepted[|accepted| - 1];
      RunJustified(init);
      RunWellFormed(init);
      SeenStaySent(Run(init), last);
      assert accepted == init + [last];
      forall i | 0 <= i < |Run(accepted).sent| ensures Justified(accepted, i) {
        NextJustified(init, last, i);
      }
    }
  }

  /** Every result sent with an id follows a tool call with that id, or was pending when a done
      event released everything. */
  lemma ResultsFollowCalls(accepted: seq<AgentEvent>, i: nat)
    requires i < |Run(accepted).sent|
    ensures Justified(accepted, i)
  {
    RunJustified(accepted);
  }

  /** What was sent when the first done event came always follows its call. */
  lemma FollowsBeforeDone(accepted: seq<AgentEvent>, n: nat, i: nat)
    requires n <= |accepted| && forall m :: 0 <= m < n ==> accepted[m].kind != Done
    requires i < |Run(accepted[..n]).sent|
    ensures i < |Run(accepted).sent|
    ensures var r := Run(accepted).sent[i]; r.kind == ToolResult && r.id != "" ==> CalledBefore(Run(accepted).sent, i)
  {
    SentGrows(accepted, n);
    ResultsFollowCalls(accepted, i);
    var r := Run(accepted).sent[i];
    if r.kind == ToolResult && r.id != "" && !CalledBefore(Run(accepted).sent, i) {
      var m: nat :| FlushedBy(accepted, m, i);
      assert accepted[..m][..n] == accepted[..n];
      SentGrows(accepted[..m], n);
      assert false;
    }
  }

  // ----- nothing is lost or invented -----

  /** Results dropped because a result with their id was already pending. */
  ghost function Duplicates(accepted: seq<AgentEvent>): seq<AgentEvent> {
    if accepted == [] then []
    else
      var init, last := accepted[..|accepted| - 1], accepted[|accepted| - 1];
      Duplicates(init) + (if Defers(Run(init), last) && last.id in IdsOf(Run(init).pending) then [last] else [])
  }

  /** Results dropped as the oldest of a full pending list. */
  ghost function Evicted(accepted: seq<AgentEvent>): seq<AgentEvent> {
    if accepted == [] then []
    else
      var init, last := accepted[..|accepted| - 1], accepted[|accepted| - 1];
      Evicted(init)
      + (if Defers(Run(init), last) && last.id !in IdsOf(Run(init).pending) && |Run(init).pending| >= MAX_PENDING
         then [Run(init).pending[0]] else [])
  }

  lemma LastCounted<T>(s: seq<T>)
    requires s != []
    ensures multiset(s) == multiset(s[..|s| - 1]) + multiset{s[|s| - 1]}
  {
    assert s == s[..|s| - 1] + [s[|s| - 1]];
  }

  lemma {:induction false} WherePartition(events: seq<AgentEvent>, id: string)
    ensures multiset(WithId(events, id)) + multiset(WithoutId(events, id)) == multiset(events)
  {
    if events != [] {
      WherePartition(events[..|events| - 1], id);
      LastCounted(events);
    }
  }

  ghost function Dropped(st: StreamState, e: AgentEvent): seq<AgentEvent> {
    if !Defers(st, e) then []
    else if e.id in IdsOf(st.pending) then [e]
    else if |st.pending| >= MAX_PENDING then [st.pending[0]]
    else []
  }

  lemma ConservationStep(st: StreamState, e: AgentEvent)
    ensures multiset(Emitted(st, e).sent) + multiset(Emitted(st, e).pending) + multiset(Dropped(st, e))
         == multiset(st.sent) + multiset(st.pending) + multiset{e}
  {
    if Defers(st, e) {
      ConservationOfDeferred(st, e);
      Regroup(multiset(st.sent), multiset(Emitted(st, e).pending), multiset(Dropped(st, e)), multiset(st.pending),
              multiset{e});
    } else if e.kind == ToolCall && e.id != "" {
      WherePartition(st.pending, e.id);
    }
  }

  lemma ConservationOfDeferred(st: StreamState, e: AgentEvent)
    requires Defers(st, e)
    ensures Emitted(st, e).sent == st.sent
    ensures multiset(Emitted(st, e).pending) + multiset(Dropped(st, e)) == multiset(st.pending) + multiset{e}
  {
    if e.id !in IdsOf(st.pending) && |st.pending| >= MAX_PENDING {
      assert st.pending == [st.pending[0]] + st.pending[1..];
    }
  }

  lemma Regroup<T>(s: multiset<T>, a: multiset<T>, b: multiset<T>, c: multiset<T>, d: multiset<T>)
    requires a + b == c + d
    ensures s + a + b == s + c + d
  {
    assert s + a + b == s + (a + b) && s + c + d == s + (c + d);
  }

  ghost function Lost(accepted: seq<AgentEvent>): multiset<AgentEvent> {
    if accepted == [] then multiset{}
    else
      var init := accepted[..|accepted| - 1];
      Lost(init) + multiset(Dropped(Run(init), accepted[|accepted| - 1]))
  }

  lemma {:induction false} LostAreDuplicatesAndEvicted(accepted: seq<AgentEvent>)
    ensures Lost(accepted) == multiset(Duplicates(accepted)) + multiset(Evicted(accepted))
  {
    if accepted != [] {
      LostAreDuplicatesAndEvicted(accepted[..|accepted| - 1]);
    }
  }

  ghost function Held(st: StreamState): multiset<AgentEvent> {
    multiset(st.sent) + multiset(st.pending)
  }

  lemma HeldStep(st: StreamState, e: AgentEvent, all: multiset<AgentEvent>, lost: multiset<AgentEvent>)
    requires all == Held(st) + lost
    ensures all + multiset{e} == Held(Emitted(st, e)) + (lost + multiset(Dropped(st, e)))
  {
    ConservationStep(st, e);
    Balance(all, Held(st), lost, Held(Emitted(st, e)), multiset(Dropped(st, e)), multiset{e});
  }

  lemma Balance<T>(all: multiset<T>, held: multiset<T>, lost: multiset<T>, held': multiset<T>, dropped: multiset<T>,
                   e: multiset<T>)
    requires all == held + lost && held' + dropped == held + e
    ensures all + e == held' + (lost + dropped)
  {
    forall x ensures (all + e)[x] == (held' + (lost + dropped))[x] {
      assert (held' + dropped)[x] == (held + e)[x];
    }
  }

  lemma {:induction false} NothingElseIsLost(accepted: seq<AgentEvent>)
    ensures multiset(accepted) == Held(Run(accepted)) + Lost(accepted)
  {
    if accepted != [] {
      var init, last := accepted[..|accepted| - 1], accepted[|accepted| - 1];
      LastCounted(accepted);
      NothingElseIsLost(init);
      HeldStep(Run(init), last, multiset(init), Lost(init));
    }
  }

  /** Every accepted event is sent once, still pending, a duplicate, or evicted. */
  lemma Conservation(accepted: seq<AgentEvent>)
    ensures multiset(accepted) == multiset(Run(accepted).sent) + multiset(Run(accepted).pending)
                                + multiset(Duplicates(accepted)) + multiset(Evicted(accepted))
  {
    NothingElseIsLost(accepted);
    LostAreDuplicatesAndEvicted(accepted);
  }

  // ----- order -----

  function NotResult(): EventPredicate {
    (e: AgentEvent) => e.kind != ToolResult
  }

  function ResultOf(id: string): EventPredicate {
    (e: AgentEvent) => e.kind == ToolResult && e.id == id
  }

  lemma {:induction false} WhereAppend(a: seq<AgentEvent>, b: seq<AgentEvent>, p: EventPredicate)
    ensures Where(a + b, p) == Where(a, p) + Where(b, p)
  {
    if b == [] {
      assert a + b == a;
    } else {
      var init, last := b[..|b| - 1], b[|b| - 1];
      WhereAppend(a, init, p);
      assert a + b == (a + init) + [last];
    }
  }

  lemma {:induction false} WhereNone(events: seq<AgentEvent>, p: EventPredicate)
    requires forall e :: e in events ==> !p(e)
    ensures Where(events, p) == []
  {
    if events != [] {
      WhereNone(events[..|events| - 1], p);
    }
  }

  /** Everything but tool results is sent in the order it was accepted. */
  lemma {:induction false} OthersKeepTheirOrder(accepted: seq<AgentEvent>)
    ensures Where(Run(accepted).sent, NotResult()) == Where(accepted, NotResult())
  {
    if accepted != [] {
      var init, last := accepted[..|accepted| - 1], accepted[|accepted| - 1];
      var st := Run(init);
      OthersKeepTheirOrder(init);
      RunWellFormed(init);
      OthersStep(st, last);
    }
  }

  lemma WhereOne(e: AgentEvent, p: EventPredicate)
    ensures Where([e], p) == if p(e) then [e] else []
  {
    assert Where([e], p) == Where([], p) + (if p(e) then [e] else []);
  }

  lemma WhereThree(a: seq<AgentEvent>, b: seq<AgentEvent>, c: seq<AgentEvent>, p: EventPredicate)
    ensures Where(a + b + c, p) == Where(a, p) + Where(b, p) + Where(c, p)
  {
    WhereAppend(a + b, c, p);
    WhereAppend(a, b, p);
  }

  lemma PendingAreResults(st: StreamState, id: string)
    requires WellFormed(st)
    ensures Where(st.pending, NotResult()) == [] && Where(WithId(st.pending, id), NotResult()) == []
  {
    WhereMembers(st.pending, HasId(id));
    forall e | e in st.pending ensures e.kind == ToolResult {
      var j :| 0 <= j < |st.pending| && st.pending[j] == e;
      assert Defers(st, st.pending[j]);
    }
    WhereNone(st.pending, NotResult());
    WhereNone(WithId(st.pending, id), NotResult());
  }

  /** What an event that is not held back releases before itself, and behind. */
  ghost function Ahead(st: StreamState, e: AgentEvent): seq<AgentEvent> {
    if e.kind == Done then st.pending else []
  }

  ghost function Behind(st: StreamState, e: AgentEvent): seq<AgentEvent> {
    if e.kind == ToolCall && e.id != "" then WithId(st.pending, e.id) else []
  }

  lemma SentSplits(st: StreamState, e: AgentEvent)
    requires !Defers(st, e)
    ensures Emitted(st, e).sent == st.sent + Ahead(st, e) + [e] + Behind(st, e)
  {
  }

  lemma OthersStep(st: StreamState, e: AgentEvent)
    requires WellFormed(st)
    ensures Where(Emitted(st, e).sent, NotResult()) ==
            Where(st.sent, NotResult()) + (if e.kind != ToolResult then [e] else [])
  {
    if !Defers(st, e) {
      SentSplits(st, e);
      PendingAreResults(st, e.id);
      OthersAround(st.sent, Ahead(st, e), e, Behind(st, e));
    }
  }

  lemma OthersAround(sent: seq<AgentEvent>, before: seq<AgentEvent>, e: AgentEvent, behind: seq<AgentEvent>)
    requires Where(before, NotResult()) == [] && Where(behind, NotResult()) == []
    ensures Where(sent + before + [e] + behind, NotResult())
      == Where(sent, NotResult()) + (if e.kind != ToolResult then [e] else [])
  {
    WhereOne(e, NotResult());
    WhereThree(sent, before, [e], NotResult());
    WhereAppend(sent + before + [e], behind, NotResult());
  }

  ghost function ResultsInHand(st: StreamState, id: string): seq<AgentEvent> {
    Where(st.sent + st.pending, ResultOf(id))
  }

  lemma {:induction false} WhereWhere(events: seq<AgentEvent>, p: EventPredicate, q: EventPredicate)
    requires forall e :: q(e) ==> p(e)
    ensures Where(Where(events, p), q) == Where(events, q)
  {
    if events != [] {
      var init, last := events[..|events| - 1], events[|events| - 1];
      WhereWhere(init, p, q);
      if p(last) {
        WhereAppend(Where(init, p), [last], q);
        WhereOne(last, q);
      } else {
        assert Where(events, p) == Where(init, p);
      }
    }
  }

  lemma WithIdKeepsResults(events: seq<AgentEvent>, id: string, x: string)
    ensures Where(WithId(events, id), ResultOf(x)) == if x == id then Where(events, ResultOf(x)) else []
    ensures Where(WithoutId(events, id), ResultOf(x)) == if x == id then [] else Where(events, ResultOf(x))
  {
    if x == id {
      WhereWhere(events, HasId(id), ResultOf(x));
      WhereMembers(events, LacksId(id));
      WhereNone(WithoutId(events, id), ResultOf(x));
    } else {
      WhereWhere(events, LacksId(id), ResultOf(x));
      WhereMembers(events, HasId(id));
      WhereNone(WithId(events, id), ResultOf(x));
    }
  }

  lemma ResultsOfCall(sent: seq<AgentEvent>, pending: seq<AgentEvent>, e: AgentEvent, x: string)
    requires e.kind == ToolCall
    ensures Where(sent + [e] + WithId(pending, e.id) + WithoutId(pending, e.id), ResultOf(x))
      == Where(sent + pending, ResultOf(x))
  {
    var p := ResultOf(x);
    WithIdKeepsResults(pending, e.id, x);
    WhereOne(e, p);
    WhereAppend(sent, pending, p);
    WhereThree(sent, [e], WithId(pending, e.id), p);
    WhereAppend(sent + [e] + WithId(pending, e.id), WithoutId(pending, e.id), p);
  }

  /** A result that passes has no result of its id pending. */
  lemma NothingPendingFor(st: StreamState, e: AgentEvent, x: string)
    requires WellFormed(st) && !Defers(st, e) && ResultOf(x)(e)
    ensures Where(st.pending, ResultOf(x)) == []
  {
    forall r | r in st.pending ensures !ResultOf(x)(r) {
      var k :| 0 <= k < |st.pending| && st.pending[k] == r;
      assert Defers(st, st.pending[k]);
    }
    WhereNone(st.pending, ResultOf(x));
  }

  lemma ResultsOfPassing(st: StreamState, e: AgentEvent, x: string)
    requires WellFormed(st) && !Defers(st, e)
    ensures Where(st.sent + [e] + st.pending, ResultOf(x))
      == ResultsInHand(st, x) + (if ResultOf(x)(e) then [e] else [])
  {
    var p := ResultOf(x);
    WhereOne(e, p);
    WhereAppend(st.sent, st.pending, p);
    WhereThree(st.sent, [e], st.pending, p);
    if p(e) {
      NothingPendingFor(st, e, x);
    }
    SwapEmpty(Where(st.sent, p), Where([e], p), Where(st.pending, p));
  }

  lemma SwapEmpty<T>(a: seq<T>, b: seq<T>, c: seq<T>)
    requires b == [] || c == []
    ensures a + b + c == a + c + b
  {}

  lemma ResultsOfAppending(st: StreamState, e: AgentEvent, x: string)
    ensures Where(st.sent + st.pending + [e], ResultOf(x))
      == ResultsInHand(st, x) + (if ResultOf(x)(e) then [e] else [])
  {
    WhereOne(e, ResultOf(x));
    WhereAppend(st.sent + st.pending, [e], ResultOf(x));
  }

  /** A step that drops nothing adds its event at the end of its id's results. */
  lemma ResultsStep(st: StreamState, e: AgentEvent, x: string)
    requires WellFormed(st)
    requires Dropped(st, e) == []
    ensures ResultsInHand(Emitted(st, e), x) == ResultsInHand(st, x) + (if ResultOf(x)(e) then [e] else [])
  {
    if Defers(st, e) {
      assert st.sent + (st.pending + [e]) == st.sent + st.pending + [e];
      ResultsOfAppending(st, e, x);
    } else if e.kind == Done {
      assert (st.sent + st.pending + [e]) + [] == st.sent + st.pending + [e];
      ResultsOfAppending(st, e, x);
    } else if e.kind == ToolCall && e.id != "" {
      ResultsOfCall(st.sent, st.pending, e, x);
    } else {
      ResultsOfPassing(st, e, x);
    }
  }

  /** The first is the second with some events left out. */
  ghost predicate IsSubsequence(a: seq<AgentEvent>, b: seq<AgentEvent>) {
    a == []
    || (b != [] && IsSubsequence(a, b[..|b| - 1]))
    || (b != [] && a[|a| - 1] == b[|b| - 1] && IsSubsequence(a[..|a| - 1], b[..|b| - 1]))
  }

  lemma {:induction false} LeaveOutLast(a: seq<AgentEvent>, b: seq<AgentEvent>)
    requires a != [] && IsSubsequence(a, b)
    ensures IsSubsequence(a[..|a| - 1], b)
  {
    if IsSubsequence(a, b[..|b| - 1]) {
      LeaveOutLast(a, b[..|b| - 1]);
    }
  }

  lemma SubsequenceGrows(a: seq<AgentEvent>, b: seq<AgentEvent>, e: AgentEvent)
    requires IsSubsequence(a, b)
    ensures IsSubsequence(a, b + [e]) && IsSubsequence(a + [e], b + [e])
  {
    assert (b + [e])[..|b|] == b && (a + [e])[..|a|] == a;
  }

  /** The pending list has one result of a tool at most: the first one, when that is its own. */
  lemma FirstPendingIsAlone(pending: seq<AgentEvent>, x: string)
    requires Distinct(IdsOf(pending)) && pending != []
    ensures pending[0].id == x ==> Where(pending[1..], ResultOf(x)) == []
    ensures Where(pending, ResultOf(x))
      == (if ResultOf(x)(pending[0]) then [pending[0]] else []) + Where(pending[1..], ResultOf(x))
  {
    if pending[0].id == x {
      forall e | e in pending[1..] ensures !ResultOf(x)(e) {
        var k :| 0 <= k < |pending[1..]| && pending[1..][k] == e;
        assert IdsOf(pending)[0] != IdsOf(pending)[k + 1];
      }
      WhereNone(pending[1..], ResultOf(x));
    }
    assert pending == [pending[0]] + pending[1..];
    WhereAppend([pending[0]], pending[1..], ResultOf(x));
    WhereOne(pending[0], ResultOf(x));
  }

  /** The first pending result makes room for e. */
  lemma EvictFirst(sent: seq<AgentEvent>, pending: seq<AgentEvent>, e: AgentEvent, x: string)
    requires pending != [] && Distinct(IdsOf(pending)) && pending[0].id != e.id
    ensures var hand, added := Where(sent + pending, ResultOf(x)), if ResultOf(x)(e) then [e] else [];
      if ResultOf(x)(pending[0]) then
        hand != [] && added == [] && Where(sent + pending[1..] + [e], ResultOf(x)) == hand[..|hand| - 1]
      else
        Where(sent + pending[1..] + [e], ResultOf(x)) == hand + added
  {
    var p, before := ResultOf(x), Where(sent, ResultOf(x));
    FirstPendingIsAlone(pending, x);
    WhereAppend(sent, pending, p);
    WhereThree(sent, pending[1..], [e], p);
    WhereOne(e, p);
    EvictSums(before, if p(pending[0]) then [pending[0]] else [], Where(pending[1..], p), if p(e) then [e] else []);
  }

  lemma EvictSums<T>(a: seq<T>, f: seq<T>, r: seq<T>, e: seq<T>)
    requires f == [] || (|f| == 1 && r == [] && e == [])
    ensures f == [] ==> a + r + e == a + (f + r) + e
    ensures f != [] ==> a + r + e == (a + (f + r))[..|a + (f + r)| - 1]
  {
  }

  lemma EvictionStep(st: StreamState, e: AgentEvent, x: string)
    requires WellFormed(st) && Defers(st, e) && e.id !in IdsOf(st.pending) && |st.pending| >= MAX_PENDING
    ensures var hand, added := ResultsInHand(st, x), if ResultOf(x)(e) then [e] else [];
      if ResultOf(x)(st.pending[0]) then
        hand != [] && added == [] && ResultsInHand(Emitted(st, e), x) == hand[..|hand| - 1]
      else
        ResultsInHand(Emitted(st, e), x) == hand + added
  {
    assert IdsOf(st.pending)[0] != e.id;
    EvictFirst(st.sent, st.pending, e, x);
    assert Emitted(st, e).sent + Emitted(st, e).pending == st.sent + st.pending[1..] + [e];
  }

  /** A step that drops a result of this tool leaves out that one, and another step none. */
  lemma ResultsOfAnyStep(st: StreamState, e: AgentEvent, x: string)
    requires WellFormed(st)
    ensures var hand, next, added := ResultsInHand(st, x), ResultsInHand(Emitted(st, e), x),
      if ResultOf(x)(e) then [e] else [];
      if Dropped(st, e) != [] && ResultOf(x)(Dropped(st, e)[0]) then
        (added == [e] && next == hand) || (added == [] && hand != [] && next == hand[..|hand| - 1])
      else next == hand + added
  {
    if Dropped(st, e) == [] {
      ResultsStep(st, e, x);
    } else if e.id !in IdsOf(st.pending) {
      EvictionStep(st, e, x);
    }
  }

  /** No result of this tool was dropped. */
  ghost predicate NoneDropped(accepted: seq<AgentEvent>, id: string) {
    forall e :: e in Lost(accepted) ==> !ResultOf(id)(e)
  }

  lemma OrderStep(hand: seq<AgentEvent>, next: seq<AgentEvent>, before: seq<AgentEvent>, added: seq<AgentEvent>)
    requires IsSubsequence(hand, before) && |added| <= 1
    requires next == hand + added || next == hand || (added == [] && hand != [] && next == hand[..|hand| - 1])
    ensures IsSubsequence(next, before + added)
  {
    if added == [] {
      assert before + added == before && hand + added == hand;
      if hand != [] {
        LeaveOutLast(hand, before);
      }
    } else {
      assert added == [added[0]];
      SubsequenceGrows(hand, before, added[0]);
    }
  }

  lemma WhereLast(accepted: seq<AgentEvent>, p: EventPredicate)
    requires accepted != []
    ensures Where(accepted, p) == Where(accepted[..|accepted| - 1], p) +
      if p(accepted[|accepted| - 1]) then [accepted[|accepted| - 1]] else []
  {}

  /** In every run the results of each tool that are sent, and then pending, are those accepted,
      in the same order, with the dropped ones left out. */
  lemma {:induction false} ResultsKeepTheirOrder(accepted: seq<AgentEvent>, id: string)
    ensures IsSubsequence(ResultsInHand(Run(accepted), id), Where(accepted, ResultOf(id)))
  {
    if accepted == [] {
      assert Run(accepted).sent + Run(accepted).pending == [];
    } else {
      var init, last := accepted[..|accepted| - 1], accepted[|accepted| - 1];
      var st := Run(init);
      ResultsKeepTheirOrder(init, id);
      RunWellFormed(init);
      ResultsOfAnyStep(st, last, id);
      WhereLast(accepted, ResultOf(id));
      OrderStep(ResultsInHand(st, id), ResultsInHand(Emitted(st, last), id), Where(init, ResultOf(id)),
                if ResultOf(id)(last) then [last] else []);
    }
  }

  /** When no result of a tool was dropped, none is left out. */
  lemma {:induction false} ResultsAllInHand(accepted: seq<AgentEvent>, id: string)
    requires NoneDropped(accepted, id)
    ensures ResultsInHand(Run(accepted), id) == Where(accepted, ResultOf(id))
  {
    if accepted == [] {
      assert Run(accepted).sent + Run(accepted).pending == [];
    } else {
      var init, last := accepted[..|accepted| - 1], accepted[|accepted| - 1];
      var st := Run(init);
      assert forall e :: e in Lost(init) ==> e in Lost(accepted);
      assert Dropped(st, last) != [] ==> Dropped(st, last)[0] in Lost(accepted);
      ResultsAllInHand(init, id);
      RunWellFormed(init);
      ResultsOfAnyStep(st, last, id);
      WhereLast(accepted, ResultOf(id));
    }
  }
}
