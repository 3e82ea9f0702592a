/** Validation of a task manifest and the payload list built from its order. */
module TaskImport {
  import opened Ordering
  import opened TaskGraph

  datatype TaskFile = TaskFile(id: string, number: nat, completed: bool, body: string)
  datatype Payload = Payload(id: string, number: nat, body: string, blocks: seq<string>)
  datatype ImportResult =
    | Imported(payloads: seq<Payload>)
    | NoNodes
    | InvalidNodes
    | InvalidEdges
    | Cyclic(remaining: seq<string>)
    | FileNotLoaded(id: string)

  function Files(nodes: seq<Node>): (r: seq<string>)
    ensures |r| == |nodes| && forall k :: 0 <= k < |nodes| ==> r[k] == nodes[k].file
  {
    seq(|nodes|, i requires 0 <= i < |nodes| => nodes[i].file)
  }

  predicate IsBaseName(file: string) {
    file != "." && file != ".." && '/' !in file && '\\' !in file
  }

  predicate NodeValid(node: Node, matched: set<string>, fileId: string -> string) {
    node.id != "" && node.file != "" && IsBaseName(node.file) && fileId(node.file) == node.id && node.file in matched
  }

  ghost predicate NodesValid(nodes: seq<Node>, matched: set<string>, fileId: string -> string) {
    && Distinct(Ids(nodes)) && Distinct(Files(nodes))
    && forall i :: 0 <= i < |nodes| ==> NodeValid(nodes[i], matched, fileId)
  }

  ghost predicate EdgesValid(nodes: seq<Node>, edges: seq<Edge>) {
    && Distinct(edges)
    && forall i :: 0 <= i < |edges| ==>
         && edges[i].from != "" && edges[i].to != "" && edges[i].from != edges[i].to
         && edges[i].from in Vertices(nodes) && edges[i].to in Vertices(nodes)
  }

  /** fileId(f) is the id a task file name stands for, empty when it is not one. */
  method ValidateNodes(nodes: seq<Node>, matched: set<string>, fileId: string -> string) returns (ok: bool)
    ensures ok <==> NodesValid(nodes, matched, fileId)
  {
    var seenIds: set<string>, seenFiles: set<string> := {}, {};
    for i := 0 to |nodes|
      invariant Distinct(Ids(nodes)[..i]) && Distinct(Files(nodes)[..i])
      invariant forall k :: 0 <= k < i ==> NodeValid(nodes[k], matched, fileId)
      invariant seenIds == Elems(Ids(nodes)[..i]) && seenFiles == Elems(Files(nodes)[..i])
    {
      var node := nodes[i];
      if !NodeValid(node, matched, fileId) {
        return false;
      }
      if node.id in seenIds {
        NotDistinct(Ids(nodes), i);
        return false;
      }
      if node.file in seenFiles {
        NotDistinct(Files(nodes), i);
        return false;
      }
      seenIds, seenFiles := seenIds + {node.id}, seenFiles + {node.file};
      ExtendDistinct(Ids(nodes), i);
      ExtendDistinct(Files(nodes), i);
    }
    assert Ids(nodes)[..|nodes|] == Ids(nodes) && Files(nodes)[..|nodes|] == Files(nodes);
    return true;
  }

  lemma NotDistinct(s: seq<string>, i: nat)
    requires i < |s| && s[i] in s[..i]
    ensures !Distinct(s)
  {
    var k :| 0 <= k < i && s[..i][k] == s[i];
    assert s[k] == s[i];
  }

  lemma ExtendDistinct(s: seq<string>, i: nat)
    requires i < |s| && Distinct(s[..i]) && s[i] !in s[..i]
    ensures Distinct(s[..i + 1]) && Elems(s[..i + 1]) == Elems(s[..i]) + {s[i]}
  {
    assert s[..i + 1] == s[..i] + [s[i]];
  }

  method ValidateEdges(nodes: seq<Node>, edges: seq<Edge>) returns (ok: bool)
    ensures ok <==> EdgesValid(nodes, edges)
  {
    var nodeSet: set<string> := {};
    for i := 0 to |nodes|
      invariant nodeSet == Elems(Ids(nodes)[..i])
    {
      assert Ids(nodes)[..i + 1] == Ids(nodes)[..i] + [nodes[i].id];
      nodeSet := nodeSet + {nodes[i].id};
    }
    assert Ids(nodes)[..|nodes|] == Ids(nodes);
    var seen: set<Edge> := {};
    for i := 0 to |edges|
      invariant EdgesValid(nodes, edges[..i])
      invariant forall e :: e in seen <==> e in edges[..i]
    {
      var edge := edges[i];
      assert edges[..i + 1] == edges[..i] + [edge];
      if edge.from == "" || edge.to == "" || edge.from == edge.to
         || edge.from !in nodeSet || edge.to !in nodeSet || edge in seen {
        if edge in seen {
          ghost var k :| 0 <= k < i && edges[k] == edge;
          assert edges[k] == edges[i];
        }
        return false;
      }
      seen := seen + {edge};
    }
    assert edges[..|edges|] == edges;
    return true;
  }

  // ----- blockers -----

  /** The sources of the edges into id, in listing order. */
  ghost function Sources(edges: seq<Edge>, id: string): seq<string> {
    if edges == [] then []
    else
      var last := edges[|edges| - 1];
      Sources(edges[..|edges| - 1], id) + (if last.to == id then [last.from] else [])
  }

  lemma {:induction false} SourcesAreSources(edges: seq<Edge>, id: string)
    ensures forall s :: s in Sources(edges, id) <==> Edge(s, id) in edges
  {
    if edges != [] {
      SourcesAreSources(edges[..|edges| - 1], id);
      assert edges == edges[..|edges| - 1] + [edges[|edges| - 1]];
    }
  }

  function BlocksOf(blocks: map<string, seq<string>>, id: string): seq<string> {
    if id in blocks then blocks[id] else []
  }

  method BlocksByTarget(edges: seq<Edge>) returns (blocks: map<string, seq<string>>)
    ensures forall id ::
      multiset(BlocksOf(blocks, id)) == multiset(Sources(edges, id)) && SortedBy(BlocksOf(blocks, id), StrLeq)
  {
    blocks := map[];
    for i := 0 to |edges|
      invariant forall id :: BlocksOf(blocks, id) == Sources(edges[..i], id)
    {
      var edge := edges[i];
      assert edges[..i + 1][..i] == edges[..i];
      blocks := blocks[edge.to := BlocksOf(blocks, edge.to) + [edge.from]];
    }
    assert edges[..|edges|] == edges;
    StrLeqIsTotalOrder();
    ghost var unsorted := blocks;
    blocks := map id | id in blocks :: Sort(blocks[id], StrLeq);
    forall id
      ensures multiset(BlocksOf(blocks, id)) == multiset(Sources(edges, id)) && SortedBy(BlocksOf(blocks, id), StrLeq)
    {
      assert BlocksOf(unsorted, id) == Sources(edges, id);
      if id in blocks {
        SortSorted(unsorted[id], StrLeq);
      }
    }
  }

  // ----- payloads -----

  ghost predicate FilesLoaded(files: map<string, TaskFile>) {
    forall id :: id in files ==> files[id].id == id
  }

  /** The uncompleted tasks of an order, in that order. */
  ghost function OpenTasks(order: seq<string>, files: map<string, TaskFile>): seq<string>
    requires forall id :: id in order ==> id in files
  {
    if order == [] then []
    else
      var last := order[|order| - 1];
      OpenTasks(order[..|order| - 1], files) + (if files[last].completed then [] else [last])
  }

  lemma {:induction false} OpenTasksMembers(order: seq<string>, files: map<string, TaskFile>)
    requires forall id :: id in order ==> id in files
    ensures forall id :: id in OpenTasks(order, files) <==> id in order && !files[id].completed
  {
    if order != [] {
      OpenTasksMembers(order[..|order| - 1], files);
      assert order == order[..|order| - 1] + [order[|order| - 1]];
    }
  }

  lemma {:induction false} OpenTaskPosition(order: seq<string>, files: map<string, TaskFile>, k: nat)
    returns (i: nat)
    requires forall id :: id in order ==> id in files
    requires k < |OpenTasks(order, files)|
    ensures i < |order| && order[i] == OpenTasks(order, files)[k]
    ensures OpenTasks(order[..i], files) == OpenTasks(order, files)[..k]
  {
    var init := order[..|order| - 1];
    if k < |OpenTasks(init, files)| {
      i := OpenTaskPosition(init, files, k);
      assert order[..i] == init[..i];
      assert OpenTasks(order, files)[..k] == OpenTasks(init, files)[..k];
    } else {
      i := |order| - 1;
      assert OpenTasks(order, files)[..k] == OpenTasks(init, files);
    }
  }

  ghost function PayloadIds(payloads: seq<Payload>): (r: seq<string>)
    ensures |r| == |payloads| && forall k :: 0 <= k < |payloads| ==> r[k] == payloads[k].id
  {
    seq(|payloads|, i requires 0 <= i < |payloads| => payloads[i].id)
  }

  ghost predicate PayloadMatches(p: Payload, edges: seq<Edge>, files: map<string, TaskFile>) {
    && p.id in files && p.number == files[p.id].number && p.body == files[p.id].body
    && multiset(p.blocks) == multiset(Sources(edges, p.id)) && SortedBy(p.blocks, StrLeq)
  }

  ghost predicate BlockersFirst(payloads: seq<Payload>, files: map<string, TaskFile>) {
    forall k, b :: 0 <= k < |payloads| && b in payloads[k].blocks ==>
      b in files && (files[b].completed || b in PayloadIds(payloads)[..k])
  }

  lemma OrderPutsBlockersFirst(order: seq<string>, edges: seq<Edge>, files: map<string, TaskFile>, E: set<Edge>,
                               payloads: seq<Payload>)
    requires forall id :: id in order ==> id in files
    requires forall i :: 0 <= i < |order| ==> PredsIn(E, order[i], order[..i])
    requires forall e :: e in edges ==> e in E
    requires PayloadIds(payloads) == OpenTasks(order, files)
    requires forall k :: 0 <= k < |payloads| ==> PayloadMatches(payloads[k], edges, files)
    ensures BlockersFirst(payloads, files)
  {
    forall k, b | 0 <= k < |payloads| && b in payloads[k].blocks
      ensures b in files && (files[b].completed || b in PayloadIds(payloads)[..k])
    {
      var p := payloads[k];
      PermutationFacts(p.blocks, Sources(edges, p.id));
      SourcesAreSources(edges, p.id);
      assert p.id == PayloadIds(payloads)[k];
      BlockerPlaced(order, files, E, k, b);
    }
  }

  lemma BlockerPlaced(order: seq<string>, files: map<string, TaskFile>, E: set<Edge>, k: nat, b: string)
    requires forall id :: id in order ==> id in files
    requires forall i :: 0 <= i < |order| ==> PredsIn(E, order[i], order[..i])
    requires k < |OpenTasks(order, files)| && Edge(b, OpenTasks(order, files)[k]) in E
    ensures b in files && (files[b].completed || b in OpenTasks(order, files)[..k])
  {
    var i := OpenTaskPosition(order, files, k);
    assert PredsIn(E, order[i], order[..i]);
    OpenTasksMembers(order[..i], files);
  }

  method OrderTasks(ids: seq<string>, files: map<string, TaskFile>)
    returns (missing: Option<string>, ordered: seq<TaskFile>)
    requires FilesLoaded(files)
    ensures missing.None? <==> forall id :: id in ids ==> id in files
    ensures missing.None? ==> |ordered| == |ids| && forall k :: 0 <= k < |ids| ==> ordered[k] == files[ids[k]]
    ensures missing.Some? ==> missing.value in ids && missing.value !in files
  {
    ordered := [];
    for i := 0 to |ids|
      invariant |ordered| == i
      invariant forall k :: 0 <= k < i ==> ids[k] in files && ordered[k] == files[ids[k]]
    {
      if ids[i] !in files {
        return Some(ids[i]), [];
      }
      ordered := ordered + [files[ids[i]]];
    }
    missing := None;
  }

  method BuildPayloads(ordered: seq<TaskFile>, edges: seq<Edge>, ghost order: seq<string>, ghost files: map<string,
                       TaskFile>)
    returns (payloads: seq<Payload>)
    requires FilesLoaded(files) && |ordered| == |order|
    requires forall k :: 0 <= k < |order| ==> order[k] in files && ordered[k] == files[order[k]]
    ensures PayloadIds(payloads) == OpenTasks(order, files)
    ensures forall k :: 0 <= k < |payloads| ==> PayloadMatches(payloads[k], edges, files)
  {
    payloads := [];
    var blocks := BlocksByTarget(edges);
    for i := 0 to |ordered|
      invariant PayloadIds(payloads) == OpenTasks(order[..i], files)
      invariant forall k :: 0 <= k < |payloads| ==> PayloadMatches(payloads[k], edges, files)
    {
      assert order[..i + 1][..i] == order[..i];
      var file := ordered[i];
      if file.completed {
        continue;
      }
      ghost var before := payloads;
      payloads := payloads + [Payload(file.id, file.number, file.body, BlocksOf(blocks, file.id))];
      assert PayloadIds(payloads) == PayloadIds(before) + [file.id];
    }
    assert order[..|ordered|] == order;
  }

  /** The import. When it succeeds the uncompleted tasks come out in the least
      topological order and every blocker of a task is completed or listed before it;
      a manifest that is otherwise valid is refused for a cycle exactly when it has one. */
  method ImportTasks(nodes: seq<Node>, edges: seq<Edge>, matched: set<string>, fileId: string -> string,
                     files: map<string, TaskFile>)
    returns (r: ImportResult, ghost order: seq<string>)
    requires FilesLoaded(files)
    ensures r.NoNodes? <==> nodes == []
    ensures r.InvalidNodes? <==> nodes != [] && !NodesValid(nodes, matched, fileId)
    ensures r.InvalidEdges? <==> nodes != [] && NodesValid(nodes, matched, fileId) && !EdgesValid(nodes, edges)
    ensures r.Cyclic? <==>
      nodes != [] && NodesValid(nodes, matched, fileId) && EdgesValid(nodes, edges) && HasCycle(Arcs(nodes, edges))
    ensures r.Imported? || r.FileNotLoaded? ==>
      LeastTopological(Vertices(nodes), Arcs(nodes, edges), NumbersOf(nodes), order)
    ensures r.FileNotLoaded? ==> exists id :: id in Vertices(nodes) && id !in files
    ensures r.Imported? ==>
      && (forall id :: id in order ==> id in files)
      && PayloadIds(r.payloads) == OpenTasks(order, files)
      && (forall k :: 0 <= k < |r.payloads| ==> PayloadMatches(r.payloads[k], edges, files))
      && BlockersFirst(r.payloads, files)
  {
    order := [];
    if |nodes| == 0 {
      return NoNodes, [];
    }
    var nodesOk := ValidateNodes(nodes, matched, fileId);
    if !nodesOk {
      return InvalidNodes, [];
    }
    var edgesOk := ValidateEdges(nodes, edges);
    if !edgesOk {
      return InvalidEdges, [];
    }
    var topo := TopologicalIds(nodes, edges);
    match topo {
      case CycleFound(remaining) =>
        r := Cyclic(remaining);
      case Ordered(ids) =>
        order := ids;
        var missing, ordered := OrderTasks(ids, files);
        if missing.Some? {
          assert missing.value in Elems(ids);
          return FileNotLoaded(missing.value), order;
        }
        var payloads := BuildPayloads(ordered, edges, ids, files);
        assert forall e :: e in edges ==> e in Arcs(nodes, edges);
        OrderPutsBlockersFirst(ids, edges, files, Arcs(nodes, edges), payloads);
        r := Imported(payloads);
    }
  }
}
