/** Ordering of an imported task manifest: Kahn's algorithm with a ready list
    re-sorted by (task number, id) after every step. */
module TaskGraph {
  import opened Ordering

  datatype Node = Node(id: string, file: string, number: nat)
  datatype Edge = Edge(from: string, to: string)
  datatype OrderResult = Ordered(ids: seq<string>) | CycleFound(remaining: seq<string>)

  // ----- the key order (task number, id) -----

  function NumberOf(numbers: map<string, nat>, id: string): nat {
    if id in numbers then numbers[id] else 0
  }

  predicate IdLeq(numbers: map<string, nat>, a: string, b: string) {
    NumberOf(numbers, a) < NumberOf(numbers, b) || (NumberOf(numbers, a) == NumberOf(numbers, b) && StrLeq(a, b))
  }

  function IdOrder(numbers: map<string, nat>): (string, string) -> bool {
    (a, b) => IdLeq(numbers, a, b)
  }

  lemma IdOrderTotal(numbers: map<string, nat>)
    ensures TotalOrder(IdOrder(numbers))
  {
    StrLeqIsTotalOrder();
  }

  function SortIds(ids: seq<string>, numbers: map<string, nat>): (r: seq<string>)
    ensures multiset(r) == multiset(ids)
  {
    Sort(ids, IdOrder(numbers))
  }

  // ----- the graph a manifest denotes -----

  function Ids(nodes: seq<Node>): (r: seq<string>)
    ensures |r| == |nodes| && forall k :: 0 <= k < |nodes| ==> r[k] == nodes[k].id
  {
    seq(|nodes|, i requires 0 <= i < |nodes| => nodes[i].id)
  }

  ghost function Vertices(nodes: seq<Node>): set<string> {
    Elems(Ids(nodes))
  }

  /** The edges whose two ends are nodes; the others are skipped. */
  ghost function Arcs(nodes: seq<Node>, edges: seq<Edge>): set<Edge> {
    set e | e in edges && e.from in Vertices(nodes) && e.to in Vertices(nodes)
  }

  /** The task number of each id. */
  function NumbersOf(nodes: seq<Node>): map<string, nat> {
    if nodes == [] then map[]
    else
      var last := nodes[|nodes| - 1];
      NumbersOf(nodes[..|nodes| - 1])[last.id := last.number]
  }

  /** With distinct ids it has the number of every node, and no other id. */
  lemma {:induction false} NumbersOfNodes(nodes: seq<Node>)
    requires Distinct(Ids(nodes))
    ensures NumbersOf(nodes).Keys == Vertices(nodes)
    ensures forall n :: n in nodes ==> n.id in NumbersOf(nodes) && NumbersOf(nodes)[n.id] == n.number
  {
    if nodes != [] {
      var init, last := nodes[..|nodes| - 1], nodes[|nodes| - 1];
      assert Ids(nodes) == Ids(init) + [last.id];
      assert forall k :: 0 <= k < |init| ==> Ids(nodes)[k] != Ids(nodes)[|init|];
      forall i, j | 0 <= i < j < |init| ensures Ids(init)[i] != Ids(init)[j] {
        assert Ids(nodes)[i] != Ids(nodes)[j];
      }
      NumbersOfNodes(init);
      forall n | n in init ensures n.id != last.id {
        var k :| 0 <= k < |init| && init[k] == n;
        assert Ids(nodes)[k] != last.id;
      }
    }
  }

  // ----- what an order must be -----

  ghost predicate PredsIn(E: set<Edge>, v: string, done: seq<string>) {
    forall e :: e in E && e.to == v ==> e.from in done
  }

  /** o lists every vertex once, each after all its predecessors. */
  ghost predicate Topological(V: set<string>, E: set<Edge>, o: seq<string>) {
    && Distinct(o) && Elems(o) == V
    && forall i :: 0 <= i < |o| ==> PredsIn(E, o[i], o[..i])
  }

  ghost predicate LexLeq(numbers: map<string, nat>, a: seq<string>, b: seq<string>) {
    a == [] || (b != [] && (if a[0] == b[0] then LexLeq(numbers, a[1..], b[1..]) else IdLeq(numbers, a[0], b[0])))
  }

  ghost predicate LeastTopological(V: set<string>, E: set<Edge>, numbers: map<string, nat>, o: seq<string>) {
    && Topological(V, E, o)
    && forall other :: Topological(V, E, other) ==> LexLeq(numbers, o, other)
  }

  /** At every position the least vertex whose predecessors are all placed is taken. */
  ghost predicate Greedy(V: set<string>, E: set<Edge>, numbers: map<string, nat>, o: seq<string>) {
    forall i, w :: 0 <= i < |o| && w in V && w !in o[..i] && PredsIn(E, w, o[..i]) ==> IdLeq(numbers, o[i], w)
  }

  lemma {:induction false} GreedyBeatsFrom(V: set<string>, E: set<Edge>, numbers: map<string, nat>,
                                           o: seq<string>, other: seq<string>, k: nat)
    requires Topological(V, E, o) && Greedy(V, E, numbers, o) && Topological(V, E, other)
    requires k <= |o| == |other| && o[..k] == other[..k]
    ensures LexLeq(numbers, o[k..], other[k..])
    decreases |o| - k
  {
    if k < |o| {
      if o[k] == other[k] {
        assert o[..k + 1] == o[..k] + [o[k]] && other[..k + 1] == other[..k] + [other[k]];
        GreedyBeatsFrom(V, E, numbers, o, other, k + 1);
        assert o[k..][1..] == o[k + 1..] && other[k..][1..] == other[k + 1..];
      } else {
        assert other[k] in Elems(other);
        assert PredsIn(E, other[k], other[..k]);
        assert other[k] !in other[..k];
      }
    }
  }

  lemma GreedyIsLeast(V: set<string>, E: set<Edge>, numbers: map<string, nat>, o: seq<string>)
    requires Topological(V, E, o) && Greedy(V, E, numbers, o)
    ensures LeastTopological(V, E, numbers, o)
  {
    forall other | Topological(V, E, other) ensures LexLeq(numbers, o, other) {
      DistinctCard(o);
      DistinctCard(other);
      GreedyBeatsFrom(V, E, numbers, o, other, 0);
      assert o[0..] == o && other[0..] == other;
    }
  }

  lemma {:induction false} LexLeqAntisymmetric(numbers: map<string, nat>, a: seq<string>, b: seq<string>)
    requires LexLeq(numbers, a, b) && LexLeq(numbers, b, a)
    ensures a == b
  {
    if a != [] {
      IdOrderTotal(numbers);
      assert IdOrder(numbers)(a[0], b[0]) == IdLeq(numbers, a[0], b[0]);
      assert IdOrder(numbers)(b[0], a[0]) == IdLeq(numbers, b[0], a[0]);
      LexLeqAntisymmetric(numbers, a[1..], b[1..]);
      assert a == [a[0]] + a[1..] && b == [b[0]] + b[1..];
    }
  }

  /** The order depends only on the set of nodes and the set of edges, not on how
      the manifest lists them. */
  lemma OrderIndependentOfListing(nodes: seq<Node>, edges: seq<Edge>, nodes': seq<Node>, edges': seq<Edge>,
                                  o: seq<string>, o': seq<string>)
    requires Distinct(Ids(nodes)) && Distinct(Ids(nodes')) && forall n :: n in nodes <==> n in nodes'
    requires forall e :: e in edges <==> e in edges'
    requires LeastTopological(Vertices(nodes), Arcs(nodes, edges), NumbersOf(nodes), o)
    requires LeastTopological(Vertices(nodes'), Arcs(nodes', edges'), NumbersOf(nodes'), o')
    ensures o == o'
  {
    SameNumbers(nodes, nodes');
    VerticesSubset(nodes, nodes');
    VerticesSubset(nodes', nodes);
    assert Arcs(nodes, edges) == Arcs(nodes', edges');
    LexLeqAntisymmetric(NumbersOf(nodes), o, o');
  }

  lemma SameNumbers(nodes: seq<Node>, nodes': seq<Node>)
    requires Distinct(Ids(nodes)) && Distinct(Ids(nodes')) && forall n :: n in nodes <==> n in nodes'
    ensures NumbersOf(nodes) == NumbersOf(nodes')
  {
    NumbersOfNodes(nodes);
    NumbersOfNodes(nodes');
    VerticesSubset(nodes, nodes');
    VerticesSubset(nodes', nodes);
    SameMap(NumbersOf(nodes), NumbersOf(nodes'), nodes);
  }

  lemma SameMap(a: map<string, nat>, b: map<string, nat>, nodes: seq<Node>)
    requires a.Keys == b.Keys == Vertices(nodes)
    requires forall n :: n in nodes ==> n.id in a && n.id in b && a[n.id] == n.number == b[n.id]
    ensures a == b
  {
    forall v | v in a ensures a[v] == b[v] {
      var k :| 0 <= k < |nodes| && Ids(nodes)[k] == v;
      assert nodes[k] in nodes;
    }
  }

  lemma VerticesSubset(nodes: seq<Node>, nodes': seq<Node>)
    requires forall n :: n in nodes ==> n in nodes'
    ensures Vertices(nodes) <= Vertices(nodes')
  {
    forall v | v in Vertices(nodes) ensures v in Vertices(nodes') {
      var k :| 0 <= k < |nodes| && Ids(nodes)[k] == v;
      assert nodes[k] in nodes';
      var j :| 0 <= j < |nodes'| && nodes'[j] == nodes[k];
      assert Ids(nodes')[j] == v;
    }
  }

  // ----- cycles -----

  ghost predicate StepAt(E: set<Edge>, p: seq<string>, i: nat)
    requires i + 1 < |p|
  {
    Edge(p[i], p[i + 1]) in E
  }

  ghost predicate IsPath(E: set<Edge>, p: seq<string>) {
    |p| > 0 && forall i :: 0 <= i < |p| - 1 ==> StepAt(E, p, i)
  }

  ghost predicate IsCycle(E: set<Edge>, p: seq<string>) {
    IsPath(E, p) && |p| >= 2 && p[0] == p[|p| - 1]
  }

  ghost predicate HasCycle(E: set<Edge>) {
    exists p :: IsCycle(E, p)
  }

  /** v can be reached from a vertex that lies on a cycle. */
  ghost predicate BelowCycle(E: set<Edge>, v: string) {
    exists c, p :: IsCycle(E, c) && IsPath(E, p) && p[0] == c[0] && p[|p| - 1] == v
  }

  /** The vertices placed so far are closed under predecessors and in order. */
  ghost predicate OrderedPrefix(E: set<Edge>, o: seq<string>) {
    Distinct(o) && forall i :: 0 <= i < |o| ==> PredsIn(E, o[i], o[..i])
  }

  lemma {:induction false} PathStaysBefore(E: set<Edge>, o: seq<string>, p: seq<string>, k: nat)
    requires OrderedPrefix(E, o) && IsPath(E, p)
    requires k < |o| && p[|p| - 1] == o[k]
    ensures exists j :: 0 <= j <= k && o[j] == p[0] && (|p| >= 2 ==> j < k)
    decreases |p|
  {
    if |p| >= 2 {
      var e := Edge(p[|p| - 2], p[|p| - 1]);
      assert StepAt(E, p, |p| - 2) && e in E;
      var q := SubPath(E, p, 0, |p| - 1);
      assert PredsIn(E, o[k], o[..k]);
      assert e.from in o[..k];
      var m :| 0 <= m < k && o[m] == e.from;
      PathStaysBefore(E, o, q, m);
    }
  }

  lemma PlacedIsNotBelowCycle(E: set<Edge>, o: seq<string>, v: string)
    requires OrderedPrefix(E, o) && v in o
    ensures !BelowCycle(E, v)
  {
    if BelowCycle(E, v) {
      var c, p :| IsCycle(E, c) && IsPath(E, p) && p[0] == c[0] && p[|p| - 1] == v;
      var k :| 0 <= k < |o| && o[k] == v;
      PathStaysBefore(E, o, p, k);
      var j :| 0 <= j <= k && o[j] == c[0];
      PathStaysBefore(E, o, c, j);
    }
  }

  ghost predicate HasPredIn(E: set<Edge>, U: set<string>, u: string) {
    exists e :: e in E && e.to == u && e.from in U
  }

  ghost predicate EachHasPredIn(E: set<Edge>, U: set<string>) {
    forall u {:trigger HasPredIn(E, U, u)} :: u in U ==> HasPredIn(E, U, u)
  }

  lemma {:induction false} WalkBack(E: set<Edge>, U: set<string>, v: string, n: nat) returns (p: seq<string>)
    requires EachHasPredIn(E, U) && v in U
    ensures |p| == n + 1 && IsPath(E, p) && p[n] == v
    ensures forall i :: 0 <= i <= n ==> p[i] in U
    decreases n
  {
    if n == 0 {
      p := [v];
    } else {
      assert HasPredIn(E, U, v);
      var e :| e in E && e.to == v && e.from in U;
      var q := WalkBack(E, U, e.from, n - 1);
      p := q + [v];
      forall i | 0 <= i < |p| - 1 ensures StepAt(E, p, i) {
        if i < n - 1 {
          assert StepAt(E, q, i);
        }
      }
    }
  }

  lemma Repetition(p: seq<string>, U: set<string>) returns (i: nat, j: nat)
    requires |p| > |U| && forall k :: 0 <= k < |p| ==> p[k] in U
    ensures i < j < |p| && p[i] == p[j]
  {
    if Distinct(p) {
      DistinctCard(p);
      SubsetCard(Elems(p), U);
      assert false;
    }
    i, j :| 0 <= i < j < |p| && p[i] == p[j];
  }

  lemma SubPath(E: set<Edge>, p: seq<string>, i: nat, j: nat) returns (q: seq<string>)
    requires IsPath(E, p) && i < j <= |p|
    ensures IsPath(E, q) && |q| == j - i && q[0] == p[i] && q[|q| - 1] == p[j - 1]
  {
    q := p[i..j];
    forall k | 0 <= k < j - i - 1 ensures StepAt(E, q, k) {
      assert StepAt(E, p, i + k);
    }
  }

  lemma BelowCycleBy(E: set<Edge>, c: seq<string>, p: seq<string>, v: string)
    requires IsCycle(E, c) && IsPath(E, p) && p[0] == c[0] && p[|p| - 1] == v
    ensures BelowCycle(E, v)
  {
  }

  lemma RepetitionGivesCycle(E: set<Edge>, p: seq<string>, i: nat, j: nat, v: string)
    requires IsPath(E, p) && i < j < |p| && p[i] == p[j] && p[|p| - 1] == v
    ensures BelowCycle(E, v)
  {
    var c := SubPath(E, p, i, j + 1);
    var q := SubPath(E, p, i, |p|);
    BelowCycleBy(E, c, q, v);
  }

  lemma UnplacedIsBelowCycle(E: set<Edge>, U: set<string>, v: string)
    requires EachHasPredIn(E, U) && v in U
    ensures BelowCycle(E, v)
  {
    var p := WalkBack(E, U, v, |U|);
    var i, j := Repetition(p, U);
    RepetitionGivesCycle(E, p, i, j, v);
  }

  lemma CycleHasBelow(E: set<Edge>)
    ensures HasCycle(E) ==> exists v :: BelowCycle(E, v) && exists e :: e in E && e.to == v
    ensures (exists v :: BelowCycle(E, v)) ==> HasCycle(E)
  {
    if HasCycle(E) {
      var c :| IsCycle(E, c);
      assert StepAt(E, c, |c| - 2);
      assert BelowCycle(E, c[|c| - 1]);
    }
  }

  // ----- counting unplaced predecessors -----

  /** Number of listed edges into v whose source is not done. */
  ghost function Pending(arcs: seq<Edge>, v: string, done: set<string>): nat {
    if arcs == [] then 0
    else
      var last := arcs[|arcs| - 1];
      Pending(arcs[..|arcs| - 1], v, done) + (if last.to == v && last.from !in done then 1 else 0)
  }

  ghost function Targets(arcs: seq<Edge>, u: string): seq<string> {
    if arcs == [] then []
    else
      var last := arcs[|arcs| - 1];
      Targets(arcs[..|arcs| - 1], u) + (if last.from == u then [last.to] else [])
  }

  lemma {:induction false} PendingAfter(arcs: seq<Edge>, v: string, done: set<string>, u: string)
    requires u !in done
    ensures Pending(arcs, v, done + {u}) + multiset(Targets(arcs, u))[v] == Pending(arcs, v, done)
  {
    if arcs != [] {
      PendingAfter(arcs[..|arcs| - 1], v, done, u);
    }
  }

  lemma {:induction false} PendingZero(arcs: seq<Edge>, v: string, done: set<string>)
    ensures Pending(arcs, v, done) == 0 <==> forall e :: e in arcs && e.to == v ==> e.from in done
  {
    if arcs != [] {
      var init, last := arcs[..|arcs| - 1], arcs[|arcs| - 1];
      PendingZero(init, v, done);
      assert arcs == init + [last];
    }
  }

  lemma {:induction false} TargetsAreTargets(arcs: seq<Edge>, u: string)
    ensures forall t :: t in Targets(arcs, u) ==> Edge(u, t) in arcs
  {
    if arcs != [] {
      TargetsAreTargets(arcs[..|arcs| - 1], u);
      assert arcs == arcs[..|arcs| - 1] + [arcs[|arcs| - 1]];
    }
  }

  function SuccessorsOf(successors: map<string, seq<string>>, id: string): seq<string> {
    if id in successors then successors[id] else []
  }

  /** The maps filled from the node list. */
  method IndexNodes(nodes: seq<Node>) returns (predecessors: map<string, int>, numbers: map<string, nat>)
    requires Distinct(Ids(nodes))
    ensures predecessors.Keys == Vertices(nodes) && numbers == NumbersOf(nodes)
    ensures forall v :: v in predecessors ==> predecessors[v] == 0
  {
    predecessors, numbers := map[], map[];
    for i := 0 to |nodes|
      invariant predecessors.Keys == Elems(Ids(nodes)[..i]) && numbers == NumbersOf(nodes[..i])
      invariant forall v :: v in predecessors ==> predecessors[v] == 0
    {
      assert Ids(nodes)[..i + 1] == Ids(nodes)[..i] + [nodes[i].id];
      assert nodes[..i + 1][..i] == nodes[..i];
      predecessors := predecessors[nodes[i].id := 0];
      numbers := numbers[nodes[i].id := nodes[i].number];
    }
    assert Ids(nodes)[..|nodes|] == Ids(nodes) && nodes[..|nodes|] == nodes;
  }

  /** The edges between known nodes. */
  ghost function Inner(edges: seq<Edge>, nodes: set<string>): set<Edge> {
    set e | e in edges && e.from in nodes && e.to in nodes
  }

  ghost predicate SuccessorsIndexed(successors: map<string, seq<string>>, arcs: seq<Edge>) {
    forall u :: SuccessorsOf(successors, u) == Targets(arcs, u)
  }

  lemma PendingOne(arcs: seq<Edge>, edge: Edge, v: string)
    ensures Pending(arcs + [edge], v, {}) == Pending(arcs, v, {}) + if edge.to == v then 1 else 0
  {
    assert (arcs + [edge])[..|arcs|] == arcs;
  }

  lemma TargetsOne(arcs: seq<Edge>, edge: Edge, u: string)
    ensures Targets(arcs + [edge], u) == Targets(arcs, u) + if edge.from == u then [edge.to] else []
  {
    assert (arcs + [edge])[..|arcs|] == arcs;
  }

  /** One more edge between known nodes. */
  lemma IndexOne(arcs: seq<Edge>, edge: Edge, predecessors: map<string, int>, successors: map<string, seq<string>>)
    requires CountsInvariant(arcs, [], predecessors) && SuccessorsIndexed(successors, arcs) && edge.to in predecessors
    ensures CountsInvariant(arcs + [edge], [], predecessors[edge.to := predecessors[edge.to] + 1])
    ensures SuccessorsIndexed(successors[edge.from := SuccessorsOf(successors, edge.from) + [edge.to]], arcs + [edge])
    ensures Elems(arcs + [edge]) == Elems(arcs) + {edge}
  {
    assert Elems<string>([]) == {};
    var more := arcs + [edge];
    forall v | v in predecessors
      ensures predecessors[edge.to := predecessors[edge.to] + 1][v] == Pending(more, v, {})
    {
      PendingOne(arcs, edge, v);
    }
    forall u
      ensures SuccessorsOf(successors[edge.from := SuccessorsOf(successors, edge.from) + [edge.to]], u)
        == Targets(more, u)
    {
      TargetsOne(arcs, edge, u);
    }
  }

  lemma InnerOne(edges: seq<Edge>, i: nat, nodes: set<string>)
    requires i < |edges|
    ensures Inner(edges[..i + 1], nodes) == Inner(edges[..i], nodes) +
      if edges[i].from in nodes && edges[i].to in nodes then {edges[i]} else {}
  {
    assert edges[..i + 1] == edges[..i] + [edges[i]];
  }

  /** The predecessor counts and successor lists filled from the edge list. */
  method IndexEdges(edges: seq<Edge>, predecessors0: map<string, int>)
    returns (predecessors: map<string, int>, successors: map<string, seq<string>>, ghost arcs: seq<Edge>)
    requires forall v :: v in predecessors0 ==> predecessors0[v] == 0
    ensures predecessors.Keys == predecessors0.Keys
    ensures Elems(arcs) == Inner(edges, predecessors0.Keys)
    ensures CountsInvariant(arcs, [], predecessors) && SuccessorsIndexed(successors, arcs)
  {
    predecessors, successors, arcs := predecessors0, map[], [];
    for i := 0 to |edges|
      invariant predecessors.Keys == predecessors0.Keys
      invariant Elems(arcs) == Inner(edges[..i], predecessors0.Keys)
      invariant CountsInvariant(arcs, [], predecessors) && SuccessorsIndexed(successors, arcs)
    {
      var edge := edges[i];
      InnerOne(edges, i, predecessors0.Keys);
      if edge.from !in predecessors || edge.to !in predecessors {
        continue;
      }
      IndexOne(arcs, edge, predecessors, successors);
      arcs := arcs + [edge];
      successors := successors[edge.from := SuccessorsOf(successors, edge.from) + [edge.to]];
      predecessors := predecessors[edge.to := predecessors[edge.to] + 1];
    }
    assert edges[..|edges|] == edges;
  }

  lemma TakeMore<T>(s: seq<T>, k: nat)
    requires k < |s|
    ensures multiset(s[..k + 1]) == multiset(s[..k]) + multiset{s[k]}
    ensures forall x :: multiset(s[..k + 1])[x] <= multiset(s)[x]
  {
    assert s[..k + 1] == s[..k] + [s[k]];
    assert s == s[..k + 1] + s[k + 1..];
  }

  /** The decrement loop of one placed id. */
  method RelaxSuccessors(targets: seq<string>, predecessors0: map<string, int>, ready0: seq<string>)
    returns (predecessors: map<string, int>, ready: seq<string>)
    requires forall t :: t in targets ==> t in predecessors0
    requires forall v :: v in predecessors0 ==> multiset(targets)[v] <= predecessors0[v]
    requires forall r :: r in ready0 ==> r in predecessors0 && predecessors0[r] == 0
    requires Distinct(ready0)
    ensures predecessors.Keys == predecessors0.Keys
    ensures forall v :: v in predecessors ==> predecessors[v] == predecessors0[v] - multiset(targets)[v]
    ensures Distinct(ready)
    ensures forall v :: v in ready <==>
      v in ready0 || (v in predecessors0 && predecessors0[v] > 0 && predecessors[v] == 0)
  {
    predecessors, ready := predecessors0, ready0;
    for k := 0 to |targets|
      invariant predecessors.Keys == predecessors0.Keys
      invariant forall v :: v in predecessors ==> predecessors[v] == predecessors0[v] - multiset(targets[..k])[v]
      invariant Distinct(ready)
      invariant forall v :: v in ready <==>
        v in ready0 || (v in predecessors0 && predecessors0[v] > 0 && predecessors[v] == 0)
    {
      var successor := targets[k];
      TakeMore(targets, k);
      predecessors := predecessors[successor := predecessors[successor] - 1];
      if predecessors[successor] == 0 {
        ready := ready + [successor];
      }
    }
    assert targets[..|targets|] == targets;
  }

  ghost predicate ReadyInvariant(V: set<string>, ordered: seq<string>, predecessors: map<string, int>,
                                 ready: seq<string>) {
    && predecessors.Keys == V
    && Distinct(ready)
    && forall v :: v in ready <==> v in V && v !in ordered && predecessors[v] == 0
  }

  ghost predicate CountsInvariant(arcs: seq<Edge>, ordered: seq<string>, predecessors: map<string, int>) {
    forall v :: v in predecessors ==> predecessors[v] == Pending(arcs, v, Elems(ordered))
  }

  lemma PendingZeroPreds(arcs: seq<Edge>, v: string, ordered: seq<string>)
    ensures Pending(arcs, v, Elems(ordered)) == 0 <==> PredsIn(Elems(arcs), v, ordered)
  {
    PendingZero(arcs, v, Elems(ordered));
  }

  /** Placing the least ready id keeps the order greedy and predecessor-closed. */
  lemma PlaceLeastReady(V: set<string>, arcs: seq<Edge>, numbers: map<string, nat>, ordered: seq<string>,
                        predecessors: map<string, int>, ready: seq<string>)
    requires ready != [] && SortedBy(ready, IdOrder(numbers))
    requires ReadyInvariant(V, ordered, predecessors, ready) && CountsInvariant(arcs, ordered, predecessors)
    requires OrderedPrefix(Elems(arcs), ordered) && Greedy(V, Elems(arcs), numbers, ordered)
    ensures OrderedPrefix(Elems(arcs), ordered + [ready[0]])
    ensures Greedy(V, Elems(arcs), numbers, ordered + [ready[0]])
  {
    var E, o := Elems(arcs), ordered + [ready[0]];
    var n := |ordered|;
    assert ready[0] in ready;
    PendingZeroPreds(arcs, ready[0], ordered);
    forall i | 0 <= i < |o| ensures PredsIn(E, o[i], o[..i]) {
      assert o[..i] == ordered[..i];
      if i == n {
        assert ordered[..n] == ordered;
      }
    }
    IdOrderTotal(numbers);
    forall i, w | 0 <= i < |o| && w in V && w !in o[..i] && PredsIn(E, w, o[..i]) ensures IdLeq(numbers, o[i], w) {
      assert o[..i] == ordered[..i];
      if i == n {
        assert ordered[..n] == ordered;
        PendingZeroPreds(arcs, w, ordered);
        HeadLeast(ready, w, IdOrder(numbers));
        assert IdOrder(numbers)(o[i], w);
      }
    }
  }

  lemma RelaxPreservesCounts(V: set<string>, arcs: seq<Edge>, ordered: seq<string>, id: string,
                             predecessors: map<string, int>, targets: seq<string>, predecessors': map<string, int>)
    requires id !in ordered && CountsInvariant(arcs, ordered, predecessors)
    requires multiset(targets) == multiset(Targets(arcs, id))
    requires predecessors'.Keys == predecessors.Keys == V
    requires forall v :: v in predecessors' ==> predecessors'[v] == predecessors[v] - multiset(targets)[v]
    ensures CountsInvariant(arcs, ordered + [id], predecessors')
  {
    assert id !in Elems(ordered);
    assert Elems(ordered + [id]) == Elems(ordered) + {id};
    forall v | v in V ensures predecessors'[v] == Pending(arcs, v, Elems(ordered + [id])) {
      PendingAfter(arcs, v, Elems(ordered), id);
    }
  }

  lemma PlacedHaveNoPending(arcs: seq<Edge>, ordered: seq<string>, v: string)
    requires OrderedPrefix(Elems(arcs), ordered) && v in ordered
    ensures Pending(arcs, v, Elems(ordered)) == 0
  {
    var k :| 0 <= k < |ordered| && ordered[k] == v;
    assert PredsIn(Elems(arcs), ordered[k], ordered[..k]);
    PendingZeroPreds(arcs, v, ordered);
  }

  lemma RelaxPreservesReady(V: set<string>, arcs: seq<Edge>, ordered: seq<string>, id: string,
                            predecessors: map<string, int>, ready: seq<string>,
                            predecessors': map<string, int>, ready': seq<string>)
    requires ReadyInvariant(V, ordered, predecessors, [id] + ready)
    requires CountsInvariant(arcs, ordered, predecessors) && CountsInvariant(arcs, ordered + [id], predecessors')
    requires OrderedPrefix(Elems(arcs), ordered + [id])
    requires predecessors'.Keys == V && forall v :: v in V ==> predecessors'[v] <= predecessors[v]
    requires Distinct(ready')
    requires forall v :: v in ready' <==>
      v in ready || (v in predecessors && predecessors[v] > 0 && predecessors'[v] == 0)
    ensures ReadyInvariant(V, ordered + [id], predecessors', ready')
  {
    var front := [id] + ready;
    assert front[0] == id && forall k :: 0 <= k < |ready| ==> front[k + 1] == ready[k];
    forall v ensures v in ready' <==> v in V && v !in ordered + [id] && predecessors'[v] == 0 {
      assert v in front <==> v == id || v in ready;
      if v in ordered + [id] {
        PlacedHaveNoPending(arcs, ordered + [id], v);
        if v in ordered && v in V {
          PlacedPrefix(Elems(arcs), ordered, id);
          PlacedHaveNoPending(arcs, ordered, v);
        }
      }
    }
  }

  lemma PlacedPrefix(E: set<Edge>, ordered: seq<string>, id: string)
    requires OrderedPrefix(E, ordered + [id])
    ensures OrderedPrefix(E, ordered)
  {
    var o := ordered + [id];
    forall i | 0 <= i < |ordered| ensures PredsIn(E, ordered[i], ordered[..i]) {
      assert o[..i] == ordered[..i] && PredsIn(E, o[i], o[..i]);
    }
    forall i, j | 0 <= i < j < |ordered| ensures ordered[i] != ordered[j] {
      assert o[i] != o[j];
    }
  }

  lemma UnplacedFacts(V: set<string>, E: set<Edge>, arcs: seq<Edge>, ordered: seq<string>, predecessors: map<string,
                      int>)
    requires ReadyInvariant(V, ordered, predecessors, []) && CountsInvariant(arcs, ordered, predecessors)
    requires OrderedPrefix(E, ordered) && E == Elems(arcs) && Elems(ordered) <= V
    requires forall e :: e in E ==> e.from in V && e.to in V
    ensures forall v :: v in V ==> (predecessors[v] > 0 <==> v !in ordered)
    ensures forall v :: v in V ==> (v !in ordered <==> BelowCycle(E, v))
    ensures HasCycle(E) <==> Elems(ordered) != V
  {
    var U := set v | v in V && v !in ordered;
    forall v | v in V ensures predecessors[v] > 0 <==> v !in ordered {
      if v in ordered {
        var k :| 0 <= k < |ordered| && ordered[k] == v;
        assert PredsIn(E, ordered[k], ordered[..k]);
        PendingZeroPreds(arcs, v, ordered);
      }
    }
    forall u | u in U ensures HasPredIn(E, U, u) {
      PendingZeroPreds(arcs, u, ordered);
      assert !PredsIn(E, u, ordered);
      var e :| e in E && e.to == u && e.from !in ordered;
      assert e.from in U;
    }
    forall v | v in V ensures v !in ordered <==> BelowCycle(E, v) {
      if v in ordered {
        PlacedIsNotBelowCycle(E, ordered, v);
      } else {
        UnplacedIsBelowCycle(E, U, v);
      }
    }
    CycleHasBelow(E);
    if Elems(ordered) != V {
      var v :| v in V && v !in ordered;
      assert BelowCycle(E, v);
    }
  }

  ghost predicate LoopInvariant(V: set<string>, arcs: seq<Edge>, numbers: map<string, nat>, ordered: seq<string>,
                                predecessors: map<string, int>, ready: seq<string>) {
    && Elems(ordered) <= V
    && OrderedPrefix(Elems(arcs), ordered) && Greedy(V, Elems(arcs), numbers, ordered)
    && ReadyInvariant(V, ordered, predecessors, ready) && SortedBy(ready, IdOrder(numbers))
    && CountsInvariant(arcs, ordered, predecessors)
  }

  /** The ready list, sorted again. */
  method SortReady(ready0: seq<string>, numbers: map<string, nat>, ghost V: set<string>, ghost ordered: seq<string>,
                   ghost predecessors: map<string, int>)
    returns (ready: seq<string>)
    requires ReadyInvariant(V, ordered, predecessors, ready0)
    ensures ReadyInvariant(V, ordered, predecessors, ready) && SortedBy(ready, IdOrder(numbers))
  {
    ready := SortIds(ready0, numbers);
    IdOrderTotal(numbers);
    SortSorted(ready0, IdOrder(numbers));
    PermutationFacts(ready0, ready);
  }

  /** The ids without predecessors, sorted. */
  method InitialReady(ids: seq<string>, predecessors: map<string, int>, numbers: map<string, nat>)
    returns (ready: seq<string>)
    requires Distinct(ids) && Elems(ids) == predecessors.Keys
    ensures ReadyInvariant(predecessors.Keys, [], predecessors, ready) && SortedBy(ready, IdOrder(numbers))
  {
    ready := [];
    for i := 0 to |ids|
      invariant Distinct(ready)
      invariant forall v :: v in ready <==> v in ids[..i] && predecessors[v] == 0
    {
      assert ids[..i + 1] == ids[..i] + [ids[i]];
      assert ids[i] !in ids[..i] && ids[i] in Elems(ids);
      if predecessors[ids[i]] == 0 {
        ready := ready + [ids[i]];
      }
    }
    assert ids[..|ids|] == ids;
    ready := SortReady(ready, numbers, predecessors.Keys, [], predecessors);
  }

  /** The successors of a placed id lose a predecessor; those without any become ready. */
  method ReleaseSuccessors(successors: seq<string>, numbers: map<string, nat>, id: string,
                           predecessors0: map<string, int>, ready0: seq<string>,
                           ghost ordered: seq<string>, ghost V: set<string>, ghost arcs: seq<Edge>)
    returns (predecessors: map<string, int>, ready: seq<string>)
    requires successors == Targets(arcs, id) && forall e :: e in arcs ==> e.from in V && e.to in V
    requires ReadyInvariant(V, ordered, predecessors0, [id] + ready0) && CountsInvariant(arcs, ordered, predecessors0)
    requires OrderedPrefix(Elems(arcs), ordered + [id])
    ensures ReadyInvariant(V, ordered + [id], predecessors, ready)
    ensures CountsInvariant(arcs, ordered + [id], predecessors)
    ensures SortedBy(ready, IdOrder(numbers))
  {
    var targets := SortIds(successors, numbers);
    ReadyTail(V, ordered, predecessors0, id, ready0);
    TargetsWithin(arcs, id, V, ordered, predecessors0, targets);
    predecessors, ready := RelaxSuccessors(targets, predecessors0, ready0);
    RelaxPreservesCounts(V, arcs, ordered, id, predecessors0, targets, predecessors);
    RelaxPreservesReady(V, arcs, ordered, id, predecessors0, ready0, predecessors, ready);
    ready := SortReady(ready, numbers, V, ordered + [id], predecessors);
  }

  lemma ReadyTail(V: set<string>, ordered: seq<string>, predecessors: map<string, int>, id: string, ready: seq<string>)
    requires ReadyInvariant(V, ordered, predecessors, [id] + ready)
    ensures Distinct(ready) && id !in ordered && id in V
    ensures forall r :: r in ready ==> r in predecessors && predecessors[r] == 0
  {
    var front := [id] + ready;
    assert front[0] == id && forall k :: 0 <= k < |ready| ==> front[k + 1] == ready[k];
    assert id in front && forall r :: r in ready ==> r in front;
  }

  /** One iteration: place the first ready id, decrement its successors, re-sort. */
  method PlaceNext(successors: map<string, seq<string>>, numbers: map<string, nat>,
                   ordered0: seq<string>, predecessors0: map<string, int>, ready0: seq<string>,
                   ghost V: set<string>, ghost arcs: seq<Edge>)
    returns (ordered: seq<string>, predecessors: map<string, int>, ready: seq<string>)
    requires ready0 != [] && LoopInvariant(V, arcs, numbers, ordered0, predecessors0, ready0)
    requires SuccessorsIndexed(successors, arcs)
    requires forall e :: e in arcs ==> e.from in V && e.to in V
    ensures ordered == ordered0 + [ready0[0]] && ready0[0] in V - Elems(ordered0)
    ensures Elems(ordered) == Elems(ordered0) + {ready0[0]}
    ensures LoopInvariant(V, arcs, numbers, ordered, predecessors, ready)
  {
    var id := ready0[0];
    PlaceLeastReady(V, arcs, numbers, ordered0, predecessors0, ready0);
    assert id in ready0 && ready0 == [id] + ready0[1..];
    assert Elems(ordered0 + [id]) == Elems(ordered0) + {id};
    ordered := ordered0 + [id];
    predecessors, ready :=
      ReleaseSuccessors(SuccessorsOf(successors, id), numbers, id, predecessors0, ready0[1..], ordered0, V, arcs);
  }

  /** What the caller gets: the least topological order, or exactly the nodes below a cycle. */
  ghost predicate CorrectResult(V: set<string>, E: set<Edge>, numbers: map<string, nat>, r: OrderResult) {
    && (r.CycleFound? <==> HasCycle(E))
    && match r
       case Ordered(ids) => LeastTopological(V, E, numbers, ids)
       case CycleFound(remaining) =>
         && Distinct(remaining) && SortedBy(remaining, IdOrder(numbers))
         && forall v :: v in remaining <==> v in V && BelowCycle(E, v)
  }

  /** The comparison of the two lengths, once no id is ready any more. */
  method Conclude(ids: seq<string>, numbers: map<string, nat>, ordered: seq<string>, predecessors: map<string, int>,
                  ghost V: set<string>, ghost arcs: seq<Edge>)
    returns (r: OrderResult)
    requires Distinct(ids) && Elems(ids) == V && forall e :: e in Elems(arcs) ==> e.from in V && e.to in V
    requires LoopInvariant(V, arcs, numbers, ordered, predecessors, [])
    ensures CorrectResult(V, Elems(arcs), numbers, r)
  {
    UnplacedFacts(V, Elems(arcs), arcs, ordered, predecessors);
    DistinctCard(ordered);
    DistinctCard(ids);
    if |ordered| != |ids| {
      var remaining := CollectRemaining(ids, predecessors, numbers);
      r := CycleFound(remaining);
    } else {
      SubsetCard(Elems(ordered), V);
      GreedyIsLeast(V, Elems(arcs), numbers, ordered);
      r := Ordered(ordered);
    }
  }

  /** The topological order of a manifest. It fails exactly when the graph has a
      directed cycle and then reports exactly the nodes reachable from one;
      otherwise it returns the least topological order. */
  method TopologicalIds(nodes: seq<Node>, edges: seq<Edge>) returns (r: OrderResult)
    requires Distinct(Ids(nodes))
    ensures CorrectResult(Vertices(nodes), Arcs(nodes, edges), NumbersOf(nodes), r)
  {
    var ids := Ids(nodes);
    var zeros, numbers := IndexNodes(nodes);
    var predecessors, successors, arcs := IndexEdges(edges, zeros);
    ghost var V := Vertices(nodes);
    assert Elems(arcs) == Arcs(nodes, edges);
    assert forall e :: e in arcs ==> e in Elems(arcs);
    var ready := InitialReady(ids, predecessors, numbers);
    var ordered: seq<string> := [];
    assert Elems(ordered) == {};
    while |ready| > 0
      invariant LoopInvariant(V, arcs, numbers, ordered, predecessors, ready)
      decreases V - Elems(ordered)
    {
      ordered, predecessors, ready := PlaceNext(successors, numbers, ordered, predecessors, ready, V, arcs);
    }
    r := Conclude(ids, numbers, ordered, predecessors, V, arcs);
  }

  /** The ids that still wait for a predecessor, sorted. */
  method CollectRemaining(ids: seq<string>, predecessors: map<string, int>, numbers: map<string, nat>)
    returns (remaining: seq<string>)
    requires Distinct(ids) && forall v :: v in ids ==> v in predecessors
    ensures Distinct(remaining) && SortedBy(remaining, IdOrder(numbers))
    ensures forall v :: v in remaining <==> v in ids && predecessors[v] > 0
  {
    remaining := [];
    for i := 0 to |ids|
      invariant Distinct(remaining)
      invariant forall v :: v in remaining <==> v in ids[..i] && predecessors[v] > 0
    {
      assert ids[..i + 1] == ids[..i] + [ids[i]];
      assert ids[i] !in ids[..i];
      if predecessors[ids[i]] > 0 {
        remaining := remaining + [ids[i]];
      }
    }
    assert ids[..|ids|] == ids;
    IdOrderTotal(numbers);
    SortSorted(remaining, IdOrder(numbers));
    PermutationFacts(remaining, SortIds(remaining, numbers));
    remaining := SortIds(remaining, numbers);
  }

  lemma TargetsWithin(arcs: seq<Edge>, id: string, V: set<string>, ordered: seq<string>,
                      predecessors: map<string, int>, targets: seq<string>)
    requires multiset(targets) == multiset(Targets(arcs, id)) && id !in ordered
    requires forall e :: e in arcs ==> e.from in V && e.to in V
    requires predecessors.Keys == V && CountsInvariant(arcs, ordered, predecessors)
    ensures forall t :: t in targets ==> t in predecessors
    ensures forall v :: v in predecessors ==> multiset(targets)[v] <= predecessors[v]
  {
    PermutationFacts(targets, Targets(arcs, id));
    TargetsAreTargets(arcs, id);
    forall v | v in predecessors ensures multiset(targets)[v] <= predecessors[v] {
      PendingAfter(arcs, v, Elems(ordered), id);
    }
  }
}
