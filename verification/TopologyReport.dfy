/** What an event chain reports about its walk: degrees, roots, leaves, cycles and paths from the center. */
module TopologyReport {
  import opened Order
  import opened Digraph
  import opened EventCalls
  import opened EventTopology
  import Cycles

  datatype Node = Node(id: string, distance: nat, inDegree: nat, outDegree: nat)

  datatype Path = Path(to: string, nodes: seq<string>)

  datatype Topology = Topology(nodes: seq<Node>, roots: seq<string>, leaves: seq<string>,
                               cycles: seq<seq<string>>, paths: seq<Path>)

  /** The calls between returned nodes, as a graph. */
  ghost function CallGraph(nodes: set<string>, edges: seq<RefHit>): Graph {
    map n | n in nodes :: set e | e in edges && From(e) == n && To(e) in nodes :: To(e)
  }

  ghost function Pairs(g: Graph): set<(string, string)> {
    set x, y | x in g && y in g[x] :: (x, y)
  }

  predicate NodeLeq(a: Node, b: Node) {
    a.distance < b.distance || (a.distance == b.distance && Leq(a.id, b.id))
  }

  /** Targets of paths: the farthest first, then by id. */
  predicate TargetLeq(a: Node, b: Node) {
    a.distance > b.distance || (a.distance == b.distance && Leq(a.id, b.id))
  }

  lemma NodeOrders()
    ensures Total(NodeLeq) && Transitive(NodeLeq) && Total(TargetLeq) && Transitive(TargetLeq)
  {
    hide Leq;
    LeqOrder();
  }

  /** `reverse` holds the same edges the other way round. */
  ghost predicate Mirrored(nodes: set<string>, adjacency: Graph, reverse: Graph) {
    && adjacency.Keys == nodes && reverse.Keys == nodes
    && (forall x, y {:trigger x in reverse[y]} :: y in nodes && x in reverse[y] ==> x in nodes && y in adjacency[x])
    && (forall x, y {:trigger y in adjacency[x]} :: x in nodes && y in adjacency[x] ==> y in nodes && x in reverse[y])
  }

  /** The callers of every node, from its callees. */
  ghost function MirrorImage(adjacency: Graph): Graph {
    map y | y in adjacency :: set x | x in adjacency && y in adjacency[x]
  }

  lemma MirrorUnique(nodes: set<string>, adjacency: Graph, reverse: Graph)
    requires Mirrored(nodes, adjacency, reverse)
    ensures reverse == MirrorImage(adjacency)
  {
    forall y | y in nodes
      ensures reverse[y] == MirrorImage(adjacency)[y]
    {
      forall x
        ensures x in reverse[y] <==> x in MirrorImage(adjacency)[y]
      {
      }
    }
  }

  lemma MirroredMore(nodes: set<string>, adjacency: Graph, reverse: Graph, from: string, to: string)
    requires Mirrored(nodes, adjacency, reverse) && from in nodes && to in nodes
    ensures Mirrored(nodes, adjacency[from := adjacency[from] + {to}], reverse[to := reverse[to] + {from}])
  {
  }

  method BuildAdjacency(nodes: set<string>, edges: seq<RefHit>) returns (adjacency: Graph, reverse: Graph)
    ensures adjacency.Keys == reverse.Keys == nodes
    ensures adjacency == CallGraph(nodes, edges)
    ensures Mirrored(nodes, adjacency, reverse)
  {
    hide CallGraph, Mirrored, From, To;
    adjacency, reverse := map n | n in nodes :: {}, map n | n in nodes :: {};
    NoEdges(nodes, edges[..0], adjacency, reverse);
    for i := 0 to |edges|
      invariant adjacency.Keys == reverse.Keys == nodes
      invariant adjacency == CallGraph(nodes, edges[..i])
      invariant Mirrored(nodes, adjacency, reverse)
    {
      var edge := edges[i];
      assert edges[..i + 1] == edges[..i] + [edge];
      OneMoreEdge(nodes, edges[..i], edge);
      if From(edge) in nodes && To(edge) in nodes {
        MirroredMore(nodes, adjacency, reverse, From(edge), To(edge));
        adjacency := adjacency[From(edge) := adjacency[From(edge)] + {To(edge)}];
        reverse := reverse[To(edge) := reverse[To(edge)] + {From(edge)}];
      }
    }
    assert edges[..|edges|] == edges;
  }

  lemma NoEdges(nodes: set<string>, edges: seq<RefHit>, adjacency: Graph, reverse: Graph)
    requires edges == [] && adjacency == reverse && adjacency.Keys == nodes && forall n :: n in nodes ==> adjacency[n] == {}
    ensures adjacency == CallGraph(nodes, edges) && Mirrored(nodes, adjacency, reverse)
  {
    assert forall n :: n in nodes ==> CallGraph(nodes, edges)[n] == {};
  }

  lemma OneMoreEdge(nodes: set<string>, edges: seq<RefHit>, edge: RefHit)
    ensures CallGraph(nodes, edges).Keys == nodes
    ensures var g := CallGraph(nodes, edges);
            CallGraph(nodes, edges + [edge]) ==
            if From(edge) in nodes && To(edge) in nodes then g[From(edge) := g[From(edge)] + {To(edge)}] else g
  {
    hide To, From;
    var g, h := CallGraph(nodes, edges), CallGraph(nodes, edges + [edge]);
    var both := From(edge) in nodes && To(edge) in nodes;
    var expected := if both then g[From(edge) := g[From(edge)] + {To(edge)}] else g;
    forall n | n in nodes
      ensures h[n] == g[n] + if From(edge) == n && To(edge) in nodes then {To(edge)} else {}
    {
      forall y
        ensures y in h[n] <==> y in g[n] || (From(edge) == n && To(edge) in nodes && y == To(edge))
      {
        if y in h[n] {
          var e :| e in edges + [edge] && From(e) == n && To(e) in nodes && To(e) == y;
        }
        if y in g[n] {
          var e :| e in edges && From(e) == n && To(e) in nodes && To(e) == y;
          assert e in edges + [edge];
        }
        if From(edge) == n && To(edge) in nodes && y == To(edge) {
          assert edge in edges + [edge];
        }
      }
    }
    forall n | n in nodes
      ensures h[n] == expected[n]
    {
    }
    assert h.Keys == expected.Keys;
    assert h == expected;
  }

  /** Reverses a slice by swapping from both ends. */
  method Reversed(s: seq<string>) returns (r: seq<string>)
    ensures |r| == |s| && forall i :: 0 <= i < |s| ==> r[i] == s[|s| - 1 - i]
  {
    r := s;
    var left, right := 0, |r| - 1;
    while left < right
      invariant |r| == |s| && 0 <= left && right == |s| - 1 - left && left <= right + 1
      invariant forall i :: 0 <= i < left || right < i < |s| ==> r[i] == s[|s| - 1 - i]
      invariant forall i :: left <= i <= right ==> r[i] == s[i]
    {
      r := r[left := r[right]][right := r[left]];
      left, right := left + 1, right - 1;
    }
  }

  predicate MetFrom(predecessor: map<string, string>, a: string, b: string) {
    b in predecessor && predecessor[b] == a
  }

  /** The nodes on the way back from the target to the center, or nothing if a node was met from nowhere. */
  method PathTo(center: string, predecessor: map<string, string>, target: string, ghost rank: map<string, nat>) returns (path: seq<string>)
    requires target in rank
    requires forall n :: n in predecessor ==> n in rank && predecessor[n] in rank && rank[predecessor[n]] < rank[n]
    ensures path != [] ==> path[0] == center && path[|path| - 1] == target
    ensures forall i :: 0 <= i < |path| - 1 ==> MetFrom(predecessor, path[i], path[i + 1])
    ensures rank.Keys <= predecessor.Keys + {center} ==> path != []
  {
    path := [target];
    var current := target;
    while current != center
      invariant path != [] && path[0] == target && path[|path| - 1] == current && current in rank
      invariant forall i :: 0 <= i < |path| - 1 ==> MetFrom(predecessor, path[i + 1], path[i])
      decreases rank[current]
    {
      if current !in predecessor {
        path := [];
        return;
      }
      var previous := predecessor[current];
      path := path + [previous];
      current := previous;
    }
    var back := path;
    path := Reversed(back);
    forall i | 0 <= i < |path| - 1
      ensures MetFrom(predecessor, path[i], path[i + 1])
    {
      assert path[i + 1] == back[|back| - 1 - (i + 1)] && path[i] == back[|back| - 1 - i];
    }
  }

  ghost predicate Describes(states: map<string, nat>, adjacency: Graph, reverse: Graph, nd: Node) {
    && nd.id in states && nd.id in adjacency && nd.id in reverse
    && nd == Node(nd.id, states[nd.id], |reverse[nd.id]|, |adjacency[nd.id]|)
  }

  function Ids(nodes: seq<Node>): (r: seq<string>)
    ensures |r| == |nodes|
  {
    seq(|nodes|, i requires 0 <= i < |nodes| => nodes[i].id)
  }

  ghost predicate AllDescribe(states: map<string, nat>, adjacency: Graph, reverse: Graph, nodes: seq<Node>) {
    forall nd :: nd in nodes ==> Describes(states, adjacency, reverse, nd)
  }

  ghost function Sources(reverse: Graph): set<string> {
    set n | n in reverse && reverse[n] == {}
  }

  lemma IdsAppend(nodes: seq<Node>, nd: Node)
    ensures Ids(nodes + [nd]) == Ids(nodes) + [nd.id]
  {
  }

  lemma IdsPermuted(a: seq<Node>, b: seq<Node>)
    requires multiset(a) == multiset(b) && Distinct(Ids(a))
    ensures Distinct(Ids(b)) && Elems(Ids(a)) == Elems(Ids(b))
  {
    MultisetMembers(a, b);
    IdsMembers(a);
    IdsMembers(b);
    DistinctNodes(a);
    DistinctPermutation(a, b);
    forall i, j | 0 <= i < j < |b|
      ensures Ids(b)[i] != Ids(b)[j]
    {
      assert b[i] in a && b[j] in a && b[i] != b[j];
      var k :| 0 <= k < |a| && a[k] == b[i];
      var m :| 0 <= m < |a| && a[m] == b[j];
      assert Ids(a)[k] == b[i].id && Ids(a)[m] == b[j].id;
    }
  }

  lemma DistinctNodes(a: seq<Node>)
    requires Distinct(Ids(a))
    ensures Distinct(a)
  {
    forall i, j | 0 <= i < j < |a|
      ensures a[i] != a[j]
    {
      assert Ids(a)[i] == a[i].id && Ids(a)[j] == a[j].id;
    }
  }

  lemma IdsMembers(a: seq<Node>)
    ensures forall x :: x in Elems(Ids(a)) <==> exists nd :: nd in a && nd.id == x
  {
    forall x
      ensures x in Elems(Ids(a)) <==> exists nd :: nd in a && nd.id == x
    {
      if x in Elems(Ids(a)) {
        var i :| 0 <= i < |Ids(a)| && Ids(a)[i] == x;
        assert a[i] in a && a[i].id == x;
      }
      if nd :| nd in a && nd.id == x {
        var i :| 0 <= i < |a| && a[i] == nd;
        assert Ids(a)[i] == x;
      }
    }
  }

  /** The node table, the roots and the leaves, collected in whatever order the map hands over its keys and then sorted. */
  method Summarize(states: map<string, nat>, adjacency: Graph, reverse: Graph)
      returns (nodes: seq<Node>, roots: seq<string>, leaves: seq<string>)
    requires adjacency.Keys == reverse.Keys == states.Keys
    ensures AllDescribe(states, adjacency, reverse, nodes) && SortedBy(nodes, NodeLeq)
    ensures Distinct(Ids(nodes)) && Elems(Ids(nodes)) == states.Keys
    ensures StrictlySorted(roots) && Elems(roots) == Sources(reverse)
    ensures StrictlySorted(leaves) && Elems(leaves) == Sources(adjacency)
  {
    nodes, roots, leaves := [], [], [];
    var rest := states.Keys;
    while rest != {}
      invariant rest <= states.Keys && AllDescribe(states, adjacency, reverse, nodes)
      invariant Distinct(Ids(nodes)) && Elems(Ids(nodes)) == states.Keys - rest
      invariant Distinct(roots) && Elems(roots) == Sources(reverse) - rest
      invariant Distinct(leaves) && Elems(leaves) == Sources(adjacency) - rest
      decreases rest
    {
      hide Distinct, NodeLeq;
      var id :| id in rest;
      var nd := Node(id, states[id], |reverse[id]|, |adjacency[id]|);
      IdsAppend(nodes, nd);
      ElemsAppend(Ids(nodes), id);
      DistinctAppend(Ids(nodes), id);
      nodes := nodes + [nd];
      if |reverse[id]| == 0 {
        ElemsAppend(roots, id);
        DistinctAppend(roots, id);
        roots := roots + [id];
      }
      if |adjacency[id]| == 0 {
        ElemsAppend(leaves, id);
        DistinctAppend(leaves, id);
        leaves := leaves + [id];
      }
      rest := rest - {id};
    }
    NodeOrders();
    SortBySorts(nodes, NodeLeq);
    IdsPermuted(nodes, SortBy(nodes, NodeLeq));
    MultisetMembers(nodes, SortBy(nodes, NodeLeq));
    nodes := SortBy(nodes, NodeLeq);
    SortDistinct(roots);
    SortDistinct(leaves);
    roots, leaves := SortBy(roots, Leq), SortBy(leaves, Leq);
  }

  lemma DistinctAppend(s: seq<string>, x: string)
    requires Distinct(s) && x !in Elems(s)
    ensures Distinct(s + [x])
  {
  }

  ghost function TotalOut(nodes: seq<Node>): nat {
    if nodes == [] then 0 else nodes[0].outDegree + TotalOut(nodes[1..])
  }

  ghost function TotalIn(nodes: seq<Node>): nat {
    if nodes == [] then 0 else nodes[0].inDegree + TotalIn(nodes[1..])
  }

  /** The edges that leave the nodes of s. */
  ghost function PairsFrom(s: set<string>, g: Graph): set<(string, string)> {
    set x, y | x in s && y in Succ(g, x) :: (x, y)
  }

  ghost function Row(x: string, ys: set<string>): set<(string, string)> {
    set y | y in ys :: (x, y)
  }

  lemma {:induction false} RowSize(x: string, ys: set<string>)
    ensures |Row(x, ys)| == |ys|
  {
    if ys == {} {
      assert Row(x, ys) == {};
    } else {
      var y :| y in ys;
      RowSize(x, ys - {y});
      assert Row(x, ys) == Row(x, ys - {y}) + {(x, y)};
    }
  }

  lemma SplitPairs(x: string, s: set<string>, g: Graph)
    requires x !in s
    ensures |PairsFrom(s + {x}, g)| == |PairsFrom(s, g)| + |Succ(g, x)|
  {
    RowSize(x, Succ(g, x));
    assert PairsFrom(s + {x}, g) == PairsFrom(s, g) + Row(x, Succ(g, x));
    assert PairsFrom(s, g) !! Row(x, Succ(g, x));
  }

  lemma IdsTail(nodes: seq<Node>)
    requires nodes != [] && Distinct(Ids(nodes))
    ensures Distinct(Ids(nodes[1..])) && nodes[0].id !in Elems(Ids(nodes[1..]))
    ensures Elems(Ids(nodes)) == Elems(Ids(nodes[1..])) + {nodes[0].id}
  {
    assert Ids(nodes)[0] == nodes[0].id;
    assert Ids(nodes)[1..] == Ids(nodes[1..]);
    assert Ids(nodes) == [nodes[0].id] + Ids(nodes[1..]);
  }

  lemma {:induction false} TotalOutCounts(states: map<string, nat>, adjacency: Graph, reverse: Graph, nodes: seq<Node>)
    requires AllDescribe(states, adjacency, reverse, nodes) && Distinct(Ids(nodes))
    ensures TotalOut(nodes) == |PairsFrom(Elems(Ids(nodes)), adjacency)|
  {
    if nodes == [] {
      assert PairsFrom(Elems(Ids(nodes)), adjacency) == {};
    } else {
      IdsTail(nodes);
      assert Describes(states, adjacency, reverse, nodes[0]);
      TotalOutCounts(states, adjacency, reverse, nodes[1..]);
      SplitPairs(nodes[0].id, Elems(Ids(nodes[1..])), adjacency);
    }
  }

  lemma {:induction false} TotalInCounts(states: map<string, nat>, adjacency: Graph, reverse: Graph, nodes: seq<Node>)
    requires AllDescribe(states, adjacency, reverse, nodes) && Distinct(Ids(nodes))
    ensures TotalIn(nodes) == |PairsFrom(Elems(Ids(nodes)), reverse)|
  {
    if nodes == [] {
      assert PairsFrom(Elems(Ids(nodes)), reverse) == {};
    } else {
      IdsTail(nodes);
      assert Describes(states, adjacency, reverse, nodes[0]);
      TotalInCounts(states, adjacency, reverse, nodes[1..]);
      SplitPairs(nodes[0].id, Elems(Ids(nodes[1..])), reverse);
    }
  }

  ghost function Swapped(pairs: set<(string, string)>): set<(string, string)> {
    set p | p in pairs :: (p.1, p.0)
  }

  lemma {:induction false} SwappedSize(pairs: set<(string, string)>)
    ensures |Swapped(pairs)| == |pairs|
  {
    if pairs == {} {
      assert Swapped(pairs) == {};
    } else {
      var p :| p in pairs;
      SwappedSize(pairs - {p});
      assert Swapped(pairs) == Swapped(pairs - {p}) + {(p.1, p.0)};
      assert (p.1, p.0) !in Swapped(pairs - {p});
    }
  }

  /** In-degrees and out-degrees both add up to the number of distinct edges between returned nodes. */
  lemma DegreesAddUp(states: map<string, nat>, adjacency: Graph, reverse: Graph, nodes: seq<Node>)
    requires Mirrored(states.Keys, adjacency, reverse)
    requires AllDescribe(states, adjacency, reverse, nodes) && Distinct(Ids(nodes)) && Elems(Ids(nodes)) == states.Keys
    ensures TotalIn(nodes) == TotalOut(nodes) == |Pairs(adjacency)|
  {
    TotalOutCounts(states, adjacency, reverse, nodes);
    TotalInCounts(states, adjacency, reverse, nodes);
    assert PairsFrom(states.Keys, adjacency) == Pairs(adjacency);
    forall p
      ensures p in Swapped(Pairs(adjacency)) <==> p in PairsFrom(states.Keys, reverse)
    {
      if p in PairsFrom(states.Keys, reverse) {
        assert p.1 in reverse[p.0];
        assert (p.1, p.0) in Pairs(adjacency);
      }
      if p in Swapped(Pairs(adjacency)) {
        assert (p.1, p.0) in Pairs(adjacency);
        assert p.0 in adjacency[p.1];
      }
    }
    assert Swapped(Pairs(adjacency)) == PairsFrom(states.Keys, reverse);
    SwappedSize(Pairs(adjacency));
  }

  /** The nodes of v from which x can be reached. */
  ghost function Ancestors(g: Graph, v: set<string>, x: string): set<string> {
    set y | y in v && Reach(g, y, x)
  }

  /** Without a cycle, walking calls backwards ends at a root. */
  lemma {:induction false} RootAbove(g: Graph, reverse: Graph, x: string)
    requires Mirrored(g.Keys, g, reverse) && x in g
    requires forall y :: !OnCycle(g, y)
    ensures exists r :: r in Sources(reverse) && Reach(g, r, x)
    decreases Ancestors(g, g.Keys, x)
  {
    ReachSelf(g, x);
    if reverse[x] == {} {
      assert x in Sources(reverse);
    } else {
      var y :| y in reverse[x];
      assert x in g[y] && Edge(g, y, x);
      ReachEdge(g, y, x);
      forall z | z in Ancestors(g, g.Keys, y)
        ensures z in Ancestors(g, g.Keys, x)
      {
        ReachTrans(g, z, y, x);
      }
      assert x !in Ancestors(g, g.Keys, y) by {
        assert !OnCycle(g, y);
      }
      assert x in Ancestors(g, g.Keys, x);
      RootAbove(g, reverse, y);
      var r :| r in Sources(reverse) && Reach(g, r, y);
      ReachTrans(g, r, y, x);
    }
  }

  ghost function Descendants(g: Graph, v: set<string>, x: string): set<string> {
    set y | y in v && Reach(g, x, y)
  }

  lemma {:induction false} LeafBelow(g: Graph, reverse: Graph, x: string)
    requires Mirrored(g.Keys, g, reverse) && x in g
    requires forall y :: !OnCycle(g, y)
    ensures exists r :: r in Sources(g) && Reach(g, x, r)
    decreases Descendants(g, g.Keys, x)
  {
    ReachSelf(g, x);
    if g[x] == {} {
      assert x in Sources(g);
    } else {
      var y :| y in g[x];
      assert x in reverse[y] && Edge(g, x, y);
      ReachEdge(g, x, y);
      forall z | z in Descendants(g, g.Keys, y)
        ensures z in Descendants(g, g.Keys, x)
      {
        ReachTrans(g, x, y, z);
      }
      assert x !in Descendants(g, g.Keys, y) by {
        assert !OnCycle(g, x);
      }
      assert x in Descendants(g, g.Keys, x);
      LeafBelow(g, reverse, y);
      var r :| r in Sources(g) && Reach(g, y, r);
      ReachTrans(g, x, y, r);
    }
  }

  /** With an empty cycle list every returned node is reachable from a root and reaches a leaf. */
  lemma AcyclicHasRootsAndLeaves(adjacency: Graph, reverse: Graph, x: string)
    requires Mirrored(adjacency.Keys, adjacency, reverse) && Cycles.IsCycleList(adjacency, []) && x in adjacency
    ensures exists r :: r in Sources(reverse) && Reach(adjacency, r, x)
    ensures exists r :: r in Sources(adjacency) && Reach(adjacency, x, r)
  {
    RootAbove(adjacency, reverse, x);
    LeafBelow(adjacency, reverse, x);
  }

  /** A reported path: from the center to its target, as long as the target is far, each node met from the one before. */
  ghost predicate TruePath(center: string, w: Walk, p: Path) {
    && p.to in w.states && p.to != center
    && |p.nodes| == w.states[p.to] + 1
    && p.nodes[0] == center && p.nodes[|p.nodes| - 1] == p.to
    && forall i :: 0 <= i < |p.nodes| - 1 ==> MetFrom(w.predecessor, p.nodes[i], p.nodes[i + 1])
  }

  lemma {:induction false} PathDistances(center: string, w: Walk, path: seq<string>, i: nat)
    requires Chained(center, w.states, w.predecessor) && i < |path| && path[0] == center
    requires forall k :: 0 <= k < |path| - 1 ==> MetFrom(w.predecessor, path[k], path[k + 1])
    ensures path[i] in w.states && w.states[path[i]] == i
  {
    if i > 0 {
      PathDistances(center, w, path, i - 1);
      assert MetFrom(w.predecessor, path[i - 1], path[i - 1 + 1]);
    }
  }

  lemma PathIsTrue(center: string, w: Walk, target: string, path: seq<string>)
    requires Chained(center, w.states, w.predecessor) && target in w.states && target != center && path != []
    requires path[0] == center && path[|path| - 1] == target
    requires forall k :: 0 <= k < |path| - 1 ==> MetFrom(w.predecessor, path[k], path[k + 1])
    ensures TruePath(center, w, Path(target, path))
  {
    hide Chained, MetFrom;
    PathDistances(center, w, path, |path| - 1);
  }

  function WithoutCenter(nodes: seq<Node>, center: string): (r: seq<Node>)
    ensures forall nd :: nd in r <==> nd in nodes && nd.id != center
  {
    if nodes == [] then []
    else
      assert nodes == [nodes[0]] + nodes[1..];
      (if nodes[0].id != center then [nodes[0]] else []) + WithoutCenter(nodes[1..], center)
  }

  /** Paths to the first targets, the farthest first, up to the limit; none is left out. */
  method PathsFromCenter(center: string, w: Walk, nodes: seq<Node>, pathLimit: int) returns (paths: seq<Path>)
    requires Chained(center, w.states, w.predecessor) && forall nd :: nd in nodes ==> nd.id in w.states
    ensures var targets := SortBy(WithoutCenter(nodes, center), TargetLeq);
            && |paths| == (if pathLimit < 0 then 0 else if pathLimit < |targets| then pathLimit else |targets|)
            && forall i :: 0 <= i < |paths| ==> paths[i].to == targets[i].id && TruePath(center, w, paths[i])
  {
    hide TargetLeq, SortBy, TruePath, MetFrom, WithoutCenter;
    var targets := SortBy(WithoutCenter(nodes, center), TargetLeq);
    MultisetMembers(targets, WithoutCenter(nodes, center));
    paths := [];
    for k := 0 to |targets|
      invariant |paths| == k && (k == 0 || k <= pathLimit)
      invariant forall i :: 0 <= i < |paths| ==> paths[i].to == targets[i].id && TruePath(center, w, paths[i])
    {
      var target := targets[k];
      if |paths| >= pathLimit {
        break;
      }
      assert target in targets;
      var path := PathTo(center, w.predecessor, target.id, w.states);
      if |path| == 0 {
        continue;
      }
      PathIsTrue(center, w, target.id, path);
      paths := paths + [Path(target.id, path)];
    }
  }

  /** Consecutive nodes of a path are joined by a returned edge that the query of the first selects and the direction follows. */
  lemma PathsFollowEdges(refs: seq<RefHit>, o: Options, l: Limits, center: string, w: Walk, p: Path, i: nat)
    requires Linked(refs, o, l, w) && TruePath(center, w, p) && i < |p.nodes| - 1
    ensures MetBy(o, w.edges, p.nodes[i], p.nodes[i + 1])
  {
    assert MetFrom(w.predecessor, p.nodes[i], p.nodes[i + 1]);
    assert MetBy(o, w.edges, w.predecessor[p.nodes[i + 1]], p.nodes[i + 1]);
  }

  ghost predicate StepOverEdge(refs: seq<RefHit>, o: Options, edges: seq<RefHit>, a: string, b: string) {
    exists e :: e in edges && StepBy(refs, o, a, b, e)
  }

  /** In a quiet table such an edge touches both nodes: every step of a path is an allowed step over a returned edge. */
  lemma PathsTakeSteps(refs: seq<RefHit>, o: Options, l: Limits, center: string, w: Walk, p: Path, i: nat)
    requires Sound(refs, o, center, l, w) && Linked(refs, o, l, w) && Quiet(refs, o, center, l)
    requires TruePath(center, w, p) && i < |p.nodes| - 1
    ensures StepOverEdge(refs, o, w.edges, p.nodes[i], p.nodes[i + 1])
  {
    hide Sees, Linked, Quiet, Incident, Followed, Next, TypedId, EdgeKey;
    PathsFollowEdges(refs, o, l, center, w, p, i);
    var a, b := p.nodes[i], p.nodes[i + 1];
    var e :| e in w.edges && Sees(o, e, a) && Followed(o, e, a) && b == Next(o, e, a);
    assert MetFrom(w.predecessor, a, b);
    MetTyped(refs, o, center, l, w, a);
    QuietHit(refs, o, center, l, a, w.states[a], e);
    assert StepBy(refs, o, a, b, e);
  }

  lemma CenterMet(center: string, w: Walk)
    requires Chained(center, w.states, w.predecessor)
    ensures center in w.states
  {
  }

  lemma DescribedMet(states: map<string, nat>, adjacency: Graph, reverse: Graph, nodes: seq<Node>)
    requires AllDescribe(states, adjacency, reverse, nodes)
    ensures forall nd :: nd in nodes ==> nd.id in states
  {
  }

  lemma {:induction false} TargetCount(nodes: seq<Node>, center: string)
    requires Distinct(Ids(nodes))
    ensures |WithoutCenter(nodes, center)| == |nodes| - if center in Elems(Ids(nodes)) then 1 else 0
  {
    if nodes != [] {
      IdsTail(nodes);
      TargetCount(nodes[1..], center);
    }
  }

  lemma ReachesEnds(adjacency: Graph, reverse: Graph, roots: seq<string>, leaves: seq<string>, x: string)
    requires Mirrored(adjacency.Keys, adjacency, reverse) && Cycles.IsCycleList(adjacency, []) && x in adjacency
    requires Elems(roots) == Sources(reverse) && Elems(leaves) == Sources(adjacency)
    ensures exists r :: r in roots && Reach(adjacency, r, x)
    ensures exists r :: r in leaves && Reach(adjacency, x, r)
  {
    AcyclicHasRootsAndLeaves(adjacency, reverse, x);
    var r :| r in Sources(reverse) && Reach(adjacency, r, x);
    assert r in Elems(roots);
    var q :| q in Sources(adjacency) && Reach(adjacency, x, q);
    assert q in Elems(leaves);
  }

  /** Nodes by distance, and by id at one distance. */
  ghost predicate NearestFirst(nodes: seq<Node>) {
    forall i, j :: 0 <= i < j < |nodes| ==>
      nodes[i].distance < nodes[j].distance || (nodes[i].distance == nodes[j].distance && Less(nodes[i].id, nodes[j].id))
  }

  /** a comes before b among the targets: farther, or as far and before it by id. */
  ghost predicate Farther(states: map<string, nat>, a: string, b: string) {
    a in states && b in states && (states[a] > states[b] || (states[a] == states[b] && Less(a, b)))
  }

  /** Paths lead to the farthest nodes, the farthest first, and to no node while a farther one goes without. */
  ghost predicate FarthestFirst(states: map<string, nat>, center: string, paths: seq<Path>) {
    && (forall i, j :: 0 <= i < j < |paths| ==> Farther(states, paths[i].to, paths[j].to))
    && (forall n :: n in states && n != center ==>
          (exists i :: 0 <= i < |paths| && paths[i].to == n) || forall i :: 0 <= i < |paths| ==> Farther(states, paths[i].to, n))
  }

  lemma SortedIsNearestFirst(nodes: seq<Node>)
    requires SortedBy(nodes, NodeLeq) && Distinct(Ids(nodes))
    ensures NearestFirst(nodes)
  {
    hide Leq;
    forall i, j | 0 <= i < j < |nodes|
      ensures nodes[i].distance < nodes[j].distance || (nodes[i].distance == nodes[j].distance && Less(nodes[i].id, nodes[j].id))
    {
      assert NodeLeq(nodes[i], nodes[j]);
      assert Ids(nodes)[i] != Ids(nodes)[j];
    }
  }

  lemma {:induction false} WithoutCenterDistinct(nodes: seq<Node>, center: string)
    requires Distinct(Ids(nodes))
    ensures Distinct(Ids(WithoutCenter(nodes, center)))
  {
    if nodes != [] {
      IdsTail(nodes);
      WithoutCenterDistinct(nodes[1..], center);
      var rest := WithoutCenter(nodes[1..], center);
      if nodes[0].id != center {
        assert nodes == [nodes[0]] + nodes[1..];
        HeadDistinct(nodes[0], rest, nodes[1..]);
        assert WithoutCenter(nodes, center) == [nodes[0]] + rest;
      } else {
        assert WithoutCenter(nodes, center) == rest;
      }
    }
  }

  lemma HeadDistinct(head: Node, rest: seq<Node>, all: seq<Node>)
    requires Distinct(Ids(rest)) && Distinct(Ids([head] + all)) && forall nd :: nd in rest ==> nd in all
    ensures Distinct(Ids([head] + rest))
  {
    forall i, j | 0 <= i < j < |[head] + rest|
      ensures Ids([head] + rest)[i] != Ids([head] + rest)[j]
    {
      assert Ids([head] + rest)[j] == rest[j - 1].id && rest[j - 1] in all;
      if i == 0 {
        var k :| 0 <= k < |all| && all[k] == rest[j - 1];
        assert Ids([head] + all)[k + 1] == rest[j - 1].id && Ids([head] + all)[0] == head.id;
      } else {
        assert Ids([head] + rest)[i] == Ids(rest)[i - 1] && Ids([head] + rest)[j] == Ids(rest)[j - 1];
      }
    }
  }

  lemma PathsFarthestFirst(states: map<string, nat>, center: string, nodes: seq<Node>, paths: seq<Path>)
    requires Distinct(Ids(nodes)) && Elems(Ids(nodes)) == states.Keys && forall nd :: nd in nodes ==> nd.id in states && nd.distance == states[nd.id]
    requires var targets := SortBy(WithoutCenter(nodes, center), TargetLeq);
             |paths| <= |targets| && forall i :: 0 <= i < |paths| ==> paths[i].to == targets[i].id
    ensures FarthestFirst(states, center, paths)
  {
    hide Leq, WithoutCenter, Ids, SortBy, TargetLeq, Distinct, Elems;
    var targets := SortBy(WithoutCenter(nodes, center), TargetLeq);
    TargetsFarthestFirst(states, center, nodes, targets);
    forall n | n in states && n != center && forall i :: 0 <= i < |paths| ==> paths[i].to != n
      ensures forall i :: 0 <= i < |paths| ==> Farther(states, paths[i].to, n)
    {
      var k := TargetOf(nodes, center, targets, n);
      assert k >= |paths|;
    }
  }

  lemma TargetOf(nodes: seq<Node>, center: string, targets: seq<Node>, n: string) returns (k: nat)
    requires targets == SortBy(WithoutCenter(nodes, center), TargetLeq) && n in Elems(Ids(nodes)) && n != center
    ensures k < |targets| && targets[k].id == n
  {
    hide Leq, WithoutCenter, Ids, SortBy, TargetLeq;
    MultisetMembers(WithoutCenter(nodes, center), targets);
    var nd := NodeOf(nodes, n);
    k :| 0 <= k < |targets| && targets[k] == nd;
  }

  lemma TargetsFarthestFirst(states: map<string, nat>, center: string, nodes: seq<Node>, targets: seq<Node>)
    requires Distinct(Ids(nodes)) && forall nd :: nd in nodes ==> nd.id in states && nd.distance == states[nd.id]
    requires targets == SortBy(WithoutCenter(nodes, center), TargetLeq)
    ensures forall i, j :: 0 <= i < j < |targets| ==> Farther(states, targets[i].id, targets[j].id)
  {
    hide Leq, WithoutCenter, Ids, SortBy, Distinct, Total, Transitive;
    var some := WithoutCenter(nodes, center);
    WithoutCenterDistinct(nodes, center);
    NodeOrders();
    SortBySorts(some, TargetLeq);
    IdsPermuted(some, targets);
    MultisetMembers(some, targets);
    forall i, j | 0 <= i < j < |targets|
      ensures Farther(states, targets[i].id, targets[j].id)
    {
      assert targets[i] in some && targets[j] in some && TargetLeq(targets[i], targets[j]);
      DistinctIds(targets, i, j);
    }
  }

  lemma DistinctIds(nodes: seq<Node>, i: nat, j: nat)
    requires Distinct(Ids(nodes)) && i < j < |nodes|
    ensures nodes[i].id != nodes[j].id
  {
    assert Ids(nodes)[i] != Ids(nodes)[j];
  }

  lemma NodeOf(nodes: seq<Node>, n: string) returns (nd: Node)
    requires n in Elems(Ids(nodes))
    ensures nd in nodes && nd.id == n
  {
    var k := ElemsIndex(Ids(nodes), n);
    nd := nodes[k];
  }

  lemma AllDistances(states: map<string, nat>, adjacency: Graph, reverse: Graph, nodes: seq<Node>)
    requires AllDescribe(states, adjacency, reverse, nodes)
    ensures forall nd :: nd in nodes ==> nd.id in states && nd.distance == states[nd.id]
  {
  }

  /** What a report says of a walk: the graph between the returned nodes, its mirror image, and what follows from them. */
  ghost predicate Concluded(center: string, w: Walk, pathLimit: int, t: Topology) {
    var adjacency := CallGraph(w.states.Keys, w.edges);
    var reverse := MirrorImage(adjacency);
    && AllDescribe(w.states, adjacency, reverse, t.nodes) && NearestFirst(t.nodes)
    && Distinct(Ids(t.nodes)) && Elems(Ids(t.nodes)) == w.states.Keys
    && StrictlySorted(t.roots) && Elems(t.roots) == Sources(reverse)
    && StrictlySorted(t.leaves) && Elems(t.leaves) == Sources(adjacency)
    && Cycles.IsCycleList(adjacency, t.cycles) && Cycles.InJoinedOrder(t.cycles)
    && |t.paths| == (if pathLimit < 0 then 0 else if pathLimit < |w.states| - 1 then pathLimit else |w.states| - 1)
    && (forall p :: p in t.paths ==> TruePath(center, w, p)) && FarthestFirst(w.states, center, t.paths)
    && (t.cycles == [] ==> forall x :: x in w.states ==>
          && (exists r :: r in t.roots && Reach(adjacency, r, x))
          && (exists r :: r in t.leaves && Reach(adjacency, x, r)))
    && TotalIn(t.nodes) == TotalOut(t.nodes) == |Pairs(adjacency)|
  }

  /** The whole report on a walk. */
  method BuildConclusions(center: string, w: Walk, pathLimit: int) returns (t: Topology)
    requires Chained(center, w.states, w.predecessor)
    ensures Concluded(center, w, pathLimit, t)
  {
    hide Chained, CallGraph, Mirrored, MirrorImage, AllDescribe, NodeLeq, Distinct, Elems, Ids, Sources,
      StrictlySorted, TruePath, Reach, TotalIn, TotalOut, Pairs, SortBy, WithoutCenter, Cycles.IsCycleList, SortedBy,
      NearestFirst, FarthestFirst;
    CenterMet(center, w);
    var calls, callers := BuildAdjacency(w.states.Keys, w.edges);
    MirrorUnique(w.states.Keys, calls, callers);
    var nodes, roots, leaves := Summarize(w.states, calls, callers);
    var cycles := Cycles.TopologyCycles(calls);
    DescribedMet(w.states, calls, callers, nodes);
    var paths := PathsFromCenter(center, w, nodes, pathLimit);
    t := Topology(nodes, roots, leaves, cycles, paths);
    SortedIsNearestFirst(nodes);
    AllDistances(w.states, calls, callers, nodes);
    PathsFarthestFirst(w.states, center, nodes, paths);
    TargetCount(nodes, center);
    ElemsSize(Ids(nodes));
    DegreesAddUp(w.states, calls, callers, nodes);
    if cycles == [] {
      forall x | x in w.states
        ensures exists r :: r in roots && Reach(calls, r, x)
        ensures exists r :: r in leaves && Reach(calls, x, r)
      {
        ReachesEnds(calls, callers, roots, leaves, x);
      }
    }
  }

  /** The requested depth: 3 when not given, at most 6. */
  function ChainDepth(depth: int): int {
    if depth <= 0 then 3 else if depth > 6 then 6 else depth
  }

  /** The requested limit: 8 when not given, at most 20. */
  function ChainLimit(limit: int): int {
    if limit <= 0 then 8 else if limit > 20 then 20 else limit
  }

  function ChainLimits(depth: int, limit: int): (l: Limits)
    ensures 1 <= l.depth <= 6 && 8 <= l.nodes <= 80 && l.edges == 4 * l.nodes
    ensures (1 <= depth <= 6 ==> l.depth == depth) && (depth > 6 ==> l.depth == 6) && (depth <= 0 ==> l.depth == 3)
    ensures (2 <= limit <= 20 ==> l.nodes == 4 * limit) && (limit == 1 ==> l.nodes == 8) && (limit > 20 ==> l.nodes == 80) && (limit <= 0 ==> l.nodes == 32)
  {
    var nodes := 4 * ChainLimit(limit);
    Limits(ChainDepth(depth), if nodes < 8 then 8 else nodes, 4 * if nodes < 8 then 8 else nodes)
  }

  /** A whole event-chain query around a center. */
  method EventChain(refs: seq<RefHit>, o: Options, centerType: string, centerName: string, depth: int, limit: int)
      returns (w: Walk, t: Topology)
    ensures Concluded(TypedId(centerType, centerName), w, ChainLimit(limit), t)
    ensures |t.nodes| == |w.states| <= 80 && |w.edges| <= 320 && |t.paths| <= 20
    ensures forall nd :: nd in t.nodes ==> nd.distance <= 6
    ensures t.cycles == [] ==> t.roots != [] && t.leaves != []
    ensures forall p, i {:trigger p.nodes[i], p in t.paths} :: p in t.paths && 0 <= i < |p.nodes| - 1 ==>
              && MetBy(o, w.edges, p.nodes[i], p.nodes[i + 1])
              && (Quiet(refs, o, TypedId(centerType, centerName), ChainLimits(depth, limit)) ==>
                    StepOverEdge(refs, o, w.edges, p.nodes[i], p.nodes[i + 1]))
    ensures var center, l := TypedId(centerType, centerName), ChainLimits(depth, limit);
            Sound(refs, o, center, l, w) && Linked(refs, o, l, w) && TruncationTold(refs, o, center, l, w)
    ensures var center, l := TypedId(centerType, centerName), ChainLimits(depth, limit);
            !w.truncated && Quiet(refs, o, center, l) && NoneMasked(refs, o, center, l) ==>
              (Exact(refs, o, center, l, w) <==> KeysTell(refs, o, center, l) && Harmless(refs, o, center, l))
    ensures RowsAllowed(o, w.edges) && NodesAllowed(o, TypedId(centerType, centerName), w.states)
    ensures var center, l := TypedId(centerType, centerName), ChainLimits(depth, limit);
            !w.truncated && Clear(refs, o, center, l) ==> AllRowsTaken(refs, o, l, w)
  {
    hide Exact, Linked, TruncationTold, RowsAllowed, NodesAllowed, AllRowsTaken, KeysTell, Harmless, NoneMasked, Quiet, Reach, Cycles.IsCycleList,
      TotalIn, TotalOut, Pairs, CallGraph, Mirrored, MirrorImage, TruePath, NearestFirst, FarthestFirst, MetBy, StepOverEdge, ChainLimits, TypedId;
    var limits := ChainLimits(depth, limit);
    ghost var center := TypedId(centerType, centerName);
    w := BuildWalk(refs, o, centerType, centerName, limits);
    t := BuildConclusions(TypedId(centerType, centerName), w, ChainLimit(limit));
    ElemsSize(Ids(t.nodes));
    forall p, i {:trigger p.nodes[i], p in t.paths} | p in t.paths && 0 <= i < |p.nodes| - 1
      ensures MetBy(o, w.edges, p.nodes[i], p.nodes[i + 1])
      ensures Quiet(refs, o, center, limits) ==> StepOverEdge(refs, o, w.edges, p.nodes[i], p.nodes[i + 1])
    {
      PathsFollowEdges(refs, o, limits, center, w, p, i);
      if Quiet(refs, o, center, limits) {
        PathsTakeSteps(refs, o, limits, center, w, p, i);
      }
    }
    assert center in w.states;
  }
}
