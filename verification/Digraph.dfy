/** Finite directed graphs as adjacency maps, routes, and mutual reachability. */
module Digraph {

  type Graph = map<string, set<string>>

  /** The targets of x; a node without an entry has none. */
  function Succ(g: Graph, x: string): set<string> {
    if x in g then g[x] else {}
  }

  predicate Edge(g: Graph, x: string, y: string) {
    y in Succ(g, x)
  }

  ghost function Vertices(g: Graph): set<string> {
    g.Keys + set x, y | x in g && y in g[x] :: y
  }

  ghost predicate Route(g: Graph, p: seq<string>) {
    |p| > 0 && forall i :: 0 <= i < |p| - 1 ==> Edge(g, p[i], p[i + 1])
  }

  ghost predicate RouteFromTo(g: Graph, p: seq<string>, x: string, y: string) {
    Route(g, p) && p[0] == x && p[|p| - 1] == y
  }

  ghost predicate Reach(g: Graph, x: string, y: string) {
    exists p :: RouteFromTo(g, p, x, y)
  }

  ghost predicate Mutual(g: Graph, x: string, y: string) {
    Reach(g, x, y) && Reach(g, y, x)
  }

  /** x lies on a directed cycle of at least one edge. */
  ghost predicate OnCycle(g: Graph, x: string) {
    exists y :: Edge(g, x, y) && Reach(g, y, x)
  }

  /** c is the strongly connected component of x. */
  ghost predicate Component(g: Graph, x: string, c: set<string>) {
    forall y :: y in c <==> Mutual(g, x, y)
  }

  lemma ReachSelf(g: Graph, x: string)
    ensures Reach(g, x, x)
  {
    assert RouteFromTo(g, [x], x, x);
  }

  lemma ReachEdge(g: Graph, x: string, y: string)
    requires Edge(g, x, y)
    ensures Reach(g, x, y)
  {
    assert RouteFromTo(g, [x, y], x, y);
  }

  lemma ReachTrans(g: Graph, x: string, y: string, z: string)
    requires Reach(g, x, y) && Reach(g, y, z)
    ensures Reach(g, x, z)
  {
    var p :| RouteFromTo(g, p, x, y);
    var q :| RouteFromTo(g, q, y, z);
    var r := p + q[1..];
    forall i | 0 <= i < |r| - 1
      ensures Edge(g, r[i], r[i + 1])
    {
      if i < |p| - 1 {
        assert r[i] == p[i] && r[i + 1] == p[i + 1];
      } else {
        assert r[i] == q[i - (|p| - 1)];
        assert r[i + 1] == q[i - (|p| - 1) + 1];
      }
    }
    assert RouteFromTo(g, r, x, z);
  }

  /** A set closed under edges keeps every route that starts in it. */
  lemma {:induction false} ClosedRoute(g: Graph, s: set<string>, p: seq<string>)
    requires forall x, y :: x in s && Edge(g, x, y) ==> y in s
    requires Route(g, p) && p[0] in s
    ensures p[|p| - 1] in s
  {
    if |p| > 1 {
      assert Edge(g, p[0], p[0 + 1]);
      forall i | 0 <= i < |p[1..]| - 1
        ensures Edge(g, p[1..][i], p[1..][i + 1])
      {
        assert Edge(g, p[i + 1], p[(i + 1) + 1]);
      }
      ClosedRoute(g, s, p[1..]);
    }
  }

  lemma ClosedReach(g: Graph, s: set<string>, x: string, y: string)
    requires forall u, v :: u in s && Edge(g, u, v) ==> v in s
    requires x in s && Reach(g, x, y)
    ensures y in s
  {
    var p :| RouteFromTo(g, p, x, y);
    ClosedRoute(g, s, p);
  }

  /** Either x is y, or the first step of some route from x leads on to y. */
  lemma ReachFirstStep(g: Graph, x: string, y: string)
    requires Reach(g, x, y) && x != y
    ensures exists z :: Edge(g, x, z) && Reach(g, z, y)
  {
    var p :| RouteFromTo(g, p, x, y);
    assert Edge(g, p[0], p[0 + 1]);
    forall i | 0 <= i < |p[1..]| - 1
      ensures Edge(g, p[1..][i], p[1..][i + 1])
    {
      assert Edge(g, p[i + 1], p[(i + 1) + 1]);
    }
    assert RouteFromTo(g, p[1..], p[1], y);
    assert Reach(g, p[1], y);
  }
}
