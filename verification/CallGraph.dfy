/** Call graphs: which functions call which, and reachability. */
module CallGraph {

  type Id = nat

  /** For every function the callees, in the order the profile lists them. */
  type Graph = map<Id, seq<Id>>

  predicate Edge(g: Graph, x: Id, y: Id)
  {
    x in g && y in g[x]
  }

  /** `validate` has removed calls to undefined functions. */
  predicate Closed(g: Graph)
  {
    forall x <- g :: forall y <- g[x] :: y in g
  }

  predicate IsPath(g: Graph, p: seq<Id>)
  {
    && |p| > 0
    && forall i :: 0 <= i < |p| - 1 ==> Edge(g, p[i], p[i + 1])
  }

  ghost predicate Reach(g: Graph, x: Id, y: Id)
  {
    exists p :: IsPath(g, p) && p[0] == x && p[|p| - 1] == y
  }

  ghost predicate SameScc(g: Graph, x: Id, y: Id)
  {
    Reach(g, x, y) && Reach(g, y, x)
  }

  lemma ReachSelf(g: Graph, x: Id)
    ensures Reach(g, x, x)
  {
    assert IsPath(g, [x]) && [x][0] == x;
  }

  lemma ReachEdge(g: Graph, x: Id, y: Id)
    requires Edge(g, x, y)
    ensures Reach(g, x, y)
  {
    var p := [x, y];
    assert IsPath(g, p) && p[0] == x && p[|p| - 1] == y;
  }

  lemma ReachTrans(g: Graph, x: Id, y: Id, z: Id)
    requires Reach(g, x, y) && Reach(g, y, z)
    ensures Reach(g, x, z)
  {
    var p :| IsPath(g, p) && p[0] == x && p[|p| - 1] == y;
    var q :| IsPath(g, q) && q[0] == y && q[|q| - 1] == z;
    var r := p + q[1..];
    forall i | 0 <= i < |r| - 1
      ensures Edge(g, r[i], r[i + 1])
    {
      if i >= |p| - 1 {
        assert r[i] == q[i - (|p| - 1)] && r[i + 1] == q[i + 1 - (|p| - 1)];
      }
    }
    assert IsPath(g, r) && r[0] == x && r[|r| - 1] == z;
  }

  predicate ClosedSet(g: Graph, s: set<Id>)
  {
    forall x <- s :: x in g ==> forall y <- g[x] :: y in s
  }

  /** A path that starts in a closed set stays there. */
  lemma ClosedReach(g: Graph, s: set<Id>, x: Id, y: Id)
    requires ClosedSet(g, s) && x in s && Reach(g, x, y)
    ensures y in s
  {
    var p :| IsPath(g, p) && p[0] == x && p[|p| - 1] == y;
    for i := 0 to |p| - 1
      invariant p[i] in s
    {
      assert Edge(g, p[i], p[i + 1]);
    }
  }

  /** From a function of a closed graph only functions of the graph are reached. */
  lemma ReachInside(g: Graph, x: Id, y: Id)
    requires Closed(g) && x in g && Reach(g, x, y)
    ensures y in g
  {
    ClosedReach(g, g.Keys, x, y);
  }
}
