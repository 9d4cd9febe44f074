/** Restricting a profile to what lies below a root function and above a leaf function. */
module Pruning {
  import opened CallGraph
  import opened Wrappers

  ghost predicate OnPath(g: Graph, root: Id, leaf: Id, x: Id)
  {
    exists p, i :: IsPath(g, p) && 0 <= i < |p| && p[0] == root && p[i] == x && p[|p| - 1] == leaf
  }

  /** The functions in `keep`, with the calls between them. */
  function Restrict(g: Graph, keep: set<Id>): (r: Graph)
  {
    map x | x in g && x in keep :: Filter(g[x], (y: Id) => y in keep)
  }

  ghost function ReachableFrom(g: Graph, root: Id): (s: set<Id>)
  {
    set x | x in g && Reach(g, root, x)
  }

  ghost function Reaching(g: Graph, leaf: Id): (s: set<Id>)
  {
    set x | x in g && Reach(g, x, leaf)
  }

  function Callees(g: Graph, x: Id): (s: set<Id>)
    requires x in g
    ensures forall y :: y in s <==> y in g[x]
  {
    set y | y in g[x]
  }

  /** A set that is closed under calls, holds the root, and holds only what the root reaches. */
  lemma ClosureIsReachable(g: Graph, root: Id, s: set<Id>)
    requires Closed(g) && root in s && s <= g.Keys && ClosedSet(g, s)
    requires forall x <- s :: Reach(g, root, x)
    ensures s == ReachableFrom(g, root)
  {
    hide Reach;
    forall x | x in ReachableFrom(g, root)
      ensures x in s
    {
      ClosedReach(g, s, root, x);
    }
  }

  /** The same, upwards. */
  lemma ClosureIsReaching(g: Graph, leaf: Id, s: set<Id>)
    requires leaf in s && forall x, y :: Edge(g, x, y) && y in s ==> x in s
    requires forall x <- s :: Reach(g, x, leaf)
    ensures s * g.Keys == Reaching(g, leaf)
  {
    forall x | x in Reaching(g, leaf)
      ensures x in s
    {
      var p :| IsPath(g, p) && p[0] == x && p[|p| - 1] == leaf;
      var i := |p| - 1;
      while i > 0
        invariant 0 <= i < |p| && p[i] in s
      {
        assert Edge(g, p[i - 1], p[i]);
        i := i - 1;
      }
    }
  }

  class Profile {
    var functions: Graph

    constructor (functions: Graph)
      ensures this.functions == functions
    {
      this.functions := functions;
    }

    /** prune_root */
    method PruneRoot(root: Id)
      requires Closed(functions) && root in functions
      modifies this
      ensures functions == Restrict(old(functions), ReachableFrom(old(functions), root))
      ensures Closed(functions) && root in functions
    {
      hide Reach;
      var visited: set<Id> := {};
      var frontier := {root};
      ReachSelf(functions, root);
      while frontier != {}
        invariant visited !! frontier && visited + frontier <= functions.Keys && root in visited + frontier
        invariant forall x <- visited + frontier :: Reach(functions, root, x)
        invariant forall x <- visited :: x in functions && forall y <- functions[x] :: y in visited + frontier
        decreases functions.Keys - visited
      {
        var node :| node in frontier;
        frontier := frontier - {node};
        visited := visited + {node};
        forall y | y in functions[node]
          ensures Reach(functions, root, y)
        {
          assert Edge(functions, node, y);
          ReachEdge(functions, node, y);
          ReachTrans(functions, root, node, y);
        }
        frontier := frontier + (Callees(functions, node) - visited);
      }
      ClosureIsReachable(functions, root, visited);
      var subtree := map n | n in visited :: functions[n];
      KeepsCalls(functions, visited);
      functions := subtree;
    }

    /** Keeping a closed set of functions keeps all their calls. */
    static lemma KeepsCalls(g: Graph, s: set<Id>)
      requires s <= g.Keys && ClosedSet(g, s)
      ensures (map n | n in s :: g[n]) == Restrict(g, s)
      ensures Closed(Restrict(g, s))
    {
      forall n | n in s
        ensures Filter(g[n], (y: Id) => y in s) == g[n]
      {
        FilterAll(g[n], (y: Id) => y in s);
      }
    }

    /** The callers of every function. */
    method EdgesUp() returns (up: map<Id, set<Id>>)
      ensures forall n, f :: n in up && f in up[n] <==> Edge(functions, f, n)
    {
      up := map[];
      var todo := functions.Keys;
      while todo != {}
        invariant todo <= functions.Keys
        invariant forall n, f :: n in up && f in up[n] <==> Edge(functions, f, n) && f !in todo
        decreases todo
      {
        var f :| f in todo;
        ghost var before := up;
        for i := 0 to |functions[f]|
          invariant forall n, x :: n in up && x in up[n] <==>
                      (n in before && x in before[n]) || (x == f && n in functions[f][..i])
        {
          var n := functions[f][i];
          assert functions[f][..i + 1] == functions[f][..i] + [n];
          up := up[n := (if n in up then up[n] else {}) + {f}];
        }
        assert functions[f][..|functions[f]|] == functions[f];
        todo := todo - {f};
      }
    }

    /** prune_leaf */
    method PruneLeaf(leaf: Id)
      modifies this
      ensures functions == Restrict(old(functions), Reaching(old(functions), leaf))
    {
      hide Reach;
      var edgesUp := EdgesUp();
      var visited: set<Id> := {};
      var frontier := {leaf};
      ReachSelf(functions, leaf);
      while frontier != {}
        invariant visited !! frontier && visited + frontier <= functions.Keys + {leaf} && leaf in visited + frontier
        invariant forall x <- visited + frontier :: Reach(functions, x, leaf)
        invariant forall x, y :: Edge(functions, x, y) && y in visited ==> x in visited + frontier
        decreases functions.Keys + {leaf} - visited
      {
        var node :| node in frontier;
        frontier := frontier - {node};
        visited := visited + {node};
        var callers := if node in edgesUp then edgesUp[node] else {};
        forall x | x in callers
          ensures x in functions && Reach(functions, x, leaf)
        {
          assert Edge(functions, x, node);
          ReachEdge(functions, x, node);
          ReachTrans(functions, x, node, leaf);
        }
        frontier := frontier + (callers - visited);
      }
      ClosureIsReaching(functions, leaf, visited);
      var path := functions.Keys * visited;
      assert path == visited * functions.Keys;
      functions := Restrict(functions, path);
    }

    /** Root and leaf in turn: exactly the functions on some path from one to the other are kept. */
    method PruneBetween(root: Id, leaf: Id)
      requires Closed(functions) && root in functions
      modifies this
      ensures forall x :: x in functions <==> OnPath(old(functions), root, leaf, x)
      ensures forall x, y :: Edge(functions, x, y) <==> Edge(old(functions), x, y) && x in functions && y in functions
    {
      hide Reach, OnPath;
      ghost var g := functions;
      PruneRoot(root);
      ghost var below := functions;
      PruneLeaf(leaf);
      forall x
        ensures x in functions <==> OnPath(g, root, leaf, x)
      {
        BetweenIsOnPath(g, root, leaf, x);
      }
    }
  }

  lemma {:induction false} PathInside(g: Graph, s: set<Id>, p: seq<Id>)
    requires ClosedSet(g, s) && s <= g.Keys && IsPath(g, p) && p[0] in s
    ensures IsPath(Restrict(g, s), p)
    decreases |p|
  {
    if |p| > 1 {
      var q := p[..|p| - 1];
      assert IsPath(g, q);
      PathInside(g, s, q);
      assert Reach(g, p[0], p[|p| - 2]);
      ClosedReach(g, s, p[0], p[|p| - 2]);
      assert Edge(g, p[|p| - 2], p[|p| - 1]);
      forall i | 0 <= i < |p| - 1
        ensures Edge(Restrict(g, s), p[i], p[i + 1])
      {
        if i < |p| - 2 {
          assert Edge(Restrict(g, s), q[i], q[i + 1]);
        }
      }
    }
  }

  /** Inside a closed set, reachability does not depend on what is outside. */
  lemma ReachInSubgraph(g: Graph, s: set<Id>, x: Id, y: Id)
    requires ClosedSet(g, s) && s <= g.Keys && x in s
    ensures Reach(g, x, y) <==> Reach(Restrict(g, s), x, y)
  {
    if Reach(g, x, y) {
      var p :| IsPath(g, p) && p[0] == x && p[|p| - 1] == y;
      PathInside(g, s, p);
    }
    if Reach(Restrict(g, s), x, y) {
      var p :| IsPath(Restrict(g, s), p) && p[0] == x && p[|p| - 1] == y;
      forall i | 0 <= i < |p| - 1
        ensures Edge(g, p[i], p[i + 1])
      {
        assert Edge(Restrict(g, s), p[i], p[i + 1]);
      }
      assert IsPath(g, p);
    }
  }

  lemma OnPathIsReach(g: Graph, root: Id, leaf: Id, x: Id)
    ensures OnPath(g, root, leaf, x) <==> Reach(g, root, x) && Reach(g, x, leaf)
  {
    if OnPath(g, root, leaf, x) {
      var p, i :| IsPath(g, p) && 0 <= i < |p| && p[0] == root && p[i] == x && p[|p| - 1] == leaf;
      assert IsPath(g, p[..i + 1]) && p[..i + 1][i] == x;
      assert IsPath(g, p[i..]) by {
        forall k | 0 <= k < |p[i..]| - 1
          ensures Edge(g, p[i..][k], p[i..][k + 1])
        {
          assert Edge(g, p[i + k], p[i + k + 1]);
        }
      }
      assert p[i..][|p| - 1 - i] == leaf;
    }
    if Reach(g, root, x) && Reach(g, x, leaf) {
      var p :| IsPath(g, p) && p[0] == root && p[|p| - 1] == x;
      var q :| IsPath(g, q) && q[0] == x && q[|q| - 1] == leaf;
      var r := p + q[1..];
      forall k | 0 <= k < |r| - 1
        ensures Edge(g, r[k], r[k + 1])
      {
        if k >= |p| - 1 {
          assert r[k] == q[k - (|p| - 1)] && r[k + 1] == q[k + 1 - (|p| - 1)];
        }
      }
      assert IsPath(g, r) && r[0] == root && r[|p| - 1] == x && r[|r| - 1] == leaf;
    }
  }

  lemma ReachableClosed(g: Graph, root: Id)
    requires Closed(g)
    ensures ClosedSet(g, ReachableFrom(g, root)) && ReachableFrom(g, root) <= g.Keys
  {
    hide Reach;
    forall x, y | x in ReachableFrom(g, root) && y in g[x]
      ensures y in ReachableFrom(g, root)
    {
      assert Edge(g, x, y);
      ReachEdge(g, x, y);
      ReachTrans(g, root, x, y);
    }
  }

  lemma BetweenIsOnPath(g: Graph, root: Id, leaf: Id, x: Id)
    requires Closed(g) && root in g
    ensures var below := Restrict(g, ReachableFrom(g, root));
            x in Restrict(below, Reaching(below, leaf)) <==> OnPath(g, root, leaf, x)
  {
    hide Reach, OnPath;
    var s := ReachableFrom(g, root);
    ReachableClosed(g, root);
    OnPathIsReach(g, root, leaf, x);
    if x in s {
      ReachInSubgraph(g, s, x, leaf);
    }
    if Reach(g, root, x) {
      ReachInside(g, root, x);
    }
  }
}
