/** Recursion cycles of a profile: strongly connected components of its call graph. */
module Cycles {
  import opened CallGraph
  import opened Wrappers

  /** One application of the algorithm, as a value.  `active` are the calls of _tarjan in progress. */
  datatype Search = Search(stack: seq<Id>, orders: map<Id, nat>, active: set<Id>)

  function Popped(s: Search): (p: set<Id>)
  {
    set x | x in s.orders && x !in s.stack
  }

  ghost predicate StackOrdered(s: Search)
  {
    && (forall x <- s.stack :: x in s.orders)
    && (forall i, j :: 0 <= i < j < |s.stack| ==> s.orders[s.stack[i]] < s.orders[s.stack[j]])
  }

  /** Deeper stack entries reach higher ones. */
  ghost predicate StackReaches(g: Graph, s: Search)
  {
    forall i, j :: 0 <= i <= j < |s.stack| ==> Reach(g, s.stack[i], s.stack[j])
  }

  /** From y an active call that is not younger can be reached. */
  ghost predicate ReachesActive(g: Graph, s: Search, y: Id)
    requires y in s.orders
  {
    exists x :: x in s.active && x in s.orders && s.orders[x] <= s.orders[y] && Reach(g, y, x)
  }

  ghost predicate AllReachActive(g: Graph, s: Search)
  {
    forall y <- s.stack :: y in s.orders && ReachesActive(g, s, y)
  }

  predicate Numbered(g: Graph, s: Search, order: nat)
  {
    s.orders.Keys <= g.Keys && forall x <- s.orders :: s.orders[x] < order
  }

  predicate ActiveOnStack(s: Search)
  {
    forall x <- s.active :: x in s.stack
  }

  /** Finished calls have no callee left to explore. */
  predicate Explored(g: Graph, s: Search)
  {
    forall x <- s.orders :: x in g && x !in s.active ==> forall y <- g[x] :: y in s.orders
  }

  predicate PoppedClosed(g: Graph, s: Search)
  {
    ClosedSet(g, Popped(s))
  }

  ghost predicate Inv(g: Graph, s: Search, order: nat)
  {
    && Closed(g) && Numbered(g, s, order)
    && StackOrdered(s) && StackReaches(g, s) && ActiveOnStack(s) && AllReachActive(g, s)
    && Explored(g, s) && PoppedClosed(g, s)
  }

  // ---------------------------------------------------------------- starting a call

  function Push(s: Search, f: Id, order: nat): (r: Search)
  {
    Search(s.stack + [f], s.orders[f := order], s.active + {f})
  }

  lemma PushReaches(g: Graph, s: Search, f: Id, order: nat)
    requires StackReaches(g, s) && AllReachActive(g, s)
    requires forall x <- s.active :: Reach(g, x, f)
    ensures StackReaches(g, Push(s, f, order))
  {
    hide Reach;
    ReachSelf(g, f);
    forall i | 0 <= i < |s.stack|
      ensures Reach(g, s.stack[i], f)
    {
      var y := s.stack[i];
      assert ReachesActive(g, s, y);
      var x :| x in s.active && x in s.orders && s.orders[x] <= s.orders[y] && Reach(g, y, x);
      ReachTrans(g, y, x, f);
    }
  }

  lemma PushReachesActive(g: Graph, s: Search, f: Id, order: nat)
    requires AllReachActive(g, s) && f !in s.orders
    ensures AllReachActive(g, Push(s, f, order))
  {
    hide Reach;
    var s' := Push(s, f, order);
    ReachSelf(g, f);
    forall y | y in s'.stack
      ensures y in s'.orders && ReachesActive(g, s', y)
    {
      if y == f {
        assert f in s'.active;
      } else {
        assert ReachesActive(g, s, y);
        var x :| x in s.active && x in s.orders && s.orders[x] <= s.orders[y] && Reach(g, y, x);
        assert x in s'.active && s'.orders[x] == s.orders[x];
      }
    }
  }

  lemma PushKeeps(g: Graph, s: Search, f: Id, order: nat)
    requires Inv(g, s, order) && f in g && f !in s.orders
    requires forall x <- s.active :: Reach(g, x, f)
    ensures Inv(g, Push(s, f, order), order + 1)
  {
    hide Reach, StackReaches, AllReachActive;
    PushReaches(g, s, f, order);
    PushReachesActive(g, s, f, order);
    assert Popped(Push(s, f, order)) == Popped(s);
  }

  // ---------------------------------------------------------------- ending a call

  /** What the loop over the callees of f has established: f is above `pos` entries, everything on the stack
      from there on was started by f, and `low` is the number of a stack entry that f reaches, and is at
      most the number of every entry below f that is called from f or from what f started. */
  ghost predicate Swept(g: Graph, s: Search, f: Id, pos: nat, low: nat)
  {
    && pos < |s.stack| && s.stack[pos] == f && f in g && f in s.orders
    && (forall y <- g[f] :: y in s.orders)
    && (exists y :: y in s.stack && y in s.orders && s.orders[y] == low && Reach(g, f, y))
    && (forall u, v :: u in s.stack[pos..] && v in s.stack[..pos] && v in s.orders && Edge(g, u, v) ==> low <= s.orders[v])
  }

  /** f ends and stays on the stack. */
  function Finish(s: Search, f: Id): (r: Search)
  {
    s.(active := s.active - {f})
  }

  /** f ends as the root of its component, which is taken off the stack. */
  function Pop(s: Search, f: Id, pos: nat): (r: Search)
    requires pos <= |s.stack|
  {
    s.(stack := s.stack[..pos], active := s.active - {f})
  }

  lemma FinishKeeps(g: Graph, s: Search, f: Id, order: nat, pos: nat, low: nat)
    requires Inv(g, s, order) && Swept(g, s, f, pos, low) && low < s.orders[f]
    ensures Inv(g, Finish(s, f), order)
  {
    hide Reach, StackReaches, AllReachActive;
    FinishReachesActive(g, s, f, pos, low);
    assert Popped(Finish(s, f)) == Popped(s);
    assert StackReaches(g, Finish(s, f)) by { SameStackReaches(g, s, Finish(s, f)); }
  }

  lemma SameStackReaches(g: Graph, s: Search, t: Search)
    requires StackReaches(g, s) && t.stack == s.stack
    ensures StackReaches(g, t)
  {
  }

  lemma FinishReachesActive(g: Graph, s: Search, f: Id, pos: nat, low: nat)
    requires StackOrdered(s) && AllReachActive(g, s) && Swept(g, s, f, pos, low) && low < s.orders[f]
    ensures AllReachActive(g, Finish(s, f))
  {
    hide Reach;
    var t := Finish(s, f);
    var z :| z in s.stack && z in s.orders && s.orders[z] == low && Reach(g, f, z);
    assert ReachesActive(g, s, z);
    var w :| w in s.active && w in s.orders && s.orders[w] <= low && Reach(g, z, w);
    ReachTrans(g, f, z, w);
    forall y | y in t.stack
      ensures y in t.orders && ReachesActive(g, t, y)
    {
      assert ReachesActive(g, s, y);
      var x :| x in s.active && x in s.orders && s.orders[x] <= s.orders[y] && Reach(g, y, x);
      if x == f {
        ReachTrans(g, y, f, w);
        assert w in t.active;
      } else {
        assert x in t.active;
      }
    }
  }

  ghost predicate ActiveBelow(s: Search, f: Id, pos: nat)
    requires pos <= |s.stack|
  {
    forall x <- s.active :: x == f || x in s.stack[..pos]
  }

  lemma StackSplit(s: Search, pos: nat)
    requires StackOrdered(s) && pos <= |s.stack|
    ensures forall x :: x in s.stack <==> x in s.stack[..pos] || x in s.stack[pos..]
    ensures forall x, y :: x in s.stack[..pos] && y in s.stack[pos..] ==> x in s.orders && y in s.orders && s.orders[x] < s.orders[y]
    ensures forall y :: pos < |s.stack| && y in s.stack[pos..] ==> y in s.orders && s.orders[s.stack[pos]] <= s.orders[y]
  {
    assert s.stack == s.stack[..pos] + s.stack[pos..];
    forall x, y | x in s.stack[..pos] && y in s.stack[pos..]
      ensures x in s.orders && y in s.orders && s.orders[x] < s.orders[y]
    {
      var i :| 0 <= i < pos && s.stack[i] == x;
      var j :| 0 <= j < |s.stack| - pos && s.stack[pos..][j] == y;
      assert s.stack[pos + j] == y;
    }
  }

  lemma PoppedAfter(s: Search, f: Id, pos: nat)
    requires StackOrdered(s) && pos <= |s.stack|
    ensures Popped(Pop(s, f, pos)) == Popped(s) + Elements(s.stack[pos..])
  {
    StackSplit(s, pos);
    assert forall x :: x in s.stack[..pos] ==> x !in s.stack[pos..];
  }

  /** The situation in which f is recognised as the root of its component. */
  ghost predicate AtRoot(g: Graph, s: Search, f: Id, order: nat, pos: nat)
  {
    Inv(g, s, order) && f in s.orders && Swept(g, s, f, pos, s.orders[f]) && ActiveBelow(s, f, pos)
  }

  /** Nothing called from the component is left outside, so the popped functions stay closed under calls. */
  lemma PopCloses(g: Graph, s: Search, f: Id, order: nat, pos: nat)
    requires AtRoot(g, s, f, order, pos)
    ensures PoppedClosed(g, Pop(s, f, pos))
  {
    hide Reach, StackReaches, AllReachActive;
    var t := Pop(s, f, pos);
    PoppedAfter(s, f, pos);
    StackSplit(s, pos);
    assert f in s.stack[pos..] by { assert s.stack[pos..][0] == f; }
    forall x, y | x in Popped(t) && x in g && y in g[x]
      ensures y in Popped(t)
    {
      if x in s.stack[pos..] {
        assert y in s.orders;
        assert Edge(g, x, y);
      } else {
        assert x in Popped(s);
      }
    }
  }

  lemma CannotReachBelow(g: Graph, s: Search, f: Id, order: nat, pos: nat, u: Id, x: Id)
    requires AtRoot(g, s, f, order, pos) && u in s.stack[pos..] && x in s.stack[..pos]
    ensures !Reach(g, u, x)
  {
    hide Reach, Inv, Swept, ActiveBelow, ClosedSet;
    assert StackOrdered(s) && pos < |s.stack| by { AtRootOrdered(g, s, f, order, pos); }
    StackSplit(s, pos);
    PoppedAfter(s, f, pos);
    PopCloses(g, s, f, order, pos);
    if Reach(g, u, x) {
      ClosedReach(g, Popped(Pop(s, f, pos)), u, x);
      assert false;
    }
  }

  lemma AtRootOrdered(g: Graph, s: Search, f: Id, order: nat, pos: nat)
    requires AtRoot(g, s, f, order, pos)
    ensures StackOrdered(s) && pos < |s.stack| && PoppedClosed(g, s)
  {
  }

  /** Every member gets back to f: it reaches an active call, and none below f can be reached. */
  lemma MembersReachRoot(g: Graph, s: Search, f: Id, order: nat, pos: nat, u: Id)
    requires AtRoot(g, s, f, order, pos) && u in s.stack[pos..]
    ensures Reach(g, u, f)
  {
    hide Reach, StackReaches, PoppedClosed, Explored, Swept, Numbered, ActiveOnStack, StackOrdered;
    AtRootOrdered(g, s, f, order, pos);
    StackSplit(s, pos);
    assert ReachesActive(g, s, u);
    var x :| x in s.active && x in s.orders && s.orders[x] <= s.orders[u] && Reach(g, u, x);
    if x in s.stack[..pos] {
      CannotReachBelow(g, s, f, order, pos, u, x);
    }
  }

  /** What is popped is exactly the component of f. */
  lemma MembersAreScc(g: Graph, s: Search, f: Id, order: nat, pos: nat, y: Id)
    requires AtRoot(g, s, f, order, pos)
    ensures y in s.stack[pos..] <==> SameScc(g, f, y)
  {
    hide Reach, AllReachActive, Explored;
    StackSplit(s, pos);
    if y in s.stack[pos..] {
      MembersReachRoot(g, s, f, order, pos, y);
      var j :| 0 <= j < |s.stack| - pos && s.stack[pos..][j] == y;
      assert Reach(g, s.stack[pos], s.stack[pos + j]);
    }
    if SameScc(g, f, y) {
      SccIsPopped(g, s, f, order, pos, y);
    }
  }

  lemma SccIsPopped(g: Graph, s: Search, f: Id, order: nat, pos: nat, y: Id)
    requires AtRoot(g, s, f, order, pos) && SameScc(g, f, y)
    ensures y in s.stack[pos..]
  {
    hide Reach, AllReachActive, Explored, StackReaches;
    StackSplit(s, pos);
    PopCloses(g, s, f, order, pos);
    PoppedAfter(s, f, pos);
    assert f in s.stack[pos..] by { assert s.stack[pos..][0] == f; }
    ClosedReach(g, Popped(Pop(s, f, pos)), f, y);
    if y in Popped(s) {
      ClosedReach(g, Popped(s), y, f);
      assert false;
    }
  }

  lemma PopReachesActive(g: Graph, s: Search, f: Id, pos: nat)
    requires StackOrdered(s) && AllReachActive(g, s) && pos < |s.stack| && s.stack[pos] == f
    ensures AllReachActive(g, Pop(s, f, pos))
  {
    hide Reach;
    var t := Pop(s, f, pos);
    StackSplit(s, pos);
    assert f in s.stack[pos..] by { assert s.stack[pos..][0] == f; }
    forall y | y in t.stack
      ensures y in t.orders && ReachesActive(g, t, y)
    {
      assert y in s.stack;
      assert ReachesActive(g, s, y);
      var x :| x in s.active && x in s.orders && s.orders[x] <= s.orders[y] && Reach(g, y, x);
      assert x != f;
      assert x in t.active;
    }
  }

  lemma PopKeeps(g: Graph, s: Search, f: Id, order: nat, pos: nat)
    requires AtRoot(g, s, f, order, pos)
    ensures Inv(g, Pop(s, f, pos), order)
  {
    hide Reach, AllReachActive, PoppedClosed;
    PopCloses(g, s, f, order, pos);
    PopReachesActive(g, s, f, pos);
    StackSplit(s, pos);
  }

  // ---------------------------------------------------------------- the loop over the callees

  /** `low` is the number of a stack entry that f reaches. */
  ghost predicate LowReached(g: Graph, s: Search, f: Id, low: nat)
  {
    exists y :: y in s.stack && y in s.orders && s.orders[y] == low && Reach(g, f, y)
  }

  /** No call from `us` to a stack entry of `vs` has a number below `low`. */
  ghost predicate LowCovers(g: Graph, s: Search, us: seq<Id>, vs: seq<Id>, low: nat)
  {
    forall u, v :: u in us && v in vs && v in s.orders && Edge(g, u, v) ==> low <= s.orders[v]
  }

  /** The callees before the i-th one are done. */
  ghost predicate Sweeping(g: Graph, s: Search, f: Id, pos: nat, low: nat, i: nat)
  {
    && pos < |s.stack| && s.stack[pos] == f && f in g && f in s.orders && low <= s.orders[f] && i <= |g[f]|
    && (forall y <- g[f][..i] :: y in s.orders)
    && LowReached(g, s, f, low)
    && LowCovers(g, s, s.stack[pos + 1..], s.stack[..pos], low)
    && (forall y <- g[f][..i] :: y in s.stack[..pos] && y in s.orders ==> low <= s.orders[y])
  }

  ghost predicate Extends(s: Search, t: Search)
  {
    && (forall x <- s.orders :: x in t.orders && t.orders[x] == s.orders[x])
    && s.stack <= t.stack && t.active == s.active
  }

  /** What a completed call of _tarjan for w has done: s before it, t after it, `low` its lowlink. */
  ghost predicate Completed(g: Graph, s: Search, t: Search, w: Id, low: nat)
  {
    && Extends(s, t) && w in t.orders && low <= t.orders[w]
    && (t.stack == s.stack ==> low == t.orders[w])
    && (t.stack != s.stack ==> LowReached(g, t, w, low))
    && LowCovers(g, t, t.stack[|s.stack|..], s.stack, low)
  }

  function Min(a: nat, b: nat): (m: nat)
  {
    if a <= b then a else b
  }

  lemma PrefixTake(s: seq<Id>, i: nat)
    requires i < |s|
    ensures forall y :: y in s[..i + 1] <==> y in s[..i] || y == s[i]
  {
    assert s[..i + 1] == s[..i] + [s[i]];
  }

  lemma SweepStart(g: Graph, s: Search, f: Id, order: nat)
    requires f in g
    ensures Sweeping(g, Push(s, f, order), f, |s.stack|, order, 0)
  {
    var t := Push(s, f, order);
    ReachSelf(g, f);
    assert t.stack[|s.stack|] == f && f in t.stack && t.orders[f] == order;
    assert t.stack[|s.stack| + 1..] == [];
  }

  lemma SweepCall(g: Graph, s: Search, t: Search, f: Id, pos: nat, low: nat, i: nat, lw: nat)
    requires Sweeping(g, s, f, pos, low, i) && i < |g[f]| && StackOrdered(s)
    requires Completed(g, s, t, g[f][i], lw) && t.orders[g[f][i]] > s.orders[f] && g[f][i] !in s.orders
    ensures Sweeping(g, t, f, pos, Min(low, lw), i + 1)
  {
    hide Reach, LowReached, LowCovers;
    var w := g[f][i];
    PrefixTake(g[f], i);
    assert t.stack[..pos] == s.stack[..pos];
    assert Edge(g, f, w);
    SweepCallLow(g, s, t, f, low, w, lw);
    assert LowCovers(g, t, t.stack[pos + 1..], t.stack[..pos], Min(low, lw)) by {
      CoversJoin(g, s, t, pos, low, lw);
    }
    assert forall y <- s.stack[..pos] :: y in s.stack;
  }

  lemma SweepCallLow(g: Graph, s: Search, t: Search, f: Id, low: nat, w: Id, lw: nat)
    requires LowReached(g, s, f, low) && f in s.orders && low <= s.orders[f] && Edge(g, f, w)
    requires Completed(g, s, t, w, lw) && t.orders[w] > s.orders[f]
    ensures LowReached(g, t, f, Min(low, lw))
  {
    hide Reach, LowCovers;
    if lw < low {
      assert t.stack != s.stack;
      var y :| y in t.stack && y in t.orders && t.orders[y] == lw && Reach(g, w, y);
      ReachEdge(g, f, w);
      ReachTrans(g, f, w, y);
    } else {
      var y :| y in s.stack && y in s.orders && s.orders[y] == low && Reach(g, f, y);
      var k :| 0 <= k < |s.stack| && s.stack[k] == y;
      assert t.stack[k] == y;
      assert y in t.stack && y in t.orders && t.orders[y] == low;
    }
  }

  lemma CoversJoin(g: Graph, s: Search, t: Search, pos: nat, low: nat, lw: nat)
    requires Extends(s, t) && StackOrdered(s) && pos < |s.stack|
    requires LowCovers(g, s, s.stack[pos + 1..], s.stack[..pos], low)
    requires LowCovers(g, t, t.stack[|s.stack|..], s.stack, lw)
    ensures LowCovers(g, t, t.stack[pos + 1..], t.stack[..pos], Min(low, lw))
  {
    assert t.stack[..pos] == s.stack[..pos];
    assert t.stack[pos + 1..] == s.stack[pos + 1..] + t.stack[|s.stack|..];
    assert forall v <- s.stack[..pos] :: v in s.stack;
  }

  lemma SweepOnStack(g: Graph, s: Search, f: Id, pos: nat, low: nat, i: nat)
    requires Sweeping(g, s, f, pos, low, i) && i < |g[f]| && g[f][i] in s.stack && g[f][i] in s.orders
    ensures Sweeping(g, s, f, pos, Min(low, s.orders[g[f][i]]), i + 1)
  {
    hide Reach;
    var w := g[f][i];
    PrefixTake(g[f], i);
    assert Edge(g, f, w);
    ReachEdge(g, f, w);
    assert LowReached(g, s, f, s.orders[w]);
  }

  lemma SweepSkip(g: Graph, s: Search, f: Id, pos: nat, low: nat, i: nat)
    requires Sweeping(g, s, f, pos, low, i) && i < |g[f]| && g[f][i] !in s.stack && g[f][i] in s.orders
    ensures Sweeping(g, s, f, pos, low, i + 1)
  {
    hide Reach;
    PrefixTake(g[f], i);
    assert g[f][i] !in s.stack[..pos];
  }

  lemma SweepEnd(g: Graph, s: Search, f: Id, pos: nat, low: nat)
    requires f in g && Sweeping(g, s, f, pos, low, |g[f]|)
    ensures Swept(g, s, f, pos, low) && f in s.orders && low <= s.orders[f]
  {
    hide Reach;
    assert g[f][..|g[f]|] == g[f];
    assert s.stack[pos..] == [f] + s.stack[pos + 1..];
    forall u, v | u in s.stack[pos..] && v in s.stack[..pos] && v in s.orders && Edge(g, u, v)
      ensures low <= s.orders[v]
    {
      if u == f {
        assert v in g[f][..|g[f]|];
      }
    }
  }

  /** The call of f as a whole: s0 before the push, s after the loop. */
  lemma FinishCompletes(g: Graph, s0: Search, s: Search, f: Id, low: nat)
    requires f !in s0.active && f !in s0.orders && Swept(g, s, f, |s0.stack|, low) && low < s.orders[f]
    requires Extends(s0.(active := s0.active + {f}), s)
    ensures Completed(g, s0, Finish(s, f), f, low)
  {
    hide Reach;
    assert s0.active + {f} - {f} == s0.active;
    assert s.stack[..|s0.stack|] == s0.stack;
  }

  lemma PopCompletes(g: Graph, s0: Search, s: Search, f: Id)
    requires f !in s0.active && f in s.orders && |s0.stack| <= |s.stack|
    requires Extends(s0.(active := s0.active + {f}), s)
    ensures Completed(g, s0, Pop(s, f, |s0.stack|), f, s.orders[f])
  {
    assert s0.active + {f} - {f} == s0.active;
    assert s.stack[..|s0.stack|] == s0.stack;
    assert s0.stack[|s0.stack|..] == [];
  }

  // ---------------------------------------------------------------- labels

  /** What `cycle` should say about x. */
  ghost predicate SccLabel(g: Graph, cycleOf: map<Id, Option<nat>>, sets: seq<set<Id>>, x: Id)
    requires x in cycleOf
  {
    match cycleOf[x]
    case None => forall y :: SameScc(g, x, y) ==> y == x
    case Some(c) =>
      && c < |sets|
      && (forall y :: y in sets[c] <==> SameScc(g, x, y))
      && (exists y :: y != x && SameScc(g, x, y))
      && (forall y :: SameScc(g, x, y) ==> y in cycleOf && cycleOf[y] == Some(c))
  }

  ghost predicate Labelled(g: Graph, cycleOf: map<Id, Option<nat>>, sets: seq<set<Id>>, done: set<Id>)
  {
    && cycleOf.Keys == g.Keys
    && (forall x <- done :: x in cycleOf && SccLabel(g, cycleOf, sets, x))
    && (forall x <- cycleOf :: x !in done ==> cycleOf[x] == None)
  }

  /** Every function's cycle is one of those made so far. */
  ghost predicate KnownCycles(cycleOf: map<Id, Option<nat>>, sets: seq<set<Id>>)
  {
    forall x <- cycleOf :: cycleOf[x].Some? ==> cycleOf[x].value < |sets|
  }

  lemma LabelsKnown(g: Graph, cycleOf: map<Id, Option<nat>>, sets: seq<set<Id>>, done: set<Id>)
    requires Labelled(g, cycleOf, sets, done)
    ensures KnownCycles(cycleOf, sets)
  {
    forall x <- cycleOf
      ensures cycleOf[x].Some? ==> cycleOf[x].value < |sets|
    {
      assert x in done ==> SccLabel(g, cycleOf, sets, x);
    }
  }

  function Relabel(cycleOf: map<Id, Option<nat>>, members: set<Id>, c: nat): (r: map<Id, Option<nat>>)
  {
    map x | x in cycleOf :: if x in members then Some(c) else cycleOf[x]
  }

  lemma SccSym(g: Graph, x: Id, y: Id, z: Id)
    requires SameScc(g, x, y) && SameScc(g, x, z)
    ensures SameScc(g, y, z)
  {
    hide Reach;
    ReachTrans(g, y, x, z);
    ReachTrans(g, z, x, y);
  }

  /** Giving a whole component a new cycle labels it right and leaves other components alone. */
  lemma RelabelKeeps(g: Graph, cycleOf: map<Id, Option<nat>>, sets: seq<set<Id>>, done: set<Id>, f: Id, members: set<Id>)
    requires Labelled(g, cycleOf, sets, done) && members <= g.Keys
    requires forall y :: y in members <==> SameScc(g, f, y)
    requires exists y :: y in members && y != f
    requires f in members
    ensures Labelled(g, Relabel(cycleOf, members, |sets|), sets + [members], done + members)
  {
    hide Reach, SameScc, SccLabel;
    var cycleOf' := Relabel(cycleOf, members, |sets|);
    var sets' := sets + [members];
    forall x | x in done + members
      ensures x in cycleOf' && SccLabel(g, cycleOf', sets', x)
    {
      if x in members {
        MemberLabel(g, cycleOf', sets', f, members, x);
      } else {
        OtherLabel(g, cycleOf, sets, f, members, x);
      }
    }
  }

  lemma MemberLabel(g: Graph, cycleOf: map<Id, Option<nat>>, sets: seq<set<Id>>, f: Id, members: set<Id>, x: Id)
    requires |sets| > 0 && sets[|sets| - 1] == members && x in members && f in members
    requires forall y :: y in members <==> SameScc(g, f, y)
    requires forall y <- members :: y in cycleOf && cycleOf[y] == Some(|sets| - 1)
    requires exists y :: y in members && y != f
    ensures SccLabel(g, cycleOf, sets, x)
  {
    hide Reach, SameScc;
    forall y
      ensures y in members <==> SameScc(g, x, y)
    {
      ReachSelfScc(g, f);
      ReachSelfScc(g, x);
      if y in members { SccSym(g, f, x, y); }
      if SameScc(g, x, y) { SccSym(g, f, x, f); SccSym(g, x, f, y); }
    }
    var z :| z in members && z != f;
    var other := if x == f then z else f;
    assert other != x && SameScc(g, x, other);
  }

  lemma ReachSelfScc(g: Graph, x: Id)
    ensures SameScc(g, x, x)
  {
    ReachSelf(g, x);
  }

  lemma OtherLabel(g: Graph, cycleOf: map<Id, Option<nat>>, sets: seq<set<Id>>, f: Id, members: set<Id>, x: Id)
    requires x in cycleOf && x !in members && SccLabel(g, cycleOf, sets, x)
    requires forall y :: y in members <==> SameScc(g, f, y)
    ensures SccLabel(g, Relabel(cycleOf, members, |sets|), sets + [members], x)
  {
    hide Reach, SameScc;
    forall y | SameScc(g, x, y)
      ensures y !in members
    {
      if SameScc(g, f, y) {
        ReachSelfScc(g, f);
        ReachSelfScc(g, x);
        SccSym(g, f, y, f);
        SccSym(g, x, y, x);
        SccSym(g, y, f, x);
        assert false;
      }
    }
  }

  lemma SingleLabel(g: Graph, cycleOf: map<Id, Option<nat>>, sets: seq<set<Id>>, done: set<Id>, f: Id)
    requires Labelled(g, cycleOf, sets, done) && f in g
    requires forall y :: SameScc(g, f, y) ==> y == f
    ensures Labelled(g, cycleOf, sets, done + {f})
  {
    hide Reach, SameScc;
  }

  // ---------------------------------------------------------------- the profile object

  class Profile {
    const graph: Graph
    const listing: seq<Id>                // the functions, in dictionary order
    var cycleOf: map<Id, Option<nat>>     // the field `cycle` of each function
    var cycleSets: seq<set<Id>>           // the field `functions` of each Cycle object
    var cycles: seq<nat>
    // the arguments that one application of _tarjan shares
    var stack: seq<Id>
    var orders: map<Id, nat>
    var lowlinks: map<Id, nat>
    var visited: set<Id>

    constructor (graph: Graph, listing: seq<Id>)
      requires Closed(graph) && forall f :: f in listing <==> f in graph
      ensures this.graph == graph && this.listing == listing
      ensures cycleOf == map f | f in graph :: None
    {
      this.graph, this.listing := graph, listing;
      cycleOf := map f | f in graph :: None;
      cycleSets, cycles, stack, orders, lowlinks, visited := [], [], [], map[], map[], {};
    }

    ghost function Now(active: set<Id>): (s: Search)
      reads `stack, `orders
    {
      Search(stack, orders, active)
    }

    ghost predicate LabelledNow(done: set<Id>)
      reads `cycleOf, `cycleSets
    {
      cycleOf.Keys == graph.Keys && Labelled(graph, cycleOf, cycleSets, done)
    }

    /** Cycle.add_function.  On a restart the function may have a cycle from before; the loop over that cycle's
        members then adds nothing, because its guard asks whether the function that has just been added is
        missing. */
    method AddFunction(c: nat, f: Id)
      requires c < |cycleSets| && f !in cycleSets[c] && f in cycleOf && KnownCycles(cycleOf, cycleSets)
      modifies `cycleOf, `cycleSets
      ensures cycleSets == old(cycleSets)[c := old(cycleSets)[c] + {f}]
      ensures cycleOf == old(cycleOf)[f := Some(c)]
    {
      cycleSets := cycleSets[c := cycleSets[c] + {f}];
      if cycleOf[f].Some? {
        var others := cycleSets[cycleOf[f].value];
        while others != {}
          invariant cycleSets == old(cycleSets)[c := old(cycleSets)[c] + {f}] && cycleOf == old(cycleOf)
          decreases |others|
        {
          var other :| other in others;
          if f !in cycleSets[c] {
            assert false;   // this is where `other` would be added
          }
          others := others - {other};
        }
      }
      cycleOf := cycleOf[f := Some(c)];
    }

    /** A new cycle for the popped members. */
    method NewCycle(members: seq<Id>)
      requires Distinct(members)
      requires (forall x <- members :: x in cycleOf) && KnownCycles(cycleOf, cycleSets)
      modifies `cycleOf, `cycleSets
      ensures cycleOf == Relabel(old(cycleOf), Elements(members), |old(cycleSets)|)
      ensures cycleSets == old(cycleSets) + [Elements(members)]
    {
      var c := |cycleSets|;
      cycleSets := cycleSets + [{}];
      assert Elements(members[..0]) == {};
      for i := 0 to |members|
        invariant cycleSets == old(cycleSets) + [Elements(members[..i])]
        invariant cycleOf == Relabel(old(cycleOf), Elements(members[..i]), c)
      {
        PrefixTake(members, i);
        assert members[i] !in members[..i];
        AddFunction(c, members[i]);
        assert Elements(members[..i]) + {members[i]} == Elements(members[..i + 1]);
      }
      assert members[..|members|] == members;
    }

    /** Takes the component of f off the stack and labels it. */
    method PopComponent(f: Id, pos: nat, ghost active: set<Id>, ghost order: nat, ghost base: set<Id>)
      requires AtRoot(graph, Now(active), f, order, pos)
      requires LabelledNow(base + Popped(Now(active)))
      modifies `stack, `cycleOf, `cycleSets
      ensures Now(active - {f}) == Pop(old(Now(active)), f, pos)
      ensures LabelledNow(base + Popped(Now(active - {f})))
    {
      hide AtRoot, Labelled, Popped, SameScc, StackOrdered, PoppedClosed;
      ghost var s := Now(active);
      ghost var done := base + Popped(s);
      AtRootOrdered(graph, s, f, order, pos);
      LabelsKnown(graph, cycleOf, cycleSets, done);
      var members := stack[pos..];
      ghost var component := Elements(members);
      PoppedAfter(s, f, pos);
      MembersFacts(graph, s, f, order, pos);
      stack := stack[..pos];
      if |members| > 1 {
        assert members[1] in component && members[0] == f;
        RelabelKeeps(graph, cycleOf, cycleSets, done, f, component);
        NewCycle(members);
      } else {
        assert component == {f} by { assert members == [f]; }
        SingleLabel(graph, cycleOf, cycleSets, done, f);
      }
      assert base + (Popped(s) + component) == done + component;
    }

    static lemma MembersFacts(g: Graph, s: Search, f: Id, order: nat, pos: nat)
      requires AtRoot(g, s, f, order, pos)
      ensures pos < |s.stack|
      ensures var members := s.stack[pos..];
              && Distinct(members)
              && (forall x <- members :: x in g)
              && (forall y :: y in members <==> SameScc(g, f, y))
              && members[0] == f
    {
      hide Reach, SameScc, AllReachActive, StackReaches, PoppedClosed, Explored;
      forall y
        ensures y in s.stack[pos..] <==> SameScc(g, f, y)
      {
        MembersAreScc(g, s, f, order, pos, y);
      }
    }

    static lemma CallFacts(g: Graph, s: Search, f: Id, order: nat)
      requires Inv(g, s, order) && f in g && f !in s.orders
      requires forall x <- s.active :: Reach(g, x, f)
      ensures f !in s.active && forall x <- s.active :: x in s.stack
      ensures Popped(Push(s, f, order)) == Popped(s)
      ensures forall y <- g[f] :: y in g && forall x <- s.active + {f} :: Reach(g, x, y)
      ensures Extends(s.(active := s.active + {f}), Push(s, f, order))
    {
      hide Reach, StackReaches, AllReachActive, PoppedClosed, Explored;
      forall y, x | y in g[f] && x in s.active + {f}
        ensures Reach(g, x, y)
      {
        assert Edge(g, f, y);
        ReachEdge(g, f, y);
        ReachSelf(g, f);
        ReachTrans(g, x, f, y);
      }
    }

    static lemma ExtendsTrans(g: Graph, s: Search, t: Search, u: Search, w: Id, low: nat)
      requires Extends(s, t) && Completed(g, t, u, w, low)
      ensures Extends(s, u)
    {
      hide LowReached, LowCovers;
    }

    static lemma NumberedBelow(g: Graph, s: Search, order: nat, f: Id)
      requires Inv(g, s, order) && f in s.orders
      ensures s.orders[f] < order && StackOrdered(s)
    {
    }

    /** Entries stay, with their values outside `except`. */
    static ghost predicate Kept(m: map<Id, nat>, n: map<Id, nat>, except: set<Id>)
    {
      forall x <- m :: x in n && (x !in except ==> n[x] == m[x])
    }

    /** Between two steps of an application: the search invariant and the labels of what is popped. */
    ghost predicate Steady(order: nat, active: set<Id>, base: set<Id>)
      reads `stack, `orders, `lowlinks, `cycleOf, `cycleSets
    {
      Inv(graph, Now(active), order) && lowlinks.Keys == orders.Keys && LabelledNow(base + Popped(Now(active)))
    }

    ghost predicate SweepingNow(f: Id, pos: nat, i: nat, active: set<Id>)
      reads `stack, `orders, `lowlinks
    {
      f in orders && f in lowlinks && Sweeping(graph, Now(active), f, pos, lowlinks[f], i)
    }

    /** The i-th callee of f. */
    method Explore(f: Id, i: nat, pos: nat, order0: nat, ghost inside: set<Id>, ghost base: set<Id>) returns (order: nat)
      requires f in graph && i < |graph[f]| && graph[f][i] in graph && forall x <- inside :: Reach(graph, x, graph[f][i])
      requires Steady(order0, inside, base) && SweepingNow(f, pos, i, inside)
      modifies `stack, `orders, `lowlinks, `visited, `cycleOf, `cycleSets
      ensures Steady(order, inside, base) && SweepingNow(f, pos, i + 1, inside)
      ensures Extends(old(Now(inside)), Now(inside))
      ensures Kept(old(lowlinks), lowlinks, {f})
      ensures visited == old(visited) + (orders.Keys - old(orders.Keys))
      decreases graph.Keys - orders.Keys, 1
    {
      hide Reach, Inv, Completed, Labelled, Popped, Sweeping;
      var callee := graph[f][i];
      order := order0;
      ghost var s := Now(inside);
      NumberedBelow(graph, s, order, f);
      if callee !in orders {
        order := Tarjan(callee, order, inside, base);
        SweepCall(graph, s, Now(inside), f, pos, lowlinks[f], i, lowlinks[callee]);
        assert Extends(s, Now(inside)) by { ExtendsTrans(graph, s, s, Now(inside), callee, lowlinks[callee]); }
        lowlinks := lowlinks[f := Min(lowlinks[f], lowlinks[callee])];
      } else if callee in stack {
        SweepOnStack(graph, s, f, pos, lowlinks[f], i);
        lowlinks := lowlinks[f := Min(lowlinks[f], orders[callee])];
      } else {
        SweepSkip(graph, s, f, pos, lowlinks[f], i);
      }
    }

    /** _tarjan: explores everything new from f and labels the components completed on the way. */
    method Tarjan(f: Id, order0: nat, ghost active: set<Id>, ghost base: set<Id>) returns (order: nat)
      requires f in graph && f !in orders && (forall x <- active :: Reach(graph, x, f))
      requires Steady(order0, active, base)
      modifies `stack, `orders, `lowlinks, `visited, `cycleOf, `cycleSets
      ensures Steady(order, active, base) && f in orders && f in lowlinks && orders[f] == order0
      ensures Completed(graph, old(Now(active)), Now(active), f, lowlinks[f])
      ensures Kept(old(lowlinks), lowlinks, {})
      ensures visited == old(visited) + (orders.Keys - old(orders.Keys))
      decreases graph.Keys - orders.Keys, 0
    {
      hide Reach, Inv, Completed, Labelled, Popped, Swept, Sweeping, Extends;
      ghost var s0 := Now(active);
      ghost var inside := active + {f};
      CallFacts(graph, s0, f, order0);
      var pos := |stack|;
      order := BeginCall(f, order0, active, base);
      for i := 0 to |graph[f]|
        invariant Steady(order, inside, base) && f in orders && orders[f] == order0
        invariant Extends(s0.(active := inside), Now(inside)) && SweepingNow(f, pos, i, inside)
        invariant Kept(old(lowlinks), lowlinks, {})
        invariant old(orders.Keys) <= orders.Keys && visited == old(visited) + (orders.Keys - old(orders.Keys))
      {
        ghost var s := Now(inside);
        order := Explore(f, i, pos, order, inside, base);
        ExtendsChain(s0.(active := inside), s, Now(inside), f);
      }
      EndCall(f, pos, order, s0, base);
    }

    static lemma ExtendsChain(s: Search, t: Search, u: Search, f: Id)
      requires Extends(s, t) && Extends(t, u) && f in t.orders
      ensures Extends(s, u) && f in u.orders && u.orders[f] == t.orders[f] && t.orders.Keys <= u.orders.Keys
    {
    }

    /** The start of _tarjan: f is numbered and put on the stack. */
    method BeginCall(f: Id, order0: nat, ghost active: set<Id>, ghost base: set<Id>) returns (order: nat)
      requires f in graph && f !in orders && (forall x <- active :: Reach(graph, x, f))
      requires Steady(order0, active, base)
      modifies `stack, `orders, `lowlinks, `visited
      ensures Steady(order, active + {f}, base) && SweepingNow(f, |old(stack)|, 0, active + {f})
      ensures orders == old(orders)[f := order0] && lowlinks == old(lowlinks)[f := order0] && visited == old(visited) + {f}
      ensures Extends(old(Now(active)).(active := active + {f}), Now(active + {f}))
    {
      hide Reach, Inv, Labelled, Popped, Sweeping, Extends;
      ghost var s0 := Now(active);
      PushKeeps(graph, s0, f, order0);
      SweepStart(graph, s0, f, order0);
      CallFacts(graph, s0, f, order0);
      visited := visited + {f};
      orders := orders[f := order0];
      lowlinks := lowlinks[f := order0];
      order := order0 + 1;
      stack := stack + [f];
      assert Now(active + {f}) == Push(s0, f, order0);
    }

    /** The end of _tarjan: f is the root of its component or stays on the stack. */
    method EndCall(f: Id, pos: nat, ghost order: nat, ghost s0: Search, ghost base: set<Id>)
      requires f in graph && f !in s0.orders && f !in s0.active && (forall x <- s0.active :: x in s0.stack) && pos == |s0.stack|
      requires Steady(order, s0.active + {f}, base) && SweepingNow(f, pos, |graph[f]|, s0.active + {f})
      requires Extends(s0.(active := s0.active + {f}), Now(s0.active + {f}))
      modifies `stack, `cycleOf, `cycleSets
      ensures Steady(order, s0.active, base) && f in lowlinks
      ensures Completed(graph, s0, Now(s0.active), f, lowlinks[f])
    {
      hide Reach, Inv, Completed, Labelled, Popped, Swept, Sweeping;
      ghost var inside := s0.active + {f};
      ghost var s := Now(inside);
      SweepEnd(graph, s, f, pos, lowlinks[f]);
      assert s0.active == inside - {f};
      if lowlinks[f] == orders[f] {
        assert AtRoot(graph, s, f, order, pos) by { RootReached(graph, s0, s, f, order, pos); }
        PopKeeps(graph, s, f, order, pos);
        PopCompletes(graph, s0, s, f);
        PopComponent(f, pos, inside, order, base);
      } else {
        FinishKeeps(graph, s, f, order, pos, lowlinks[f]);
        FinishCompletes(graph, s0, s, f, lowlinks[f]);
        assert Popped(Finish(s, f)) == Popped(s) by { PoppedFinish(s, f); }
      }
    }

    static lemma PoppedFinish(s: Search, f: Id)
      ensures Popped(Finish(s, f)) == Popped(s)
    {
    }

    static lemma RootReached(g: Graph, s0: Search, s: Search, f: Id, order: nat, pos: nat)
      requires Inv(g, s, order) && f in s.orders && Swept(g, s, f, pos, s.orders[f])
      requires pos == |s0.stack| && Extends(s0.(active := s0.active + {f}), s) && forall x <- s0.active :: x in s0.stack
      ensures AtRoot(g, s, f, order, pos)
    {
      hide Inv, Swept;
      assert s.stack[..pos] == s0.stack;
    }

    static lemma FreshSearch(g: Graph)
      requires Closed(g)
      ensures Inv(g, Search([], map[], {}), 0) && Popped(Search([], map[], {})) == {}
    {
    }

    static lemma HasMember(xs: seq<Id>)
      requires xs != []
      ensures exists y :: y in xs
    {
      assert xs[0] in xs;
    }

    /** Once the outermost call has ended nothing is left on the stack. */
    static lemma AllPopped(g: Graph, s: Search, order: nat)
      requires Inv(g, s, order) && s.active == {}
      ensures s.stack == [] && Popped(s) == s.orders.Keys && s.orders.Keys <= g.Keys
    {
      hide Reach;
      forall y
        ensures y !in s.stack
      {
        if y in s.stack {
          assert false;
        }
      }
      if s.stack != [] {
        HasMember(s.stack);
      }
    }

    /** find_cycles */
    method FindCycles()
      requires Closed(graph) && (forall f :: f in listing <==> f in graph)
      requires cycleOf == map f | f in graph :: None
      modifies this
      ensures Exact(graph, cycleOf, cycleSets)
      ensures Distinct(cycles)
      ensures forall c :: c in cycles <==> exists x :: x in graph && x in cycleOf && cycleOf[x] == Some(c)
    {
      hide Labelled, Exact, SameScc;
      Visit();
      assert cycleOf.Keys == graph.Keys;
      ListCycles();
      LabelsExact(graph, cycleOf, cycleSets);
    }

    /** Applies the algorithm until all functions are visited, each time from scratch. */
    method Visit()
      requires Closed(graph) && (forall f :: f in listing <==> f in graph)
      requires cycleOf == map f | f in graph :: None
      modifies `stack, `orders, `lowlinks, `visited, `cycleOf, `cycleSets
      ensures LabelledNow(graph.Keys)
    {
      hide Inv, Labelled, Popped, Reach, Completed, SccLabel;
      visited := {};
      NothingLabelled(graph, cycleOf, cycleSets);
      for k := 0 to |listing|
        invariant visited <= graph.Keys && LabelledNow(visited)
        invariant forall f <- listing[..k] :: f in visited
      {
        var f := listing[k];
        assert f in listing;
        PrefixTake(listing, k);
        if f !in visited {
          stack, orders, lowlinks := [], map[], map[];
          FreshSearch(graph);
          ghost var base := visited;
          assert base + {} == base && Now({}) == Search([], map[], {});
          var order := Tarjan(f, 0, {}, base);
          AllPopped(graph, Now({}), order);
          assert visited == base + Popped(Now({}));
        }
      }
      assert forall f <- graph.Keys :: f in listing[..|listing|];
      assert visited == graph.Keys;
    }

    static lemma NothingLabelled(g: Graph, cycleOf: map<Id, Option<nat>>, sets: seq<set<Id>>)
      requires cycleOf.Keys == g.Keys && forall f <- cycleOf :: cycleOf[f] == None
      ensures Labelled(g, cycleOf, sets, {})
    {
    }

    method ListCycles()
      requires cycleOf.Keys == graph.Keys && forall f :: f in listing <==> f in graph
      modifies `cycles
      ensures Distinct(cycles)
      ensures forall c :: c in cycles <==> exists x :: x in graph && x in cycleOf && cycleOf[x] == Some(c)
    {
      var found: seq<nat> := [];
      for k := 0 to |listing|
        invariant Distinct(found)
        invariant forall c :: c in found <==> exists i :: 0 <= i < k && listing[i] in cycleOf && cycleOf[listing[i]] == Some(c)
      {
        var f := listing[k];
        assert f in listing;
        if cycleOf[f].Some? && cycleOf[f].value !in found {
          found := found + [cycleOf[f].value];
        }
      }
      cycles := found;
      forall c
        ensures c in cycles <==> exists x :: x in graph && x in cycleOf && cycleOf[x] == Some(c)
      {
        if exists x :: x in graph && x in cycleOf && cycleOf[x] == Some(c) {
          var x :| x in graph && cycleOf[x] == Some(c);
          var i :| 0 <= i < |listing| && listing[i] == x;
          assert listing[i] in cycleOf && cycleOf[listing[i]] == Some(c);
        }
      }
    }
  }

  /** Two distinct functions share a cycle exactly when each reaches the other; a function has no cycle
      exactly when it is a component of its own; and each cycle holds exactly its component. */
  ghost predicate Exact(g: Graph, cycleOf: map<Id, Option<nat>>, sets: seq<set<Id>>)
  {
    && cycleOf.Keys == g.Keys
    && (forall x, y :: x in cycleOf && y in cycleOf && x != y ==>
          (cycleOf[x] != None && cycleOf[x] == cycleOf[y] <==> SameScc(g, x, y)))
    && (forall x <- cycleOf :: cycleOf[x] == None <==> forall y :: SameScc(g, x, y) ==> y == x)
    && (forall x <- cycleOf :: cycleOf[x].Some? ==>
          cycleOf[x].value < |sets| && forall y :: y in sets[cycleOf[x].value] <==> SameScc(g, x, y))
  }

  /** Labels that are right for every function tell the components apart. */
  lemma LabelsExact(g: Graph, cycleOf: map<Id, Option<nat>>, sets: seq<set<Id>>)
    requires Labelled(g, cycleOf, sets, g.Keys)
    ensures Exact(g, cycleOf, sets)
  {
    hide SameScc, SccLabel;
    forall x, y | x in cycleOf && y in cycleOf && x != y
      ensures cycleOf[x] != None && cycleOf[x] == cycleOf[y] <==> SameScc(g, x, y)
    {
      PairExact(g, cycleOf, sets, x, y);
    }
    forall x | x in cycleOf
      ensures cycleOf[x] == None <==> forall y :: SameScc(g, x, y) ==> y == x
      ensures cycleOf[x].Some? ==>
                cycleOf[x].value < |sets| && forall y :: y in sets[cycleOf[x].value] <==> SameScc(g, x, y)
    {
      OneExact(g, cycleOf, sets, x);
    }
  }

  lemma PairExact(g: Graph, cycleOf: map<Id, Option<nat>>, sets: seq<set<Id>>, x: Id, y: Id)
    requires x in cycleOf && y in cycleOf && SccLabel(g, cycleOf, sets, x) && SccLabel(g, cycleOf, sets, y) && x != y
    ensures cycleOf[x] != None && cycleOf[x] == cycleOf[y] <==> SameScc(g, x, y)
  {
    hide SameScc;
    ReachSelfScc(g, y);
  }

  lemma OneExact(g: Graph, cycleOf: map<Id, Option<nat>>, sets: seq<set<Id>>, x: Id)
    requires x in cycleOf && SccLabel(g, cycleOf, sets, x)
    ensures cycleOf[x] == None <==> forall y :: SameScc(g, x, y) ==> y == x
    ensures cycleOf[x].Some? ==>
              cycleOf[x].value < |sets| && forall y :: y in sets[cycleOf[x].value] <==> SameScc(g, x, y)
  {
    hide SameScc;
  }
}
