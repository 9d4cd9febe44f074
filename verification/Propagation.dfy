/** Call ratios and the propagation of time from callees to callers. */
module Propagation {
  import opened CallGraph
  import opened Wrappers
  import Cycles

  // ---------------------------------------------------------------- finite sums

  ghost function Sum(xs: seq<Id>, h: Id -> real): (r: real)
  {
    if xs == [] then 0.0 else Sum(xs[..|xs| - 1], h) + h(xs[|xs| - 1])
  }

  lemma SumSnoc(xs: seq<Id>, x: Id, h: Id -> real)
    ensures Sum(xs + [x], h) == Sum(xs, h) + h(x)
  {
    assert (xs + [x])[..|xs|] == xs;
  }

  lemma {:induction false} SumSame(xs: seq<Id>, h: Id -> real, k: Id -> real)
    requires forall x <- xs :: h(x) == k(x)
    ensures Sum(xs, h) == Sum(xs, k)
  {
    if xs != [] {
      SumSame(xs[..|xs| - 1], h, k);
    }
  }

  lemma {:induction false} SumAdd(xs: seq<Id>, h: Id -> real, k: Id -> real)
    ensures Sum(xs, (x: Id) => h(x) + k(x)) == Sum(xs, h) + Sum(xs, k)
  {
    if xs != [] {
      SumAdd(xs[..|xs| - 1], h, k);
    }
  }

  lemma {:induction false} SumScale(xs: seq<Id>, h: Id -> real, a: real)
    ensures Sum(xs, (x: Id) => h(x) * a) == Sum(xs, h) * a
  {
    if xs != [] {
      SumScale(xs[..|xs| - 1], h, a);
    }
  }

  lemma {:induction false} SumZero(xs: seq<Id>, h: Id -> real)
    requires forall x <- xs :: h(x) == 0.0
    ensures Sum(xs, h) == 0.0
  {
    if xs != [] {
      SumZero(xs[..|xs| - 1], h);
    }
  }

  /** Non-negative terms: the sum is at least each of them. */
  lemma {:induction false} SumBounds(xs: seq<Id>, h: Id -> real, x: Id)
    requires forall y <- xs :: h(y) >= 0.0
    ensures Sum(xs, h) >= 0.0
    ensures x in xs ==> Sum(xs, h) >= h(x)
  {
    if xs != [] {
      SumBounds(xs[..|xs| - 1], h, x);
      assert xs == xs[..|xs| - 1] + [xs[|xs| - 1]];
    }
  }

  /** The order of two summations does not matter. */
  lemma {:induction false} SumSwap(xs: seq<Id>, ys: seq<Id>, h: (Id, Id) -> real)
    ensures Sum(xs, (x: Id) => Sum(ys, (y: Id) => h(x, y))) == Sum(ys, (y: Id) => Sum(xs, (x: Id) => h(x, y)))
    decreases |xs|
  {
    var rows := (x: Id) => Sum(ys, (y: Id) => h(x, y));
    var cols := (y: Id) => Sum(xs, (x: Id) => h(x, y));
    if xs == [] {
      SumZero(ys, cols);
    } else {
      var rest, z := xs[..|xs| - 1], xs[|xs| - 1];
      var restCols := (y: Id) => Sum(rest, (x: Id) => h(x, y));
      var last := (y: Id) => h(z, y);
      SumSwap(rest, ys, h);
      SumAdd(ys, restCols, last);
      SumSame(ys, cols, (y: Id) => restCols(y) + last(y));
      assert rows(z) == Sum(ys, last) by { SumSame(ys, (y: Id) => h(z, y), last); }
    }
  }

  // ---------------------------------------------------------------- profiles and ratios

  /** A profile without recursion cycles: no two distinct functions reach each other. */
  ghost predicate Acyclic(g: Graph)
  {
    Closed(g) && forall x, y :: SameScc(g, x, y) ==> x == y
  }

  /** Calls are kept in a dictionary by callee. */
  ghost predicate DistinctCalls(g: Graph)
  {
    forall x <- g :: Distinct(g[x])
  }

  /** The functions of g, each listed once. */
  ghost predicate Lists(listing: seq<Id>, g: Graph)
  {
    && (forall f :: f in listing <==> f in g)
    && Distinct(listing)
  }

  /** The event count of each call that has one. */
  type Counts = map<(Id, Id), real>

  /** A call from x to another function c. */
  predicate Calls(g: Graph, x: Id, c: Id)
  {
    x != c && Edge(g, x, c)
  }

  function Contribution(g: Graph, count: Counts, x: Id, c: Id): (r: real)
  {
    if Calls(g, x, c) && (x, c) in count then count[(x, c)] else 0.0
  }

  /** Pass 1: the sum over the calls coming into c. */
  ghost function Incoming(g: Graph, listing: seq<Id>, count: Counts, c: Id): (r: real)
  {
    Sum(listing, (x: Id) => Contribution(g, count, x, c))
  }

  /** Module function `ratio`, over exact numbers. */
  function Ratio(numerator: real, denominator: real): (r: real)
    ensures 0.0 <= r <= 1.0
  {
    if denominator == 0.0 then 1.0
    else
      var q := numerator / denominator;
      if q < 0.0 then 0.0 else if q > 1.0 then 1.0 else q
  }

  /** The field `cycle` of each function. */
  type CycleOf = map<Id, Option<nat>>

  /** The call from x to c comes into c's cycle from outside. */
  predicate Enters(cy: CycleOf, x: Id, c: Id)
  {
    c in cy && cy[c].Some? && (x in cy ==> cy[x] != cy[c])
  }

  /** What the call from x to c adds to the total of cycle k. */
  function CycleContribution(g: Graph, count: Counts, cy: CycleOf, k: nat, x: Id, c: Id): (r: real)
  {
    if Enters(cy, x, c) && cy[c] == Some(k) then Contribution(g, count, x, c) else 0.0
  }

  function CycleIds(cy: CycleOf): (r: set<nat>)
  {
    set c | c in cy && cy[c].Some? :: cy[c].value
  }

  /** The sum over the calls of x. */
  ghost function OverCalls(g: Graph, x: Id, h: Id -> real): (r: real)
  {
    if x in g then Sum(g[x], h) else 0.0
  }

  ghost function CycleEntering(g: Graph, count: Counts, cy: CycleOf, k: nat, x: Id): (r: real)
  {
    OverCalls(g, x, (c: Id) => CycleContribution(g, count, cy, k, x, c))
  }

  /** Pass 1, for a cycle: the sum over the calls coming into it from outside. */
  ghost function CycleIncoming(g: Graph, listing: seq<Id>, count: Counts, cy: CycleOf, k: nat): (r: real)
  {
    Sum(listing, (x: Id) => CycleEntering(g, count, cy, k, x))
  }

  /** What a call's count is divided by. */
  ghost function CallTotal(g: Graph, listing: seq<Id>, count: Counts, cy: CycleOf, x: Id, c: Id): (r: real)
  {
    if Enters(cy, x, c) then CycleIncoming(g, listing, count, cy, cy[c].value) else Incoming(g, listing, count, c)
  }

  /** Pass 2: the ratio of one call. */
  ghost function CallRatio(g: Graph, listing: seq<Id>, count: Counts, cy: CycleOf, x: Id, c: Id): (r: real)
  {
    if (x, c) in count then Ratio(count[(x, c)], CallTotal(g, listing, count, cy, x, c)) else 0.0
  }

  /** The share of c's time that goes to x. */
  ghost function Share(g: Graph, listing: seq<Id>, count: Counts, cy: CycleOf, x: Id, c: Id): (r: real)
  {
    if Calls(g, x, c) then CallRatio(g, listing, count, cy, x, c) else 0.0
  }

  ghost function ShareSum(g: Graph, listing: seq<Id>, count: Counts, cy: CycleOf, c: Id): (r: real)
  {
    Sum(listing, (x: Id) => Share(g, listing, count, cy, x, c))
  }

  ghost predicate NonNegative(count: Counts)
  {
    forall k <- count :: count[k] >= 0.0
  }

  /** How many calls with a count come into c. */
  ghost function Callers(g: Graph, listing: seq<Id>, count: Counts, c: Id): (r: real)
  {
    Sum(listing, (x: Id) => if Calls(g, x, c) && (x, c) in count then 1.0 else 0.0)
  }

  /** For a function outside of cycles the shares add up to 1 exactly when its incoming total is positive, or one
      single call with a count comes in (whose ratio 0/0 is taken as 1). */
  lemma SharesExact(g: Graph, listing: seq<Id>, count: Counts, cy: CycleOf, c: Id)
    requires NonNegative(count) && (c in cy ==> cy[c].None?)
    ensures Incoming(g, listing, count, c) >= 0.0
    ensures ShareSum(g, listing, count, cy, c) == if Incoming(g, listing, count, c) > 0.0 then 1.0 else Callers(g, listing, count, c)
  {
    hide Sum, Share, Contribution;
    var inc := Incoming(g, listing, count, c);
    var con := (x: Id) => Contribution(g, count, x, c);
    var share := (x: Id) => Share(g, listing, count, cy, x, c);
    forall x | x in listing
      ensures con(x) >= 0.0
    {
      ContributionSign(g, count, x, c);
    }
    SumBounds(listing, con, 0);
    if inc > 0.0 {
      var scaled := (x: Id) => con(x) * (1.0 / inc);
      forall x | x in listing
        ensures share(x) == scaled(x)
      {
        SumBounds(listing, con, x);
        ShareCell(g, listing, count, cy, x, c);
      }
      SumSame(listing, share, scaled);
      SumScale(listing, con, 1.0 / inc);
    } else {
      var one := (x: Id) => if Calls(g, x, c) && (x, c) in count then 1.0 else 0.0;
      forall x | x in listing
        ensures share(x) == one(x)
      {
        ShareOfNothing(g, listing, count, cy, x, c);
      }
      SumSame(listing, share, one);
    }
  }

  lemma ContributionSign(g: Graph, count: Counts, x: Id, c: Id)
    requires NonNegative(count)
    ensures Contribution(g, count, x, c) >= 0.0
  {
  }

  lemma ShareCell(g: Graph, listing: seq<Id>, count: Counts, cy: CycleOf, x: Id, c: Id)
    requires NonNegative(count) && (c in cy ==> cy[c].None?)
    requires Incoming(g, listing, count, c) > 0.0 && Incoming(g, listing, count, c) >= Contribution(g, count, x, c)
    ensures Share(g, listing, count, cy, x, c) == Contribution(g, count, x, c) * (1.0 / Incoming(g, listing, count, c))
  {
    hide Incoming, Calls, Ratio;
    if Calls(g, x, c) && (x, c) in count {
      Quotient(count[(x, c)], Incoming(g, listing, count, c));
    }
  }

  lemma ShareOfNothing(g: Graph, listing: seq<Id>, count: Counts, cy: CycleOf, x: Id, c: Id)
    requires (c in cy ==> cy[c].None?) && Incoming(g, listing, count, c) == 0.0
    ensures Share(g, listing, count, cy, x, c) == if Calls(g, x, c) && (x, c) in count then 1.0 else 0.0
  {
    hide Incoming, Calls;
  }

  /** The share that the call from x to c has among the calls into cycle k. */
  ghost function CycleShare(g: Graph, listing: seq<Id>, count: Counts, cy: CycleOf, k: nat, x: Id, c: Id): (r: real)
  {
    if Enters(cy, x, c) && cy[c] == Some(k) then Share(g, listing, count, cy, x, c) else 0.0
  }

  ghost function CycleShareSum(g: Graph, listing: seq<Id>, count: Counts, cy: CycleOf, k: nat): (r: real)
  {
    Sum(listing, (x: Id) => OverCalls(g, x, (c: Id) => CycleShare(g, listing, count, cy, k, x, c)))
  }

  lemma CycleContributions(g: Graph, count: Counts, cy: CycleOf, k: nat, x: Id, c: Id)
    requires NonNegative(count)
    ensures CycleEntering(g, count, cy, k, x) >= 0.0
    ensures x in g && c in g[x] ==> CycleEntering(g, count, cy, k, x) >= CycleContribution(g, count, cy, k, x, c)
  {
    if x in g {
      SumBounds(g[x], (c: Id) => CycleContribution(g, count, cy, k, x, c), c);
    }
  }

  /** The ratios of the calls that come into a cycle from outside add up to 1 if their total is positive. */
  lemma CycleSharesExact(g: Graph, listing: seq<Id>, count: Counts, cy: CycleOf, k: nat)
    requires NonNegative(count) && CycleIncoming(g, listing, count, cy, k) > 0.0
    ensures CycleShareSum(g, listing, count, cy, k) == 1.0
  {
    hide Sum, CycleEntering, CycleShare, CycleContribution, NonNegative;
    var inc := CycleIncoming(g, listing, count, cy, k);
    var entering := (x: Id) => CycleEntering(g, count, cy, k, x);
    var shares := (x: Id) => OverCalls(g, x, (c: Id) => CycleShare(g, listing, count, cy, k, x, c));
    var scaled := (x: Id) => entering(x) * (1.0 / inc);
    forall x | x in listing
      ensures shares(x) == scaled(x)
    {
      CycleRow(g, listing, count, cy, k, x);
    }
    SumSame(listing, shares, scaled);
    SumScale(listing, entering, 1.0 / inc);
  }

  lemma CycleRow(g: Graph, listing: seq<Id>, count: Counts, cy: CycleOf, k: nat, x: Id)
    requires NonNegative(count) && CycleIncoming(g, listing, count, cy, k) > 0.0 && x in listing
    ensures OverCalls(g, x, (c: Id) => CycleShare(g, listing, count, cy, k, x, c))
            == CycleEntering(g, count, cy, k, x) * (1.0 / CycleIncoming(g, listing, count, cy, k))
  {
    hide Sum;
    var inc := CycleIncoming(g, listing, count, cy, k);
    if x in g {
      var con := (c: Id) => CycleContribution(g, count, cy, k, x, c);
      var share := (c: Id) => CycleShare(g, listing, count, cy, k, x, c);
      forall c | c in g[x]
        ensures share(c) == con(c) * (1.0 / inc)
      {
        CycleCell(g, listing, count, cy, k, x, c);
      }
      SumSame(g[x], share, (c: Id) => con(c) * (1.0 / inc));
      SumScale(g[x], con, 1.0 / inc);
    }
  }

  lemma CycleCell(g: Graph, listing: seq<Id>, count: Counts, cy: CycleOf, k: nat, x: Id, c: Id)
    requires NonNegative(count) && CycleIncoming(g, listing, count, cy, k) > 0.0 && x in listing && x in g && c in g[x]
    ensures CycleShare(g, listing, count, cy, k, x, c)
            == CycleContribution(g, count, cy, k, x, c) * (1.0 / CycleIncoming(g, listing, count, cy, k))
  {
    hide Sum, Ratio, Calls, CycleEntering;
    var entering := (x: Id) => CycleEntering(g, count, cy, k, x);
    forall y | y in listing
      ensures entering(y) >= 0.0
    {
      CycleContributions(g, count, cy, k, y, c);
    }
    SumBounds(listing, entering, x);
    CycleContributions(g, count, cy, k, x, c);
    if Enters(cy, x, c) && cy[c] == Some(k) && Calls(g, x, c) && (x, c) in count {
      Quotient(count[(x, c)], CycleIncoming(g, listing, count, cy, k));
    }
  }

  lemma Quotient(n: real, d: real)
    requires 0.0 <= n <= d && d > 0.0
    ensures Ratio(n, d) == n * (1.0 / d)
  {
    assert n / d == n * (1.0 / d);
    assert 0.0 <= n / d <= 1.0;
  }

  /** The sum of the counts of all calls into c from other functions. */
  ghost function CountsInto(g: Graph, listing: seq<Id>, count: Counts, c: Id): (r: real)
  {
    Sum(listing, (y: Id) => if y != c && y in g && c in g[y] && (y, c) in count then count[(y, c)] else 0.0)
  }

  /** The sum of the counts of all calls into functions of cycle k from functions outside of it. */
  ghost function CountsIntoCycle(g: Graph, listing: seq<Id>, count: Counts, cy: CycleOf, k: nat): (r: real)
  {
    Sum(listing, (y: Id) => if y in g then Sum(g[y], (d: Id) => EntryCount(count, cy, k, y, d)) else 0.0)
  }

  function EntryCount(count: Counts, cy: CycleOf, k: nat, y: Id, d: Id): (r: real)
  {
    if y != d && d in cy && cy[d] == Some(k) && !(y in cy && cy[y] == Some(k)) && (y, d) in count then count[(y, d)] else 0.0
  }

  /** r is the part of `total` that n is: 1 if there is no total, and never outside of 0 and 1. */
  predicate IsPart(r: real, n: real, total: real)
  {
    && (total == 0.0 ==> r == 1.0)
    && (total != 0.0 ==> && (0.0 <= n / total <= 1.0 ==> r == n / total)
                         && (n / total < 0.0 ==> r == 0.0)
                         && (n / total > 1.0 ==> r == 1.0))
  }

  /** What the ratio r of the call from x to another function c is to be. */
  ghost predicate IsCallRatio(g: Graph, listing: seq<Id>, count: Counts, cy: CycleOf, x: Id, c: Id, r: real)
  {
    if (x, c) !in count then r == 0.0
    else if c in cy && cy[c].Some? && !(x in cy && cy[x] == cy[c])
    then IsPart(r, count[(x, c)], CountsIntoCycle(g, listing, count, cy, cy[c].value))
    else IsPart(r, count[(x, c)], CountsInto(g, listing, count, c))
  }

  lemma IncomingIs(g: Graph, listing: seq<Id>, count: Counts, c: Id)
    ensures Incoming(g, listing, count, c) == CountsInto(g, listing, count, c)
  {
    SumSame(listing, (y: Id) => Contribution(g, count, y, c),
            (y: Id) => if y != c && y in g && c in g[y] && (y, c) in count then count[(y, c)] else 0.0);
  }

  lemma CycleIncomingIs(g: Graph, listing: seq<Id>, count: Counts, cy: CycleOf, k: nat)
    ensures CycleIncoming(g, listing, count, cy, k) == CountsIntoCycle(g, listing, count, cy, k)
  {
    hide Sum;
    var rows := (y: Id) => if y in g then Sum(g[y], (d: Id) => EntryCount(count, cy, k, y, d)) else 0.0;
    forall y | y in listing
      ensures CycleEntering(g, count, cy, k, y) == rows(y)
    {
      if y in g {
        SumSame(g[y], (d: Id) => CycleContribution(g, count, cy, k, y, d), (d: Id) => EntryCount(count, cy, k, y, d));
      }
    }
    SumSame(listing, (y: Id) => CycleEntering(g, count, cy, k, y), rows);
  }

  /** A call that comes into a cycle is divided by what comes into the cycle; every other call, also one inside a
      cycle, by what comes into the function. */
  lemma RatioExact(g: Graph, listing: seq<Id>, count: Counts, cy: CycleOf, x: Id, c: Id)
    ensures IsCallRatio(g, listing, count, cy, x, c, CallRatio(g, listing, count, cy, x, c))
  {
    hide Incoming, CycleIncoming, CountsInto, CountsIntoCycle;
    IncomingIs(g, listing, count, c);
    if c in cy && cy[c].Some? {
      CycleIncomingIs(g, listing, count, cy, cy[c].value);
    }
  }

  /** Counts that are not negative are never cut off: the ratio is the exact quotient. */
  lemma InnerRatioExact(g: Graph, listing: seq<Id>, count: Counts, cy: CycleOf, x: Id, c: Id, r: real)
    requires NonNegative(count) && x in listing && Calls(g, x, c) && (x, c) in count && !Enters(cy, x, c)
    requires IsCallRatio(g, listing, count, cy, x, c, r)
    ensures r == if CountsInto(g, listing, count, c) > 0.0 then count[(x, c)] / CountsInto(g, listing, count, c) else 1.0
  {
    hide Sum;
    var into := (y: Id) => if y != c && y in g && c in g[y] && (y, c) in count then count[(y, c)] else 0.0;
    SumBounds(listing, into, x);
    var n, total := count[(x, c)], CountsInto(g, listing, count, c);
    assert total >= n >= 0.0;
    if total > 0.0 {
      Quotient(n, total);
      assert 0.0 <= n / total <= 1.0;
    }
  }

  // ---------------------------------------------------------------- propagated totals

  type Ratios = map<(Id, Id), real>

  function RatioOf(r: Ratios, x: Id, c: Id): (v: real)
  {
    if (x, c) in r then r[(x, c)] else 0.0
  }

  ghost function Below(g: Graph, x: Id): (s: set<Id>)
  {
    set y | y in g && Reach(g, x, y)
  }

  lemma MutualIsSame(g: Graph, x: Id, y: Id)
    requires Acyclic(g) && Reach(g, x, y) && Reach(g, y, x)
    ensures x == y
  {
    assert SameScc(g, x, y);
  }

  /** Callees reach less. */
  lemma CalleeBelow(g: Graph, x: Id, c: Id)
    requires Acyclic(g) && Calls(g, x, c)
    ensures c in g && Below(g, c) < Below(g, x) && !Reach(g, c, x)
  {
    hide Reach;
    ReachEdge(g, x, c);
    ReachSelf(g, x);
    if Reach(g, c, x) {
      MutualIsSame(g, x, c);
    }
    forall y | y in Below(g, c)
      ensures y in Below(g, x)
    {
      ReachTrans(g, x, c, y);
    }
    assert x in Below(g, x) && x !in Below(g, c);
  }

  /** What a function should get: its own time and its share of its callees' totals. */
  ghost function Total(g: Graph, own: map<Id, real>, r: Ratios, x: Id): (t: real)
    requires Acyclic(g) && x in g && own.Keys == g.Keys
    decreases Below(g, x), 1, 0
  {
    own[x] + FromCallees(g, own, r, x, |g[x]|)
  }

  ghost function FromCallees(g: Graph, own: map<Id, real>, r: Ratios, x: Id, n: nat): (t: real)
    requires Acyclic(g) && x in g && n <= |g[x]| && own.Keys == g.Keys
    decreases Below(g, x), 0, n
  {
    if n == 0 then 0.0
    else
      var c := g[x][n - 1];
      FromCallees(g, own, r, x, n - 1) +
      if c == x then 0.0
      else
        assert Edge(g, x, c);
        CalleeBelow(g, x, c);
        RatioOf(r, x, c) * Total(g, own, r, c)
  }

  ghost function TotalOr0(g: Graph, own: map<Id, real>, r: Ratios, x: Id): (t: real)
    requires Acyclic(g) && own.Keys == g.Keys
  {
    if x in g then Total(g, own, r, x) else 0.0
  }

  function OwnOr0(own: map<Id, real>, x: Id): (t: real)
  {
    if x in own then own[x] else 0.0
  }

  /** What x gets from c, as a term of a sum over all functions. */
  ghost function Flow(g: Graph, own: map<Id, real>, r: Ratios, x: Id, c: Id): (t: real)
    requires Acyclic(g) && own.Keys == g.Keys
  {
    if Calls(g, x, c) then RatioOf(r, x, c) * TotalOr0(g, own, r, c) else 0.0
  }

  /** The flows to x from the first n callees. */
  ghost function Upto(g: Graph, own: map<Id, real>, r: Ratios, x: Id, n: nat, c: Id): (t: real)
    requires Acyclic(g) && own.Keys == g.Keys && x in g && n <= |g[x]|
  {
    if c in g[x][..n] then Flow(g, own, r, x, c) else 0.0
  }

  lemma UptoStep(g: Graph, own: map<Id, real>, r: Ratios, x: Id, n: nat, c: Id)
    requires Acyclic(g) && DistinctCalls(g) && own.Keys == g.Keys && x in g && n < |g[x]|
    ensures Upto(g, own, r, x, n + 1, c) ==
            Upto(g, own, r, x, n, c) + if c == g[x][n] then Flow(g, own, r, x, g[x][n]) else 0.0
  {
    hide Acyclic, Flow;
    assert g[x][..n + 1] == g[x][..n] + [g[x][n]];
    assert g[x][n] !in g[x][..n];
  }

  lemma CalleesStep(g: Graph, own: map<Id, real>, r: Ratios, x: Id, n: nat)
    requires Acyclic(g) && own.Keys == g.Keys && x in g && n < |g[x]|
    ensures g[x][n] in g
    ensures FromCallees(g, own, r, x, n + 1) == FromCallees(g, own, r, x, n) + Flow(g, own, r, x, g[x][n])
    ensures Flow(g, own, r, x, g[x][n]) == if g[x][n] == x then 0.0 else RatioOf(r, x, g[x][n]) * Total(g, own, r, g[x][n])
  {
    hide Total;
    assert Edge(g, x, g[x][n]);
  }

  /** The callees in a prefix of the list of calls, as a sum over all functions. */
  lemma {:induction false} CalleesAsSum(g: Graph, listing: seq<Id>, own: map<Id, real>, r: Ratios, x: Id, n: nat)
    requires Acyclic(g) && DistinctCalls(g) && Lists(listing, g) && own.Keys == g.Keys && x in g && n <= |g[x]|
    ensures FromCallees(g, own, r, x, n) == Sum(listing, (c: Id) => Upto(g, own, r, x, n, c))
    decreases n
  {
    hide Lists, Acyclic, DistinctCalls, Flow;
    var now := (c: Id) => Upto(g, own, r, x, n, c);
    if n == 0 {
      SumZero(listing, now);
    } else {
      CalleesAsSum(g, listing, own, r, x, n - 1);
      var d := g[x][n - 1];
      var before := (c: Id) => Upto(g, own, r, x, n - 1, c);
      var last := (c: Id) => if c == d then Flow(g, own, r, x, d) else 0.0;
      CalleesStep(g, own, r, x, n - 1);
      forall c | c in listing
        ensures now(c) == before(c) + last(c)
      {
        UptoStep(g, own, r, x, n - 1, c);
      }
      SumSame(listing, now, (c: Id) => before(c) + last(c));
      SumAdd(listing, before, last);
      SumSingle(listing, g, d, Flow(g, own, r, x, d));
    }
  }

  lemma {:induction false} SumOne(xs: seq<Id>, d: Id, v: real)
    requires Distinct(xs)
    ensures Sum(xs, (c: Id) => if c == d then v else 0.0) == if d in xs then v else 0.0
  {
    if xs != [] {
      var rest := xs[..|xs| - 1];
      SumOne(rest, d, v);
      assert xs == rest + [xs[|xs| - 1]];
    }
  }

  lemma SumSingle(listing: seq<Id>, g: Graph, d: Id, v: real)
    requires Lists(listing, g) && d in g
    ensures Sum(listing, (c: Id) => if c == d then v else 0.0) == v
  {
    SumOne(listing, d, v);
  }

  /** A total is the function's own time plus its flows. */
  lemma TotalAsSum(g: Graph, listing: seq<Id>, own: map<Id, real>, r: Ratios, x: Id)
    requires Acyclic(g) && DistinctCalls(g) && Lists(listing, g) && own.Keys == g.Keys && x in g
    ensures Total(g, own, r, x) == own[x] + Sum(listing, (c: Id) => Flow(g, own, r, x, c))
  {
    hide Acyclic, Lists, DistinctCalls, FromCallees;
    CalleesAsSum(g, listing, own, r, x, |g[x]|);
    assert g[x][..|g[x]|] == g[x];
    SumSame(listing, (c: Id) => Upto(g, own, r, x, |g[x]|, c), (c: Id) => Flow(g, own, r, x, c));
  }

  /** What x gets from its calls to c. */
  function CallPart(r: Ratios, t: map<Id, real>, x: Id, c: Id): (v: real)
  {
    if c != x && c in t && (x, c) in r then r[(x, c)] * t[c] else 0.0
  }

  /** Every function has its own time and, for each of its calls to another function, the call's part of the callee. */
  ghost predicate Solves(g: Graph, own: map<Id, real>, r: Ratios, t: map<Id, real>)
  {
    t.Keys == g.Keys == own.Keys && forall x <- g :: t[x] == own[x] + Sum(g[x], (c: Id) => CallPart(r, t, x, c))
  }

  /** Every call to another function has its part of the callee. */
  ghost predicate CallsSolve(g: Graph, r: Ratios, t: map<Id, real>, ct: map<(Id, Id), real>)
  {
    forall x: Id, c: Id :: Calls(g, x, c) ==> (x, c) in ct && (x, c) in r && c in t && ct[(x, c)] == r[(x, c)] * t[c]
  }

  lemma {:induction false} PartsSum(g: Graph, own: map<Id, real>, r: Ratios, t: map<Id, real>, x: Id, n: nat)
    requires Acyclic(g) && x in g && n <= |g[x]| && own.Keys == g.Keys
    requires forall c <- g[x] :: c != x ==> c in g && c in t && t[c] == Total(g, own, r, c)
    ensures Sum(g[x][..n], (c: Id) => CallPart(r, t, x, c)) == FromCallees(g, own, r, x, n)
    decreases n
  {
    hide Acyclic, Total;
    if n > 0 {
      PartsSum(g, own, r, t, x, n - 1);
      assert g[x][n - 1] in g[x];
      assert g[x][..n] == g[x][..n - 1] + [g[x][n - 1]];
      SumSnoc(g[x][..n - 1], g[x][n - 1], (c: Id) => CallPart(r, t, x, c));
    }
  }

  /** The totals are the one and only solution of these equations. */
  lemma {:induction false} SolutionIs(g: Graph, own: map<Id, real>, r: Ratios, t: map<Id, real>, x: Id)
    requires Acyclic(g) && Solves(g, own, r, t) && x in g
    ensures t[x] == Total(g, own, r, x)
    decreases Below(g, x)
  {
    hide FromCallees, Acyclic, Below, Closed;
    forall c | c in g[x] && c != x
      ensures c in g && t[c] == Total(g, own, r, c)
    {
      CalleeBelow(g, x, c);
      SolutionIs(g, own, r, t, c);
    }
    PartsSum(g, own, r, t, x, |g[x]|);
    assert g[x][..|g[x]|] == g[x];
  }

  lemma TotalsSolve(g: Graph, own: map<Id, real>, r: Ratios, t: map<Id, real>)
    requires Acyclic(g) && own.Keys == g.Keys == t.Keys && forall x <- t :: t[x] == Total(g, own, r, x)
    ensures Solves(g, own, r, t)
  {
    hide FromCallees, SameScc;
    forall x <- g
      ensures t[x] == own[x] + Sum(g[x], (c: Id) => CallPart(r, t, x, c))
    {
      PartsSum(g, own, r, t, x, |g[x]|);
      assert g[x][..|g[x]|] == g[x];
    }
  }

  // ---------------------------------------------------------------- conservation

  /** The part of c's total that is handed out to callers. */
  ghost function HandedOut(g: Graph, listing: seq<Id>, r: Ratios, c: Id): (t: real)
  {
    Sum(listing, (x: Id) => if Calls(g, x, c) then RatioOf(r, x, c) else 0.0)
  }

  /** The balance of every propagation, whatever the ratios: each function keeps what it does not hand
      out, and all that is kept adds up to all own time. */
  lemma Balance(g: Graph, listing: seq<Id>, own: map<Id, real>, r: Ratios)
    requires Acyclic(g) && DistinctCalls(g) && Lists(listing, g) && own.Keys == g.Keys
    ensures Sum(listing, (c: Id) => TotalOr0(g, own, r, c) * (1.0 - HandedOut(g, listing, r, c)))
            == Sum(listing, (x: Id) => OwnOr0(own, x))
  {
    hide Acyclic, DistinctCalls, Lists, TotalOr0, HandedOut, Flow, OwnOr0;
    Rows(g, listing, own, r);
    SwapFlows(g, listing, own, r);
    Columns(g, listing, own, r);
  }

  lemma Rows(g: Graph, listing: seq<Id>, own: map<Id, real>, r: Ratios)
    requires Acyclic(g) && DistinctCalls(g) && Lists(listing, g) && own.Keys == g.Keys
    ensures Sum(listing, (x: Id) => TotalOr0(g, own, r, x)) ==
            Sum(listing, (x: Id) => OwnOr0(own, x)) + Sum(listing, (x: Id) => Sum(listing, (c: Id) => Flow(g, own, r, x, c)))
  {
    hide Acyclic, DistinctCalls, Flow, Total;
    var total := (x: Id) => TotalOr0(g, own, r, x);
    var self := (x: Id) => OwnOr0(own, x);
    var row := (x: Id) => Sum(listing, (c: Id) => Flow(g, own, r, x, c));
    forall x | x in listing
      ensures total(x) == self(x) + row(x)
    {
      TotalAsSum(g, listing, own, r, x);
    }
    SumSame(listing, total, (x: Id) => self(x) + row(x));
    SumAdd(listing, self, row);
  }

  lemma Columns(g: Graph, listing: seq<Id>, own: map<Id, real>, r: Ratios)
    requires Acyclic(g) && own.Keys == g.Keys
    ensures Sum(listing, (c: Id) => TotalOr0(g, own, r, c)) ==
            Sum(listing, (c: Id) => TotalOr0(g, own, r, c) * (1.0 - HandedOut(g, listing, r, c)))
            + Sum(listing, (c: Id) => Sum(listing, (x: Id) => Flow(g, own, r, x, c)))
  {
    hide Acyclic, Flow, TotalOr0, HandedOut;
    var total := (c: Id) => TotalOr0(g, own, r, c);
    var kept := (c: Id) => TotalOr0(g, own, r, c) * (1.0 - HandedOut(g, listing, r, c));
    var col := (c: Id) => Sum(listing, (x: Id) => Flow(g, own, r, x, c));
    forall c | c in listing
      ensures total(c) == kept(c) + col(c)
    {
      ColumnIs(g, listing, own, r, c);
    }
    SumSame(listing, total, (c: Id) => kept(c) + col(c));
    SumAdd(listing, kept, col);
  }

  lemma SwapFlows(g: Graph, listing: seq<Id>, own: map<Id, real>, r: Ratios)
    requires Acyclic(g) && own.Keys == g.Keys
    ensures Sum(listing, (x: Id) => Sum(listing, (c: Id) => Flow(g, own, r, x, c)))
            == Sum(listing, (c: Id) => Sum(listing, (x: Id) => Flow(g, own, r, x, c)))
  {
    hide Acyclic, Flow;
    var h := (x: Id, c: Id) => Flow(g, own, r, x, c);
    SumSwap(listing, listing, h);
    forall x | x in listing
      ensures Sum(listing, (c: Id) => Flow(g, own, r, x, c)) == Sum(listing, (c: Id) => h(x, c))
    {
      SumSame(listing, (c: Id) => Flow(g, own, r, x, c), (c: Id) => h(x, c));
    }
    forall c | c in listing
      ensures Sum(listing, (x: Id) => Flow(g, own, r, x, c)) == Sum(listing, (x: Id) => h(x, c))
    {
      SumSame(listing, (x: Id) => Flow(g, own, r, x, c), (x: Id) => h(x, c));
    }
    SumSame(listing, (x: Id) => Sum(listing, (c: Id) => Flow(g, own, r, x, c)), (x: Id) => Sum(listing, (c: Id) => h(x, c)));
    SumSame(listing, (c: Id) => Sum(listing, (x: Id) => Flow(g, own, r, x, c)), (c: Id) => Sum(listing, (x: Id) => h(x, c)));
  }

  lemma ColumnIs(g: Graph, listing: seq<Id>, own: map<Id, real>, r: Ratios, c: Id)
    requires Acyclic(g) && own.Keys == g.Keys
    ensures Sum(listing, (x: Id) => Flow(g, own, r, x, c)) == TotalOr0(g, own, r, c) * HandedOut(g, listing, r, c)
  {
    hide Acyclic, Total;
    var t := TotalOr0(g, own, r, c);
    var share := (x: Id) => if Calls(g, x, c) then RatioOf(r, x, c) else 0.0;
    SumScale(listing, share, t);
    SumSame(listing, (x: Id) => Flow(g, own, r, x, c), (x: Id) => share(x) * t);
  }

  // ---------------------------------------------------------------- the profile object

  class TimedProfile {
    const graph: Graph
    const listing: seq<Id>
    const count: Counts
    const own: map<Id, real>
    const cycleOf: CycleOf               // what find_cycles found
    var ratio: Ratios                    // the field `ratio` of the calls that have one
    var total: map<Id, real>             // outevent of functions
    var callTotal: map<(Id, Id), real>   // outevent of calls
    var whole: real                      // outevent of the profile

    constructor (graph: Graph, listing: seq<Id>, count: Counts, own: map<Id, real>, cycleOf: CycleOf)
      ensures this.graph == graph && this.listing == listing && this.count == count && this.own == own && this.cycleOf == cycleOf
      ensures ratio == map[] && total == map[] && callTotal == map[]
    {
      this.graph, this.listing, this.count, this.own, this.cycleOf := graph, listing, count, own, cycleOf;
      ratio, total, callTotal, whole := map[], map[], map[], 0.0;
    }

    ghost predicate WellFormed()
    {
      Acyclic(graph) && DistinctCalls(graph) && Lists(listing, graph) && own.Keys == graph.Keys
    }

    /** The totals of functions and cycles over the calls of the functions in `fs`. */
    ghost predicate TotalsOver(fs: seq<Id>, t: map<Id, real>, ct: map<nat, real>)
    {
      && t.Keys == graph.Keys && ct.Keys == CycleIds(cycleOf)
      && (forall c <- t :: t[c] == Sum(fs, (x: Id) => Contribution(graph, count, x, c)))
      && (forall k <- ct :: ct[k] == Sum(fs, (x: Id) => CycleEntering(graph, count, cycleOf, k, x)))
    }

    /** call_ratios, pass 1 */
    method IncomingTotals() returns (t: map<Id, real>, ct: map<nat, real>)
      requires Closed(graph) && DistinctCalls(graph) && Lists(listing, graph)
      ensures t.Keys == graph.Keys && ct.Keys == CycleIds(cycleOf)
      ensures forall c <- t :: t[c] == Incoming(graph, listing, count, c)
      ensures forall k <- ct :: ct[k] == CycleIncoming(graph, listing, count, cycleOf, k)
    {
      hide CycleEntering, Contribution;
      t := map f | f in graph :: 0.0;
      ct := map k | k in CycleIds(cycleOf) :: 0.0;
      for k := 0 to |listing|
        invariant TotalsOver(listing[..k], t, ct)
      {
        hide TotalsOver;
        ghost var t0, ct0 := t, ct;
        TotalsKeys(listing[..k], t, ct);
        t, ct := AddCallsOf(listing[k], k, t, ct);
        assert listing[..k + 1] == listing[..k] + [listing[k]];
        TotalsSnoc(listing[..k], listing[k], t0, ct0, t, ct);
      }
      assert listing[..|listing|] == listing;
    }

    lemma TotalsKeys(fs: seq<Id>, t: map<Id, real>, ct: map<nat, real>)
      requires TotalsOver(fs, t, ct)
      ensures t.Keys == graph.Keys && ct.Keys == CycleIds(cycleOf)
    {
    }

    lemma TotalsSnoc(fs: seq<Id>, f: Id, t0: map<Id, real>, ct0: map<nat, real>, t: map<Id, real>, ct: map<nat, real>)
      requires TotalsOver(fs, t0, ct0) && t.Keys == t0.Keys && ct.Keys == ct0.Keys
      requires forall c <- t :: t[c] == t0[c] + Contribution(graph, count, f, c)
      requires forall k <- ct :: ct[k] == ct0[k] + CycleEntering(graph, count, cycleOf, k, f)
      ensures TotalsOver(fs + [f], t, ct)
    {
      hide Sum, CycleEntering, Contribution;
      forall c <- t
        ensures t[c] == Sum(fs + [f], (x: Id) => Contribution(graph, count, x, c))
      {
        SumSnoc(fs, f, (x: Id) => Contribution(graph, count, x, c));
      }
      forall k <- ct
        ensures ct[k] == Sum(fs + [f], (x: Id) => CycleEntering(graph, count, cycleOf, k, x))
      {
        SumSnoc(fs, f, (x: Id) => CycleEntering(graph, count, cycleOf, k, x));
      }
    }

    /** The calls of f among `cs` have been added to the cycle totals. */
    ghost predicate CyclesOver(f: Id, cs: seq<Id>, ct0: map<nat, real>, ct: map<nat, real>)
    {
      && ct.Keys == ct0.Keys == CycleIds(cycleOf)
      && forall k <- ct :: ct[k] == ct0[k] + Sum(cs, (c: Id) => CycleContribution(graph, count, cycleOf, k, f, c))
    }

    method AddCallsOf(f: Id, ghost k: nat, t0: map<Id, real>, ct0: map<nat, real>) returns (t: map<Id, real>, ct: map<nat, real>)
      requires Closed(graph) && DistinctCalls(graph) && Lists(listing, graph) && k < |listing| && f == listing[k]
      requires t0.Keys == graph.Keys && ct0.Keys == CycleIds(cycleOf)
      ensures t.Keys == graph.Keys && forall c <- t :: c in t0 && t[c] == t0[c] + Contribution(graph, count, f, c)
      ensures ct.Keys == ct0.Keys && forall k <- ct :: ct[k] == ct0[k] + CycleEntering(graph, count, cycleOf, k, f)
    {
      t, ct := t0, ct0;
      assert f in listing;
      for i := 0 to |graph[f]|
        invariant t.Keys == graph.Keys
        invariant forall c <- t :: c in t0 && t[c] == t0[c] + if c in graph[f][..i] then Contribution(graph, count, f, c) else 0.0
        invariant CyclesOver(f, graph[f][..i], ct0, ct)
      {
        var c := graph[f][i];
        assert Edge(graph, f, c) && graph[f][..i + 1] == graph[f][..i] + [c];
        CyclesSnoc(f, graph[f][..i], c, ct0, ct);
        hide CyclesOver;
        if c != f && (f, c) in count {
          t := t[c := t[c] + count[(f, c)]];
          if Enters(cycleOf, f, c) {
            ct := ct[cycleOf[c].value := ct[cycleOf[c].value] + count[(f, c)]];
          }
        }
      }
      assert graph[f][..|graph[f]|] == graph[f];
    }

    lemma CyclesSnoc(f: Id, cs: seq<Id>, c: Id, ct0: map<nat, real>, ct: map<nat, real>)
      requires CyclesOver(f, cs, ct0, ct) && Edge(graph, f, c)
      ensures Enters(cycleOf, f, c) ==> cycleOf[c].value in ct
      ensures CyclesOver(f, cs + [c], ct0,
                         if c != f && (f, c) in count && Enters(cycleOf, f, c)
                         then ct[cycleOf[c].value := ct[cycleOf[c].value] + count[(f, c)]] else ct)
    {
      hide Sum;
      forall k <- ct
        ensures Sum(cs + [c], (c: Id) => CycleContribution(graph, count, cycleOf, k, f, c))
                == Sum(cs, (c: Id) => CycleContribution(graph, count, cycleOf, k, f, c)) + CycleContribution(graph, count, cycleOf, k, f, c)
      {
        SumSnoc(cs, c, (c: Id) => CycleContribution(graph, count, cycleOf, k, f, c));
      }
    }

    /** The calls of the functions in `fs`, and no others, have their ratio. */
    ghost predicate RatiosOf(fs: seq<Id>)
      reads `ratio
    {
      && (forall x: Id, c: Id :: (x, c) in ratio <==> Calls(graph, x, c) && x in fs)
      && (forall x: Id, c: Id :: (x, c) in ratio ==> ratio[(x, c)] == CallRatio(graph, listing, count, cycleOf, x, c))
    }

    method SetRatios(fs: seq<Id>, f: Id, totals: map<Id, real>, cycleTotals: map<nat, real>)
      requires Closed(graph) && DistinctCalls(graph) && f in graph && f !in fs && RatiosOf(fs)
      requires totals.Keys == graph.Keys && forall c <- totals :: totals[c] == Incoming(graph, listing, count, c)
      requires cycleTotals.Keys == CycleIds(cycleOf)
      requires forall k <- cycleTotals :: cycleTotals[k] == CycleIncoming(graph, listing, count, cycleOf, k)
      modifies `ratio
      ensures RatiosOf(fs + [f])
    {
      hide Incoming, CycleIncoming, Ratio;
      for i := 0 to |graph[f]|
        invariant forall x: Id, c: Id :: (x, c) in ratio <==> Calls(graph, x, c) && (x in fs || (x == f && c in graph[f][..i]))
        invariant forall x: Id, c: Id :: (x, c) in ratio ==> ratio[(x, c)] == CallRatio(graph, listing, count, cycleOf, x, c)
      {
        var c := graph[f][i];
        assert Edge(graph, f, c) && graph[f][..i + 1] == graph[f][..i] + [c];
        if c != f {
          if (f, c) in count {
            var total := if Enters(cycleOf, f, c) then cycleTotals[cycleOf[c].value] else totals[c];
            ratio := ratio[(f, c) := Ratio(count[(f, c)], total)];
          } else {
            ratio := ratio[(f, c) := 0.0];
          }
        }
      }
      assert graph[f][..|graph[f]|] == graph[f];
    }

    /** call_ratios: every call to another function gets its ratio, once. */
    method CallRatios()
      requires Closed(graph) && DistinctCalls(graph) && Lists(listing, graph) && ratio == map[]
      modifies `ratio
      ensures RatiosOf(listing)
      ensures forall x: Id, c: Id :: Calls(graph, x, c) ==> (x, c) in ratio && IsCallRatio(graph, listing, count, cycleOf, x, c, ratio[(x, c)])
    {
      var totals, cycleTotals := IncomingTotals();
      for k := 0 to |listing|
        invariant RatiosOf(listing[..k])
      {
        hide RatiosOf;
        var f := listing[k];
        assert f in listing && f !in listing[..k];
        SetRatios(listing[..k], f, totals, cycleTotals);
        assert listing[..k + 1] == listing[..k] + [f];
      }
      assert listing[..|listing|] == listing;
      RatiosExact();
    }

    lemma RatiosExact()
      requires RatiosOf(listing) && Lists(listing, graph)
      ensures forall x: Id, c: Id :: Calls(graph, x, c) ==> (x, c) in ratio && IsCallRatio(graph, listing, count, cycleOf, x, c, ratio[(x, c)])
    {
      hide CallRatio, IsCallRatio;
      forall x: Id, c: Id | Calls(graph, x, c)
        ensures (x, c) in ratio && IsCallRatio(graph, listing, count, cycleOf, x, c, ratio[(x, c)])
      {
        RatioExact(graph, listing, count, cycleOf, x, c);
      }
    }

    /** The totals and subtotals found so far are right. */
    ghost predicate TotalsRight()
      reads `total, `callTotal, `ratio
      requires WellFormed()
    {
      && total.Keys <= graph.Keys && (forall x <- total :: total[x] == Total(graph, own, ratio, x))
      && (forall x: Id, c: Id :: (x, c) in callTotal ==>
            Calls(graph, x, c) && c in graph && callTotal[(x, c)] == RatioOf(ratio, x, c) * Total(graph, own, ratio, c))
    }

    /** Integrated functions have a subtotal for every call to another function; apart from them only
        functions being integrated have subtotals. */
    ghost predicate CallsDone(busy: set<Id>)
      reads `total, `callTotal
    {
      && (forall x: Id, c: Id :: x in total && Calls(graph, x, c) ==> (x, c) in callTotal)
      && (forall x: Id, c: Id :: (x, c) in callTotal ==> x in total || x in busy)
    }

    /** Integrating f adds results for functions that f reaches, and for no others. */
    twostate predicate OnlyBelow(f: Id)
      reads `total, `callTotal
    {
      && old(total.Keys) <= total.Keys && old(callTotal.Keys) <= callTotal.Keys
      && (forall x <- total :: x in old(total) || Reach(graph, f, x))
      && (forall x: Id, c: Id :: (x, c) in callTotal ==> (x, c) in old(callTotal) || Reach(graph, f, x))
    }

    ghost predicate AllRatios()
      reads `ratio
    {
      forall x: Id, c: Id :: Calls(graph, x, c) ==> (x, c) in ratio
    }

    /** The functions in progress all lead to f. */
    ghost predicate Leads(busy: set<Id>, f: Id)
    {
      f !in busy && forall b <- busy :: Reach(graph, b, f)
    }

    lemma LeadsOn(busy: set<Id>, f: Id, c: Id)
      requires WellFormed() && Leads(busy, f) && Calls(graph, f, c)
      ensures c in graph && Leads(busy + {f}, c) && !Reach(graph, c, f) && Below(graph, c) < Below(graph, f)
      ensures forall x :: Reach(graph, c, x) ==> Reach(graph, f, x)
    {
      hide Reach;
      CalleeBelow(graph, f, c);
      ReachEdge(graph, f, c);
      forall b | b in busy
        ensures Reach(graph, b, c) && b != c
      {
        ReachTrans(graph, b, f, c);
      }
      forall x | Reach(graph, c, x)
        ensures Reach(graph, f, x)
      {
        ReachTrans(graph, f, c, x);
      }
    }

    /** _integrate_function; `busy` are the calls of it in progress. */
    method IntegrateFunction(f: Id, ghost busy: set<Id>) returns (t: real)
      requires WellFormed() && f in graph && AllRatios() && TotalsRight() && CallsDone(busy) && Leads(busy, f)
      modifies `total, `callTotal
      ensures TotalsRight() && CallsDone(busy) && OnlyBelow(f)
      ensures f in total && t == total[f]
      decreases Below(graph, f), 1
    {
      hide Total, Reach, Below, FromCallees, Flow, RatioOf, Acyclic;
      if f !in total {
        t := own[f];
        ReachSelf(graph, f);
        NoCallees(f);
        for i := 0 to |graph[f]|
          invariant TotalsRight() && CallsDone(busy + {f}) && OnlyBelow(f) && f !in total
          invariant forall c: Id :: (f, c) in callTotal <==> c != f && c in graph[f][..i]
          invariant t == own[f] + FromCallees(graph, own, ratio, f, i)
        {
          var c := graph[f][i];
          CalleesStep(graph, own, ratio, f, i);
          assert Edge(graph, f, c) && graph[f][..i + 1] == graph[f][..i] + [c] && c !in graph[f][..i];
          if c != f {
            LeadsOn(busy, f, c);
            var subtotal := IntegrateCall(f, c, busy);
            t := t + subtotal;
          }
        }
        assert graph[f][..|graph[f]|] == graph[f];
        Record(f, t, busy);
      }
      t := total[f];
    }

    method Record(f: Id, t: real, ghost busy: set<Id>)
      requires WellFormed() && f in graph && f !in total && TotalsRight() && CallsDone(busy + {f}) && f !in busy
      requires forall c: Id :: (f, c) in callTotal <==> c != f && c in graph[f]
      requires t == own[f] + FromCallees(graph, own, ratio, f, |graph[f]|)
      modifies `total
      ensures total == old(total)[f := t] && TotalsRight() && CallsDone(busy)
    {
      hide Total, FromCallees, Acyclic, RatioOf;
      TotalIs(f);
      total := total[f := t];
    }

    lemma NoCallees(f: Id)
      requires WellFormed() && f in graph
      ensures FromCallees(graph, own, ratio, f, 0) == 0.0
    {
    }

    lemma TotalIs(f: Id)
      requires WellFormed() && f in graph
      ensures Total(graph, own, ratio, f) == own[f] + FromCallees(graph, own, ratio, f, |graph[f]|)
    {
      hide FromCallees;
    }

    /** _integrate_call */
    method IntegrateCall(f: Id, c: Id, ghost busy: set<Id>) returns (subtotal: real)
      requires WellFormed() && f in graph && Calls(graph, f, c) && c in graph && AllRatios() && (f, c) !in callTotal
      requires TotalsRight() && CallsDone(busy + {f}) && f !in total && Leads(busy + {f}, c)
      requires !Reach(graph, c, f) && Below(graph, c) < Below(graph, f)
      requires forall x :: Reach(graph, c, x) ==> Reach(graph, f, x)
      modifies `total, `callTotal
      ensures TotalsRight() && CallsDone(busy + {f}) && OnlyBelow(f) && f !in total
      ensures subtotal == RatioOf(ratio, f, c) * Total(graph, own, ratio, c)
      ensures forall d: Id :: (f, d) in callTotal <==> (f, d) in old(callTotal) || d == c
      decreases Below(graph, f), 0
    {
      hide Total, Reach, Below;
      var v := IntegrateFunction(c, busy + {f});
      ReachSelf(graph, f);
      subtotal := ratio[(f, c)] * v;
      callTotal := callTotal[(f, c) := subtotal];
    }

    /** integrate: every function gets its total, every call its subtotal, and the profile all own time. */
    method Integrate()
      requires WellFormed() && AllRatios() && total == map[] && callTotal == map[]
      modifies `total, `callTotal, `whole
      ensures total.Keys == graph.Keys && TotalsRight() && CallsDone({})
      ensures Solves(graph, own, ratio, total)
      ensures CallsSolve(graph, ratio, total, callTotal)
      ensures whole == Sum(listing, (x: Id) => OwnOr0(own, x))
    {
      hide TotalsRight, CallsDone, Reach, Acyclic, DistinctCalls, OwnOr0, Solves, CallsSolve;
      var sum := 0.0;
      NothingDone();
      for k := 0 to |listing|
        invariant TotalsRight() && CallsDone({}) && forall f <- listing[..k] :: f in total
        invariant sum == Sum(listing[..k], (x: Id) => OwnOr0(own, x))
      {
        var f := listing[k];
        assert f in listing && listing[..k + 1] == listing[..k] + [f];
        SumSnoc(listing[..k], f, (x: Id) => OwnOr0(own, x));
        OwnIs(f);
        sum := sum + own[f];
        var t := IntegrateFunction(f, {});
      }
      assert listing[..|listing|] == listing;
      KeysInside();
      SolvedNow();
      whole := sum;
    }

    lemma SolvedNow()
      requires WellFormed() && AllRatios() && TotalsRight() && CallsDone({}) && total.Keys == graph.Keys
      ensures Solves(graph, own, ratio, total)
      ensures CallsSolve(graph, ratio, total, callTotal)
    {
      hide Total, SameScc;
      TotalsSolve(graph, own, ratio, total);
    }

    /** call_ratios, then integrate: the totals of the functions that nobody calls, and what starved functions keep,
        add up to the profile's total. */
    method Propagate(ghost sets: seq<set<Id>>)
      requires WellFormed() && Cycles.Exact(graph, cycleOf, sets) && NonNegative(count)
      requires ratio == map[] && total == map[] && callTotal == map[]
      modifies `ratio, `total, `callTotal, `whole
      ensures total.Keys == graph.Keys && TotalsRight() && whole == Sum(listing, (x: Id) => OwnOr0(own, x))
      ensures UncalledTotal(graph, listing, total) + StarvedTotal(graph, listing, count, total) == whole
      ensures (forall c <- graph :: !Starved(graph, listing, count, c)) ==> UncalledTotal(graph, listing, total) == whole
    {
      assert Closed(graph);
      hide TotalsRight, CallsDone, Acyclic, DistinctCalls, OwnOr0, Cycles.Exact, Incoming, UncalledTotal, StarvedTotal, Starved, Solves, CallsSolve;
      CallRatios();
      RatiosSet();
      Integrate();
      NoCyclesLeft(graph, cycleOf, sets);
      TotalsAre();
      RootsExact(graph, listing, count, cycleOf, own, ratio, total);
      RootsConserve(graph, listing, count, cycleOf, own, ratio, total);
    }

    lemma RatiosSet()
      requires RatiosOf(listing) && Lists(listing, graph)
      ensures AllRatios()
      ensures forall x: Id, c: Id :: Calls(graph, x, c) ==> (x, c) in ratio && ratio[(x, c)] == CallRatio(graph, listing, count, cycleOf, x, c)
    {
      hide CallRatio;
    }

    lemma TotalsAre()
      requires WellFormed() && TotalsRight() && total.Keys == graph.Keys
      ensures forall c <- total :: total[c] == TotalOr0(graph, own, ratio, c)
    {
    }

    lemma NothingDone()
      requires WellFormed() && total == map[] && callTotal == map[]
      ensures TotalsRight() && CallsDone({})
    {
    }

    lemma KeysInside()
      requires WellFormed() && TotalsRight()
      ensures total.Keys <= graph.Keys
    {
    }

    lemma OwnIs(f: Id)
      requires f in own
      ensures OwnOr0(own, f) == own[f]
    {
    }
  }

  // ---------------------------------------------------------------- what the user sees

  /** No other function calls c. */
  ghost predicate Uncalled(g: Graph, c: Id)
  {
    forall x :: !Calls(g, x, c)
  }

  /** What the functions that nobody calls hold together. */
  ghost function UncalledTotal(g: Graph, listing: seq<Id>, total: map<Id, real>): (r: real)
  {
    Sum(listing, (c: Id) => UncalledPart(g, total, c))
  }

  ghost function UncalledPart(g: Graph, total: map<Id, real>, c: Id): (r: real)
  {
    if Uncalled(g, c) && c in total then total[c] else 0.0
  }

  /** Without recursion find_cycles finds no cycle. */
  lemma NoCyclesLeft(g: Graph, cy: CycleOf, sets: seq<set<Id>>)
    requires Acyclic(g) && Cycles.Exact(g, cy, sets)
    ensures forall c <- cy :: cy[c].None?
  {
    hide SameScc;
  }

  /** c is called, but no call brings anything in. */
  ghost predicate Starved(g: Graph, listing: seq<Id>, count: Counts, c: Id)
  {
    !Uncalled(g, c) && Incoming(g, listing, count, c) == 0.0
  }

  /** What starved functions keep: each hands out all of its time once per call with a count, as 0/0 is taken as 1. */
  ghost function StarvedTotal(g: Graph, listing: seq<Id>, count: Counts, total: map<Id, real>): (r: real)
  {
    Sum(listing, (c: Id) => StarvedPart(g, listing, count, total, c))
  }

  ghost function StarvedPart(g: Graph, listing: seq<Id>, count: Counts, total: map<Id, real>, c: Id): (r: real)
  {
    if Starved(g, listing, count, c) && c in total then total[c] * (1.0 - Callers(g, listing, count, c)) else 0.0
  }

  lemma PartsAre(g: Graph, listing: seq<Id>, count: Counts, cy: CycleOf, r: Ratios, total: map<Id, real>, c: Id)
    requires NonNegative(count) && (c in cy ==> cy[c].None?) && c in total
    requires forall x: Id, c: Id :: Calls(g, x, c) ==> (x, c) in r && r[(x, c)] == CallRatio(g, listing, count, cy, x, c)
    ensures UncalledPart(g, total, c) + StarvedPart(g, listing, count, total, c) == total[c] * (1.0 - HandedOut(g, listing, r, c))
  {
    hide Incoming, CallRatio, Callers, HandedOut, Uncalled;
    HandedOutIs(g, listing, count, cy, r, c);
  }

  /** With the ratios of call_ratios, if no call has a negative count: the totals of the functions nobody calls, and
      what starved functions keep, add up to all own time. */
  lemma RootsExact(g: Graph, listing: seq<Id>, count: Counts, cy: CycleOf, own: map<Id, real>, r: Ratios, total: map<Id, real>)
    requires (forall c <- cy :: cy[c].None?)
    requires Acyclic(g) && DistinctCalls(g) && Lists(listing, g) && own.Keys == g.Keys && NonNegative(count)
    requires forall x: Id, c: Id :: Calls(g, x, c) ==> (x, c) in r && r[(x, c)] == CallRatio(g, listing, count, cy, x, c)
    requires total.Keys == g.Keys && forall c <- total :: total[c] == TotalOr0(g, own, r, c)
    ensures UncalledTotal(g, listing, total) + StarvedTotal(g, listing, count, total) == Sum(listing, (x: Id) => OwnOr0(own, x))
  {
    hide Sum, Acyclic, TotalOr0, CallRatio, HandedOut, UncalledPart, StarvedPart, Calls;
    Balance(g, listing, own, r);
    var kept := (c: Id) => UncalledPart(g, total, c);
    var starved := (c: Id) => StarvedPart(g, listing, count, total, c);
    SumAdd(listing, kept, starved);
    forall c | c in listing
      ensures kept(c) + starved(c) == TotalOr0(g, own, r, c) * (1.0 - HandedOut(g, listing, r, c))
    {
      PartsAre(g, listing, count, cy, r, total, c);
    }
    SumSame(listing, (c: Id) => kept(c) + starved(c), (c: Id) => TotalOr0(g, own, r, c) * (1.0 - HandedOut(g, listing, r, c)));
  }

  /** In particular, if every called function has a positive incoming total, the totals of the functions nobody calls
      add up to all own time. */
  lemma RootsConserve(g: Graph, listing: seq<Id>, count: Counts, cy: CycleOf, own: map<Id, real>, r: Ratios, total: map<Id, real>)
    requires (forall c <- cy :: cy[c].None?)
    requires Acyclic(g) && DistinctCalls(g) && Lists(listing, g) && own.Keys == g.Keys && NonNegative(count)
    requires forall x: Id, c: Id :: Calls(g, x, c) ==> (x, c) in r && r[(x, c)] == CallRatio(g, listing, count, cy, x, c)
    requires total.Keys == g.Keys && forall c <- total :: total[c] == TotalOr0(g, own, r, c)
    ensures UncalledTotal(g, listing, total) == Sum(listing, (x: Id) => OwnOr0(own, x))
            <==> StarvedTotal(g, listing, count, total) == 0.0
    ensures (forall c <- g :: !Starved(g, listing, count, c)) ==>
              UncalledTotal(g, listing, total) == Sum(listing, (x: Id) => OwnOr0(own, x))
  {
    hide Acyclic, TotalOr0, Incoming, CallRatio, Callers, Starved, UncalledTotal;
    RootsExact(g, listing, count, cy, own, r, total);
    if forall c <- g :: !Starved(g, listing, count, c) {
      SumZero(listing, (c: Id) => StarvedPart(g, listing, count, total, c));
    }
  }

  lemma HandedOutIs(g: Graph, listing: seq<Id>, count: Counts, cy: CycleOf, r: Ratios, c: Id)
    requires NonNegative(count) && (c in cy ==> cy[c].None?)
    requires forall x: Id, c: Id :: Calls(g, x, c) ==> (x, c) in r && r[(x, c)] == CallRatio(g, listing, count, cy, x, c)
    ensures Incoming(g, listing, count, c) >= 0.0
    ensures HandedOut(g, listing, r, c) == if Incoming(g, listing, count, c) > 0.0 then 1.0 else Callers(g, listing, count, c)
    ensures Uncalled(g, c) ==> HandedOut(g, listing, r, c) == 0.0
  {
    hide Incoming, CallRatio, CallTotal, Callers;
    var share := (x: Id) => if Calls(g, x, c) then RatioOf(r, x, c) else 0.0;
    SharesExact(g, listing, count, cy, c);
    SumSame(listing, share, (x: Id) => Share(g, listing, count, cy, x, c));
    if Uncalled(g, c) {
      SumZero(listing, share);
    }
  }
}
