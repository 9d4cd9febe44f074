/** Call profiles: children before parents, totals over subtrees, and folding that loses nothing. */
module GenProfile {
  import opened Wrappers

  /** A call stack, outermost function first. */
  type Stack = seq<string>

  /** Values per metric. */
  type Data = map<string, int>

  type Calls = map<Stack, Data>

  const CALLS := "calls"

  // ---------------------------------------------------------------- sums

  ghost function Sum(s: set<Stack>, f: Stack -> int): (r: int)
    decreases |s|
  {
    if s == {} then 0 else var x :| x in s; f(x) + Sum(s - {x}, f)
  }

  lemma {:induction false} SumAt(s: set<Stack>, f: Stack -> int, x: Stack)
    requires x in s
    ensures Sum(s, f) == f(x) + Sum(s - {x}, f)
    decreases |s|
  {
    var y :| y in s && Sum(s, f) == f(y) + Sum(s - {y}, f);
    if y != x {
      SumAt(s - {y}, f, x);
      SumAt(s - {x}, f, y);
      assert s - {y} - {x} == s - {x} - {y};
    }
  }

  lemma SumAdd(s: set<Stack>, f: Stack -> int, x: Stack)
    requires x !in s
    ensures Sum(s + {x}, f) == Sum(s, f) + f(x)
  {
    SumAt(s + {x}, f, x);
    assert s + {x} - {x} == s;
  }

  lemma {:induction false} SumUnion(a: set<Stack>, b: set<Stack>, f: Stack -> int)
    requires a !! b
    ensures Sum(a + b, f) == Sum(a, f) + Sum(b, f)
    decreases |b|
  {
    if b == {} {
      assert a + b == a;
    } else {
      var x :| x in b;
      SumAt(b, f, x);
      SumUnion(a, b - {x}, f);
      SumAdd(a + (b - {x}), f, x);
      assert a + (b - {x}) + {x} == a + b;
    }
  }

  lemma {:induction false} SumSame(s: set<Stack>, f: Stack -> int, g: Stack -> int)
    requires forall x <- s :: f(x) == g(x)
    ensures Sum(s, f) == Sum(s, g)
    decreases |s|
  {
    if s != {} {
      var x :| x in s;
      SumAt(s, f, x);
      SumAt(s, g, x);
      SumSame(s - {x}, f, g);
    }
  }

  // ---------------------------------------------------------------- the call tree

  function Parent(s: Stack): (p: Stack)
    requires s != []
  {
    s[..|s| - 1]
  }

  function Kids(calls: Calls, s: Stack): (r: set<Stack>)
  {
    set t | t in calls && t != [] && Parent(t) == s
  }

  /** A call without a calling call. */
  function Roots(calls: Calls): (r: set<Stack>)
  {
    set t | t in calls && (t == [] || Parent(t) !in calls)
  }

  /** t is s or below it: every stack in between has been called. */
  predicate Under(calls: Calls, s: Stack, t: Stack)
  {
    |s| <= |t| && t[..|s|] == s && forall i :: |s| <= i <= |t| ==> t[..i] in calls
  }

  function Subtree(calls: Calls, s: Stack): (r: set<Stack>)
  {
    set t | t in calls && Under(calls, s, t)
  }

  lemma UnderKid(calls: Calls, s: Stack, t: Stack)
    requires s in calls
    ensures Under(calls, s, t) <==> t == s || (|s| < |t| && t[..|s| + 1] in Kids(calls, s) && Under(calls, t[..|s| + 1], t))
  {
    if |s| < |t| {
      var c := t[..|s| + 1];
      assert Parent(c) == t[..|s|];
      if Under(calls, s, t) {
        assert t[..|s| + 1] in calls;
      }
      if c in Kids(calls, s) && Under(calls, c, t) {
        forall i | |s| <= i <= |t|
          ensures t[..i] in calls
        {
          if i == |s| { assert t[..i] == s; }
        }
      }
    } else if |s| == |t| {
      assert t[..|s|] == t;
    }
  }

  /** Everything below the kids in ks. */
  function Below(calls: Calls, ks: set<Stack>): (r: set<Stack>)
  {
    set t | t in calls && exists c :: c in ks && Under(calls, c, t)
  }

  lemma SubtreeIs(calls: Calls, s: Stack)
    requires s in calls
    ensures Subtree(calls, s) == {s} + Below(calls, Kids(calls, s))
    ensures s !in Below(calls, Kids(calls, s))
  {
    forall t | t in calls
      ensures t in Subtree(calls, s) <==> t == s || t in Below(calls, Kids(calls, s))
    {
      UnderKid(calls, s, t);
      if t in Below(calls, Kids(calls, s)) {
        var c :| c in Kids(calls, s) && Under(calls, c, t);
        assert c == t[..|s| + 1];
      }
    }
  }

  /** Nothing is below two of them. */
  ghost predicate Apart(calls: Calls, ks: set<Stack>)
  {
    forall c, d, t :: c in ks && d in ks && c != d && Under(calls, c, t) ==> !Under(calls, d, t)
  }

  lemma KidsApart(calls: Calls, s: Stack)
    ensures Apart(calls, Kids(calls, s))
  {
    forall c, d, t | c in Kids(calls, s) && d in Kids(calls, s) && c != d && Under(calls, c, t)
      ensures !Under(calls, d, t)
    {
      assert |c| == |d|;
    }
  }

  lemma RootsApart(calls: Calls)
    ensures Apart(calls, Roots(calls))
  {
    forall c, d, t | c in Roots(calls) && d in Roots(calls) && c != d && Under(calls, c, t)
      ensures !Under(calls, d, t)
    {
      if |c| < |d| {
        RootBetween(calls, c, d, t);
      } else if |d| < |c| {
        RootBetween(calls, d, c, t);
      }
    }
  }

  lemma RootBetween(calls: Calls, c: Stack, d: Stack, t: Stack)
    requires d in Roots(calls) && |c| < |d|
    ensures !(Under(calls, c, t) && Under(calls, d, t))
  {
    if |d| <= |t| && t[..|d|] == d {
      assert Parent(d) == t[..|d| - 1];
    }
  }

  lemma KidApart(calls: Calls, ks: set<Stack>, c: Stack)
    requires Apart(calls, ks + {c}) && c !in ks
    ensures Below(calls, ks) !! Subtree(calls, c)
    ensures Below(calls, ks + {c}) == Below(calls, ks) + Subtree(calls, c)
  {
    forall t | t in Below(calls, ks)
      ensures t !in Subtree(calls, c)
    {
      var d :| d in ks && Under(calls, d, t);
      assert d in ks + {c} && c in ks + {c};
    }
    forall t | t in Below(calls, ks + {c})
      ensures t in Below(calls, ks) + Subtree(calls, c)
    {
      var d :| d in ks + {c} && Under(calls, d, t);
    }
  }

  /** The sum over the subtree of each call. */
  ghost function SubSum(calls: Calls, f: Stack -> int): (g: Stack -> int)
  {
    (c: Stack) => Sum(Subtree(calls, c), f)
  }

  lemma SubSumAt(calls: Calls, f: Stack -> int, c: Stack)
    ensures SubSum(calls, f)(c) == Sum(Subtree(calls, c), f)
  {
  }

  /** The sum over what is below some calls is the sum of their subtrees. */
  lemma {:induction false} BelowSum(calls: Calls, ks: set<Stack>, f: Stack -> int)
    requires Apart(calls, ks)
    ensures Sum(Below(calls, ks), f) == Sum(ks, SubSum(calls, f))
    decreases |ks|
  {
    if ks == {} {
      assert Below(calls, ks) == {};
    } else {
      var c :| c in ks;
      var rest := ks - {c};
      assert Sum(Below(calls, rest), f) == Sum(rest, SubSum(calls, f)) by { BelowSum(calls, rest, f); }
      hide *;
      assert rest + {c} == ks;
      BelowStep(calls, rest, c, f);
      SumAt(ks, SubSum(calls, f), c);
      SubSumAt(calls, f, c);
    }
  }

  lemma BelowStep(calls: Calls, ks: set<Stack>, c: Stack, f: Stack -> int)
    requires Apart(calls, ks + {c}) && c !in ks
    ensures Sum(Below(calls, ks + {c}), f) == Sum(Below(calls, ks), f) + Sum(Subtree(calls, c), f)
  {
    hide *;
    KidApart(calls, ks, c);
    SumUnion(Below(calls, ks), Subtree(calls, c), f);
  }

  /** A subtree's sum: the call itself and the subtrees of its kids. */
  lemma SubtreeSum(calls: Calls, s: Stack, f: Stack -> int)
    requires s in calls
    ensures Sum(Subtree(calls, s), f) == f(s) + Sum(Kids(calls, s), SubSum(calls, f))
  {
    hide Below, Subtree, Kids, Sum, SubSum;
    SubtreeIs(calls, s);
    KidsApart(calls, s);
    BelowSum(calls, Kids(calls, s), f);
    SumAdd(Below(calls, Kids(calls, s)), f, s);
    assert {s} + Below(calls, Kids(calls, s)) == Below(calls, Kids(calls, s)) + {s};
  }

  /** What hangs below s once folded calls are gone: calls that are not folded, with only folded ones in between. */
  function Hoisted(calls: Calls, folds: set<Stack>, s: Stack): (r: set<Stack>)
  {
    set t | t in calls && t !in folds && IsHoisted(calls, folds, s, t)
  }

  predicate IsHoisted(calls: Calls, folds: set<Stack>, s: Stack, t: Stack)
  {
    t != s && Under(calls, s, t) && forall i :: |s| < i < |t| ==> t[..i] in folds
  }

  function Gather(children: map<Stack, set<Stack>>, ks: set<Stack>): (r: set<Stack>)
  {
    set c, t | c in ks && c in children && t in children[c] :: t
  }

  lemma HoistedIs(calls: Calls, folds: set<Stack>, children: map<Stack, set<Stack>>, s: Stack)
    requires s in calls && forall c <- Kids(calls, s) :: c in children && (c in folds ==> children[c] == Hoisted(calls, folds, c))
    ensures Hoisted(calls, folds, s) == (Kids(calls, s) - folds) + Gather(children, Kids(calls, s) * folds)
  {
    forall t | t in calls && t !in folds
      ensures t in Hoisted(calls, folds, s) <==> t in (Kids(calls, s) - folds) + Gather(children, Kids(calls, s) * folds)
    {
      HoistedKid(calls, folds, s, t);
      if t in Gather(children, Kids(calls, s) * folds) {
        var c :| c in Kids(calls, s) * folds && c in children && t in children[c];
        assert c == t[..|s| + 1];
      }
    }
  }

  lemma HoistedKid(calls: Calls, folds: set<Stack>, s: Stack, t: Stack)
    requires s in calls && t in calls && t !in folds
    ensures t in Hoisted(calls, folds, s) <==>
            t in Kids(calls, s) ||
            (|s| < |t| && t[..|s| + 1] in Kids(calls, s) && t[..|s| + 1] in folds && t in Hoisted(calls, folds, t[..|s| + 1]))
  {
    UnderKid(calls, s, t);
    if |s| < |t| {
      var c := t[..|s| + 1];
      if |t| == |s| + 1 {
        assert c == t;
      } else if c in folds && t in Hoisted(calls, folds, c) && c in Kids(calls, s) {
        forall i | |s| < i < |t|
          ensures t[..i] in folds
        {
          if i == |s| + 1 { assert t[..i] == c; }
        }
      }
    }
    if t in Kids(calls, s) {
      assert |t| == |s| + 1;
      assert t[..|s| + 1] == t;
    }
  }

  /** s and what is folded into it: folded calls below it with only folded ones in between. */
  function Absorbed(calls: Calls, folds: set<Stack>, s: Stack): (r: set<Stack>)
  {
    set t | t in calls && Under(calls, s, t) && forall i :: |s| < i <= |t| ==> t[..i] in folds
  }

  /** The calls among `keep`. */
  function Only(calls: Calls, keep: set<Stack>): (r: Calls)
  {
    map t | t in calls && t in keep :: calls[t]
  }

  /** What is folded into s is its subtree among the folded calls. */
  lemma AbsorbedIs(calls: Calls, folds: set<Stack>, keep: set<Stack>, s: Stack)
    requires s in calls && s in keep && (forall t :: |t| > |s| ==> (t in keep <==> t in folds))
    ensures Absorbed(calls, folds, s) == Subtree(Only(calls, keep), s)
  {
    forall t | t in calls
      ensures t in Absorbed(calls, folds, s) <==> t in Subtree(Only(calls, keep), s)
    {
      if t in Absorbed(calls, folds, s) {
        forall i | |s| <= i <= |t|
          ensures t[..i] in Only(calls, keep)
        {
          assert t[..i] in calls;
        }
        assert t[..|t|] == t;
      }
      if t in Subtree(Only(calls, keep), s) {
        forall i | |s| < i <= |t|
          ensures t[..i] in folds
        {
          assert t[..i] in Only(calls, keep);
        }
      }
    }
  }

  lemma FoldedKids(calls: Calls, folds: set<Stack>, s: Stack)
    ensures Kids(Only(calls, folds + {s}), s) == Kids(calls, s) * folds
  {
  }

  /** The sum over what is folded into s: s itself, and what is folded into its folded kids. */
  lemma AbsorbedSum(calls: Calls, folds: set<Stack>, s: Stack, f: Stack -> int, g: Stack -> int)
    requires s in calls && forall c <- Kids(calls, s) * folds :: g(c) == Sum(Absorbed(calls, folds, c), f)
    ensures Sum(Absorbed(calls, folds, s), f) == f(s) + Sum(Kids(calls, s) * folds, g)
  {
    hide Sum, Absorbed, Subtree, Kids, Only, SubSum;
    var keep := folds + {s};
    var only := Only(calls, keep);
    OnlyKeeps(calls, keep, s);
    AbsorbedIs(calls, folds, keep, s);
    FoldedKids(calls, folds, s);
    SubtreeSum(only, s, f);
    forall c | c in Kids(calls, s) * folds
      ensures g(c) == SubSum(only, f)(c)
    {
      KidBelow(calls, s, c);
      AbsorbedIs(calls, folds, keep, c);
      SubSumAt(only, f, c);
    }
    SumSame(Kids(calls, s) * folds, g, SubSum(only, f));
  }

  lemma OnlyKeeps(calls: Calls, keep: set<Stack>, s: Stack)
    ensures s in Only(calls, keep) <==> s in calls && s in keep
  {
  }

  lemma KidBelow(calls: Calls, s: Stack, c: Stack)
    ensures c in Kids(calls, s) ==> c in calls && |c| == |s| + 1
  {
  }

  // ---------------------------------------------------------------- building totals

  function Get(d: Data, k: string): (v: int)
  {
    if k in d then d[k] else 0
  }

  /** One metric of all calls. */
  function Col(m: map<Stack, Data>, k: string): (f: Stack -> int)
  {
    (s: Stack) => if s in m then Get(m[s], k) else 0
  }

  datatype State = State(data: map<Stack, Data>, total: map<Stack, Data>, children: map<Stack, set<Stack>>, totals: Data)

  /** Every row has a value for every metric. */
  ghost predicate Complete(calls: Calls, metrics: set<string>)
  {
    forall s <- calls :: calls[s].Keys == metrics
  }

  /** What buildTotal does to the state, metric by metric. */
  ghost predicate Builds(calls: Calls, metrics: set<string>, folds: set<Stack>, st: State, s: Stack, r: State)
  {
    && s in r.data && s in r.total && s in r.children
    && r.data == st.data[s := r.data[s]] && r.total == st.total[s := r.total[s]]
    && r.data[s].Keys == metrics && r.total[s].Keys == metrics
    && r.children == st.children[s := (Kids(calls, s) - folds) + Gather(st.children, Kids(calls, s) * folds)]
    && forall k <- metrics :: BuildsAt(calls, folds, st, s, r, k)
  }

  ghost predicate BuildsAt(calls: Calls, folds: set<Stack>, st: State, s: Stack, r: State, k: string)
  {
    && BuildingAt(calls, folds, st, s, Kids(calls, s), Col(r.total, k)(s), Col(r.data, k)(s), k)
    && Get(r.totals, k) == Get(st.totals, k) + Col(calls, k)(s)
  }

  /** Calls whose data has not been added to their caller's. */
  function Live(done: set<Stack>, folds: set<Stack>): (r: set<Stack>)
  {
    set s | s in done && (s !in folds || s == [] || Parent(s) !in done)
  }

  ghost predicate TotalsOk(calls: Calls, metrics: set<string>, done: set<Stack>, st: State)
  {
    && done <= st.total.Keys
    && (forall s <- done, k <- metrics :: Col(st.total, k)(s) == Sum(Subtree(calls, s), Col(calls, k)))
    && (forall k <- metrics :: Get(st.totals, k) == Sum(done, Col(calls, k)))
  }

  ghost predicate DataKept(calls: Calls, metrics: set<string>, done: set<Stack>, st: State)
  {
    && st.data.Keys == calls.Keys
    && (forall s <- calls :: s !in done ==> st.data[s] == calls[s])
    && (CALLS in metrics ==> forall s <- calls :: Col(st.data, CALLS)(s) == Col(calls, CALLS)(s))
  }

  ghost predicate DataSums(calls: Calls, metrics: set<string>, folds: set<Stack>, done: set<Stack>, st: State)
  {
    forall k <- metrics :: k != CALLS ==> Sum(Live(done, folds), Col(st.data, k)) == Sum(done, Col(calls, k))
  }

  /** Each call holds its own data and that of the calls folded into it. */
  ghost predicate DataExact(calls: Calls, metrics: set<string>, folds: set<Stack>, done: set<Stack>, st: State)
  {
    forall s <- done, k <- metrics :: k != CALLS ==> Col(st.data, k)(s) == Sum(Absorbed(calls, folds, s), Col(calls, k))
  }

  ghost predicate DataOk(calls: Calls, metrics: set<string>, folds: set<Stack>, done: set<Stack>, st: State)
  {
    DataKept(calls, metrics, done, st) && DataSums(calls, metrics, folds, done, st) && DataExact(calls, metrics, folds, done, st)
  }

  ghost predicate ChildrenOk(calls: Calls, folds: set<Stack>, done: set<Stack>, st: State)
  {
    && st.children.Keys == calls.Keys
    && (forall s <- calls :: st.children[s] == if s in done then Hoisted(calls, folds, s) else Kids(calls, s))
  }

  ghost predicate Inv(calls: Calls, metrics: set<string>, folds: set<Stack>, done: set<Stack>, st: State)
  {
    done <= calls.Keys && TotalsOk(calls, metrics, done, st) && DataOk(calls, metrics, folds, done, st) && ChildrenOk(calls, folds, done, st)
  }

  /** The next call: its kids are done, it and its caller are not. */
  ghost predicate Next(calls: Calls, done: set<Stack>, s: Stack)
  {
    && s in calls && s !in done && Kids(calls, s) <= done && (s == [] || Parent(s) !in done)
  }

  lemma BuildsTotals(calls: Calls, metrics: set<string>, folds: set<Stack>, done: set<Stack>, st: State, s: Stack, r: State)
    requires TotalsOk(calls, metrics, done, st) && Next(calls, done, s) && Builds(calls, metrics, folds, st, s, r)
    ensures TotalsOk(calls, metrics, done + {s}, r)
  {
    hide Sum, Subtree, Kids, Gather, BuildsAt, Col, Next;
    forall x, k | x in done + {s} && k in metrics
      ensures Get(r.totals, k) == Sum(done + {s}, Col(calls, k))
      ensures Col(r.total, k)(x) == Sum(Subtree(calls, x), Col(calls, k))
    {
      BuildsTotal(calls, metrics, folds, done, st, s, r, k);
      if x != s {
        ColKept(st.total, s, r.total[s], x, k);
      }
    }
    forall k <- metrics
      ensures Get(r.totals, k) == Sum(done + {s}, Col(calls, k))
    {
      BuildsTotal(calls, metrics, folds, done, st, s, r, k);
    }
  }

  lemma ColKept(m: map<Stack, Data>, s: Stack, d: Data, x: Stack, k: string)
    requires x != s
    ensures Col(m[s := d], k)(x) == Col(m, k)(x)
  {
  }

  lemma BuildsTotal(calls: Calls, metrics: set<string>, folds: set<Stack>, done: set<Stack>, st: State, s: Stack, r: State, k: string)
    requires TotalsOk(calls, metrics, done, st) && Next(calls, done, s) && Builds(calls, metrics, folds, st, s, r) && k in metrics
    ensures Get(r.totals, k) == Sum(done + {s}, Col(calls, k))
    ensures Col(r.total, k)(s) == Sum(Subtree(calls, s), Col(calls, k))
  {
    hide Sum, Subtree, Gather, Kids;
    assert BuildsAt(calls, folds, st, s, r, k);
    SumAdd(done, Col(calls, k), s);
    SubtreeSum(calls, s, Col(calls, k));
    forall c <- Kids(calls, s)
      ensures Col(st.total, k)(c) == SubSum(calls, Col(calls, k))(c)
    {
      SubSumAt(calls, Col(calls, k), c);
    }
    SumSame(Kids(calls, s), Col(st.total, k), SubSum(calls, Col(calls, k)));
  }

  lemma LiveStep(calls: Calls, folds: set<Stack>, done: set<Stack>, s: Stack)
    requires Next(calls, done, s) && done <= calls.Keys
    ensures Kids(calls, s) * folds <= Live(done, folds)
    ensures s !in Live(done, folds)
    ensures Live(done + {s}, folds) == Live(done, folds) - Kids(calls, s) * folds + {s}
  {
  }

  lemma BuildsData(calls: Calls, metrics: set<string>, folds: set<Stack>, done: set<Stack>, st: State, s: Stack, r: State)
    requires DataOk(calls, metrics, folds, done, st) && Next(calls, done, s) && Builds(calls, metrics, folds, st, s, r) && done <= calls.Keys
    ensures DataOk(calls, metrics, folds, done + {s}, r)
  {
    hide Sum, Live, DataKept, DataExact, Builds, Next;
    BuildsKept(calls, metrics, folds, done, st, s, r);
    BuildsExact(calls, metrics, folds, done, st, s, r);
    forall k <- metrics | k != CALLS
      ensures Sum(Live(done + {s}, folds), Col(r.data, k)) == Sum(done + {s}, Col(calls, k))
    {
      BuildsColumn(calls, metrics, folds, done, st, s, r, k);
    }
  }

  lemma BuildsExact(calls: Calls, metrics: set<string>, folds: set<Stack>, done: set<Stack>, st: State, s: Stack, r: State)
    requires DataExact(calls, metrics, folds, done, st) && Next(calls, done, s) && Builds(calls, metrics, folds, st, s, r)
    ensures DataExact(calls, metrics, folds, done + {s}, r)
  {
    hide Sum, Absorbed, Gather, Kids, BuildsAt, Col;
    forall x, k | x in done + {s} && k in metrics && k != CALLS
      ensures Col(r.data, k)(x) == Sum(Absorbed(calls, folds, x), Col(calls, k))
    {
      if x == s {
        ExactAt(calls, metrics, folds, done, st, s, r, k);
      } else {
        ColKept(st.data, s, r.data[s], x, k);
      }
    }
  }

  lemma ExactAt(calls: Calls, metrics: set<string>, folds: set<Stack>, done: set<Stack>, st: State, s: Stack, r: State, k: string)
    requires DataExact(calls, metrics, folds, done, st) && Next(calls, done, s) && Builds(calls, metrics, folds, st, s, r)
    requires k in metrics && k != CALLS
    ensures Col(r.data, k)(s) == Sum(Absorbed(calls, folds, s), Col(calls, k))
  {
    hide Sum, Absorbed, Gather, Kids, Col;
    assert BuildsAt(calls, folds, st, s, r, k);
    AbsorbedSum(calls, folds, s, Col(calls, k), Col(st.data, k));
  }

  lemma BuildsKept(calls: Calls, metrics: set<string>, folds: set<Stack>, done: set<Stack>, st: State, s: Stack, r: State)
    requires DataKept(calls, metrics, done, st) && Next(calls, done, s) && Builds(calls, metrics, folds, st, s, r)
    ensures DataKept(calls, metrics, done + {s}, r)
  {
    hide Sum, Gather, Kids, BuildsAt, Col;
    if CALLS in metrics {
      forall x <- calls
        ensures Col(r.data, CALLS)(x) == Col(calls, CALLS)(x)
      {
        if x == s {
          CallsKept(calls, metrics, folds, st, s, r);
        } else {
          ColKept(st.data, s, r.data[s], x, CALLS);
        }
      }
    }
  }

  lemma CallsKept(calls: Calls, metrics: set<string>, folds: set<Stack>, st: State, s: Stack, r: State)
    requires Builds(calls, metrics, folds, st, s, r) && CALLS in metrics
    ensures Col(r.data, CALLS)(s) == Col(calls, CALLS)(s)
  {
    hide Sum, Gather, Kids, Col;
    assert BuildsAt(calls, folds, st, s, r, CALLS);
  }

  lemma BuildsColumn(calls: Calls, metrics: set<string>, folds: set<Stack>, done: set<Stack>, st: State, s: Stack, r: State, k: string)
    requires DataSums(calls, metrics, folds, done, st) && Next(calls, done, s) && Builds(calls, metrics, folds, st, s, r) && done <= calls.Keys
    requires k in metrics && k != CALLS
    ensures Sum(Live(done + {s}, folds), Col(r.data, k)) == Sum(done + {s}, Col(calls, k))
  {
    hide Sum, Live, Gather, Kids;
    assert BuildsAt(calls, folds, st, s, r, k);
    LiveStep(calls, folds, done, s);
    LiveDone(folds, done);
    FoldSum(Live(done, folds), done, Kids(calls, s) * folds, s, Col(calls, k), Col(st.data, k), Col(r.data, k));
  }

  lemma LiveDone(folds: set<Stack>, done: set<Stack>)
    ensures Live(done, folds) <= done
  {
  }

  /** Moving what some live calls hold to the new one keeps the sum. */
  lemma FoldSum(live: set<Stack>, done: set<Stack>, folded: set<Stack>, s: Stack, f: Stack -> int, g: Stack -> int, h: Stack -> int)
    requires Sum(live, g) == Sum(done, f) && folded <= live && s !in live && s !in done
    requires (forall x <- live :: h(x) == g(x)) && h(s) == f(s) + Sum(folded, g)
    ensures Sum(live - folded + {s}, h) == Sum(done + {s}, f)
  {
    hide *;
    var rest := live - folded;
    SumAdd(done, f, s);
    SumAdd(rest, h, s);
    SumSame(rest, h, g);
    SumUnion(rest, folded, g);
    assert rest + folded == live;
  }

  lemma BuildsChildren(calls: Calls, metrics: set<string>, folds: set<Stack>, done: set<Stack>, st: State, s: Stack, r: State)
    requires ChildrenOk(calls, folds, done, st) && Next(calls, done, s) && Builds(calls, metrics, folds, st, s, r)
    ensures ChildrenOk(calls, folds, done + {s}, r)
  {
    hide Sum, Hoisted, Gather;
    HoistedIs(calls, folds, st.children, s);
  }

  lemma BuildsKeeps(calls: Calls, metrics: set<string>, folds: set<Stack>, done: set<Stack>, st: State, s: Stack, r: State)
    requires Inv(calls, metrics, folds, done, st) && Next(calls, done, s) && Builds(calls, metrics, folds, st, s, r)
    ensures Inv(calls, metrics, folds, done + {s}, r)
  {
    hide TotalsOk, DataOk, ChildrenOk, Builds, Kids;
    BuildsTotals(calls, metrics, folds, done, st, s, r);
    BuildsData(calls, metrics, folds, done, st, s, r);
    BuildsChildren(calls, metrics, folds, done, st, s, r);
  }

  // ---------------------------------------------------------------- the result

  lemma {:induction false} HasRoot(calls: Calls, t: Stack) returns (c: Stack)
    requires t in calls
    ensures c in Roots(calls) && Under(calls, c, t)
    decreases |t|
  {
    if t == [] || Parent(t) !in calls {
      c := t;
      assert t[..|t|] == t;
    } else {
      c := HasRoot(calls, Parent(t));
      forall i | |c| <= i <= |t|
        ensures t[..i] in calls
      {
        if i < |t| {
          assert t[..i] == Parent(t)[..i];
        } else {
          assert t[..i] == t;
        }
      }
      assert t[..|c|] == Parent(t)[..|c|];
    }
  }

  lemma RootsCover(calls: Calls)
    ensures Below(calls, Roots(calls)) == calls.Keys
  {
    forall t <- calls
      ensures t in Below(calls, Roots(calls))
    {
      var c := HasRoot(calls, t);
    }
  }

  /** What the finished profile says: each total is the sum of the original data over the subtree; the totals of
      the roots sum to the global totals; so does the data of the calls left after folding, and none of these
      has a folded child; each call holds exactly its own data and that of the calls folded into it, and keeps its
      number of calls. */
  ghost predicate Finished(calls: Calls, metrics: set<string>, folds: set<Stack>, st: State)
  {
    && st.total.Keys >= calls.Keys && st.data.Keys == st.children.Keys == calls.Keys
    && (forall s <- calls, k <- metrics :: Col(st.total, k)(s) == Sum(Subtree(calls, s), Col(calls, k)))
    && (forall k <- metrics :: Get(st.totals, k) == Sum(calls.Keys, Col(calls, k)))
    && (forall k <- metrics :: Sum(Roots(calls), Col(st.total, k)) == Get(st.totals, k))
    && (forall k <- metrics :: k != CALLS ==>
          Sum((calls.Keys - folds) + Roots(calls) * folds, Col(st.data, k)) == Get(st.totals, k))
    && (forall s <- calls :: st.children[s] == Hoisted(calls, folds, s) && st.children[s] !! folds)
    && DataExact(calls, metrics, folds, calls.Keys, st)
    && (CALLS in metrics ==> forall s <- calls :: Col(st.data, CALLS)(s) == Col(calls, CALLS)(s))
  }

  lemma RootTotals(calls: Calls, metrics: set<string>, st: State, k: string)
    requires TotalsOk(calls, metrics, calls.Keys, st) && k in metrics
    ensures Sum(Roots(calls), Col(st.total, k)) == Sum(calls.Keys, Col(calls, k))
  {
    hide Sum, Subtree, Below, Apart;
    RootsApart(calls);
    BelowSum(calls, Roots(calls), Col(calls, k));
    RootsCover(calls);
    forall c <- Roots(calls)
      ensures Col(st.total, k)(c) == SubSum(calls, Col(calls, k))(c)
    {
      SubSumAt(calls, Col(calls, k), c);
    }
    SumSame(Roots(calls), Col(st.total, k), SubSum(calls, Col(calls, k)));
  }

  lemma InvFinishes(calls: Calls, metrics: set<string>, folds: set<Stack>, st: State)
    requires Inv(calls, metrics, folds, calls.Keys, st)
    ensures Finished(calls, metrics, folds, st)
  {
    hide Sum, Subtree;
    forall k <- metrics
      ensures Sum(Roots(calls), Col(st.total, k)) == Get(st.totals, k)
    {
      RootTotals(calls, metrics, st, k);
    }
    assert Live(calls.Keys, folds) == (calls.Keys - folds) + Roots(calls) * folds;
  }

  // ---------------------------------------------------------------- the worklist

  /** Every call once, and its kids come before it. */
  ghost predicate Ordered(calls: Calls, order: seq<Stack>)
  {
    && Distinct(order) && Elements(order) == calls.Keys
    && forall i :: 0 <= i < |order| ==> Next(calls, Elements(order[..i]), order[i])
  }

  /** A call that is not a root has its caller further right. */
  ghost predicate CallerAfter(calls: Calls, order: seq<Stack>)
  {
    forall i :: 0 <= i < |order| && order[i] !in Roots(calls) ==> order[i] != [] && Parent(order[i]) in order[i + 1..]
  }

  ghost predicate Working(calls: Calls, order: seq<Stack>, toVisit: seq<Stack>)
  {
    && Distinct(order + toVisit) && Elements(order + toVisit) <= calls.Keys
    && CallerAfter(calls, order)
    && (forall v <- order, c <- Kids(calls, v) :: c in order + toVisit)
    && (forall t <- toVisit :: t !in Roots(calls) ==> t != [] && Parent(t) in order)
    && (forall c <- Roots(calls) :: c in order + toVisit)
  }

  lemma {:induction false} AllListed(calls: Calls, order: seq<Stack>, t: Stack)
    requires Working(calls, order, []) && t in calls
    ensures t in order
    decreases |t|
  {
    assert order + [] == order;
    if t !in Roots(calls) {
      AllListed(calls, order, Parent(t));
      assert t in Kids(calls, Parent(t));
    }
  }

  lemma DistinctParts(l: seq<Stack>, i: nat)
    requires Distinct(l) && i < |l|
    ensures l[i] !in l[..i] && l[i] !in l[i + 1..]
    ensures forall x <- l[i + 1..] :: x !in l[..i]
  {
  }

  lemma WorkIsDone(calls: Calls, order: seq<Stack>)
    requires Working(calls, order, [])
    ensures Ordered(calls, order)
  {
    assert order + [] == order;
    forall t <- calls
      ensures t in order
    {
      AllListed(calls, order, t);
    }
    forall i | 0 <= i < |order|
      ensures Next(calls, Elements(order[..i]), order[i])
    {
      DistinctParts(order, i);
      KidsBefore(calls, order, i);
      assert order[i] in order;
      assert order[i] in Roots(calls) || Parent(order[i]) in order[i + 1..];
    }
  }

  lemma KidsBefore(calls: Calls, order: seq<Stack>, i: nat)
    requires Distinct(order) && Elements(order) == calls.Keys && CallerAfter(calls, order) && i < |order|
    ensures Kids(calls, order[i]) <= Elements(order[..i])
  {
    forall c <- Kids(calls, order[i])
      ensures c in order[..i]
    {
      assert order[i] in Elements(order);
      var j :| 0 <= j < |order| && order[j] == c;
      assert c !in Roots(calls);
      var k :| j + 1 <= k < |order| && order[k] == Parent(c);
      assert order[..i][j] == c;
    }
  }

  /** Popping a call, listing it in front and pushing its kids. */
  lemma WorkStep(calls: Calls, order: seq<Stack>, toVisit: seq<Stack>, kids: seq<Stack>)
    requires Working(calls, order, toVisit) && toVisit != []
    requires var s := toVisit[|toVisit| - 1]; Distinct(kids) && Elements(kids) == Kids(calls, s)
    ensures var n := |toVisit| - 1; Working(calls, [toVisit[n]] + order, toVisit[..n] + kids)
  {
    hide Distinct, Roots;
    var n := |toVisit| - 1;
    var s := toVisit[n];
    var order', toVisit' := [s] + order, toVisit[..n] + kids;
    assert toVisit == toVisit[..n] + [s];
    assert s in order + toVisit;
    WorkDistinct(calls, order, toVisit, kids);
    WorkMembers(order, toVisit, kids);
    assert CallerAfter(calls, order') by {
      forall i | 0 <= i < |order'| && order'[i] !in Roots(calls)
        ensures order'[i] != [] && Parent(order'[i]) in order'[i + 1..]
      {
        if i == 0 {
          assert order'[1..] == order;
        } else {
          assert order'[i] == order[i - 1] && order'[i + 1..] == order[i..];
        }
      }
    }
    forall v <- order', c <- Kids(calls, v)
      ensures c in order' + toVisit'
    {
      if v == s { assert c in kids; } else { assert c in order + toVisit; }
    }
    forall t <- toVisit'
      ensures t !in Roots(calls) ==> t != [] && Parent(t) in order'
    {
      if t in kids { assert Parent(t) == s; } else { assert t in toVisit; }
    }
    forall c <- Roots(calls)
      ensures c in order' + toVisit'
    {
      assert c in order + toVisit;
    }
  }

  lemma WorkMembers(order: seq<Stack>, toVisit: seq<Stack>, kids: seq<Stack>)
    requires toVisit != []
    ensures var n := |toVisit| - 1;
            Elements([toVisit[n]] + order + (toVisit[..n] + kids)) == Elements(order + toVisit) + Elements(kids)
  {
    assert toVisit == toVisit[..|toVisit| - 1] + [toVisit[|toVisit| - 1]];
  }

  lemma CallerListed(calls: Calls, order: seq<Stack>, c: Stack)
    requires CallerAfter(calls, order) && c in order && c !in Roots(calls)
    ensures c != [] && Parent(c) in order
  {
    var i :| 0 <= i < |order| && order[i] == c;
    assert c != [] && Parent(c) in order[i + 1..];
    hide CallerAfter;
    SliceIn(order, i + 1, Parent(c));
  }

  lemma SliceIn(l: seq<Stack>, i: nat, x: Stack)
    requires i <= |l| && x in l[i..]
    ensures x in l
  {
    var j :| 0 <= j < |l| - i && l[i..][j] == x;
    assert l[i + j] == x;
  }

  lemma WorkDistinct(calls: Calls, order: seq<Stack>, toVisit: seq<Stack>, kids: seq<Stack>)
    requires Working(calls, order, toVisit) && toVisit != []
    requires var s := toVisit[|toVisit| - 1]; Distinct(kids) && Elements(kids) == Kids(calls, s)
    ensures var n := |toVisit| - 1; Distinct([toVisit[n]] + order + (toVisit[..n] + kids))
  {
    var n := |toVisit| - 1;
    var s := toVisit[n];
    var before := order + toVisit;
    assert before == order + toVisit[..n] + [s];
    assert s !in order by { assert before[|order| + n] == s; assert forall j :: 0 <= j < |order| ==> before[j] == order[j]; }
    forall c <- kids
      ensures c !in before
    {
      assert Parent(c) == s && c !in Roots(calls) && |c| == |s| + 1;
      if c in order {
        CallerListed(calls, order, c);
      }
    }
    DistinctMove(order, toVisit[..n], s, kids);
  }

  lemma DistinctMove(order: seq<Stack>, rest: seq<Stack>, s: Stack, kids: seq<Stack>)
    requires Distinct(order + rest + [s]) && Distinct(kids) && forall c <- kids :: c !in order + rest + [s]
    ensures Distinct([s] + order + (rest + kids))
  {
    var b := order + rest + [s];
    var l := [s] + order + (rest + kids);
    assert b[|order + rest|] == s;
    assert l == [s] + (order + rest) + kids;
    forall i, j | 0 <= i < j < |l|
      ensures l[i] != l[j]
    {
      var n := |order + rest|;
      if j <= n {
        assert l[j] == b[j - 1];
        if i == 0 { assert l[i] == b[n]; } else { assert l[i] == b[i - 1]; }
      } else {
        assert l[j] == kids[j - n - 1] && kids[j - n - 1] in kids;
        if i > n { assert l[i] == kids[i - n - 1]; }
        else if i == 0 { assert l[i] == b[n] && b[n] in b; }
        else { assert l[i] == b[i - 1] && b[i - 1] in b; }
      }
    }
  }

  // ---------------------------------------------------------------- the profile itself

  /** `prof.totals.get(k, 0) + v` for all k */
  function AddInto(t: Data, d: Data): (r: Data)
    ensures forall k :: Get(r, k) == Get(t, k) + Get(d, k)
  {
    map k | k in t.Keys + d.Keys :: Get(t, k) + Get(d, k)
  }

  /** `self.data[k] += v` for all k but one */
  function AddExcept(t: Data, d: Data, except: set<string>): (r: Data)
    requires t.Keys == d.Keys
    ensures r.Keys == t.Keys && forall k <- t :: r[k] == if k in except then t[k] else t[k] + d[k]
  {
    map k | k in t :: if k in except then t[k] else t[k] + d[k]
  }

  method ToList(s: set<Stack>) returns (l: seq<Stack>)
    ensures Distinct(l) && Elements(l) == s
  {
    l := [];
    var left := s;
    while left != {}
      invariant left <= s && Distinct(l) && Elements(l) == s - left
      decreases |left|
    {
      var x :| x in left;
      l := l + [x];
      left := left - {x};
    }
  }

  class Profile {
    const calls: Calls                       // the rows as read
    const metrics: set<string>
    const folds: set<Stack>                  // the calls whose function is to be folded
    var data: map<Stack, Data>
    var total: map<Stack, Data>
    var children: map<Stack, set<Stack>>
    var roots: set<Stack>
    var totals: Data

    ghost function Abs(): (st: State)
      reads `data, `total, `children, `totals
    {
      State(data, total, children, totals)
    }

    constructor (calls: Calls, metrics: set<string>, folds: set<Stack>)
      requires Complete(calls, metrics)
      ensures this.calls == calls && this.metrics == metrics && this.folds == folds
      ensures Inv(calls, metrics, folds, {}, Abs())
    {
      this.calls, this.metrics, this.folds := calls, metrics, folds;
      data, total, totals, roots := calls, map[], map[], {};
      children := map s | s in calls :: Kids(calls, s);
      new;
      assert Live({}, folds) == {};
    }

    method FindRoots()
      requires ChildrenOk(calls, folds, {}, Abs())
      modifies `roots
      ensures roots == Roots(calls)
    {
      roots := calls.Keys;
      var left := calls.Keys;
      while left != {}
        invariant left <= calls.Keys
        invariant roots == set t | t in calls && (t == [] || Parent(t) !in calls.Keys - left)
        decreases |left|
      {
        var parent :| parent in left;
        roots := roots - children[parent];
        left := left - {parent};
      }
    }

    /** The list of calls where each child is ordered before its parent. */
    method OrderCalls() returns (order: seq<Stack>)
      requires ChildrenOk(calls, folds, {}, Abs()) && roots == Roots(calls)
      ensures Ordered(calls, order)
    {
      hide Working, Ordered;
      order := [];
      var toVisit := ToList(roots);
      StartWork(calls, toVisit);
      while toVisit != []
        invariant Working(calls, order, toVisit)
        decreases |calls| - |order|
      {
        WorkBound(calls, order, toVisit);
        var s := toVisit[|toVisit| - 1];
        var kids := ToList(children[s]);
        WorkStep(calls, order, toVisit, kids);
        toVisit := toVisit[..|toVisit| - 1];
        order := [s] + order;
        toVisit := toVisit + kids;
      }
      WorkIsDone(calls, order);
    }

    method BuildTotal(s: Stack, ghost done: set<Stack>)
      requires Complete(calls, metrics) && Inv(calls, metrics, folds, done, Abs()) && Next(calls, done, s)
      requires RowsOk(metrics, done, Abs())
      modifies `data, `total, `children, `totals
      ensures Builds(calls, metrics, folds, old(Abs()), s, Abs())
      ensures RowsOk(metrics, done + {s}, Abs())
    {
      hide Inv, Complete, Builds, Next, RowsOk, Building, Kids;
      ghost var st := Abs();
      Ready(calls, metrics, folds, done, st, s);
      totals := AddInto(totals, data[s]);
      var t, d, mine := AddKids(s, done, st);
      total := total[s := t];
      data := data[s := d];
      children := children[s := mine];
      BuildEnd(calls, metrics, folds, done, st, s, t, d, mine, totals);
    }

    /** The loop over the children: all are added to the total, folded ones also to the data. */
    method AddKids(s: Stack, ghost done: set<Stack>, ghost st: State) returns (t: Data, d: Data, mine: set<Stack>)
      requires Complete(calls, metrics) && Inv(calls, metrics, folds, done, st) && Next(calls, done, s) && RowsOk(metrics, done, st)
      requires data == st.data && total == st.total && children == st.children
      ensures Building(calls, metrics, folds, st, s, Kids(calls, s), t, d, mine)
    {
      hide Inv, Complete, Next, RowsOk, Building, Kids, AddExcept;
      Ready(calls, metrics, folds, done, st, s);
      BuildStart(calls, metrics, folds, st, s);
      var kids := children[s];
      t, d, mine := data[s], data[s], kids;
      var left := kids;
      while left != {}
        invariant left <= kids
        invariant Building(calls, metrics, folds, st, s, kids - left, t, d, mine)
        decreases |left|
      {
        var c :| c in left;
        ghost var seen := kids - left;
        BuildKeys(calls, metrics, folds, st, s, seen, t, d, mine);
        BuildStep(calls, metrics, folds, done, st, s, seen, t, d, mine, c);
        t := AddExcept(t, total[c], {});
        if c in folds {
          d := AddExcept(d, data[c], {CALLS});
          mine := mine - {c} + children[c];
        }
        left := left - {c};
        assert kids - left == seen + {c};
      }
      assert kids - left == kids;
    }

    method Build()
      requires Complete(calls, metrics) && Inv(calls, metrics, folds, {}, Abs())
      modifies this
      ensures roots == Roots(calls)
      ensures Finished(calls, metrics, folds, Abs())
    {
      hide Inv, Complete, Builds, RowsOk, Finished, Ordered;
      StartRows(calls, metrics, folds, Abs());
      FindRoots();
      var order := OrderCalls();
      assert order[..0] == [] && Elements(order[..0]) == {};
      for i := 0 to |order|
        invariant Inv(calls, metrics, folds, Elements(order[..i]), Abs()) && RowsOk(metrics, Elements(order[..i]), Abs())
        invariant roots == Roots(calls)
      {
        OrderedAt(calls, order, i);
        ghost var done := Elements(order[..i]);
        ghost var st := Abs();
        BuildTotal(order[i], done);
        BuildsKeeps(calls, metrics, folds, done, st, order[i], Abs());
      }
      OrderedAll(calls, order);
      InvFinishes(calls, metrics, folds, Abs());
    }
  }

  /** All rows have the same metrics. */
  ghost predicate RowsOk(metrics: set<string>, done: set<Stack>, st: State)
  {
    && (forall s <- st.data :: st.data[s].Keys == metrics)
    && (forall s <- done :: s in st.total && st.total[s].Keys == metrics)
  }

  lemma StartRows(calls: Calls, metrics: set<string>, folds: set<Stack>, st: State)
    requires Complete(calls, metrics) && Inv(calls, metrics, folds, {}, st)
    ensures RowsOk(metrics, {}, st) && ChildrenOk(calls, folds, {}, st)
  {
  }

  lemma OrderedAt(calls: Calls, order: seq<Stack>, i: nat)
    requires Ordered(calls, order) && i < |order|
    ensures Next(calls, Elements(order[..i]), order[i])
    ensures Elements(order[..i + 1]) == Elements(order[..i]) + {order[i]}
  {
    assert order[..i + 1] == order[..i] + [order[i]];
  }

  lemma OrderedAll(calls: Calls, order: seq<Stack>)
    requires Ordered(calls, order)
    ensures Elements(order[..|order|]) == calls.Keys
  {
    assert order[..|order|] == order;
  }

  lemma StartWork(calls: Calls, toVisit: seq<Stack>)
    requires Distinct(toVisit) && Elements(toVisit) == Roots(calls)
    ensures Working(calls, [], toVisit)
  {
    assert [] + toVisit == toVisit;
  }

  lemma {:induction false} ElementsSize(l: seq<Stack>)
    requires Distinct(l)
    ensures |Elements(l)| == |l|
  {
    if l != [] {
      var n := |l| - 1;
      ElementsSize(l[..n]);
      assert l == l[..n] + [l[n]];
      assert Elements(l) == Elements(l[..n]) + {l[n]};
      DistinctParts(l, n);
    }
  }

  lemma WorkBound(calls: Calls, order: seq<Stack>, toVisit: seq<Stack>)
    requires Working(calls, order, toVisit) && toVisit != []
    ensures |order| < |calls| && toVisit[|toVisit| - 1] in calls
  {
    ElementsSize(order + toVisit);
    SubsetSize(Elements(order + toVisit), calls.Keys);
    assert |calls| == |calls.Keys|;
    assert toVisit[|toVisit| - 1] in order + toVisit;
  }

  /** The loop of buildTotal: the kids in `seen` have been added. */
  ghost predicate Building(calls: Calls, metrics: set<string>, folds: set<Stack>, st: State, s: Stack,
                           seen: set<Stack>, t: Data, d: Data, mine: set<Stack>)
  {
    && t.Keys == metrics && d.Keys == metrics
    && mine == (Kids(calls, s) - seen * folds) + Gather(st.children, seen * folds)
    && forall k <- metrics :: BuildingAt(calls, folds, st, s, seen, t[k], d[k], k)
  }

  ghost predicate BuildingAt(calls: Calls, folds: set<Stack>, st: State, s: Stack, seen: set<Stack>, t: int, d: int, k: string)
  {
    && t == Col(calls, k)(s) + Sum(seen, Col(st.total, k))
    && d == Col(calls, k)(s) + (if k == CALLS then 0 else Sum(seen * folds, Col(st.data, k)))
  }

  lemma BuildStepAt(calls: Calls, folds: set<Stack>, st: State, s: Stack, seen: set<Stack>, t: int, d: int, k: string, c: Stack)
    requires BuildingAt(calls, folds, st, s, seen, t, d, k) && c !in seen
    ensures BuildingAt(calls, folds, st, s, seen + {c}, t + Col(st.total, k)(c),
                       if c in folds && k != CALLS then d + Col(st.data, k)(c) else d, k)
  {
    hide Sum, Col;
    SumAdd(seen, Col(st.total, k), c);
    if c in folds {
      assert (seen + {c}) * folds == seen * folds + {c};
      SumAdd(seen * folds, Col(st.data, k), c);
    } else {
      assert (seen + {c}) * folds == seen * folds;
    }
  }

  lemma Ready(calls: Calls, metrics: set<string>, folds: set<Stack>, done: set<Stack>, st: State, s: Stack)
    requires Complete(calls, metrics) && Inv(calls, metrics, folds, done, st) && Next(calls, done, s) && RowsOk(metrics, done, st)
    ensures s in st.data && s in st.children && st.data[s] == calls[s] && s in calls && calls[s].Keys == metrics
    ensures st.children[s] == Kids(calls, s)
    ensures forall c <- Kids(calls, s) ::
              && c in st.total && c in st.data && c in st.children
              && st.total[c].Keys == metrics && st.data[c].Keys == metrics
  {
  }

  lemma BuildStart(calls: Calls, metrics: set<string>, folds: set<Stack>, st: State, s: Stack)
    requires s in calls && calls[s].Keys == metrics
    ensures Building(calls, metrics, folds, st, s, Kids(calls, s) - Kids(calls, s), calls[s], calls[s], Kids(calls, s))
  {
    var none := Kids(calls, s) - Kids(calls, s);
    assert none == {} && none * folds == {};
    assert Gather(st.children, {}) == {};
  }

  lemma BuildStep(calls: Calls, metrics: set<string>, folds: set<Stack>, done: set<Stack>, st: State, s: Stack,
                  seen: set<Stack>, t: Data, d: Data, mine: set<Stack>, c: Stack)
    requires Building(calls, metrics, folds, st, s, seen, t, d, mine) && seen <= Kids(calls, s) && c in Kids(calls, s) && c !in seen
    requires Inv(calls, metrics, folds, done, st) && Next(calls, done, s)
    requires c in st.total && c in st.data && c in st.children && st.total[c].Keys == metrics && st.data[c].Keys == metrics
    ensures var t' := AddExcept(t, st.total[c], {});
            var d' := if c in folds then AddExcept(d, st.data[c], {CALLS}) else d;
            var mine' := if c in folds then mine - {c} + st.children[c] else mine;
            Building(calls, metrics, folds, st, s, seen + {c}, t', d', mine')
  {
    hide BuildingAt, Gather, Kids, Inv;
    var t' := AddExcept(t, st.total[c], {});
    var d' := if c in folds then AddExcept(d, st.data[c], {CALLS}) else d;
    forall k <- metrics
      ensures BuildingAt(calls, folds, st, s, seen + {c}, t'[k], d'[k], k)
    {
      BuildStepAt(calls, folds, st, s, seen, t[k], d[k], k, c);
    }
    if c in folds {
      assert (seen + {c}) * folds == seen * folds + {c};
      assert ChildrenOk(calls, folds, done, st) by { InvChildren(calls, metrics, folds, done, st); }
      hide ChildrenOk;
      MineStep(calls, metrics, folds, done, st, s, seen, c);
    } else {
      assert (seen + {c}) * folds == seen * folds;
    }
  }

  lemma BuildKeys(calls: Calls, metrics: set<string>, folds: set<Stack>, st: State, s: Stack, seen: set<Stack>, t: Data, d: Data, mine: set<Stack>)
    requires Building(calls, metrics, folds, st, s, seen, t, d, mine)
    ensures t.Keys == metrics && d.Keys == metrics
  {
  }

  lemma InvChildren(calls: Calls, metrics: set<string>, folds: set<Stack>, done: set<Stack>, st: State)
    requires Inv(calls, metrics, folds, done, st)
    ensures ChildrenOk(calls, folds, done, st)
  {
  }

  lemma MineStep(calls: Calls, metrics: set<string>, folds: set<Stack>, done: set<Stack>, st: State, s: Stack, seen: set<Stack>, c: Stack)
    requires ChildrenOk(calls, folds, done, st) && Next(calls, done, s)
    requires seen <= Kids(calls, s) && c in Kids(calls, s) && c !in seen && c in folds
    ensures (Kids(calls, s) - seen * folds) + Gather(st.children, seen * folds) - {c} + st.children[c]
            == (Kids(calls, s) - (seen * folds + {c})) + Gather(st.children, seen * folds + {c})
  {
    assert c !in Gather(st.children, seen * folds) by {
      forall b, x | b in seen * folds && b in st.children && x in st.children[b]
        ensures x != c
      {
        assert x in Hoisted(calls, folds, b);
        assert |b| == |s| + 1 == |c|;
        HoistedLonger(calls, folds, b, x);
      }
    }
    assert Gather(st.children, seen * folds + {c}) == Gather(st.children, seen * folds) + st.children[c];
  }

  lemma HoistedLonger(calls: Calls, folds: set<Stack>, s: Stack, t: Stack)
    requires t in Hoisted(calls, folds, s)
    ensures |t| > |s|
  {
    assert t[..|t|] == t;
  }

  lemma BuildEnd(calls: Calls, metrics: set<string>, folds: set<Stack>, done: set<Stack>, st: State, s: Stack,
                 t: Data, d: Data, mine: set<Stack>, totals: Data)
    requires Building(calls, metrics, folds, st, s, Kids(calls, s), t, d, mine) && RowsOk(metrics, done, st)
    requires s in calls && calls[s].Keys == metrics && totals == AddInto(st.totals, calls[s])
    ensures var r := State(st.data[s := d], st.total[s := t], st.children[s := mine], totals);
            Builds(calls, metrics, folds, st, s, r) && RowsOk(metrics, done + {s}, r)
  {
    hide Gather, Kids, BuildingAt, BuildsAt;
    assert Kids(calls, s) - Kids(calls, s) * folds == Kids(calls, s) - folds;
    var r := State(st.data[s := d], st.total[s := t], st.children[s := mine], totals);
    forall k <- metrics
      ensures BuildsAt(calls, folds, st, s, r, k)
    {
      BuildEndAt(calls, metrics, folds, st, s, r, k);
    }
  }

  lemma BuildEndAt(calls: Calls, metrics: set<string>, folds: set<Stack>, st: State, s: Stack, r: State, k: string)
    requires s in r.total && s in r.data && k in r.total[s] && k in r.data[s]
    requires BuildingAt(calls, folds, st, s, Kids(calls, s), r.total[s][k], r.data[s][k], k)
    requires s in calls && r.totals == AddInto(st.totals, calls[s])
    ensures BuildsAt(calls, folds, st, s, r, k)
  {
    hide BuildingAt, Kids;
  }
}
