/** The locality scheduler: which thread runs on which core. */
module SchedulerLocality {
  import opened Wrappers

  type Tid = nat
  type Core = nat

  datatype Thread = Thread(core: Option<Core>, runnable: bool, unscheduled: bool, score: int, metricLast: int)

  type Threads = map<Tid, Thread>

  /** The metric of each thread at the time of a hook: elapsed time or instruction count. */
  type Metric = Tid -> int

  // ---------------------------------------------------------------- one thread

  function Updated(t: Thread, now: int): (r: Thread)
  {
    t.(score := t.score + (now - t.metricLast), metricLast := now)
  }

  /** setCore */
  function WithCore(t: Thread, c: Option<Core>, now: int): (r: Thread)
  {
    if c.None? then Updated(t.(core := None), now) else t.(core := c)
  }

  // ---------------------------------------------------------------- lists

  /** The parts of a list that pass and fail a test make up its length. */
  lemma {:induction false} FilterSplit(ts: seq<nat>, keep: nat -> bool, drop: nat -> bool)
    requires forall t <- ts :: keep(t) <==> !drop(t)
    ensures |Filter(ts, keep)| + |Filter(ts, drop)| == |ts|
  {
    if ts != [] {
      FilterSplit(ts[..|ts| - 1], keep, drop);
      assert ts[|ts| - 1] in ts;
    }
  }

  lemma {:induction false} SetSize(ts: seq<nat>)
    requires Distinct(ts)
    ensures |Elements(ts)| == |ts|
  {
    if ts != [] {
      var rest := ts[..|ts| - 1];
      SetSize(rest);
      assert Elements(ts) == Elements(rest) + {ts[|ts| - 1]};
      assert ts[|ts| - 1] !in rest;
    }
  }

  /** Stable insertion by score: t comes before the first entry that is not better. */
  function Insert(m: Threads, t: Tid, ts: seq<Tid>): (r: seq<Tid>)
    requires t in m && forall x <- ts :: x in m
    ensures forall x :: x in r <==> x == t || x in ts
    ensures |r| == |ts| + 1
  {
    if ts == [] then [t]
    else if m[t].score <= m[ts[0]].score then [t] + ts
    else [ts[0]] + Insert(m, t, ts[1..])
  }

  /** `sort(key = score)`, which is stable */
  function Sorted(m: Threads, ts: seq<Tid>): (r: seq<Tid>)
    requires forall x <- ts :: x in m
    ensures forall x :: x in r <==> x in ts
    ensures |r| == |ts|
  {
    if ts == [] then [] else Insert(m, ts[0], Sorted(m, ts[1..]))
  }

  predicate ByScore(m: Threads, ts: seq<Tid>)
  {
    && (forall x <- ts :: x in m)
    && forall i, j :: 0 <= i < j < |ts| ==> m[ts[i]].score <= m[ts[j]].score
  }

  lemma HeadLeast(m: Threads, ts: seq<Tid>)
    requires ByScore(m, ts) && ts != []
    ensures forall x <- ts :: m[ts[0]].score <= m[x].score
  {
    forall x <- ts
      ensures m[ts[0]].score <= m[x].score
    {
      var k :| 0 <= k < |ts| && ts[k] == x;
    }
  }

  lemma ConsOrdered(m: Threads, t: Tid, ts: seq<Tid>)
    requires ByScore(m, ts) && t in m && forall x <- ts :: m[t].score <= m[x].score
    ensures ByScore(m, [t] + ts)
  {
    var r := [t] + ts;
    forall i, j | 0 <= i < j < |r|
      ensures m[r[i]].score <= m[r[j]].score
    {
      assert r[j] == ts[j - 1];
      if i > 0 {
        assert r[i] == ts[i - 1];
      }
    }
  }

  lemma {:induction false} InsertOrdered(m: Threads, t: Tid, ts: seq<Tid>)
    requires t in m && ByScore(m, ts)
    ensures ByScore(m, Insert(m, t, ts))
  {
    if ts == [] {
    } else if m[t].score <= m[ts[0]].score {
      HeadLeast(m, ts);
      ConsOrdered(m, t, ts);
    } else {
      HeadLeast(m, ts);
      InsertOrdered(m, t, ts[1..]);
      assert forall x <- ts[1..] :: x in ts;
      ConsOrdered(m, ts[0], Insert(m, t, ts[1..]));
    }
  }

  lemma {:induction false} SortedOrdered(m: Threads, ts: seq<Tid>)
    requires forall x <- ts :: x in m
    ensures ByScore(m, Sorted(m, ts))
  {
    if ts != [] {
      SortedOrdered(m, ts[1..]);
      InsertOrdered(m, ts[0], Sorted(m, ts[1..]));
    }
  }

  lemma {:induction false} InsertDistinct(m: Threads, t: Tid, ts: seq<Tid>)
    requires t in m && (forall x <- ts :: x in m) && Distinct(ts) && t !in ts
    ensures Distinct(Insert(m, t, ts))
  {
    if ts != [] && m[t].score > m[ts[0]].score {
      InsertDistinct(m, t, ts[1..]);
      assert ts[0] !in ts[1..];
    }
  }

  lemma {:induction false} SortedDistinct(m: Threads, ts: seq<Tid>)
    requires (forall x <- ts :: x in m) && Distinct(ts)
    ensures Distinct(Sorted(m, ts))
  {
    if ts != [] {
      SortedDistinct(m, ts[1..]);
      InsertDistinct(m, ts[0], Sorted(m, ts[1..]));
    }
  }

  // ---------------------------------------------------------------- the hooks, on values

  /** `order` is the order in which the dictionary of threads lists them. */
  datatype State = State(threads: Threads, order: seq<Tid>, lastCore: nat)

  const EMPTY := State(map[], [], 0)

  function UsedCores(m: Threads): (s: set<Core>)
  {
    set t | t in m && m[t].core.Some? :: m[t].core.value
  }

  function FreeCores(cores: seq<Core>, m: Threads): (s: set<Core>)
  {
    Elements(cores) - UsedCores(m)
  }

  function Start(cores: seq<Core>, s: State, t: Tid, metric: Metric): (r: State)
  {
    var fresh_ := Thread(None, true, false, 0, 0);
    State(s.threads[t := if s.lastCore < |cores| then fresh_.(core := Some(cores[s.lastCore])) else WithCore(fresh_, None, metric(t))],
          if t in s.threads then s.order else s.order + [t],
          if s.lastCore < |cores| then s.lastCore + 1 else s.lastCore)
  }

  function Waiting(m: Threads, order: seq<Tid>): (ts: seq<Tid>)
    ensures forall t :: t in ts <==> t in order && t in m && m[t].runnable && m[t].core.None?
  {
    Filter(order, (t: Tid) => t in m && m[t].runnable && m[t].core.None?)
  }

  /** The thread stops; the best waiting thread takes over its core, if it had one. */
  function Stall(s: State, t: Tid, unscheduled: bool, metric: Metric): (r: State)
    requires t in s.threads
  {
    if unscheduled then s.(threads := s.threads[t := s.threads[t].(unscheduled := true)])
    else
      var core := s.threads[t].core;
      var m := s.threads[t := WithCore(s.threads[t], None, metric(t)).(runnable := false)];
      var waiting := Waiting(m, s.order);
      if waiting == [] then s.(threads := m)
      else
        var best := Sorted(m, waiting)[0];
        s.(threads := m[best := WithCore(m[best], core, metric(best))])
  }

  function LeastScore(m: Threads, ts: seq<Tid>): (v: int)
    requires ts != [] && forall t <- ts :: t in m
    ensures (exists t :: t in ts && m[t].score == v) && forall t <- ts :: v <= m[t].score
  {
    if |ts| == 1 then m[ts[0]].score
    else
      var rest := LeastScore(m, ts[1..]);
      assert ts == [ts[0]] + ts[1..];
      if m[ts[0]].score <= rest then m[ts[0]].score else rest
  }

  /** The thread goes on; `pick` is the free core that the set happens to list first. */
  function Resume(cores: seq<Core>, s: State, t: Tid, pick: Core, metric: Metric): (r: State)
    requires t in s.threads && t in s.order && forall x <- s.order :: x in s.threads
  {
    var th := s.threads[t];
    if th.unscheduled then s.(threads := s.threads[t := th.(unscheduled := false)])
    else
      var woken := th.(score := LeastScore(s.threads, s.order), metricLast := metric(t), runnable := true);
      var m := s.threads[t := woken];
      if FreeCores(cores, m) == {} then s.(threads := m)
      else s.(threads := m[t := WithCore(woken, Some(pick), metric(t))])
  }

  // ---------------------------------------------------------------- the invariant

  ghost predicate Listed(s: State)
  {
    Distinct(s.order) && forall t :: t in s.order <==> t in s.threads
  }

  /** One thread per core, only cores of ours, only runnable threads. */
  ghost predicate Placed(cores: seq<Core>, m: Threads)
  {
    && (forall t <- m :: m[t].core.Some? ==> m[t].core.value in cores && m[t].runnable)
    && (forall t, u :: t in m && u in m && t != u && m[t].core.Some? ==> m[t].core != m[u].core)
  }

  /** Until every core has been handed out: cores not handed out yet are unused, and no runnable thread waits. */
  ghost predicate HandingOut(cores: seq<Core>, s: State)
  {
    && s.lastCore <= |cores|
    && (s.lastCore < |cores| ==>
          && |s.threads| <= s.lastCore
          && (forall t <- s.threads :: s.threads[t].core.Some? ==> s.threads[t].core.value in cores[..s.lastCore])
          && (forall t <- s.threads :: s.threads[t].runnable ==> s.threads[t].core.Some?))
  }

  ghost predicate Inv(cores: seq<Core>, s: State)
  {
    Distinct(cores) && Listed(s) && Placed(cores, s.threads) && HandingOut(cores, s)
  }

  lemma InitInv(cores: seq<Core>)
    requires Distinct(cores)
    ensures Inv(cores, EMPTY)
  {
  }

  lemma PlacedDrop(cores: seq<Core>, m: Threads, t: Tid, th: Thread)
    requires Placed(cores, m) && th.core.None?
    ensures Placed(cores, m[t := th])
  {
  }

  lemma PlacedTake(cores: seq<Core>, m: Threads, t: Tid, th: Thread)
    requires Placed(cores, m) && th.core.Some? && th.core.value in cores && th.runnable
    requires forall u <- m :: u != t ==> m[u].core != th.core
    ensures Placed(cores, m[t := th])
  {
  }

  lemma PlacedSame(cores: seq<Core>, m: Threads, t: Tid, th: Thread)
    requires Placed(cores, m) && t in m && th.core == m[t].core && (th.core.Some? ==> th.runnable)
    ensures Placed(cores, m[t := th])
  {
  }

  lemma StartListed(cores: seq<Core>, s: State, t: Tid, metric: Metric)
    requires Listed(s)
    ensures Listed(Start(cores, s, t, metric))
  {
    hide WithCore;
    var r := Start(cores, s, t, metric);
    assert r.threads.Keys == s.threads.Keys + {t};
  }

  lemma StartPlaced(cores: seq<Core>, s: State, t: Tid, metric: Metric)
    requires Inv(cores, s)
    ensures Placed(cores, Start(cores, s, t, metric).threads)
  {
    hide Placed, Listed;
    var th := Start(cores, s, t, metric).threads[t];
    if s.lastCore < |cores| {
      assert cores[s.lastCore] !in cores[..s.lastCore];
      PlacedTake(cores, s.threads, t, th);
    } else {
      PlacedDrop(cores, s.threads, t, th);
    }
  }

  lemma StartHandsOut(cores: seq<Core>, s: State, t: Tid, metric: Metric)
    requires HandingOut(cores, s)
    ensures HandingOut(cores, Start(cores, s, t, metric))
  {
    hide WithCore;
    var r := Start(cores, s, t, metric);
    assert r.threads.Keys == s.threads.Keys + {t};
    if s.lastCore < |cores| {
      assert cores[..s.lastCore + 1] == cores[..s.lastCore] + [cores[s.lastCore]];
    }
  }

  lemma StartKeeps(cores: seq<Core>, s: State, t: Tid, metric: Metric)
    requires Inv(cores, s)
    ensures Inv(cores, Start(cores, s, t, metric))
  {
    hide Placed, Listed, HandingOut, Start;
    StartListed(cores, s, t, metric);
    StartPlaced(cores, s, t, metric);
    StartHandsOut(cores, s, t, metric);
  }

  /** Replacing the data of one thread keeps the list, and keeps the hand-out as long as the thread does not
      wait and does not take a core that has not been handed out. */
  lemma HandingOutUpdate(cores: seq<Core>, s: State, t: Tid, th: Thread)
    requires HandingOut(cores, s) && Listed(s) && t in s.threads
    requires s.lastCore < |cores| ==> (th.runnable ==> th.core.Some?) && (th.core.Some? ==> th.core.value in cores[..s.lastCore])
    ensures HandingOut(cores, s.(threads := s.threads[t := th])) && Listed(s.(threads := s.threads[t := th]))
  {
    assert s.threads[t := th].Keys == s.threads.Keys;
  }

  lemma StallKeeps(cores: seq<Core>, s: State, t: Tid, unscheduled: bool, metric: Metric)
    requires Inv(cores, s) && t in s.threads
    ensures Inv(cores, Stall(s, t, unscheduled, metric))
  {
    hide HandingOut, Listed, Sorted;
    var old_ := s.threads[t];
    if unscheduled {
      var th := old_.(unscheduled := true);
      PlacedSame(cores, s.threads, t, th);
      HandedOutFacts(cores, s, t);
      HandingOutUpdate(cores, s, t, th);
    } else {
      var th := WithCore(old_, None, metric(t)).(runnable := false);
      var s1 := s.(threads := s.threads[t := th]);
      PlacedDrop(cores, s.threads, t, th);
      HandingOutUpdate(cores, s, t, th);
      var waiting := Waiting(s1.threads, s.order);
      if waiting != [] {
        var best := Sorted(s1.threads, waiting)[0];
        assert best in waiting;
        HandedOutFacts(cores, s1, best);
        var to := WithCore(s1.threads[best], old_.core, metric(best));
        if old_.core.Some? {
          PlacedTake(cores, s1.threads, best, to);
        } else {
          PlacedDrop(cores, s1.threads, best, to);
        }
        HandingOutUpdate(cores, s1, best, to);
      }
    }
  }

  lemma HandedOutFacts(cores: seq<Core>, s: State, t: Tid)
    requires HandingOut(cores, s) && t in s.threads
    ensures s.lastCore < |cores| ==>
              && (s.threads[t].runnable ==> s.threads[t].core.Some?)
              && (s.threads[t].core.Some? ==> s.threads[t].core.value in cores[..s.lastCore])
  {
  }

  // ---------------------------------------------------------------- resuming

  /** While cores are being handed out, a core that has been handed out is the one to take. */
  ghost predicate GoodPick(cores: seq<Core>, s: State, pick: Core)
  {
    s.lastCore < |cores| ==> pick in cores[..s.lastCore]
  }

  /** Resuming keeps the invariant exactly when the pick is good: any free core once all cores have been
      handed out, and before that only cores that have been handed out. */
  lemma ResumeExact(cores: seq<Core>, s: State, t: Tid, pick: Core, metric: Metric)
    requires Inv(cores, s) && t in s.threads && !s.threads[t].unscheduled
    requires FreeCores(cores, s.threads) != {} && pick in FreeCores(cores, s.threads)
    ensures t in s.order && (forall x <- s.order :: x in s.threads)
    ensures Inv(cores, Resume(cores, s, t, pick, metric)) <==> GoodPick(cores, s, pick)
  {
    hide Placed, LeastScore, UsedCores;
    var th := s.threads[t];
    var woken := th.(score := LeastScore(s.threads, s.order), metricLast := metric(t), runnable := true);
    var to := woken.(core := Some(pick));
    SameUse(cores, s.threads, t, woken);
    assert s.threads[t := woken][t := to] == s.threads[t := to];
    NotUsed(s.threads, pick);
    PlacedTake(cores, s.threads, t, to);
    if GoodPick(cores, s, pick) {
      HandingOutUpdate(cores, s, t, to);
    } else {
      assert s.threads[t := to][t].core == Some(pick);
    }
  }

  lemma SameUse(cores: seq<Core>, m: Threads, t: Tid, th: Thread)
    requires t in m && th.core == m[t].core
    ensures UsedCores(m[t := th]) == UsedCores(m)
  {
    var n := m[t := th];
    forall c | c in UsedCores(m)
      ensures c in UsedCores(n)
    {
      var u :| u in m && m[u].core.Some? && m[u].core.value == c;
      assert n[u].core == m[u].core;
    }
    forall c | c in UsedCores(n)
      ensures c in UsedCores(m)
    {
      var u :| u in n && n[u].core.Some? && n[u].core.value == c;
      assert n[u].core == m[u].core;
    }
  }

  lemma SameFree(cores: seq<Core>, m: Threads, t: Tid, th: Thread)
    requires t in m && th.core == m[t].core
    ensures FreeCores(cores, m[t := th]) == FreeCores(cores, m)
  {
    SameUse(cores, m, t, th);
  }

  lemma NotUsed(m: Threads, c: Core)
    requires c !in UsedCores(m)
    ensures forall u <- m :: m[u].core != Some(c)
  {
  }

  /** Without a free core, and for a thread that was only scheduled out, resuming is always safe. */
  lemma ResumeElsewhere(cores: seq<Core>, s: State, t: Tid, pick: Core, metric: Metric)
    requires Inv(cores, s) && t in s.threads && (s.threads[t].unscheduled || FreeCores(cores, s.threads) == {})
    ensures t in s.order && (forall x <- s.order :: x in s.threads)
    ensures Inv(cores, Resume(cores, s, t, pick, metric))
  {
    hide Placed, LeastScore, UsedCores, HandingOut;
    var th := s.threads[t];
    HandedOutFacts(cores, s, t);
    if th.unscheduled {
      PlacedSameThread(cores, s.threads, t, th.(unscheduled := false));
      HandingOutUpdate(cores, s, t, th.(unscheduled := false));
    } else {
      var woken := th.(score := LeastScore(s.threads, s.order), metricLast := metric(t), runnable := true);
      SameUse(cores, s.threads, t, woken);
      PlacedSame(cores, s.threads, t, woken);
      NoFreeCoreEarly(cores, s);
      HandingOutUpdate(cores, s, t, woken);
    }
  }

  lemma PlacedSameThread(cores: seq<Core>, m: Threads, t: Tid, th: Thread)
    requires Placed(cores, m) && t in m && th.core == m[t].core && th.runnable == m[t].runnable
    ensures Placed(cores, m[t := th])
  {
  }

  lemma EarlyHasFree(cores: seq<Core>, s: State)
    requires Inv(cores, s) && s.lastCore < |cores|
    ensures cores[s.lastCore] in FreeCores(cores, s.threads)
  {
    assert cores[s.lastCore] !in cores[..s.lastCore];
  }

  lemma NoFreeCoreEarly(cores: seq<Core>, s: State)
    requires Inv(cores, s) && FreeCores(cores, s.threads) == {}
    ensures s.lastCore == |cores|
  {
    if s.lastCore < |cores| {
      EarlyHasFree(cores, s);
    }
  }

  /** The earliest free core in the list of cores. */
  function Earliest(cores: seq<Core>, m: Threads): (c: Core)
    requires FreeCores(cores, m) != {}
    ensures c in FreeCores(cores, m)
    ensures exists k :: 0 <= k < |cores| && cores[k] == c && forall i :: 0 <= i < k ==> cores[i] !in FreeCores(cores, m)
    decreases |cores|
  {
    if cores[0] in FreeCores(cores, m) then cores[0]
    else
      assert FreeCores(cores[1..], m) == FreeCores(cores, m) by { DropUsed(cores, m); }
      var c := Earliest(cores[1..], m);
      assert exists k :: 0 <= k < |cores| && cores[k] == c && forall i :: 0 <= i < k ==> cores[i] !in FreeCores(cores, m) by {
        var j :| 0 <= j < |cores| - 1 && cores[1..][j] == c && forall i :: 0 <= i < j ==> cores[1..][i] !in FreeCores(cores, m);
        assert cores[j + 1] == c;
        assert forall i :: 0 <= i < j + 1 ==> cores[i] !in FreeCores(cores, m) by {
          forall i | 0 <= i < j + 1
            ensures cores[i] !in FreeCores(cores, m)
          {
            if i > 0 { assert cores[i] == cores[1..][i - 1]; }
          }
        }
      }
      c
  }

  lemma DropUsed(cores: seq<Core>, m: Threads)
    requires cores != [] && cores[0] !in FreeCores(cores, m)
    ensures FreeCores(cores[1..], m) == FreeCores(cores, m)
  {
    assert cores == [cores[0]] + cores[1..];
  }

  function CoresOf(m: Threads, ts: set<Tid>): (s: set<Core>)
  {
    set t | t in ts && t in m && m[t].core.Some? :: m[t].core.value
  }

  lemma {:induction false} CoresOfSize(m: Threads, ts: set<Tid>)
    ensures |CoresOf(m, ts)| <= |ts|
    decreases ts
  {
    if ts == {} {
      assert CoresOf(m, ts) == {};
    } else {
      var t :| t in ts;
      var rest := ts - {t};
      CoresOfSize(m, rest);
      var one := if t in m && m[t].core.Some? then {m[t].core.value} else {};
      assert CoresOf(m, ts) == CoresOf(m, rest) + one;
    }
  }

  /** The earliest free core has been handed out already, if the resumed thread has no core. */
  lemma EarliestIsGood(cores: seq<Core>, s: State, t: Tid)
    requires Inv(cores, s) && t in s.threads && s.threads[t].core.None? && FreeCores(cores, s.threads) != {}
    ensures GoodPick(cores, s, Earliest(cores, s.threads))
  {
    if s.lastCore < |cores| {
      hide Earliest, Placed, Listed;
      var low := cores[..s.lastCore];
      var others := s.threads.Keys - {t};
      CoresOfSize(s.threads, others);
      assert UsedCores(s.threads) == CoresOf(s.threads, others);
      SetSize(low);
      if Elements(low) <= UsedCores(s.threads) {
        SubsetSize(Elements(low), UsedCores(s.threads));
        assert false;
      }
      var c :| c in Elements(low) && c !in UsedCores(s.threads);
      var i :| 0 <= i < |low| && low[i] == c;
      var e := Earliest(cores, s.threads);
      var k :| 0 <= k < |cores| && cores[k] == e && forall i :: 0 <= i < k ==> cores[i] !in FreeCores(cores, s.threads);
      assert cores[i] in FreeCores(cores, s.threads);
      assert k <= i;
      assert low[k] == e;
    }
  }

  // ---------------------------------------------------------------- what the hooks do for the threads

  /** Nobody but the given threads changes. */
  ghost predicate OnlyChanges(m: Threads, r: Threads, ts: set<Tid>)
  {
    r.Keys == m.Keys + ts && forall t <- m :: t !in ts ==> r[t] == m[t]
  }

  /** A new thread can run; it gets the next core exactly if one is left to hand out. */
  lemma StartPlaces(cores: seq<Core>, s: State, t: Tid, metric: Metric)
    requires Inv(cores, s) && t !in s.threads
    ensures var r := Start(cores, s, t, metric);
            && OnlyChanges(s.threads, r.threads, {t}) && r.threads[t].runnable
            && (r.threads[t].core.Some? <==> s.lastCore < |cores|)
            && (r.threads[t].core.Some? ==> forall u <- s.threads :: s.threads[u].core != r.threads[t].core)
  {
    hide Placed, Listed;
    if s.lastCore < |cores| {
      assert cores[s.lastCore] !in cores[..s.lastCore];
    }
  }

  /** Who may take over a core: runnable, without a core, and none such has a better score. */
  ghost predicate Best(m: Threads, b: Tid)
  {
    && b in m && m[b].runnable && m[b].core.None?
    && forall u <- m :: m[u].runnable && m[u].core.None? ==> m[b].score <= m[u].score
  }

  ghost predicate NoneWaits(m: Threads, except: Tid)
  {
    forall u <- m :: u != except ==> !(m[u].runnable && m[u].core.None?)
  }

  /** A thread that stalls gives up its core; a best waiting thread, if there is one, takes it over at once. */
  ghost predicate HandsOver(m: Threads, t: Tid, r: Threads)
    requires t in m
  {
    && t in r && !r[t].runnable && r[t].core.None?
    && (if NoneWaits(m, t) then OnlyChanges(m, r, {t})
        else exists b :: b != t && b in r && OnlyChanges(m, r, {t, b}) && Best(m - {t}, b) && r[b].core == m[t].core && r[b].runnable)
  }

  lemma StallHandsOver(cores: seq<Core>, s: State, t: Tid, metric: Metric)
    requires Inv(cores, s) && t in s.threads
    ensures HandsOver(s.threads, t, Stall(s, t, false, metric).threads)
  {
    hide Sorted, Placed, HandingOut, Waiting, Best, NoneWaits, Distinct;
    var m := s.threads[t := WithCore(s.threads[t], None, metric(t)).(runnable := false)];
    SomeWaits(s.threads, s.order, t, m[t]);
    if Waiting(m, s.order) != [] {
      FirstIsBest(m, s.order);
      var b := Sorted(m, Waiting(m, s.order))[0];
      BestOfOthers(s.threads, t, m[t], b);
      assert m[b] == s.threads[b];
    }
  }

  lemma SomeWaits(m: Threads, order: seq<Tid>, t: Tid, th: Thread)
    requires (forall u :: u in order <==> u in m) && t in m && !th.runnable
    ensures Waiting(m[t := th], order) == [] <==> NoneWaits(m, t)
  {
    var waiting := Waiting(m[t := th], order);
    assert forall u <- m :: u != t ==> (u in waiting <==> m[u].runnable && m[u].core.None?);
    if waiting != [] {
      assert waiting[0] in waiting;
    }
  }

  lemma BestOfOthers(m: Threads, t: Tid, th: Thread, b: Tid)
    requires t in m && !th.runnable && Best(m[t := th], b)
    ensures b != t && b in m && Best(m - {t}, b) && m[b].runnable && m[b].core.None?
  {
    forall u | u in m - {t} && m[u].runnable && m[u].core.None?
      ensures m[b].score <= m[u].score
    {
      assert m[t := th][u] == m[u];
    }
  }

  lemma FirstIsBest(m: Threads, order: seq<Tid>)
    requires (forall t :: t in order <==> t in m) && Waiting(m, order) != []
    ensures Best(m, Sorted(m, Waiting(m, order))[0])
  {
    hide Sorted, ByScore;
    var waiting := Waiting(m, order);
    var sorted := Sorted(m, waiting);
    SortedOrdered(m, waiting);
    HeadLeast(m, sorted);
    assert sorted[0] in waiting;
    assert forall u <- m :: m[u].runnable && m[u].core.None? ==> u in sorted;
  }

  /** A thread that resumes can run, with a score no worse than anyone's, and takes the core that is picked. */
  lemma ResumeWakes(cores: seq<Core>, s: State, t: Tid, pick: Core, metric: Metric)
    requires Listed(s) && t in s.threads && !s.threads[t].unscheduled
    ensures var r := Resume(cores, s, t, pick, metric).threads;
            && OnlyChanges(s.threads, r, {t}) && r[t].runnable && r[t].metricLast == metric(t)
            && (forall u <- s.threads :: r[t].score <= s.threads[u].score)
            && (exists u <- s.threads :: r[t].score == s.threads[u].score)
            && r[t].core == if FreeCores(cores, s.threads) == {} then s.threads[t].core else Some(pick)
  {
    hide LeastScore, FreeCores;
    var woken := s.threads[t].(score := LeastScore(s.threads, s.order), metricLast := metric(t), runnable := true);
    SameFree(cores, s.threads, t, woken);
  }

  // ---------------------------------------------------------------- the periodic reassignment

  function Refreshed(m: Threads, metric: Metric): (r: Threads)
  {
    map t | t in m :: if m[t].core.Some? then Updated(m[t], metric(t)) else m[t]
  }

  function Runnable(m: Threads, order: seq<Tid>): (ts: seq<Tid>)
  {
    Filter(order, (t: Tid) => t in m && m[t].runnable)
  }

  function Min(a: nat, b: nat): (c: nat)
    ensures c <= a && c <= b && (c == a || c == b)
  {
    if a <= b then a else b
  }

  /** The threads to run now, best score first. */
  function Selected(cores: seq<Core>, m: Threads, order: seq<Tid>): (ts: seq<Tid>)
  {
    var sorted := Sorted(m, Runnable(m, order));
    sorted[..Min(|sorted|, |cores|)]
  }

  function Keep(m: Threads, sel: seq<Tid>): (ts: seq<Tid>)
  {
    Filter(sel, (t: Tid) => t in m && m[t].core.Some?)
  }

  function New(m: Threads, sel: seq<Tid>): (ts: seq<Tid>)
  {
    Filter(sel, (t: Tid) => t in m && m[t].core.None?)
  }

  /** `sorted(free_cores)`; the list of cores is ascending. */
  function FreeList(cores: seq<Core>, m: Threads, keep: seq<Tid>): (cs: seq<Core>)
  {
    Filter(cores, (c: Core) => c !in CoresOf(m, Elements(keep)))
  }

  predicate Ascending(cs: seq<Core>)
  {
    forall i, j :: 0 <= i < j < |cs| ==> cs[i] < cs[j]
  }

  /** Why filtering models `sorted` here. */
  lemma {:induction false} FilterAscending(cs: seq<Core>, keep: nat -> bool)
    requires Ascending(cs)
    ensures Ascending(Filter(cs, keep))
  {
    if cs != [] {
      FilterAscending(cs[..|cs| - 1], keep);
      var rest := Filter(cs[..|cs| - 1], keep);
      forall i | 0 <= i < |rest|
        ensures rest[i] < cs[|cs| - 1]
      {
        assert rest[i] in cs[..|cs| - 1];
      }
    }
  }

  function IndexOf(ts: seq<nat>, t: nat): (k: nat)
    requires t in ts
    ensures k < |ts| && ts[k] == t
  {
    if ts[0] == t then 0 else 1 + IndexOf(ts[1..], t)
  }

  /** The core of t once the first i new threads have been placed. */
  function CoreAfter(m: Threads, new_: seq<Tid>, free: seq<Core>, i: nat, t: Tid): (c: Option<Core>)
    requires t in m && i <= |new_| && i <= |free|
  {
    if t in new_[..i] then Some(free[IndexOf(new_[..i], t)])
    else if m[t].core.Some? && m[t].core.value in free[..i] then None
    else m[t].core
  }

  function Assigned(m: Threads, new_: seq<Tid>, free: seq<Core>, i: nat): (r: Threads)
    requires i <= |new_| && i <= |free|
  {
    map t | t in m :: m[t].(core := CoreAfter(m, new_, free, i, t))
  }

  function Periodic(cores: seq<Core>, s: State, metric: Metric): (r: State)
  {
    var m := Refreshed(s.threads, metric);
    var sel := Selected(cores, m, s.order);
    var new_, free := New(m, sel), FreeList(cores, m, Keep(m, sel));
    s.(threads := Assigned(m, new_, free, Min(|new_|, |free|)))
  }

  lemma RefreshedPlaced(cores: seq<Core>, m: Threads, metric: Metric)
    requires Placed(cores, m)
    ensures Placed(cores, Refreshed(m, metric))
  {
  }

  lemma PrefixBest(m: Threads, ts: seq<Tid>, n: nat)
    requires ByScore(m, ts) && n <= |ts|
    ensures forall t, u :: t in ts[..n] && u in ts && u !in ts[..n] ==> m[t].score <= m[u].score
  {
    forall t, u | t in ts[..n] && u in ts && u !in ts[..n]
      ensures m[t].score <= m[u].score
    {
      assert ts == ts[..n] + ts[n..];
      assert u in ts[n..];
      var i :| 0 <= i < n && ts[..n][i] == t;
      var j :| 0 <= j < |ts| - n && ts[n..][j] == u;
      assert ts[i] == t && ts[n + j] == u;
    }
  }

  /** What the selection consists of. */
  ghost predicate Selects(cores: seq<Core>, m: Threads, order: seq<Tid>, sel: seq<Tid>)
  {
    && Distinct(sel) && |sel| == Min(|Runnable(m, order)|, |cores|)
    && (forall t <- sel :: t in m && m[t].runnable)
    && (forall t, u :: t in sel && u in m && m[u].runnable && u !in sel ==> m[t].score <= m[u].score)
    && (|sel| < |cores| ==> forall t <- m :: m[t].runnable ==> t in sel)
  }

  lemma SelectedFacts(cores: seq<Core>, m: Threads, order: seq<Tid>)
    requires Distinct(order) && forall t :: t in order <==> t in m
    ensures Selects(cores, m, order, Selected(cores, m, order))
  {
    hide Sorted, ByScore;
    var all := Runnable(m, order);
    var sorted := Sorted(m, all);
    FilterDistinct(order, (t: Tid) => t in m && m[t].runnable);
    SortedDistinct(m, all);
    SortedOrdered(m, all);
    var n := Min(|sorted|, |cores|);
    PrefixBest(m, sorted, n);
    assert forall u <- m :: m[u].runnable ==> u in sorted;
    assert forall t <- sorted[..n] :: t in sorted;
    assert n == |sorted| ==> sorted[..n] == sorted;
  }

  lemma {:induction false} CoresOfCount(m: Threads, ts: seq<Tid>)
    requires Distinct(ts) && (forall t <- ts :: t in m && m[t].core.Some?)
    requires forall t, u :: t in m && u in m && t != u && m[t].core.Some? ==> m[t].core != m[u].core
    ensures |CoresOf(m, Elements(ts))| == |ts|
  {
    if ts == [] {
      assert CoresOf(m, Elements(ts)) == {};
    } else {
      var rest, t := ts[..|ts| - 1], ts[|ts| - 1];
      CoresOfCount(m, rest);
      assert ts == rest + [t] && t !in rest;
      assert CoresOf(m, Elements(ts)) == CoresOf(m, Elements(rest)) + {m[t].core.value};
      assert m[t].core.value !in CoresOf(m, Elements(rest));
    }
  }

  /** There are as many free cores as cores that no kept thread uses, so the assert in periodic holds. */
  lemma EnoughCores(cores: seq<Core>, m: Threads, sel: seq<Tid>)
    requires Distinct(cores) && Placed(cores, m) && Distinct(sel) && |sel| <= |cores| && forall t <- sel :: t in m
    ensures var keep, new_ := Keep(m, sel), New(m, sel); var free := FreeList(cores, m, keep);
            && Distinct(keep) && Distinct(new_) && Distinct(free)
            && |keep| + |new_| == |sel| && |free| == |cores| - |keep| && |new_| <= |free|
  {
    hide CoresOf, Placed;
    var keep, new_ := Keep(m, sel), New(m, sel);
    FilterDistinct(sel, (t: Tid) => t in m && m[t].core.Some?);
    FilterDistinct(sel, (t: Tid) => t in m && m[t].core.None?);
    FilterSplit(sel, (t: Tid) => t in m && m[t].core.Some?, (t: Tid) => t in m && m[t].core.None?);
    var used := CoresOf(m, Elements(keep));
    var free := FreeList(cores, m, keep);
    FilterDistinct(cores, (c: Core) => c !in used);
    FilterDistinct(cores, (c: Core) => c in used);
    FilterSplit(cores, (c: Core) => c !in used, (c: Core) => c in used);
    var taken := Filter(cores, (c: Core) => c in used);
    SetSize(taken);
    KeptCores(cores, m, keep);
    assert Elements(taken) == used;
  }

  lemma KeptCores(cores: seq<Core>, m: Threads, keep: seq<Tid>)
    requires Placed(cores, m) && Distinct(keep) && forall t <- keep :: t in m && m[t].core.Some?
    ensures |CoresOf(m, Elements(keep))| == |keep| && forall c <- CoresOf(m, Elements(keep)) :: c in cores
  {
    CoresOfCount(m, keep);
  }

  /** New threads on distinct free cores, and no one else there. */
  lemma AssignedPlaced(cores: seq<Core>, m: Threads, new_: seq<Tid>, free: seq<Core>, i: nat)
    requires Placed(cores, m) && i <= |new_| && i <= |free| && Distinct(new_) && Distinct(free)
    requires (forall t <- new_ :: t in m && m[t].runnable) && forall c <- free :: c in cores
    ensures Placed(cores, Assigned(m, new_, free, i))
  {
    hide IndexOf;
    var r := Assigned(m, new_, free, i);
    assert forall t <- new_[..i] :: t in new_;
    forall t | t in r && r[t].core.Some?
      ensures r[t].core.value in cores && r[t].runnable
      ensures t in new_[..i] <==> r[t].core.value in free[..i]
    {
      if t in new_[..i] {
        assert free[IndexOf(new_[..i], t)] == free[..i][IndexOf(new_[..i], t)];
      }
    }
    forall t, u | t in r && u in r && t != u && r[t].core.Some?
      ensures r[t].core != r[u].core
    {
      if t in new_[..i] && u in new_[..i] {
        var a, b := IndexOf(new_[..i], t), IndexOf(new_[..i], u);
        assert free[a] != free[b];
      }
    }
  }

  /** After the reassignment exactly the selected threads run. */
  lemma ExactlySelected(cores: seq<Core>, m: Threads, order: seq<Tid>, t: Tid)
    requires Distinct(cores) && Placed(cores, m) && Distinct(order) && (forall x :: x in order <==> x in m) && t in m
    ensures var sel := Selected(cores, m, order); var new_, free := New(m, sel), FreeList(cores, m, Keep(m, sel));
            && |new_| <= |free|
            && (CoreAfter(m, new_, free, |new_|, t).Some? <==> t in sel)
            && (t in sel && m[t].core.Some? ==> CoreAfter(m, new_, free, |new_|, t) == m[t].core)
  {
    hide Selected, IndexOf, FreeList;
    var sel := Selected(cores, m, order);
    var keep, new_ := Keep(m, sel), New(m, sel);
    var free := FreeList(cores, m, keep);
    SelectedFacts(cores, m, order);
    EnoughCores(cores, m, sel);
    FreeListIs(cores, m, keep);
    assert new_[..|new_|] == new_;
    if t in sel && m[t].core.Some? {
      assert t in keep;
    }
    if t !in sel && m[t].core.Some? {
      UnselectedLoses(cores, m, order, t);
    }
  }

  lemma FreeListIs(cores: seq<Core>, m: Threads, keep: seq<Tid>)
    ensures forall c :: c in FreeList(cores, m, keep) <==> c in cores && c !in CoresOf(m, Elements(keep))
    ensures forall t <- keep :: t in m && m[t].core.Some? ==> m[t].core.value !in FreeList(cores, m, keep)
  {
  }

  /** A running thread that is not selected: all free cores are needed, among them its own. */
  lemma UnselectedLoses(cores: seq<Core>, m: Threads, order: seq<Tid>, t: Tid)
    requires Distinct(cores) && Placed(cores, m) && Distinct(order) && (forall x :: x in order <==> x in m)
    requires t in m && m[t].core.Some? && t !in Selected(cores, m, order)
    ensures var sel := Selected(cores, m, order); var new_, free := New(m, sel), FreeList(cores, m, Keep(m, sel));
            |new_| == |free| && m[t].core.value in free
  {
    hide Selected, FreeList;
    var sel := Selected(cores, m, order);
    var keep := Keep(m, sel);
    SelectedFacts(cores, m, order);
    EnoughCores(cores, m, sel);
    FreeListIs(cores, m, keep);
    assert m[t].core.value !in CoresOf(m, Elements(keep)) by { NotKept(cores, m, keep, t); }
  }

  lemma NotKept(cores: seq<Core>, m: Threads, keep: seq<Tid>, t: Tid)
    requires Placed(cores, m) && t in m && m[t].core.Some? && t !in keep && forall u <- keep :: u in m
    ensures m[t].core.value !in CoresOf(m, Elements(keep))
  {
  }

  function Running(m: Threads): (s: set<Tid>)
  {
    set t | t in m && m[t].core.Some?
  }

  /** What periodic achieves. */
  ghost predicate Balanced(cores: seq<Core>, before: State, metric: Metric, after: State)
  {
    var m := Refreshed(before.threads, metric);
    var r := after.threads;
    && r.Keys == m.Keys && (forall t <- r :: r[t] == m[t].(core := r[t].core))
    // as many threads run as can
    && |Running(r)| == Min(|Runnable(m, before.order)|, |cores|)
    // the best scores run
    && (forall t, u :: t in Running(r) && u in r && r[u].runnable && u !in Running(r) ==> r[t].score <= r[u].score)
    // no core is idle while a runnable thread waits
    && ((exists u :: u in r && r[u].runnable && u !in Running(r)) ==> FreeCores(cores, r) == {})
    // threads that go on running stay where they are
    && (forall t :: t in Running(r) && t in Running(m) ==> r[t].core == m[t].core)
  }

  /** The reassignment of refreshed threads m, in terms of the selection. */
  ghost predicate Reassigned(cores: seq<Core>, m: Threads, sel: seq<Tid>, r: Threads)
  {
    && r.Keys == m.Keys && (forall t <- r :: r[t] == m[t].(core := r[t].core))
    && Placed(cores, r)
    && (forall t <- r :: r[t].core.Some? <==> t in sel)
    && (forall t <- r :: t in sel && m[t].core.Some? ==> r[t].core == m[t].core)
  }

  lemma PeriodicReassigns(cores: seq<Core>, s: State, metric: Metric)
    requires Inv(cores, s)
    ensures var m := Refreshed(s.threads, metric); var sel := Selected(cores, m, s.order);
            && |New(m, sel)| <= |FreeList(cores, m, Keep(m, sel))|
            && Reassigned(cores, m, sel, Periodic(cores, s, metric).threads)
  {
    hide Selected, CoreAfter, HandingOut, FreeList, New, Keep, Placed;
    var m := Refreshed(s.threads, metric);
    var sel := Selected(cores, m, s.order);
    var new_, free := New(m, sel), FreeList(cores, m, Keep(m, sel));
    RefreshedPlaced(cores, s.threads, metric);
    SelectedFacts(cores, m, s.order);
    EnoughCores(cores, m, sel);
    NewFacts(cores, m, sel);
    AssignedPlaced(cores, m, new_, free, |new_|);
    forall t | t in m
      ensures CoreAfter(m, new_, free, |new_|, t).Some? <==> t in sel
      ensures t in sel && m[t].core.Some? ==> CoreAfter(m, new_, free, |new_|, t) == m[t].core
    {
      ExactlySelected(cores, m, s.order, t);
    }
  }

  lemma PeriodicBalances(cores: seq<Core>, s: State, metric: Metric)
    requires Inv(cores, s)
    ensures Balanced(cores, s, metric, Periodic(cores, s, metric))
  {
    hide Selected, Periodic, Refreshed, HandingOut, Listed, FreeCores, Runnable, Placed;
    var m := Refreshed(s.threads, metric);
    var sel := Selected(cores, m, s.order);
    PeriodicReassigns(cores, s, metric);
    assert Selects(cores, m, s.order, sel) by { RefreshedListed(s, metric); SelectedFacts(cores, m, s.order); }
    var r := Periodic(cores, s, metric).threads;
    assert Running(r) == Elements(sel);
    SetSize(sel);
    if exists u :: u in r && r[u].runnable && u !in Running(r) {
      AllCoresUsed(cores, r);
    }
  }

  lemma RefreshedListed(s: State, metric: Metric)
    requires Listed(s)
    ensures Distinct(s.order) && forall t :: t in s.order <==> t in Refreshed(s.threads, metric)
  {
  }

  /** If all runnable threads run and there is a core for each, nothing moves. */
  lemma Unmoved(cores: seq<Core>, m: Threads, order: seq<Tid>, sel: seq<Tid>, r: Threads)
    requires Reassigned(cores, m, sel, r) && Selects(cores, m, order, sel) && Placed(cores, m) && |sel| < |cores|
    requires forall t <- m :: m[t].runnable ==> m[t].core.Some?
    ensures forall t <- r :: r[t].core == m[t].core
  {
    hide Runnable;
  }

  lemma PeriodicUnmoved(cores: seq<Core>, s: State, metric: Metric)
    requires Inv(cores, s) && s.lastCore < |cores|
    ensures var r := Periodic(cores, s, metric).threads;
            r.Keys == s.threads.Keys && forall t <- r :: r[t].core == s.threads[t].core
  {
    hide Selected, Periodic, Placed, Reassigned, Selects;
    var m := Refreshed(s.threads, metric);
    var sel := Selected(cores, m, s.order);
    PeriodicReassigns(cores, s, metric);
    SelectedFacts(cores, m, s.order);
    RefreshedPlaced(cores, s.threads, metric);
    EarlyThreads(cores, s);
    assert |sel| < |cores| by {
      assert Distinct(sel) && forall t <- sel :: t in m by { SelectsThreads(cores, m, s.order, sel); }
      SetSize(sel);
      SubsetSize(Elements(sel), s.threads.Keys);
    }
    Unmoved(cores, m, s.order, sel, Periodic(cores, s, metric).threads);
    assert Periodic(cores, s, metric).threads.Keys == m.Keys by { ReassignedKeys(cores, m, sel, Periodic(cores, s, metric).threads); }
  }

  lemma SelectsThreads(cores: seq<Core>, m: Threads, order: seq<Tid>, sel: seq<Tid>)
    requires Selects(cores, m, order, sel)
    ensures Distinct(sel) && forall t <- sel :: t in m
  {
  }

  lemma ReassignedKeys(cores: seq<Core>, m: Threads, sel: seq<Tid>, r: Threads)
    requires Reassigned(cores, m, sel, r)
    ensures r.Keys == m.Keys && Placed(cores, r) && forall t <- r :: r[t].runnable == m[t].runnable
  {
  }

  lemma PeriodicKeeps(cores: seq<Core>, s: State, metric: Metric)
    requires Inv(cores, s)
    ensures Inv(cores, Periodic(cores, s, metric))
  {
    hide Selected, Periodic, HandingOut, Placed, Reassigned;
    var m := Refreshed(s.threads, metric);
    var r := Periodic(cores, s, metric);
    PeriodicReassigns(cores, s, metric);
    ReassignedKeys(cores, m, Selected(cores, m, s.order), r.threads);
    PeriodicFrame(cores, s, metric);
    if s.lastCore < |cores| {
      PeriodicUnmoved(cores, s, metric);
    }
    PeriodicHandsOut(cores, s, metric, r.threads);
  }

  lemma PeriodicFrame(cores: seq<Core>, s: State, metric: Metric)
    ensures var r := Periodic(cores, s, metric); r.order == s.order && r.lastCore == s.lastCore
  {
  }

  lemma EarlyThreads(cores: seq<Core>, s: State)
    requires HandingOut(cores, s) && s.lastCore < |cores|
    ensures |s.threads| < |cores| && forall t <- s.threads :: s.threads[t].runnable ==> s.threads[t].core.Some?
  {
  }

  lemma NewFacts(cores: seq<Core>, m: Threads, sel: seq<Tid>)
    requires forall t <- sel :: t in m && m[t].runnable
    ensures (forall t <- New(m, sel) :: t in m && m[t].runnable) && forall c <- FreeList(cores, m, Keep(m, sel)) :: c in cores
  {
  }

  lemma SameSize<T>(a: set<T>, b: set<T>)
    requires a <= b && |a| == |b|
    ensures b - a == {}
  {
    assert b == a + (b - a);
  }

  /** As many running threads as cores: every core is used. */
  lemma AllCoresUsed(cores: seq<Core>, m: Threads)
    requires Distinct(cores) && Placed(cores, m) && |Running(m)| == |cores|
    ensures FreeCores(cores, m) == {}
  {
    SetSize(cores);
    UsedSize(cores, m, Running(m));
    assert UsedCores(m) == CoresOf(m, Running(m));
    SameSize(UsedCores(m), Elements(cores));
  }

  lemma {:induction false} UsedSize(cores: seq<Core>, m: Threads, ts: set<Tid>)
    requires Placed(cores, m) && ts <= Running(m)
    ensures |CoresOf(m, ts)| == |ts|
    decreases ts
  {
    if ts == {} {
      assert CoresOf(m, ts) == {};
    } else {
      var t :| t in ts;
      var rest := ts - {t};
      UsedSize(cores, m, rest);
      assert CoresOf(m, ts) == CoresOf(m, rest) + {m[t].core.value};
      assert m[t].core.value !in CoresOf(m, rest);
    }
  }

  /** While cores are being handed out no runnable thread waits, and nothing moves. */
  lemma PeriodicHandsOut(cores: seq<Core>, s: State, metric: Metric, r: Threads)
    requires Inv(cores, s) && r.Keys == s.threads.Keys
    requires forall t <- r :: r[t].runnable == s.threads[t].runnable
    requires forall t <- r :: s.lastCore < |cores| ==> r[t].core == s.threads[t].core
    ensures HandingOut(cores, s.(threads := r))
  {
  }

  // ---------------------------------------------------------------- whole runs

  datatype Event =
    | Started(t: Tid, metric: Metric)
    | Stalled(t: Tid, unscheduled: bool, metric: Metric)   // also thread exit
    | Resumed(t: Tid, pick: Core, metric: Metric)
    | Ticked(metric: Metric)

  /** Hooks are called for known threads.  The pick of a resume is some free core; until all cores have
      been handed out it is the earliest one, and the thread has no core yet. */
  ghost predicate Allowed(cores: seq<Core>, s: State, e: Event)
  {
    match e
    case Started(_, _) => true
    case Stalled(t, _, _) => t in s.threads
    case Resumed(t, pick, _) =>
      && t in s.threads
      && (s.threads[t].unscheduled || FreeCores(cores, s.threads) == {} ||
          (&& pick in FreeCores(cores, s.threads)
           && (s.lastCore < |cores| ==> s.threads[t].core.None? && pick == Earliest(cores, s.threads))))
    case Ticked(_) => true
  }

  ghost function Step(cores: seq<Core>, s: State, e: Event): (r: State)
    requires Inv(cores, s) && Allowed(cores, s, e)
  {
    match e
    case Started(t, metric) => Start(cores, s, t, metric)
    case Stalled(t, unscheduled, metric) => Stall(s, t, unscheduled, metric)
    case Resumed(t, pick, metric) => Resume(cores, s, t, pick, metric)
    case Ticked(metric) => Periodic(cores, s, metric)
  }

  lemma StepKeeps(cores: seq<Core>, s: State, e: Event)
    requires Inv(cores, s) && Allowed(cores, s, e)
    ensures Inv(cores, Step(cores, s, e))
  {
    hide Inv, Start, Stall, Resume, Periodic, Earliest, FreeCores;
    match e
    case Started(t, metric) => StartKeeps(cores, s, t, metric);
    case Stalled(t, unscheduled, metric) => StallKeeps(cores, s, t, unscheduled, metric);
    case Resumed(t, pick, metric) =>
      if s.threads[t].unscheduled || FreeCores(cores, s.threads) == {} {
        ResumeElsewhere(cores, s, t, pick, metric);
      } else {
        if s.lastCore < |cores| {
          EarliestIsGood(cores, s, t);
        }
        ResumeExact(cores, s, t, pick, metric);
      }
    case Ticked(metric) => PeriodicKeeps(cores, s, metric);
  }

  /** The states of a run of allowed events; a step is defined on good states, which is all a run ever meets. */
  ghost predicate IsRun(cores: seq<Core>, states: seq<State>, events: seq<Event>)
  {
    && |states| == |events| + 1
    && forall i :: 0 <= i < |events| ==>
         Inv(cores, states[i]) ==> Allowed(cores, states[i], events[i]) && states[i + 1] == Step(cores, states[i], events[i])
  }

  /** In every run from a good state every state is good. */
  lemma {:induction false} RunsKeepInv(cores: seq<Core>, states: seq<State>, events: seq<Event>, n: nat)
    requires IsRun(cores, states, events) && Inv(cores, states[0]) && n < |states|
    ensures Inv(cores, states[n])
    decreases n
  {
    hide Inv, Step, Allowed;
    if n > 0 {
      var i := n - 1;
      RunsKeepInv(cores, states, events, i);
      assert events[i] == events[n - 1] && states[i + 1] == states[n];
      StepKeeps(cores, states[i], events[i]);
    }
  }

  /** In every run from the start: one thread per core, only cores of ours, only runnable threads. */
  lemma RunsPlace(cores: seq<Core>, states: seq<State>, events: seq<Event>, n: nat)
    requires Distinct(cores) && IsRun(cores, states, events) && states[0] == EMPTY && n < |states|
    ensures Listed(states[n]) && Placed(cores, states[n].threads)
  {
    hide IsRun, Listed, Placed, HandingOut;
    InitInv(cores);
    RunsKeepInv(cores, states, events, n);
  }

  // ---------------------------------------------------------------- a bad pick always shows

  /** Threads that are not known yet start one after the other. */
  function StartAll(cores: seq<Core>, s: State, ts: seq<Tid>, metric: Metric): (r: State)
  {
    if ts == [] then s else Start(cores, StartAll(cores, s, ts[..|ts| - 1], metric), ts[|ts| - 1], metric)
  }

  ghost predicate Unknown(s: State, ts: seq<Tid>)
  {
    Distinct(ts) && forall t <- ts :: t !in s.threads
  }

  lemma StartOne(cores: seq<Core>, s: State, t: Tid, metric: Metric)
    requires s.lastCore < |cores|
    ensures var r := Start(cores, s, t, metric);
            && r.lastCore == s.lastCore + 1 && t in r.threads && r.threads == s.threads[t := r.threads[t]]
            && r.threads[t].core == Some(cores[s.lastCore])
  {
  }

  /** The i-th new thread gets the i-th core that is left, and the others stay where they are. */
  ghost predicate StartedOn(cores: seq<Core>, s: State, ts: seq<Tid>, r: State)
    requires s.lastCore + |ts| <= |cores|
  {
    && r.lastCore == s.lastCore + |ts|
    && (forall t <- s.threads :: t in r.threads && r.threads[t] == s.threads[t])
    && (forall i :: 0 <= i < |ts| ==> ts[i] in r.threads && r.threads[ts[i]].core == Some(cores[s.lastCore + i]))
  }

  lemma {:induction false} StartsPlace(cores: seq<Core>, s: State, ts: seq<Tid>, metric: Metric)
    requires Unknown(s, ts) && s.lastCore + |ts| <= |cores|
    ensures StartedOn(cores, s, ts, StartAll(cores, s, ts, metric))
    decreases ts
  {
    hide Start;
    if ts != [] {
      var n := |ts| - 1;
      assert ts[n] in ts && forall t <- ts[..n] :: t in ts;
      StartsPlace(cores, s, ts[..n], metric);
      StartOne(cores, StartAll(cores, s, ts[..n], metric), ts[n], metric);
      var r := StartAll(cores, s, ts, metric);
      forall i | 0 <= i < |ts|
        ensures ts[i] in r.threads && r.threads[ts[i]].core == Some(cores[s.lastCore + i])
      {
        if i < n {
          assert ts[..n][i] == ts[i];
        }
      }
    }
  }

  lemma {:induction false} StartsKeep(cores: seq<Core>, s: State, ts: seq<Tid>, metric: Metric)
    requires Inv(cores, s)
    ensures Inv(cores, StartAll(cores, s, ts, metric))
    decreases ts
  {
    hide Inv, Start;
    if ts != [] {
      StartsKeep(cores, s, ts[..|ts| - 1], metric);
      StartKeeps(cores, StartAll(cores, s, ts[..|ts| - 1], metric), ts[|ts| - 1], metric);
    }
  }

  /** On any list of cores and in any good state: after a bad pick, the new thread that is handed the picked
      core clashes with the thread that resumed there. */
  lemma BadPickClashes(cores: seq<Core>, s: State, t: Tid, pick: Core, metric: Metric, ts: seq<Tid>)
    requires Inv(cores, s) && t in s.threads && !s.threads[t].unscheduled
    requires pick in FreeCores(cores, s.threads) && !GoodPick(cores, s, pick)
    requires Unknown(s, ts) && s.lastCore + |ts| <= |cores| && |ts| > 0 && cores[s.lastCore + |ts| - 1] == pick
    ensures t in s.order && (forall x <- s.order :: x in s.threads)
    ensures var r := StartAll(cores, Resume(cores, s, t, pick, metric), ts, metric).threads;
            var u := ts[|ts| - 1];
            t in r && u in r && t != u && r[t].core == r[u].core == Some(pick) && !Placed(cores, r)
  {
    hide FreeCores, Resume, StartAll, Placed, HandingOut, GoodPick, Distinct;
    var a := Resume(cores, s, t, pick, metric);
    assert FreeCores(cores, s.threads) != {};
    ResumeTakes(cores, s, t, pick, metric);
    StartsPlace(cores, a, ts, metric);
    var u := ts[|ts| - 1];
    assert u in ts;
    TwoOnOne(cores, StartAll(cores, a, ts, metric).threads, t, u);
  }

  lemma TwoOnOne(cores: seq<Core>, m: Threads, t: Tid, u: Tid)
    requires t in m && u in m && t != u && m[t].core.Some? && m[t].core == m[u].core
    ensures !Placed(cores, m)
  {
  }

  lemma {:induction false} UnknownIds(known: set<Tid>, n: nat) returns (ts: seq<Tid>)
    ensures |ts| == n && Distinct(ts) && forall t <- ts :: t !in known
  {
    var top := Above(known);
    ts := seq(n, (i: int) requires 0 <= i < n => top + i);
  }

  lemma {:induction false} Above(known: set<Tid>) returns (top: Tid)
    ensures forall t <- known :: t < top
    decreases known
  {
    if known == {} {
      top := 0;
    } else {
      var x :| x in known;
      top := Above(known - {x});
      top := if x < top then top else x + 1;
      assert forall t <- known :: t == x || t in known - {x};
    }
  }

  /** One thread per core after resuming and after all new threads that may follow. */
  ghost predicate SafeToResume(cores: seq<Core>, s: State, t: Tid, pick: Core, metric: Metric)
    requires t in s.threads && t in s.order && forall x <- s.order :: x in s.threads
  {
    forall ts :: Unknown(s, ts) ==> Placed(cores, StartAll(cores, Resume(cores, s, t, pick, metric), ts, metric).threads)
  }

  /** Resuming on a free core never leads to two threads on one core, however many threads start afterwards, if
      and only if all cores have been handed out or the picked one has. */
  lemma PickExact(cores: seq<Core>, s: State, t: Tid, pick: Core, metric: Metric)
    requires Inv(cores, s) && t in s.threads && !s.threads[t].unscheduled && pick in FreeCores(cores, s.threads)
    ensures t in s.order && (forall x <- s.order :: x in s.threads)
    ensures SafeToResume(cores, s, t, pick, metric) <==> GoodPick(cores, s, pick)
  {
    hide FreeCores, Resume, Placed, StartAll;
    assert FreeCores(cores, s.threads) != {};
    ResumeExact(cores, s, t, pick, metric);
    if GoodPick(cores, s, pick) {
      forall ts | Unknown(s, ts)
        ensures Placed(cores, StartAll(cores, Resume(cores, s, t, pick, metric), ts, metric).threads)
      {
        StartsKeep(cores, Resume(cores, s, t, pick, metric), ts, metric);
      }
    } else {
      var k := PickedLater(cores, s, pick);
      var ts := UnknownIds(s.threads.Keys, k - s.lastCore + 1);
      assert Unknown(s, ts);
      BadPickClashes(cores, s, t, pick, metric, ts);
    }
  }

  lemma PickedLater(cores: seq<Core>, s: State, pick: Core) returns (k: nat)
    requires !GoodPick(cores, s, pick) && pick in FreeCores(cores, s.threads)
    ensures s.lastCore <= k < |cores| && cores[k] == pick
  {
    var n := s.lastCore;
    assert cores == cores[..n] + cores[n..];
    assert pick in cores[n..];
    var j :| 0 <= j < |cores| - n && cores[n..][j] == pick;
    k := n + j;
  }

  const TWO_CORES: seq<Core> := [0, 1]

  lemma FirstStart(metric: Metric)
    ensures Start(TWO_CORES, EMPTY, 1, metric) == State(map[1 := Thread(Some(0), true, false, 0, 0)], [1], 1)
    ensures FreeCores(TWO_CORES, Start(TWO_CORES, EMPTY, 1, metric).threads) == {1}
  {
    var s := Start(TWO_CORES, EMPTY, 1, metric);
    assert s == State(map[1 := Thread(Some(0), true, false, 0, 0)], [1], 1);
    assert UsedCores(s.threads) == {0};
    assert TWO_CORES[0] == 0 && TWO_CORES[1] == 1;
  }

  lemma FirstStall(metric: Metric)
    ensures var s := Stall(Start(TWO_CORES, EMPTY, 1, metric), 1, false, metric);
            s == State(map[1 := Thread(None, false, false, metric(1), metric(1))], [1], 1) && 1 in FreeCores(TWO_CORES, s.threads)
  {
    FirstStart(metric);
    hide Start, Sorted;
    var a := Start(TWO_CORES, EMPTY, 1, metric);
    var m := a.threads[1 := WithCore(a.threads[1], None, metric(1)).(runnable := false)];
    assert m == map[1 := Thread(None, false, false, metric(1), metric(1))];
    assert Waiting(m, [1]) == [];
    assert UsedCores(m) == {};
    assert TWO_CORES[1] == 1;
  }

  /** Two cores: one thread has got core 0 and resumes on core 1; then the next thread is handed core 1 too. */
  lemma SecondStartClashes(s: State, metric: Metric)
    requires s.threads.Keys == {1} && s.order == [1] && s.lastCore == 1 && !s.threads[1].unscheduled
    requires 1 in FreeCores(TWO_CORES, s.threads)
    ensures var r := Start(TWO_CORES, Resume(TWO_CORES, s, 1, 1, metric), 2, metric).threads;
            1 in r && 2 in r && r[1].core == r[2].core == Some(1)
  {
    hide Resume;
    ResumeTakes(TWO_CORES, s, 1, 1, metric);
    assert TWO_CORES[1] == 1;
  }

  /** Why the picks matter while cores are being handed out: two threads end up on core 1 when a thread
      that stalled resumes on an arbitrary free core. */
  lemma ArbitraryPickClashes(metric: Metric)
    ensures var s := Stall(Start(TWO_CORES, EMPTY, 1, metric), 1, false, metric);
            && s.threads.Keys == {1} && s.order == [1] && 1 in FreeCores(TWO_CORES, s.threads)
            && (var r := Start(TWO_CORES, Resume(TWO_CORES, s, 1, 1, metric), 2, metric).threads;
                1 in r && 2 in r && r[1].core == r[2].core == Some(1))
  {
    hide Start, Stall, Resume, FreeCores;
    FirstStart(metric);
    FirstStall(metric);
    SecondStartClashes(Stall(Start(TWO_CORES, EMPTY, 1, metric), 1, false, metric), metric);
  }

  /** The same happens with the earliest free core when the thread that resumes was running all along. */
  lemma ResumeOfRunningClashes(metric: Metric)
    ensures var s := Start(TWO_CORES, EMPTY, 1, metric);
            && s.threads.Keys == {1} && s.order == [1] && FreeCores(TWO_CORES, s.threads) != {} && Earliest(TWO_CORES, s.threads) == 1
            && (var r := Start(TWO_CORES, Resume(TWO_CORES, s, 1, 1, metric), 2, metric).threads;
                1 in r && 2 in r && r[1].core == r[2].core == Some(1))
  {
    hide Start, Resume, FreeCores, Earliest;
    FirstStart(metric);
    SecondStartClashes(Start(TWO_CORES, EMPTY, 1, metric), metric);
  }

  lemma ResumeTakes(cores: seq<Core>, s: State, t: Tid, pick: Core, metric: Metric)
    requires t in s.threads && t in s.order && (forall x <- s.order :: x in s.threads) && !s.threads[t].unscheduled
    requires FreeCores(cores, s.threads) != {}
    ensures var r := Resume(cores, s, t, pick, metric);
            r.threads.Keys == s.threads.Keys && r.threads[t].core == Some(pick) && r.lastCore == s.lastCore
  {
    hide LeastScore;
    var woken := s.threads[t].(score := LeastScore(s.threads, s.order), metricLast := metric(t), runnable := true);
    SameUse(cores, s.threads, t, woken);
  }

  // ---------------------------------------------------------------- the scheduler itself

  function RefreshedUpTo(m: Threads, order: seq<Tid>, k: nat, metric: Metric): (r: Threads)
    requires k <= |order|
  {
    map t | t in m :: if t in order[..k] && m[t].core.Some? then Updated(m[t], metric(t)) else m[t]
  }

  lemma RefreshedStep(m: Threads, order: seq<Tid>, k: nat, metric: Metric)
    requires k < |order| && order[k] in m && Distinct(order)
    ensures var r := RefreshedUpTo(m, order, k, metric);
            RefreshedUpTo(m, order, k + 1, metric) ==
            if r[order[k]].core.Some? then r[order[k] := Updated(r[order[k]], metric(order[k]))] else r
  {
    assert order[..k + 1] == order[..k] + [order[k]];
    assert order[k] !in order[..k];
  }

  lemma RefreshedAll(s: State, metric: Metric)
    requires Listed(s)
    ensures RefreshedUpTo(s.threads, s.order, |s.order|, metric) == Refreshed(s.threads, metric)
    ensures RefreshedUpTo(s.threads, s.order, 0, metric) == s.threads
  {
    assert s.order[..|s.order|] == s.order;
  }

  /** The threads found on core c. */
  function HoldersOf(m: Threads, order: seq<Tid>, c: Core): (ts: seq<Tid>)
    ensures forall t :: t in ts <==> t in order && t in m && m[t].core == Some(c)
    ensures ts != [] ==> ts[0] in ts
  {
    Filter(order, (t: Tid) => t in m && m[t].core == Some(c))
  }

  /** One round of the loop in periodic: whoever is on core c leaves, t takes it. */
  function Replaced(m: Threads, order: seq<Tid>, t: Tid, c: Core, metric: Metric): (r: Threads)
    requires t in m
    ensures r.Keys == m.Keys
  {
    var holders := HoldersOf(m, order, c);
    var n := if holders == [] then m else m[holders[0] := WithCore(m[holders[0]], None, metric(holders[0]))];
    n[t := WithCore(n[t], Some(c), metric(t))]
  }

  /** What periodic's loop relies on. */
  ghost predicate Reassigning(cores: seq<Core>, m: Threads, order: seq<Tid>, new_: seq<Tid>, free: seq<Core>, metric: Metric)
  {
    && Placed(cores, m) && (forall t :: t in order <==> t in m)
    && Distinct(new_) && Distinct(free) && |new_| <= |free|
    && (forall t <- new_ :: t in m && m[t].core.None?)
    && (forall t <- m :: m[t].core.Some? ==> m[t].metricLast == metric(t))
  }

  /** Who holds the next free core: at most one thread, which held it from the start. */
  lemma HolderIs(cores: seq<Core>, m: Threads, order: seq<Tid>, new_: seq<Tid>, free: seq<Core>, i: nat, metric: Metric, u: Tid)
    requires Reassigning(cores, m, order, new_, free, metric) && i < |new_| && u in m
    ensures CoreAfter(m, new_, free, i, u) == Some(free[i]) <==> m[u].core == Some(free[i])
  {
    hide Placed, IndexOf;
    assert free[i] !in free[..i];
    if u in new_[..i] {
      assert u in new_;
      assert free[IndexOf(new_[..i], u)] == free[..i][IndexOf(new_[..i], u)];
    }
  }

  lemma CoreAfterStep(cores: seq<Core>, m: Threads, order: seq<Tid>, new_: seq<Tid>, free: seq<Core>, i: nat, metric: Metric, u: Tid)
    requires Reassigning(cores, m, order, new_, free, metric) && i < |new_| && u in m
    ensures CoreAfter(m, new_, free, i + 1, u) ==
            if u == new_[i] then Some(free[i]) else if m[u].core == Some(free[i]) then None else CoreAfter(m, new_, free, i, u)
  {
    hide Placed, IndexOf;
    assert new_[..i + 1] == new_[..i] + [new_[i]];
    assert free[..i + 1] == free[..i] + [free[i]];
    if u in new_[..i + 1] {
      assert u in new_;
      SameIndex(new_, i, u);
    }
  }

  lemma {:induction false} IndexUnique(ts: seq<nat>, t: nat, k: nat)
    requires Distinct(ts) && k < |ts| && ts[k] == t
    ensures t in ts && IndexOf(ts, t) == k
  {
    assert ts[IndexOf(ts, t)] == t;
  }

  lemma SameIndex(new_: seq<Tid>, i: nat, u: Tid)
    requires Distinct(new_) && i < |new_| && u in new_[..i + 1]
    ensures if u == new_[i] then IndexOf(new_[..i + 1], u) == i
            else u in new_[..i] && IndexOf(new_[..i + 1], u) == IndexOf(new_[..i], u)
  {
    var j :| 0 <= j < i + 1 && new_[..i + 1][j] == u;
    IndexUnique(new_[..i + 1], u, j);
    if u != new_[i] {
      assert new_[..i][j] == u;
      IndexUnique(new_[..i], u, j);
    }
  }

  lemma AssignedStep(cores: seq<Core>, m: Threads, order: seq<Tid>, new_: seq<Tid>, free: seq<Core>, i: nat, metric: Metric)
    requires Reassigning(cores, m, order, new_, free, metric) && i < |new_|
    ensures new_[i] in m
    ensures Replaced(Assigned(m, new_, free, i), order, new_[i], free[i], metric) == Assigned(m, new_, free, i + 1)
  {
    hide CoreAfter, Replaced, Placed;
    var r, t, c := Assigned(m, new_, free, i), new_[i], free[i];
    forall u | u in m
      ensures Replaced(r, order, t, c, metric)[u] == Assigned(m, new_, free, i + 1)[u]
    {
      RoundAt(cores, m, order, new_, free, i, metric, u);
    }
  }

  lemma RoundAt(cores: seq<Core>, m: Threads, order: seq<Tid>, new_: seq<Tid>, free: seq<Core>, i: nat, metric: Metric, u: Tid)
    requires Reassigning(cores, m, order, new_, free, metric) && i < |new_| && u in m
    ensures new_[i] in m
    ensures Replaced(Assigned(m, new_, free, i), order, new_[i], free[i], metric)[u] == Assigned(m, new_, free, i + 1)[u]
  {
    hide CoreAfter, HoldersOf, Placed;
    HolderIs(cores, m, order, new_, free, i, metric, u);
    CoreAfterStep(cores, m, order, new_, free, i, metric, u);
    var r := Assigned(m, new_, free, i);
    var holders := HoldersOf(r, order, free[i]);
    assert u in holders <==> m[u].core == Some(free[i]);
    if holders != [] {
      HolderIs(cores, m, order, new_, free, i, metric, holders[0]);
      if u in holders {
        OneHolder(cores, m, u, holders[0]);
      }
    }
  }

  lemma OneHolder(cores: seq<Core>, m: Threads, t: Tid, u: Tid)
    requires Placed(cores, m) && t in m && u in m && m[t].core.Some? && m[t].core == m[u].core
    ensures t == u
  {
  }

  class Scheduler {
    const cores: seq<Core>
    var threads: Threads
    var order: seq<Tid>
    var lastCore: nat

    ghost function Abs(): (s: State)
      reads this
    {
      State(threads, order, lastCore)
    }

    constructor (cores: seq<Core>)
      requires Distinct(cores)
      ensures this.cores == cores && Abs() == EMPTY && Inv(cores, Abs())
    {
      this.cores := cores;
      threads, order, lastCore := map[], [], 0;
    }

    method UpdateScore(t: Tid, metric: Metric)
      requires t in threads
      modifies `threads
      ensures threads == old(threads)[t := Updated(old(threads[t]), metric(t))]
    {
      var th := threads[t];
      th := th.(score := th.score + (metric(t) - th.metricLast));
      th := th.(metricLast := metric(t));
      threads := threads[t := th];
    }

    method SetScore(t: Tid, score: int, metric: Metric)
      requires t in threads
      modifies `threads
      ensures threads == old(threads)[t := old(threads[t]).(score := score, metricLast := metric(t))]
    {
      threads := threads[t := threads[t].(score := score)];
      threads := threads[t := threads[t].(metricLast := metric(t))];
    }

    method SetCore(t: Tid, core: Option<Core>, metric: Metric)
      requires t in threads
      modifies `threads
      ensures threads == old(threads)[t := WithCore(old(threads[t]), core, metric(t))]
    {
      threads := threads[t := threads[t].(core := core)];
      if core.None? {
        UpdateScore(t, metric);
      }
    }

    method ThreadStart(t: Tid, metric: Metric)
      modifies this
      ensures Abs() == Start(cores, old(Abs()), t, metric)
    {
      hide Updated;
      if t !in threads {
        order := order + [t];
      }
      threads := threads[t := Thread(None, false, false, 0, 0)];
      threads := threads[t := threads[t].(runnable := true)];
      if lastCore < |cores| {
        SetCore(t, Some(cores[lastCore]), metric);
        lastCore := lastCore + 1;
      } else {
        SetCore(t, None, metric);
      }
      assert threads == old(threads)[t := threads[t]];
    }

    method ThreadStall(t: Tid, unscheduled: bool, metric: Metric)
      requires t in threads
      modifies `threads
      ensures Abs() == Stall(old(Abs()), t, unscheduled, metric)
    {
      if unscheduled {
        threads := threads[t := threads[t].(unscheduled := true)];
      } else {
        var core := threads[t].core;
        SetCore(t, None, metric);
        threads := threads[t := threads[t].(runnable := false)];
        assert threads == old(threads)[t := WithCore(old(threads[t]), None, metric(t)).(runnable := false)];
        var waiting := Waiting(threads, order);
        if waiting != [] {
          waiting := Sorted(threads, waiting);
          SetCore(waiting[0], core, metric);
        }
      }
    }

    method ThreadExit(t: Tid, metric: Metric)
      requires t in threads
      modifies `threads
      ensures Abs() == Stall(old(Abs()), t, false, metric)
    {
      ThreadStall(t, false, metric);
    }

    method ThreadResume(t: Tid, metric: Metric) returns (pick: Core)
      requires Listed(Abs()) && t in threads
      modifies `threads
      ensures FreeCores(cores, old(threads)) != {} && !old(threads[t].unscheduled) ==> pick in FreeCores(cores, old(threads))
      ensures Abs() == Resume(cores, old(Abs()), t, pick, metric)
    {
      hide LeastScore, FreeCores;
      pick := 0;
      if threads[t].unscheduled {
        threads := threads[t := threads[t].(unscheduled := false)];
      } else {
        SetScore(t, LeastScore(threads, order), metric);
        threads := threads[t := threads[t].(runnable := true)];
        assert threads == old(threads)[t := old(threads[t]).(score := LeastScore(old(threads), order), metricLast := metric(t), runnable := true)];
        assert FreeCores(cores, threads) == FreeCores(cores, old(threads)) by { SameFree(cores, old(threads), t, threads[t]); }
        var free := FreeCores(cores, threads);
        if free != {} {
          pick :| pick in free;
          SetCore(t, Some(pick), metric);
        }
      }
    }

    method RefreshScores(metric: Metric)
      requires Listed(Abs())
      modifies `threads
      ensures threads == Refreshed(old(threads), metric)
    {
      hide Distinct;
      RefreshedAll(Abs(), metric);
      for k := 0 to |order|
        invariant threads == RefreshedUpTo(old(threads), order, k, metric)
      {
        RefreshedStep(old(threads), order, k, metric);
        if threads[order[k]].core.Some? {
          UpdateScore(order[k], metric);
        }
      }
    }

    /** One round of the loop: free the core, then take it. */
    method Move(t: Tid, c: Core, metric: Metric)
      requires t in threads
      modifies `threads
      ensures threads == Replaced(old(threads), order, t, c, metric)
    {
      var holders := HoldersOf(threads, order, c);
      if holders != [] {
        SetCore(holders[0], None, metric);
      }
      SetCore(t, Some(c), metric);
    }

    method Tick(metric: Metric)
      requires Inv(cores, Abs())
      modifies `threads
      ensures Abs() == Periodic(cores, old(Abs()), metric)
      ensures Inv(cores, Abs()) && Balanced(cores, old(Abs()), metric, Abs())
    {
      hide Placed, Balanced, HandingOut, Selected, Assigned, Replaced, FreeList, Keep, New, Reassigning;
      ghost var s := Abs();
      PeriodicKeeps(cores, s, metric);
      PeriodicBalances(cores, s, metric);
      RefreshScores(metric);
      ghost var m := threads;
      var sel := Selected(cores, threads, order);
      var keep, new_ := Keep(threads, sel), New(threads, sel);
      var free := FreeList(cores, threads, keep);
      ReadyToReassign(cores, s, metric);
      AssignedNone(m, new_, free);
      assert |new_| <= |free|;
      for i := 0 to |new_|
        invariant threads == Assigned(m, new_, free, i)
      {
        AssignedStep(cores, m, order, new_, free, i, metric);
        AssignedKeys(m, new_, free, i);
        Move(new_[i], free[i], metric);
      }
    }
  }

  lemma AssignedKeys(m: Threads, new_: seq<Tid>, free: seq<Core>, i: nat)
    requires i <= |new_| && i <= |free|
    ensures Assigned(m, new_, free, i).Keys == m.Keys
  {
  }

  lemma AssignedNone(m: Threads, new_: seq<Tid>, free: seq<Core>)
    ensures Assigned(m, new_, free, 0) == m
  {
    assert new_[..0] == [] && free[..0] == [];
  }

  /** The refreshed threads meet what the loop relies on; this includes that its assert holds. */
  lemma ReadyToReassign(cores: seq<Core>, s: State, metric: Metric)
    requires Inv(cores, s)
    ensures var m := Refreshed(s.threads, metric);
            var sel := Selected(cores, m, s.order);
            var new_, free := New(m, sel), FreeList(cores, m, Keep(m, sel));
            Reassigning(cores, m, s.order, new_, free, metric) && |new_| <= |free|
  {
    hide Placed, HandingOut, Selected, FreeList, Keep;
    var m := Refreshed(s.threads, metric);
    RefreshedPlaced(cores, s.threads, metric);
    SelectedFacts(cores, m, s.order);
    EnoughCores(cores, m, Selected(cores, m, s.order));
  }
}
