/** The locality scheduler over whole runs: what the hooks said decides who is awake and how scores grow. */
module SchedulerRuns {
  import opened Wrappers
  import opened SchedulerLocality

  // ---------------------------------------------------------------- who is awake

  /** From what the hooks said: t has been started. */
  predicate Known(events: seq<Event>, t: Tid)
  {
    events != [] && ((events[|events| - 1].Started? && events[|events| - 1].t == t) || Known(events[..|events| - 1], t))
  }

  /** From what the hooks said: t was last scheduled out, and not back in. */
  predicate Out(events: seq<Event>, t: Tid)
  {
    if events == [] then false
    else
      var e, before := events[|events| - 1], events[..|events| - 1];
      if e.Ticked? || e.t != t then Out(before, t)
      else if e.Stalled? then e.unscheduled || Out(before, t)
      else false
  }

  /** From what the hooks said: t started or resumed, and has not stalled since.  Being scheduled out and in again
      does not count. */
  predicate Awake(events: seq<Event>, t: Tid)
  {
    if events == [] then false
    else
      var e, before := events[|events| - 1], events[..|events| - 1];
      if e.Ticked? || e.t != t then Awake(before, t)
      else if e.Stalled? then e.unscheduled && Awake(before, t)
      else e.Started? || !Out(before, t) || Awake(before, t)
  }

  /** A thread that is scheduled out and back in is as it was before, and nobody else changes. */
  lemma OutAndIn(cores: seq<Core>, s: State, t: Tid, pick: Core, metric: Metric, metric': Metric)
    requires Listed(s) && t in s.threads
    ensures var out := Stall(s, t, true, metric);
            && Listed(out) && t in out.threads
            && Resume(cores, out, t, pick, metric') == s.(threads := s.threads[t := s.threads[t].(unscheduled := false)])
            && (!s.threads[t].unscheduled ==> Resume(cores, out, t, pick, metric') == s)
  {
    var out := Stall(s, t, true, metric);
    assert out.threads.Keys == s.threads.Keys;
    assert s.threads[t := s.threads[t]] == s.threads;
  }

  ghost predicate Follows(s: State, events: seq<Event>, t: Tid)
  {
    && (t in s.threads <==> Known(events, t))
    && (t in s.threads ==> s.threads[t].runnable == Awake(events, t) && s.threads[t].unscheduled == Out(events, t))
  }

  lemma FlagsStep(cores: seq<Core>, s: State, e: Event, t: Tid)
    requires Inv(cores, s) && Allowed(cores, s, e)
    ensures var r := Step(cores, s, e).threads;
            && (t in r <==> t in s.threads || (e.Started? && e.t == t))
            && (t in r && (e.Ticked? || e.t != t) ==> r[t].runnable == s.threads[t].runnable && r[t].unscheduled == s.threads[t].unscheduled)
            && (e.Started? && e.t == t ==> r[t].runnable && !r[t].unscheduled)
            && (e.Stalled? && e.t == t ==> if e.unscheduled then r[t].runnable == s.threads[t].runnable && r[t].unscheduled
                                           else !r[t].runnable && r[t].unscheduled == s.threads[t].unscheduled)
            && (e.Resumed? && e.t == t ==> !r[t].unscheduled && r[t].runnable == (!s.threads[t].unscheduled || s.threads[t].runnable))
  {
    hide Sorted, LeastScore, FreeCores, CoreAfter, Selected, FreeList, New, Keep, HandingOut, Placed;
  }

  /** In every run from the start, at every time: a thread is known, runnable and marked as scheduled out exactly as
      the hooks so far say. */
  lemma {:induction false} FlagsFollow(cores: seq<Core>, states: seq<State>, events: seq<Event>, n: nat, t: Tid)
    requires Distinct(cores) && IsRun(cores, states, events) && states[0] == EMPTY && n < |states|
    ensures Follows(states[n], events[..n], t)
    decreases n
  {
    hide Inv, Step, Allowed;
    if n > 0 {
      var i := n - 1;
      FlagsFollow(cores, states, events, i, t);
      InitInv(cores);
      RunsKeepInv(cores, states, events, i);
      assert states[i + 1] == states[n] && events[i] == events[n - 1];
      assert events[..n][..i] == events[..i] && events[..n][i] == events[i];
      FlagsStep(cores, states[i], events[i], t);
    }
  }

  /** A resume that does not merely schedule the thread back in lets it run, whatever happened before. */
  lemma ResumeLetsRun(cores: seq<Core>, states: seq<State>, events: seq<Event>, j: nat)
    requires Distinct(cores) && IsRun(cores, states, events) && states[0] == EMPTY && j < |events|
    requires events[j].Resumed? && !Out(events[..j], events[j].t)
    ensures events[j].t in states[j + 1].threads && states[j + 1].threads[events[j].t].runnable
  {
    hide Inv, Step, Allowed;
    var t := events[j].t;
    FlagsFollow(cores, states, events, j + 1, t);
    FlagsFollow(cores, states, events, j, t);
    assert events[..j + 1][..j] == events[..j] && events[..j + 1][j] == events[j];
    ResumedIsKnown(cores, states, events, j);
  }

  lemma ResumedIsKnown(cores: seq<Core>, states: seq<State>, events: seq<Event>, j: nat)
    requires Distinct(cores) && IsRun(cores, states, events) && states[0] == EMPTY && j < |events| && events[j].Resumed?
    ensures events[j].t in states[j].threads
  {
    hide Inv, Step;
    InitInv(cores);
    RunsKeepInv(cores, states, events, j);
    var n := j + 1;
    assert states[j + 1] == states[n];
    assert Allowed(cores, states[j], events[j]);
  }

  /** The threads in the order in which they were first started. */
  function Starters(events: seq<Event>): (ts: seq<Tid>)
  {
    if events == [] then []
    else
      var e, before := events[|events| - 1], Starters(events[..|events| - 1]);
      if e.Started? && e.t !in before then before + [e.t] else before
  }

  /** How often a thread was started. */
  function Starts(events: seq<Event>): (n: nat)
  {
    if events == [] then 0 else Starts(events[..|events| - 1]) + if events[|events| - 1].Started? then 1 else 0
  }

  lemma OrderStep(cores: seq<Core>, s: State, e: Event)
    requires Inv(cores, s) && Allowed(cores, s, e)
    ensures var r := Step(cores, s, e);
            && r.order == (if e.Started? && e.t !in s.threads then s.order + [e.t] else s.order)
            && r.lastCore == (if e.Started? && s.lastCore < |cores| then s.lastCore + 1 else s.lastCore)
            && (e.Started? && s.lastCore < |cores| ==> r.threads[e.t].core == Some(cores[s.lastCore]))
  {
    hide Sorted, LeastScore, FreeCores, Assigned, Selected, FreeList, New, Keep, HandingOut, Placed, Listed;
  }

  /** In every run from the start: threads are listed in the order in which they were first started, and the first
      starts get the given cores one after the other. */
  lemma {:induction false} OrderFollows(cores: seq<Core>, states: seq<State>, events: seq<Event>, n: nat)
    requires Distinct(cores) && IsRun(cores, states, events) && states[0] == EMPTY && n < |states|
    ensures states[n].order == Starters(events[..n])
    ensures states[n].lastCore == if Starts(events[..n]) < |cores| then Starts(events[..n]) else |cores|
    ensures n > 0 && events[n - 1].Started? && Starts(events[..n - 1]) < |cores| ==>
              events[n - 1].t in states[n].threads && states[n].threads[events[n - 1].t].core == Some(cores[Starts(events[..n - 1])])
    decreases n
  {
    hide Step, Allowed, Placed;
    if n > 0 {
      var i := n - 1;
      OrderFollows(cores, states, events, i);
      InitInv(cores);
      RunsKeepInv(cores, states, events, i);
      assert states[i + 1] == states[n] && events[i] == events[n - 1];
      assert events[..n][..i] == events[..i] && events[..n][i] == events[i];
      OrderStep(cores, states[i], events[i]);
      StepKeeps(cores, states[i], events[i]);
      if events[i].Started? {
        FlagsStep(cores, states[i], events[i], events[i].t);
      }
    }
  }

  // ---------------------------------------------------------------- scores

  /** The hook wakes t, which then gets the best score. */
  ghost predicate Wakes(s: State, e: Event, t: Tid)
  {
    e.Resumed? && e.t == t && t in s.threads && !s.threads[t].unscheduled
  }

  /** What t's score counts from: unless it is started or woken, only the progress of its metric is ever added to its
      score, each bit once. */
  lemma ScoreTelescopes(cores: seq<Core>, s: State, e: Event, t: Tid)
    requires Inv(cores, s) && Allowed(cores, s, e) && t in s.threads && !(e.Started? && e.t == t) && !Wakes(s, e, t)
    ensures t in Step(cores, s, e).threads
    ensures var a, b := s.threads[t], Step(cores, s, e).threads[t];
            && b.score - b.metricLast == a.score - a.metricLast
            && (b.metricLast == a.metricLast || b.metricLast == e.metric(t))
  {
    hide Sorted, LeastScore, FreeCores, CoreAfter, Selected, FreeList, New, Keep, HandingOut, Placed;
  }

  /** Who is brought up to date: a thread that stalls, and in each period every thread that has a core. */
  lemma ScoreUpdated(cores: seq<Core>, s: State, e: Event, t: Tid)
    requires Inv(cores, s) && Allowed(cores, s, e) && t in s.threads
    ensures t in Step(cores, s, e).threads
    ensures var a, b := s.threads[t], Step(cores, s, e).threads[t];
            && (e.Stalled? && e.t == t && !e.unscheduled ==> b.metricLast == e.metric(t))
            && (e.Stalled? && e.unscheduled ==> b.metricLast == a.metricLast)
            && (e.Ticked? ==> b.metricLast == if a.core.Some? then e.metric(t) else a.metricLast)
            && ((e.Started? || e.Resumed?) && e.t != t ==> b == a)
  {
    hide Sorted, LeastScore, FreeCores, CoreAfter, Selected, FreeList, New, Keep, HandingOut, Placed;
  }

  /** A thread that starts begins at 0, or, if it has to wait, at its metric. */
  lemma ScoreStarts(cores: seq<Core>, s: State, t: Tid, metric: Metric)
    ensures var th := Start(cores, s, t, metric).threads[t];
            th.score == th.metricLast == if s.lastCore < |cores| then 0 else metric(t)
  {
  }

  // ---------------------------------------------------------------- ties, and who gets which core

  /** t stands before u in the list. */
  ghost predicate Before(ts: seq<Tid>, t: Tid, u: Tid)
  {
    exists i, j :: 0 <= i < j < |ts| && ts[i] == t && ts[j] == u
  }

  lemma BeforeCons(x: Tid, ts: seq<Tid>, t: Tid, u: Tid)
    ensures Before(ts, t, u) ==> Before([x] + ts, t, u)
    ensures u in ts ==> Before([x] + ts, x, u)
    ensures Before([x] + ts, t, u) ==> Before(ts, t, u) || (t == x && u in ts)
  {
    var r := [x] + ts;
    if Before(ts, t, u) {
      var i, j :| 0 <= i < j < |ts| && ts[i] == t && ts[j] == u;
      assert r[i + 1] == t && r[j + 1] == u;
    }
    if u in ts {
      var j :| 0 <= j < |ts| && ts[j] == u;
      assert r[0] == x && r[j + 1] == u;
    }
    if Before(r, t, u) {
      var i, j :| 0 <= i < j < |r| && r[i] == t && r[j] == u;
      assert r[j] == ts[j - 1];
      assert i > 0 ==> r[i] == ts[i - 1];
    }
  }

  lemma {:induction false} InsertStable(m: Threads, x: Tid, ts: seq<Tid>, t: Tid, u: Tid)
    requires x in m && (forall y <- ts :: y in m)
    ensures Before(ts, t, u) ==> Before(Insert(m, x, ts), t, u)
    ensures u in ts && m[x].score <= m[u].score && ByScore(m, ts) ==> Before(Insert(m, x, ts), x, u)
  {
    hide Before, ByScore;
    BeforeNothing(ts, t, u);
    if ts != [] {
      assert ts == [ts[0]] + ts[1..];
      if m[x].score <= m[ts[0]].score {
        BeforeCons(x, ts, t, u);
      } else {
        InsertStable(m, x, ts[1..], t, u);
        BeforeCons(ts[0], ts[1..], t, u);
        BeforeCons(ts[0], Insert(m, x, ts[1..]), t, u);
        BeforeCons(ts[0], Insert(m, x, ts[1..]), x, u);
        TailByScore(m, ts);
      }
    }
  }

  lemma TailByScore(m: Threads, ts: seq<Tid>)
    requires ts != []
    ensures ByScore(m, ts) ==> ByScore(m, ts[1..])
  {
  }

  /** Sorting by score keeps the order of threads with the same score. */
  lemma {:induction false} SortedStable(m: Threads, ts: seq<Tid>, t: Tid, u: Tid)
    requires (forall x <- ts :: x in m) && Before(ts, t, u) && m[t].score <= m[u].score
    ensures Before(Sorted(m, ts), t, u)
  {
    hide Before, ByScore;
    assert ts != [] by { BeforeNothing(ts, t, u); }
    assert ts == [ts[0]] + ts[1..];
    BeforeCons(ts[0], ts[1..], t, u);
    var rest := Sorted(m, ts[1..]);
    SortedOrdered(m, ts[1..]);
    InsertStable(m, ts[0], rest, t, u);
    if Before(ts[1..], t, u) {
      SortedStable(m, ts[1..], t, u);
    }
  }

  lemma BeforeNothing(ts: seq<Tid>, t: Tid, u: Tid)
    ensures Before(ts, t, u) ==> ts != [] && t in ts && u in ts
  {
  }

  lemma {:induction false} FilterBefore(ts: seq<Tid>, keep: Tid -> bool, t: Tid, u: Tid)
    requires Before(ts, t, u) && keep(t) && keep(u)
    ensures Before(Filter(ts, keep), t, u)
  {
    hide Before;
    BeforeNothing(ts, t, u);
    var n := |ts| - 1;
    var rest := Filter(ts[..n], keep);
    BeforeSnoc(ts[..n], ts[n], t, u);
    BeforeSnoc(rest, ts[n], t, u);
    assert ts == ts[..n] + [ts[n]];
    if Before(ts[..n], t, u) {
      FilterBefore(ts[..n], keep, t, u);
    }
  }

  lemma BeforeSnoc(ts: seq<Tid>, x: Tid, t: Tid, u: Tid)
    ensures Before(ts + [x], t, u) <==> Before(ts, t, u) || (t in ts && u == x)
  {
    var r := ts + [x];
    if Before(ts, t, u) {
      var i, j :| 0 <= i < j < |ts| && ts[i] == t && ts[j] == u;
      assert r[i] == t && r[j] == u;
    }
    if t in ts && u == x {
      var i :| 0 <= i < |ts| && ts[i] == t;
      assert r[i] == t && r[|ts|] == u;
    }
    if Before(r, t, u) {
      var i, j :| 0 <= i < j < |r| && r[i] == t && r[j] == u;
      assert r[i] == ts[i];
      assert j < |ts| ==> r[j] == ts[j];
    }
  }

  /** t comes first: a better score, or the same score and listed earlier. */
  ghost predicate Preferred(m: Threads, order: seq<Tid>, t: Tid, u: Tid)
    requires t in m && u in m
  {
    m[t].score < m[u].score || (m[t].score == m[u].score && Before(order, t, u))
  }

  lemma OneOrOther(ts: seq<Tid>, t: Tid, u: Tid)
    requires t in ts && u in ts && t != u
    ensures Before(ts, t, u) || Before(ts, u, t)
  {
    var i :| 0 <= i < |ts| && ts[i] == t;
    var j :| 0 <= j < |ts| && ts[j] == u;
  }

  lemma BetterBefore(m: Threads, ts: seq<Tid>, t: Tid, u: Tid)
    requires ByScore(m, ts) && t in ts && u in ts && m[t].score < m[u].score
    ensures Before(ts, t, u)
  {
    OneOrOther(ts, t, u);
  }

  /** Whoever comes first stands first in the sorted list of runnable threads. */
  lemma SortedPrefers(m: Threads, order: seq<Tid>, t: Tid, u: Tid)
    requires (forall x :: x in order <==> x in m) && t in m && u in m && m[t].runnable && m[u].runnable && Preferred(m, order, t, u)
    ensures Before(Sorted(m, Runnable(m, order)), t, u)
  {
    hide Before, ByScore, Sorted;
    var ts := Runnable(m, order);
    SortedOrdered(m, ts);
    if m[t].score < m[u].score {
      BetterBefore(m, Sorted(m, ts), t, u);
    } else {
      FilterBefore(order, (x: Tid) => x in m && m[x].runnable, t, u);
      SortedStable(m, ts, t, u);
    }
  }

  lemma PrefixBefore(ts: seq<Tid>, n: nat, t: Tid, u: Tid)
    requires n <= |ts| && Distinct(ts) && Before(ts, t, u) && u in ts[..n]
    ensures Before(ts[..n], t, u)
  {
    var i, j :| 0 <= i < j < |ts| && ts[i] == t && ts[j] == u;
    var k :| 0 <= k < n && ts[..n][k] == u;
    assert ts[k] == ts[j];
    assert ts[..n][i] == t && ts[..n][j] == u;
  }

  lemma SortedRunnable(m: Threads, order: seq<Tid>)
    requires Distinct(order) && forall x :: x in order <==> x in m
    ensures forall x <- Runnable(m, order) :: x in m
    ensures Distinct(Sorted(m, Runnable(m, order)))
    ensures forall x :: x in Sorted(m, Runnable(m, order)) <==> x in m && m[x].runnable
  {
    hide Sorted;
    FilterDistinct(order, (t: Tid) => t in m && m[t].runnable);
    SortedDistinct(m, Runnable(m, order));
  }

  /** Selected threads come before all other runnable ones. */
  lemma SelectedPrefers(cores: seq<Core>, m: Threads, order: seq<Tid>, t: Tid, u: Tid)
    requires Distinct(order) && (forall x :: x in order <==> x in m)
    requires t in Selected(cores, m, order) && u !in Selected(cores, m, order) && u in m && m[u].runnable
    ensures t in m && Preferred(m, order, t, u)
  {
    hide Sorted, Preferred, Before, Runnable;
    SortedRunnable(m, order);
    var sorted := Sorted(m, Runnable(m, order));
    var n := Min(|sorted|, |cores|);
    assert t in sorted by { assert forall x <- sorted[..n] :: x in sorted; }
    TotalOrder(m, order, t, u);
    if Preferred(m, order, u, t) {
      SortedPrefers(m, order, u, t);
      PrefixBefore(sorted, n, u, t);
      BeforeNothing(sorted[..n], u, t);
    }
  }

  /** After a period, whoever runs comes before whoever has to wait. */
  lemma PeriodicPrefers(cores: seq<Core>, s: State, metric: Metric, t: Tid, u: Tid)
    requires Inv(cores, s) && t in s.threads && u in s.threads && s.threads[u].runnable
    requires var r := Periodic(cores, s, metric).threads; t in r && u in r && r[t].core.Some? && r[u].core.None?
    ensures var m := Refreshed(s.threads, metric); Preferred(m, s.order, t, u)
  {
    hide Periodic, Selected, Preferred, HandingOut, Placed, Distinct;
    var m := Refreshed(s.threads, metric);
    RefreshedListed(s, metric);
    PeriodicReassigns(cores, s, metric);
    SelectedPrefers(cores, m, s.order, t, u);
  }

  lemma TotalOrder(m: Threads, order: seq<Tid>, t: Tid, u: Tid)
    requires t in order && u in order && t != u && t in m && u in m
    ensures Preferred(m, order, t, u) || Preferred(m, order, u, t)
  {
    OneOrOther(order, t, u);
  }

  /** The threads that are newly placed, and the cores for them. */
  lemma PlacedAt(cores: seq<Core>, s: State, metric: Metric, t: Tid)
    requires Inv(cores, s) && t in s.threads
    ensures var m := Refreshed(s.threads, metric);
            var sel := Selected(cores, m, s.order);
            var new_, free, r := New(m, sel), FreeList(cores, m, Keep(m, sel)), Periodic(cores, s, metric).threads;
            && t in r && |new_| <= |free|
            && (s.threads[t].core.None? && r[t].core.Some? ==> t in new_ && r[t].core == Some(free[IndexOf(new_, t)]))
  {
    hide Placed, HandingOut, Selected, FreeList, Keep, New, IndexOf, Reassigning;
    var m := Refreshed(s.threads, metric);
    ReadyToReassign(cores, s, metric);
    assert |New(m, Selected(cores, m, s.order))| <= |FreeList(cores, m, Keep(m, Selected(cores, m, s.order)))| by {
      EnoughFree(cores, s, metric);
    }
    var new_ := New(m, Selected(cores, m, s.order));
    assert new_[..|new_|] == new_;
  }

  lemma EnoughFree(cores: seq<Core>, s: State, metric: Metric)
    requires Inv(cores, s)
    ensures var m := Refreshed(s.threads, metric);
            var sel := Selected(cores, m, s.order);
            |New(m, sel)| <= |FreeList(cores, m, Keep(m, sel))| && Distinct(New(m, sel))
  {
    hide Placed, HandingOut, Selected, FreeList, Keep, New;
    ReadyToReassign(cores, s, metric);
  }

  lemma IndexBefore(ts: seq<Tid>, t: Tid, u: Tid)
    requires Distinct(ts) && Before(ts, t, u)
    ensures t in ts && u in ts && IndexOf(ts, t) < IndexOf(ts, u)
  {
    var i, j :| 0 <= i < j < |ts| && ts[i] == t && ts[j] == u;
    assert IndexOf(ts, t) == i && IndexOf(ts, u) == j;
  }

  /** Of two threads that are newly placed, the one that comes first gets the lower core. */
  lemma PeriodicPairs(cores: seq<Core>, s: State, metric: Metric, t: Tid, u: Tid)
    requires Inv(cores, s) && Ascending(cores) && t in s.threads && u in s.threads
    requires s.threads[t].core.None? && s.threads[u].core.None?
    requires var r := Periodic(cores, s, metric).threads; t in r && u in r && r[t].core.Some? && r[u].core.Some?
    requires Preferred(Refreshed(s.threads, metric), s.order, t, u)
    ensures var r := Periodic(cores, s, metric).threads; r[t].core.value < r[u].core.value
  {
    hide Periodic, Sorted, Preferred, Before, HandingOut, Placed, IndexOf, Runnable, Ascending;
    var m := Refreshed(s.threads, metric);
    RefreshedListed(s, metric);
    SortedRunnable(m, s.order);
    var sorted := Sorted(m, Runnable(m, s.order));
    var sel := Selected(cores, m, s.order);
    PlacedAt(cores, s, metric, t);
    PlacedAt(cores, s, metric, u);
    EnoughFree(cores, s, metric);
    var n := Min(|sorted|, |cores|);
    assert t in sel && u in sel;
    assert t in sorted && u in sorted by { assert forall x <- sorted[..n] :: x in sorted; }
    SortedPrefers(m, s.order, t, u);
    PrefixBefore(sorted, n, t, u);
    FilterBefore(sel, (x: Tid) => x in m && m[x].core.None?, t, u);
    var new_, free := New(m, sel), FreeList(cores, m, Keep(m, sel));
    IndexBefore(new_, t, u);
    FilterAscending(cores, (c: Core) => c !in CoresOf(m, Elements(Keep(m, sel))));
    AscendingAt(free, IndexOf(new_, t), IndexOf(new_, u));
  }

  lemma AscendingAt(cs: seq<Core>, i: nat, j: nat)
    requires Ascending(cs) && i < j < |cs|
    ensures cs[i] < cs[j]
  {
  }

  /** New threads take the lowest cores that are free: every core below one that is newly taken is in use. */
  lemma PeriodicLowest(cores: seq<Core>, s: State, metric: Metric, t: Tid, c: Core) returns (u: Tid)
    requires Inv(cores, s) && Ascending(cores) && t in s.threads && s.threads[t].core.None? && c in cores
    requires var r := Periodic(cores, s, metric).threads; t in r && r[t].core.Some? && c < r[t].core.value
    ensures var r := Periodic(cores, s, metric).threads; u in r && r[u].core == Some(c)
  {
    hide Periodic, Selected, HandingOut, Placed, IndexOf, Ascending, Reassigned;
    var m := Refreshed(s.threads, metric);
    var sel := Selected(cores, m, s.order);
    var new_, keep := New(m, sel), Keep(m, sel);
    var free := FreeList(cores, m, keep);
    PlacedAt(cores, s, metric, t);
    EnoughFree(cores, s, metric);
    if c in CoresOf(m, Elements(keep)) {
      u :| u in Elements(keep) && u in m && m[u].core == Some(c);
      KeptStays(cores, s, metric, u);
    } else {
      assert c in free;
      var k :| 0 <= k < |free| && free[k] == c;
      FilterAscending(cores, (x: Core) => x !in CoresOf(m, Elements(keep)));
      BelowAt(free, k, IndexOf(new_, t));
      u := new_[k];
      NewTakes(cores, s, metric, k);
    }
  }

  lemma BelowAt(cs: seq<Core>, i: nat, j: nat)
    requires Ascending(cs) && i < |cs| && j < |cs| && cs[i] < cs[j]
    ensures i < j
  {
  }

  lemma KeptStays(cores: seq<Core>, s: State, metric: Metric, u: Tid)
    requires Inv(cores, s)
    requires var m := Refreshed(s.threads, metric); u in Keep(m, Selected(cores, m, s.order))
    ensures var m, r := Refreshed(s.threads, metric), Periodic(cores, s, metric).threads;
            u in r && u in m && r[u].core == m[u].core
  {
    hide Periodic, Selected, HandingOut, Placed, Listed;
    PeriodicReassigns(cores, s, metric);
  }

  /** The k-th new thread takes the k-th free core. */
  lemma NewTakes(cores: seq<Core>, s: State, metric: Metric, k: nat)
    requires Inv(cores, s)
    requires var m := Refreshed(s.threads, metric); k < |New(m, Selected(cores, m, s.order))|
    ensures var m := Refreshed(s.threads, metric);
            var sel := Selected(cores, m, s.order);
            var new_, free, r := New(m, sel), FreeList(cores, m, Keep(m, sel)), Periodic(cores, s, metric).threads;
            k < |free| && new_[k] in r && r[new_[k]].core == Some(free[k])
  {
    hide HandingOut, Placed, Selected, FreeList, Keep, Distinct;
    var m := Refreshed(s.threads, metric);
    var new_ := New(m, Selected(cores, m, s.order));
    EnoughFree(cores, s, metric);
    RefreshedListed(s, metric);
    assert new_[k] in new_ && new_[..|new_|] == new_;
    IndexAt(new_, k);
  }

  lemma IndexAt(ts: seq<Tid>, k: nat)
    requires Distinct(ts) && k < |ts|
    ensures IndexOf(ts, ts[k]) == k
  {
  }
}
