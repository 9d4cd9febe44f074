/** The gem5 wrapper's books over whole runs: everything in a state is accounted for by the events so far. */
module Gem5Books {
  import opened Wrappers
  import opened Gem5Wrapper

  // ---------------------------------------------------------------- what the events say

  /** A request was refused, and no timing tick has come since. */
  predicate Owed(events: seq<Event>)
  {
    if events == [] then false
    else
      var e, before := events[|events| - 1], events[..|events| - 1];
      if e.Clocked? && e.timing then false else (e.Requested? && !e.accept) || Owed(before)
  }

  /** The packets that were offered while no retry was owed, and which the memory system took or refused. */
  function Offered(events: seq<Event>, accept: bool): (ps: seq<Packet>)
  {
    if events == [] then []
    else
      var e, before := events[|events| - 1], events[..|events| - 1];
      Offered(before, accept) + if e.Requested? && e.accept == accept && !Owed(before) then [e.p] else []
  }

  /** The addresses of the reads that were completed, in order. */
  function Completed(events: seq<Event>): (addrs: seq<Addr>)
  {
    if events == [] then []
    else
      var e, before := events[|events| - 1], events[..|events| - 1];
      Completed(before) + if e.Clocked? && e.timing then e.done else []
  }

  /** How many responses the port took. */
  function Sent(events: seq<Event>): (n: nat)
  {
    if events == [] then 0
    else
      var e, before := events[|events| - 1], events[..|events| - 1];
      Sent(before) + if (e.SendFired? || e.RetryAsked?) && e.success then 1 else 0
  }

  function Reads(ps: seq<Packet>): (r: seq<Packet>)
  {
    Filter(ps, (p: Packet) => p.read)
  }

  function Writes(ps: seq<Packet>): (r: seq<Packet>)
  {
    Filter(ps, (p: Packet) => !p.read)
  }

  function Addresses(ps: seq<Packet>): (r: seq<Addr>)
    ensures |r| == |ps|
  {
    if ps == [] then [] else Addresses(ps[..|ps| - 1]) + [ps[|ps| - 1].addr]
  }

  // ---------------------------------------------------------------- one step

  /** What is written in the books of a state. */
  ghost predicate Books(s: State, events: seq<Event>)
  {
    && s.retryReq == Owed(events)
    && s.accepted == Reads(Offered(events, true))
    && Writes(s.answered) == Writes(Offered(events, true))
    && s.nbrWrites == |Writes(Offered(events, true))|
    && Addresses(Reads(s.answered)) == Completed(events)
    && s.refusals == |Offered(events, false)|
    && |s.delivered| == Sent(events)
  }

  lemma AnsweredOne(ps: seq<Packet>, p: Packet)
    ensures Reads(ps + [p]) == Reads(ps) + (if p.read then [p] else [])
    ensures Writes(ps + [p]) == Writes(ps) + (if p.read then [] else [p])
    ensures Addresses(ps + [p]) == Addresses(ps) + [p.addr]
  {
    FilterSnoc(ps, p, (p: Packet) => p.read);
    FilterSnoc(ps, p, (p: Packet) => !p.read);
    assert (ps + [p])[..|ps|] == ps;
  }

  /** What a request does to the books. */
  lemma RequestBooks(s: State, p: Packet, accept: bool)
    ensures var r := Request(s, p, accept);
            && r.retryReq == (s.retryReq || !accept)
            && r.accepted == s.accepted + (if accept && p.read && !s.retryReq then [p] else [])
            && r.answered == s.answered + (if accept && !p.read && !s.retryReq then [p] else [])
            && r.nbrWrites == s.nbrWrites + (if accept && !p.read && !s.retryReq then 1 else 0)
            && r.refusals == s.refusals + (if !accept && !s.retryReq then 1 else 0)
            && r.delivered == s.delivered
  {
    assert s.accepted + [] == s.accepted && s.answered + [] == s.answered;
  }

  lemma {:induction false} CallbackBooks(s: State, done: seq<Addr>)
    requires Inv(s) && multiset(done) <= s.pending
    ensures var r := Callbacks(s, done);
            && Writes(r.answered) == Writes(s.answered) && Addresses(Reads(r.answered)) == Addresses(Reads(s.answered)) + done
            && r.retryReq == s.retryReq && r.accepted == s.accepted && r.nbrWrites == s.nbrWrites
            && r.refusals == s.refusals && r.delivered == s.delivered && r.retries == s.retries
    decreases |done|
  {
    hide Inv, Callback, Callbacks, Reads, Writes, Addresses;
    if done == [] {
      CallbacksNone(s);
      assert Addresses(Reads(s.answered)) + [] == Addresses(Reads(s.answered));
    } else {
      CallbacksStep(s, done);
      OneCallback(s, done[0]);
      var before := Addresses(Reads(s.answered));
      CallbackBooks(Callback(s, done[0]), done[1..]);
      assert before + [done[0]] + done[1..] == before + done;
    }
  }

  lemma OneCallback(s: State, a: Addr)
    requires Inv(s) && a in s.outstandingReads && s.outstandingReads[a] != [] && s.nbrReads > 0
    ensures var r := Callback(s, a);
            && Writes(r.answered) == Writes(s.answered) && Addresses(Reads(r.answered)) == Addresses(Reads(s.answered)) + [a]
            && r.retryReq == s.retryReq && r.accepted == s.accepted && r.nbrWrites == s.nbrWrites
            && r.refusals == s.refusals && r.delivered == s.delivered && r.retries == s.retries
  {
    hide Inv, Pop, Reads, Writes, Addresses;
    OldestIs(s, a);
    var p := s.outstandingReads[a][0];
    AnsweredOne(s.answered, p);
    AnsweredOne(Reads(s.answered), p);
    assert Writes(s.answered) + [] == Writes(s.answered);
  }

  lemma OldestIs(s: State, a: Addr)
    requires Inv(s) && a in s.outstandingReads && s.outstandingReads[a] != []
    ensures s.outstandingReads[a][0].read && s.outstandingReads[a][0].addr == a
  {
    assert s.outstandingReads[a][0] in s.outstandingReads[a];
  }

  lemma EventsSnoc(events: seq<Event>, e: Event)
    ensures (events + [e])[..|events|] == events && (events + [e])[|events|] == e
  {
  }

  lemma OfferedSnoc(events: seq<Event>, e: Event)
    ensures var more := events + [e];
            && Owed(more) == (if e.Clocked? && e.timing then false else (e.Requested? && !e.accept) || Owed(events))
            && Completed(more) == Completed(events) + (if e.Clocked? && e.timing then e.done else [])
            && Sent(more) == Sent(events) + (if (e.SendFired? || e.RetryAsked?) && e.success then 1 else 0)
            && |Offered(more, false)| == |Offered(events, false)| + (if e.Requested? && !e.accept && !Owed(events) then 1 else 0)
            && Reads(Offered(more, true)) == Reads(Offered(events, true))
                 + (if e.Requested? && e.accept && !Owed(events) && e.p.read then [e.p] else [])
            && Writes(Offered(more, true)) == Writes(Offered(events, true))
                 + (if e.Requested? && e.accept && !Owed(events) && !e.p.read then [e.p] else [])
  {
    hide Filter;
    EventsSnoc(events, e);
    var all := Offered(events, true);
    assert all + [] == all && Reads(all) + [] == Reads(all) && Writes(all) + [] == Writes(all);
    if e.Requested? {
      AnsweredOne(all, e.p);
    }
  }

  lemma BooksStep(s: State, events: seq<Event>, e: Event)
    requires Inv(s) && Enabled(s, e) && Books(s, events)
    ensures Books(Step(s, e), events + [e])
  {
    hide Inv, Owed, Offered, Completed, Sent, Callbacks, Request, Reads, Writes, Addresses, QueuesOk, ResponsesOk;
    OfferedSnoc(events, e);
    var all := Completed(events);
    assert all + [] == all && Reads(Offered(events, true)) + [] == Reads(Offered(events, true));
    assert Writes(Offered(events, true)) + [] == Writes(Offered(events, true));
    match e
    case Requested(p, accept) =>
      RequestBooks(s, p, accept);
      RequestAnswers(s, p, accept);
    case Clocked(timing, done) => if timing { CallbackBooks(s, done); }
    case SendFired(success) => SendBooks(s, e);
    case RetryAsked(success) => SendBooks(s, e);
  }

  lemma RequestAnswers(s: State, p: Packet, accept: bool)
    ensures var r := Request(s, p, accept);
            && Reads(r.answered) == Reads(s.answered)
            && Writes(r.answered) == Writes(s.answered) + (if accept && !p.read && !s.retryReq then [p] else [])
  {
    hide Request, Filter;
    RequestBooks(s, p, accept);
    AnsweredOne(s.answered, p);
    assert s.answered + [] == s.answered && Reads(s.answered) + [] == Reads(s.answered) && Writes(s.answered) + [] == Writes(s.answered);
  }

  /** Sending touches nothing but the queue of responses. */
  lemma SendBooks(s: State, e: Event)
    requires Inv(s) && Enabled(s, e) && (e.SendFired? || e.RetryAsked?)
    ensures var r := Step(s, e);
            && r.retryReq == s.retryReq && r.accepted == s.accepted && r.answered == s.answered && r.nbrWrites == s.nbrWrites
            && r.refusals == s.refusals && |r.delivered| == |s.delivered| + (if e.success then 1 else 0)
  {
    hide QueuesOk, ResponsesOk;
  }

  // ---------------------------------------------------------------- runs

  /** In every state of every run: the accepted reads, the answered writes and reads, the refusals and the number of
      delivered responses are those of the events so far, in their order; in particular every accepted write has been
      answered. */
  lemma {:induction false} RunsKeepBooks(states: seq<State>, events: seq<Event>, n: nat)
    requires IsRun(states, events) && n < |states|
    ensures Books(states[n], events[..n])
    decreases n
  {
    if n > 0 {
      hide Inv, Step, Enabled, Books;
      var i := n - 1;
      RunsKeepBooks(states, events, i);
      RunsKeepInv(states, events, i);
      assert events[i] == events[n - 1] && states[i + 1] == states[n];
      assert events[..n] == events[..i] + [events[i]];
      BooksStep(states[i], events[..i], events[i]);
    } else {
      assert events[..0] == [];
    }
  }

  /** A write that wants a response has been queued or delivered, as often as it was accepted; the responses are in
      the order in which the packets were answered. */
  lemma WriteExactlyOnce(states: seq<State>, events: seq<Event>, n: nat, p: Packet)
    requires IsRun(states, events) && n < |states| && !p.read && p.needsResponse
    ensures multiset(Offered(events[..n], true))[p] == multiset(states[n].responses)[p] + multiset(states[n].delivered)[p]
    ensures Needing(states[n].answered) == states[n].delivered + states[n].responses
  {
    hide QueuesOk, WakeUp, Filter, Offered, Owed, Completed, Sent, Addresses;
    RunsKeepInv(states, events, n);
    RunsKeepBooks(states, events, n);
    var s := states[n];
    FilterCount(s.answered, (q: Packet) => !q.read, p);
    FilterCount(Offered(events[..n], true), (q: Packet) => !q.read, p);
    FilterCount(s.answered, (q: Packet) => q.needsResponse, p);
  }

  /** The table of outstanding writes holds the accepted writes, per address in order of acceptance. */
  ghost predicate WriteTable(s: State, events: seq<Event>)
  {
    forall a: Addr :: Queue(s.outstandingWrites, a) == WritesAt(Offered(events, true), a)
  }

  function WritesAt(ps: seq<Packet>, a: Addr): (r: seq<Packet>)
  {
    Filter(ps, (p: Packet) => !p.read && p.addr == a)
  }

  lemma {:induction false} CallbacksKeepWrites(s: State, done: seq<Addr>)
    requires Inv(s) && multiset(done) <= s.pending
    ensures Callbacks(s, done).outstandingWrites == s.outstandingWrites
    decreases |done|
  {
    hide Inv, Callbacks, Pop;
    if done == [] {
      CallbacksNone(s);
    } else {
      CallbacksStep(s, done);
      CallbacksKeepWrites(Callback(s, done[0]), done[1..]);
    }
  }

  lemma TableStep(s: State, events: seq<Event>, e: Event)
    requires Inv(s) && Enabled(s, e) && Books(s, events) && WriteTable(s, events)
    ensures WriteTable(Step(s, e), events + [e])
  {
    hide QueuesOk, ResponsesOk, Callbacks, Filter, Queue, Push;
    EventsSnoc(events, e);
    assert Offered(events, true) + [] == Offered(events, true);
    if e.Clocked? && e.timing {
      CallbacksKeepWrites(s, e.done);
    } else if e.Requested? && e.accept && !Owed(events) {
      forall a: Addr
        ensures Queue(Step(s, e).outstandingWrites, a) == WritesAt(Offered(events, true) + [e.p], a)
      {
        FilterSnoc(Offered(events, true), e.p, (p: Packet) => !p.read && p.addr == a);
        QueueAfterPush(s.outstandingWrites, e.p, a);
      }
    }
  }

  /** In every state of every run. */
  lemma {:induction false} RunsKeepTable(states: seq<State>, events: seq<Event>, n: nat)
    requires IsRun(states, events) && n < |states|
    ensures WriteTable(states[n], events[..n])
    decreases n
  {
    if n > 0 {
      hide Inv, Step, Enabled, Books, WriteTable;
      var i := n - 1;
      RunsKeepTable(states, events, i);
      RunsKeepBooks(states, events, i);
      RunsKeepInv(states, events, i);
      assert events[i] == events[n - 1] && states[i + 1] == states[n];
      assert events[..n] == events[..i] + [events[i]];
      TableStep(states[i], events[..i], events[i]);
    } else {
      assert events[..0] == [];
    }
  }

  // ---------------------------------------------------------------- retries and drains

  /** A timing tick leaves no retry owed: as many retries have been sent as requests were refused. */
  lemma TickSettles(s: State, done: seq<Addr>)
    requires Inv(s) && multiset(done) <= s.pending
    ensures var r := Tick(s, true, done); !r.retryReq && r.retries == r.refusals
  {
    hide QueuesOk, ResponsesOk, Callbacks;
  }

  /** Nothing else sends a retry, and without timing a tick does nothing. */
  lemma OnlyTicksRetry(s: State, e: Event)
    requires Inv(s) && Enabled(s, e)
    ensures !(e.Clocked? && e.timing) ==> Step(s, e).retries == s.retries
    ensures e.Clocked? && !e.timing ==> Step(s, e) == s
  {
    hide QueuesOk, ResponsesOk, Callbacks;
  }

  /** The end of a drain is signalled exactly when a response is taken and then nothing is left. */
  lemma SignalExact(s: State, e: Event)
    requires Inv(s) && Enabled(s, e)
    ensures var r := Step(s, e);
            r.drainSignals == s.drainSignals +
              if (e.SendFired? || e.RetryAsked?) && e.success && r.nbrReads == 0 && r.nbrWrites == 0 && r.responses == [] then 1 else 0
  {
    hide QueuesOk, ResponsesOk, Callbacks;
    if e.Clocked? && e.timing {
      CallbacksFrame(s, e.done);
    }
  }
}
