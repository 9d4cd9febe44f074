/** Flow control of the gem5 memory wrapper: requests in, responses out, and who wakes whom. */
module Gem5Wrapper {
  import opened Wrappers

  type Addr = nat

  /** A packet that is not a read is a write. */
  datatype Packet = Packet(id: nat, addr: Addr, read: bool, needsResponse: bool)

  type Queues = map<Addr, seq<Packet>>

  /** The wrapper's fields, then what a bystander has seen so far: the reads accepted, the packets passed to
      accessAndRespond, the responses the port took, the reads that the memory system still has to call back,
      and how often a request was refused, a retry sent and the end of a drain signalled. */
  datatype State = State(
    outstandingReads: Queues, outstandingWrites: Queues, nbrReads: nat, nbrWrites: nat,
    responses: seq<Packet>, retryReq: bool, retryResp: bool, scheduled: bool,
    accepted: seq<Packet>, answered: seq<Packet>, delivered: seq<Packet>, pending: multiset<Addr>,
    refusals: nat, retries: nat, drainSignals: nat)

  const INIT := State(map[], map[], 0, 0, [], false, false, false, [], [], [], multiset{}, 0, 0, 0)

  function Queue(m: Queues, a: Addr): (q: seq<Packet>)
  {
    if a in m then m[a] else []
  }

  function Push(m: Queues, p: Packet): (r: Queues)
  {
    m[p.addr := Queue(m, p.addr) + [p]]
  }

  function Pop(m: Queues, a: Addr): (r: Queues)
    requires a in m && m[a] != []
  {
    if |m[a]| == 1 then m - {a} else m[a := m[a][1..]]
  }

  function NbrOutstanding(s: State): (n: nat)
  {
    s.nbrReads + s.nbrWrites + |s.responses|
  }

  // ---------------------------------------------------------------- the steps

  function Respond(s: State, p: Packet): (r: State)
  {
    var t := s.(answered := s.answered + [p]);
    if p.needsResponse then t.(responses := s.responses + [p], scheduled := s.scheduled || !s.retryResp) else t
  }

  function Refuse(s: State): (r: State)
  {
    s.(retryReq := true, refusals := s.refusals + 1)
  }

  function AcceptRead(s: State, p: Packet): (r: State)
  {
    s.(outstandingReads := Push(s.outstandingReads, p), nbrReads := s.nbrReads + 1,
       accepted := s.accepted + [p], pending := s.pending + multiset{p.addr})
  }

  function AcceptWrite(s: State, p: Packet): (r: State)
  {
    s.(outstandingWrites := Push(s.outstandingWrites, p), nbrWrites := s.nbrWrites + 1)
  }

  function Request(s: State, p: Packet, accept: bool): (r: State)
  {
    if s.retryReq then s
    else if !accept then Refuse(s)
    else if p.read then AcceptRead(s, p)
    else Respond(AcceptWrite(s, p), p)
  }

  function TakeRead(s: State, a: Addr): (r: State)
    requires a in s.outstandingReads && s.outstandingReads[a] != [] && s.nbrReads > 0
  {
    s.(outstandingReads := Pop(s.outstandingReads, a), nbrReads := s.nbrReads - 1, pending := s.pending - multiset{a})
  }

  /** The memory system reports that a read of address a is done. */
  function Callback(s: State, a: Addr): (r: State)
    requires a in s.outstandingReads && s.outstandingReads[a] != [] && s.nbrReads > 0
  {
    Respond(TakeRead(s, a), s.outstandingReads[a][0])
  }

  function Send(s: State, success: bool): (r: State)
    requires !s.retryResp && s.responses != []
  {
    if success then
      var t := s.(responses := s.responses[1..], delivered := s.delivered + [s.responses[0]],
                  scheduled := s.scheduled || |s.responses| > 1);
      if NbrOutstanding(t) == 0 then t.(drainSignals := t.drainSignals + 1) else t
    else s.(retryResp := true)
  }

  /** The scheduled event fires. */
  function SendEvent(s: State, success: bool): (r: State)
    requires s.scheduled && !s.retryResp && s.responses != []
  {
    Send(s.(scheduled := false), success)
  }

  /** The port asks for the response it refused. */
  function RespRetry(s: State, success: bool): (r: State)
    requires s.retryResp && s.responses != []
  {
    Send(s.(retryResp := false), success)
  }

  function RetryReq(s: State): (r: State)
  {
    if s.retryReq then s.(retryReq := false, retries := s.retries + 1) else s
  }

  // ---------------------------------------------------------------- the invariant

  /** The reads of address a, in order. */
  function ReadsAt(ps: seq<Packet>, a: Addr): (r: seq<Packet>)
  {
    Filter(ps, (p: Packet) => p.read && p.addr == a)
  }

  function Needing(ps: seq<Packet>): (r: seq<Packet>)
  {
    Filter(ps, (p: Packet) => p.needsResponse)
  }

  ghost function Total(m: Queues): (n: nat)
    decreases |m|
  {
    if m == map[] then 0 else var a :| a in m; |m[a]| + Total(m - {a})
  }

  /** Accepted reads wait in order of acceptance, per address. */
  ghost predicate QueuesOk(s: State)
  {
    && Sound(s.outstandingReads)
    && (forall a :: ReadsAt(s.accepted, a) == ReadsAt(s.answered, a) + Queue(s.outstandingReads, a))
    && (forall a :: s.pending[a] == |Queue(s.outstandingReads, a)|)
    && s.nbrReads == Total(s.outstandingReads)
  }

  /** What has been answered and wants a response is delivered or queued, in that order. */
  ghost predicate ResponsesOk(s: State)
  {
    Needing(s.answered) == s.delivered + s.responses
  }

  /** Queued responses are woken by exactly one of the port's retry and the scheduled event. */
  ghost predicate WakeUp(s: State)
  {
    && (s.responses != [] <==> s.retryResp || s.scheduled)
    && !(s.retryResp && s.scheduled)
  }

  ghost predicate Inv(s: State)
  {
    && QueuesOk(s) && ResponsesOk(s) && WakeUp(s)
    && s.refusals == s.retries + if s.retryReq then 1 else 0
  }

  // ---------------------------------------------------------------- sums and filters

  lemma {:induction false} TotalAt(m: Queues, a: Addr)
    requires a in m
    ensures Total(m) == |m[a]| + Total(m - {a})
    decreases |m|
  {
    var b :| b in m && Total(m) == |m[b]| + Total(m - {b});
    if b != a {
      TotalAt(m - {b}, a);
      TotalAt(m - {a}, b);
      assert m - {b} - {a} == m - {a} - {b};
    }
  }

  lemma TotalPut(m: Queues, a: Addr, q: seq<Packet>)
    ensures Total(m[a := q]) == Total(m) - |Queue(m, a)| + |q|
  {
    var n := m[a := q];
    TotalAt(n, a);
    if a in m {
      TotalAt(m, a);
      assert n - {a} == m - {a};
    } else {
      assert n - {a} == m;
    }
  }

  lemma TotalPop(m: Queues, a: Addr)
    requires a in m && m[a] != []
    ensures Total(Pop(m, a)) == Total(m) - 1
  {
    TotalAt(m, a);
    TotalPut(m, a, m[a][1..]);
  }

  lemma QueueAfterPush(m: Queues, p: Packet, a: Addr)
    ensures Queue(Push(m, p), a) == Queue(m, a) + if p.addr == a then [p] else []
  {
  }

  lemma QueueAfterPop(m: Queues, b: Addr, a: Addr)
    requires b in m && m[b] != []
    ensures Queue(m, a) == (if a == b then [m[b][0]] else []) + Queue(Pop(m, b), a)
  {
  }

  // ---------------------------------------------------------------- every step keeps the invariant

  lemma InitInv()
    ensures Inv(INIT)
  {
  }

  lemma RespondResponses(s: State, p: Packet)
    requires ResponsesOk(s)
    ensures ResponsesOk(Respond(s, p))
  {
    hide Filter;
    FilterSnoc(s.answered, p, (p: Packet) => p.needsResponse);
    if p.needsResponse {
      assert Needing(s.answered + [p]) == s.delivered + (s.responses + [p]);
    }
  }

  lemma RespondWakeUp(s: State, p: Packet)
    requires WakeUp(s)
    ensures WakeUp(Respond(s, p))
  {
  }

  lemma PushKeeps(m: Queues, p: Packet)
    requires Sound(m) && p.read
    ensures Sound(Push(m, p))
  {
  }

  lemma AcceptReadQueues(s: State, p: Packet)
    requires QueuesOk(s) && p.read && !s.retryReq
    ensures QueuesOk(Request(s, p, true))
  {
    hide Filter, Total;
    var r := Request(s, p, true);
    PushKeeps(s.outstandingReads, p);
    TotalPut(s.outstandingReads, p.addr, Queue(s.outstandingReads, p.addr) + [p]);
    forall a
      ensures ReadsAt(r.accepted, a) == ReadsAt(r.answered, a) + Queue(r.outstandingReads, a)
      ensures r.pending[a] == |Queue(r.outstandingReads, a)|
    {
      ReadAnswered(s.accepted, p, a);
      QueueAfterPush(s.outstandingReads, p, a);
    }
  }

  lemma AnswerWriteQueues(s: State, p: Packet)
    requires QueuesOk(s) && !p.read
    ensures QueuesOk(Respond(s, p))
  {
    var r := Respond(s, p);
    forall a
      ensures ReadsAt(r.accepted, a) == ReadsAt(r.answered, a) + Queue(r.outstandingReads, a)
    {
      FilterSnoc(s.answered, p, (p: Packet) => p.read && p.addr == a);
    }
  }

  lemma RequestKeeps(s: State, p: Packet, accept: bool)
    requires Inv(s)
    ensures Inv(Request(s, p, accept))
  {
    if !s.retryReq && accept {
      if p.read {
        AcceptReadQueues(s, p);
      } else {
        hide Respond, QueuesOk, ResponsesOk, WakeUp;
        var t := AcceptWrite(s, p);
        SameReads(s, t);
        AnswerWriteQueues(t, p);
        RespondResponses(t, p);
        RespondWakeUp(t, p);
        RespondFrame(t, p);
      }
    }
  }

  lemma RespondFrame(s: State, p: Packet)
    ensures var r := Respond(s, p); r.refusals == s.refusals && r.retries == s.retries && r.retryReq == s.retryReq
  {
  }

  lemma SameReads(s: State, t: State)
    requires t == s.(outstandingWrites := t.outstandingWrites, nbrWrites := t.nbrWrites) && Inv(s)
    ensures Inv(t)
  {
  }

  lemma CallbackQueues(s: State, a: Addr)
    requires QueuesOk(s) && a in s.outstandingReads && s.nbrReads > 0
    ensures s.outstandingReads[a] != [] && QueuesOk(Callback(s, a))
  {
    hide Pop, ReadsAt, Queue, Total, Sound;
    PopKeeps(s.outstandingReads, a);
    TotalPop(s.outstandingReads, a);
    forall b
      ensures var r := Callback(s, a);
              ReadsAt(r.accepted, b) == ReadsAt(r.answered, b) + Queue(r.outstandingReads, b) && r.pending[b] == |Queue(r.outstandingReads, b)|
    {
      CallbackAt(s, a, b);
    }
  }

  lemma CallbackAt(s: State, a: Addr, b: Addr)
    requires a in s.outstandingReads && s.outstandingReads[a] != [] && s.nbrReads > 0
    requires s.outstandingReads[a][0].read && s.outstandingReads[a][0].addr == a
    requires ReadsAt(s.accepted, b) == ReadsAt(s.answered, b) + Queue(s.outstandingReads, b)
    requires s.pending[b] == |Queue(s.outstandingReads, b)|
    ensures var r := Callback(s, a);
            ReadsAt(r.accepted, b) == ReadsAt(r.answered, b) + Queue(r.outstandingReads, b) && r.pending[b] == |Queue(r.outstandingReads, b)|
  {
    hide Pop, ReadsAt, Queue;
    var p := s.outstandingReads[a][0];
    QueueAfterPop(s.outstandingReads, a, b);
    ReadAnswered(s.answered, p, b);
    if a == b {
      var done, left := ReadsAt(s.answered, b), Queue(Pop(s.outstandingReads, a), b);
      assert done + ([p] + left) == (done + [p]) + left;
    } else {
      assert [] + Queue(Pop(s.outstandingReads, a), b) == Queue(Pop(s.outstandingReads, a), b);
    }
  }

  lemma ReadAnswered(ps: seq<Packet>, p: Packet, a: Addr)
    requires p.read
    ensures ReadsAt(ps + [p], a) == ReadsAt(ps, a) + if p.addr == a then [p] else []
  {
    FilterSnoc(ps, p, (p: Packet) => p.read && p.addr == a);
  }

  ghost predicate Sound(m: Queues)
  {
    forall a <- m :: m[a] != [] && forall p <- m[a] :: p.read && p.addr == a
  }

  lemma PopKeeps(m: Queues, a: Addr)
    requires Sound(m) && a in m
    ensures m[a] != [] && m[a][0].read && m[a][0].addr == a && Sound(Pop(m, a))
  {
    assert forall p <- m[a][1..] :: p in m[a];
  }

  /** A read that the memory system still has to call back is found in the table. */
  lemma CallbackFinds(s: State, a: Addr)
    requires QueuesOk(s) && a in s.pending
    ensures a in s.outstandingReads && s.outstandingReads[a] != [] && s.nbrReads > 0
  {
    assert s.pending[a] > 0;
    TotalAt(s.outstandingReads, a);
  }

  lemma CallbackKeeps(s: State, a: Addr)
    requires Inv(s) && a in s.pending
    ensures a in s.outstandingReads && s.outstandingReads[a] != [] && s.nbrReads > 0
    ensures Inv(Callback(s, a)) && Callback(s, a).pending == s.pending - multiset{a}
  {
    hide Filter, Total, Queue, Pop, QueuesOk, Needing;
    CallbackFinds(s, a);
    CallbackQueues(s, a);
    var t := TakeRead(s, a);
    RespondResponses(t, s.outstandingReads[a][0]);
    RespondWakeUp(t, s.outstandingReads[a][0]);
  }

  /** The callbacks of one tick of the memory system. */
  ghost function Callbacks(s: State, done: seq<Addr>): (r: State)
    requires Inv(s) && multiset(done) <= s.pending
    ensures Inv(r) && r.pending == s.pending - multiset(done)
    decreases |done|
  {
    if done == [] then s
    else
      DoneRest(done);
      CallbackKeeps(s, done[0]);
      Callbacks(Callback(s, done[0]), done[1..])
  }

  lemma DoneRest(done: seq<Addr>)
    requires done != []
    ensures multiset(done) == multiset{done[0]} + multiset(done[1..])
  {
    assert done == [done[0]] + done[1..];
  }

  ghost function Tick(s: State, timing: bool, done: seq<Addr>): (r: State)
    requires Inv(s) && (timing ==> multiset(done) <= s.pending)
    ensures Inv(r)
  {
    if timing then RetryReq(Callbacks(s, done)) else s
  }

  lemma SendKeeps(s: State, success: bool)
    requires QueuesOk(s) && ResponsesOk(s) && s.responses != [] && !s.retryResp && !s.scheduled
    requires s.refusals == s.retries + if s.retryReq then 1 else 0
    ensures Inv(Send(s, success))
  {
    hide Sound, Queue, ReadsAt, Needing, Total;
    assert s.responses == [s.responses[0]] + s.responses[1..];
    assert s.delivered + s.responses == s.delivered + [s.responses[0]] + s.responses[1..];
  }

  // ---------------------------------------------------------------- runs

  datatype Event =
    | Requested(p: Packet, accept: bool)           // the memory system's answer
    | Clocked(timing: bool, done: seq<Addr>)       // the reads that complete
    | SendFired(success: bool)                     // the port's answer
    | RetryAsked(success: bool)

  /** The memory system calls back each accepted read once; an event fires if scheduled; the port asks for
      a retry if it refused a response. */
  ghost predicate Enabled(s: State, e: Event)
  {
    match e
    case Requested(_, _) => true
    case Clocked(timing, done) => timing ==> multiset(done) <= s.pending
    case SendFired(_) => s.scheduled
    case RetryAsked(_) => s.retryResp
  }

  ghost function Step(s: State, e: Event): (r: State)
    requires Inv(s) && Enabled(s, e)
  {
    match e
    case Requested(p, accept) => Request(s, p, accept)
    case Clocked(timing, done) => Tick(s, timing, done)
    case SendFired(success) => SendEvent(s, success)
    case RetryAsked(success) => RespRetry(s, success)
  }

  lemma StepKeeps(s: State, e: Event)
    requires Inv(s) && Enabled(s, e)
    ensures Inv(Step(s, e))
  {
    hide QueuesOk, ResponsesOk, Request, Send;
    match e
    case Requested(p, accept) => RequestKeeps(s, p, accept);
    case Clocked(_, _) =>
    case SendFired(success) =>
      SameFlags(s, s.(scheduled := false));
      SendKeeps(s.(scheduled := false), success);
    case RetryAsked(success) =>
      SameFlags(s, s.(retryResp := false));
      SendKeeps(s.(retryResp := false), success);
  }

  lemma SameFlags(s: State, t: State)
    requires QueuesOk(s) && ResponsesOk(s) && t == s.(scheduled := t.scheduled, retryResp := t.retryResp)
    ensures QueuesOk(t) && ResponsesOk(t)
  {
  }

  /** A step is defined on good states, which is all a run ever meets. */
  ghost predicate IsRun(states: seq<State>, events: seq<Event>)
  {
    && |states| == |events| + 1 && states[0] == INIT
    && forall i :: 0 <= i < |events| ==>
         Inv(states[i]) ==> Enabled(states[i], events[i]) && states[i + 1] == Step(states[i], events[i])
  }

  lemma {:induction false} RunsKeepInv(states: seq<State>, events: seq<Event>, n: nat)
    requires IsRun(states, events) && n < |states|
    ensures Inv(states[n])
    decreases n
  {
    if n == 0 {
      InitInv();
    } else {
      hide Inv, Step, Enabled;
      var i := n - 1;
      RunsKeepInv(states, events, i);
      assert events[i] == events[n - 1] && states[i + 1] == states[n];
      StepKeeps(states[i], events[i]);
    }
  }

  // ---------------------------------------------------------------- what the invariant says about reads

  lemma {:induction false} FilterTwice(ps: seq<Packet>, f: Packet -> bool, g: Packet -> bool)
    ensures Filter(Filter(ps, f), g) == Filter(ps, (p: Packet) => f(p) && g(p)) == Filter(Filter(ps, g), f)
  {
    if ps != [] {
      var n := |ps| - 1;
      FilterTwice(ps[..n], f, g);
      FilterSnoc(Filter(ps[..n], f), ps[n], g);
      FilterSnoc(Filter(ps[..n], g), ps[n], f);
    }
  }

  lemma {:induction false} FilterCount(ps: seq<Packet>, keep: Packet -> bool, p: Packet)
    requires keep(p)
    ensures multiset(Filter(ps, keep))[p] == multiset(ps)[p]
  {
    if ps != [] {
      var n := |ps| - 1;
      FilterCount(ps[..n], keep, p);
      assert ps == ps[..n] + [ps[n]];
    }
  }

  /** Per address, the accepted reads that want a response are, in this order: delivered, queued, outstanding. */
  lemma FirstInFirstOut(s: State, a: Addr)
    requires QueuesOk(s) && ResponsesOk(s)
    ensures Needing(ReadsAt(s.accepted, a)) ==
            ReadsAt(s.delivered, a) + ReadsAt(s.responses, a) + Needing(Queue(s.outstandingReads, a))
  {
    hide Filter, Queue, Total, Sound;
    var wants, at := (p: Packet) => p.needsResponse, (p: Packet) => p.read && p.addr == a;
    FilterConcat(ReadsAt(s.answered, a), Queue(s.outstandingReads, a), wants);
    FilterTwice(s.answered, at, wants);
    FilterConcat(s.delivered, s.responses, at);
  }

  /** An accepted read that wants a response is in exactly one place: outstanding, queued or delivered. */
  lemma ExactlyOnce(s: State, p: Packet)
    requires QueuesOk(s) && ResponsesOk(s) && p.read && p.needsResponse
    ensures multiset(s.accepted)[p] ==
            multiset(Queue(s.outstandingReads, p.addr))[p] + multiset(s.responses)[p] + multiset(s.delivered)[p]
  {
    hide Filter, Queue, Total, Sound;
    var wants, at := (q: Packet) => q.needsResponse, (q: Packet) => q.read && q.addr == p.addr;
    FirstInFirstOut(s, p.addr);
    FilterCount(s.accepted, at, p);
    FilterCount(ReadsAt(s.accepted, p.addr), wants, p);
    FilterCount(s.delivered, at, p);
    FilterCount(s.responses, at, p);
    FilterCount(Queue(s.outstandingReads, p.addr), wants, p);
  }

  /** The responses that the port takes if it refuses none from now on. */
  ghost function Flush(s: State): (r: State)
    requires Inv(s)
    ensures Inv(r)
    decreases |s.responses|
  {
    if s.responses == [] then s
    else if s.scheduled then
      StepKeeps(s, SendFired(true));
      Flush(SendEvent(s, true))
    else
      StepKeeps(s, RetryAsked(true));
      Flush(RespRetry(s, true))
  }

  /** No wake-up is lost: the whole queue goes out, in order. */
  lemma {:induction false} FlushDelivers(s: State)
    requires Inv(s)
    ensures Flush(s).delivered == s.delivered + s.responses && Flush(s).responses == []
    decreases |s.responses|
  {
    hide QueuesOk, ResponsesOk;
    if s.responses == [] {
    } else {
      assert s.delivered + s.responses == s.delivered + [s.responses[0]] + s.responses[1..];
      if s.scheduled {
        StepKeeps(s, SendFired(true));
        FlushDelivers(SendEvent(s, true));
      } else {
        StepKeeps(s, RetryAsked(true));
        FlushDelivers(RespRetry(s, true));
      }
    }
  }

  // ---------------------------------------------------------------- draining

  /** Nothing that a tick leaves alone, and no outstanding read that wants a response. */
  ghost predicate OnlySilentReads(s: State)
  {
    s.responses == [] && s.nbrWrites == 0 && forall a :: Needing(Queue(s.outstandingReads, a)) == []
  }

  lemma {:induction false} CallbacksFrame(s: State, done: seq<Addr>)
    requires Inv(s) && multiset(done) <= s.pending
    ensures var r := Callbacks(s, done);
            && r.drainSignals == s.drainSignals && r.nbrWrites == s.nbrWrites
            && r.accepted == s.accepted && r.delivered == s.delivered && s.responses <= r.responses
    decreases |done|
  {
    hide Inv, Pop;
    if done != [] {
      CallbacksStep(s, done);
      CallbacksFrame(Callback(s, done[0]), done[1..]);
    }
  }

  /** Reads that want no response leave no response. */
  lemma {:induction false} CallbacksSilent(s: State, done: seq<Addr>)
    requires Inv(s) && multiset(done) <= s.pending && forall a :: Needing(Queue(s.outstandingReads, a)) == []
    ensures Callbacks(s, done).responses == s.responses
    decreases |done|
  {
    hide Inv, Pop, Needing, Queue;
    if done != [] {
      CallbacksStep(s, done);
      var a := done[0];
      forall b
        ensures Needing(Queue(Pop(s.outstandingReads, a), b)) == []
      {
        SilentRest(s.outstandingReads, a, b);
      }
      SilentRest(s.outstandingReads, a, a);
      CallbacksSilent(Callback(s, a), done[1..]);
    }
  }

  lemma SilentRest(m: Queues, a: Addr, b: Addr)
    requires a in m && m[a] != [] && Needing(Queue(m, b)) == []
    ensures Needing(Queue(Pop(m, a), b)) == [] && (a == b ==> !m[a][0].needsResponse)
  {
    hide Pop;
    var head := if a == b then [m[a][0]] else [];
    QueueAfterPop(m, a, b);
    FilterConcat(head, Queue(Pop(m, a), b), (p: Packet) => p.needsResponse);
    if a == b {
      FilterSnoc([], m[a][0], (p: Packet) => p.needsResponse);
      assert [] + [m[a][0]] == head;
    }
  }

  lemma NoReadsLeft(s: State)
    requires Inv(s)
    ensures s.nbrReads == 0 <==> s.pending == multiset{}
    ensures s.nbrReads == 0 ==> forall a :: Queue(s.outstandingReads, a) == []
  {
    hide ReadsAt, Needing;
    NoneOutstanding(s);
    if s.outstandingReads != map[] {
      var a :| a in s.outstandingReads;
      assert s.pending[a] == |Queue(s.outstandingReads, a)| > 0;
    }
  }

  /** A tick ends with nothing left if and only if only reads were left, all of them complete in this tick and
      none of them wants a response. */
  lemma TickEmptiesExact(s: State, done: seq<Addr>)
    requires Inv(s) && multiset(done) <= s.pending
    ensures NbrOutstanding(Tick(s, true, done)) == 0 <==> multiset(done) == s.pending && OnlySilentReads(s)
  {
    hide Inv, Callbacks, Needing, Queue;
    var r := Callbacks(s, done);
    CallbacksFrame(s, done);
    NoReadsLeft(r);
    assert r.pending == multiset{} <==> multiset(done) == s.pending;
    if NbrOutstanding(r) == 0 {
      forall a
        ensures Needing(Queue(s.outstandingReads, a)) == []
      {
        AllDelivered(s, r, a);
      }
    }
    if multiset(done) == s.pending && OnlySilentReads(s) {
      CallbacksSilent(s, done);
    }
  }

  lemma AllDelivered(s: State, r: State, a: Addr)
    requires Inv(s) && Inv(r) && r.accepted == s.accepted && r.delivered == s.delivered
    requires r.responses == [] && Queue(r.outstandingReads, a) == []
    ensures Needing(Queue(s.outstandingReads, a)) == []
  {
    hide Queue, QueuesOk, ResponsesOk;
    FirstInFirstOut(s, a);
    FirstInFirstOut(r, a);
    assert Needing([]) == [] && ReadsAt([], a) == [];
    var d := ReadsAt(s.delivered, a);
    assert |d| == |d + ReadsAt(s.responses, a) + Needing(Queue(s.outstandingReads, a))|;
  }

  /** When the last transaction leaves, the end of the drain is signalled if and only if it does not leave
      during a clock tick; and there the last ones to leave are reads that want no response. */
  lemma DrainSignalExact(s: State, e: Event)
    requires Inv(s) && Enabled(s, e) && NbrOutstanding(s) > 0 && NbrOutstanding(Step(s, e)) == 0
    ensures Step(s, e).drainSignals == s.drainSignals + 1 <==> !e.Clocked?
    ensures e.Clocked? ==> e.timing && multiset(e.done) == s.pending && OnlySilentReads(s)
  {
    hide QueuesOk, ResponsesOk, Callbacks, OnlySilentReads;
    if e.Clocked? && e.timing {
      CallbacksFrame(s, e.done);
      TickEmptiesExact(s, e.done);
    }
  }

  // Of the memory controllers that tick, all call back reads only: an accepted write is counted for ever.

  /** A step never forgets a write, and signals the end of a drain only if there is none. */
  lemma WritesStay(s: State, e: Event)
    requires Inv(s) && Enabled(s, e)
    ensures var r := Step(s, e);
            && r.nbrWrites >= s.nbrWrites
            && (s.nbrWrites > 0 ==> r.drainSignals == s.drainSignals)
            && (e.Requested? && e.accept && !e.p.read && !s.retryReq ==> r.nbrWrites > 0 && r.drainSignals == s.drainSignals)
  {
    hide QueuesOk, ResponsesOk, Callbacks, Push, Queue;
    if e.Clocked? && e.timing {
      CallbacksFrame(s, e.done);
    }
  }

  /** Once a write has been accepted, no drain ever ends again: from then on, in every state of every run, something
      is outstanding, and the end of a drain is never signalled. */
  lemma {:induction false} NoDrainAfterWrite(states: seq<State>, events: seq<Event>, k: nat, n: nat)
    requires IsRun(states, events) && k < n < |states|
    requires events[k].Requested? && events[k].accept && !events[k].p.read && !states[k].retryReq
    ensures states[n].nbrWrites > 0 && NbrOutstanding(states[n]) > 0 && states[n].drainSignals == states[k].drainSignals
    decreases n
  {
    hide Inv, Step, Enabled;
    var i := n - 1;
    if k < i {
      NoDrainAfterWrite(states, events, k, i);
    }
    RunsKeepInv(states, events, i);
    assert states[i + 1] == states[n] && events[i] == events[n - 1];
    WritesStay(states[i], events[i]);
  }

  /** A read that wants no response ends a drain silently. */
  lemma SilentDrain(p: Packet)
    requires p.read && !p.needsResponse
    ensures var s := Request(INIT, p, true);
            && Inv(s) && NbrOutstanding(s) == 1 && Enabled(s, Clocked(true, [p.addr]))
            && NbrOutstanding(Step(s, Clocked(true, [p.addr]))) == 0
            && Step(s, Clocked(true, [p.addr])).drainSignals == 0
  {
    var s := Request(INIT, p, true);
    InitInv();
    RequestKeeps(INIT, p, true);
    hide Inv, QueuesOk, ResponsesOk, WakeUp;
    var done := [p.addr];
    assert multiset(done) == multiset{p.addr} == s.pending;
    CallbackKeeps(s, p.addr);
    assert done[1..] == [];
    assert Callbacks(s, done) == Callback(s, p.addr);
  }

  // ---------------------------------------------------------------- the wrapper itself

  class Wrapper {
    var outstandingReads: Queues
    var outstandingWrites: Queues
    var nbrOutstandingReads: nat
    var nbrOutstandingWrites: nat
    var responseQueue: seq<Packet>
    var retryReq: bool
    var retryResp: bool
    var sendResponseScheduled: bool

    ghost var accepted: seq<Packet>
    ghost var answered: seq<Packet>
    ghost var delivered: seq<Packet>
    ghost var pending: multiset<Addr>
    ghost var refusals: nat
    ghost var retries: nat
    ghost var drainSignals: nat

    ghost function Abs(): (s: State)
      reads this
    {
      State(outstandingReads, outstandingWrites, nbrOutstandingReads, nbrOutstandingWrites,
            responseQueue, retryReq, retryResp, sendResponseScheduled,
            accepted, answered, delivered, pending, refusals, retries, drainSignals)
    }

    constructor ()
      ensures Abs() == INIT && Inv(Abs())
    {
      outstandingReads, outstandingWrites, nbrOutstandingReads, nbrOutstandingWrites := map[], map[], 0, 0;
      responseQueue, retryReq, retryResp, sendResponseScheduled := [], false, false, false;
      accepted, answered, delivered, pending, refusals, retries, drainSignals := [], [], [], multiset{}, 0, 0, 0;
      new;
      InitInv();
    }

    method CountOutstanding() returns (n: nat)
      ensures n == NbrOutstanding(Abs())
    {
      n := nbrOutstandingReads + nbrOutstandingWrites + |responseQueue|;
    }

    /** True for "draining": something is outstanding or queued. */
    method Drain() returns (draining: bool)
      requires Inv(Abs())
      ensures draining <==> outstandingReads != map[] || nbrOutstandingWrites > 0 || responseQueue != []
    {
      var n := CountOutstanding();
      draining := n != 0;
      NoneOutstanding(Abs());
    }

    method AccessAndRespond(p: Packet)
      modifies this`responseQueue, this`sendResponseScheduled, this`answered
      ensures Abs() == Respond(old(Abs()), p)
    {
      answered := answered + [p];
      if p.needsResponse {
        responseQueue := responseQueue + [p];
        if !retryResp && !sendResponseScheduled {
          sendResponseScheduled := true;
        }
      }
    }

    method RefuseRequest()
      modifies this`retryReq, this`refusals
      ensures Abs() == Refuse(old(Abs()))
    {
      retryReq, refusals := true, refusals + 1;
    }

    method PutRead(p: Packet)
      modifies this`outstandingReads, this`nbrOutstandingReads, this`accepted, this`pending
      ensures Abs() == AcceptRead(old(Abs()), p)
    {
      outstandingReads := outstandingReads[p.addr := Queue(outstandingReads, p.addr) + [p]];
      nbrOutstandingReads := nbrOutstandingReads + 1;
      accepted, pending := accepted + [p], pending + multiset{p.addr};
    }

    method PutWrite(p: Packet)
      modifies this`outstandingWrites, this`nbrOutstandingWrites
      ensures Abs() == AcceptWrite(old(Abs()), p)
    {
      outstandingWrites := outstandingWrites[p.addr := Queue(outstandingWrites, p.addr) + [p]];
      nbrOutstandingWrites := nbrOutstandingWrites + 1;
    }

    method RecvTimingReq(p: Packet, accept: bool) returns (ok: bool)
      requires Inv(Abs())
      modifies this
      ensures Abs() == Request(old(Abs()), p, accept) && Inv(Abs())
      ensures ok <==> accept && !old(retryReq)
    {
      hide Inv, Respond, AcceptRead, AcceptWrite, Refuse;
      RequestKeeps(Abs(), p, accept);
      if retryReq {
        return false;
      }
      ok := accept;
      if p.read {
        if ok {
          PutRead(p);
        } else {
          RefuseRequest();
        }
      } else {
        if ok {
          PutWrite(p);
          AccessAndRespond(p);
        } else {
          RefuseRequest();
        }
      }
    }

    method GetRead(a: Addr) returns (p: Packet)
      requires a in outstandingReads && outstandingReads[a] != [] && nbrOutstandingReads > 0
      modifies this`outstandingReads, this`nbrOutstandingReads, this`pending
      ensures Abs() == TakeRead(old(Abs()), a) && p == old(outstandingReads[a][0])
    {
      var q := outstandingReads[a];
      p := q[0];
      q := q[1..];
      outstandingReads := outstandingReads[a := q];
      if |q| == 0 {
        outstandingReads := outstandingReads - {a};
        assert outstandingReads == old(outstandingReads) - {a};
      }
      nbrOutstandingReads := nbrOutstandingReads - 1;
      pending := pending - multiset{a};
    }

    method ReadCallback(a: Addr)
      requires Inv(Abs()) && a in pending
      modifies this
      ensures a in old(outstandingReads) && old(outstandingReads[a]) != [] && old(nbrOutstandingReads) > 0
      ensures Abs() == Callback(old(Abs()), a) && Inv(Abs())
    {
      hide Inv, Respond, TakeRead;
      CallbackKeeps(Abs(), a);
      var p := GetRead(a);
      AccessAndRespond(p);
    }

    method SendResponse(success: bool)
      requires !retryResp && responseQueue != [] && !sendResponseScheduled
      modifies this`responseQueue, this`retryResp, this`sendResponseScheduled, this`delivered, this`drainSignals
      ensures Abs() == Send(old(Abs()), success)
    {
      if success {
        delivered := delivered + [responseQueue[0]];
        responseQueue := responseQueue[1..];
        if responseQueue != [] && !sendResponseScheduled {
          sendResponseScheduled := true;
        }
        var n := CountOutstanding();
        if n == 0 {
          drainSignals := drainSignals + 1;
        }
      } else {
        retryResp := true;
        assert !sendResponseScheduled;
      }
    }

    method SendResponseEvent(success: bool)
      requires Inv(Abs()) && sendResponseScheduled
      modifies this
      ensures old(!retryResp && responseQueue != [])
      ensures Abs() == SendEvent(old(Abs()), success) && Inv(Abs())
    {
      hide QueuesOk, ResponsesOk, Send;
      StepKeeps(Abs(), SendFired(success));
      sendResponseScheduled := false;
      SendResponse(success);
    }

    method RecvRespRetry(success: bool)
      requires Inv(Abs()) && retryResp
      modifies this
      ensures old(responseQueue) != []
      ensures Abs() == RespRetry(old(Abs()), success) && Inv(Abs())
    {
      hide QueuesOk, ResponsesOk, Send;
      StepKeeps(Abs(), RetryAsked(success));
      retryResp := false;
      SendResponse(success);
    }

    method ClockTick(timing: bool, done: seq<Addr>)
      requires Inv(Abs()) && (timing ==> multiset(done) <= pending)
      modifies this
      ensures Abs() == Tick(old(Abs()), timing, done) && Inv(Abs())
    {
      hide Inv, Callback, Callbacks, RetryReq;
      if timing {
        RunCallbacks(done);
        RetryKeeps(Abs());
        SendRetryReq();
      }
    }

    method SendRetryReq()
      modifies this`retryReq, this`retries
      ensures Abs() == RetryReq(old(Abs()))
    {
      if retryReq {
        retryReq, retries := false, retries + 1;
      }
    }

    method RunCallbacks(done: seq<Addr>)
      requires Inv(Abs()) && multiset(done) <= pending
      modifies this
      ensures Abs() == Callbacks(old(Abs()), done) && Inv(Abs())
    {
      hide Inv, Callback, Callbacks;
      ghost var s := Abs();
      assert done[0..] == done;
      for i := 0 to |done|
        invariant Inv(Abs()) && multiset(done[i..]) <= Abs().pending
        invariant Callbacks(s, done) == Callbacks(Abs(), done[i..])
      {
        assert done[i..][0] == done[i] && done[i..][1..] == done[i + 1..];
        CallbacksStep(Abs(), done[i..]);
        ReadCallback(done[i]);
      }
      assert done[|done|..] == [];
      CallbacksNone(Abs());
    }
  }

  lemma CallbacksNone(s: State)
    requires Inv(s)
    ensures Callbacks(s, []) == s
  {
  }

  lemma CallbacksStep(s: State, done: seq<Addr>)
    requires Inv(s) && multiset(done) <= s.pending && done != []
    ensures done[0] in s.pending && done[0] in s.outstandingReads && s.outstandingReads[done[0]] != [] && s.nbrReads > 0
    ensures var r := Callback(s, done[0]);
            && Inv(r) && multiset(done[1..]) <= r.pending
            && Callbacks(s, done) == Callbacks(r, done[1..])
  {
    hide Inv, Callback;
    DoneRest(done);
    CallbackKeeps(s, done[0]);
  }

  lemma RetryKeeps(s: State)
    requires Inv(s)
    ensures Inv(RetryReq(s))
  {
  }

  lemma NoneOutstanding(s: State)
    requires Inv(s)
    ensures s.nbrReads == 0 <==> s.outstandingReads == map[]
  {
    if s.outstandingReads != map[] {
      var a :| a in s.outstandingReads;
      TotalAt(s.outstandingReads, a);
    }
  }
}
