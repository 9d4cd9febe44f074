/** The front end and the back end running together: every interleaving of their steps and of byte arrival. */
module SiftSession {
  import opened SiftFormat
  import opened SiftProtocol
  import opened Wrappers

  /** Bytes that have arrived, and bytes written but still under way. */
  datatype Chan = Chan(here: seq<Byte>, flying: seq<Byte>)

  function All(c: Chan): (bs: seq<Byte>)
  {
    c.here + c.flying
  }

  const NONE := Chan([], [])

  type Memory = Word64 -> Byte

  function Peek(mem: Memory, addr: Word64, n: nat): (bs: seq<Byte>)
    ensures |bs| == n
  {
    seq<Byte>(n, (k: int) requires 0 <= k < n => mem(Add64(addr, k)))
  }

  /** The memory once `data` is written at `addr`. */
  function Poke(mem: Memory, addr: Word64, data: seq<Byte>): (m: Memory)
  {
    (x: Word64) =>
      var d := if x >= addr then x - addr else x - addr + TWO64;
      if d < |data| then data[d] else mem(x)
  }

  // ---------------------------------------------------------------- what clients observe, and what is legal

  datatype Event =
    | Queued(note: Record)                     // front end: instruction, code, mapping or event written
    | Noted(note: Record)                      // back end: the same read
    | Changed(addr: Word64, data: seq<Byte>)   // front end: the program writes its own memory
    | Issued(req: Request)                     // front end: call starts
    | Entered(req: Request)                    // back end: handler starts
    | Asked(op: MemOp)                         // back end: handler accesses memory
    | Stored(addr: Word64, data: seq<Byte>)    // front end: memory written
    | Loaded(addr: Word64, bytes: seq<Byte>)   // back end: AccessMemory returns data
    | Confirmed(addr: Word64)                  // back end: AccessMemory returns after a write
    | Replied(reply: Reply)                    // back end: handler ends
    | Returned(reply: Reply)                   // front end: call ends

  /** A plain synchronous machine: one call at a time, each access served at once from one memory; a handler starts
      only when all that was written before its call has been read. */
  datatype Phase =
    | Quiet
    | Called(req: Request)
    | Busy(req: Request)
    | Asking(req: Request, op: MemOp)
    | Acking(req: Request, op: MemOp)
    | Answered(req: Request, reply: Reply)

  datatype Machine = Machine(phase: Phase, mem: Memory, notes: seq<Note>)

  function Accept(m: Machine, e: Event): (r: Option<Machine>)
  {
    match (m.phase, e)
    case (Quiet, Queued(n)) => if IsNote(n) then Some(m.(notes := m.notes + [n])) else None
    case (Quiet, Changed(addr, data)) => Some(m.(mem := Poke(m.mem, addr, data)))
    case (Quiet, Issued(req)) => Some(m.(phase := Called(req)))
    case (_, Noted(n)) => if |m.notes| > 0 && m.notes[0] == n then Some(m.(notes := m.notes[1..])) else None
    case (Called(req), Entered(r)) => if r == req && m.notes == [] then Some(m.(phase := Busy(req))) else None
    case (Busy(req), Asked(op)) => if Nests(req) then Some(m.(phase := Asking(req, op))) else None
    case (Asking(req, op), Loaded(addr, bytes)) =>
      if op.Load? && addr == op.addr && bytes == Peek(m.mem, addr, op.size) then Some(m.(phase := Busy(req))) else None
    case (Asking(req, op), Stored(addr, data)) =>
      if op.Store? && addr == op.addr && data == op.data
      then Some(m.(phase := Acking(req, op), mem := Poke(m.mem, addr, data))) else None
    case (Acking(req, op), Confirmed(addr)) => if addr == op.addr then Some(m.(phase := Busy(req))) else None
    case (Busy(req), Replied(p)) => if Fits(req, p) then Some(m.(phase := Answered(req, p))) else None
    case (Answered(_, p), Returned(q)) => if p == q then Some(m.(phase := Quiet)) else None
    case _ => None
  }

  function AcceptAll(m: Machine, log: seq<Event>): (r: Option<Machine>)
    decreases |log|
  {
    if log == [] then Some(m)
    else
      match AcceptAll(m, log[..|log| - 1])
      case None => None
      case Some(m') => Accept(m', log[|log| - 1])
  }

  // ---------------------------------------------------------------- the two parties

  /** Error returns, failed asserts and skipped records of the wait loops are all FrontError. */
  datatype Front = Idle | AwaitHead(req: Request) | AwaitBody(req: Request, kind: Byte, size: nat) | FrontError

  datatype Back =
    | Listening
    | TakingBody(kind: Byte, size: nat)
    | Handling(req: Request)
    | WaitHead(req: Request, op: MemOp)
    | WaitBody(req: Request, op: MemOp, kind: Byte, size: nat)
    | BackError

  /** `toBack` is the trace stream, `toFront` the response stream. */
  datatype State = State(front: Front, back: Back, toBack: Chan, toFront: Chan, mem: Memory, log: seq<Event>)

  datatype Step =
    | ArriveBack(n: nat) | ArriveFront(n: nat)
    | SendNote(note: Note) | Change(addr: Word64, data: seq<Byte>) | Call(req: Request) | FrontHead | FrontBody
    | BackHead | BackBody | BackInsn | Access(op: MemOp) | Answer(reply: Reply) | AnswerHead | AnswerBody

  function Arrive(c: Chan, n: nat): (r: Option<Chan>)
    ensures r.Some? ==> All(r.value) == All(c)
  {
    if 1 <= n <= |c.flying| then
      assert c.here + c.flying[..n] + c.flying[n..] == c.here + c.flying;
      Some(Chan(c.here + c.flying[..n], c.flying[n..]))
    else None
  }

  function Put(c: Chan, kind: Byte, payload: seq<Byte>): (r: Chan)
    ensures All(r) == All(c) + EncodeOther(kind, payload)
  {
    assert c.here + (c.flying + EncodeOther(kind, payload)) == c.here + c.flying + EncodeOther(kind, payload);
    c.(flying := c.flying + EncodeOther(kind, payload))
  }

  function Drop(c: Chan, n: nat): (r: Chan)
    requires n <= |c.here|
    ensures All(r) == All(c)[n..]
  {
    assert (c.here + c.flying)[n..] == c.here[n..] + c.flying;
    c.(here := c.here[n..])
  }

  function Append(c: Chan, bytes: seq<Byte>): (r: Chan)
    ensures All(r) == All(c) + bytes
  {
    assert c.here + (c.flying + bytes) == c.here + c.flying + bytes;
    c.(flying := c.flying + bytes)
  }

  function Log(s: State, e: Event): (r: State)
  {
    s.(log := s.log + [e])
  }

  /** `handleMemoryRequest`: read or write front-end memory and answer. */
  function Serve(s: State, req: Request, d: seq<Byte>): (r: State)
  {
    match ParseOp(d)
    case None => s.(front := AwaitHead(req))
    case Some(op) =>
      var bytes := if op.Load? then Peek(s.mem, op.addr, op.size) else [];
      var s' := s.(front := AwaitHead(req), toBack := Put(s.toBack, MEMORY_RESPONSE, AnswerPayload(op, bytes)));
      if op.Load? then s' else Log(s'.(mem := Poke(s.mem, op.addr, op.data)), Stored(op.addr, op.data))
  }

  /** One step; None when the step cannot be taken now (a blocked read, or not its turn). */
  function Next(s: State, step: Step): (r: Option<State>)
  {
    match step
    case ArriveBack(n) =>
      (match Arrive(s.toBack, n) case None => None case Some(c) => Some(s.(toBack := c)))
    case ArriveFront(n) =>
      (match Arrive(s.toFront, n) case None => None case Some(c) => Some(s.(toFront := c)))
    case SendNote(n) =>
      if s.front.Idle? then Some(Log(s.(toBack := Append(s.toBack, EncodeNote(n))), Queued(n))) else None
    case Change(addr, data) =>
      if s.front.Idle? then Some(Log(s.(mem := Poke(s.mem, addr, data)), Changed(addr, data))) else None
    case Call(req) =>
      if s.front.Idle? && |RequestPayload(req)| < TWO32
      then Some(Log(s.(front := AwaitHead(req), toBack := Put(s.toBack, RequestKind(req), RequestPayload(req))), Issued(req)))
      else None
    case FrontHead => FrontHeadStep(s)
    case FrontBody => FrontBodyStep(s)
    case BackHead => BackHeadStep(s)
    case BackBody => BackBodyStep(s)
    case BackInsn => BackInsnStep(s)
    case Access(op) =>
      if s.back.Handling? && |OpPayload(op)| < TWO32
      then Some(Log(s.(back := WaitHead(s.back.req, op), toFront := Put(s.toFront, MEMORY_REQUEST, OpPayload(op))), Asked(op)))
      else None
    case Answer(p) =>
      if s.back.Handling? && Fits(s.back.req, p) && |ReplyPayload(p)| < TWO32
      then Some(Log(s.(back := Listening, toFront := Put(s.toFront, ReplyKind(s.back.req), ReplyPayload(p))), Replied(p)))
      else None
    case AnswerHead =>
      if s.back.WaitHead? && |s.toBack.here| >= 6
      then Some(s.(back := WaitBody(s.back.req, s.back.op, s.toBack.here[1], Get32(s.toBack.here, 2)), toBack := Drop(s.toBack, 6)))
      else None
    case AnswerBody => AnswerBodyStep(s)
  }

  function FrontHeadStep(s: State): (r: Option<State>)
  {
    if s.front.AwaitHead? && |s.toFront.here| >= 6 then
      var bs := s.toFront.here;
      var ok := bs[0] == 0 && (bs[1] == ReplyKind(s.front.req) || (bs[1] == MEMORY_REQUEST && Nests(s.front.req)));
      Some(s.(front := if ok then AwaitBody(s.front.req, bs[1], Get32(bs, 2)) else FrontError, toFront := Drop(s.toFront, 6)))
    else None
  }

  function FrontBodyStep(s: State): (r: Option<State>)
  {
    if s.front.AwaitBody? && |s.toFront.here| >= s.front.size then
      var req, kind, d := s.front.req, s.front.kind, s.toFront.here[..s.front.size];
      var s' := s.(toFront := Drop(s.toFront, s.front.size));
      if kind == MEMORY_REQUEST then Some(Serve(s', req, d))
      else
        match ParseReply(req, kind, d)
        case None => Some(s'.(front := FrontError))
        case Some(p) => Some(Log(s'.(front := Idle), Returned(p)))
    else None
  }

  function BackHeadStep(s: State): (r: Option<State>)
  {
    if s.back.Listening? && |s.toBack.here| >= 6 && s.toBack.here[0] == 0 then
      Some(s.(back := TakingBody(s.toBack.here[1], Get32(s.toBack.here, 2)), toBack := Drop(s.toBack, 6)))
    else None
  }

  function BackBodyStep(s: State): (r: Option<State>)
  {
    if s.back.TakingBody? && |s.toBack.here| >= s.back.size then
      var kind, d := s.back.kind, s.toBack.here[..s.back.size];
      var s' := s.(toBack := Drop(s.toBack, s.back.size));
      if kind in REQUEST_KINDS then
        match ParseRequest(kind, d)
        case None => Some(s'.(back := BackError))
        case Some(req) => Some(Log(s'.(back := Handling(req)), Entered(req)))
      else
        var p := ParseOther(kind, d);
        if p.Ok? then Some(Log(s'.(back := Listening), Noted(p.rec))) else Some(s'.(back := BackError))
    else None
  }

  /** An instruction record has no header; it is read once all of it has arrived. */
  function BackInsnStep(s: State): (r: Option<State>)
  {
    if s.back.Listening? && s.toBack.here != [] && s.toBack.here[0] != 0 && Parse(s.toBack.here).Ok? then
      var p := Parse(s.toBack.here);
      Some(Log(s.(toBack := Drop(s.toBack, p.consumed)), Noted(p.rec)))
    else None
  }

  function AnswerBodyStep(s: State): (r: Option<State>)
  {
    if s.back.WaitBody? && |s.toBack.here| >= AnswerLength(s.back.op) then
      var req, op, n := s.back.req, s.back.op, AnswerLength(s.back.op);
      var s' := s.(toBack := Drop(s.toBack, n));
      match ParseAnswer(op, s.back.kind, s.back.size, s.toBack.here[..n])
      case None => Some(s'.(back := BackError))
      case Some(bytes) =>
        Some(Log(s'.(back := Handling(req)), if op.Load? then Loaded(op.addr, bytes) else Confirmed(op.addr)))
    else None
  }

  /** What is asked of the clients: requests and accesses the writer answers, and accesses only from
      handlers of requests that serve them. */
  predicate Good(s: State, step: Step)
  {
    match step
    case Call(req) => ValidRequest(req)
    case Access(op) => ValidOp(op) && s.back.Handling? && Nests(s.back.req)
    case _ => true
  }

  function Run(s: State, steps: seq<Step>): (r: Option<State>)
    decreases |steps|
  {
    if steps == [] then Some(s)
    else
      match Next(s, steps[0])
      case None => None
      case Some(s') => Run(s', steps[1..])
  }

  predicate GoodRun(s: State, steps: seq<Step>)
    decreases |steps|
  {
    steps == [] ||
    (Good(s, steps[0]) && (var n := Next(s, steps[0]); n.Some? && GoodRun(n.value, steps[1..])))
  }

  function Init(mem: Memory): (s: State)
  {
    State(Idle, Listening, NONE, NONE, mem, [])
  }

  // ---------------------------------------------------------------- the invariant

  function Notes(ns: seq<Note>): (bs: seq<Byte>)
  {
    Flat(EncodeNote, ns)
  }

  function EncodeRequest(r: Request): (bs: seq<Byte>)
  {
    EncodeOther(RequestKind(r), RequestPayload(r))
  }

  /** The back end reads trace records and then `rest`, which it has not begun. */
  predicate TakingNotes(s: State, notes: seq<Note>, rest: seq<Byte>)
  {
    || (s.back == Listening && All(s.toBack) == Notes(notes) + rest)
    || (&& notes != [] && !IsInsn(notes[0])
        && s.back == TakingBody(NoteKind(notes[0]), |NotePayload(notes[0])|)
        && All(s.toBack) == NotePayload(notes[0]) + (Notes(notes[1..]) + rest))
  }

  predicate InvQuiet(s: State, m: Machine)
  {
    s.front == Idle && All(s.toFront) == [] && TakingNotes(s, m.notes, [])
  }

  predicate InvCalled(s: State, m: Machine, req: Request)
  {
    && ValidRequest(req) && s.front == AwaitHead(req) && All(s.toFront) == []
    && (|| TakingNotes(s, m.notes, EncodeRequest(req))
        || (&& m.notes == [] && All(s.toBack) == RequestPayload(req)
            && s.back == TakingBody(RequestKind(req), |RequestPayload(req)|)))
  }

  predicate InvBusy(s: State, m: Machine, req: Request)
  {
    && m.notes == [] && s.front == AwaitHead(req) && s.back == Handling(req)
    && All(s.toFront) == [] && All(s.toBack) == []
  }

  /** The front end has answered `op` and the back end is about to read the answer. */
  predicate AnswerUnderWay(s: State, req: Request, op: MemOp, bytes: seq<Byte>)
  {
    var d := AnswerPayload(op, bytes);
    && s.front == AwaitHead(req) && All(s.toFront) == []
    && (|| (s.back == WaitHead(req, op) && All(s.toBack) == EncodeOther(MEMORY_RESPONSE, d))
        || (s.back == WaitBody(req, op, MEMORY_RESPONSE, |d| % TWO32) && All(s.toBack) == d))
  }

  predicate InvAsking(s: State, m: Machine, req: Request, op: MemOp)
  {
    && m.notes == [] && Nests(req) && ValidOp(op)
    && (|| (&& s.back == WaitHead(req, op) && All(s.toBack) == []
            && (|| (s.front == AwaitHead(req) && All(s.toFront) == EncodeOther(MEMORY_REQUEST, OpPayload(op)))
                || (s.front == AwaitBody(req, MEMORY_REQUEST, |OpPayload(op)|) && All(s.toFront) == OpPayload(op))))
        || (op.Load? && AnswerUnderWay(s, req, op, Peek(m.mem, op.addr, op.size))))
  }

  predicate InvAcking(s: State, m: Machine, req: Request, op: MemOp)
  {
    m.notes == [] && ValidOp(op) && op.Store? && AnswerUnderWay(s, req, op, [])
  }

  predicate InvAnswered(s: State, m: Machine, req: Request, p: Reply)
  {
    var d := ReplyPayload(p);
    && m.notes == [] && Fits(req, p) && s.back == Listening && All(s.toBack) == []
    && (|| (s.front == AwaitHead(req) && All(s.toFront) == EncodeOther(ReplyKind(req), d))
        || (s.front == AwaitBody(req, ReplyKind(req), |d|) && All(s.toFront) == d))
  }

  predicate InvPhase(s: State, m: Machine)
  {
    match m.phase
    case Quiet => InvQuiet(s, m)
    case Called(req) => InvCalled(s, m, req)
    case Busy(req) => InvBusy(s, m, req)
    case Asking(req, op) => InvAsking(s, m, req, op)
    case Acking(req, op) => InvAcking(s, m, req, op)
    case Answered(req, p) => InvAnswered(s, m, req, p)
  }

  /** The log is a run of the synchronous machine, and that machine explains the whole state. */
  ghost predicate Inv(mem: Memory, s: State)
  {
    var m := AcceptAll(Machine(Quiet, mem, []), s.log);
    m.Some? && s.mem == m.value.mem && InvPhase(s, m.value)
  }

  // ---------------------------------------------------------------- channels

  lemma HeadOf(c: Chan, kind: Byte, payload: seq<Byte>, rest: seq<Byte>)
    requires All(c) == EncodeOther(kind, payload) + rest && |c.here| >= 6
    ensures c.here[0] == 0 && c.here[1] == kind && Get32(c.here, 2) == |payload| % TWO32
    ensures All(Drop(c, 6)) == payload + rest
  {
    hide LE, FromLE;
    var head := [0, kind] + LE(|payload|, 4);
    assert EncodeOther(kind, payload) + rest == head + (payload + rest);
    assert c.here[..6] == All(c)[..6] == head;
    assert c.here[2..6] == c.here[..6][2..6] == head[2..6] == LE(|payload|, 4);
    Pow256Values();
    FromLEWraps(|payload|, 4);
  }

  lemma BodyOf(c: Chan, payload: seq<Byte>, rest: seq<Byte>)
    requires All(c) == payload + rest && |c.here| >= |payload|
    ensures c.here[..|payload|] == payload && All(Drop(c, |payload|)) == rest
  {
    assert c.here[..|payload|] == All(c)[..|payload|];
  }

  lemma NotesSplit(ns: seq<Note>)
    requires ns != []
    ensures Notes(ns) == EncodeNote(ns[0]) + Notes(ns[1..])
  {
  }

  lemma AcceptLast(m: Machine, log: seq<Event>, e: Event)
    ensures AcceptAll(m, log + [e]) ==
            match AcceptAll(m, log) case None => None case Some(m') => Accept(m', e)
  {
    assert (log + [e])[..|log|] == log;
  }

  // ---------------------------------------------------------------- every step keeps the invariant

  ghost predicate InvAt(s: State, m: Machine)
  {
    s.mem == m.mem && InvPhase(s, m)
  }

  /** The step from s to s' is silent, or logs one event that the synchronous machine can do. */
  ghost predicate Follows(s: State, m: Machine, s': State, m': Machine)
  {
    || (s'.log == s.log && m' == m)
    || (exists e :: s'.log == s.log + [e] && Accept(m, e) == Some(m'))
  }

  lemma Logged(s: State, m: Machine, s': State, e: Event, m': Machine)
    requires s'.log == s.log + [e] && Accept(m, e) == Some(m')
    ensures Follows(s, m, s', m')
  {
  }

  lemma ArriveStep(s: State, m: Machine, s': State)
    requires InvAt(s, m) && All(s'.toBack) == All(s.toBack) && All(s'.toFront) == All(s.toFront)
    requires s' == s.(toBack := s'.toBack, toFront := s'.toFront)
    ensures InvAt(s', m)
  {
    hide All, Notes, NotePayload, EncodeRequest, EncodeOther, RequestPayload, AnswerPayload, OpPayload, ReplyPayload;
  }

  lemma NoteStep(s: State, m: Machine, n: Note) returns (m': Machine)
    requires InvAt(s, m) && s.front.Idle?
    ensures var s' := Next(s, SendNote(n)).value; Follows(s, m, s', m') && InvAt(s', m')
  {
    hide All, NotePayload, NoteKind, EncodeNote, Append, Poke, InvCalled, InvBusy, InvAsking, InvAcking, InvAnswered;
    IdleIsQuiet(s, m);
    m' := m.(notes := m.notes + [n]);
    var s' := Next(s, SendNote(n)).value;
    Logged(s, m, s', Queued(n), m');
    FlatSnoc(EncodeNote, m.notes, n);
    if s.back.TakingBody? {
      FlatSnoc(EncodeNote, m.notes[1..], n);
      assert (m.notes + [n])[1..] == m.notes[1..] + [n];
      var x, y, z := NotePayload(m.notes[0]), Notes(m.notes[1..]), EncodeNote(n);
      assert x + (y + []) + z == x + ((y + z) + []);
    } else {
      assert Notes(m.notes) + [] + EncodeNote(n) == Notes(m.notes + [n]) + [];
    }
  }

  lemma ChangeStep(s: State, m: Machine, addr: Word64, data: seq<Byte>) returns (m': Machine)
    requires InvAt(s, m) && s.front.Idle?
    ensures var s' := Next(s, Change(addr, data)).value; Follows(s, m, s', m') && InvAt(s', m')
  {
    hide TakingNotes, Poke, All;
    IdleIsQuiet(s, m);
    m' := m.(mem := Poke(m.mem, addr, data));
    var s' := Next(s, Change(addr, data)).value;
    Logged(s, m, s', Changed(addr, data), m');
    SameNotes(s, s', m.notes, []);
  }

  lemma SameNotes(s: State, s': State, notes: seq<Note>, rest: seq<Byte>)
    requires TakingNotes(s, notes, rest) && s'.back == s.back && s'.toBack == s.toBack
    ensures TakingNotes(s', notes, rest)
  {
    hide All, Notes, NotePayload;
  }

  lemma IdleIsQuiet(s: State, m: Machine)
    requires InvAt(s, m) && s.front.Idle?
    ensures m.phase == Quiet && InvQuiet(s, m)
  {
    hide All, TakingNotes, EncodeOther, OpPayload, ReplyPayload, RequestPayload, AnswerPayload;
  }

  lemma NotesThen(s: State, s': State, notes: seq<Note>, r: seq<Byte>)
    requires TakingNotes(s, notes, []) && s'.back == s.back && All(s'.toBack) == All(s.toBack) + r
    ensures TakingNotes(s', notes, r)
  {
    hide All, Notes, NotePayload;
    if s.back.TakingBody? {
      var x, y := NotePayload(notes[0]), Notes(notes[1..]);
      assert x + (y + []) + r == x + (y + r);
    } else {
      assert Notes(notes) + [] + r == Notes(notes) + r;
    }
  }

  lemma CallStep(s: State, m: Machine, req: Request) returns (m': Machine)
    requires InvAt(s, m) && s.front.Idle? && ValidRequest(req)
    ensures Next(s, Call(req)).Some?
    ensures var s' := Next(s, Call(req)).value; Follows(s, m, s', m') && InvAt(s', m')
  {
    hide All, TakingNotes, EncodeOther, EncodeRequest, Put, ValidRequest;
    IdleIsQuiet(s, m);
    RequestRoundTrip(req);
    EncodeRequestIs(req);
    m' := m.(phase := Called(req));
    var s' := Next(s, Call(req)).value;
    Logged(s, m, s', Issued(req), m');
    NotesThen(s, s', m.notes, EncodeRequest(req));
  }

  lemma EncodeRequestIs(req: Request)
    ensures EncodeRequest(req) == EncodeOther(RequestKind(req), RequestPayload(req))
  {
    hide EncodeOther, RequestPayload, RequestKind;
  }

  /** What comes after the trace records. */
  function AfterNotes(m: Machine): (bs: seq<Byte>)
  {
    if m.phase.Called? then EncodeRequest(m.phase.req) else []
  }

  /** With records waiting, the channel holds the first one in front. */
  lemma FirstNote(s: State, m: Machine)
    requires InvAt(s, m) && s.back.Listening? && m.notes != []
    ensures All(s.toBack) == EncodeNote(m.notes[0]) + (Notes(m.notes[1..]) + AfterNotes(m))
    ensures m.phase.Quiet? || m.phase.Called?
  {
    hide NotePayload, NoteKind, EncodeOther, EncodeNote, Peek, RequestPayload, Notes, OpPayload, AnswerPayload, ReplyPayload, All;
    NotesSplit(m.notes);
    var x, y, z := EncodeNote(m.notes[0]), Notes(m.notes[1..]), AfterNotes(m);
    assert (x + y) + z == x + (y + z);
  }

  lemma NoNote(s: State, m: Machine)
    requires InvAt(s, m) && s.back.Listening? && m.notes == [] && All(s.toBack) != []
    ensures m.phase.Called? && ValidRequest(m.phase.req) && All(s.toBack) == EncodeRequest(m.phase.req) + []
  {
    hide NotePayload, NoteKind, EncodeOther, EncodeNote, Peek, RequestPayload, OpPayload, AnswerPayload, ReplyPayload, All;
    NotesEmpty();
  }

  lemma BackHeadKeeps(s: State, m: Machine)
    requires InvAt(s, m) && s.back.Listening? && |s.toBack.here| >= 6 && s.toBack.here[0] == 0
    ensures InvAt(BackHeadStep(s).value, m)
  {
    hide NotePayload, NoteKind, EncodeOther, EncodeNote, Peek, Poke, RequestPayload, Get32, Notes;
    assert All(s.toBack) != [];
    if m.notes != [] {
      var n := m.notes[0];
      FirstNote(s, m);
      NoteIs(n);
      assert All(s.toBack)[0] == s.toBack.here[0];
      assert EncodeNote(n)[0] == 0;
      HeadOf(s.toBack, NoteKind(n), NotePayload(n), Notes(m.notes[1..]) + AfterNotes(m));
    } else {
      NoNote(s, m);
      var req := m.phase.req;
      RequestRoundTrip(req);
      HeadOf(s.toBack, RequestKind(req), RequestPayload(req), []);
      assert RequestPayload(req) + [] == RequestPayload(req);
    }
  }

  /** An instruction that has arrived is the next record that was sent. */
  lemma InsnArrived(s: State, m: Machine)
    requires InvAt(s, m) && s.back.Listening? && s.toBack.here != [] && s.toBack.here[0] != 0 && Parse(s.toBack.here).Ok?
    ensures m.notes != [] && (m.phase.Quiet? || m.phase.Called?)
    ensures var n := m.notes[0];
            && Parse(s.toBack.here) == Ok(n, |EncodeNote(n)|) && |EncodeNote(n)| <= |s.toBack.here|
            && All(Drop(s.toBack, |EncodeNote(n)|)) == Notes(m.notes[1..]) + AfterNotes(m)
  {
    hide Parse, EncodeOther, NotePayload, NoteKind, EncodeNote, InvAt, Notes, EncodeRequest;
    assert All(s.toBack) != [] && All(s.toBack)[0] == s.toBack.here[0];
    if m.notes == [] {
      NoNote(s, m);
      EncodeRequestIs(m.phase.req);
      OtherStarts(RequestKind(m.phase.req), RequestPayload(m.phase.req));
      assert false;
    }
    var n := m.notes[0];
    FirstNote(s, m);
    var rest := Notes(m.notes[1..]) + AfterNotes(m);
    ParseAhead(s.toBack.here, s.toBack.flying);
    assert EncodeNote(n) == Encode(n) by { NoteText(n); }
    ParseReadable(n, rest);
  }

  lemma NoteText(n: Note)
    ensures EncodeNote(n) == Encode(n)
  {
  }

  lemma OtherStarts(kind: Byte, payload: seq<Byte>)
    ensures EncodeOther(kind, payload)[0] == 0
  {
  }

  lemma BackInsnKeeps(s: State, m: Machine) returns (m': Machine)
    requires InvAt(s, m) && s.back.Listening? && s.toBack.here != [] && s.toBack.here[0] != 0 && Parse(s.toBack.here).Ok?
    ensures var s' := BackInsnStep(s).value; Follows(s, m, s', m') && InvAt(s', m')
  {
    hide Parse, EncodeOther, NotePayload, NoteKind, EncodeNote, Notes, Peek, RequestPayload, Drop;
    InsnArrived(s, m);
    var s' := BackInsnStep(s).value;
    m' := m.(notes := m.notes[1..]);
    Logged(s, m, s', Noted(m.notes[0]), m');
  }

  lemma NotesEmpty()
    ensures Notes([]) == []
  {
  }

  lemma BackBodyKeeps(s: State, m: Machine) returns (m': Machine)
    requires InvAt(s, m) && s.back.TakingBody? && |s.toBack.here| >= s.back.size
    ensures var s' := BackBodyStep(s).value; Follows(s, m, s', m') && InvAt(s', m')
  {
    hide EncodeOther, Peek, Poke, RequestPayload, Notes, LE, ParseRequest, ParseOther, RequestKind, NotePayload, NoteKind, EncodeNote;
    var s' := BackBodyStep(s).value;
    if m.notes != [] {
      var n := m.notes[0];
      BodyOf(s.toBack, NotePayload(n), Notes(m.notes[1..]) + AfterNotes(m));
      NoteParses(n);
      m' := m.(notes := m.notes[1..]);
      Logged(s, m, s', Noted(n), m');
    } else {
      var req := m.phase.req;
      RequestRoundTrip(req);
      KindIsRequest(req);
      assert All(s.toBack) == RequestPayload(req) + [];
      BodyOf(s.toBack, RequestPayload(req), []);
      m' := m.(phase := Busy(req));
      Logged(s, m, s', Entered(req), m');
    }
  }

  lemma KindIsRequest(req: Request)
    ensures RequestKind(req) in REQUEST_KINDS && ReplyKind(req) != MEMORY_REQUEST
  {
  }

  lemma NoneIsEmpty()
    ensures All(NONE) == []
  {
  }

  lemma AccessStep(s: State, m: Machine, op: MemOp) returns (m': Machine)
    requires InvAt(s, m) && s.back.Handling? && ValidOp(op) && Nests(s.back.req)
    ensures Next(s, Access(op)).Some?
    ensures var s' := Next(s, Access(op)).value; Follows(s, m, s', m') && InvAt(s', m')
  {
    hide All, EncodeOther, Put, Peek, Poke, OpPayload, InvQuiet, InvCalled, InvBusy, InvAcking, InvAnswered, AnswerUnderWay;
    HandlingIsBusy(s, m);
    NoneIsEmpty();
    OpRoundTrip(op);
    m' := m.(phase := Asking(s.back.req, op));
    var s' := Next(s, Access(op)).value;
    Logged(s, m, s', Asked(op), m');
    var e := EncodeOther(MEMORY_REQUEST, OpPayload(op));
    assert [] + e == e;
  }

  lemma AnswerStep(s: State, m: Machine, p: Reply) returns (m': Machine)
    requires InvAt(s, m) && s.back.Handling? && Fits(s.back.req, p)
    ensures Next(s, Answer(p)).Some?
    ensures var s' := Next(s, Answer(p)).value; Follows(s, m, s', m') && InvAt(s', m')
  {
    hide All, EncodeOther, Put, ReplyPayload, ReplyKind, Fits, InvQuiet, InvCalled, InvBusy, InvAsking, InvAcking;
    HandlingIsBusy(s, m);
    NoneIsEmpty();
    ReplyRoundTrip(s.back.req, p);
    m' := m.(phase := Answered(s.back.req, p));
    var s' := Next(s, Answer(p)).value;
    Logged(s, m, s', Replied(p), m');
    var e := EncodeOther(ReplyKind(s.back.req), ReplyPayload(p));
    assert [] + e == e;
  }

  lemma FrontHeadKeeps(s: State, m: Machine)
    requires InvAt(s, m) && s.front.AwaitHead? && |s.toFront.here| >= 6
    ensures InvAt(FrontHeadStep(s).value, m)
  {
    hide FrontHeadStep, InvAt, InvPhase;
    assert All(s.toFront) != [];
    FrontIsTold(s, m);
    if m.phase.Asking? {
      AskedHead(s, m, m.phase.req, m.phase.op);
    } else {
      RepliedHead(s, m, m.phase.req, m.phase.reply);
    }
  }

  lemma FrontIsTold(s: State, m: Machine)
    requires InvAt(s, m) && s.front.AwaitHead? && All(s.toFront) != []
    ensures m.phase.Asking? || m.phase.Answered?
  {
    hide Notes, NotePayload, RequestPayload, OpPayload, AnswerPayload, ReplyPayload, EncodeOther, Peek, All;
  }

  lemma AskedHead(s: State, m: Machine, req: Request, op: MemOp)
    requires InvAt(s, m) && m.phase == Asking(req, op) && s.front.AwaitHead? && |s.toFront.here| >= 6
    ensures InvAt(FrontHeadStep(s).value, m)
  {
    hide EncodeOther, Peek, OpPayload, Get32, ReplyKind, AnswerPayload, ValidOp, Drop;
    assert All(s.toFront) != [];
    OpRoundTrip(op);
    assert All(s.toFront) == EncodeOther(MEMORY_REQUEST, OpPayload(op)) + [];
    HeadOf(s.toFront, MEMORY_REQUEST, OpPayload(op), []);
    assert OpPayload(op) + [] == OpPayload(op);
  }

  lemma RepliedHead(s: State, m: Machine, req: Request, p: Reply)
    requires InvAt(s, m) && m.phase == Answered(req, p) && s.front.AwaitHead? && |s.toFront.here| >= 6
    ensures InvAt(FrontHeadStep(s).value, m)
  {
    hide EncodeOther, ReplyPayload, Get32, ReplyKind, Nests, Fits, Drop;
    ReplyRoundTrip(req, p);
    assert All(s.toFront) == EncodeOther(ReplyKind(req), ReplyPayload(p)) + [];
    HeadOf(s.toFront, ReplyKind(req), ReplyPayload(p), []);
    assert ReplyPayload(p) + [] == ReplyPayload(p);
  }

  lemma FrontBodyKeeps(s: State, m: Machine) returns (m': Machine)
    requires InvAt(s, m) && s.front.AwaitBody? && |s.toFront.here| >= s.front.size
    ensures var s' := FrontBodyStep(s).value; Follows(s, m, s', m') && InvAt(s', m')
  {
    hide FrontBodyStep, InvAt, InvPhase;
    FrontReads(s, m);
    if m.phase.Asking? {
      m' := ServeKeeps(s, m, m.phase.req, m.phase.op);
    } else {
      m' := ReturnKeeps(s, m, m.phase.req, m.phase.reply);
    }
  }

  lemma FrontReads(s: State, m: Machine)
    requires InvAt(s, m) && s.front.AwaitBody?
    ensures m.phase.Asking? || m.phase.Answered?
  {
    hide Notes, NotePayload, RequestPayload, OpPayload, AnswerPayload, ReplyPayload, EncodeOther, Peek, All;
  }

  lemma ServeKeeps(s: State, m: Machine, req: Request, op: MemOp) returns (m': Machine)
    requires InvAt(s, m) && m.phase == Asking(req, op) && s.front.AwaitBody? && |s.toFront.here| >= s.front.size
    ensures var s' := FrontBodyStep(s).value; Follows(s, m, s', m') && InvAt(s', m')
  {
    hide EncodeOther, Peek, Poke, OpPayload, AnswerPayload, ParseOp, ValidOp, Nests;
    var s' := FrontBodyStep(s).value;
    OpRoundTrip(op);
    assert All(s.toFront) == OpPayload(op) + [];
    BodyOf(s.toFront, OpPayload(op), []);
    var bytes := if op.Load? then Peek(s.mem, op.addr, op.size) else [];
    var e := EncodeOther(MEMORY_RESPONSE, AnswerPayload(op, bytes));
    assert [] + e == e;
    if op.Load? {
      m' := m;
    } else {
      m' := m.(phase := Acking(req, op), mem := Poke(m.mem, op.addr, op.data));
      Logged(s, m, s', Stored(op.addr, op.data), m');
    }
  }

  lemma ReturnKeeps(s: State, m: Machine, req: Request, p: Reply) returns (m': Machine)
    requires InvAt(s, m) && m.phase == Answered(req, p) && s.front.AwaitBody? && |s.toFront.here| >= s.front.size
    ensures var s' := FrontBodyStep(s).value; Follows(s, m, s', m') && InvAt(s', m')
  {
    hide EncodeOther, Serve, ReplyPayload, Notes, ReplyKind, ParseReply, Fits, Nests;
    var s' := FrontBodyStep(s).value;
    KindIsRequest(req);
    ReplyRoundTrip(req, p);
    assert All(s.toFront) == ReplyPayload(p) + [];
    BodyOf(s.toFront, ReplyPayload(p), []);
    m' := m.(phase := Quiet);
    Logged(s, m, s', Returned(p), m');
    NotesEmpty();
  }

  /** A back end that waits for an answer is in the middle of an access. */
  lemma BackAsked(s: State, m: Machine)
    requires InvAt(s, m) && (s.back.WaitHead? || s.back.WaitBody?)
    ensures m.phase.Asking? || m.phase.Acking?
    ensures m.phase.op == s.back.op && m.phase.req == s.back.req && m.notes == []
  {
    hide Notes, NotePayload, RequestPayload, OpPayload, AnswerPayload, ReplyPayload, EncodeOther, Peek, All;
  }

  /** The bytes of the answer that the machine expects. */
  function AnswerBytes(m: Machine): (bytes: seq<Byte>)
    requires m.phase.Asking? || m.phase.Acking?
  {
    if m.phase.op.Load? then Peek(m.mem, m.phase.op.addr, m.phase.op.size) else []
  }

  lemma AnswerArrives(s: State, m: Machine)
    requires InvAt(s, m) && (s.back.WaitHead? || s.back.WaitBody?) && All(s.toBack) != []
    requires m.phase.Asking? || m.phase.Acking?
    ensures ValidOp(m.phase.op) && AnswerUnderWay(s, m.phase.req, m.phase.op, AnswerBytes(m))
    ensures m.phase.Acking? <==> m.phase.op.Store?
  {
    hide AnswerUnderWay, OpPayload, EncodeOther, Peek, All, ValidOp, Nests;
  }

  lemma AnswerHeadKeeps(s: State, m: Machine)
    requires InvAt(s, m) && s.back.WaitHead? && |s.toBack.here| >= 6
    ensures InvAt(Next(s, AnswerHead).value, m)
  {
    hide EncodeOther, Peek, OpPayload, Get32, AnswerPayload, InvQuiet, InvCalled, InvBusy, InvAnswered, ValidOp, Nests, Drop;
    assert All(s.toBack) != [];
    BackAsked(s, m);
    AnswerArrives(s, m);
    var d := AnswerPayload(m.phase.op, AnswerBytes(m));
    assert All(s.toBack) == EncodeOther(MEMORY_RESPONSE, d) + [];
    HeadOf(s.toBack, MEMORY_RESPONSE, d, []);
    assert d + [] == d;
  }

  lemma AnswerBodyKeeps(s: State, m: Machine) returns (m': Machine)
    requires InvAt(s, m) && s.back.WaitBody? && |s.toBack.here| >= AnswerLength(s.back.op)
    ensures var s' := AnswerBodyStep(s).value; Follows(s, m, s', m') && InvAt(s', m')
  {
    hide EncodeOther, Peek, AnswerPayload, ParseAnswer, InvQuiet, InvCalled, InvAsking, InvAcking, InvAnswered, ValidOp;
    var s' := AnswerBodyStep(s).value;
    assert All(s.toBack) != [];
    BackAsked(s, m);
    AnswerArrives(s, m);
    var req, op, bytes := m.phase.req, m.phase.op, AnswerBytes(m);
    AnswerRoundTrip(op, bytes);
    assert All(s.toBack) == AnswerPayload(op, bytes) + [];
    BodyOf(s.toBack, AnswerPayload(op, bytes), []);
    m' := m.(phase := Busy(req));
    Logged(s, m, s', if op.Load? then Loaded(op.addr, bytes) else Confirmed(op.addr), m');
  }

  lemma StepKeeps(s: State, m: Machine, step: Step) returns (m': Machine)
    requires InvAt(s, m) && Good(s, step) && Next(s, step).Some?
    ensures var s' := Next(s, step).value; Follows(s, m, s', m') && InvAt(s', m')
  {
    hide InvPhase, Put, Drop, FrontHeadStep, FrontBodyStep, BackHeadStep, BackBodyStep, BackInsnStep, AnswerBodyStep, Serve, Append, EncodeNote;
    m' := m;
    match step
    case ArriveBack(n) => ArriveStep(s, m, Next(s, step).value);
    case ArriveFront(n) => ArriveStep(s, m, Next(s, step).value);
    case SendNote(n) => m' := NoteStep(s, m, n);
    case Change(addr, data) => m' := ChangeStep(s, m, addr, data);
    case Call(req) => m' := CallStep(s, m, req);
    case FrontHead => Enabled(s, step); FrontHeadKeeps(s, m); LogKept(s, step);
    case FrontBody => Enabled(s, step); m' := FrontBodyKeeps(s, m);
    case BackHead => Enabled(s, step); BackHeadKeeps(s, m); LogKept(s, step);
    case BackBody => Enabled(s, step); m' := BackBodyKeeps(s, m);
    case BackInsn => Enabled(s, step); m' := BackInsnKeeps(s, m);
    case Access(op) => m' := AccessStep(s, m, op);
    case Answer(p) => m' := AnswerStep(s, m, p);
    case AnswerHead => AnswerHeadKeeps(s, m);
    case AnswerBody => Enabled(s, step); m' := AnswerBodyKeeps(s, m);
  }

  /** When the four reads of a wait loop can go ahead. */
  lemma Enabled(s: State, step: Step)
    ensures step.FrontHead? ==> (Next(s, step).Some? <==> s.front.AwaitHead? && |s.toFront.here| >= 6)
    ensures step.FrontBody? ==> (Next(s, step).Some? <==> s.front.AwaitBody? && |s.toFront.here| >= s.front.size)
    ensures step.BackHead? ==> (Next(s, step).Some? <==> s.back.Listening? && |s.toBack.here| >= 6 && s.toBack.here[0] == 0)
    ensures step.BackBody? ==> (Next(s, step).Some? <==> s.back.TakingBody? && |s.toBack.here| >= s.back.size)
    ensures step.BackInsn? ==>
              (Next(s, step).Some? <==> s.back.Listening? && s.toBack.here != [] && s.toBack.here[0] != 0 && Parse(s.toBack.here).Ok?)
    ensures step.AnswerHead? ==> (Next(s, step).Some? <==> s.back.WaitHead? && |s.toBack.here| >= 6)
    ensures step.AnswerBody? ==> (Next(s, step).Some? <==> s.back.WaitBody? && |s.toBack.here| >= AnswerLength(s.back.op))
  {
    hide Put, Drop, Serve, ParseReply, ParseRequest, ParseOther, Parse, ParseAnswer, Get32, Get64, Nests;
  }

  lemma LogKept(s: State, step: Step)
    requires (step.FrontHead? || step.BackHead?) && Next(s, step).Some?
    ensures Next(s, step).value.log == s.log
  {
  }

  lemma KeepsInv(mem: Memory, s: State, step: Step)
    requires Inv(mem, s) && Good(s, step) && Next(s, step).Some?
    ensures Inv(mem, Next(s, step).value)
  {
    hide Next, InvPhase, Accept, Good;
    var start := Machine(Quiet, mem, []);
    var m := AcceptAll(start, s.log).value;
    var m' := StepKeeps(s, m, step);
    var s' := Next(s, step).value;
    if s'.log != s.log {
      var e :| s'.log == s.log + [e] && Accept(m, e) == Some(m');
      AcceptLast(start, s.log, e);
    }
  }

  /** Every run: the observations are those of the synchronous machine, so every handler gets the request
      that was issued, every access the right memory, every call its own reply; no side fails; and between
      calls the response channel is empty and only unread trace records are on the other one. */
  lemma {:induction false} SafeRun(mem: Memory, s: State, steps: seq<Step>)
    requires Inv(mem, s) && GoodRun(s, steps)
    ensures Run(s, steps).Some?
    ensures var e := Run(s, steps).value;
            && Inv(mem, e)
            && !e.front.FrontError? && !e.back.BackError?
            && (e.front.Idle? ==>
                  && All(e.toFront) == []
                  && AcceptAll(Machine(Quiet, mem, []), e.log).value.phase == Quiet
                  && TakingNotes(e, AcceptAll(Machine(Quiet, mem, []), e.log).value.notes, []))
    decreases |steps|
  {
    hide Next, Good, Accept, AcceptAll;
    if steps != [] {
      KeepsInv(mem, s, steps[0]);
      SafeRun(mem, Next(s, steps[0]).value, steps[1..]);
    }
  }

  lemma InitInv(mem: Memory)
    ensures Inv(mem, Init(mem))
  {
    NotesEmpty();
  }

  /** Every run from the start. */
  lemma SafeSession(mem: Memory, steps: seq<Step>)
    requires GoodRun(Init(mem), steps)
    ensures Run(Init(mem), steps).Some?
    ensures var e := Run(Init(mem), steps).value;
            && AcceptAll(Machine(Quiet, mem, []), e.log).Some?
            && e.mem == AcceptAll(Machine(Quiet, mem, []), e.log).value.mem
            && !e.front.FrontError? && !e.back.BackError?
            && (e.front.Idle? ==> All(e.toFront) == [] && AcceptAll(Machine(Quiet, mem, []), e.log).value.phase == Quiet)
  {
    hide GoodRun, Run, AcceptAll, InvPhase;
    InitInv(mem);
    SafeRun(mem, Init(mem), steps);
  }

  // ---------------------------------------------------------------- progress

  /** Steps that are not decisions of a client: arrivals and the reads of both sides. */
  predicate Internal(step: Step)
  {
    !step.SendNote? && !step.Change? && !step.Call? && !step.Access? && !step.Answer?
  }

  predicate Settled(s: State)
  {
    s.front == Idle && s.back == Listening && s.toBack == NONE && s.toFront == NONE
  }

  /** No deadlock: unless everything is settled, an arrival or a read is possible, or a handler runs. */
  lemma Progress(mem: Memory, s: State) returns (step: Step)
    requires Inv(mem, s) && !Settled(s) && !s.back.Handling?
    ensures Internal(step) && Next(s, step).Some?
  {
    hide Notes, NotePayload, RequestPayload, OpPayload, AnswerPayload, ReplyPayload, EncodeOther, Put, Drop, Serve, AcceptAll, Get32,
         FrontHeadStep, FrontBodyStep, BackHeadStep, BackBodyStep, AnswerBodyStep, Peek;
    var m := AcceptAll(Machine(Quiet, mem, []), s.log).value;
    NotesBytes(m.notes);
    NotesEmpty();
    if s.toBack.flying != [] {
      step := ArriveBack(|s.toBack.flying|);
    } else if s.toFront.flying != [] {
      step := ArriveFront(|s.toFront.flying|);
    } else {
      assert s.toBack.here == All(s.toBack) && s.toFront.here == All(s.toFront);
      if All(s.toFront) != [] || s.front.AwaitBody? {
        step := if s.front.AwaitHead? then FrontHead else FrontBody;
      } else if s.back.WaitHead? || s.back.WaitBody? {
        if s.back.WaitBody? { AnswerThere(s, m); }
        step := if s.back.WaitHead? then AnswerHead else AnswerBody;
      } else if s.back.Listening? {
        ListeningReads(s, m);
        step := if s.toBack.here[0] == 0 then BackHead else BackInsn;
      } else {
        step := BackBody;
      }
      Enabled(s, step);
    }
  }

  lemma AnswerThere(s: State, m: Machine)
    requires InvAt(s, m) && s.back.WaitBody?
    ensures |All(s.toBack)| >= AnswerLength(s.back.op)
  {
    hide Notes, RequestPayload, OpPayload, ReplyPayload, EncodeOther, NotePayload, Peek, LE, All;
  }

  /** A back end that listens can read whatever has arrived in full. */
  lemma ListeningReads(s: State, m: Machine)
    requires InvAt(s, m) && s.back.Listening? && s.toBack.flying == [] && All(s.toBack) != []
    ensures s.toBack.here != []
    ensures s.toBack.here[0] == 0 ==> |s.toBack.here| >= 6
    ensures s.toBack.here[0] != 0 ==> Parse(s.toBack.here).Ok?
  {
    hide Parse, EncodeOther, NotePayload, NoteKind, EncodeNote, InvAt, Notes, EncodeRequest;
    assert s.toBack.here == All(s.toBack);
    if m.notes == [] {
      NoNote(s, m);
      EncodeRequestIs(m.phase.req);
      OtherStarts(RequestKind(m.phase.req), RequestPayload(m.phase.req));
    } else {
      var n := m.notes[0];
      FirstNote(s, m);
      NoteIs(n);
      NoteText(n);
      ParseReadable(n, Notes(m.notes[1..]) + AfterNotes(m));
    }
  }

  lemma NotesBytes(ns: seq<Note>)
    ensures ns != [] ==> Notes(ns) != []
  {
    if ns != [] {
      NotesSplit(ns);
    }
  }

  function Weight(c: Chan): (w: nat)
  {
    2 * |c.flying| + |c.here|
  }

  /** How far the current exchange is from the next decision of a client. */
  function Stage(s: State, p: Phase): (n: nat)
  {
    match p
    case Quiet => 0
    case Busy(_) => 0
    case Asking(_, _) => if All(s.toFront) == [] then 1 else 2
    case _ => 1
  }

  predicate Less(stage': nat, weight': nat, stage: nat, weight: nat)
  {
    stage' < stage || (stage' == stage && weight' < weight)
  }

  lemma ArriveLess(c: Chan, n: nat)
    requires Arrive(c, n).Some?
    ensures Weight(Arrive(c, n).value) < Weight(c)
  {
  }

  lemma DropLess(c: Chan, n: nat)
    requires n <= |c.here|
    ensures Weight(Drop(c, n)) == Weight(c) - n
  {
  }

  /** No livelock: arrivals and reads cannot go on for ever without a client deciding something. */
  lemma NoLivelock(s: State, m: Machine, step: Step) returns (m': Machine)
    requires InvAt(s, m) && Internal(step) && Next(s, step).Some?
    ensures var s' := Next(s, step).value;
            && Follows(s, m, s', m') && InvAt(s', m')
            && Less(Stage(s', m'.phase), Weight(s'.toBack) + Weight(s'.toFront),
                    Stage(s, m.phase), Weight(s.toBack) + Weight(s.toFront))
  {
    m' := StepKeeps(s, m, step);
    if step.ArriveBack? {
      ArriveLess(s.toBack, step.n);
    } else if step.ArriveFront? {
      ArriveLess(s.toFront, step.n);
    } else if step.FrontHead? || step.BackHead? || step.AnswerHead? {
      HeadLess(s, m, step);
    } else if step.BackInsn? {
      InsnLess(s, m, m');
    } else {
      BodyLess(s, m, step, m');
    }
  }

  lemma HeadLess(s: State, m: Machine, step: Step)
    requires InvAt(s, m) && (step.FrontHead? || step.BackHead? || step.AnswerHead?) && Next(s, step).Some?
    ensures var s' := Next(s, step).value;
            && s'.log == s.log && Stage(s', m.phase) <= Stage(s, m.phase)
            && Weight(s'.toBack) + Weight(s'.toFront) < Weight(s.toBack) + Weight(s.toFront)
  {
    hide Get32, Notes, InvPhase, Nests, ReplyKind;
    Enabled(s, step);
    if step.FrontHead? {
      DropLess(s.toFront, 6);
    } else {
      DropLess(s.toBack, 6);
    }
  }

  lemma InsnLess(s: State, m: Machine, m': Machine)
    requires InvAt(s, m) && Next(s, BackInsn).Some?
    requires var s' := Next(s, BackInsn).value; Follows(s, m, s', m')
    ensures var s' := Next(s, BackInsn).value;
            && Stage(s', m'.phase) == Stage(s, m.phase)
            && Weight(s'.toBack) + Weight(s'.toFront) < Weight(s.toBack) + Weight(s.toFront)
  {
    hide InvAt, Parse, Drop, Weight, All;
    Enabled(s, BackInsn);
    DropLess(s.toBack, Parse(s.toBack.here).consumed);
    var s' := Next(s, BackInsn).value;
    var rec := Parse(s.toBack.here).rec;
    assert s'.log == s.log + [Noted(rec)];
    var e :| s'.log == s.log + [e] && Accept(m, e) == Some(m');
    assert e == s'.log[|s.log|] == Noted(rec);
  }

  lemma BodyLess(s: State, m: Machine, step: Step, m': Machine)
    requires InvAt(s, m) && (step.FrontBody? || step.BackBody? || step.AnswerBody?) && Next(s, step).Some?
    requires var s' := Next(s, step).value; Follows(s, m, s', m') && InvAt(s', m')
    ensures var s' := Next(s, step).value;
            Less(Stage(s', m'.phase), Weight(s'.toBack) + Weight(s'.toFront),
                 Stage(s, m.phase), Weight(s.toBack) + Weight(s.toFront))
  {
    hide FrontBodyStep, BackBodyStep, AnswerBodyStep, InvAt, Stage, Weight, Follows;
    Enabled(s, step);
    if step.FrontBody? {
      FrontBodyLess(s, m, m');
    } else {
      BackBodyLess(s, m, step, m');
    }
  }

  lemma FrontBodyLess(s: State, m: Machine, m': Machine)
    requires InvAt(s, m) && s.front.AwaitBody? && |s.toFront.here| >= s.front.size
    requires var s' := FrontBodyStep(s).value; Follows(s, m, s', m') && InvAt(s', m')
    ensures Stage(FrontBodyStep(s).value, m'.phase) < Stage(s, m.phase)
  {
    hide Notes, NotePayload, RequestPayload, OpPayload, AnswerPayload, ReplyPayload, EncodeOther, Put, Serve, Peek, Poke,
         ParseReply, ParseOp, Weight;
    KindIsRequest(m.phase.req);
    assert m.phase.Asking? || m.phase.Answered?;
    if m.phase.Asking? {
      ServeEmptiesFront(s, m);
    }
  }

  lemma BackBodyLess(s: State, m: Machine, step: Step, m': Machine)
    requires InvAt(s, m) && (step.BackBody? || step.AnswerBody?) && Next(s, step).Some?
    requires var s' := Next(s, step).value; Follows(s, m, s', m') && InvAt(s', m')
    ensures var s' := Next(s, step).value;
            Less(Stage(s', m'.phase), Weight(s'.toBack) + Weight(s'.toFront),
                 Stage(s, m.phase), Weight(s.toBack) + Weight(s.toFront))
  {
    hide InvAt, BackBodyStep, AnswerBodyStep, Follows, Weight, Stage;
    Enabled(s, step);
    BodyTaken(s, step);
    DropLess(s.toBack, BodySize(s.back));
    var s' := Next(s, step).value;
    if s'.back.Handling? {
      HandlingIsBusy(s', m');
      BeforeHandling(s, m, step);
      BusyStage(s', m'.phase);
    } else {
      NoteTaken(s, m, step, m');
    }
  }

  lemma BusyStage(s: State, p: Phase)
    requires p.Busy?
    ensures Stage(s, p) == 0
  {
  }

  /** How many bytes the back end reads next, after a header. */
  function BodySize(b: Back): (n: nat)
    requires b.TakingBody? || b.WaitBody?
  {
    if b.TakingBody? then b.size else AnswerLength(b.op)
  }

  lemma BodyTaken(s: State, step: Step)
    requires (step.BackBody? || step.AnswerBody?) && Next(s, step).Some?
    ensures s.back.TakingBody? || s.back.WaitBody?
    ensures |s.toBack.here| >= BodySize(s.back)
    ensures var s' := Next(s, step).value; s'.toBack == Drop(s.toBack, BodySize(s.back)) && s'.toFront == s.toFront
  {
    hide Drop, ParseRequest, ParseAnswer, Get64;
  }

  lemma BeforeHandling(s: State, m: Machine, step: Step)
    requires InvAt(s, m) && (step.BackBody? || step.AnswerBody?) && Next(s, step).Some? && Next(s, step).value.back.Handling?
    ensures Stage(s, m.phase) >= 1
  {
    hide Notes, RequestPayload, OpPayload, AnswerPayload, ReplyPayload, EncodeOther, NotePayload, Drop, Get64, Peek, ParseRequest, ParseAnswer, All;
  }

  lemma NoteTaken(s: State, m: Machine, step: Step, m': Machine)
    requires InvAt(s, m) && (step.BackBody? || step.AnswerBody?) && Next(s, step).Some? && !Next(s, step).value.back.Handling?
    requires var s' := Next(s, step).value; Follows(s, m, s', m') && InvAt(s', m')
    ensures s.back.TakingBody? && s.back.size > 0
    ensures Stage(Next(s, step).value, m'.phase) == Stage(s, m.phase)
  {
    hide InvAt, Drop, Get64, ParseRequest, ParseAnswer, NotePayload, EncodeOther, All, Notes;
    BodyTaken(s, step);
    NoteIsTaken(s, m, step);
    var s' := Next(s, step).value;
    assert s'.log != s.log;
    var e :| s'.log == s.log + [e] && Accept(m, e) == Some(m');
    assert (s.log + [e])[|s.log|] == e;
    assert e.Noted? by { assert s'.log[|s.log|].Noted?; }
  }

  lemma NoteIsTaken(s: State, m: Machine, step: Step)
    requires InvAt(s, m) && (step.BackBody? || step.AnswerBody?) && Next(s, step).Some? && !Next(s, step).value.back.Handling?
    ensures s.back.TakingBody? && s.back.size > 0 && step.BackBody?
    ensures var s' := Next(s, step).value; |s'.log| == |s.log| + 1 && s'.log[|s.log|].Noted?
  {
    var m' := StepKeeps(s, m, step);
    hide InvPhase, Drop, ParseRequest, ParseOther, ParseAnswer, EncodeOther, All, Notes;
    var s' := Next(s, step).value;
    NoBackError(s', m');
    TakingKinds(s, m);
  }

  lemma NoBackError(s: State, m: Machine)
    requires InvAt(s, m)
    ensures !s.back.BackError?
  {
    hide Notes, RequestPayload, OpPayload, AnswerPayload, ReplyPayload, EncodeOther, NotePayload, Peek, All;
  }

  lemma TakingKinds(s: State, m: Machine)
    requires InvAt(s, m)
    ensures s.back.TakingBody? && s.back.kind !in REQUEST_KINDS ==> s.back.size > 0
  {
    hide Notes, RequestPayload, OpPayload, AnswerPayload, ReplyPayload, EncodeOther, NotePayload, NoteKind, Peek, All;
    if m.phase.Called? {
      KindIsRequest(m.phase.req);
    }
  }

  lemma ServeEmptiesFront(s: State, m: Machine)
    requires InvAt(s, m) && m.phase.Asking? && s.front.AwaitBody? && |s.toFront.here| >= s.front.size
    ensures All(s.toFront) != [] && All(FrontBodyStep(s).value.toFront) == []
  {
    hide FrontBodyStep, EncodeOther, Peek, LE, OpPayload, AnswerPayload;
    var op := m.phase.op;
    OpIsLong(op);
    assert All(s.toFront) == OpPayload(op) + [];
    BodyOf(s.toFront, OpPayload(op), []);
    FrontTakes(s);
  }

  lemma OpIsLong(op: MemOp)
    ensures |OpPayload(op)| >= 20
  {
    hide LE;
  }

  /** Serving a memory request uses up the request. */
  lemma FrontTakes(s: State)
    requires s.front.AwaitBody? && s.front.kind == MEMORY_REQUEST && |s.toFront.here| >= s.front.size
    ensures FrontBodyStep(s).value.toFront == Drop(s.toFront, s.front.size)
  {
    hide ParseOp, Peek, Poke, AnswerPayload, Put, Drop;
  }

  // ---------------------------------------------------------------- every exchange completes

  /** The synchronous machine that explains a state. */
  ghost function MachineOf(mem: Memory, s: State): (m: Machine)
    requires Inv(mem, s)
    ensures InvAt(s, m)
  {
    AcceptAll(Machine(Quiet, mem, []), s.log).value
  }

  ghost predicate AllInternal(steps: seq<Step>)
  {
    forall i :: 0 <= i < |steps| ==> Internal(steps[i])
  }

  ghost function Traffic(s: State): (w: nat)
  {
    Weight(s.toBack) + Weight(s.toFront)
  }

  /** One more internal step: it can be taken, explained and counted. */
  lemma InternalStep(mem: Memory, s: State) returns (step: Step, m': Machine)
    requires Inv(mem, s) && !Settled(s) && !s.back.Handling?
    ensures Internal(step) && Next(s, step).Some?
    ensures var s' := Next(s, step).value;
            && Inv(mem, s') && MachineOf(mem, s') == m' && Follows(s, MachineOf(mem, s), s', m')
            && Less(Stage(s', m'.phase), Traffic(s'), Stage(s, MachineOf(mem, s).phase), Traffic(s))
  {
    hide Next, InvPhase, Accept, Good, Stage, Weight, Settled;
    step := Progress(mem, s);
    var m := MachineOf(mem, s);
    assert Good(s, step) by { InternalIsGood(s, step); }
    KeepsInv(mem, s, step);
    m' := NoLivelock(s, m, step);
    var s' := Next(s, step).value;
    if s'.log != s.log {
      var e :| s'.log == s.log + [e] && Accept(m, e) == Some(m');
      AcceptLast(Machine(Quiet, mem, []), s.log, e);
    } else {
      SameLog(s, m, s', m');
    }
  }

  lemma InternalIsGood(s: State, step: Step)
    requires Internal(step)
    ensures Good(s, step)
  {
  }

  lemma SameLog(s: State, m: Machine, s': State, m': Machine)
    requires Follows(s, m, s', m') && s'.log == s.log
    ensures m' == m
  {
  }

  lemma RunCons(s: State, step: Step, rest: seq<Step>)
    requires Next(s, step).Some?
    ensures Run(s, [step] + rest) == Run(Next(s, step).value, rest)
  {
    hide Next;
    assert ([step] + rest)[1..] == rest;
  }

  /** From every state, finitely many arrivals and reads lead to rest or to a handler that may decide. */
  lemma {:induction false} Completes(mem: Memory, s: State) returns (steps: seq<Step>, e: State)
    requires Inv(mem, s)
    ensures AllInternal(steps) && Run(s, steps) == Some(e)
    ensures Inv(mem, e) && (Settled(e) || e.back.Handling?)
    decreases Stage(s, MachineOf(mem, s).phase), Traffic(s)
  {
    hide Next, Inv, Stage, Traffic, Settled;
    if Settled(s) || s.back.Handling? {
      steps, e := [], s;
    } else {
      var step, m' := InternalStep(mem, s);
      var rest;
      rest, e := Completes(mem, Next(s, step).value);
      steps := [step] + rest;
      RunCons(s, step, rest);
    }
  }

  /** What is still to be observed of an access. */
  function Pending(m: Machine): (es: seq<Event>)
  {
    match m.phase
    case Asking(_, op) =>
      if op.Load? then [Loaded(op.addr, Peek(m.mem, op.addr, op.size))] else [Stored(op.addr, op.data), Confirmed(op.addr)]
    case Acking(_, op) => [Confirmed(op.addr)]
    case _ => []
  }

  /** The memory once the access is done. */
  function PendingMem(m: Machine): (mem: Memory)
  {
    if m.phase.Asking? && m.phase.op.Store? then Poke(m.mem, m.phase.op.addr, m.phase.op.data) else m.mem
  }

  ghost predicate Accessing(m: Machine, req: Request)
  {
    m.notes == [] && (m.phase.Asking? || m.phase.Acking?) && m.phase.req == req
  }

  lemma PendingStep(m: Machine, e: Event, m': Machine, req: Request)
    requires Accessing(m, req) && Accept(m, e) == Some(m')
    ensures Pending(m) == [e] + Pending(m') && PendingMem(m') == PendingMem(m)
    ensures m'.phase == Busy(req) || Accessing(m', req)
  {
    hide Peek, Poke;
  }

  /** One more internal step of an access: one event less is pending, or none happened. */
  lemma AccessProgress(mem: Memory, s: State, req: Request) returns (step: Step, s': State)
    requires Inv(mem, s) && Accessing(MachineOf(mem, s), req)
    ensures Internal(step) && Next(s, step) == Some(s') && Inv(mem, s')
    ensures var m, m' := MachineOf(mem, s), MachineOf(mem, s');
            && s'.log + Pending(m') == s.log + Pending(m) && PendingMem(m') == PendingMem(m)
            && Less(Stage(s', m'.phase), Traffic(s'), Stage(s, m.phase), Traffic(s))
            && (Accessing(m', req) || (m'.phase == Busy(req) && s'.back == Handling(req) && Pending(m') == [] && s'.mem == PendingMem(m')))
  {
    hide Next, Inv, Stage, Traffic, Accept, Pending, PendingMem, InvAt, Settled;
    var m := MachineOf(mem, s);
    AccessWaits(s, m, req);
    var m';
    step, m' := InternalStep(mem, s);
    s' := Next(s, step).value;
    if s'.log == s.log {
      SameLog(s, m, s', m');
    } else {
      var ev :| s'.log == s.log + [ev] && Accept(m, ev) == Some(m');
      PendingStep(m, ev, m', req);
      if m'.phase == Busy(req) {
        AccessEnds(s', m', req);
      }
      assert s.log + ([ev] + Pending(m')) == (s.log + [ev]) + Pending(m');
    }
  }

  /** An access that has been asked for is served: its data or its confirmation arrives, and the handler goes on. */
  lemma {:induction false} AccessRuns(mem: Memory, s: State, req: Request) returns (steps: seq<Step>, e: State)
    requires Inv(mem, s) && Accessing(MachineOf(mem, s), req)
    ensures AllInternal(steps) && Run(s, steps) == Some(e)
    ensures Inv(mem, e) && e.back == Handling(req)
    ensures e.log == s.log + Pending(MachineOf(mem, s)) && e.mem == PendingMem(MachineOf(mem, s))
    decreases Stage(s, MachineOf(mem, s).phase), Traffic(s)
  {
    hide Next, Inv, Stage, Traffic, Pending, PendingMem, MachineOf, InvAt;
    var step, s' := AccessProgress(mem, s, req);
    var rest := [];
    e := s';
    if Accessing(MachineOf(mem, s'), req) {
      rest, e := AccessRuns(mem, s', req);
    } else {
      assert s'.log + [] == s'.log;
    }
    steps := [step] + rest;
    RunCons(s, step, rest);
  }

  lemma AccessWaits(s: State, m: Machine, req: Request)
    requires InvAt(s, m) && Accessing(m, req)
    ensures !Settled(s) && !s.back.Handling?
  {
    hide AnswerPayload, EncodeOther, OpPayload, Peek;
  }

  lemma AccessEnds(s: State, m: Machine, req: Request)
    requires InvAt(s, m) && m.phase == Busy(req)
    ensures s.back == Handling(req) && Pending(m) == [] && PendingMem(m) == s.mem
  {
  }

  /** The events that an access adds to the log. */
  function AccessEvents(s: State, op: MemOp): (es: seq<Event>)
  {
    if op.Load? then [Asked(op), Loaded(op.addr, Peek(s.mem, op.addr, op.size))]
    else [Asked(op), Stored(op.addr, op.data), Confirmed(op.addr)]
  }

  /** A handler's access, if it is not empty, is answered: with the front end's bytes
      at that moment, or after they have been changed as asked. */
  lemma AccessAnswered(mem: Memory, s: State, op: MemOp) returns (steps: seq<Step>, e: State)
    requires Inv(mem, s) && s.back.Handling? && Nests(s.back.req) && ValidOp(op)
    ensures AllInternal(steps) && Run(s, [Access(op)] + steps) == Some(e)
    ensures Inv(mem, e) && e.back == s.back && e.log == s.log + AccessEvents(s, op)
    ensures e.mem == if op.Load? then s.mem else Poke(s.mem, op.addr, op.data)
  {
    hide Next, Inv, Accept, Peek, Poke;
    var m := MachineOf(mem, s);
    var req := s.back.req;
    HandlingIsBusy(s, m);
    assert |OpPayload(op)| < TWO32 by { OpRoundTrip(op); }
    var s', m' := AccessTaken(mem, s, m, op);
    steps, e := AccessRuns(mem, s', req);
    RunCons(s, Access(op), steps);
    assert s.log + [Asked(op)] + Pending(m') == s.log + AccessEvents(s, op);
  }

  lemma HandlingIsBusy(s: State, m: Machine)
    requires InvAt(s, m) && s.back.Handling?
    ensures m.phase == Busy(s.back.req) && m.notes == [] && s.mem == m.mem
    ensures s.front == AwaitHead(s.back.req) && s.toBack == NONE && s.toFront == NONE
  {
    hide AnswerPayload, EncodeOther, OpPayload, Peek, Notes, NotePayload, RequestPayload, ReplyPayload;
  }

  lemma AccessTaken(mem: Memory, s: State, m: Machine, op: MemOp) returns (s': State, m': Machine)
    requires Inv(mem, s) && m == MachineOf(mem, s) && s.back.Handling? && Nests(s.back.req) && ValidOp(op) && |OpPayload(op)| < TWO32
    ensures Next(s, Access(op)) == Some(s') && Inv(mem, s') && MachineOf(mem, s') == m'
    ensures s'.log == s.log + [Asked(op)] && m' == m.(phase := Asking(s.back.req, op))
  {
    hide OpPayload, Put, Peek, InvPhase;
    HandlingIsBusy(s, m);
    s' := Next(s, Access(op)).value;
    KeepsInv(mem, s, Access(op));
    AcceptLast(Machine(Quiet, mem, []), s.log, Asked(op));
    m' := MachineOf(mem, s');
  }

  // ---------------------------------------------------------------- the conditions are needed

  /** For an empty access the front end goes back to waiting without a word, and then neither side can take any
      step ever again. */
  lemma EmptyAccessBlocks(s: State, op: MemOp)
    requires s.back.Handling? && s.front == AwaitHead(s.back.req) && Nests(s.back.req) && s.toBack == NONE && s.toFront == NONE
    requires |OpPayload(op)| < TWO32 && (op.Load? ==> op.size == 0) && (op.Store? ==> op.data == [])
    ensures var r := Run(s, [Access(op), ArriveFront(6 + |OpPayload(op)|), FrontHead, FrontBody]);
            && r.Some? && r.value.front == AwaitHead(s.back.req) && r.value.back == WaitHead(s.back.req, op)
            && forall step :: Next(r.value, step).None?
  {
    hide OpPayload, ParseOp, Arrive, EncodeOther, FrontHeadStep, FrontBodyStep, BackHeadStep, BackBodyStep, BackInsnStep, AnswerBodyStep;
    var d := OpPayload(op);
    var e := EncodeOther(MEMORY_REQUEST, d);
    EmptyOpRejected(op);
    var s1 := Log(s.(back := WaitHead(s.back.req, op), toFront := Chan([], e)), Asked(op));
    assert [] + e == e;
    assert Next(s, Access(op)) == Some(s1);
    var s2 := s1.(toFront := Chan(e, []));
    ArriveAll(e);
    var s3 := s2.(front := AwaitBody(s.back.req, MEMORY_REQUEST, |d|), toFront := Chan(d, []));
    ReadOpHead(s2, s.back.req, d);
    var s4 := s3.(front := AwaitHead(s.back.req), toFront := NONE);
    ReadOpBody(s3, s.back.req, d);
    RunFour(s, s1, s2, s3, s4, op, 6 + |d|);
    forall step
      ensures Next(s4, step).None?
    {
      Stuck(s4, step);
    }
  }

  lemma ReadOpHead(s: State, req: Request, d: seq<Byte>)
    requires s.front == AwaitHead(req) && Nests(req) && |d| < TWO32 && s.toFront == Chan(EncodeOther(MEMORY_REQUEST, d), [])
    ensures FrontHeadStep(s) == Some(s.(front := AwaitBody(req, MEMORY_REQUEST, |d|), toFront := Chan(d, [])))
  {
    hide EncodeOther, Get32;
    assert All(s.toFront) == EncodeOther(MEMORY_REQUEST, d) + [];
    HeadOf(s.toFront, MEMORY_REQUEST, d, []);
    assert Drop(s.toFront, 6) == Chan(d, []) by {
      assert All(Drop(s.toFront, 6)) == d + [] == d;
      assert Drop(s.toFront, 6).here + [] == Drop(s.toFront, 6).here;
    }
  }

  lemma ReadOpBody(s: State, req: Request, d: seq<Byte>)
    requires s.front == AwaitBody(req, MEMORY_REQUEST, |d|) && s.toFront == Chan(d, []) && ParseOp(d).None?
    ensures FrontBodyStep(s) == Some(s.(front := AwaitHead(req), toFront := NONE))
  {
    hide ParseOp;
    assert d[..|d|] == d && d[|d|..] == [];
  }

  lemma ArriveAll(e: seq<Byte>)
    requires e != []
    ensures Arrive(Chan([], e), |e|) == Some(Chan(e, []))
  {
    assert [] + e[..|e|] == e && e[|e|..] == [];
  }

  lemma RunFour(s: State, s1: State, s2: State, s3: State, s4: State, op: MemOp, n: nat)
    requires Next(s, Access(op)) == Some(s1) && Next(s1, ArriveFront(n)) == Some(s2)
    requires Next(s2, FrontHead) == Some(s3) && Next(s3, FrontBody) == Some(s4)
    ensures Run(s, [Access(op), ArriveFront(n), FrontHead, FrontBody]) == Some(s4)
  {
    hide Next;
    var p3, p2, p1 := [FrontBody], [FrontHead, FrontBody], [ArriveFront(n), FrontHead, FrontBody];
    assert p3[1..] == [] && p2[1..] == p3 && p1[1..] == p2 && ([Access(op)] + p1)[1..] == p1;
    assert Run(s3, p3) == Run(s4, []);
    assert Run(s2, p2) == Run(s3, p3);
    assert Run(s1, p1) == Run(s2, p2);
    assert [Access(op), ArriveFront(n), FrontHead, FrontBody] == [Access(op)] + p1;
  }

  lemma Stuck(s: State, step: Step)
    requires s.front.AwaitHead? && s.back.WaitHead? && s.toBack == NONE && s.toFront == NONE
    ensures Next(s, step).None?
  {
  }

  lemma EmptyOpRejected(op: MemOp)
    requires (op.Load? ==> op.size == 0) && (op.Store? ==> op.data == [])
    ensures ParseOp(OpPayload(op)).None?
  {
    hide LE, Get32, Get64;
    match op
    case Load(addr, size, lock) =>
      OpFields(addr, size, lock, MEM_READ, []);
      assert OpPayload(op) + [] == OpPayload(op);
    case Store(addr, data, lock) =>
      OpFields(addr, |data|, lock, MEM_WRITE, data);
  }

  /** The back end waits for an answer to an access that will not be answered. */
  ghost predicate Unanswered(s: State, req: Request, op: MemOp)
  {
    var d := OpPayload(op);
    && s.back == WaitHead(req, op) && All(s.toBack) == []
    && (|| (s.front == AwaitHead(req) && All(s.toFront) == EncodeOther(MEMORY_REQUEST, d))
        || (s.front == AwaitBody(req, MEMORY_REQUEST, |d|) && All(s.toFront) == d)
        || (s.front == AwaitHead(req) && All(s.toFront) == []))
  }

  lemma UnansweredHead(s: State, req: Request, op: MemOp)
    requires |OpPayload(op)| < TWO32 && Nests(req) && Unanswered(s, req, op) && FrontHeadStep(s).Some?
    ensures Unanswered(FrontHeadStep(s).value, req, op)
  {
    hide OpPayload, EncodeOther, Get32;
    assert All(s.toFront) != [];
    assert All(s.toFront) == EncodeOther(MEMORY_REQUEST, OpPayload(op)) + [];
    HeadOf(s.toFront, MEMORY_REQUEST, OpPayload(op), []);
    assert OpPayload(op) + [] == OpPayload(op);
  }

  lemma UnansweredBody(s: State, req: Request, op: MemOp)
    requires |OpPayload(op)| < TWO32 && !ValidOp(op) && Unanswered(s, req, op) && FrontBodyStep(s).Some?
    ensures Unanswered(FrontBodyStep(s).value, req, op)
  {
    hide OpPayload, EncodeOther, ParseOp, Peek, LE;
    assert All(s.toFront) == OpPayload(op) + [];
    BodyOf(s.toFront, OpPayload(op), []);
    InvalidIsEmpty(op);
    EmptyOpRejected(op);
  }

  lemma InvalidIsEmpty(op: MemOp)
    requires |OpPayload(op)| < TWO32 && !ValidOp(op)
    ensures (op.Load? ==> op.size == 0) && (op.Store? ==> op.data == [])
  {
  }

  lemma UnansweredStep(s: State, req: Request, op: MemOp, step: Step)
    requires |OpPayload(op)| < TWO32 && Nests(req) && !ValidOp(op) && Unanswered(s, req, op)
    requires Internal(step) && Next(s, step).Some?
    ensures Unanswered(Next(s, step).value, req, op)
  {
    hide OpPayload, EncodeOther, ValidOp, FrontHeadStep, FrontBodyStep;
    assert s.toBack == NONE;
    if step.FrontHead? {
      UnansweredHead(s, req, op);
    } else if step.FrontBody? {
      UnansweredBody(s, req, op);
    }
  }

  lemma {:induction false} StaysUnanswered(s: State, req: Request, op: MemOp, steps: seq<Step>)
    requires |OpPayload(op)| < TWO32 && Nests(req) && !ValidOp(op) && Unanswered(s, req, op)
    requires AllInternal(steps) && Run(s, steps).Some?
    ensures Unanswered(Run(s, steps).value, req, op)
    decreases |steps|
  {
    hide Next, OpPayload, Unanswered, ValidOp, Internal;
    if steps != [] {
      UnansweredStep(s, req, op, steps[0]);
      StaysUnanswered(Next(s, steps[0]).value, req, op, steps[1..]);
    }
  }

  /** The handler gets to go on after the access. */
  ghost predicate Resumes(s: State, op: MemOp)
  {
    exists steps :: AllInternal(steps) && Run(s, [Access(op)] + steps).Some? && Run(s, [Access(op)] + steps).value.back.Handling?
  }

  /** A handler's access is answered if and only if it is not empty; otherwise no interleaving ever lets the handler
      go on. */
  lemma AccessExact(mem: Memory, s: State, op: MemOp)
    requires Inv(mem, s) && s.back.Handling? && Nests(s.back.req) && |OpPayload(op)| < TWO32
    ensures Resumes(s, op) <==> ValidOp(op)
  {
    hide Inv, OpPayload, ValidOp, AllInternal;
    if ValidOp(op) {
      var steps, e := AccessAnswered(mem, s, op);
    } else if Resumes(s, op) {
      var steps :| AllInternal(steps) && Run(s, [Access(op)] + steps).Some? && Run(s, [Access(op)] + steps).value.back.Handling?;
      HandlingIsBusy(s, MachineOf(mem, s));
      var s' := Next(s, Access(op)).value;
      RunCons(s, Access(op), steps);
      assert Unanswered(s', s.back.req, op);
      StaysUnanswered(s', s.back.req, op, steps);
    }
  }

  /** What was written is read back, and no other byte changes. */
  lemma PokePeek(mem: Memory, addr: Word64, data: seq<Byte>, x: Word64)
    requires |data| < TWO32
    ensures Peek(Poke(mem, addr, data), addr, |data|) == data
    ensures (forall k: int :: 0 <= k < |data| ==> Add64(addr, k) != x) ==> Poke(mem, addr, data)(x) == mem(x)
  {
    var bs := Peek(Poke(mem, addr, data), addr, |data|);
    forall k: int | 0 <= k < |data|
      ensures bs[k] == data[k]
    {
      assert bs[k] == Poke(mem, addr, data)(Add64(addr, k));
    }
    var d := if x >= addr then x - addr else x - addr + TWO64;
    assert Add64(addr, d) == x;
  }
}
