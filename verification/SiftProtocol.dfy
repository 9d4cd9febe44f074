/** Blocking requests of the front end (the writer) to the back end (the reader), over two byte channels.
    While a request is handled the back end may read and write front-end memory through the same channels.
    Bytes arrive in order but at any time; each side reads a record header, then its payload. */
module SiftProtocol {
  import opened SiftFormat
  import opened Wrappers

  // ---------------------------------------------------------------- messages

  datatype Request =
    | Syscall(number: Word16, data: seq<Byte>)
    | Sync
    | Magic(a: Word64, b: Word64, c: Word64)
    | Emulate(kind: Word16, args: seq<Byte>)
    | InstructionCount(icount: Word32)
    | NewThread
    | Join(thread: Word32)
    | Fork

  const EMU_REQUEST: nat := 8    // sizeof(EmuRequest)
  const EMU_REPLY: nat := 48     // sizeof(EmuReply)

  datatype Reply =
    | Code64(code: Word64)                       // Syscall, Magic
    | Code32(value: Word32)                      // Sync, InstructionCount, NewThread, Join, Fork
    | Emulated(result: Byte, reply: seq<Byte>)

  datatype MemOp =
    | Load(addr: Word64, size: Word32, lock: Word32)
    | Store(addr: Word64, data: seq<Byte>, lock: Word32)

  /** The other records of a trace, which need no answer: instructions, code, mappings and events. */
  type Note = r: Record | IsNote(r) witness Logical2Physical(0, 0)

  predicate IsNote(r: Record)
  {
    Encodable(r) && Readable(r) && !r.End?
  }

  predicate IsInsn(r: Record)
  {
    r.Simple? || r.Extended?
  }

  function NoteKind(n: Note): (k: Byte)
    requires !IsInsn(n)
    ensures k !in REQUEST_KINDS
  {
    KindAndPayload(n).0
  }

  function NotePayload(n: Note): (d: seq<Byte>)
    requires !IsInsn(n)
    ensures 0 < |d| < TWO32
  {
    KindAndPayload(n).1
  }

  function EncodeNote(n: Note): (bs: seq<Byte>)
    ensures |bs| >= 1
  {
    Encode(n)
  }

  const REQUEST_KINDS: set<Byte> := {2, 4, 8, 12, 15, 19, 21, 23}

  lemma NoteIs(n: Note)
    ensures IsInsn(n) ==> EncodeNote(n)[0] != 0
    ensures !IsInsn(n) ==> EncodeNote(n) == EncodeOther(NoteKind(n), NotePayload(n))
  {
    if n.Simple? {
      ParseEncodedSimple(n.size, n.isBranch, n.taken, n.addresses, []);
    }
  }

  lemma NoteParses(n: Note)
    requires !IsInsn(n)
    ensures ParseOther(NoteKind(n), NotePayload(n)) == Ok(n, 6 + |NotePayload(n)|)
  {
    ParseEncodedPayload(n);
  }

  lemma {:induction false} DecodeAhead(bs: seq<Byte>, more: seq<Byte>, n: nat)
    requires 8 * n <= |bs|
    ensures DecodeAddresses(bs + more, n) == DecodeAddresses(bs, n)
  {
    if n > 0 {
      assert (bs + more)[8..] == bs[8..] + more;
      assert (bs + more)[0..8] == bs[0..8];
      DecodeAhead(bs[8..], more, n - 1);
    }
  }

  /** An instruction that has arrived in full is not changed by what follows. */
  lemma ParseAhead(bs: seq<Byte>, more: seq<Byte>)
    requires bs != [] && bs[0] != 0 && Parse(bs).Ok?
    ensures Parse(bs + more) == Parse(bs)
  {
    hide DecodeAddresses, FromLE;
    if Field(bs[0], 1, 16) != 0 {
      assert (bs + more)[1..] == bs[1..] + more;
      DecodeAhead(bs[1..], more, Field(bs[0], 16, 4));
    } else {
      assert (bs + more)[10..] == bs[10..] + more;
      assert (bs + more)[2..10] == bs[2..10];
      DecodeAhead(bs[10..], more, Field(bs[1], 1, 4));
    }
  }

  const MEMORY_REQUEST: Byte := 6
  const MEMORY_RESPONSE: Byte := 7

  /** The requests whose wait loop serves memory requests. */
  predicate Nests(r: Request)
  {
    r.Syscall? || r.Sync? || r.Magic? || r.Emulate?
  }

  /** What the reader asserts of a request: a system call carries argument data. */
  predicate ValidRequest(r: Request)
  {
    match r
    case Syscall(_, data) => 1 <= |data| < TWO32 - 2
    case Emulate(_, args) => |args| == EMU_REQUEST
    case _ => true
  }

  predicate Fits(r: Request, p: Reply)
  {
    match r
    case Syscall(_, _) => p.Code64?
    case Magic(_, _, _) => p.Code64?
    case Emulate(_, _) => p.Emulated? && |p.reply| == EMU_REPLY
    case _ => p.Code32?
  }

  /** Requests with a size that fits its field; that they are not empty is what the writer insists on. */
  predicate ValidOp(op: MemOp)
  {
    match op
    case Load(_, size, _) => 0 < size
    case Store(_, data, _) => 0 < |data| && |data| + 20 < TWO32
  }

  function RequestKind(r: Request): (k: Byte)
  {
    match r
    case Syscall(_, _) => 2
    case NewThread => 4
    case Join(_) => 8
    case Sync => 12
    case Magic(_, _, _) => 15
    case Emulate(_, _) => 19
    case Fork => 21
    case InstructionCount(_) => 23
  }

  function ReplyKind(r: Request): (k: Byte)
  {
    match r
    case Syscall(_, _) => 3
    case NewThread => 5
    case Join(_) => 9
    case Sync => 13
    case Magic(_, _, _) => 16
    case Emulate(_, _) => 20
    case Fork => 22
    case InstructionCount(_) => 13
  }

  function RequestPayload(r: Request): (d: seq<Byte>)
  {
    match r
    case Syscall(number, data) => LE(number, 2) + data
    case Magic(a, b, c) => LE(a, 8) + LE(b, 8) + LE(c, 8)
    case Emulate(kind, args) => LE(kind, 2) + args
    case InstructionCount(icount) => LE(icount, 4)
    case Join(thread) => LE(thread, 4)
    case _ => []
  }

  function Get16(bs: seq<Byte>, at: nat): (v: Word16)
    requires at + 2 <= |bs|
  {
    Pow256Values();
    FromLE(bs[at..at + 2])
  }

  /** The switch in Reader::Read; None where an assert fails. */
  function ParseRequest(kind: Byte, d: seq<Byte>): (r: Option<Request>)
  {
    if kind == 2 then (if |d| > 2 then Some(Syscall(Get16(d, 0), d[2..])) else None)
    else if kind == 4 then (if |d| == 0 then Some(NewThread) else None)
    else if kind == 8 then (if |d| == 4 then Some(Join(Get32(d, 0))) else None)
    else if kind == 12 then (if |d| == 0 then Some(Sync) else None)
    else if kind == 15 then (if |d| == 24 then Some(Magic(Get64(d, 0), Get64(d, 8), Get64(d, 16))) else None)
    else if kind == 19 then (if |d| == 2 + EMU_REQUEST then Some(Emulate(Get16(d, 0), d[2..])) else None)
    else if kind == 21 then (if |d| == 0 then Some(Fork) else None)
    else if kind == 23 then (if |d| == 4 then Some(InstructionCount(Get32(d, 0))) else None)
    else None
  }

  function ReplyPayload(p: Reply): (d: seq<Byte>)
  {
    match p
    case Code64(code) => LE(code, 8)
    case Code32(value) => LE(value, 4)
    case Emulated(result, reply) => [result] + reply
  }

  /** The wait loop of request r, on a record that is not a memory request. */
  function ParseReply(r: Request, kind: Byte, d: seq<Byte>): (p: Option<Reply>)
  {
    if kind != ReplyKind(r) then None
    else if r.Syscall? || r.Magic? then (if |d| == 8 then Some(Code64(Get64(d, 0))) else None)
    else if r.Emulate? then (if 1 <= |d| <= 1 + EMU_REPLY then Some(Emulated(d[0], d[1..])) else None)
    else (if |d| == 4 then Some(Code32(Get32(d, 0))) else None)
  }

  const MEM_READ: Word32 := 1
  const MEM_WRITE: Word32 := 2

  function OpPayload(op: MemOp): (d: seq<Byte>)
  {
    match op
    case Load(addr, size, lock) => LE(addr, 8) + LE(size, 4) + LE(lock, 4) + LE(MEM_READ, 4)
    case Store(addr, data, lock) => LE(addr, 8) + LE(|data|, 4) + LE(lock, 4) + LE(MEM_WRITE, 4) + data
  }

  /** `handleMemoryRequest`; None where it returns without an answer. */
  function ParseOp(d: seq<Byte>): (op: Option<MemOp>)
  {
    if |d| < 20 then None
    else
      var addr, size, lock, kind := Get64(d, 0), Get32(d, 8), Get32(d, 12), Get32(d, 16);
      if kind == MEM_READ then (if |d| == 20 && size > 0 then Some(Load(addr, size, lock)) else None)
      else if kind == MEM_WRITE then (if |d| > 20 && |d| - 20 == size then Some(Store(addr, d[20..], lock)) else None)
      else None
  }

  /** The answer to an operation; `bytes` is empty for a store. */
  function AnswerPayload(op: MemOp, bytes: seq<Byte>): (d: seq<Byte>)
  {
    LE(op.addr, 8) + LE(if op.Load? then MEM_READ else MEM_WRITE, 4) + bytes
  }

  /** How many bytes AccessMemory reads after the header of an answer. */
  function AnswerLength(op: MemOp): (n: nat)
  {
    12 + if op.Load? then op.size else 0
  }

  /** The end of AccessMemory: the data, or None where it reports an error.  The 32-bit size field of the header is
      compared after a wrapping subtraction. */
  function ParseAnswer(op: MemOp, kind: Byte, size: nat, d: seq<Byte>): (bytes: Option<seq<Byte>>)
    requires |d| == AnswerLength(op)
  {
    if kind == MEMORY_RESPONSE && Get64(d, 0) == op.addr && (size + TWO32 - 12) % TWO32 == |d| - 12 then Some(d[12..]) else None
  }

  lemma RequestRoundTrip(r: Request)
    requires ValidRequest(r)
    ensures |RequestPayload(r)| < TWO32
    ensures ParseRequest(RequestKind(r), RequestPayload(r)) == Some(r)
  {
    hide LE, Get16, Get32, Get64;
    var d := RequestPayload(r);
    match r
    case Syscall(number, data) => Field16(number, data);
    case Emulate(kind, args) => Field16(kind, args);
    case Magic(a, b, c) =>
      TwoFields64([], a, b, LE(c, 8));
      assert [] + LE(a, 8) + LE(b, 8) + LE(c, 8) == d;
      Get64At(LE(a, 8) + LE(b, 8), c, []);
      assert d + [] == d;
    case InstructionCount(icount) => Field32(icount);
    case Join(thread) => Field32(thread);
    case _ =>
  }

  lemma Field16(v: Word16, rest: seq<Byte>)
    ensures Get16(LE(v, 2) + rest, 0) == v && (LE(v, 2) + rest)[2..] == rest
  {
    Pow256Values();
    FromLEOfLE(v, 2);
    assert (LE(v, 2) + rest)[0..2] == LE(v, 2);
  }

  lemma Field32(v: Word32)
    ensures Get32(LE(v, 4), 0) == v
  {
    Get32At([], v, []);
    assert [] + LE(v, 4) + [] == LE(v, 4);
  }

  lemma ReplyRoundTrip(r: Request, p: Reply)
    requires Fits(r, p)
    ensures |ReplyPayload(p)| < TWO32
    ensures ParseReply(r, ReplyKind(r), ReplyPayload(p)) == Some(p)
  {
    hide LE, Get32, Get64;
    if p.Code64? {
      OnePayload64(p.code, []);
      assert LE(p.code, 8) + [] == LE(p.code, 8);
    } else if p.Code32? {
      Field32(p.value);
    } else {
      assert ([p.result] + p.reply)[1..] == p.reply;
    }
  }

  lemma FiveParts(a: seq<Byte>, s: seq<Byte>, l: seq<Byte>, k: seq<Byte>, data: seq<Byte>)
    requires |a| == 8 && |s| == |l| == |k| == 4
    ensures var d := a + s + l + k + data;
            d[0..8] == a && d[8..12] == s && d[12..16] == l && d[16..20] == k && d[20..] == data
  {
  }

  /** The four fields in front of a memory request. */
  lemma OpFields(addr: Word64, size: Word32, lock: Word32, kind: Word32, data: seq<Byte>)
    ensures var d := LE(addr, 8) + LE(size, 4) + LE(lock, 4) + LE(kind, 4) + data;
            && Get64(d, 0) == addr && Get32(d, 8) == size && Get32(d, 12) == lock && Get32(d, 16) == kind && d[20..] == data
  {
    hide LE, FromLE;
    FiveParts(LE(addr, 8), LE(size, 4), LE(lock, 4), LE(kind, 4), data);
    Pow256Values();
    FromLEOfLE(addr, 8);
    FromLEOfLE(size, 4);
    FromLEOfLE(lock, 4);
    FromLEOfLE(kind, 4);
  }

  lemma OpRoundTrip(op: MemOp)
    requires ValidOp(op)
    ensures |OpPayload(op)| < TWO32
    ensures ParseOp(OpPayload(op)) == Some(op)
  {
    hide LE, Get32, Get64;
    match op
    case Load(addr, size, lock) =>
      OpFields(addr, size, lock, MEM_READ, []);
      assert OpPayload(op) + [] == OpPayload(op);
    case Store(addr, data, lock) =>
      OpFields(addr, |data|, lock, MEM_WRITE, data);
  }

  /** Also where the size field of the answer wraps: then it wraps on both sides. */
  lemma AnswerRoundTrip(op: MemOp, bytes: seq<Byte>)
    requires ValidOp(op) && |bytes| == if op.Load? then op.size else 0
    ensures |AnswerPayload(op, bytes)| == AnswerLength(op)
    ensures ParseAnswer(op, MEMORY_RESPONSE, |AnswerPayload(op, bytes)| % TWO32, AnswerPayload(op, bytes)) == Some(bytes)
  {
    hide LE, Get64;
    var kind := LE(if op.Load? then MEM_READ else MEM_WRITE, 4);
    var d := AnswerPayload(op, bytes);
    assert d == LE(op.addr, 8) + (kind + bytes);
    OnePayload64(op.addr, kind + bytes);
    assert d[12..] == bytes;
  }
}
