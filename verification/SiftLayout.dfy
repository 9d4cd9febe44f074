/** Traces and messages byte by byte: what is on the wire, what the reader accepts, and in which order records come. */
module SiftLayout {
  import opened Wrappers
  import opened SiftFormat
  import opened SiftCodeImage
  import opened SiftProtocol
  import W = SiftWriter
  import R = SiftReader
  import S = SiftSession

  // ---------------------------------------------------------------- what the reader accepts

  lemma Get32Small(bs: seq<Byte>, at: nat)
    requires at + 4 <= |bs|
    ensures var a: int, b: int, c: int, d: int := bs[at], bs[at + 1], bs[at + 2], bs[at + 3];
            Get32(bs, at) == a + 256 * b + 65536 * c + 16777216 * d
  {
    var d := bs[at..at + 4];
    assert FromLE(d) == d[0] + 256 * FromLE(d[1..]);
    assert FromLE(d[1..]) == d[1] + 256 * FromLE(d[2..]) by { assert d[1..][1..] == d[2..]; }
    assert FromLE(d[2..]) == d[2] + 256 * FromLE(d[3..]) by { assert d[2..][1..] == d[3..]; }
    assert FromLE(d[3..]) == d[3] + 256 * FromLE(d[4..]) by { assert d[3..][1..] == d[4..]; }
    assert d[4..] == [];
  }

  lemma Get64Low(bs: seq<Byte>, at: nat)
    requires at + 8 <= |bs|
    ensures Get64(bs, at) == bs[at] + 256 * FromLE(bs[at + 1..at + 8])
  {
    assert bs[at..at + 8][1..] == bs[at + 1..at + 8];
  }

  lemma {:induction false} ZeroField(bs: seq<Byte>)
    ensures FromLE(bs) == 0 <==> forall i :: 0 <= i < |bs| ==> bs[i] == 0
  {
    if bs != [] {
      ZeroField(bs[1..]);
      assert forall i :: 1 <= i < |bs| ==> bs[i] == bs[1..][i - 1];
    }
  }

  /** A header is accepted if and only if it begins with the letters SIFT and its options are among the three known
      ones; an odd option byte asks for decompression. */
  lemma HeaderExact(bs: seq<Byte>)
    ensures var named := |bs| >= 16 && bs[0] == 0x53 && bs[1] == 0x49 && bs[2] == 0x46 && bs[3] == 0x54;
            && (ParseHeader(bs).Accepted? <==>
                  named && bs[8] < 16 && bs[8] % 2 == 0 && forall i :: 9 <= i < 16 ==> bs[i] == 0)
            && (ParseHeader(bs).Compressed? <==> named && bs[8] % 2 == 1)
            && (HeaderPhysical(bs) <==> named && bs[8] / 8 % 2 == 1)
            && (ParseHeader(bs).Accepted? ==> ParseHeader(bs).physicalAddress == HeaderPhysical(bs))
  {
    hide Get32, Get64;
    if |bs| >= 16 {
      MagicIs(bs);
      OptionsAre(bs);
    }
  }

  lemma MagicIs(bs: seq<Byte>)
    requires |bs| >= 16
    ensures Get32(bs, 0) == MAGIC <==> bs[0] == 0x53 && bs[1] == 0x49 && bs[2] == 0x46 && bs[3] == 0x54
  {
    hide Get32;
    Get32Small(bs, 0);
  }

  /** The options are small if and only if all bytes but the lowest are 0; that one has the lowest bits. */
  lemma OptionsAre(bs: seq<Byte>)
    requires |bs| >= 16
    ensures Get64(bs, 8) < 16 <==> bs[8] < 16 && forall i :: 9 <= i < 16 ==> bs[i] == 0
    ensures Get64(bs, 8) % 2 == bs[8] % 2 && Get64(bs, 8) / 8 % 2 == bs[8] / 8 % 2
  {
    hide Get64, FromLE;
    Get64Low(bs, 8);
    HighOptions(bs);
    LowBits(bs[8], FromLE(bs[9..16]));
  }

  lemma HighOptions(bs: seq<Byte>)
    requires |bs| >= 16
    ensures FromLE(bs[9..16]) == 0 <==> forall i :: 9 <= i < 16 ==> bs[i] == 0
  {
    hide FromLE;
    var d := bs[9..16];
    ZeroField(d);
    assert forall i :: 9 <= i < 16 ==> bs[i] == d[i - 9];
    assert forall i :: 0 <= i < 7 ==> d[i] == bs[i + 9];
  }

  lemma LowBits(low: Byte, high: nat)
    ensures (low + 256 * high) % 2 == low % 2 && (low + 256 * high) / 8 % 2 == low / 8 % 2
  {
    var l: nat, x: nat := low, low + 256 * high;
    var h, e := l / 2, l / 8;
    UniqueRest(x, 2, 128 * high + h, l % 2);
    UniqueQuotient(x, 8, 32 * high + e, l % 8);
    UniqueRest(32 * high + e, 2, 16 * high + e / 2, e % 2);
  }

  /** The size that the reader insists on, for the kinds where it does. */
  function AssertedSize(kind: Byte): (n: Option<nat>)
  {
    if kind == 0 then Some(4104) else if kind == 14 then Some(16) else if kind == 24 then Some(18)
    else if kind == 17 then Some(25) else if kind == 25 then Some(4) else if kind == 255 then Some(0) else None
  }

  /** What becomes of a record by kind and size: asserts, requests, and records of unknown kinds, which are skipped. */
  lemma KindsExact(kind: Byte, d: seq<Byte>)
    ensures var p := ParseOther(kind, d);
            && (p == Violated <==> (AssertedSize(kind).Some? && |d| != AssertedSize(kind).value) || (kind == 1 && |d| <= 1))
            && (p == Elsewhere(kind) <==> kind in {2, 4, 8, 12, 15, 18, 19, 21, 23})
            && (p == Garbled <==> kind == 11 && |d| < 8)
            && (p == Ok(Skipped(kind, d), 6 + |d|) <==> kind !in {0, 1, 2, 4, 8, 11, 12, 14, 15, 17, 18, 19, 21, 23, 24, 25, 255})
  {
    hide Get32, Get64;
  }

  /** A record that is cut short is never taken for another one. */
  lemma Truncated(r: Record, n: nat)
    requires Encodable(r) && Readable(r) && n < |Encode(r)|
    ensures Parse(Encode(r)[..n]) == if n == 0 then Exhausted else Garbled
  {
    hide DecodeAddresses, EncodeAddresses, LE, Get32, Get64, FromLE;
    var bs := Encode(r)[..n];
    if n > 0 {
      if r.Simple? {
        FieldsOfSimple(r.size, |r.addresses|, r.isBranch, r.taken);
        assert bs[0] == PackSimple(r.size, |r.addresses|, r.isBranch, r.taken);
      } else if r.Extended? {
        TruncatedExtended(r, n);
      } else {
        TruncatedOther(KindAndPayload(r).0, KindAndPayload(r).1, n);
      }
    }
  }

  lemma TruncatedExtended(r: Record, n: nat)
    requires Encodable(r) && Readable(r) && r.Extended? && 0 < n < |Encode(r)|
    ensures Parse(Encode(r)[..n]) == Garbled
  {
    hide DecodeAddresses, EncodeAddresses, LE, FromLE;
    var bs := Encode(r)[..n];
    var flags := PackFlags(|r.addresses|, r.isBranch, r.taken, r.isPredicate, r.executed);
    FieldsOfFlags(|r.addresses|, r.isBranch, r.taken, r.isPredicate, r.executed);
    var all := Encode(r);
    assert all[0] == 16 * r.size && all[1] == flags;
    assert bs[0] == all[0];
    assert n > 1 ==> bs[1] == all[1];
  }

  lemma TruncatedOther(kind: Byte, payload: seq<Byte>, n: nat)
    requires |payload| < TWO32 && 0 < n < 6 + |payload|
    ensures Parse(EncodeOther(kind, payload)[..n]) == Garbled
  {
    hide LE, FromLE, ParseOther;
    var bs := EncodeOther(kind, payload)[..n];
    assert bs[0] == 0;
    if n >= 6 {
      var head := [0, kind] + LE(|payload|, 4);
      assert EncodeOther(kind, payload) == head + payload;
      assert bs[..6] == head;
      assert bs[2..6] == bs[..6][2..6] == head[2..6] == LE(|payload|, 4);
      Pow256Values();
      FromLEOfLE(|payload|, 4);
    }
  }

  /** How a call of the reader ends when there is nothing more to read. */
  lemma ReadsNothing(heap: Heap, st: R.State)
    ensures st.seenEnd ==> R.ReadNext(heap, st) == (R.Stale, st)
    ensures !st.seenEnd && st.rest == [] ==> R.ReadNext(heap, st) == (R.StreamError, st)
  {
  }

  /** And when the next record cannot be used: a failed assert ends the call, and so does a record that is cut short
      or has three addresses, where the source goes on with memory it has not set. */
  lemma ReadsBadRecord(heap: Heap, st: R.State, kind: Byte, d: seq<Byte>, rest: seq<Byte>)
    requires !st.seenEnd && |d| < TWO32 && st.rest == [0, kind] + LE(|d|, 4) + d + rest
    ensures (AssertedSize(kind).Some? && |d| != AssertedSize(kind).value) || (kind == 1 && |d| <= 1) ==>
              R.ReadNext(heap, st) == (R.Aborted, st)
    ensures kind in {2, 4, 8, 12, 15, 18, 19, 21, 23} ==> R.ReadNext(heap, st) == (R.Elsewhere(kind), st)
    ensures kind == 11 && |d| < 8 ==> R.ReadNext(heap, st) == (R.Undefined, st)
  {
    hide ParseOther, Parse, LE;
    ParseEncodedOther(kind, d, rest);
    assert st.rest == EncodeOther(kind, d) + rest;
    KindsExact(kind, d);
  }

  lemma ReadsCutRecord(heap: Heap, st: R.State, r: Record, n: nat)
    requires Encodable(r) && Readable(r) && 0 < n < |Encode(r)| && !st.seenEnd && st.rest == Encode(r)[..n]
    ensures R.ReadNext(heap, st) == (R.Undefined, st)
  {
    hide Parse, Encode;
    Truncated(r, n);
  }

  lemma ReadsThreeAddresses(heap: Heap, st: R.State, first: Byte, rest: seq<Byte>)
    requires !st.seenEnd && first % 16 != 0 && first / 16 % 4 == 3 && |rest| >= 24 && st.rest == [first] + rest
    ensures R.ReadNext(heap, st).0 == R.Undefined
  {
    hide DecodeAddresses;
    assert first != 0;
    assert Parse(st.rest) == ParseSimple(st.rest);
    assert Parse(st.rest).Ok? && |Parse(st.rest).rec.addresses| == 3;
  }

  // ---------------------------------------------------------------- messages

  /** The requests in bytes. */
  lemma RequestLayout(r: Request)
    requires ValidRequest(r)
    ensures S.EncodeRequest(r) ==
            match r
            case Syscall(number, data) => [0, 2] + LE(2 + |data|, 4) + LE(number, 2) + data
            case NewThread => [0, 4, 0, 0, 0, 0]
            case Join(thread) => [0, 8, 4, 0, 0, 0] + LE(thread, 4)
            case Sync => [0, 12, 0, 0, 0, 0]
            case Magic(a, b, c) => [0, 15, 24, 0, 0, 0] + LE(a, 8) + LE(b, 8) + LE(c, 8)
            case Emulate(kind, args) => [0, 19, 10, 0, 0, 0] + LE(kind, 2) + args
            case Fork => [0, 21, 0, 0, 0, 0]
            case InstructionCount(icount) => [0, 23, 4, 0, 0, 0] + LE(icount, 4)
  {
    hide LE;
    SmallField(0);
    SmallField(4);
    SmallField(24);
    SmallField(10);
  }

  /** The replies in bytes. */
  lemma ReplyLayout(r: Request, p: Reply)
    requires Fits(r, p)
    ensures EncodeOther(ReplyKind(r), ReplyPayload(p)) ==
            match r
            case Syscall(_, _) => [0, 3, 8, 0, 0, 0] + LE(p.code, 8)
            case Magic(_, _, _) => [0, 16, 8, 0, 0, 0] + LE(p.code, 8)
            case NewThread => [0, 5, 4, 0, 0, 0] + LE(p.value, 4)
            case Join(_) => [0, 9, 4, 0, 0, 0] + LE(p.value, 4)
            case Sync => [0, 13, 4, 0, 0, 0] + LE(p.value, 4)
            case InstructionCount(_) => [0, 13, 4, 0, 0, 0] + LE(p.value, 4)
            case Fork => [0, 22, 4, 0, 0, 0] + LE(p.value, 4)
            case Emulate(_, _) => [0, 20, 49, 0, 0, 0] + [p.result] + p.reply
  {
    hide LE;
    SmallField(4);
    SmallField(8);
    SmallField(49);
  }

  /** Memory requests and their answers in bytes. */
  lemma AccessLayout(op: MemOp, bytes: seq<Byte>)
    ensures EncodeOther(MEMORY_REQUEST, OpPayload(op)) ==
            match op
            case Load(addr, size, lock) => [0, 6, 20, 0, 0, 0] + LE(addr, 8) + LE(size, 4) + LE(lock, 4) + [1, 0, 0, 0]
            case Store(addr, data, lock) =>
              [0, 6] + LE(20 + |data|, 4) + LE(addr, 8) + LE(|data|, 4) + LE(lock, 4) + [2, 0, 0, 0] + data
    ensures EncodeOther(MEMORY_RESPONSE, AnswerPayload(op, bytes)) ==
            [0, 7] + LE(12 + |bytes|, 4) + LE(op.addr, 8) + [if op.Load? then 1 else 2, 0, 0, 0] + bytes
  {
    hide LE, EncodeOther, OpPayload, AnswerPayload;
    LoadLayout(op);
    StoreLayout(op);
    AnswerLayout(op, bytes);
  }

  lemma LoadLayout(op: MemOp)
    ensures op.Load? ==>
              EncodeOther(MEMORY_REQUEST, OpPayload(op)) == [0, 6, 20, 0, 0, 0] + LE(op.addr, 8) + LE(op.size, 4) + LE(op.lock, 4) + [1, 0, 0, 0]
  {
    hide LE;
    SmallField(20);
    SmallField(1);
  }

  lemma StoreLayout(op: MemOp)
    ensures op.Store? ==>
              EncodeOther(MEMORY_REQUEST, OpPayload(op)) ==
              [0, 6] + LE(20 + |op.data|, 4) + LE(op.addr, 8) + LE(|op.data|, 4) + LE(op.lock, 4) + [2, 0, 0, 0] + op.data
  {
    hide LE;
    SmallField(2);
  }

  lemma AnswerLayout(op: MemOp, bytes: seq<Byte>)
    ensures EncodeOther(MEMORY_RESPONSE, AnswerPayload(op, bytes)) ==
            [0, 7] + LE(12 + |bytes|, 4) + LE(op.addr, 8) + [if op.Load? then 1 else 2, 0, 0, 0] + bytes
  {
    hide LE, EncodeOther;
    AnswerOfKind(op.addr, if op.Load? then MEM_READ else MEM_WRITE, bytes);
  }

  lemma AnswerOfKind(addr: Word64, kind: Byte, bytes: seq<Byte>)
    ensures EncodeOther(7, LE(addr, 8) + LE(kind, 4) + bytes) == [0, 7] + LE(12 + |bytes|, 4) + LE(addr, 8) + [kind, 0, 0, 0] + bytes
  {
    hide LE;
    SmallField(kind);
    var head, a, k := [0, 7] + LE(12 + |bytes|, 4), LE(addr, 8), LE(kind, 4);
    assert |a + k + bytes| == 12 + |bytes|;
    assert head + (a + k + bytes) == head + a + k + bytes;
  }

  /** Which requests the back end accepts, by kind and size. */
  lemma RequestExact(kind: Byte, d: seq<Byte>)
    ensures ParseRequest(kind, d).Some? <==>
            || (kind == 2 && |d| > 2)
            || (kind in {4, 12, 21} && |d| == 0)
            || (kind in {8, 23} && |d| == 4)
            || (kind == 15 && |d| == 24)
            || (kind == 19 && |d| == 10)
  {
    hide Get16, Get32, Get64;
  }

  /** Which replies a waiting call accepts, by kind and size. */
  lemma ReplyExact(r: Request, kind: Byte, d: seq<Byte>)
    ensures ParseReply(r, kind, d).Some? <==>
            match r
            case Syscall(_, _) => kind == 3 && |d| == 8
            case Magic(_, _, _) => kind == 16 && |d| == 8
            case NewThread => kind == 5 && |d| == 4
            case Join(_) => kind == 9 && |d| == 4
            case Sync => kind == 13 && |d| == 4
            case InstructionCount(_) => kind == 13 && |d| == 4
            case Fork => kind == 22 && |d| == 4
            case Emulate(_, _) => kind == 20 && 1 <= |d| <= 49
  {
    hide Get32, Get64;
  }

  /** Which memory requests the front end serves: a read without data of at least one byte, a write with exactly the
      bytes it announces. */
  lemma OpExact(d: seq<Byte>)
    ensures ParseOp(d).Some? <==>
            |d| >= 20 && ((Get32(d, 16) == 1 && |d| == 20 && Get32(d, 8) > 0) || (Get32(d, 16) == 2 && |d| > 20 && Get32(d, 8) == |d| - 20))
  {
    hide Get32, Get64;
  }

  /** Which answers the back end accepts. */
  lemma AnswerExact(op: MemOp, kind: Byte, size: nat, d: seq<Byte>)
    requires |d| == 12 + if op.Load? then op.size else 0
    ensures ParseAnswer(op, kind, size, d).Some? <==>
            kind == 7 && Get64(d, 0) == op.addr && (size - 12) % 0x1_0000_0000 == if op.Load? then op.size else 0
  {
    hide Get64;
    assert (size + TWO32 - 12) % TWO32 == (size - 12) % TWO32;
  }

  /** What a waiting front end makes of the head of a record: its reply, a memory request if the call serves them, or
      an error. */
  lemma WaitExact(s: S.State)
    requires s.front.AwaitHead? && |s.toFront.here| >= 6
    ensures var r, zero, kind := s.front.req, s.toFront.here[0], s.toFront.here[1];
            var own := match r
                       case Syscall(_, _) => 3 case NewThread => 5 case Join(_) => 9 case Sync => 13
                       case InstructionCount(_) => 13 case Magic(_, _, _) => 16 case Emulate(_, _) => 20 case Fork => 22;
            var front := S.Next(s, S.FrontHead).value.front;
            && S.Next(s, S.FrontHead).Some?
            && (front.AwaitBody? <==> zero == 0 && (kind == own || (kind == 6 && (r.Syscall? || r.Sync? || r.Magic? || r.Emulate?))))
            && (!front.AwaitBody? ==> front == S.FrontError)
            && (front.AwaitBody? ==> front.req == r && front.kind == kind && front.size == Get32(s.toFront.here, 2))
  {
    hide Get32, S.Drop;
  }

  // ---------------------------------------------------------------- the order of records

  /** Code comes first, then mappings, then the record of the call itself. */
  function Rank(r: Record): (n: nat)
  {
    if r.IcachePage? || r.IcacheVariable? then 0 else if r.Logical2Physical? then 1 else 2
  }

  ghost predicate Ranked(rs: seq<Record>)
  {
    forall i, j :: 0 <= i < j < |rs| ==> Rank(rs[i]) <= Rank(rs[j])
  }

  ghost predicate AllOf(rs: seq<Record>, rank: nat)
  {
    forall i :: 0 <= i < |rs| ==> Rank(rs[i]) == rank
  }

  lemma RankedParts(a: seq<Record>, b: seq<Record>, c: seq<Record>)
    requires AllOf(a, 0) && AllOf(b, 1) && AllOf(c, 2)
    ensures Ranked(a + b + c)
  {
    var all := a + b + c;
    forall i, j | 0 <= i < j < |all|
      ensures Rank(all[i]) <= Rank(all[j])
    {
      assert all[i] == if i < |a| then a[i] else if i < |a| + |b| then b[i - |a|] else c[i - |a| - |b|];
      assert all[j] == if j < |a| then a[j] else if j < |a| + |b| then b[j - |a|] else c[j - |a| - |b|];
    }
  }

  lemma {:induction false} PagesAreCode(code: W.Code, sent: set<Word64>, base: Word64, last: Word64)
    requires last < TWO64 - PAGE
    ensures AllOf(W.PageRecords(code, sent, base, last).0, 0)
    decreases last + PAGE - base
  {
    hide W.CodeBytes;
    if base <= last {
      PagesAreCode(code, if base in sent then sent else sent + {base}, base + PAGE, last);
    }
  }

  lemma {:induction false} MappingsAre(mode: W.Mode, lookup: W.Lookup, sent: set<Word64>, vas: seq<Word64>)
    ensures AllOf(W.MappingRecords(mode, lookup, sent, vas).0, 1)
    decreases |vas|
  {
    if vas != [] {
      var vp := vas[0] / PAGE;
      MappingsAre(mode, lookup, if mode.mapping && vp !in sent && lookup(vp) != 0 then sent + {vp} else sent, vas[1..]);
    }
  }

  /** Records of a call: code, mappings and, at the end, its own. */
  ghost predicate InOrder(recs: seq<Record>)
  {
    Ranked(recs) && recs != [] && Rank(recs[|recs| - 1]) == 2 && forall i :: 0 <= i < |recs| - 1 ==> Rank(recs[i]) < 2
  }

  lemma PartsInOrder(a: seq<Record>, b: seq<Record>, rec: Record)
    requires AllOf(a, 0) && AllOf(b, 1) && Rank(rec) == 2
    ensures InOrder(a + b + [rec])
  {
    RankedParts(a, b, [rec]);
    var all := a + b + [rec];
    forall i | 0 <= i < |all| - 1
      ensures Rank(all[i]) < 2
    {
      assert all[i] == if i < |a| then a[i] else b[i - |a|];
    }
  }

  /** Every call writes its code, its mappings and then its own record, which is always there; a system call sends
      mappings only, in front of its request. */
  lemma RecordsInOrder(mode: W.Mode, code: W.Code, lookup: W.Lookup, st: W.State, c: W.Call)
    requires W.Accepts(mode, c)
    ensures var recs := W.Write(mode, code, lookup, st, c).0;
            if c.SyscallPages? then AllOf(recs, 1) else InOrder(recs)
  {
    hide W.CodeRecords, W.MappingRecords, W.InsnRecord, InOrder, AllOf;
    match c
    case Instruction(i) =>
      CodeIsCode(mode, code, st.icache, i.addr, i.size);
      MappingsAre(mode, lookup, st.va2pa, [i.addr] + i.addresses);
      InsnIsOwn(st.lastAddress, i);
      PartsInOrder(W.CodeRecords(mode, code, st.icache, i.addr, i.size).0,
                   W.MappingRecords(mode, lookup, st.va2pa, [i.addr] + i.addresses).0, W.InsnRecord(st.lastAddress, i));
    case CacheOnly(icount, kind, eip, address) =>
      MappingsAre(mode, lookup, st.va2pa, [eip, address]);
      OwnAfter(W.MappingRecords(mode, lookup, st.va2pa, [eip, address]).0, CacheOnly(icount, kind, eip, address));
    case SyscallPages(number, data) => MappingsAre(mode, lookup, st.va2pa, W.SyscallAddresses(number, data));
    case Output(fd, data) => OnlyOwn(Output(fd, data));
    case RoutineChange(event, eip, esp, callEip) => OnlyOwn(RoutineChange(event, eip, esp, callEip));
    case IsaChange(isa) => OnlyOwn(IsaChange(isa));
  }

  lemma OwnAfter(maps: seq<Record>, rec: Record)
    requires AllOf(maps, 1) && Rank(rec) == 2
    ensures InOrder(maps + [rec])
  {
    PartsInOrder([], maps, rec);
    assert [] + maps + [rec] == maps + [rec];
  }

  lemma OnlyOwn(rec: Record)
    requires Rank(rec) == 2
    ensures InOrder([rec])
  {
    OwnAfter([], rec);
    assert [] + [rec] == [rec];
  }

  lemma CodeIsCode(mode: W.Mode, code: W.Code, sent: set<Word64>, addr: Word64, size: nat)
    requires size < 16 && (!mode.perInsn ==> W.EndPage(addr, size) < TWO64 - PAGE)
    ensures AllOf(W.CodeRecords(mode, code, sent, addr, size).0, 0)
  {
    hide W.PageRecords, W.CodeBytes;
    if !mode.perInsn {
      PagesAreCode(code, sent, PageBase(addr), W.EndPage(addr, size));
    }
  }

  lemma InsnIsOwn(last: Word64, i: W.Insn)
    requires i.size < 16 && |i.addresses| <= MAX_DYNAMIC_ADDRESSES
    ensures Rank(W.InsnRecord(last, i)) == 2
  {
  }

  /** Where a page is first used. */
  function FirstUse(vas: seq<Word64>, vp: Word64): (k: nat)
  {
    if vas == [] then 0 else if vas[0] / PAGE == vp then 0 else 1 + FirstUse(vas[1..], vp)
  }

  /** Mappings are sent in the order in which the addresses use the pages. */
  lemma {:induction false} MappingsInOrder(mode: W.Mode, lookup: W.Lookup, sent: set<Word64>, vas: seq<Word64>, i: nat, j: nat)
    requires i < j < |W.MappingRecords(mode, lookup, sent, vas).0|
    ensures var rs := W.MappingRecords(mode, lookup, sent, vas).0;
            rs[i].Logical2Physical? && rs[j].Logical2Physical? && FirstUse(vas, rs[i].vp) < FirstUse(vas, rs[j].vp)
    decreases |vas|
  {
    var vp := vas[0] / PAGE;
    MappingsAre(mode, lookup, sent, vas);
    if mode.mapping && vp !in sent && lookup(vp) != 0 {
      var rest := W.MappingRecords(mode, lookup, sent + {vp}, vas[1..]).0;
      NotAgain(mode, lookup, sent + {vp}, vas[1..], j - 1);
      if i > 0 {
        MappingsInOrder(mode, lookup, sent + {vp}, vas[1..], i - 1, j - 1);
        NotAgain(mode, lookup, sent + {vp}, vas[1..], i - 1);
      }
    } else {
      MappingsInOrder(mode, lookup, sent, vas[1..], i, j);
      NotAgain(mode, lookup, sent, vas[1..], i);
      NotAgain(mode, lookup, sent, vas[1..], j);
    }
  }

  /** A page that has been sent is not sent again, and an unmapped one not at all. */
  lemma {:induction false} NotAgain(mode: W.Mode, lookup: W.Lookup, sent: set<Word64>, vas: seq<Word64>, i: nat)
    requires i < |W.MappingRecords(mode, lookup, sent, vas).0|
    ensures var r := W.MappingRecords(mode, lookup, sent, vas).0[i];
            mode.mapping && r.Logical2Physical? && r.vp !in sent && r.pp == lookup(r.vp) != 0
    decreases |vas|
  {
    var vp := vas[0] / PAGE;
    if mode.mapping && vp !in sent && lookup(vp) != 0 {
      if i > 0 {
        NotAgain(mode, lookup, sent + {vp}, vas[1..], i - 1);
      }
    } else {
      NotAgain(mode, lookup, sent, vas[1..], i);
    }
  }

  lemma PastCode(a: seq<Record>, b: seq<Record>, i: nat)
    requires AllOf(a, 0) && i < |a + b| && Rank((a + b)[i]) == 1
    ensures i >= |a|
  {
    assert forall k :: 0 <= k < |a| ==> (a + b)[k] == a[k];
  }

  /** The pages of an instruction are those of its own address and then of its operands; a cache-only record uses the
      page of the instruction first. */
  lemma CallMappings(mode: W.Mode, code: W.Code, lookup: W.Lookup, st: W.State, c: W.Call, i: nat, j: nat)
    requires W.Accepts(mode, c) && (c.Instruction? || c.CacheOnly?)
    requires var recs := W.Write(mode, code, lookup, st, c).0; i < j < |recs| && recs[i].Logical2Physical? && recs[j].Logical2Physical?
    ensures var recs := W.Write(mode, code, lookup, st, c).0;
            var vas := if c.Instruction? then [c.insn.addr] + c.insn.addresses else [c.eip, c.address];
            FirstUse(vas, recs[i].vp) < FirstUse(vas, recs[j].vp)
  {
    hide W.PageRecords, W.MappingRecords, W.CodeBytes, FirstUse;
    var recs := W.Write(mode, code, lookup, st, c).0;
    if c.Instruction? {
      var vas := [c.insn.addr] + c.insn.addresses;
      var codeRecs := W.CodeRecords(mode, code, st.icache, c.insn.addr, c.insn.size).0;
      CodeIsCode(mode, code, st.icache, c.insn.addr, c.insn.size);
      var n := |codeRecs|;
      var others := W.MappingRecords(mode, lookup, st.va2pa, vas).0 + [W.InsnRecord(st.lastAddress, c.insn)];
      assert recs == codeRecs + others;
      PastCode(codeRecs, others, i);
      PastCode(codeRecs, others, j);
      MappingsInOrder(mode, lookup, st.va2pa, vas, i - n, j - n);
    } else {
      MappingsInOrder(mode, lookup, st.va2pa, [c.eip, c.address], i, j);
    }
  }

  // ---------------------------------------------------------------- next pointers

  /** The pointers after looking up some addresses, one after the other. */
  function Linked(addrs: seq<Word64>): (c: R.Statics)
    decreases |addrs|
  {
    if addrs == [] then R.Statics(map[], map[], None) else R.Link(Linked(addrs[..|addrs| - 1]), addrs[|addrs| - 1])
  }

  /** The first position of an address. */
  function FirstAt(addrs: seq<Word64>, a: Word64): (k: nat)
    requires a in addrs
    ensures k < |addrs| && addrs[k] == a && forall i :: 0 <= i < k ==> addrs[i] != a
  {
    if addrs[0] == a then 0
    else
      var k := 1 + FirstAt(addrs[1..], a);
      assert forall i :: 1 <= i < k ==> addrs[i] == addrs[1..][i - 1];
      k
  }

  /** A next pointer goes to the address that followed when its instruction was looked up for the first time. */
  lemma {:induction false} NextIsFirst(addrs: seq<Word64>, a: Word64)
    ensures var c := Linked(addrs);
            && c.last == (if addrs == [] then None else Some(addrs[|addrs| - 1]))
            && (a in c.next <==> a in addrs && FirstAt(addrs, a) + 1 < |addrs|)
            && (a in c.next ==> c.next[a] == addrs[FirstAt(addrs, a) + 1])
    decreases |addrs|
  {
    hide FirstAt;
    if addrs != [] {
      var n := |addrs| - 1;
      var before, x := addrs[..n], addrs[n];
      NextIsFirst(before, a);
      assert addrs == before + [x];
      FirstSnoc(before, x, a);
    }
  }

  /** One more address at the end. */
  lemma FirstSnoc(before: seq<Word64>, x: Word64, a: Word64)
    ensures a in before + [x] <==> a in before || a == x
    ensures a in before ==> FirstAt(before + [x], a) == FirstAt(before, a)
    ensures a == x && a !in before ==> FirstAt(before + [x], a) == |before|
  {
    hide FirstAt;
    var all := before + [x];
    assert all[|before|] == x;
    assert forall i :: 0 <= i < |before| ==> all[i] == before[i];
  }

  /** Every lookup that succeeds links, whichever branch it takes. */
  lemma LookupLinks(im: Image, c: R.Statics, addr: Word64, size: nat)
    requires R.GetStatic(im, c, addr, size).Some?
    ensures var c' := R.GetStatic(im, c, addr, size).value.1; c'.next == R.Link(c, addr).next && c'.last == Some(addr)
  {
  }
}
