/** The trace writer: what each call appends to the stream and how it changes the writer. */
module SiftWriter {
  import opened SiftFormat
  import P = SiftProtocol

  /** The code memory of the traced program. */
  type Code = Word64 -> Byte

  /** `va2pa_lookup` at the time of a call: page number to frame number, 0 when not mapped. */
  type Lookup = Word64 -> Word64

  datatype Insn = Insn(addr: Word64, size: nat, addresses: seq<Word64>,
                       isBranch: bool, taken: bool, isPredicate: bool, executed: bool)

  datatype Call =
    | Instruction(insn: Insn)
    | CacheOnly(icount: Byte, kind: Byte, eip: Word64, address: Word64)
    | Output(fd: Byte, data: seq<Byte>)
    | RoutineChange(event: Byte, eip: Word64, esp: Word64, callEip: Word64)
    | IsaChange(isa: Word32)
    | SyscallPages(number: Word16, data: seq<Byte>)   // what Syscall sends before its request

  datatype Mode = Mode(perInsn: bool, mapping: bool)

  datatype State = State(lastAddress: Word64, icache: set<Word64>, va2pa: set<Word64>)

  const INITIAL := State(0, {}, {})

  function CodeBytes(code: Code, addr: Word64, n: nat): (bs: seq<Byte>)
    ensures |bs| == n
  {
    seq<Byte>(n, k requires 0 <= k < n => code(Add64(addr, k)))
  }

  /** `(addr + size - 1) & ICACHE_PAGE_MASK` in 64-bit arithmetic */
  function EndPage(addr: Word64, size: nat): (p: Word64)
    ensures p % PAGE == 0
  {
    PageBase((addr + size + TWO64 - 1) % TWO64)
  }

  /** The 64-bit variable of the page loop after n rounds. */
  function BaseAfter(addr: Word64, n: nat): (base: Word64)
    ensures base % PAGE == 0
  {
    if n == 0 then PageBase(addr) else Add64(BaseAfter(addr, n - 1), PAGE)
  }

  /** The loop condition fails after some number of rounds. */
  ghost predicate LoopEnds(addr: Word64, size: nat)
  {
    exists n: nat :: BaseAfter(addr, n) > EndPage(addr, size)
  }

  lemma {:induction false} BaseClimbs(addr: Word64, n: nat)
    requires PageBase(addr) + n * PAGE < TWO64
    ensures BaseAfter(addr, n) == PageBase(addr) + n * PAGE
  {
    if n > 0 {
      BaseClimbs(addr, n - 1);
    }
  }

  /** The page loop ends if and only if the last byte does not lie in the last page of the address space:
      beyond that page the loop variable wraps around to 0. */
  lemma PageLoopEnds(addr: Word64, size: nat)
    ensures LoopEnds(addr, size) <==> EndPage(addr, size) < TWO64 - PAGE
  {
    if EndPage(addr, size) < TWO64 - PAGE {
      var n := (TWO64 - PAGE - PageBase(addr)) / PAGE;
      BaseClimbs(addr, n);
      assert BaseAfter(addr, n) > EndPage(addr, size);
    } else {
      forall n: nat
        ensures BaseAfter(addr, n) <= EndPage(addr, size)
      {
        assert BaseAfter(addr, n) % PAGE == 0;
      }
    }
  }

  /** What the writer demands of its callers: in page mode, exactly the instructions for which the page
      loop ends (`PageLoopEnds`). */
  predicate Accepts(mode: Mode, c: Call)
  {
    match c
    case Instruction(i) =>
      && i.size < 16 && |i.addresses| <= MAX_DYNAMIC_ADDRESSES
      && (!mode.perInsn ==> EndPage(i.addr, i.size) < TWO64 - PAGE)
    case Output(_, data) => |data| < TWO32
    case SyscallPages(number, data) => |data| < TWO32 && |data| >= ArgumentBytes(number)
    case _ => true
  }

  // Linux on x86-64, with arguments of 8 bytes.
  const SYS_WRITE: Word16 := 1
  const SYS_FUTEX: Word16 := 202

  /** How much of its argument array `Syscall` looks at. */
  function ArgumentBytes(number: Word16): (n: nat)
  {
    if number == SYS_FUTEX then 8 else if number == SYS_WRITE then 16 else 0
  }

  /** The addresses among the arguments whose mapping is sent: the first of futex, the second of write. */
  function SyscallAddresses(number: Word16, data: seq<Byte>): (vas: seq<Word64>)
    requires |data| >= ArgumentBytes(number)
  {
    if number == SYS_FUTEX then [Get64(data, 0)] else if number == SYS_WRITE then [Get64(data, 8)] else []
  }

  // ---------------------------------------------------------------- what one call writes

  function PageRecords(code: Code, sent: set<Word64>, base: Word64, last: Word64): (r: (seq<Wire>, set<Word64>))
    requires last < TWO64 - PAGE
    decreases last + PAGE - base
  {
    if base > last then ([], sent)
    else if base in sent then PageRecords(code, sent, base + PAGE, last)
    else
      var (rest, s) := PageRecords(code, sent + {base}, base + PAGE, last);
      ([IcachePage(base, CodeBytes(code, base, PAGE))] + rest, s)
  }

  function CodeRecords(mode: Mode, code: Code, sent: set<Word64>, addr: Word64, size: nat): (r: (seq<Wire>, set<Word64>))
    requires size < 16 && (!mode.perInsn ==> EndPage(addr, size) < TWO64 - PAGE)
  {
    if !mode.perInsn then PageRecords(code, sent, PageBase(addr), EndPage(addr, size))
    else if addr in sent then ([], sent)
    else ([IcacheVariable(addr, CodeBytes(code, addr, size))], sent + {addr})
  }

  function MappingRecords(mode: Mode, lookup: Lookup, sent: set<Word64>, vas: seq<Word64>): (r: (seq<Wire>, set<Word64>))
    decreases |vas|
  {
    if vas == [] then ([], sent)
    else
      var vp := vas[0] / PAGE;
      if mode.mapping && vp !in sent && lookup(vp) != 0 then
        var (rest, s) := MappingRecords(mode, lookup, sent + {vp}, vas[1..]);
        ([Logical2Physical(vp, lookup(vp))] + rest, s)
      else MappingRecords(mode, lookup, sent, vas[1..])
  }

  function InsnRecord(lastAddress: Word64, i: Insn): (r: Wire)
    requires i.size < 16 && |i.addresses| <= MAX_DYNAMIC_ADDRESSES
  {
    if i.addr == lastAddress && !i.isPredicate then Simple(i.size, i.isBranch, i.taken, i.addresses)
    else Extended(i.size, i.isBranch, i.taken, i.isPredicate, i.executed, i.addr, i.addresses)
  }

  function Write(mode: Mode, code: Code, lookup: Lookup, st: State, c: Call): (r: (seq<Wire>, State))
    requires Accepts(mode, c)
  {
    match c
    case Instruction(i) =>
      var (codeRecs, icache) := CodeRecords(mode, code, st.icache, i.addr, i.size);
      var (mapRecs, va2pa) := MappingRecords(mode, lookup, st.va2pa, [i.addr] + i.addresses);
      (codeRecs + mapRecs + [InsnRecord(st.lastAddress, i)], State(Add64(i.addr, i.size), icache, va2pa))
    case CacheOnly(icount, kind, eip, address) =>
      var (mapRecs, va2pa) := MappingRecords(mode, lookup, st.va2pa, [eip, address]);
      (mapRecs + [Record.CacheOnly(icount, kind, eip, address)], st.(va2pa := va2pa))
    case Output(fd, data) => ([Record.Output(fd, data)], st)
    case RoutineChange(event, eip, esp, callEip) => ([Record.RoutineChange(event, eip, esp, callEip)], st)
    case IsaChange(isa) => ([Record.IsaChange(isa)], st)
    case SyscallPages(number, data) =>
      var (mapRecs, va2pa) := MappingRecords(mode, lookup, st.va2pa, SyscallAddresses(number, data));
      (mapRecs, st.(va2pa := va2pa))
  }

  // ---------------------------------------------------------------- what an instruction costs

  /** The code of an instruction has been sent: the instruction itself, or all pages it lies in. */
  ghost predicate CodeKnown(mode: Mode, sent: set<Word64>, addr: Word64, size: nat)
  {
    if mode.perInsn then addr in sent
    else forall p: Word64 :: p % PAGE == 0 && addr - addr % PAGE <= p <= (addr + size + TWO64 - 1) % TWO64 ==> p in sent
  }

  /** No mapping of these addresses is left to be sent. */
  ghost predicate PagesKnown(mode: Mode, lookup: Lookup, sent: set<Word64>, vas: seq<Word64>)
  {
    mode.mapping ==> forall va <- vas :: va / PAGE in sent || lookup(va / PAGE) == 0
  }

  lemma {:induction false} NoPageLeft(code: Code, sent: set<Word64>, base: Word64, last: Word64)
    requires last < TWO64 - PAGE && base % PAGE == 0 && last % PAGE == 0
    requires forall p: Word64 :: p % PAGE == 0 && base <= p <= last ==> p in sent
    ensures PageRecords(code, sent, base, last) == ([], sent)
    decreases last + PAGE - base
  {
    if base <= last {
      NoPageLeft(code, sent, base + PAGE, last);
    }
  }

  lemma {:induction false} NoMappingLeft(mode: Mode, lookup: Lookup, sent: set<Word64>, vas: seq<Word64>)
    requires PagesKnown(mode, lookup, sent, vas)
    ensures MappingRecords(mode, lookup, sent, vas) == ([], sent)
    decreases |vas|
  {
    if vas != [] {
      assert vas[0] in vas && forall va <- vas[1..] :: va in vas;
      NoMappingLeft(mode, lookup, sent, vas[1..]);
    }
  }

  lemma NoCodeLeft(mode: Mode, code: Code, sent: set<Word64>, addr: Word64, size: nat)
    requires size < 16 && (!mode.perInsn ==> EndPage(addr, size) < TWO64 - PAGE) && CodeKnown(mode, sent, addr, size)
    ensures CodeRecords(mode, code, sent, addr, size) == ([], sent)
  {
    hide PageRecords;
    if !mode.perInsn {
      NoPageLeft(code, sent, PageBase(addr), EndPage(addr, size));
    }
  }

  /** Once code and pages are known, an instruction at the running address that is not predicated takes one byte and
      its addresses, with size, number of addresses and branch flags in that byte; any other takes ten. */
  lemma InsnBytes(mode: Mode, code: Code, lookup: Lookup, st: State, i: Insn)
    requires Accepts(mode, Instruction(i)) && CodeKnown(mode, st.icache, i.addr, i.size)
    requires PagesKnown(mode, lookup, st.va2pa, [i.addr] + i.addresses)
    ensures var (recs, st') := Write(mode, code, lookup, st, Instruction(i));
            var bs, n := EncodeAll(recs), |i.addresses|;
            && st' == State((i.addr + i.size) % TWO64, st.icache, st.va2pa)
            && (if i.addr == st.lastAddress && !i.isPredicate
                then bs == [i.size + 16 * n + (if i.isBranch then 64 else 0) + (if i.taken then 128 else 0)] + EncodeAddresses(i.addresses)
                else bs == [16 * i.size, n + (if i.isBranch then 4 else 0) + (if i.taken then 8 else 0) + (if i.isPredicate then 16 else 0)
                                         + (if i.executed then 32 else 0)] + LE(i.addr, 8) + EncodeAddresses(i.addresses))
            && |bs| == 8 * n + if i.addr == st.lastAddress && !i.isPredicate then 1 else 10
  {
    hide CodeRecords, MappingRecords, LE, EncodeAddresses;
    NoCodeLeft(mode, code, st.icache, i.addr, i.size);
    NoMappingLeft(mode, lookup, st.va2pa, [i.addr] + i.addresses);
    var rec := InsnRecord(st.lastAddress, i);
    Layout(rec);
    FlatSnoc<Wire>(EncodeWire, [], rec);
    assert [] + [rec] == [rec];
    assert [] + [] + [rec] == [rec];
  }

  // ---------------------------------------------------------------- the writer object

  class Writer {
    const mode: Mode
    const code: Code
    var isOpen: bool
    var output: seq<Byte>
    var lastAddress: Word64
    var icache: set<Word64>
    var va2pa: set<Word64>

    ghost function Abs(): (s: State)
      reads this
    {
      State(lastAddress, icache, va2pa)
    }

    /** What a call does to the writer: nothing once it is closed, else `Write`. */
    twostate predicate Did(lookup: Lookup, c: Call)
      requires Accepts(mode, c)
      reads this
    {
      && isOpen == old(isOpen)
      && (old(isOpen) ==>
            var (recs, st) := Write(mode, code, lookup, old(Abs()), c);
            output == old(output) + EncodeAll(recs) && Abs() == st)
      && (!old(isOpen) ==> output == old(output) && Abs() == old(Abs()))
    }

    constructor (mode: Mode, code: Code, arch32: bool)
      ensures this.mode == mode && this.code == code && isOpen
      ensures output == EncodeHeader(Options(arch32, mode.perInsn, mode.mapping))
      ensures Abs() == INITIAL
    {
      this.mode, this.code, isOpen := mode, code, true;
      output := EncodeHeader(Options(arch32, mode.perInsn, mode.mapping));
      lastAddress, icache, va2pa := 0, {}, {};
    }

    method Emit(r: Wire, ghost before: seq<Byte>, ghost done: seq<Wire>)
      requires output == before + EncodeAll(done)
      modifies `output
      ensures output == before + EncodeAll(done + [r])
    {
      hide EncodeWire, Flat;
      FlatSnoc<Wire>(EncodeWire, done, r);
      output := output + EncodeWire(r);
    }

    method EmitOnly(r: Wire)
      modifies `output
      ensures output == old(output) + EncodeAll([r])
    {
      assert [] + [r] == [r];
      Emit(r, output, []);
    }

    /** One round of the page loop. */
    lemma PageRound(sent: set<Word64>, base: Word64, last: Word64)
      requires base <= last < TWO64 - PAGE && base % PAGE == 0 && last % PAGE == 0
      ensures base + PAGE <= TWO64 - PAGE && Add64(base, PAGE) == base + PAGE
      ensures PageRecords(code, sent, base, last) ==
              if base in sent then PageRecords(code, sent, base + PAGE, last)
              else
                var (rest, s) := PageRecords(code, sent + {base}, base + PAGE, last);
                ([IcachePage(base, CodeBytes(code, base, PAGE))] + rest, s)
    {
      hide CodeBytes;
    }

    method SendPages(addr: Word64, size: nat)
      requires size < 16 && EndPage(addr, size) < TWO64 - PAGE
      modifies `output, `icache
      ensures var (recs, sent) := PageRecords(code, old(icache), PageBase(addr), EndPage(addr, size));
              output == old(output) + EncodeAll(recs) && icache == sent
    {
      hide EndPage, CodeBytes, PageRecords, PageBase, Add64;
      assert EncodeAll([]) == [];
      var base := PageBase(addr);
      var last := EndPage(addr, size);
      ghost var all := PageRecords(code, icache, base, last);
      ghost var done: seq<Wire> := [];
      assert done + all.0 == all.0;
      while base <= last
        invariant output == old(output) + EncodeAll(done)
        invariant base % PAGE == 0 && base <= TWO64 - PAGE
        invariant var (rest, sent) := PageRecords(code, icache, base, last);
                  all == (done + rest, sent)
        decreases last + PAGE - base
      {
        PageRound(icache, base, last);
        if base !in icache {
          var rec := IcachePage(base, CodeBytes(code, base, PAGE));
          ghost var rest := PageRecords(code, icache + {base}, base + PAGE, last).0;
          Emit(rec, old(output), done);
          assert done + ([rec] + rest) == (done + [rec]) + rest;
          done := done + [rec];
          icache := icache + {base};
        }
        base := Add64(base, PAGE);
      }
      NoPages(icache, base, last);
      assert done + [] == done;
    }

    lemma NoPages(sent: set<Word64>, base: Word64, last: Word64)
      requires last < TWO64 - PAGE && base > last
      ensures PageRecords(code, sent, base, last) == ([], sent)
    {
    }

    method SendMappings(lookup: Lookup, vas: seq<Word64>)
      modifies `output, `va2pa
      ensures var (recs, sent) := MappingRecords(mode, lookup, old(va2pa), vas);
              output == old(output) + EncodeAll(recs) && va2pa == sent
    {
      hide MappingRecords;
      assert EncodeAll([]) == [];
      ghost var all := MappingRecords(mode, lookup, va2pa, vas);
      ghost var done: seq<Wire> := [];
      assert vas[0..] == vas && done + all.0 == all.0;
      for i := 0 to |vas|
        invariant output == old(output) + EncodeAll(done)
        invariant var (rest, sent) := MappingRecords(mode, lookup, va2pa, vas[i..]);
                  all == (done + rest, sent)
      {
        MapRound(lookup, va2pa, vas, i);
        var vp := vas[i] / PAGE;
        if mode.mapping && vp !in va2pa {
          var pp := lookup(vp);
          if pp != 0 {
            var rec := Logical2Physical(vp, pp);
            ghost var rest := MappingRecords(mode, lookup, va2pa + {vp}, vas[i + 1..]).0;
            Emit(rec, old(output), done);
            assert done + ([rec] + rest) == (done + [rec]) + rest;
            done := done + [rec];
            va2pa := va2pa + {vp};
          }
        }
      }
      NoAddresses(lookup, va2pa, vas);
      assert done + [] == done;
    }

    /** One round of the loop over addresses. */
    lemma MapRound(lookup: Lookup, sent: set<Word64>, vas: seq<Word64>, i: nat)
      requires i < |vas|
      ensures var vp := vas[i] / PAGE;
              MappingRecords(mode, lookup, sent, vas[i..]) ==
              if mode.mapping && vp !in sent && lookup(vp) != 0 then
                var (rest, s) := MappingRecords(mode, lookup, sent + {vp}, vas[i + 1..]);
                ([Logical2Physical(vp, lookup(vp))] + rest, s)
              else MappingRecords(mode, lookup, sent, vas[i + 1..])
    {
      assert vas[i..][0] == vas[i] && vas[i..][1..] == vas[i + 1..];
    }

    lemma NoAddresses(lookup: Lookup, sent: set<Word64>, vas: seq<Word64>)
      ensures MappingRecords(mode, lookup, sent, vas[|vas|..]) == ([], sent)
    {
      assert vas[|vas|..] == [];
    }

    method SendCode(addr: Word64, size: nat)
      requires size < 16 && (!mode.perInsn ==> EndPage(addr, size) < TWO64 - PAGE)
      modifies `output, `icache
      ensures var (recs, sent) := CodeRecords(mode, code, old(icache), addr, size);
              output == old(output) + EncodeAll(recs) && icache == sent
    {
      if mode.perInsn {
        if addr !in icache {
          EmitOnly(IcacheVariable(addr, CodeBytes(code, addr, size)));
          icache := icache + {addr};
        }
      } else {
        SendPages(addr, size);
      }
    }

    method SendInsn(i: Insn)
      requires i.size < 16 && |i.addresses| <= MAX_DYNAMIC_ADDRESSES
      modifies `output, `lastAddress
      ensures output == old(output) + EncodeAll([InsnRecord(old(lastAddress), i)])
      ensures lastAddress == Add64(i.addr, i.size)
    {
      if i.addr == lastAddress && !i.isPredicate {
        EmitOnly(Simple(i.size, i.isBranch, i.taken, i.addresses));
      } else {
        EmitOnly(Extended(i.size, i.isBranch, i.taken, i.isPredicate, i.executed, i.addr, i.addresses));
        lastAddress := i.addr;
      }
      lastAddress := Add64(lastAddress, i.size);
    }

    method Instruction(lookup: Lookup, i: Insn)
      requires Accepts(mode, Call.Instruction(i))
      modifies `output, `lastAddress, `icache, `va2pa
      ensures Did(lookup, Call.Instruction(i))
      ensures old(isOpen && CodeKnown(mode, icache, i.addr, i.size) && PagesKnown(mode, lookup, va2pa, [i.addr] + i.addresses)) ==>
                && |output| == |old(output)| + 8 * |i.addresses| + (if i.addr == old(lastAddress) && !i.isPredicate then 1 else 10)
                && (i.addr == old(lastAddress) && !i.isPredicate ==>
                      output[|old(output)|] == i.size + 16 * |i.addresses| + (if i.isBranch then 64 else 0) + if i.taken then 128 else 0)
    {
      hide CodeRecords, MappingRecords, InsnRecord, EncodeAll;
      if !isOpen { return; }
      ghost var known := CodeKnown(mode, icache, i.addr, i.size) && PagesKnown(mode, lookup, va2pa, [i.addr] + i.addresses);
      ghost var st := Abs();
      ghost var codeRecs := CodeRecords(mode, code, icache, i.addr, i.size).0;
      ghost var mapRecs := MappingRecords(mode, lookup, va2pa, [i.addr] + i.addresses).0;
      ghost var insnRecs: seq<Wire> := [InsnRecord(lastAddress, i)];
      SendCode(i.addr, i.size);
      SendMappings(lookup, [i.addr] + i.addresses);
      SendInsn(i);
      EncodeAllConcat(codeRecs, mapRecs);
      EncodeAllConcat(codeRecs + mapRecs, insnRecs);
      if known {
        InsnBytes(mode, code, lookup, st, i);
      }
    }

    method CacheOnly(lookup: Lookup, icount: Byte, kind: Byte, eip: Word64, address: Word64)
      modifies `output, `va2pa
      ensures Did(lookup, Call.CacheOnly(icount, kind, eip, address))
    {
      if !isOpen { return; }
      ghost var mapRecs := MappingRecords(mode, lookup, va2pa, [eip, address]).0;
      SendMappings(lookup, [eip, address]);
      Emit(Record.CacheOnly(icount, kind, eip, address), old(output), mapRecs);
    }

    method Output(lookup: Lookup, fd: Byte, data: seq<Byte>)
      requires |data| < TWO32
      modifies `output
      ensures Did(lookup, Call.Output(fd, data))
    {
      if !isOpen { return; }
      EmitOnly(Record.Output(fd, data));
    }

    method RoutineChange(lookup: Lookup, event: Byte, eip: Word64, esp: Word64, callEip: Word64)
      modifies `output
      ensures Did(lookup, Call.RoutineChange(event, eip, esp, callEip))
    {
      if !isOpen { return; }
      EmitOnly(Record.RoutineChange(event, eip, esp, callEip));
    }

    method IsaChange(lookup: Lookup, isa: Word32)
      modifies `output
      ensures Did(lookup, Call.IsaChange(isa))
    {
      if !isOpen { return; }
      EmitOnly(Record.IsaChange(isa));
    }

    /** Up to the wait for the reply, which is in module SiftSession. */
    method Syscall(lookup: Lookup, number: Word16, data: seq<Byte>)
      requires Accepts(mode, SyscallPages(number, data))
      modifies `output, `va2pa
      ensures isOpen == old(isOpen)
      ensures isOpen ==>
                var (recs, st) := Write(mode, code, lookup, old(Abs()), SyscallPages(number, data));
                var req := P.Syscall(number, data);
                output == old(output) + EncodeAll(recs) + EncodeOther(P.RequestKind(req), P.RequestPayload(req)) && Abs() == st
      ensures !isOpen ==> output == old(output) && Abs() == old(Abs())
      // no other system call sends a mapping
      ensures isOpen && number != 1 && number != 202 ==> output == old(output) + [0, 2] + LE(2 + |data|, 4) + LE(number, 2) + data
    {
      if !isOpen { return; }
      assert EncodeAll([]) == [];
      if number == SYS_FUTEX {
        SendMappings(lookup, [Get64(data, 0)]);
      } else if number == SYS_WRITE {
        SendMappings(lookup, [Get64(data, 8)]);
      }
      output := output + EncodeOther(P.RequestKind(P.Syscall(number, data)), P.RequestPayload(P.Syscall(number, data)));
    }

    method End()
      modifies `output, `isOpen
      ensures !isOpen
      ensures output == if old(isOpen) then old(output) + Encode(Record.End) else old(output)
    {
      if isOpen {
        output := output + Encode(Record.End);
      }
      isOpen := false;
    }
  }
}
