/** The trace reader: what each record does to the reader, and the object that reads a stream. */
module SiftReader {
  import opened SiftFormat
  import opened SiftCodeImage
  import opened Wrappers

  datatype Static = Static(addr: Word64, size: nat, data: seq<Byte>)

  datatype Decoded = Decoded(sinst: Static, addresses: seq<Word64>,
                             isBranch: bool, taken: bool, isPredicate: bool, executed: bool, isa: int)

  /** What the client of a reader gets to see: the instructions returned and the calls of its handlers. */
  datatype Observed =
    | Insn(d: Decoded)
    | CacheOnly(icount: Byte, kind: Byte, eip: Word64, address: Word64)
    | Output(fd: Byte, data: seq<Byte>)
    | RoutineChange(event: Byte, eip: Word64, esp: Word64, callEip: Word64)

  /** The static instructions seen so far; `next` and `last` are the pointers between them, by address. */
  datatype Statics = Statics(entries: map<Word64, Static>, next: map<Word64, Word64>, last: Option<Word64>)

  /** The reader as a value. */
  datatype State = State(
    rest: seq<Byte>, lastAddress: Word64, icache: Image, vcache: map<Word64, Word64>,
    statics: Statics, isa: int, seenEnd: bool, log: seq<Observed>)

  function Start(rest: seq<Byte>): (st: State)
  {
    State(rest, 0, map[], map[], Statics(map[], map[], None), 0, false, [])
  }

  /** How a call of Read ends: an instruction, the end of the trace, a failed peek, a failed assert, a
      record cut short or with more than two addresses (undefined), a request (SiftProtocol), or the
      call of an already ended reader, which returns true without an instruction. */
  datatype Outcome = Returned(d: Decoded) | Ended | StreamError | Aborted | Undefined | Elsewhere(kind: Byte) | Stale

  datatype Step = Continue(st: State) | Stop(outcome: Outcome, st: State)

  /** uint32_t to int */
  function ToInt32(v: Word32): (i: int)
    ensures -0x8000_0000 <= i < 0x8000_0000 && (i == v || i == v - TWO32)
  {
    if v < 0x8000_0000 then v else v - TWO32
  }

  /** `getStaticInstruction`: the entry used, or None when an assert fails, and the new caches. */
  ghost function GetStatic(im: Image, c: Statics, addr: Word64, size: nat): (r: Option<(Static, Statics)>)
  {
    var hit := c.last.Some? && c.last.value in c.next && c.next[c.last.value] == addr && addr in c.entries;
    if hit then Some((c.entries[addr], Link(c, addr)))
    else if addr in c.entries then
      if c.entries[addr].size == size then Some((c.entries[addr], Link(c, addr))) else None
    else if Present(im, addr, size) then
      var s := Static(addr, size, Fetch(im, addr, size));
      Some((s, Link(c.(entries := c.entries[addr := s]), addr)))
    else None
  }

  function Link(c: Statics, addr: Word64): (r: Statics)
  {
    var next := if c.last.Some? && c.last.value !in c.next then c.next[c.last.value := addr] else c.next;
    c.(next := next, last := Some(addr))
  }

  ghost function Deliver(st: State, addr: Word64, size: nat, addresses: seq<Word64>,
                         isBranch: bool, taken: bool, isPredicate: bool, executed: bool): (r: Step)
  {
    if |addresses| > MAX_DYNAMIC_ADDRESSES then Stop(Undefined, st)
    else
      var st' := st.(lastAddress := Add64(addr, size));
      match GetStatic(st.icache, st.statics, addr, size)
      case None => Stop(Aborted, st')
      case Some((s, c)) =>
        var d := Decoded(s, addresses, isBranch, taken, isPredicate, executed, st.isa);
        Stop(Returned(d), st'.(statics := c, log := st.log + [Insn(d)]))
  }

  ghost function Apply(heap: Heap, st: State, rec: Record): (r: Step)
  {
    match rec
    case Simple(size, isBranch, taken, addresses) =>
      Deliver(st, st.lastAddress, size, addresses, isBranch, taken, false, true)
    case Extended(size, isBranch, taken, isPredicate, executed, addr, addresses) =>
      Deliver(st, addr, size, addresses, isBranch, taken, isPredicate, executed)
    case IcachePage(base, bytes) =>
      if |bytes| == PAGE then Continue(st.(icache := st.icache[base := bytes])) else Stop(Aborted, st)
    case IcacheVariable(start, bytes) => Continue(st.(icache := Store(heap, st.icache, start, bytes)))
    case Logical2Physical(vp, pp) => Continue(st.(vcache := st.vcache[vp := pp]))
    case CacheOnly(icount, kind, eip, address) =>
      Continue(st.(log := st.log + [Observed.CacheOnly(icount, kind, eip, address)]))
    case Output(fd, data) => Continue(st.(log := st.log + [Observed.Output(fd, data)]))
    case RoutineChange(event, eip, esp, callEip) =>
      Continue(st.(log := st.log + [Observed.RoutineChange(event, eip, esp, callEip)]))
    case IsaChange(isa) => Continue(st.(isa := ToInt32(isa)))
    case End => Stop(Ended, st.(seenEnd := true))
    case Skipped(_, _) => Continue(st)
  }

  /** One turn of the loop in Read. */
  ghost function ReadRecord(heap: Heap, st: State): (r: Step)
    ensures r.Continue? || r.outcome.Returned? ==> |r.st.rest| < |st.rest|
  {
    match Parse(st.rest)
    case Exhausted => Stop(StreamError, st)
    case Garbled => Stop(Undefined, st)
    case Violated => Stop(Aborted, st)
    case Elsewhere(kind) => Stop(Outcome.Elsewhere(kind), st)
    case Ok(rec, consumed) => Apply(heap, st.(rest := st.rest[consumed..]), rec)
  }

  /** One call of Read on an open reader. */
  ghost function ReadNext(heap: Heap, st: State): (r: (Outcome, State))
    ensures r.0.Returned? ==> |r.1.rest| < |st.rest|
    decreases |st.rest|
  {
    if st.seenEnd then (Stale, st)
    else
      match ReadRecord(heap, st)
      case Continue(st') => ReadNext(heap, st')
      case Stop(o, st') => (o, st')
  }

  // ---------------------------------------------------------------- physical addresses

  /** Bitwise or of two naturals. */
  function BitOr(x: nat, y: nat): (r: nat)
    decreases x + y
  {
    if x == 0 && y == 0 then 0
    else (if x % 2 == 1 || y % 2 == 1 then 1 else 0) + 2 * BitOr(x / 2, y / 2)
  }

  function Pow2(n: nat): (p: nat)
    ensures p >= 1
  {
    if n == 0 then 1 else 2 * Pow2(n - 1)
  }

  /** Or is addition when the low bits of one side are free. */
  lemma {:induction false} OrDisjoint(x: nat, n: nat, y: nat)
    requires y < Pow2(n)
    ensures BitOr(x * Pow2(n), y) == x * Pow2(n) + y
    decreases n
  {
    if n == 0 {
      OrZero(x);
    } else {
      var hi := x * Pow2(n - 1);
      assert x * Pow2(n) == 2 * hi;
      OrDisjoint(x, n - 1, y / 2);
      assert BitOr(2 * hi, y) == y % 2 + 2 * BitOr(hi, y / 2);
    }
  }

  lemma {:induction false} OrZero(x: nat)
    ensures BitOr(x, 0) == x
  {
    if x != 0 {
      OrZero(x / 2);
    }
  }

  lemma Pow2Twelve()
    ensures Pow2(12) == PAGE
  {
    assert Pow2(3) == 8;
    assert Pow2(6) == 8 * Pow2(3);
    assert Pow2(9) == 8 * Pow2(6);
    assert Pow2(12) == 8 * Pow2(9);
  }

  /** `va2pa`, with the 64-bit multiplication wrapping */
  function Va2Pa(hasPhysical: bool, vcache: map<Word64, Word64>, va: Word64): (pa: nat)
  {
    var vp: Word64 := va / PAGE;
    if !hasPhysical then va
    else if vp !in vcache then 0
    else BitOr((vcache[vp] * PAGE) % TWO64, va % PAGE)
  }

  /** The physical address is frame times page size plus offset, exactly when the frame number is below 2^52. */
  lemma Va2PaExact(vcache: map<Word64, Word64>, va: Word64)
    requires va / PAGE in vcache
    ensures Va2Pa(true, vcache, va) < TWO64
    ensures Va2Pa(true, vcache, va) == vcache[va / PAGE] * PAGE + va % PAGE <==> vcache[va / PAGE] < 0x10_0000_0000_0000
  {
    hide BitOr, Pow2;
    var pp := vcache[va / PAGE];
    var low := pp % 0x10_0000_0000_0000;
    assert (pp * PAGE) % TWO64 == low * PAGE;
    Pow2Twelve();
    OrDisjoint(low, 12, va % PAGE);
  }

  // ---------------------------------------------------------------- the reader object

  class StaticInstruction {
    const addr: Word64
    const size: nat
    const data: seq<Byte>
    var next: StaticInstruction?

    constructor (addr: Word64, size: nat, data: seq<Byte>)
      ensures this.addr == addr && this.size == size && this.data == data && next == null
    {
      this.addr, this.size, this.data, next := addr, size, data, null;
    }
  }

  class Reader {
    const heap: Heap
    const stream: seq<Byte>
    var isOpen: bool
    var hasPhysical: bool
    var rest: seq<Byte>
    var lastAddress: Word64
    var icache: Image
    var vcache: map<Word64, Word64>
    var scache: map<Word64, StaticInstruction>
    var lastSinst: StaticInstruction?
    var isa: int
    var seenEnd: bool
    var log: seq<Observed>

    /** Entries are filed under their own address; pointers stay inside the cache. */
    ghost predicate Valid()
      reads `scache, `lastSinst, scache.Values
    {
      && (forall a <- scache :: scache[a].addr == a)
      && (forall a <- scache :: scache[a].next != null ==> Cached(scache[a].next))
      && (lastSinst != null ==> Cached(lastSinst))
    }

    ghost predicate Cached(s: StaticInstruction)
      reads `scache
    {
      s.addr in scache && scache[s.addr] == s
    }

    ghost function Caches(): (c: Statics)
      reads `scache, `lastSinst, scache.Values
    {
      Statics(map a | a in scache :: Static(scache[a].addr, scache[a].size, scache[a].data),
              map a | a in scache && scache[a].next != null :: scache[a].next.addr,
              if lastSinst == null then None else Some(lastSinst.addr))
    }

    ghost function Abs(): (st: State)
      reads this, scache.Values
    {
      State(rest, lastAddress, icache, vcache, Caches(), isa, seenEnd, log)
    }

    constructor (stream: seq<Byte>, heap: Heap)
      ensures Valid() && !isOpen && this.stream == stream && this.heap == heap && Abs() == Start([])
      ensures !hasPhysical
    {
      this.stream, this.heap, isOpen, hasPhysical := stream, heap, false, false;
      rest, lastAddress, icache, vcache, scache := [], 0, map[], map[], map[];
      lastSinst, isa, seenEnd, log := null, 0, false, [];
    }

    /** What is left once the header has been read, good or bad. */
    function AfterHeader(): (r: seq<Byte>)
    {
      if |stream| >= 16 then stream[16..] else []
    }

    /** The stream counts as open even if its header is rejected. */
    method InitStream() returns (ok: bool)
      requires Valid()
      modifies `isOpen, `hasPhysical, `rest
      ensures Valid() && isOpen
      ensures ok <==> ParseHeader(stream).Accepted?
      ensures hasPhysical == (old(hasPhysical) || HeaderPhysical(stream))
      ensures Abs() == old(Abs()).(rest := AfterHeader())
    {
      hide Get32, Get64;
      isOpen := true;
      rest := AfterHeader();
      if HeaderPhysical(stream) {
        hasPhysical := true;
      }
      ok := ParseHeader(stream).Accepted?;
    }

    function PhysicalAddress(va: Word64): (pa: nat)
      reads this
      ensures !hasPhysical ==> pa == va
      ensures hasPhysical && va / PAGE !in vcache ==> pa == 0
      ensures hasPhysical && va / PAGE in vcache ==>
                (pa == vcache[va / PAGE] * PAGE + va % PAGE <==> vcache[va / PAGE] < 0x10_0000_0000_0000)
    {
      if hasPhysical && va / PAGE in vcache then Va2PaExact(vcache, va); Va2Pa(true, vcache, va)
      else Va2Pa(hasPhysical, vcache, va)
    }

    /** RecOtherIcacheVariable: copy the bytes into the pages they belong to, creating missing pages. */
    method StoreCode(addr: Word64, bytes: seq<Byte>)
      requires |bytes| < TWO32
      modifies `icache
      ensures icache == Store(heap, old(icache), addr, bytes)
    {
      hide Add64, Store, PageBase, Touched, Overlay;
      var done, address := 0, addr;
      StoreNothing(heap, icache, addr);
      assert bytes[..0] == [];
      while done < |bytes|
        invariant 0 <= done <= |bytes|
        invariant done < |bytes| ==> address == Add64(addr, done)
        invariant icache == Store(heap, old(icache), addr, bytes[..done])
      {
        var amount;
        amount, address := StorePiece(addr, bytes, done, address, old(icache));
        done := done + amount;
      }
      assert bytes[..done] == bytes;
    }

    /** One round of the loop: up to the end of the bytes or of the page. */
    method StorePiece(ghost addr: Word64, bytes: seq<Byte>, done: nat, address: Word64, ghost start: Image)
      returns (amount: nat, next: Word64)
      requires done < |bytes| < TWO32 && address == Add64(addr, done)
      requires icache == Store(heap, start, addr, bytes[..done])
      modifies `icache
      ensures 0 < amount && done + amount <= |bytes|
      ensures icache == Store(heap, start, addr, bytes[..done + amount])
      ensures done + amount < |bytes| ==> next == Add64(addr, done + amount)
    {
      hide Add64, Store, Fill, Touched, Overlay;
      var base := PageBase(address);
      var offset := address - base;
      amount := if |bytes| - done < PAGE - offset then |bytes| - done else PAGE - offset;
      StoreFilled(heap, start, addr, bytes, done, amount);
      NextPage(addr, done, amount);
      icache := icache[base := Fill(heap, icache, address, bytes[done..done + amount])];
      next := Add64(base, PAGE);
    }

    static lemma NextPage(addr: Word64, done: nat, amount: nat)
      requires done + amount < TWO32
      ensures var a := Add64(addr, done);
              a - PageBase(a) + amount == PAGE ==> Add64(PageBase(a), PAGE) == Add64(addr, done + amount)
    {
    }

    /** Returns null where the assert on `icache.count(base_addr)` fails. */
    method StaticInfo(addr: Word64, size: nat) returns (sinst: StaticInstruction?)
      requires size < 256
      ensures sinst != null <==> Present(icache, addr, size)
      ensures sinst != null ==> fresh(sinst) && sinst.addr == addr && sinst.size == size && sinst.next == null
                                && sinst.data == Fetch(icache, addr, size)
    {
      var data: seq<Byte> := [];
      var base := PageBase(addr);
      var left := size;
      while left > 0
        invariant 0 <= left <= size && |data| == size - left
        invariant Present(icache, addr, |data|) && data == Fetch(icache, addr, |data|)
        invariant left > 0 ==> base == PageBase(Add64(addr, |data|))
        invariant left > 0 && data != [] ==> base == Add64(addr, |data|)
      {
        var offset := if data == [] then addr - PageBase(addr) else 0;
        var amount := if left < PAGE - offset then left else PAGE - offset;
        if base !in icache {
          assert PageBase(Add64(addr, |data|)) in Touched(addr, size);
          return null;
        }
        FetchChunk(icache, addr, |data|, amount);
        NextPage(addr, |data|, amount);
        data := data + icache[base][offset..offset + amount];
        left := left - amount;
        base := Add64(base, PAGE);
      }
      sinst := new StaticInstruction(addr, size, data);
    }

    method GetStaticInstruction(addr: Word64, size: nat) returns (sinst: StaticInstruction?)
      requires Valid() && size < 256
      modifies `scache, `lastSinst, if lastSinst == null then {} else {lastSinst}
      ensures Valid() && fresh(scache.Values - old(scache.Values))
      ensures match GetStatic(icache, old(Caches()), addr, size)
              case None => sinst == null && Caches() == old(Caches())
              case Some((s, c)) => sinst != null && Static(sinst.addr, sinst.size, sinst.data) == s && Caches() == c
    {
      hide Present, Fetch, Link;
      if lastSinst != null && lastSinst.next != null && lastSinst.next.addr == addr {
        sinst := lastSinst.next;
      } else if addr in scache {
        sinst := scache[addr];
        if sinst.size != size { return null; }
      } else {
        sinst := StaticInfo(addr, size);
        if sinst == null { return; }
        AddEntry(sinst);
      }
      LinkTo(sinst);
    }

    method AddEntry(sinst: StaticInstruction)
      requires Valid() && sinst.addr !in scache && sinst.next == null
      modifies `scache
      ensures Valid() && Cached(sinst) && scache.Values == old(scache.Values) + {sinst}
      ensures var c := old(Caches());
              Caches() == c.(entries := c.entries[sinst.addr := Static(sinst.addr, sinst.size, sinst.data)])
    {
      ValuesAfterInsert(scache, sinst.addr, sinst);
      scache := scache[sinst.addr := sinst];
    }

    static lemma ValuesAfterInsert<K, V>(m: map<K, V>, k: K, v: V)
      requires k !in m
      ensures m[k := v].Values == m.Values + {v}
    {
      var n := m[k := v];
      assert n[k] == v;
      forall x | x in m.Values
        ensures x in n.Values
      {
        var j :| j in m && m[j] == x;
        assert n[j] == x;
      }
    }

    /** Sets the `next` pointer of the last instruction, once. */
    method LinkTo(sinst: StaticInstruction)
      requires Valid() && Cached(sinst)
      modifies `lastSinst, if lastSinst == null then {} else {lastSinst}
      ensures Valid() && Caches() == Link(old(Caches()), sinst.addr)
    {
      ghost var c := Caches();
      if lastSinst != null && lastSinst.next == null {
        SetNext(lastSinst, sinst);
      }
      lastSinst := sinst;
    }

    method SetNext(from: StaticInstruction, sinst: StaticInstruction)
      requires Valid() && Cached(from) && Cached(sinst) && from.next == null
      modifies from
      ensures Valid() && from.next == sinst
      ensures var c := old(Caches()); Caches() == c.(next := c.next[from.addr := sinst.addr])
    {
      ghost var c := Caches();
      from.next := sinst;
      forall a <- scache
        ensures a != from.addr ==> scache[a].next == old(scache[a].next)
        ensures a == from.addr ==> scache[a].next == sinst
      {
        assert scache[a].addr == a;
      }
      assert Caches().next == c.next[from.addr := sinst.addr];
    }

    method DeliverInsn(addr: Word64, size: nat, addresses: seq<Word64>,
                       isBranch: bool, taken: bool, isPredicate: bool, executed: bool) returns (o: Outcome)
      requires Valid() && size < 256
      modifies `lastAddress, `log, `scache, `lastSinst, if lastSinst == null then {} else {lastSinst}
      ensures Valid() && fresh(scache.Values - old(scache.Values))
      ensures Stop(o, Abs()) == Deliver(old(Abs()), addr, size, addresses, isBranch, taken, isPredicate, executed)
    {
      hide GetStatic, Caches;
      if |addresses| > MAX_DYNAMIC_ADDRESSES { return Undefined; }
      lastAddress := Add64(addr, size);
      var sinst := GetStaticInstruction(addr, size);
      if sinst == null { return Aborted; }
      var d := Decoded(Static(sinst.addr, sinst.size, sinst.data), addresses, isBranch, taken, isPredicate, executed, isa);
      log := log + [Insn(d)];
      o := Returned(d);
    }

    /** The switch over one parsed record. */
    method Handle(rec: Record) returns (o: Option<Outcome>)
      requires Valid() && Bounded(rec)
      modifies `lastAddress, `icache, `vcache, `isa, `seenEnd, `log, `scache, `lastSinst
      modifies if lastSinst == null then {} else {lastSinst}
      ensures Valid() && fresh(scache.Values - old(scache.Values))
      ensures o.None? ==> lastSinst == old(lastSinst) && Continue(Abs()) == Apply(heap, old(Abs()), rec)
      ensures o.Some? ==> Stop(o.value, Abs()) == Apply(heap, old(Abs()), rec)
    {
      hide Deliver, Caches, Store;
      o := None;
      match rec {
        case Simple(size, isBranch, taken, addresses) =>
          var out := DeliverInsn(lastAddress, size, addresses, isBranch, taken, false, true);
          o := Some(out);
        case Extended(size, isBranch, taken, isPredicate, executed, addr, addresses) =>
          var out := DeliverInsn(addr, size, addresses, isBranch, taken, isPredicate, executed);
          o := Some(out);
        case IcachePage(base, bytes) => icache := icache[base := bytes];
        case IcacheVariable(start, bytes) => StoreCode(start, bytes);
        case Logical2Physical(vp, pp) => vcache := vcache[vp := pp];
        case CacheOnly(icount, kind, eip, address) => log := log + [Observed.CacheOnly(icount, kind, eip, address)];
        case Output(fd, data) => log := log + [Observed.Output(fd, data)];
        case RoutineChange(event, eip, esp, callEip) =>
          log := log + [Observed.RoutineChange(event, eip, esp, callEip)];
        case IsaChange(v) => isa := ToInt32(v);
        case End => seenEnd := true; o := Some(Ended);
        case Skipped(_, _) =>
      }
    }

    /** The loop of Read, on an open stream. */
    method ReadOpen() returns (o: Outcome)
      requires Valid()
      modifies `rest, `lastAddress, `icache, `vcache, `isa, `seenEnd, `log, `scache, `lastSinst
      modifies if lastSinst == null then {} else {lastSinst}
      ensures Valid() && fresh(scache.Values - old(scache.Values))
      ensures (o, Abs()) == ReadNext(heap, old(Abs()))
    {
      hide Apply, Parse, Caches, Bounded;
      while !seenEnd
        invariant Valid() && fresh(scache.Values - old(scache.Values)) && lastSinst == old(lastSinst)
        invariant ReadNext(heap, Abs()) == ReadNext(heap, old(Abs()))
        decreases |rest|
      {
        match Parse(rest) {
          case Exhausted => return StreamError;
          case Garbled => return Undefined;
          case Violated => return Aborted;
          case Elsewhere(kind) => return Outcome.Elsewhere(kind);
          case Ok(rec, consumed) =>
            ghost var start := Abs();
            rest := rest[consumed..];
            assert Abs() == start.(rest := rest);
            var out := Handle(rec);
            if out.Some? { return out.value; }
        }
      }
      o := Stale;
    }

    method Read() returns (o: Outcome)
      requires Valid()
      modifies this, if lastSinst == null then {} else {lastSinst}
      ensures Valid() && fresh(scache.Values - old(scache.Values))
      ensures isOpen && hasPhysical == (old(hasPhysical) || (!old(isOpen) && HeaderPhysical(stream)))
      ensures old(isOpen) ==> (o, Abs()) == ReadNext(heap, old(Abs()))
      ensures !old(isOpen) && ParseHeader(stream).Accepted? ==> (o, Abs()) == ReadNext(heap, old(Abs()).(rest := AfterHeader()))
      ensures !old(isOpen) && !ParseHeader(stream).Accepted? ==> o == StreamError && Abs() == old(Abs()).(rest := AfterHeader())
    {
      hide ReadNext, Caches, Get32, Get64;
      if !isOpen {
        var ok := InitStream();
        if !ok { return StreamError; }
      }
      o := ReadOpen();
    }
  }
}
