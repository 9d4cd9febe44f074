/** What a reader gets out of a stream that a writer produced. */
module SiftRoundTrip {
  import opened SiftFormat
  import opened SiftCodeImage
  import W = SiftWriter
  import R = SiftReader
  import opened Wrappers

  type Code = W.Code

  /** One writer call together with the page table at that time. */
  datatype Item = Item(call: W.Call, lookup: W.Lookup)

  /** What the length of each instruction is; the traced code does not change. */
  type Sizes = Word64 -> nat

  // ---------------------------------------------------------------- whole runs

  ghost predicate AllAccepted(mode: W.Mode, items: seq<Item>)
  {
    forall it <- items :: W.Accepts(mode, it.call)
  }

  /** All records of a run and the writer at its end. */
  ghost function WriteRun(mode: W.Mode, code: Code, st: W.State, items: seq<Item>): (r: (seq<Wire>, W.State))
    requires AllAccepted(mode, items)
    decreases |items|
  {
    if items == [] then ([], st)
    else
      var (recs, st') := W.Write(mode, code, items[0].lookup, st, items[0].call);
      var (rest, end) := WriteRun(mode, code, st', items[1..]);
      (recs + rest, end)
  }

  /** Calling Read until it does not return an instruction. */
  ghost function ReadRun(heap: Heap, st: R.State): (r: (R.Outcome, R.State))
    decreases |st.rest|
  {
    var (o, st') := R.ReadNext(heap, st);
    if o.Returned? then ReadRun(heap, st') else (o, st')
  }

  // ---------------------------------------------------------------- reference: what should be seen

  /** `executed` is not carried by the short form, which the reader takes as executed. */
  predicate SentShort(last: Word64, i: W.Insn)
  {
    i.addr == last && !i.isPredicate
  }

  function Observe(code: Code, isa: int, last: Word64, c: W.Call): (obs: seq<R.Observed>)
  {
    match c
    case Instruction(i) =>
      [R.Insn(R.Decoded(R.Static(i.addr, i.size, W.CodeBytes(code, i.addr, i.size)), i.addresses,
                        i.isBranch, i.taken, i.isPredicate, i.executed || SentShort(last, i), isa))]
    case CacheOnly(icount, kind, eip, address) => [R.Observed.CacheOnly(icount, kind, eip, address)]
    case Output(fd, data) => [R.Observed.Output(fd, data)]
    case RoutineChange(event, eip, esp, callEip) => [R.Observed.RoutineChange(event, eip, esp, callEip)]
    case IsaChange(_) => []
    case SyscallPages(_, _) => []
  }

  function LastAfter(last: Word64, c: W.Call): (a: Word64)
  {
    if c.Instruction? then Add64(c.insn.addr, c.insn.size) else last
  }

  function IsaAfter(isa: int, c: W.Call): (i: int)
  {
    if c.IsaChange? then R.ToInt32(c.isa) else isa
  }

  function Addresses(c: W.Call): (vas: seq<Word64>)
  {
    match c
    case Instruction(i) => [i.addr] + i.addresses
    case CacheOnly(_, _, eip, address) => [eip, address]
    case SyscallPages(number, data) => if |data| >= W.ArgumentBytes(number) then W.SyscallAddresses(number, data) else []
    case _ => []
  }

  /** The frame found when a page is first looked up with success. */
  function FirstFrames(mapping: bool, lookup: W.Lookup, frames: map<Word64, Word64>, vas: seq<Word64>): (r: map<Word64, Word64>)
    decreases |vas|
  {
    if !mapping || vas == [] then frames
    else
      var vp: Word64 := vas[0] / PAGE;
      FirstFrames(mapping, lookup, if vp !in frames && lookup(vp) != 0 then frames[vp := lookup(vp)] else frames, vas[1..])
  }

  /** The state both sides agree on: addresses, current ISA and page frames, and what was seen. */
  datatype View = View(last: Word64, isa: int, frames: map<Word64, Word64>, seen: seq<R.Observed>)

  function ViewAfter(mapping: bool, code: Code, v: View, it: Item): (r: View)
  {
    View(LastAfter(v.last, it.call), IsaAfter(v.isa, it.call),
         FirstFrames(mapping, it.lookup, v.frames, Addresses(it.call)),
         v.seen + Observe(code, v.isa, v.last, it.call))
  }

  function ViewRun(mapping: bool, code: Code, v: View, items: seq<Item>): (r: View)
    decreases |items|
  {
    if items == [] then v else ViewRun(mapping, code, ViewAfter(mapping, code, v, items[0]), items[1..])
  }

  const BLANK := View(0, 0, map[], [])

  // ---------------------------------------------------------------- the coupling invariant

  predicate Holds(im: Image, code: Code, x: Word64)
  {
    PageBase(x) in im && ByteAt(im, x) == code(x)
  }

  ghost predicate Covers(im: Image, code: Code, addr: Word64, n: nat)
  {
    forall k: int :: 0 <= k < n ==> Holds(im, code, Add64(addr, k))
  }

  /** The code the writer remembers having sent is in the reader's icache. */
  ghost predicate CodeSynced(mode: W.Mode, code: Code, sizes: Sizes, sent: set<Word64>, im: Image)
  {
    if mode.perInsn then forall a <- sent :: Covers(im, code, a, sizes(a))
    else
      && im.Keys == sent && TWO64 - PAGE !in sent
      && forall b <- sent :: b % PAGE == 0 && b + PAGE <= TWO64 && Covers(im, code, b, PAGE)
  }

  ghost predicate StaticsSynced(mode: W.Mode, code: Code, sizes: Sizes, c: R.Statics)
  {
    && (forall a <- c.entries :: c.entries[a] == R.Static(a, sizes(a), W.CodeBytes(code, a, sizes(a))))
    && (!mode.perInsn ==> forall a <- c.entries :: a + sizes(a) <= TWO64)
  }

  ghost predicate Synced(mode: W.Mode, code: Code, sizes: Sizes, v: View, ws: W.State, rs: R.State)
  {
    && v.last == ws.lastAddress == rs.lastAddress
    && v.isa == rs.isa
    && v.frames == rs.vcache && v.frames.Keys == ws.va2pa
    && v.seen == rs.log
    && CodeSynced(mode, code, sizes, ws.icache, rs.icache)
    && StaticsSynced(mode, code, sizes, rs.statics)
    && !rs.seenEnd
  }

  /** The calls whose records are all readable and whose code reaches the reader: instructions have a
      length, always the same at one address, and in page mode they do not wrap around the end of memory;
      output is not empty and its length fits the size field. */
  ghost predicate Traceable(mode: W.Mode, sizes: Sizes, c: W.Call)
  {
    && W.Accepts(mode, c)
    && (c.Instruction? ==>
          && c.insn.size == sizes(c.insn.addr) >= 1
          && (!mode.perInsn ==> c.insn.addr + c.insn.size <= TWO64))
    && (c.Output? ==> 0 < |c.data| < TWO32 - 1)
  }

  // ---------------------------------------------------------------- feeding records to a reader

  ghost function Feed(heap: Heap, st: R.State, recs: seq<Wire>): (r: R.State)
    decreases |recs|
  {
    if recs == [] then st else Feed(heap, R.Apply(heap, st, recs[0]).st, recs[1..])
  }

  /** Every record is readable and lets the reader go on. */
  ghost predicate Smooth(heap: Heap, st: R.State, recs: seq<Wire>)
    decreases |recs|
  {
    recs == [] ||
    (&& Readable(recs[0])
     && (var s := R.Apply(heap, st, recs[0]); (s.Continue? || s.outcome.Returned?) && Smooth(heap, s.st, recs[1..])))
  }

  lemma {:induction false} FeedConcat(heap: Heap, st: R.State, xs: seq<Wire>, ys: seq<Wire>)
    requires Smooth(heap, st, xs) && Smooth(heap, Feed(heap, st, xs), ys)
    ensures Smooth(heap, st, xs + ys)
    ensures Feed(heap, st, xs + ys) == Feed(heap, Feed(heap, st, xs), ys)
    decreases |xs|
  {
    hide R.Apply;
    if xs == [] {
      assert xs + ys == ys;
    } else {
      assert (xs + ys)[1..] == xs[1..] + ys;
      FeedConcat(heap, R.Apply(heap, st, xs[0]).st, xs[1..], ys);
    }
  }

  /** A record does the same whatever follows it in the stream. */
  lemma ApplyIgnoresRest(heap: Heap, st: R.State, rec: Record, rest: seq<Byte>)
    ensures var s := R.Apply(heap, st, rec); var t := R.Apply(heap, st.(rest := rest), rec);
            && t == s.(st := s.st.(rest := rest))
            && s.st.rest == st.rest
            && (s.st.seenEnd ==> st.seenEnd || rec.End?)
  {
    hide R.GetStatic, Store, Add64;
  }

  /** Reading the bytes of readable records is feeding the records, one by one. */
  lemma {:induction false} FeedReads(heap: Heap, st: R.State, recs: seq<Wire>, tail: seq<Byte>)
    requires Smooth(heap, st.(rest := tail), recs) && !st.seenEnd
    requires st.rest == EncodeAll(recs) + tail
    ensures ReadRun(heap, st) == ReadRun(heap, Feed(heap, st.(rest := tail), recs))
    decreases |recs|
  {
    hide R.Apply, EncodeWire, Parse, Readable;
    if recs == [] {
      assert st == st.(rest := tail);
    } else {
      var r := recs[0];
      var rest := EncodeAll(recs[1..]) + tail;
      assert st.rest == EncodeWire(r) + rest;
      ReadOne(heap, st, r, rest);
      ApplyIgnoresRest(heap, st.(rest := tail), r, rest);
      var s := R.Apply(heap, st.(rest := tail), r);
      EndStops(heap, st.(rest := tail), r);
      var next := s.st.(rest := rest);
      assert R.ReadRecord(heap, st) == s.(st := next);
      FeedReads(heap, next, recs[1..], tail);
      assert next.(rest := tail) == s.st;
    }
  }

  lemma ReadOne(heap: Heap, st: R.State, r: Wire, rest: seq<Byte>)
    requires Readable(r) && st.rest == EncodeWire(r) + rest
    ensures R.ReadRecord(heap, st) == R.Apply(heap, st.(rest := rest), r)
  {
    hide R.Apply, Parse, Encode;
    ParseReadable(r, rest);
    assert st.rest[|Encode(r)|..] == rest;
  }

  lemma EndStops(heap: Heap, st: R.State, r: Wire)
    requires !st.seenEnd
    requires var s := R.Apply(heap, st, r); s.Continue? || s.outcome.Returned?
    ensures !R.Apply(heap, st, r).st.seenEnd
  {
    hide R.GetStatic, Store, Add64;
  }

  // ---------------------------------------------------------------- code

  lemma CoversFetch(im: Image, code: Code, addr: Word64, n: nat)
    requires Covers(im, code, addr, n)
    ensures Present(im, addr, n) && Fetch(im, addr, n) == W.CodeBytes(code, addr, n)
  {
    hide Add64, PageBase;
    forall p | p in Touched(addr, n)
      ensures p in im
    {
      var k: int :| 0 <= k < n && p == PageBase(Add64(addr, k));
      assert Holds(im, code, Add64(addr, k));
    }
    var f := Fetch(im, addr, n);
    forall k: int | 0 <= k < n
      ensures f[k] == W.CodeBytes(code, addr, n)[k]
    {
      assert Holds(im, code, Add64(addr, k));
    }
  }

  /** Storing code bytes anywhere keeps the bytes that were already right. */
  lemma StoreKeeps(heap: Heap, im: Image, code: Code, addr: Word64, n: nat, x: Word64)
    requires Holds(im, code, x)
    ensures Holds(Store(heap, im, addr, W.CodeBytes(code, addr, n)), code, x)
  {
    hide Add64, Distance, Store;
    BeforeStored(heap, im, addr, W.CodeBytes(code, addr, n), PageBase(x), x - PageBase(x));
  }

  lemma StoreCovers(heap: Heap, im: Image, code: Code, addr: Word64, n: nat)
    requires n < TWO32
    ensures Covers(Store(heap, im, addr, W.CodeBytes(code, addr, n)), code, addr, n)
  {
    hide Add64, Store, Touched;
    var bs := W.CodeBytes(code, addr, n);
    forall k: int | 0 <= k < n
      ensures Holds(Store(heap, im, addr, bs), code, Add64(addr, k))
    {
      var x := Add64(addr, k);
      assert Distance(addr, x) == k;
      TouchedWithin(addr, n, x);
      BeforeStored(heap, im, addr, bs, PageBase(x), x - PageBase(x));
    }
  }

  lemma OwnPage(im: Image, code: Code, base: Word64)
    requires base % PAGE == 0 && base in im && im[base] == W.CodeBytes(code, base, PAGE)
    ensures Covers(im, code, base, PAGE)
  {
    forall k: int | 0 <= k < PAGE
      ensures Holds(im, code, Add64(base, k))
    {
      PageBaseOf(base, base + k);
    }
  }

  lemma OtherPageKept(im: Image, code: Code, base: Word64, page: Page, b: Word64)
    requires b % PAGE == 0 && b + PAGE <= TWO64 && b != base && Covers(im, code, b, PAGE)
    ensures Covers(im[base := page], code, b, PAGE)
  {
    forall k: int | 0 <= k < PAGE
      ensures Holds(im[base := page], code, Add64(b, k))
    {
      assert Holds(im, code, Add64(b, k));
      PageBaseOf(b, b + k);
    }
  }

  lemma NewPageSynced(mode: W.Mode, code: Code, sizes: Sizes, sent: set<Word64>, im: Image, base: Word64)
    requires !mode.perInsn && base % PAGE == 0 && base != TWO64 - PAGE && CodeSynced(mode, code, sizes, sent, im)
    ensures CodeSynced(mode, code, sizes, sent + {base}, im[base := W.CodeBytes(code, base, PAGE)])
  {
    hide Covers;
    var im' := im[base := W.CodeBytes(code, base, PAGE)];
    OwnPage(im', code, base);
    forall b | b in sent && b != base
      ensures Covers(im', code, b, PAGE)
    {
      OtherPageKept(im, code, base, W.CodeBytes(code, base, PAGE), b);
    }
  }

  /** Feeding the page records: afterwards every page from `base` to `last` is there and right. */
  lemma {:induction false} PageStep(heap: Heap, mode: W.Mode, code: Code, sizes: Sizes, rs: R.State, sent: set<Word64>, base: Word64, last: Word64)
    requires !mode.perInsn && base % PAGE == 0 && last % PAGE == 0 && last < TWO64 - PAGE
    requires CodeSynced(mode, code, sizes, sent, rs.icache)
    ensures var (recs, sent') := W.PageRecords(code, sent, base, last);
            && Smooth(heap, rs, recs)
            && (var rs' := Feed(heap, rs, recs);
                && rs' == rs.(icache := rs'.icache)
                && CodeSynced(mode, code, sizes, sent', rs'.icache)
                && sent <= sent'
                && forall p: Word64 :: PageBase(p) == p && base <= p <= last ==> p in sent')
    decreases last + PAGE - base
  {
    hide CodeSynced, W.CodeBytes, PageBase;
    if base <= last {
      forall p: Word64 | PageBase(p) == p && base <= p <= last
        ensures p == base || base + PAGE <= p
      {
        PageGap(base, p);
      }
      if base in sent {
        PageStep(heap, mode, code, sizes, rs, sent, base + PAGE, last);
      } else {
        var rec := IcachePage(base, W.CodeBytes(code, base, PAGE));
        var rs1 := rs.(icache := rs.icache[base := rec.bytes]);
        assert R.Apply(heap, rs, rec) == R.Continue(rs1);
        NewPageSynced(mode, code, sizes, sent, rs.icache, base);
        PageStep(heap, mode, code, sizes, rs1, sent + {base}, base + PAGE, last);
        var rest := W.PageRecords(code, sent + {base}, base + PAGE, last).0;
        assert ([rec] + rest)[1..] == rest;
      }
    }
  }

  lemma PageGap(base: Word64, p: Word64)
    requires base % PAGE == 0 && PageBase(p) == p && base <= p
    ensures p == base || base + PAGE <= p
  {
  }

  lemma VariableStep(heap: Heap, mode: W.Mode, code: Code, sizes: Sizes, rs: R.State, sent: set<Word64>, addr: Word64)
    requires mode.perInsn && sizes(addr) < 16 && CodeSynced(mode, code, sizes, sent, rs.icache)
    ensures CodeSynced(mode, code, sizes, sent + {addr},
                       Store(heap, rs.icache, addr, W.CodeBytes(code, addr, sizes(addr))))
  {
    hide Holds, Store, Add64, W.CodeBytes;
    var im := Store(heap, rs.icache, addr, W.CodeBytes(code, addr, sizes(addr)));
    StoreCovers(heap, rs.icache, code, addr, sizes(addr));
    forall a | a in sent
      ensures Covers(im, code, a, sizes(a))
    {
      forall k: int | 0 <= k < sizes(a)
        ensures Holds(im, code, Add64(a, k))
      {
        StoreKeeps(heap, rs.icache, code, addr, sizes(addr), Add64(a, k));
      }
    }
  }

  lemma PagesCover(mode: W.Mode, code: Code, sizes: Sizes, sent: set<Word64>, im: Image, addr: Word64, size: nat)
    requires !mode.perInsn && CodeSynced(mode, code, sizes, sent, im)
    requires size >= 1 && addr + size <= TWO64
    requires forall p: Word64 :: PageBase(p) == p && PageBase(addr) <= p <= W.EndPage(addr, size) ==> p in sent
    ensures Covers(im, code, addr, size)
  {
    hide PageBase, Holds;
    assert W.EndPage(addr, size) == PageBase(addr + size - 1);
    forall k: int | 0 <= k < size
      ensures Holds(im, code, Add64(addr, k))
    {
      var x := addr + k;
      var p := PageBase(x);
      PageBaseMonotone(addr, x);
      PageBaseMonotone(x, addr + size - 1);
      PageBaseOf(p, p);
      assert p in sent;
      assert Holds(im, code, Add64(p, x - p));
    }
  }

  lemma PageBaseMonotone(x: Word64, y: Word64)
    requires x <= y
    ensures PageBase(x) <= PageBase(y)
  {
  }

  /** Feeding the code records of one instruction: afterwards its own bytes are there and right. */
  lemma CodeStep(heap: Heap, mode: W.Mode, code: Code, sizes: Sizes, rs: R.State, sent: set<Word64>, i: W.Insn)
    requires Traceable(mode, sizes, W.Instruction(i))
    requires CodeSynced(mode, code, sizes, sent, rs.icache)
    ensures var (recs, sent') := W.CodeRecords(mode, code, sent, i.addr, i.size);
            && Smooth(heap, rs, recs)
            && (var rs' := Feed(heap, rs, recs);
                && rs' == rs.(icache := rs'.icache)
                && CodeSynced(mode, code, sizes, sent', rs'.icache)
                && Covers(rs'.icache, code, i.addr, i.size))
  {
    hide CodeSynced, Covers, W.CodeBytes, W.PageRecords, Store;
    if mode.perInsn {
      if i.addr in sent {
        CoveredBefore(mode, code, sizes, sent, rs.icache, i.addr);
      } else {
        VariableStep(heap, mode, code, sizes, rs, sent, i.addr);
        var rec := IcacheVariable(i.addr, W.CodeBytes(code, i.addr, i.size));
        var rs1 := rs.(icache := Store(heap, rs.icache, i.addr, rec.bytes));
        assert R.Apply(heap, rs, rec) == R.Continue(rs1);
        CoveredBefore(mode, code, sizes, sent + {i.addr}, rs1.icache, i.addr);
        FeedOne(heap, rs, rec);
      }
    } else {
      PageStep(heap, mode, code, sizes, rs, sent, PageBase(i.addr), W.EndPage(i.addr, i.size));
      var (recs, sent') := W.PageRecords(code, sent, PageBase(i.addr), W.EndPage(i.addr, i.size));
      PagesCover(mode, code, sizes, sent', Feed(heap, rs, recs).icache, i.addr, i.size);
    }
  }

  lemma CoveredBefore(mode: W.Mode, code: Code, sizes: Sizes, sent: set<Word64>, im: Image, addr: Word64)
    requires mode.perInsn && addr in sent && CodeSynced(mode, code, sizes, sent, im)
    ensures Covers(im, code, addr, sizes(addr))
  {
  }

  lemma FeedOne(heap: Heap, st: R.State, r: Wire)
    ensures Feed(heap, st, [r]) == R.Apply(heap, st, r).st
    ensures Readable(r) && R.Apply(heap, st, r).Continue? ==> Smooth(heap, st, [r])
    ensures Readable(r) && R.Apply(heap, st, r).Stop? && R.Apply(heap, st, r).outcome.Returned? ==> Smooth(heap, st, [r])
  {
    hide R.Apply, Readable;
    assert [r][1..] == [];
    assert Smooth(heap, R.Apply(heap, st, r).st, []);
  }

  // ---------------------------------------------------------------- page mappings

  lemma {:induction false} MappingStep(heap: Heap, mode: W.Mode, lookup: W.Lookup, rs: R.State, vas: seq<Word64>)
    ensures var (recs, sent') := W.MappingRecords(mode, lookup, rs.vcache.Keys, vas);
            && Smooth(heap, rs, recs)
            && Feed(heap, rs, recs) == rs.(vcache := FirstFrames(mode.mapping, lookup, rs.vcache, vas))
            && sent' == FirstFrames(mode.mapping, lookup, rs.vcache, vas).Keys
    decreases |vas|
  {
    if vas != [] {
      var vp: Word64 := vas[0] / PAGE;
      if mode.mapping && vp !in rs.vcache && lookup(vp) != 0 {
        var rec := Logical2Physical(vp, lookup(vp));
        var rs1 := rs.(vcache := rs.vcache[vp := lookup(vp)]);
        assert R.Apply(heap, rs, rec) == R.Continue(rs1);
        assert rs1.vcache.Keys == rs.vcache.Keys + {vp};
        MappingStep(heap, mode, lookup, rs1, vas[1..]);
        var rest := W.MappingRecords(mode, lookup, rs1.vcache.Keys, vas[1..]).0;
        assert ([rec] + rest)[1..] == rest;
      } else {
        MappingStep(heap, mode, lookup, rs, vas[1..]);
        NoMapping(mode, lookup, rs.vcache, vas[1..]);
      }
    }
  }

  lemma NoMapping(mode: W.Mode, lookup: W.Lookup, frames: map<Word64, Word64>, vas: seq<Word64>)
    ensures !mode.mapping ==> FirstFrames(mode.mapping, lookup, frames, vas) == frames
  {
  }

  // ---------------------------------------------------------------- one call

  /** Whichever branch of the lookup is taken, it yields the one entry of that address. */
  lemma StaticStep(mode: W.Mode, code: Code, sizes: Sizes, im: Image, c: R.Statics, addr: Word64)
    requires StaticsSynced(mode, code, sizes, c) && Covers(im, code, addr, sizes(addr))
    requires !mode.perInsn ==> addr + sizes(addr) <= TWO64
    ensures var g := R.GetStatic(im, c, addr, sizes(addr));
            && g.Some? && g.value.0 == R.Static(addr, sizes(addr), W.CodeBytes(code, addr, sizes(addr)))
            && StaticsSynced(mode, code, sizes, g.value.1)
            && g.value.1.entries == c.entries[addr := g.value.0]
  {
    hide Covers, W.CodeBytes, Fetch, Present;
    CoversFetch(im, code, addr, sizes(addr));
    var s := R.Static(addr, sizes(addr), W.CodeBytes(code, addr, sizes(addr)));
    assert addr in c.entries ==> c.entries[addr := s] == c.entries;
  }

  /** The instruction record itself: the reader returns the instruction that was written. */
  lemma InsnStep(heap: Heap, mode: W.Mode, code: Code, sizes: Sizes, rs: R.State, i: W.Insn)
    requires Traceable(mode, sizes, W.Instruction(i))
    requires StaticsSynced(mode, code, sizes, rs.statics) && Covers(rs.icache, code, i.addr, i.size)
    ensures var s := R.Apply(heap, rs, W.InsnRecord(rs.lastAddress, i));
            && s.Stop? && s.outcome.Returned?
            && s.st == rs.(lastAddress := Add64(i.addr, i.size), statics := s.st.statics,
                           log := rs.log + Observe(code, rs.isa, rs.lastAddress, W.Instruction(i)))
            && StaticsSynced(mode, code, sizes, s.st.statics)
  {
    hide Covers, Add64, W.CodeBytes, R.GetStatic, StaticsSynced;
    StaticStep(mode, code, sizes, rs.icache, rs.statics, i.addr);
  }

  /** Feeding the records of one traceable call keeps both sides in step. */
  lemma CallStep(heap: Heap, mode: W.Mode, code: Code, sizes: Sizes, v: View, ws: W.State, rs: R.State, it: Item)
    requires Traceable(mode, sizes, it.call) && Synced(mode, code, sizes, v, ws, rs)
    ensures var (recs, ws') := W.Write(mode, code, it.lookup, ws, it.call);
            && Smooth(heap, rs, recs)
            && Synced(mode, code, sizes, ViewAfter(mode.mapping, code, v, it), ws', Feed(heap, rs, recs))
            && Feed(heap, rs, recs).rest == rs.rest
  {
    if it.call.Instruction? {
      InstructionStep(heap, mode, code, sizes, v, ws, rs, it);
    } else {
      EventStep(heap, mode, code, sizes, v, ws, rs, it);
    }
  }

  lemma InstructionStep(heap: Heap, mode: W.Mode, code: Code, sizes: Sizes, v: View, ws: W.State, rs: R.State, it: Item)
    requires it.call.Instruction?
    requires Traceable(mode, sizes, it.call) && Synced(mode, code, sizes, v, ws, rs)
    ensures var (recs, ws') := W.Write(mode, code, it.lookup, ws, it.call);
            && Smooth(heap, rs, recs)
            && Synced(mode, code, sizes, ViewAfter(mode.mapping, code, v, it), ws', Feed(heap, rs, recs))
            && Feed(heap, rs, recs).rest == rs.rest
  {
    hide R.Apply, W.CodeRecords, W.MappingRecords, W.InsnRecord, CodeSynced, StaticsSynced, Covers, FirstFrames, Observe, Add64, Encodable, Readable;
    var i := it.call.insn;
    var vas := [i.addr] + i.addresses;
    var (codeRecs, icache) := W.CodeRecords(mode, code, ws.icache, i.addr, i.size);
    var (mapRecs, va2pa) := W.MappingRecords(mode, it.lookup, ws.va2pa, vas);
    CodeStep(heap, mode, code, sizes, rs, ws.icache, i);
    var rs1 := Feed(heap, rs, codeRecs);
    MappingStep(heap, mode, it.lookup, rs1, vas);
    var rs2 := Feed(heap, rs1, mapRecs);
    FeedConcat(heap, rs, codeRecs, mapRecs);
    var rec: Wire := W.InsnRecord(ws.lastAddress, i);
    InsnStep(heap, mode, code, sizes, rs2, i);
    InsnReadable(ws.lastAddress, i);
    FeedOne(heap, rs2, rec);
    FeedConcat(heap, rs, codeRecs + mapRecs, [rec]);
  }

  lemma InsnReadable(last: Word64, i: W.Insn)
    requires i.size < 16 && |i.addresses| <= MAX_DYNAMIC_ADDRESSES
    ensures Readable(W.InsnRecord(last, i)) <==> i.size >= 1
  {
  }

  lemma EventStep(heap: Heap, mode: W.Mode, code: Code, sizes: Sizes, v: View, ws: W.State, rs: R.State, it: Item)
    requires !it.call.Instruction?
    requires Traceable(mode, sizes, it.call) && Synced(mode, code, sizes, v, ws, rs)
    ensures var (recs, ws') := W.Write(mode, code, it.lookup, ws, it.call);
            && Smooth(heap, rs, recs)
            && Synced(mode, code, sizes, ViewAfter(mode.mapping, code, v, it), ws', Feed(heap, rs, recs))
            && Feed(heap, rs, recs).rest == rs.rest
  {
    hide W.MappingRecords, CodeSynced, StaticsSynced, Add64, Feed, Smooth;
    var recs := W.Write(mode, code, it.lookup, ws, it.call).0;
    assert FirstFrames(mode.mapping, it.lookup, v.frames, []) == v.frames;
    if it.call.CacheOnly? {
      var vas := [it.call.eip, it.call.address];
      var mapRecs := W.MappingRecords(mode, it.lookup, ws.va2pa, vas).0;
      MappingStep(heap, mode, it.lookup, rs, vas);
      var rs1 := Feed(heap, rs, mapRecs);
      var rec: Wire := CacheOnly(it.call.icount, it.call.kind, it.call.eip, it.call.address);
      FeedOne(heap, rs1, rec);
      FeedConcat(heap, rs, mapRecs, [rec]);
    } else if it.call.SyscallPages? {
      MappingStep(heap, mode, it.lookup, rs, W.SyscallAddresses(it.call.number, it.call.data));
      assert v.seen + [] == v.seen;
    } else {
      FeedOne(heap, rs, recs[0]);
      assert recs == [recs[0]];
    }
  }

  // ---------------------------------------------------------------- whole runs

  ghost predicate AllTraceable(mode: W.Mode, sizes: Sizes, items: seq<Item>)
  {
    forall it <- items :: Traceable(mode, sizes, it.call)
  }

  /** Reading the records of any sequence of traceable calls keeps both sides in step: addresses, ISA,
      page frames, code, and what the client has seen are those of the reference run. */
  lemma {:induction false} RunStaysSynced(heap: Heap, mode: W.Mode, code: Code, sizes: Sizes, v: View, ws: W.State, rs: R.State, items: seq<Item>)
    requires AllTraceable(mode, sizes, items) && Synced(mode, code, sizes, v, ws, rs)
    ensures AllAccepted(mode, items)
    ensures var (recs, ws') := WriteRun(mode, code, ws, items);
            && Smooth(heap, rs, recs)
            && Synced(mode, code, sizes, ViewRun(mode.mapping, code, v, items), ws', Feed(heap, rs, recs))
            && Feed(heap, rs, recs).rest == rs.rest
    decreases |items|
  {
    hide Synced, W.Write, ViewAfter, R.Apply;
    if items != [] {
      var (recs, ws') := W.Write(mode, code, items[0].lookup, ws, items[0].call);
      CallStep(heap, mode, code, sizes, v, ws, rs, items[0]);
      var rs' := Feed(heap, rs, recs);
      RunStaysSynced(heap, mode, code, sizes, ViewAfter(mode.mapping, code, v, items[0]), ws', rs', items[1..]);
      FeedConcat(heap, rs, recs, WriteRun(mode, code, ws', items[1..]).0);
    }
  }

  lemma InitiallySynced(mode: W.Mode, code: Code, sizes: Sizes, rest: seq<Byte>)
    ensures Synced(mode, code, sizes, BLANK, W.INITIAL, R.Start(rest))
  {
  }

  /** The stream of a whole run, closed by End. */
  ghost function Stream(mode: W.Mode, code: Code, arch32: bool, items: seq<Item>): (bs: seq<Byte>)
    requires AllAccepted(mode, items)
    ensures |bs| >= 16
  {
    EncodeHeader(Options(arch32, mode.perInsn, mode.mapping)) + EncodeAll(WriteRun(mode, code, W.INITIAL, items).0) + Encode(End)
  }

  /** The round trip: the reader accepts the header, returns exactly what was written, in order, consumes
      exactly the bytes of the run and ends with the writer's address and page frames. */
  lemma RoundTrip(heap: Heap, mode: W.Mode, code: Code, sizes: Sizes, arch32: bool, items: seq<Item>, tail: seq<Byte>)
    requires AllTraceable(mode, sizes, items)
    ensures AllAccepted(mode, items)
    ensures var stream := Stream(mode, code, arch32, items) + tail;
            && ParseHeader(stream) == Accepted(mode.mapping)
            && (var (o, rs) := ReadRun(heap, R.Start(stream[16..]));
                var v := ViewRun(mode.mapping, code, BLANK, items);
                && o == R.Ended && rs.rest == tail
                && rs.log == v.seen && rs.vcache == v.frames && rs.isa == v.isa
                && rs.lastAddress == v.last == WriteRun(mode, code, W.INITIAL, items).1.lastAddress)
  {
    hide Synced, EncodeAll, Encode, EncodeHeader, ParseHeader, ViewRun, WriteRun, Feed;
    var options := Options(arch32, mode.perInsn, mode.mapping);
    InitiallySynced(mode, code, sizes, Encode(End) + tail);
    RunStaysSynced(heap, mode, code, sizes, BLANK, W.INITIAL, R.Start(Encode(End) + tail), items);
    var recs := WriteRun(mode, code, W.INITIAL, items).0;
    var body := EncodeAll(recs) + (Encode(End) + tail);
    var stream := Stream(mode, code, arch32, items) + tail;
    assert stream == EncodeHeader(options) + body;
    HeaderRoundTrip(options, body);
    assert stream[16..] == body;
    FeedReads(heap, R.Start(body), recs, Encode(End) + tail);
    var rs := Feed(heap, R.Start(Encode(End) + tail), recs);
    ReadEnd(heap, rs, tail);
    FinalView(mode, code, sizes, ViewRun(mode.mapping, code, BLANK, items), WriteRun(mode, code, W.INITIAL, items).1, rs);
  }

  lemma FinalView(mode: W.Mode, code: Code, sizes: Sizes, v: View, ws: W.State, rs: R.State)
    requires Synced(mode, code, sizes, v, ws, rs)
    ensures !rs.seenEnd && rs.log == v.seen && rs.vcache == v.frames && rs.isa == v.isa
    ensures rs.lastAddress == v.last == ws.lastAddress
  {
  }

  lemma ReadEnd(heap: Heap, rs: R.State, tail: seq<Byte>)
    requires rs.rest == Encode(End) + tail
    ensures !rs.seenEnd ==> ReadRun(heap, rs) == (R.Ended, rs.(rest := tail, seenEnd := true))
  {
    hide Encode, Parse;
    assert Encodable(End);
    ReadOne(heap, rs, End, tail);
  }
}
