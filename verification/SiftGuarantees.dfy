/** Consequences of the round trip, and the exact conditions under which it holds. */
module SiftGuarantees {
  import opened SiftFormat
  import opened SiftCodeImage
  import opened SiftRoundTrip
  import W = SiftWriter
  import R = SiftReader
  import opened Wrappers

  // ---------------------------------------------------------------- the executed flag

  /** The record of an instruction, parsed and handled by a reader in step with the writer, returns the
      instruction; its flag survives unless it is sent in the short form and was not executed. */
  lemma ExecutedExact(heap: Heap, mode: W.Mode, code: Code, sizes: Sizes, rs: R.State, i: W.Insn, rest: seq<Byte>)
    requires Traceable(mode, sizes, W.Instruction(i))
    requires StaticsSynced(mode, code, sizes, rs.statics) && Covers(rs.icache, code, i.addr, i.size)
    ensures var s := R.ReadRecord(heap, rs.(rest := Encode(W.InsnRecord(rs.lastAddress, i)) + rest));
            && s.Stop? && s.outcome.Returned? && s.st.rest == rest
            && |s.st.log| == |rs.log| + 1 && s.st.log[|rs.log|].Insn?
            && (s.st.log[|rs.log|].d.executed == i.executed <==> i.executed || i.isPredicate || i.addr != rs.lastAddress)
  {
    hide Covers, StaticsSynced, Encode, Parse, R.Apply;
    var r := W.InsnRecord(rs.lastAddress, i);
    InsnReadable(rs.lastAddress, i);
    var rs' := rs.(rest := rest);
    ParseEncode(r, rest);
    assert (Encode(r) + rest)[|Encode(r)|..] == rest;
    InsnStep(heap, mode, code, sizes, rs', i);
  }

  /** What was written, independently of how it was encoded. */
  function SentBy(code: Code, isa: int, c: W.Call): (obs: seq<R.Observed>)
  {
    match c
    case Instruction(i) =>
      [R.Insn(R.Decoded(R.Static(i.addr, i.size, W.CodeBytes(code, i.addr, i.size)), i.addresses,
                        i.isBranch, i.taken, i.isPredicate, i.executed, isa))]
    case CacheOnly(icount, kind, eip, address) => [R.Observed.CacheOnly(icount, kind, eip, address)]
    case Output(fd, data) => [R.Observed.Output(fd, data)]
    case RoutineChange(event, eip, esp, callEip) => [R.Observed.RoutineChange(event, eip, esp, callEip)]
    case IsaChange(_) => []
    case SyscallPages(_, _) => []
  }

  function Sent(code: Code, isa: int, items: seq<Item>): (obs: seq<R.Observed>)
    decreases |items|
  {
    if items == [] then []
    else SentBy(code, isa, items[0].call) + Sent(code, IsaAfter(isa, items[0].call), items[1..])
  }

  /** Every instruction that is not predicated is executed, or is not where the previous one ended. */
  predicate FlagsCarried(last: Word64, items: seq<Item>)
    decreases |items|
  {
    items == [] ||
    (&& (items[0].call.Instruction? ==>
           var i := items[0].call.insn; i.executed || i.isPredicate || i.addr != last)
     && FlagsCarried(LastAfter(last, items[0].call), items[1..]))
  }

  lemma {:induction false} ViewAppends(mapping: bool, code: Code, v: View, items: seq<Item>)
    ensures v.seen <= ViewRun(mapping, code, v, items).seen
    decreases |items|
  {
    hide Observe, FirstFrames;
    if items != [] {
      ViewAppends(mapping, code, ViewAfter(mapping, code, v, items[0]), items[1..]);
    }
  }

  /** The client sees exactly what was written if and only if the flags are carried. */
  lemma {:induction false} SeenAsSent(mapping: bool, code: Code, v: View, items: seq<Item>)
    ensures ViewRun(mapping, code, v, items).seen == v.seen + Sent(code, v.isa, items) <==> FlagsCarried(v.last, items)
    decreases |items|
  {
    hide FirstFrames;
    if items == [] {
      assert v.seen + [] == v.seen;
    } else {
      hide Observe, SentBy;
      var v' := ViewAfter(mapping, code, v, items[0]);
      var one := Observe(code, v.isa, v.last, items[0].call);
      SeenAsSent(mapping, code, v', items[1..]);
      ViewAppends(mapping, code, v', items[1..]);
      SentByExact(code, v.isa, v.last, items[0].call);
      SameSplit(ViewRun(mapping, code, v, items).seen, v.seen, one,
                SentBy(code, v.isa, items[0].call), Sent(code, v'.isa, items[1..]));
    }
  }

  /** Read back from the bytes of a whole trace, the client gets exactly what was sent if and only if no
      instruction in the short form is sent as not executed. */
  lemma ReadAsSent(heap: Heap, mode: W.Mode, code: Code, sizes: Sizes, arch32: bool, items: seq<Item>, tail: seq<Byte>)
    requires AllTraceable(mode, sizes, items)
    ensures AllAccepted(mode, items)
    ensures var stream := Stream(mode, code, arch32, items) + tail;
            && ReadRun(heap, R.Start(stream[16..])).0 == R.Ended
            && (ReadRun(heap, R.Start(stream[16..])).1.log == Sent(code, 0, items) <==> FlagsCarried(0, items))
  {
    hide ReadRun, Stream, ViewRun, Sent, FlagsCarried, AllTraceable, AllAccepted, WriteRun;
    RoundTrip(heap, mode, code, sizes, arch32, items, tail);
    SeenAsSent(mode.mapping, code, BLANK, items);
    assert BLANK.seen + Sent(code, 0, items) == Sent(code, 0, items);
  }

  lemma SentByExact(code: Code, isa: int, last: Word64, c: W.Call)
    ensures |Observe(code, isa, last, c)| == |SentBy(code, isa, c)|
    ensures Observe(code, isa, last, c) == SentBy(code, isa, c) <==>
            (c.Instruction? ==> c.insn.executed || c.insn.isPredicate || c.insn.addr != last)
  {
  }

  lemma SameSplit<T>(all: seq<T>, a: seq<T>, x: seq<T>, y: seq<T>, rest: seq<T>)
    requires |x| == |y| && a + x <= all
    ensures all == a + (y + rest) <==> all == (a + x) + rest && x == y
  {
    if all == a + (y + rest) {
      forall k | 0 <= k < |x|
        ensures x[k] == y[k]
      {
        assert (a + x)[|a| + k] == all[|a| + k] == (a + (y + rest))[|a| + k];
      }
    }
    assert a + (y + rest) == (a + y) + rest;
  }

  // ---------------------------------------------------------------- the static-instruction shortcut

  /** The `next` pointer changes nothing as long as an address keeps its size.  With another size the plain
      lookup stops at its assert, and the shortcut is the one way to get an entry, with its old size. */
  lemma ShortcutExact(im: Image, c: R.Statics, addr: Word64, size: nat)
    ensures var plain := R.GetStatic(im, c.(next := map[], last := None), addr, size);
            var fast := R.GetStatic(im, c, addr, size);
            var hit := c.last.Some? && c.last.value in c.next && c.next[c.last.value] == addr;
            if addr in c.entries && c.entries[addr].size != size
            then plain.None? && (fast.Some? <==> hit) && (hit ==> fast.value.0 == c.entries[addr])
            else && (plain.Some? <==> fast.Some?)
                 && (fast.Some? ==>
                       && fast.value.0 == plain.value.0 == fast.value.1.entries[addr]
                       && fast.value.1.entries == plain.value.1.entries
                       && (addr in c.entries ==> fast.value.0 == c.entries[addr]))
  {
    hide Present, Fetch;
  }

  // ---------------------------------------------------------------- physical addresses

  predicate Touches(it: Item, vp: Word64)
  {
    exists k :: 0 <= k < |Addresses(it.call)| && Addresses(it.call)[k] / PAGE == vp
  }

  /** The first call that uses page vp while it is mapped. */
  function FirstTouch(items: seq<Item>, vp: Word64): (r: Option<nat>)
    ensures r.Some? ==> r.value < |items|
    decreases |items|
  {
    if items == [] then None
    else if Touches(items[0], vp) && items[0].lookup(vp) != 0 then Some(0)
    else
      match FirstTouch(items[1..], vp)
      case None => None
      case Some(j) => Some(j + 1)
  }

  lemma {:induction false} FramesOfCall(lookup: W.Lookup, frames: map<Word64, Word64>, vas: seq<Word64>, vp: Word64)
    ensures var r := FirstFrames(true, lookup, frames, vas);
            && (vp in frames ==> vp in r && r[vp] == frames[vp])
            && (vp !in frames ==>
                  (vp in r <==> lookup(vp) != 0 && exists k :: 0 <= k < |vas| && vas[k] / PAGE == vp)
                  && (vp in r ==> r[vp] == lookup(vp)))
    decreases |vas|
  {
    if vas != [] {
      var p: Word64 := vas[0] / PAGE;
      var frames' := if p !in frames && lookup(p) != 0 then frames[p := lookup(p)] else frames;
      FramesOfCall(lookup, frames', vas[1..], vp);
      assert forall k :: 0 <= k < |vas| - 1 ==> vas[1..][k] == vas[k + 1];
      if exists k :: 0 <= k < |vas| && vas[k] / PAGE == vp {
        var k :| 0 <= k < |vas| && vas[k] / PAGE == vp;
        assert k > 0 ==> vas[1..][k - 1] / PAGE == vp;
      }
    }
  }

  /** With mapping on, the frame known for a page is the one found by the first call that used the page
      while it was mapped, and there is none as long as there was no such call. */
  lemma {:induction false} FramesAreFirst(code: Code, v: View, items: seq<Item>, vp: Word64)
    ensures var r := ViewRun(true, code, v, items).frames;
            && (vp in v.frames ==> vp in r && r[vp] == v.frames[vp])
            && (vp !in v.frames ==>
                  match FirstTouch(items, vp)
                  case None => vp !in r
                  case Some(j) => vp in r && r[vp] == items[j].lookup(vp))
    decreases |items|
  {
    hide Observe, FirstFrames, Addresses;
    if items != [] {
      FramesOfCall(items[0].lookup, v.frames, Addresses(items[0].call), vp);
      FramesAreFirst(code, ViewAfter(true, code, v, items[0]), items[1..], vp);
    }
  }

  /** After the bytes of any run with mapping on: the physical address of every page offset. */
  lemma PhysicalAddresses(heap: Heap, mode: W.Mode, code: Code, sizes: Sizes, items: seq<Item>, rest: seq<Byte>, va: Word64)
    requires AllTraceable(mode, sizes, items) && mode.mapping
    ensures AllAccepted(mode, items)
    ensures var vcache := Feed(heap, R.Start(rest), WriteRun(mode, code, W.INITIAL, items).0).vcache;
            match FirstTouch(items, va / PAGE)
            case None => R.Va2Pa(true, vcache, va) == 0
            case Some(j) =>
              var frame := items[j].lookup(va / PAGE);
              && R.Va2Pa(true, vcache, va) == R.BitOr((frame * PAGE) % TWO64, va % PAGE)
              && (R.Va2Pa(true, vcache, va) == frame * PAGE + va % PAGE <==> frame < 0x10_0000_0000_0000)
  {
    hide R.BitOr, Feed, WriteRun, CodeSynced, StaticsSynced;
    InitiallySynced(mode, code, sizes, rest);
    RunStaysSynced(heap, mode, code, sizes, BLANK, W.INITIAL, R.Start(rest), items);
    FramesAreFirst(code, BLANK, items, va / PAGE);
    var vcache := Feed(heap, R.Start(rest), WriteRun(mode, code, W.INITIAL, items).0).vcache;
    if FirstTouch(items, va / PAGE).Some? {
      R.Va2PaExact(vcache, va);
    }
  }

  // ---------------------------------------------------------------- nothing is sent twice

  /** The page a mapping record is about. */
  function MapKey(r: Record): (k: Option<Word64>)
  {
    if r.Logical2Physical? then Some(r.vp) else None
  }

  /** The page or instruction a code record is about. */
  function CodeKey(r: Record): (k: Option<Word64>)
  {
    if r.IcachePage? then Some(r.base) else if r.IcacheVariable? then Some(r.start) else None
  }

  /** The keys of `recs` are all different, new to `before` and part of `after`. */
  ghost predicate Once(key: Record -> Option<Word64>, before: set<Word64>, after: set<Word64>, recs: seq<Record>)
  {
    && before <= after
    && (forall i :: 0 <= i < |recs| && key(recs[i]).Some? ==> key(recs[i]).value !in before && key(recs[i]).value in after)
    && (forall i, j :: 0 <= i < j < |recs| && key(recs[i]).Some? ==> key(recs[i]) != key(recs[j]))
  }

  lemma OnceConcat(key: Record -> Option<Word64>, a: set<Word64>, b: set<Word64>, c: set<Word64>, xs: seq<Record>, ys: seq<Record>)
    requires Once(key, a, b, xs) && Once(key, b, c, ys)
    ensures Once(key, a, c, xs + ys)
  {
    var all := xs + ys;
    forall i | 0 <= i < |all| && key(all[i]).Some?
      ensures key(all[i]).value !in a && key(all[i]).value in c
    {
      assert all[i] == if i < |xs| then xs[i] else ys[i - |xs|];
    }
    forall i, j | 0 <= i < j < |all| && key(all[i]).Some?
      ensures key(all[i]) != key(all[j])
    {
      assert all[i] == if i < |xs| then xs[i] else ys[i - |xs|];
      assert all[j] == if j < |xs| then xs[j] else ys[j - |xs|];
    }
  }

  lemma {:induction false} PagesOnce(code: Code, sent: set<Word64>, base: Word64, last: Word64)
    requires last < TWO64 - PAGE
    ensures var (recs, sent') := W.PageRecords(code, sent, base, last);
            Once(CodeKey, sent, sent', recs) && forall m :: Once(MapKey, m, m, recs)
    decreases last + PAGE - base
  {
    hide W.CodeBytes;
    if base <= last {
      if base in sent {
        PagesOnce(code, sent, base + PAGE, last);
      } else {
        PagesOnce(code, sent + {base}, base + PAGE, last);
        var rec := IcachePage(base, W.CodeBytes(code, base, PAGE));
        var (rest, sent') := W.PageRecords(code, sent + {base}, base + PAGE, last);
        assert Once(CodeKey, sent, sent + {base}, [rec]);
        OnceConcat(CodeKey, sent, sent + {base}, sent', [rec], rest);
        forall m
          ensures Once(MapKey, m, m, [rec] + rest)
        {
          assert Once(MapKey, m, m, [rec]);
          OnceConcat(MapKey, m, m, m, [rec], rest);
        }
      }
    }
  }

  lemma {:induction false} MappingsOnce(mode: W.Mode, lookup: W.Lookup, sent: set<Word64>, vas: seq<Word64>)
    ensures var (recs, sent') := W.MappingRecords(mode, lookup, sent, vas);
            Once(MapKey, sent, sent', recs) && forall m :: Once(CodeKey, m, m, recs)
    decreases |vas|
  {
    if vas != [] {
      var vp: Word64 := vas[0] / PAGE;
      if mode.mapping && vp !in sent && lookup(vp) != 0 {
        MappingsOnce(mode, lookup, sent + {vp}, vas[1..]);
        var rec := Logical2Physical(vp, lookup(vp));
        var (rest, sent') := W.MappingRecords(mode, lookup, sent + {vp}, vas[1..]);
        assert Once(MapKey, sent, sent + {vp}, [rec]);
        OnceConcat(MapKey, sent, sent + {vp}, sent', [rec], rest);
        forall m
          ensures Once(CodeKey, m, m, [rec] + rest)
        {
          assert Once(CodeKey, m, m, [rec]);
          OnceConcat(CodeKey, m, m, m, [rec], rest);
        }
      } else {
        MappingsOnce(mode, lookup, sent, vas[1..]);
      }
    }
  }

  /** The records of one call, for both kinds of keys. */
  ghost predicate BothOnce(st: W.State, st': W.State, recs: seq<Record>)
  {
    Once(CodeKey, st.icache, st'.icache, recs) && Once(MapKey, st.va2pa, st'.va2pa, recs)
  }

  lemma BothOnceConcat(a: W.State, b: W.State, c: W.State, xs: seq<Record>, ys: seq<Record>)
    requires BothOnce(a, b, xs) && BothOnce(b, c, ys)
    ensures BothOnce(a, c, xs + ys)
  {
    hide Once;
    OnceConcat(CodeKey, a.icache, b.icache, c.icache, xs, ys);
    OnceConcat(MapKey, a.va2pa, b.va2pa, c.va2pa, xs, ys);
  }

  lemma NoKey(st: W.State, last: Word64, rec: Record)
    requires MapKey(rec).None? && CodeKey(rec).None?
    ensures BothOnce(st, st.(lastAddress := last), [rec])
  {
  }

  lemma CodeOnce(mode: W.Mode, code: Code, st: W.State, addr: Word64, size: nat)
    requires size < 16 && (!mode.perInsn ==> W.EndPage(addr, size) < TWO64 - PAGE)
    ensures var (recs, icache) := W.CodeRecords(mode, code, st.icache, addr, size);
            BothOnce(st, st.(icache := icache), recs)
  {
    hide W.CodeBytes, W.PageRecords;
    if !mode.perInsn {
      PagesOnce(code, st.icache, PageBase(addr), W.EndPage(addr, size));
      var recs := W.PageRecords(code, st.icache, PageBase(addr), W.EndPage(addr, size)).0;
      assert Once(MapKey, st.va2pa, st.va2pa, recs);
    }
  }

  lemma MapsOnce(mode: W.Mode, lookup: W.Lookup, st: W.State, vas: seq<Word64>)
    ensures var (recs, va2pa) := W.MappingRecords(mode, lookup, st.va2pa, vas);
            BothOnce(st, st.(va2pa := va2pa), recs)
  {
    MappingsOnce(mode, lookup, st.va2pa, vas);
    var recs := W.MappingRecords(mode, lookup, st.va2pa, vas).0;
    assert Once(CodeKey, st.icache, st.icache, recs);
  }

  lemma CallOnce(mode: W.Mode, code: Code, st: W.State, it: Item)
    requires W.Accepts(mode, it.call)
    ensures var (recs, st') := W.Write(mode, code, it.lookup, st, it.call); BothOnce(st, st', recs)
  {
    hide BothOnce, W.CodeRecords, W.MappingRecords;
    match it.call
    case Instruction(i) =>
      var (codeRecs, icache) := W.CodeRecords(mode, code, st.icache, i.addr, i.size);
      var (mapRecs, va2pa) := W.MappingRecords(mode, it.lookup, st.va2pa, [i.addr] + i.addresses);
      CodeOnce(mode, code, st, i.addr, i.size);
      MapsOnce(mode, it.lookup, st.(icache := icache), [i.addr] + i.addresses);
      var mid := st.(icache := icache, va2pa := va2pa);
      BothOnceConcat(st, st.(icache := icache), mid, codeRecs, mapRecs);
      NoKey(mid, Add64(i.addr, i.size), W.InsnRecord(st.lastAddress, i));
      BothOnceConcat(st, mid, mid.(lastAddress := Add64(i.addr, i.size)), codeRecs + mapRecs, [W.InsnRecord(st.lastAddress, i)]);
    case CacheOnly(icount, kind, eip, address) =>
      var (mapRecs, va2pa) := W.MappingRecords(mode, it.lookup, st.va2pa, [eip, address]);
      MapsOnce(mode, it.lookup, st, [eip, address]);
      var mid := st.(va2pa := va2pa);
      NoKey(mid, st.lastAddress, CacheOnly(icount, kind, eip, address));
      BothOnceConcat(st, mid, mid, mapRecs, [CacheOnly(icount, kind, eip, address)]);
    case Output(fd, data) => NoKey(st, st.lastAddress, Output(fd, data));
    case RoutineChange(event, eip, esp, callEip) => NoKey(st, st.lastAddress, RoutineChange(event, eip, esp, callEip));
    case IsaChange(isa) => NoKey(st, st.lastAddress, IsaChange(isa));
    case SyscallPages(number, data) => MapsOnce(mode, it.lookup, st, W.SyscallAddresses(number, data));
  }

  /** Over a whole run, no page mapping, code page or instruction bytes are sent twice. */
  lemma {:induction false} RunSendsOnce(mode: W.Mode, code: Code, st: W.State, items: seq<Item>)
    requires AllAccepted(mode, items)
    ensures var (recs, st') := WriteRun(mode, code, st, items); BothOnce(st, st', recs)
    decreases |items|
  {
    hide W.Write;
    if items != [] {
      var (recs, st') := W.Write(mode, code, items[0].lookup, st, items[0].call);
      CallOnce(mode, code, st, items[0]);
      RunSendsOnce(mode, code, st', items[1..]);
      var (rest, end) := WriteRun(mode, code, st', items[1..]);
      BothOnceConcat(st, st', end, recs, rest);
    }
  }

  // ---------------------------------------------------------------- exactly when a call survives

  lemma {:induction false} SmoothSplit(heap: Heap, st: R.State, xs: seq<Wire>, ys: seq<Wire>)
    requires Smooth(heap, st, xs + ys)
    ensures Smooth(heap, Feed(heap, st, xs), ys)
    decreases |xs|
  {
    hide R.Apply, Readable;
    if xs == [] {
      assert xs + ys == ys;
    } else {
      assert (xs + ys)[1..] == xs[1..] + ys;
      SmoothSplit(heap, R.Apply(heap, st, xs[0]).st, xs[1..], ys);
    }
  }

  /** In page mode an instruction that wraps around the end of memory never reaches the client: no code
      is sent for it and the reader's assert on the missing page fails. */
  lemma WrappedFails(heap: Heap, mode: W.Mode, code: Code, sizes: Sizes, rs: R.State, sent: set<Word64>, i: W.Insn)
    requires W.Accepts(mode, W.Instruction(i)) && !mode.perInsn && i.size == sizes(i.addr) >= 1 && i.addr + i.size > TWO64
    requires CodeSynced(mode, code, sizes, sent, rs.icache) && StaticsSynced(mode, code, sizes, rs.statics)
    ensures W.CodeRecords(mode, code, sent, i.addr, i.size) == ([], sent)
    ensures R.Apply(heap, rs, W.InsnRecord(rs.lastAddress, i)) == R.Stop(R.Aborted, rs.(lastAddress := Add64(i.addr, i.size)))
  {
    hide Covers, Fetch;
    assert W.EndPage(i.addr, i.size) == 0 && PageBase(i.addr) == TWO64 - PAGE;
    assert PageBase(Add64(i.addr, 0)) in Touched(i.addr, i.size);
    assert R.GetStatic(rs.icache, rs.statics, i.addr, i.size).None?;
  }

  lemma InsnFails(heap: Heap, mode: W.Mode, code: Code, sizes: Sizes, v: View, ws: W.State, rs: R.State, it: Item)
    requires it.call.Instruction? && W.Accepts(mode, it.call) && Synced(mode, code, sizes, v, ws, rs)
    requires it.call.insn.size == sizes(it.call.insn.addr) && !Traceable(mode, sizes, it.call)
    ensures !Smooth(heap, rs, W.Write(mode, code, it.lookup, ws, it.call).0)
  {
    hide R.Apply, W.CodeRecords, W.MappingRecords, W.InsnRecord, CodeSynced, StaticsSynced, FirstFrames, Add64, Readable;
    var i := it.call.insn;
    var vas := [i.addr] + i.addresses;
    var (codeRecs, icache) := W.CodeRecords(mode, code, ws.icache, i.addr, i.size);
    var (mapRecs, va2pa) := W.MappingRecords(mode, it.lookup, ws.va2pa, vas);
    var rec: Wire := W.InsnRecord(ws.lastAddress, i);
    var recs := codeRecs + mapRecs + [rec];
    if Smooth(heap, rs, recs) {
      SmoothSplit(heap, rs, codeRecs + mapRecs, [rec]);
      InsnReadable(ws.lastAddress, i);
      if i.size >= 1 {
        WrappedFails(heap, mode, code, sizes, rs, ws.icache, i);
        MappingStep(heap, mode, it.lookup, rs, vas);
        assert codeRecs + mapRecs == mapRecs;
        WrappedFails(heap, mode, code, sizes, Feed(heap, rs, mapRecs), ws.icache, i);
      }
    }
  }

  /** The records of an accepted call are all read back exactly when the call is traceable. */
  lemma CallExact(heap: Heap, mode: W.Mode, code: Code, sizes: Sizes, v: View, ws: W.State, rs: R.State, it: Item)
    requires W.Accepts(mode, it.call) && Synced(mode, code, sizes, v, ws, rs)
    requires it.call.Instruction? ==> it.call.insn.size == sizes(it.call.insn.addr)
    ensures Smooth(heap, rs, W.Write(mode, code, it.lookup, ws, it.call).0) <==> Traceable(mode, sizes, it.call)
  {
    if Traceable(mode, sizes, it.call) {
      CallStep(heap, mode, code, sizes, v, ws, rs, it);
    } else if it.call.Instruction? {
      InsnFails(heap, mode, code, sizes, v, ws, rs, it);
    }
  }
}
