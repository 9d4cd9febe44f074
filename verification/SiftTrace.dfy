/** Tracing and blocking calls together: what the back end has read when a handler runs. */
module SiftTrace {
  import opened SiftFormat
  import opened SiftCodeImage
  import opened SiftProtocol
  import opened SiftRoundTrip
  import opened Wrappers
  import S = SiftSession
  import W = SiftWriter
  import R = SiftReader

  /** The trace records that the front end has written, and those that the back end has read. */
  function Written(log: seq<S.Event>): (rs: seq<Record>)
  {
    if log == [] then []
    else
      var e := log[|log| - 1];
      Written(log[..|log| - 1]) + if e.Queued? then [e.note] else []
  }

  function Read(log: seq<S.Event>): (rs: seq<Record>)
  {
    if log == [] then []
    else
      var e := log[|log| - 1];
      Read(log[..|log| - 1]) + if e.Noted? then [e.note] else []
  }

  /** Records are read in the order in which they were written, and what is still under way is known. */
  lemma {:induction false} ReadInOrder(mem: S.Memory, log: seq<S.Event>)
    requires S.AcceptAll(S.Machine(S.Quiet, mem, []), log).Some?
    ensures Written(log) == Read(log) + S.AcceptAll(S.Machine(S.Quiet, mem, []), log).value.notes
  {
    var start := S.Machine(S.Quiet, mem, []);
    if log != [] {
      var n := |log| - 1;
      ReadInOrder(mem, log[..n]);
      var m, m' := S.AcceptAll(start, log[..n]).value, S.AcceptAll(start, log).value;
      assert S.Accept(m, log[n]) == Some(m');
      NotesStep(m, log[n], m', Read(log[..n]));
    }
  }

  lemma NotesStep(m: S.Machine, e: S.Event, m': S.Machine, read: seq<Record>)
    requires S.Accept(m, e) == Some(m')
    ensures read + m.notes + (if e.Queued? then [e.note] else []) == (read + if e.Noted? then [e.note] else []) + m'.notes
  {
    hide S.Peek, S.Poke;
    if e.Noted? {
      assert m.notes == [e.note] + m'.notes;
    }
  }

  /** Once a handler runs, or all is settled, everything that was written has been read. */
  lemma AllRead(mem: S.Memory, s: S.State)
    requires S.Inv(mem, s) && (s.back.Handling? || S.Settled(s))
    ensures Read(s.log) == Written(s.log)
  {
    hide S.InvPhase, S.AcceptAll, S.All;
    ReadInOrder(mem, s.log);
    var m := S.MachineOf(mem, s);
    if s.back.Handling? {
      S.HandlingIsBusy(s, m);
    } else {
      SettledIsQuiet(s, m);
    }
    assert Read(s.log) + [] == Read(s.log);
  }

  lemma SettledIsQuiet(s: S.State, m: S.Machine)
    requires S.InvAt(s, m) && S.Settled(s)
    ensures m.notes == []
  {
    S.IdleIsQuiet(s, m);
    S.NotesBytes(m.notes);
  }

  // ---------------------------------------------------------------- the front end's program

  /** What the traced program does, one call at a time: trace something, or make a blocking call. */
  datatype Act = Trace(it: Item) | Block(req: Request, lookup: W.Lookup)

  /** The part of an act that is traced: a system call sends mappings of its own before its request. */
  function Traced(a: Act): (items: seq<Item>)
  {
    match a
    case Trace(it) => [it]
    case Block(req, lookup) => if req.Syscall? then [Item(W.SyscallPages(req.number, req.data), lookup)] else []
  }

  function AllTraced(acts: seq<Act>): (items: seq<Item>)
    decreases |acts|
  {
    if acts == [] then [] else AllTraced(acts[..|acts| - 1]) + Traced(acts[|acts| - 1])
  }

  /** What the front end does in a log: it writes trace records and starts calls. */
  function FrontEvents(log: seq<S.Event>): (es: seq<S.Event>)
  {
    if log == [] then []
    else
      var e := log[|log| - 1];
      FrontEvents(log[..|log| - 1]) + if e.Queued? || e.Issued? then [e] else []
  }

  function Queue(rs: seq<Record>): (es: seq<S.Event>)
    ensures |es| == |rs| && forall i :: 0 <= i < |rs| ==> es[i] == S.Queued(rs[i])
  {
    seq(|rs|, i requires 0 <= i < |rs| => S.Queued(rs[i]))
  }

  /** What the front end does in order to carry out the acts. */
  ghost function ActEvents(mode: W.Mode, code: Code, acts: seq<Act>): (es: seq<S.Event>)
    requires AllAccepted(mode, AllTraced(acts))
    decreases |acts|
  {
    if acts == [] then []
    else
      var before, a := acts[..|acts| - 1], acts[|acts| - 1];
      var st := WriteRun(mode, code, W.INITIAL, AllTraced(before)).1;
      ActEvents(mode, code, before)
      + Queue(WriteRun(mode, code, st, Traced(a)).0)
      + if a.Block? then [S.Issued(a.req)] else []
  }

  lemma {:induction false} WriteConcat(mode: W.Mode, code: Code, st: W.State, xs: seq<Item>, ys: seq<Item>)
    requires AllAccepted(mode, xs + ys)
    ensures AllAccepted(mode, xs) && AllAccepted(mode, ys)
    ensures var (a, mid) := WriteRun(mode, code, st, xs); var (b, end) := WriteRun(mode, code, mid, ys);
            WriteRun(mode, code, st, xs + ys) == (a + b, end)
    decreases |xs|
  {
    hide W.Write, W.Accepts;
    assert forall it <- xs :: it in xs + ys;
    assert forall it <- ys :: it in xs + ys;
    if xs == [] {
      assert xs + ys == ys;
      var b := WriteRun(mode, code, st, ys).0;
      assert [] + b == b;
    } else {
      var (recs, st') := W.Write(mode, code, xs[0].lookup, st, xs[0].call);
      assert (xs + ys)[1..] == xs[1..] + ys;
      WriteConcat(mode, code, st', xs[1..], ys);
      var (a, mid) := WriteRun(mode, code, st', xs[1..]);
      var b := WriteRun(mode, code, mid, ys).0;
      assert recs + (a + b) == (recs + a) + b;
    }
  }

  lemma {:induction false} WrittenConcat(xs: seq<S.Event>, ys: seq<S.Event>)
    ensures Written(xs + ys) == Written(xs) + Written(ys)
  {
    if ys == [] {
      assert xs + ys == xs;
    } else {
      var n := |ys| - 1;
      assert (xs + ys)[..|xs + ys| - 1] == xs + ys[..n];
      WrittenConcat(xs, ys[..n]);
    }
  }

  lemma {:induction false} WrittenQueue(rs: seq<Record>)
    ensures Written(Queue(rs)) == rs
  {
    if rs != [] {
      var n := |rs| - 1;
      assert Queue(rs)[..n] == Queue(rs[..n]);
      WrittenQueue(rs[..n]);
      assert rs == rs[..n] + [rs[n]];
    }
  }

  lemma {:induction false} WrittenIsFront(log: seq<S.Event>)
    ensures Written(FrontEvents(log)) == Written(log)
  {
    if log != [] {
      var n := |log| - 1;
      WrittenIsFront(log[..n]);
      if log[n].Queued? || log[n].Issued? {
        var f := FrontEvents(log[..n]);
        assert (f + [log[n]])[..|f|] == f;
      } else {
        assert FrontEvents(log) == FrontEvents(log[..n]) + [] == FrontEvents(log[..n]);
        assert Written(log) == Written(log[..n]) + [] == Written(log[..n]);
      }
    }
  }

  /** The records of the acts are those of the writer's run over what is traced. */
  lemma {:induction false} ActsWrite(mode: W.Mode, code: Code, acts: seq<Act>)
    requires AllAccepted(mode, AllTraced(acts))
    ensures Written(ActEvents(mode, code, acts)) == WriteRun(mode, code, W.INITIAL, AllTraced(acts)).0
    decreases |acts|
  {
    hide W.Write, WriteRun, W.Accepts, Traced, Queue;
    if acts == [] {
      NothingWritten(mode, code);
    } else {
      var before, a := acts[..|acts| - 1], acts[|acts| - 1];
      WriteConcat(mode, code, W.INITIAL, AllTraced(before), Traced(a));
      ActsWrite(mode, code, before);
      var st := WriteRun(mode, code, W.INITIAL, AllTraced(before)).1;
      var recs := WriteRun(mode, code, st, Traced(a)).0;
      var last := if a.Block? then [S.Issued(a.req)] else [];
      WrittenConcat(ActEvents(mode, code, before), Queue(recs));
      WrittenConcat(ActEvents(mode, code, before) + Queue(recs), last);
      WrittenQueue(recs);
      NoRecord(last);
    }
  }

  lemma NothingWritten(mode: W.Mode, code: Code)
    ensures AllTraced([]) == [] && WriteRun(mode, code, W.INITIAL, []).0 == []
    ensures Written([]) == []
  {
  }

  lemma NoRecord(es: seq<S.Event>)
    requires |es| <= 1 && forall e <- es :: e.Issued?
    ensures Written(es) == []
  {
    if es != [] {
      assert es[..|es| - 1] == [];
      assert es[0].Issued?;
    }
  }

  /** The front end of a session has carried out the acts, all of them traceable. */
  ghost predicate CarriesOut(mode: W.Mode, code: Code, sizes: Sizes, acts: seq<Act>, log: seq<S.Event>)
  {
    && AllTraceable(mode, sizes, AllTraced(acts)) && AllAccepted(mode, AllTraced(acts))
    && FrontEvents(log) == ActEvents(mode, code, acts)
  }

  /** In every run of a session whose front end carries out any acts: when a handler runs, or when all is settled,
      the records that the back end has read so far, given to a reader, bring it exactly in step with the writer; its
      client has seen precisely the instructions and events of the acts so far. */
  lemma HandlerInStep(mem: S.Memory, s: S.State, steps: seq<S.Step>, e: S.State,
                      heap: Heap, mode: W.Mode, code: Code, sizes: Sizes, acts: seq<Act>, rest: seq<Byte>)
    requires S.Inv(mem, s) && S.GoodRun(s, steps) && S.Run(s, steps) == Some(e) && (e.back.Handling? || S.Settled(e))
    requires CarriesOut(mode, code, sizes, acts, e.log)
    ensures AllAccepted(mode, AllTraced(acts))
    ensures var items := AllTraced(acts);
            var (recs, ws) := WriteRun(mode, code, W.INITIAL, items);
            && Read(e.log) == recs
            && Smooth(heap, R.Start(rest), recs)
            && Synced(mode, code, sizes, ViewRun(mode.mapping, code, BLANK, items), ws, Feed(heap, R.Start(rest), recs))
            && Feed(heap, R.Start(rest), recs).log == ViewRun(mode.mapping, code, BLANK, items).seen
  {
    hide S.Inv, S.Run, S.GoodRun, Synced, Smooth, Feed, WriteRun, ViewRun, AllTraceable, AllAccepted, Read, Written,
         ActEvents, FrontEvents, AllTraced;
    var items := AllTraced(acts);
    S.SafeRun(mem, s, steps);
    AllRead(mem, e);
    WrittenIsFront(e.log);
    ActsWrite(mode, code, acts);
    InitiallySynced(mode, code, sizes, rest);
    RunStaysSynced(heap, mode, code, sizes, BLANK, W.INITIAL, R.Start(rest), items);
    FinalView(mode, code, sizes, ViewRun(mode.mapping, code, BLANK, items), WriteRun(mode, code, W.INITIAL, items).1,
              Feed(heap, R.Start(rest), WriteRun(mode, code, W.INITIAL, items).0));
  }

  // ---------------------------------------------------------------- what a system call's handler knows

  /** The call that the synchronous machine is in is the last one that was started, and nothing was written since. */
  lemma {:induction false} CallIsLast(mem: S.Memory, log: seq<S.Event>)
    requires S.AcceptAll(S.Machine(S.Quiet, mem, []), log).Some?
    ensures var p := S.AcceptAll(S.Machine(S.Quiet, mem, []), log).value.phase;
            !p.Quiet? ==> FrontEvents(log) != [] && FrontEvents(log)[|FrontEvents(log)| - 1] == S.Issued(p.req)
  {
    hide S.Peek, S.Poke;
    if log != [] {
      CallIsLast(mem, log[..|log| - 1]);
    }
  }

  /** The mappings of a system call are sent by the call, not on their own. */
  ghost predicate Proper(acts: seq<Act>)
  {
    forall a <- acts :: a.Trace? ==> !a.it.call.SyscallPages?
  }

  lemma TraceWrites(mode: W.Mode, code: Code, st: W.State, it: Item)
    requires W.Accepts(mode, it.call) && !it.call.SyscallPages?
    ensures AllAccepted(mode, [it]) && WriteRun(mode, code, st, [it]).0 != []
  {
    hide W.CodeRecords, W.MappingRecords, W.InsnRecord;
    assert W.Write(mode, code, it.lookup, st, it.call).0 != [];
  }

  lemma LastAct(mode: W.Mode, code: Code, acts: seq<Act>, req: Request)
    requires AllAccepted(mode, AllTraced(acts)) && Proper(acts)
    requires var es := ActEvents(mode, code, acts); es != [] && es[|es| - 1] == S.Issued(req)
    ensures acts != [] && acts[|acts| - 1].Block? && acts[|acts| - 1].req == req
  {
    hide W.Write, WriteRun, W.Accepts;
    var before, a := acts[..|acts| - 1], acts[|acts| - 1];
    var st := WriteRun(mode, code, W.INITIAL, AllTraced(before)).1;
    if a.Trace? {
      assert a.it in AllTraced(acts) by { assert a.it in Traced(a); }
      TraceWrites(mode, code, st, a.it);
    }
  }

  lemma {:induction false} ViewSnoc(mapping: bool, code: Code, v: View, items: seq<Item>, it: Item)
    ensures ViewRun(mapping, code, v, items + [it]) == ViewAfter(mapping, code, ViewRun(mapping, code, v, items), it)
    decreases |items|
  {
    hide ViewAfter;
    if items == [] {
      assert (items + [it])[1..] == [];
    } else {
      assert (items + [it])[1..] == items[1..] + [it];
      ViewSnoc(mapping, code, ViewAfter(mapping, code, v, items[0]), items[1..], it);
    }
  }

  lemma FrameFound(lookup: W.Lookup, frames: map<Word64, Word64>, va: Word64)
    requires lookup(va / PAGE) != 0
    ensures va / PAGE in FirstFrames(true, lookup, frames, [va])
  {
    assert [va][1..] == [];
  }

  lemma HandledIsLast(mem: S.Memory, e: S.State, mode: W.Mode, code: Code, sizes: Sizes, acts: seq<Act>)
    requires S.Inv(mem, e) && e.back.Handling? && CarriesOut(mode, code, sizes, acts, e.log) && Proper(acts)
    ensures acts != [] && acts[|acts| - 1].Block? && acts[|acts| - 1].req == e.back.req
  {
    hide S.InvPhase, S.AcceptAll, AllTraceable, ActEvents, FrontEvents, AllTraced, Proper, AllAccepted;
    S.HandlingIsBusy(e, S.MachineOf(mem, e));
    CallIsLast(mem, e.log);
    LastAct(mode, code, acts, e.back.req);
  }

  /** The pages of the last call are among the frames, if they were mapped. */
  lemma LastPages(mode: W.Mode, code: Code, acts: seq<Act>, va: Word64)
    requires AllAccepted(mode, AllTraced(acts)) && acts != [] && acts[|acts| - 1].Block? && acts[|acts| - 1].req.Syscall?
    ensures var req := acts[|acts| - 1].req;
            && |req.data| >= W.ArgumentBytes(req.number)
            && (va in W.SyscallAddresses(req.number, req.data) && acts[|acts| - 1].lookup(va / PAGE) != 0 ==>
                  va / PAGE in ViewRun(true, code, BLANK, AllTraced(acts)).frames)
  {
    hide ViewRun, FirstFrames, Observe;
    var before, a := acts[..|acts| - 1], acts[|acts| - 1];
    var it := Item(W.SyscallPages(a.req.number, a.req.data), a.lookup);
    assert AllTraced(acts) == AllTraced(before) + [it];
    assert it in AllTraced(acts) && W.Accepts(mode, it.call);
    ViewSnoc(true, code, BLANK, AllTraced(before), it);
    if va in W.SyscallAddresses(a.req.number, a.req.data) && a.lookup(va / PAGE) != 0 {
      assert Addresses(it.call) == [va];
      FrameFound(a.lookup, ViewRun(true, code, BLANK, AllTraced(before)).frames, va);
    }
  }

  /** The address that a system call points to: the first argument of futex (202) and the second one of write (1). */
  predicate Points(req: Request, va: Word64)
    requires req.Syscall?
  {
    || (req.number == 202 && |req.data| >= 8 && va == FromLE(req.data[0..8]))
    || (req.number == 1 && |req.data| >= 16 && va == FromLE(req.data[8..16]))
  }

  /** When the handler of a system call runs, that call is the last thing the program did, and the reader knows the
      frame of the page that a futex or write call points to, if the page was mapped at the time of the call. */
  lemma HandlerKnowsPages(mem: S.Memory, s: S.State, steps: seq<S.Step>, e: S.State,
                          heap: Heap, mode: W.Mode, code: Code, sizes: Sizes, acts: seq<Act>, rest: seq<Byte>, va: Word64)
    requires S.Inv(mem, s) && S.GoodRun(s, steps) && S.Run(s, steps) == Some(e) && e.back.Handling? && e.back.req.Syscall?
    requires CarriesOut(mode, code, sizes, acts, e.log) && Proper(acts) && mode.mapping
    ensures AllAccepted(mode, AllTraced(acts)) && Read(e.log) == WriteRun(mode, code, W.INITIAL, AllTraced(acts)).0
    ensures acts != [] && acts[|acts| - 1].Block? && acts[|acts| - 1].req == e.back.req
    ensures (e.back.req.number == 202 ==> |e.back.req.data| >= 8) && (e.back.req.number == 1 ==> |e.back.req.data| >= 16)
    ensures Points(e.back.req, va) && acts[|acts| - 1].lookup(va / PAGE) != 0 ==>
              va / PAGE in Feed(heap, R.Start(rest), WriteRun(mode, code, W.INITIAL, AllTraced(acts)).0).vcache
  {
    hide S.Inv, S.Run, S.GoodRun, Smooth, Feed, WriteRun, ViewRun, AllTraced, AllAccepted, Read, CarriesOut, Proper, Synced;
    HandlerInStep(mem, s, steps, e, heap, mode, code, sizes, acts, rest);
    S.SafeRun(mem, s, steps);
    HandledIsLast(mem, e, mode, code, sizes, acts);
    LastPages(mode, code, acts, va);
    var (recs, ws) := WriteRun(mode, code, W.INITIAL, AllTraced(acts));
    FinalView(mode, code, sizes, ViewRun(mode.mapping, code, BLANK, AllTraced(acts)), ws, Feed(heap, R.Start(rest), recs));
  }
}
