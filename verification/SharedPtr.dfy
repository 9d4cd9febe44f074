/** Reference-counted pointers: many handles over an explicit heap of counters and objects. */
module SharedPtr {
  import opened Wrappers

  type Obj = nat      // a managed object
  type Cell = nat     // the address of a counter
  type Hid = nat      // a handle

  datatype Handle = Handle(px: Option<Obj>, pn: Option<Cell>)

  /** `fault` is set by deleting a dead object or touching a dead counter. */
  datatype State = State(alive: set<Obj>, handles: map<Hid, Handle>, counters: map<Cell, int>, fault: bool)

  const EMPTY := Handle(None, None)

  // ---------------------------------------------------------------- the operations

  /** `delete p`; deleting the null pointer does nothing */
  function Delete(s: State, p: Option<Obj>): (r: State)
  {
    if p.None? then s else if p.value in s.alive then s.(alive := s.alive - {p.value}) else s.(fault := true)
  }

  /** shared_ptr_count::acquire; `cell` is the new counter, if memory can be allocated for it. */
  function Acquire(s: State, h: Hid, pn: Option<Cell>, p: Option<Obj>, cell: Option<Cell>): (r: State)
  {
    if p.None? then s.(handles := s.handles[h := Handle(p, pn)])
    else if pn.None? then
      if cell.Some? then s.(handles := s.handles[h := Handle(p, cell)], counters := s.counters[cell.value := 1])
      else Delete(s, p).(handles := s.handles[h := Handle(p, None)])
    else if pn.value !in s.counters then s.(handles := s.handles[h := Handle(p, pn)], fault := true)
    else s.(handles := s.handles[h := Handle(p, pn)], counters := s.counters[pn.value := s.counters[pn.value] + 1])
  }

  /** shared_ptr_count::release */
  function ReleaseCount(s: State, pn: Option<Cell>, p: Option<Obj>): (r: State)
    ensures r.handles == s.handles
  {
    if pn.None? then s
    else if pn.value !in s.counters then s.(fault := true)
    else if s.counters[pn.value] == 1 then Delete(s, p).(counters := s.counters - {pn.value})
    else s.(counters := s.counters[pn.value := s.counters[pn.value] - 1])
  }

  function Release(s: State, h: Hid): (r: State)
    requires h in s.handles
  {
    var r := ReleaseCount(s, s.handles[h].pn, s.handles[h].px);
    r.(handles := r.handles[h := EMPTY])
  }

  function Default(s: State, h: Hid): (r: State)
  {
    s.(handles := s.handles[h := EMPTY])
  }

  function Construct(s: State, h: Hid, p: Option<Obj>, cell: Option<Cell>): (r: State)
  {
    Acquire(s, h, None, p, cell)
  }

  /** The copy constructor, and the constructor for casts when it is given the pointer of `from`. */
  function Copy(s: State, h: Hid, from: Hid): (r: State)
    requires from in s.handles
  {
    Acquire(s, h, s.handles[from].pn, s.handles[from].px, None)
  }

  /** `is` says whether the object has the type that is asked for. */
  function DynamicCast(s: State, h: Hid, from: Hid, is_: bool): (r: State)
    requires from in s.handles
  {
    if s.handles[from].px.Some? && is_ then Copy(s, h, from) else Default(s, h)
  }

  function Swap(s: State, a: Hid, b: Hid): (r: State)
    requires a in s.handles && b in s.handles
  {
    s.(handles := s.handles[a := s.handles[b]][b := s.handles[a]])
  }

  function Destroy(s: State, h: Hid): (r: State)
    requires h in s.handles
  {
    var r := Release(s, h);
    r.(handles := r.handles - {h})
  }

  /** Copy and swap; `tmp` is the parameter of the assignment operator. */
  function Assign(s: State, h: Hid, from: Hid, tmp: Hid): (r: State)
    requires h in s.handles && from in s.handles && tmp !in s.handles
  {
    Destroy(Swap(Copy(s, tmp, from), h, tmp), tmp)
  }

  function ResetTo(s: State, h: Hid, p: Option<Obj>, cell: Option<Cell>): (r: State)
    requires h in s.handles
  {
    Construct(Release(s, h), h, p, cell)
  }

  // ---------------------------------------------------------------- the invariant

  function Sharing(hs: map<Hid, Handle>, c: Cell): (r: set<Hid>)
  {
    set h | h in hs && hs[h].pn == Some(c)
  }

  ghost predicate Managed(s: State, o: Obj)
  {
    exists h :: h in s.handles && s.handles[h].px == Some(o)
  }

  /** A handle has an object exactly if it has a counter, and both are alive. */
  ghost predicate HandleOk(s: State, h: Handle)
  {
    && (h.px.Some? <==> h.pn.Some?)
    && (h.px.Some? ==> h.px.value in s.alive && h.pn.value in s.counters)
  }

  ghost predicate HandlesOk(s: State)
  {
    forall h <- s.handles :: HandleOk(s, s.handles[h])
  }

  /** One counter per object and one object per counter. */
  ghost predicate OneToOne(hs: map<Hid, Handle>)
  {
    forall h, k :: h in hs && k in hs && hs[h].px.Some? && hs[k].px.Some? ==> (hs[h].px == hs[k].px <==> hs[h].pn == hs[k].pn)
  }

  /** Each counter is the number of handles that share it. */
  ghost predicate CountsOk(s: State)
  {
    forall c <- s.counters :: s.counters[c] > 0 && s.counters[c] == |Sharing(s.handles, c)|
  }

  ghost predicate Inv(s: State)
  {
    !s.fault && HandlesOk(s) && OneToOne(s.handles) && CountsOk(s)
  }

  lemma SharingSet(hs: map<Hid, Handle>, h: Hid, x: Handle, c: Cell)
    ensures Sharing(hs[h := x], c) == if x.pn == Some(c) then Sharing(hs, c) + {h} else Sharing(hs, c) - {h}
  {
  }

  lemma SharingDrop(hs: map<Hid, Handle>, h: Hid, c: Cell)
    requires h in hs && hs[h].pn != Some(c)
    ensures Sharing(hs - {h}, c) == Sharing(hs, c)
  {
  }

  // ---------------------------------------------------------------- every operation keeps it

  lemma DefaultKeeps(s: State, h: Hid)
    requires Inv(s) && h !in s.handles
    ensures Inv(Default(s, h))
  {
    forall c <- s.counters
      ensures Sharing(s.handles[h := EMPTY], c) == Sharing(s.handles, c)
    {
      SharingSet(s.handles, h, EMPTY, c);
    }
  }

  lemma CopyKeeps(s: State, h: Hid, from: Hid)
    requires Inv(s) && from in s.handles && h !in s.handles
    ensures Inv(Copy(s, h, from))
    // the assertion in the copy constructors
    ensures s.handles[from].px.Some? ==> s.handles[from].pn.Some? && s.counters[s.handles[from].pn.value] > 0
    ensures Copy(s, h, from).alive == s.alive && Copy(s, h, from).handles == s.handles[h := s.handles[from]]
  {
    var r := Copy(s, h, from);
    var x := s.handles[from];
    assert r.handles == s.handles[h := x];
    forall c <- s.counters
      ensures r.counters[c] > 0 && r.counters[c] == |Sharing(r.handles, c)|
    {
      SharingSet(s.handles, h, x, c);
    }
  }

  lemma SwapKeeps(s: State, a: Hid, b: Hid)
    requires Inv(s) && a in s.handles && b in s.handles
    ensures Inv(Swap(s, a, b))
  {
    hide Sharing;
    var m := s.handles[a := s.handles[b]];
    forall c <- s.counters
      ensures |Sharing(m[b := s.handles[a]], c)| == |Sharing(s.handles, c)|
    {
      SharingSet(s.handles, a, s.handles[b], c);
      SharingSet(m, b, s.handles[a], c);
      SharingIs(s.handles, a, c);
      SharingIs(s.handles, b, c);
    }
  }

  lemma SharingIs(hs: map<Hid, Handle>, h: Hid, c: Cell)
    requires h in hs
    ensures h in Sharing(hs, c) <==> hs[h].pn == Some(c)
  {
  }

  lemma ReleaseCounts(s: State, h: Hid)
    requires Inv(s) && h in s.handles
    ensures CountsOk(Release(s, h))
  {
    hide OneToOne, Sharing;
    var r := Release(s, h);
    forall c <- r.counters
      ensures r.counters[c] > 0 && r.counters[c] == |Sharing(r.handles, c)|
    {
      SharingSet(s.handles, h, EMPTY, c);
      SharingIs(s.handles, h, c);
    }
  }

  /** The only handle of a counter is the only handle of its object. */
  lemma LastHandle(s: State, h: Hid, k: Hid)
    requires Inv(s) && h in s.handles && k in s.handles && k != h && s.handles[h].pn.Some? && s.counters[s.handles[h].pn.value] == 1
    ensures s.handles[k].pn != s.handles[h].pn && s.handles[k].px != s.handles[h].px
  {
    var c := s.handles[h].pn.value;
    assert h in Sharing(s.handles, c);
    if k in Sharing(s.handles, c) {
      assert {h, k} <= Sharing(s.handles, c);
      SubsetSize({h, k}, Sharing(s.handles, c));
    }
  }

  lemma ReleaseKeeps(s: State, h: Hid)
    requires Inv(s) && h in s.handles
    ensures Inv(Release(s, h)) && Release(s, h).handles == s.handles[h := EMPTY]
  {
    ReleaseCounts(s, h);
    hide CountsOk;
    var r := Release(s, h);
    var x := s.handles[h];
    forall k <- r.handles
      ensures HandleOk(r, r.handles[k])
    {
      if k != h && x.pn.Some? && s.counters[x.pn.value] == 1 {
        LastHandle(s, h, k);
      }
    }
  }

  /** The object dies exactly if this was its last handle. */
  lemma ReleaseDestroys(s: State, h: Hid, o: Obj)
    requires Inv(s) && h in s.handles && Managed(s, o)
    ensures o !in Release(s, h).alive <==> !Managed(Release(s, h), o)
  {
    ReleaseKeeps(s, h);
    var r := Release(s, h);
    var x := s.handles[h];
    var k :| k in s.handles && s.handles[k].px == Some(o);
    if x.px == Some(o) {
      if s.counters[x.pn.value] == 1 {
        forall j <- r.handles
          ensures r.handles[j].px != Some(o)
        {
          if j != h { LastHandle(s, h, j); }
        }
      } else {
        var j := OtherHandle(s, h);
        assert r.handles[j].px == Some(o);
      }
    } else {
      assert r.handles[k].px == Some(o);
    }
  }

  lemma OtherHandle(s: State, h: Hid) returns (j: Hid)
    requires Inv(s) && h in s.handles && s.handles[h].pn.Some? && s.counters[s.handles[h].pn.value] != 1
    ensures j in s.handles && j != h && s.handles[j].px == s.handles[h].px
  {
    var c := s.handles[h].pn.value;
    var others := Sharing(s.handles, c) - {h};
    assert h in Sharing(s.handles, c);
    assert Sharing(s.handles, c) == others + {h};
    j :| j in others;
  }

  /** Handing a raw pointer to a handle is sound exactly if it is null, or if memory for the counter can be
      had and no other handle manages the object. */
  lemma ConstructExact(s: State, h: Hid, p: Option<Obj>, cell: Option<Cell>)
    requires Inv(s) && (h in s.handles ==> s.handles[h] == EMPTY)
    requires (p.Some? ==> p.value in s.alive) && (cell.Some? ==> cell.value !in s.counters)
    ensures Inv(Construct(s, h, p, cell)) <==> p.None? || (cell.Some? && !Managed(s, p.value))
  {
    hide Inv, Managed;
    if p.None? {
      ConstructNull(s, h, cell);
    } else if cell.None? {
      ConstructFails(s, h, p);
    } else if Managed(s, p.value) {
      ConstructTwice(s, h, p, cell);
    } else {
      ConstructCounts(s, h, p, cell);
      ConstructOwns(s, h, p, cell);
    }
  }

  lemma ConstructNull(s: State, h: Hid, cell: Option<Cell>)
    requires Inv(s) && (h in s.handles ==> s.handles[h] == EMPTY)
    ensures Inv(Construct(s, h, None, cell))
  {
    hide Sharing;
    forall c <- s.counters
      ensures |Sharing(s.handles[h := EMPTY], c)| == |Sharing(s.handles, c)|
    {
      SharingSet(s.handles, h, EMPTY, c);
      if h in s.handles {
        SharingIs(s.handles, h, c);
      } else {
        assert Sharing(s.handles, c) - {h} == Sharing(s.handles, c) by { NotSharing(s.handles, h, c); }
      }
    }
  }

  lemma NotSharing(hs: map<Hid, Handle>, h: Hid, c: Cell)
    requires h !in hs
    ensures h !in Sharing(hs, c)
  {
  }

  lemma ConstructFails(s: State, h: Hid, p: Option<Obj>)
    requires p.Some?
    ensures !Inv(Construct(s, h, p, None))
  {
    var r := Construct(s, h, p, None);
    assert !HandleOk(r, r.handles[h]);
  }

  lemma ConstructTwice(s: State, h: Hid, p: Option<Obj>, cell: Option<Cell>)
    requires Inv(s) && p.Some? && cell.Some? && cell.value !in s.counters && Managed(s, p.value)
    requires h in s.handles ==> s.handles[h] == EMPTY
    ensures !Inv(Construct(s, h, p, cell))
  {
    hide CountsOk, Sharing;
    var r := Construct(s, h, p, cell);
    var k :| k in s.handles && s.handles[k].px == p;
    assert r.handles[k].px == r.handles[h].px && r.handles[k].pn != r.handles[h].pn;
  }

  lemma ConstructCounts(s: State, h: Hid, p: Option<Obj>, cell: Option<Cell>)
    requires Inv(s) && p.Some? && cell.Some? && cell.value !in s.counters && (h in s.handles ==> s.handles[h] == EMPTY)
    ensures CountsOk(Construct(s, h, p, cell))
  {
    hide OneToOne;
    var r := Construct(s, h, p, cell);
    forall c <- r.counters
      ensures r.counters[c] > 0 && r.counters[c] == |Sharing(r.handles, c)|
    {
      SharingSet(s.handles, h, r.handles[h], c);
      if c == cell.value {
        assert Sharing(s.handles, c) == {};
      } else {
        assert Sharing(s.handles, c) - {h} == Sharing(s.handles, c);
      }
    }
  }

  lemma ConstructOwns(s: State, h: Hid, p: Option<Obj>, cell: Option<Cell>)
    requires Inv(s) && p.Some? && cell.Some? && cell.value !in s.counters && !Managed(s, p.value) && p.value in s.alive
    requires CountsOk(Construct(s, h, p, cell))
    ensures Inv(Construct(s, h, p, cell))
  {
    hide CountsOk, Sharing;
  }

  lemma DropKeeps(s: State, h: Hid)
    requires Inv(s) && h in s.handles && s.handles[h] == EMPTY
    ensures Inv(s.(handles := s.handles - {h}))
  {
    hide Sharing;
    forall c <- s.counters
      ensures Sharing(s.handles - {h}, c) == Sharing(s.handles, c)
    {
      SharingDrop(s.handles, h, c);
    }
  }

  lemma DestroyKeeps(s: State, h: Hid)
    requires Inv(s) && h in s.handles
    ensures Inv(Destroy(s, h))
  {
    hide Inv;
    ReleaseKeeps(s, h);
    DropKeeps(Release(s, h), h);
  }

  lemma AssignKeeps(s: State, h: Hid, from: Hid, tmp: Hid)
    requires Inv(s) && h in s.handles && from in s.handles && tmp !in s.handles
    ensures Inv(Assign(s, h, from, tmp))
  {
    hide Inv, Swap, Destroy, Copy;
    CopyKeeps(s, tmp, from);
    SwapKeeps(Copy(s, tmp, from), h, tmp);
    SwapHandles(Copy(s, tmp, from), h, tmp);
    DestroyKeeps(Swap(Copy(s, tmp, from), h, tmp), tmp);
  }

  lemma SwapHandles(s: State, a: Hid, b: Hid)
    requires a in s.handles && b in s.handles
    ensures Swap(s, a, b) == s.(handles := s.handles[a := s.handles[b]][b := s.handles[a]])
  {
  }

  lemma ResetToKeeps(s: State, h: Hid, p: Option<Obj>, cell: Option<Cell>)
    requires Inv(s) && h in s.handles
    requires p.Some? ==> p.value in s.alive && !Managed(s, p.value) && cell.Some?
    requires cell.Some? ==> cell.value !in Release(s, h).counters
    ensures Inv(ResetTo(s, h, p, cell))
  {
    hide Inv, Construct;
    ReleaseKeeps(s, h);
    if p.Some? {
      ReleaseSpares(s, h, p.value);
    }
    hide Release;
    assert p.Some? ==> !Managed(Release(s, h), p.value);
    ConstructExact(Release(s, h), h, p, cell);
  }

  /** Objects of other handles, and objects of none, are not touched. */
  lemma ReleaseSpares(s: State, h: Hid, o: Obj)
    requires Inv(s) && h in s.handles && s.handles[h].px != Some(o)
    ensures o in Release(s, h).alive <==> o in s.alive
  {
  }

  // ---------------------------------------------------------------- runs

  datatype Event =
    | Allocated(o: Obj)
    | Defaulted(h: Hid)
    | Constructed(h: Hid, p: Option<Obj>, cell: Option<Cell>)
    | Copied(h: Hid, from: Hid)                     // also static casts
    | Cast(h: Hid, from: Hid, is_: bool)
    | Assigned(h: Hid, from: Hid, tmp: Hid)
    | Swapped(a: Hid, b: Hid)
    | HasReset(h: Hid)
    | HasResetTo(h: Hid, p: Option<Obj>, cell: Option<Cell>)
    | Destroyed(h: Hid)

  /** New handles are new, used handles exist, a raw pointer is handed to one handle only, and memory suffices. */
  ghost predicate Allowed(s: State, e: Event)
  {
    match e
    case Allocated(o) => o !in s.alive
    case Defaulted(h) => h !in s.handles
    case Constructed(h, p, cell) => h !in s.handles && RawOk(s, p, cell) && (cell.Some? ==> cell.value !in s.counters)
    case Copied(h, from) => h !in s.handles && from in s.handles
    case Cast(h, from, _) => h !in s.handles && from in s.handles
    case Assigned(h, from, tmp) => h in s.handles && from in s.handles && tmp !in s.handles
    case Swapped(a, b) => a in s.handles && b in s.handles
    case HasReset(h) => h in s.handles
    case HasResetTo(h, p, cell) => h in s.handles && RawOk(s, p, cell) && (cell.Some? ==> cell.value !in Release(s, h).counters)
    case Destroyed(h) => h in s.handles
  }

  ghost predicate RawOk(s: State, p: Option<Obj>, cell: Option<Cell>)
  {
    p.Some? ==> p.value in s.alive && !Managed(s, p.value) && cell.Some?
  }

  ghost function Step(s: State, e: Event): (r: State)
    requires Allowed(s, e)
  {
    match e
    case Allocated(o) => s.(alive := s.alive + {o})
    case Defaulted(h) => Default(s, h)
    case Constructed(h, p, cell) => Construct(s, h, p, cell)
    case Copied(h, from) => Copy(s, h, from)
    case Cast(h, from, is_) => DynamicCast(s, h, from, is_)
    case Assigned(h, from, tmp) => Assign(s, h, from, tmp)
    case Swapped(a, b) => Swap(s, a, b)
    case HasReset(h) => Release(s, h)
    case HasResetTo(h, p, cell) => ResetTo(s, h, p, cell)
    case Destroyed(h) => Destroy(s, h)
  }

  lemma AllocateKeeps(s: State, o: Obj)
    requires Inv(s)
    ensures Inv(s.(alive := s.alive + {o}))
  {
    hide CountsOk, OneToOne;
    assert CountsOk(s.(alive := s.alive + {o})) by { SameCounts(s, s.(alive := s.alive + {o})); }
  }

  lemma SameCounts(s: State, t: State)
    requires CountsOk(s) && s.counters == t.counters && s.handles == t.handles
    ensures CountsOk(t)
  {
  }

  lemma StepKeeps(s: State, e: Event)
    requires Inv(s) && Allowed(s, e)
    ensures Inv(Step(s, e))
  {
    hide Inv, Default, Construct, Copy, Assign, Swap, Release, ResetTo, Destroy;
    match e
    case Allocated(o) => AllocateKeeps(s, o);
    case Defaulted(h) => DefaultKeeps(s, h);
    case Constructed(h, p, cell) => ConstructExact(s, h, p, cell);
    case Copied(h, from) => CopyKeeps(s, h, from);
    case Cast(h, from, is_) => CopyKeeps(s, h, from); DefaultKeeps(s, h);
    case Assigned(h, from, tmp) => AssignKeeps(s, h, from, tmp);
    case Swapped(a, b) => SwapKeeps(s, a, b);
    case HasReset(h) => ReleaseKeeps(s, h);
    case HasResetTo(h, p, cell) => ResetToKeeps(s, h, p, cell);
    case Destroyed(h) => DestroyKeeps(s, h);
  }

  const START := State({}, map[], map[], false)

  /** Allowed events lead from s to t. */
  ghost predicate RunsTo(s: State, events: seq<Event>, t: State)
    decreases |events|
  {
    if events == [] then s == t else Allowed(s, events[0]) && RunsTo(Step(s, events[0]), events[1..], t)
  }

  lemma {:induction false} RunKeeps(s: State, events: seq<Event>, t: State)
    requires Inv(s) && RunsTo(s, events, t)
    ensures Inv(t)
    decreases |events|
  {
    hide Inv, Step, Allowed;
    if events != [] {
      StepKeeps(s, events[0]);
      RunKeeps(Step(s, events[0]), events[1..], t);
    }
  }

  /** In every run, counters count handles and nothing dead is ever touched. */
  lemma RunsKeepInv(events: seq<Event>, t: State)
    requires RunsTo(START, events, t)
    ensures Inv(t)
  {
    RunKeeps(START, events, t);
  }

  // ---------------------------------------------------------------- raw pointers and faults

  /** Whatever is done from here on, nothing dead is ever touched. */
  ghost predicate NeverFaults(s: State)
  {
    forall events, t :: RunsTo(s, events, t) ==> !t.fault
  }

  /** A dead object that a counter still counts handles for. */
  ghost predicate Doomed(s: State, o: Obj, c: Cell)
  {
    && o !in s.alive && c in s.counters && s.counters[c] == |Sharing(s.handles, c)| > 0
    && forall h <- Sharing(s.handles, c) :: s.handles[h].px == Some(o)
  }

  lemma DoomedStep(s: State, o: Obj, c: Cell, h: Hid)
    requires Doomed(s, o, c) && h in Sharing(s.handles, c)
    ensures Destroy(s, h).fault || (Doomed(Destroy(s, h), o, c) && |Sharing(Destroy(s, h).handles, c)| < |Sharing(s.handles, c)|)
  {
    var r := Destroy(s, h);
    assert r.handles == s.handles - {h};
    assert Sharing(r.handles, c) == Sharing(s.handles, c) - {h};
  }

  /** Destroying its handles one by one deletes the dead object once more. */
  lemma {:induction false} DoomedFaults(s: State, o: Obj, c: Cell) returns (events: seq<Event>, t: State)
    requires Doomed(s, o, c)
    ensures RunsTo(s, events, t) && t.fault
    decreases |Sharing(s.handles, c)|
  {
    hide Sharing;
    var h :| h in Sharing(s.handles, c);
    assert h in s.handles by { SharingMember(s.handles, c, h); }
    DoomedStep(s, o, c, h);
    var r := Destroy(s, h);
    hide Doomed, Destroy;
    if r.fault {
      events, t := [Destroyed(h)], r;
      assert RunsTo(r, [], r);
      RunsCons(s, Destroyed(h), [], r);
    } else {
      events, t := DoomedFaults(r, o, c);
      RunsCons(s, Destroyed(h), events, t);
      events := [Destroyed(h)] + events;
    }
  }

  lemma SharingMember(hs: map<Hid, Handle>, c: Cell, h: Hid)
    ensures h in Sharing(hs, c) ==> h in hs
  {
  }

  lemma RunsCons(s: State, e: Event, events: seq<Event>, t: State)
    requires Allowed(s, e) && RunsTo(Step(s, e), events, t)
    ensures RunsTo(s, [e] + events, t)
  {
    hide Allowed, Step;
    assert ([e] + events)[1..] == events;
  }

  lemma {:induction false} NewHandle(used: set<Hid>) returns (h: Hid)
    ensures forall k <- used :: k < h
  {
    if used == {} {
      h := 0;
    } else {
      var k :| k in used;
      var rest := NewHandle(used - {k});
      h := if rest <= k then k + 1 else rest;
      assert forall j <- used :: j == k || j in used - {k};
    }
  }

  /** Without memory for the counter the handle holds a dead object; copying it deletes the object again. */
  lemma LostFaults(s: State, h: Hid, p: Option<Obj>) returns (events: seq<Event>, t: State)
    requires p.Some? && p.value in s.alive
    ensures RunsTo(Construct(s, h, p, None), events, t) && t.fault
  {
    var r := Construct(s, h, p, None);
    var k := NewHandle(r.handles.Keys);
    t := Copy(r, k, h);
    RunsCons(r, Copied(k, h), [], t);
    events := [Copied(k, h)] + [];
  }

  /** An object with two counters is dead once one of them runs out, and the other one still counts handles. */
  lemma TwiceFaults(s: State, h: Hid, p: Option<Obj>, cell: Option<Cell>) returns (events: seq<Event>, t: State)
    requires Inv(s) && p.Some? && cell.Some? && cell.value !in s.counters && Managed(s, p.value)
    requires (h in s.handles ==> s.handles[h] == EMPTY) && p.value in s.alive
    ensures RunsTo(Construct(s, h, p, cell), events, t) && t.fault
  {
    var r := Construct(s, h, p, cell);
    var k :| k in s.handles && s.handles[k].px == p;
    var c := s.handles[k].pn.value;
    OneCounterLeft(s, h, p, cell, c, k);
    hide Inv, Construct, Destroy, Doomed;
    events, t := DoomedFaults(Destroy(r, h), p.value, c);
    RunsCons(r, Destroyed(h), events, t);
    events := [Destroyed(h)] + events;
  }

  lemma OneCounterLeft(s: State, h: Hid, p: Option<Obj>, cell: Option<Cell>, c: Cell, k: Hid)
    requires Inv(s) && p.Some? && cell.Some? && cell.value !in s.counters && p.value in s.alive
    requires (h in s.handles ==> s.handles[h] == EMPTY) && k in s.handles && s.handles[k] == Handle(p, Some(c))
    ensures h in Construct(s, h, p, cell).handles && Doomed(Destroy(Construct(s, h, p, cell), h), p.value, c)
  {
    var r := Construct(s, h, p, cell);
    var d := Destroy(r, h);
    assert d.handles == s.handles - {h};
    assert Sharing(d.handles, c) == Sharing(s.handles, c);
    assert k in Sharing(d.handles, c);
    assert d.counters[c] == s.counters[c];
  }

  /** Handing a raw pointer to a handle is safe for ever exactly if it is null, or if memory for the counter can be
      had and no other handle manages the object: in all other cases some later run deletes it twice. */
  lemma ConstructSafeExact(s: State, h: Hid, p: Option<Obj>, cell: Option<Cell>)
    requires Inv(s) && (h in s.handles ==> s.handles[h] == EMPTY)
    requires (p.Some? ==> p.value in s.alive) && (cell.Some? ==> cell.value !in s.counters)
    ensures NeverFaults(Construct(s, h, p, cell)) <==> p.None? || (cell.Some? && !Managed(s, p.value))
  {
    hide RunsTo, Construct;
    var r := Construct(s, h, p, cell);
    ConstructExact(s, h, p, cell);
    if p.None? || (cell.Some? && !Managed(s, p.value)) {
      forall events, t | RunsTo(r, events, t)
        ensures !t.fault
      {
        RunKeeps(r, events, t);
      }
    } else if cell.None? {
      var events, t := LostFaults(s, h, p);
    } else {
      var events, t := TwiceFaults(s, h, p, cell);
    }
  }

  // ---------------------------------------------------------------- who dies when

  lemma DestroyHandles(s: State, h: Hid, o: Obj)
    requires Inv(s) && h in s.handles
    ensures Destroy(s, h).handles == s.handles - {h} && Destroy(s, h).alive == Release(s, h).alive
    ensures Managed(Destroy(s, h), o) <==> Managed(Release(s, h), o)
  {
    ReleaseKeeps(s, h);
    hide Release, Inv;
    var r := Release(s, h);
    assert r.handles - {h} == s.handles - {h};
    if Managed(r, o) {
      var k :| k in r.handles && r.handles[k].px == Some(o);
      assert k in Destroy(s, h).handles && Destroy(s, h).handles[k].px == Some(o);
    }
  }

  lemma SwapManaged(s: State, a: Hid, b: Hid, o: Obj)
    requires a in s.handles && b in s.handles && Managed(s, o)
    ensures Managed(Swap(s, a, b), o)
  {
    var r := Swap(s, a, b);
    var k :| k in s.handles && s.handles[k].px == Some(o);
    if k == a {
      assert r.handles[b].px == Some(o);
    } else if k == b {
      assert r.handles[a].px == Some(o);
    } else {
      assert r.handles[k].px == Some(o);
    }
  }

  lemma GrowManaged(s: State, t: State, h: Hid, o: Obj)
    requires h !in s.handles && t.handles.Keys == s.handles.Keys + {h} && forall k <- s.handles :: t.handles[k] == s.handles[k]
    requires Managed(s, o)
    ensures Managed(t, o)
  {
    var k :| k in s.handles && s.handles[k].px == Some(o);
    assert t.handles[k].px == Some(o);
  }

  /** An assignment gives h what `from` had, and leaves the other handles alone. */
  lemma AssignHandles(s: State, h: Hid, from: Hid, tmp: Hid)
    requires Inv(s) && h in s.handles && from in s.handles && tmp !in s.handles
    ensures Assign(s, h, from, tmp).handles == s.handles[h := s.handles[from]]
  {
    hide Inv, Swap, Destroy, Copy;
    var a := Copy(s, tmp, from);
    CopyKeeps(s, tmp, from);
    SwapKeeps(a, h, tmp);
    SwapHandles(a, h, tmp);
    DestroyHandles(Swap(a, h, tmp), tmp, 0);
    assert s.handles[h := s.handles[from]] == a.handles[h := a.handles[tmp]][tmp := a.handles[h]] - {tmp};
  }

  lemma AssignDestroys(s: State, h: Hid, from: Hid, tmp: Hid, o: Obj)
    requires Inv(s) && h in s.handles && from in s.handles && tmp !in s.handles && Managed(s, o)
    ensures o !in Assign(s, h, from, tmp).alive <==> !Managed(Assign(s, h, from, tmp), o)
  {
    hide Inv, Swap, Destroy, Copy, Managed, Release;
    var a := Copy(s, tmp, from);
    CopyKeeps(s, tmp, from);
    GrowManaged(s, a, tmp, o);
    SwapKeeps(a, h, tmp);
    SwapHandles(a, h, tmp);
    SwapManaged(a, h, tmp, o);
    ReleaseDestroys(Swap(a, h, tmp), tmp, o);
    DestroyHandles(Swap(a, h, tmp), tmp, o);
  }

  lemma ConstructSpares(s: State, h: Hid, p: Option<Obj>, cell: Option<Cell>, o: Obj)
    requires (h in s.handles ==> s.handles[h] == EMPTY) && (p.Some? ==> cell.Some? && p != Some(o))
    ensures var r := Construct(s, h, p, cell); r.alive == s.alive && (Managed(r, o) <==> Managed(s, o))
  {
    var r := Construct(s, h, p, cell);
    if Managed(s, o) {
      var k :| k in s.handles && s.handles[k].px == Some(o);
      assert r.handles[k].px == Some(o);
    }
  }

  lemma ResetToDestroys(s: State, h: Hid, p: Option<Obj>, cell: Option<Cell>, o: Obj)
    requires Inv(s) && Allowed(s, HasResetTo(h, p, cell)) && Managed(s, o)
    ensures o !in ResetTo(s, h, p, cell).alive <==> !Managed(ResetTo(s, h, p, cell), o)
  {
    hide Inv, Release, Construct, Managed;
    ReleaseKeeps(s, h);
    ReleaseDestroys(s, h, o);
    ConstructSpares(Release(s, h), h, p, cell, o);
  }

  /** In every step, an object that handles manage dies exactly if its last handle lets go. */
  lemma StepDestroys(s: State, e: Event, o: Obj)
    requires Inv(s) && Allowed(s, e) && Managed(s, o)
    ensures o !in Step(s, e).alive <==> !Managed(Step(s, e), o)
  {
    hide Inv, Default, Construct, Copy, Assign, Swap, Release, ResetTo, Destroy, Managed;
    ManagedAlive(s, o);
    match e
    case Allocated(a) => SameHandles(s, Step(s, e), o);
    case Defaulted(h) => DefaultManaged(s, h, o);
    case Constructed(h, p, cell) => ConstructSpares(s, h, p, cell, o);
    case Copied(h, from) => CopyManaged(s, h, from, o);
    case Cast(h, from, is_) => CopyManaged(s, h, from, o); DefaultManaged(s, h, o);
    case Assigned(h, from, tmp) => AssignDestroys(s, h, from, tmp, o);
    case Swapped(a, b) => SwapManaged(s, a, b, o); SwapHandles(s, a, b);
    case HasReset(h) => ReleaseDestroys(s, h, o);
    case HasResetTo(h, p, cell) => ResetToDestroys(s, h, p, cell, o);
    case Destroyed(h) => ReleaseDestroys(s, h, o); DestroyHandles(s, h, o);
  }

  lemma ManagedAlive(s: State, o: Obj)
    requires Inv(s) && Managed(s, o)
    ensures o in s.alive
  {
  }

  lemma SameHandles(s: State, t: State, o: Obj)
    requires s.handles == t.handles
    ensures Managed(s, o) <==> Managed(t, o)
  {
  }

  lemma DefaultManaged(s: State, h: Hid, o: Obj)
    requires Managed(s, o) && h !in s.handles
    ensures Managed(Default(s, h), o) && Default(s, h).alive == s.alive
  {
    GrowManaged(s, Default(s, h), h, o);
  }

  lemma CopyManaged(s: State, h: Hid, from: Hid, o: Obj)
    requires Inv(s) && from in s.handles && h !in s.handles && Managed(s, o)
    ensures Managed(Copy(s, h, from), o) && Copy(s, h, from).alive == s.alive
  {
    hide Inv, Copy;
    CopyKeeps(s, h, from);
    GrowManaged(s, Copy(s, h, from), h, o);
  }

  /** An object that no handle manages is left alone; and a dead object stays dead until it is allocated anew. */
  lemma StepSpares(s: State, e: Event, o: Obj)
    requires Inv(s) && Allowed(s, e) && !Managed(s, o)
    ensures o in Step(s, e).alive <==> o in s.alive || e == Allocated(o)
  {
    hide Inv, Default, Construct, Copy, Assign, Swap, Release, ResetTo, Destroy, Managed, HandlesOk;
    match e
    case Allocated(a) =>
    case Defaulted(h) => DefaultAlive(s, h);
    case Constructed(h, p, cell) => ConstructAlive(s, h, p, cell);
    case Copied(h, from) => CopyKeeps(s, h, from);
    case Cast(h, from, is_) => CopyKeeps(s, h, from); DefaultAlive(s, h);
    case Assigned(h, from, tmp) => AssignSpares(s, h, from, tmp, o);
    case Swapped(a, b) => SwapHandles(s, a, b);
    case HasReset(h) => NotManaged(s, h, o); ReleaseSpares(s, h, o);
    case HasResetTo(h, p, cell) =>
      NotManaged(s, h, o);
      ReleaseSpares(s, h, o);
      ReleaseKeeps(s, h);
      ResetToAlive(s, h, p, cell);
    case Destroyed(h) => NotManaged(s, h, o); ReleaseSpares(s, h, o); DestroyHandles(s, h, o);
  }

  lemma NotManaged(s: State, h: Hid, o: Obj)
    requires !Managed(s, o) && h in s.handles
    ensures s.handles[h].px != Some(o)
  {
  }

  lemma DefaultAlive(s: State, h: Hid)
    ensures Default(s, h).alive == s.alive
  {
  }

  lemma ConstructAlive(s: State, h: Hid, p: Option<Obj>, cell: Option<Cell>)
    requires p.Some? ==> cell.Some?
    ensures Construct(s, h, p, cell).alive == s.alive
  {
  }

  lemma ResetToAlive(s: State, h: Hid, p: Option<Obj>, cell: Option<Cell>)
    requires h in s.handles && (p.Some? ==> cell.Some?)
    ensures ResetTo(s, h, p, cell).alive == Release(s, h).alive
  {
    hide Release;
  }

  lemma AssignSpares(s: State, h: Hid, from: Hid, tmp: Hid, o: Obj)
    requires Inv(s) && h in s.handles && from in s.handles && tmp !in s.handles && !Managed(s, o)
    ensures o in Assign(s, h, from, tmp).alive <==> o in s.alive
  {
    hide Inv, Swap, Destroy, Copy, Managed, Release;
    var a := Copy(s, tmp, from);
    CopyKeeps(s, tmp, from);
    SwapKeeps(a, h, tmp);
    SwapHandles(a, h, tmp);
    NotManaged(s, h, o);
    ReleaseSpares(Swap(a, h, tmp), tmp, o);
    DestroyHandles(Swap(a, h, tmp), tmp, o);
  }

  // ---------------------------------------------------------------- the pointers at work

  class World {
    var alive: set<Obj>
    var handles: map<Hid, Handle>
    var counters: map<Cell, int>
    var fault: bool

    ghost function Abs(): (s: State)
      reads this
    {
      State(alive, handles, counters, fault)
    }

    constructor ()
      ensures Abs() == START && Inv(Abs())
    {
      alive, handles, counters, fault := {}, map[], map[], false;
    }

    method DeleteObject(p: Option<Obj>)
      modifies `alive, `fault
      ensures Abs() == Delete(old(Abs()), p)
    {
      if p.Some? {
        if p.value in alive {
          alive := alive - {p.value};
        } else {
          fault := true;
        }
      }
    }

    method AcquireCount(pn: Option<Cell>, p: Option<Obj>, cell: Option<Cell>) returns (pn': Option<Cell>)
      modifies `alive, `fault, `counters
      ensures forall h :: Acquire(old(Abs()), h, pn, p, cell) == Abs().(handles := handles[h := Handle(p, pn')])
    {
      pn' := pn;
      if p.Some? {
        if pn.None? {
          if cell.Some? {
            counters := counters[cell.value := 1];
            pn' := cell;
          } else {
            DeleteObject(p);
          }
        } else {
          if pn.value in counters {
            counters := counters[pn.value := counters[pn.value] + 1];
          } else {
            fault := true;
          }
        }
      }
    }

    method ReleaseCounter(pn: Option<Cell>, p: Option<Obj>)
      modifies `alive, `fault, `counters
      ensures Abs() == ReleaseCount(old(Abs()), pn, p)
    {
      if pn.Some? {
        if pn.value in counters {
          counters := counters[pn.value := counters[pn.value] - 1];
          if counters[pn.value] == 0 {
            DeleteObject(p);
            counters := counters - {pn.value};
            assert counters == old(counters) - {pn.value};
          }
        } else {
          fault := true;
        }
      }
    }

    method New(h: Hid, p: Option<Obj>, cell: Option<Cell>)
      modifies this
      ensures Abs() == Construct(old(Abs()), h, p, cell)
    {
      var pn := AcquireCount(None, p, cell);
      handles := handles[h := Handle(p, pn)];
    }

    method CopyTo(h: Hid, from: Hid)
      requires from in handles
      modifies this
      ensures Abs() == Copy(old(Abs()), h, from)
    {
      var pn := AcquireCount(handles[from].pn, handles[from].px, None);
      handles := handles[h := Handle(handles[from].px, pn)];
    }

    method DynamicPointerCast(h: Hid, from: Hid, is_: bool)
      requires from in handles
      modifies this
      ensures Abs() == DynamicCast(old(Abs()), h, from, is_)
    {
      if handles[from].px.Some? && is_ {
        CopyTo(h, from);
      } else {
        handles := handles[h := EMPTY];
      }
    }

    method SwapWith(a: Hid, b: Hid)
      requires a in handles && b in handles
      modifies `handles
      ensures Abs() == Swap(old(Abs()), a, b)
    {
      var x := handles[a];
      handles := handles[a := handles[b]];
      handles := handles[b := x];
    }

    method Reset(h: Hid)
      requires h in handles
      modifies this
      ensures Abs() == Release(old(Abs()), h)
    {
      ReleaseCounter(handles[h].pn, handles[h].px);
      handles := handles[h := EMPTY];
    }

    method ResetWith(h: Hid, p: Option<Obj>, cell: Option<Cell>)
      requires h in handles
      modifies this
      ensures Abs() == ResetTo(old(Abs()), h, p, cell)
    {
      hide Release, Construct;
      Reset(h);
      New(h, p, cell);
    }

    method Drop(h: Hid)
      requires h in handles
      modifies this
      ensures Abs() == Destroy(old(Abs()), h)
    {
      hide Release;
      Reset(h);
      handles := handles - {h};
    }

    method AssignFrom(h: Hid, from: Hid, tmp: Hid)
      requires Inv(Abs()) && h in handles && from in handles && tmp !in handles
      modifies this
      ensures Abs() == Assign(old(Abs()), h, from, tmp) && Inv(Abs())
      ensures handles == old(handles)[h := old(handles[from])]
    {
      hide Copy, Swap, Destroy, Inv;
      ghost var s := Abs();
      CopyKeeps(s, tmp, from);
      AssignKeeps(s, h, from, tmp);
      AssignHandles(s, h, from, tmp);
      CopyTo(tmp, from);
      SwapHandles(Abs(), h, tmp);
      SwapWith(h, tmp);
      Drop(tmp);
    }

    /** The number of handles that share the object. */
    method UseCount(h: Hid) returns (n: int)
      requires Inv(Abs()) && h in handles
      ensures handles[h].px.None? ==> n == 0
      ensures handles[h].px.Some? ==> n == |set k | k in handles && handles[k].px == handles[h].px| && n > 0
    {
      n := 0;
      if handles[h].pn.Some? {
        n := counters[handles[h].pn.value];
        assert (set k | k in handles && handles[k].px == handles[h].px) == Sharing(handles, handles[h].pn.value) by {
          SameShare(Abs(), h);
        }
      }
    }
  }

  lemma SameShare(s: State, h: Hid)
    requires Inv(s) && h in s.handles && s.handles[h].pn.Some?
    ensures (set k | k in s.handles && s.handles[k].px == s.handles[h].px) == Sharing(s.handles, s.handles[h].pn.value)
  {
    hide CountsOk;
  }
}
