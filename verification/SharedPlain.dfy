/** To their users, reference-counted pointers are plain pointers. */
module SharedPlain {
  import opened Wrappers
  import opened SharedPtr

  /** What each handle points to. */
  type Pointers = map<Hid, Option<Obj>>

  function Held(s: State): (m: Pointers)
  {
    map h | h in s.handles :: s.handles[h].px
  }

  /** The handles that are read exist. */
  predicate Known(m: Pointers, e: Event)
  {
    (e.Copied? || e.Cast? || e.Assigned? ==> e.from in m) && (e.Swapped? ==> e.a in m && e.b in m)
  }

  /** The same operations on plain pointers. */
  function PlainStep(m: Pointers, e: Event): (r: Pointers)
    requires Known(m, e)
  {
    match e
    case Allocated(_) => m
    case Defaulted(h) => m[h := None]
    case Constructed(h, p, _) => m[h := p]
    case Copied(h, from) => m[h := m[from]]
    case Cast(h, from, is_) => m[h := if is_ then m[from] else None]
    case Assigned(h, from, _) => m[h := m[from]]
    case Swapped(a, b) => m[a := m[b]][b := m[a]]
    case HasReset(h) => m[h := None]
    case HasResetTo(h, p, _) => m[h := p]
    case Destroyed(h) => m - {h}
  }

  /** Each operation does to the handles what it would do to plain pointers. */
  lemma StepIsPlain(s: State, e: Event)
    requires Inv(s) && Allowed(s, e)
    ensures Known(Held(s), e) && Held(Step(s, e)) == PlainStep(Held(s), e)
  {
    hide Inv, Default, Construct, Copy, DynamicCast, Assign, Release, ResetTo, Destroy, Managed;
    match e
    case Allocated(_) =>
    case Defaulted(h) => MadeIs(s, h, None, None);
    case Constructed(h, p, cell) => MadeIs(s, h, p, cell);
    case Copied(h, from) => CopyKeeps(s, h, from);
    case Cast(h, from, is_) => CastIs(s, h, from, is_);
    case Assigned(h, from, tmp) => AssignHandles(s, h, from, tmp);
    case Swapped(a, b) =>
    case HasReset(h) => ReleaseKeeps(s, h);
    case HasResetTo(h, p, cell) => ResetIs(s, h, p, cell);
    case Destroyed(h) => DestroyHandles(s, h, 0);
  }

  lemma MadeIs(s: State, h: Hid, p: Option<Obj>, cell: Option<Cell>)
    ensures Held(Construct(s, h, p, cell)) == Held(s)[h := p]
    ensures Held(Default(s, h)) == Held(s)[h := None]
  {
  }

  lemma ResetIs(s: State, h: Hid, p: Option<Obj>, cell: Option<Cell>)
    requires Inv(s) && h in s.handles
    ensures Held(ResetTo(s, h, p, cell)) == Held(s)[h := p]
  {
    ReleaseKeeps(s, h);
    hide Inv, Release, Construct;
    MadeIs(Release(s, h), h, p, cell);
  }

  lemma CastIs(s: State, h: Hid, from: Hid, is_: bool)
    requires Inv(s) && from in s.handles && h !in s.handles
    ensures DynamicCast(s, h, from, is_).handles == s.handles[h := if is_ then s.handles[from] else EMPTY]
  {
    hide CountsOk, OneToOne;
    CopyKeeps(s, h, from);
    assert HandleOk(s, s.handles[from]);
  }

  /** The run on plain pointers. */
  ghost predicate PlainRun(m: Pointers, events: seq<Event>, r: Pointers)
    decreases |events|
  {
    if events == [] then m == r else Known(m, events[0]) && PlainRun(PlainStep(m, events[0]), events[1..], r)
  }

  /** In every run the handles point where plain pointers would. */
  lemma {:induction false} RunIsPlain(s: State, events: seq<Event>, t: State)
    requires Inv(s) && RunsTo(s, events, t)
    ensures PlainRun(Held(s), events, Held(t))
    decreases |events|
  {
    hide Inv, Step, Allowed, Held, PlainStep;
    if events != [] {
      StepKeeps(s, events[0]);
      StepIsPlain(s, events[0]);
      RunIsPlain(Step(s, events[0]), events[1..], t);
    }
  }
}
